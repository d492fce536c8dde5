/**
  Power loss in the middle of a format. The signature is stored before the tables (src/fat32.c:154-166), and a disk that
  is signed is never formatted again (src/fat32.c:172-183): here is what each crash leaves.
*/
module FormatCrash {
  import opened Directory
  import opened Fat
  import opened Tree
  import opened Volumes
  import opened Crash
  import opened Reading
  import opened DeleteCrash
  import opened Runs

  /** The disk after the first n sector writes of a format. */
  function AfterFormat(d: Disk, f: Map, n: nat): Disk
    requires n <= 9
  {
    Play(d, FormatLog(f)[..n])
  }

  function SignedDisk(d: Disk): Disk {
    d[0 := SIGNATURE + d[0][512..]]
  }

  lemma AfterSignature(d: Disk, f: Map)
    ensures AfterFormat(d, f, 1) == SignedDisk(d)
  {
    hide Sectors, EncodeMap, EncodeTable;
    var log := FormatLog(f)[..1];
    var w := SectorWrite(0, SIGNATURE);
    assert log == [w] && log[..|log| - 1] == [];
    assert d[0][..0] == [] && Splice(d[0], 0, SIGNATURE) == SIGNATURE + d[0][512..];
    assert Store(d, w) == SignedDisk(d);
    PlayEmpty(d);
    assert Play(d, log) == Store(Play(d, log[..|log| - 1]), log[|log| - 1]);
  }

  /** The signature first, then the allocation table sector by sector, then the root's table. */
  lemma FormatStates(d: Disk, f: Map, n: nat)
    requires 1 <= n <= 9
    ensures var p, q := Put(FAT_CLUSTER_NUMBER, EncodeMap(FormatMap(f))),
                        Put(ROOT, EncodeTable(NewTable(ROOT_NAME, ROOT)));
      AfterFormat(d, f, n) ==
        if n <= 5 then Torn(SignedDisk(d), p, n - 1)
        else Torn(SignedDisk(d)[FAT_CLUSTER_NUMBER := p.data], q, n - 5)
  {
    hide Sectors, EncodeMap, EncodeTable, Play, Torn;
    var p, q := Put(FAT_CLUSTER_NUMBER, EncodeMap(FormatMap(f))), Put(ROOT, EncodeTable(NewTable(ROOT_NAME, ROOT)));
    var log, head := FormatLog(f), [SectorWrite(0, SIGNATURE)];
    AfterSignature(d, f);
    assert log[..1] == head;
    if n <= 5 {
      assert log[..n] == head + Sectors(p)[..n - 1];
      PlayAppend(d, head, Sectors(p)[..n - 1]);
      PlaySectors(SignedDisk(d), p, n - 1);
    } else {
      assert log[..n] == head + Sectors(p) + Sectors(q)[..n - 5];
      assert Sectors(p)[..4] == Sectors(p);
      PlayAppend(d, head + Sectors(p), Sectors(q)[..n - 5]);
      PlayAppend(d, head, Sectors(p));
      PlaySectors(SignedDisk(d), p, 4);
      TornWhole(SignedDisk(d), p);
      PlaySectors(SignedDisk(d)[FAT_CLUSTER_NUMBER := p.data], q, n - 5);
    }
  }

  lemma ZeroTable()
    ensures DecodeTable(ZERO_CLUSTER) == EMPTY_TABLE && EncodeTable(EMPTY_TABLE) == ZERO_CLUSTER
  {
    hide DecodeTable, EncodeTable;
    forall k | 0 <= k < 64
      ensures DecodeTable(ZERO_CLUSTER)[k] == EMPTY_ENTRY
    {
      ZeroSlot(ZERO_CLUSTER, k);
    }
    EncodeTableOfDecode(ZERO_CLUSTER);
  }

  /** A root table of which at least the first sector has been stored over zeros is complete. */
  lemma TornRoot(j: nat)
    requires 1 <= j <= 4
    ensures EncodeTable(NewTable(ROOT_NAME, ROOT))[..512 * j] + ZERO_CLUSTER[512 * j..]
         == EncodeTable(NewTable(ROOT_NAME, ROOT))
  {
    hide EncodeTable, DecodeTable;
    ZeroTable();
    assert NewTable(ROOT_NAME, ROOT) == EMPTY_TABLE[0 := SelfEntry(ROOT_NAME, ROOT)];
    TornTable(EMPTY_TABLE, 0, SelfEntry(ROOT_NAME, ROOT), j);
  }

  lemma NoRoot(v: Volume)
    requires v.disk[ROOT] == ZERO_CLUSTER
    ensures !WellFormed(v)
  {
    hide DecodeTable;
    if WellFormed(v) {
      var l :| VolumeOk(v, l);
      SelfEntryOk(v, l, ROOT);
      ZeroTable();
    }
  }

  /** What is on a signed disk is mounted; a format that has been stored entirely is what mounting finds. */
  lemma WholeFormat(d: Disk, f: Map)
    ensures AfterFormat(d, f, 9) == Formatted(d, f).disk && Mounted(AfterFormat(d, f, 9)) == Formatted(d, f)
  {
    hide EncodeMap, EncodeTable, DecodeMap, VolumeOk;
    FormatStates(d, f, 9);
    TornWhole(SignedDisk(d)[FAT_CLUSTER_NUMBER := EncodeMap(FormatMap(f))],
              Put(ROOT, EncodeTable(NewTable(ROOT_NAME, ROOT))));
    FormatIsWellFormed(d, f);
    MountIsIdentity(Formatted(d, f));
  }

  lemma StaysSigned(d: Disk, f: Map, n: nat)
    requires 1 <= n <= 9
    ensures Signed(AfterFormat(d, f, n))
  {
    hide EncodeMap, EncodeTable, AfterFormat;
    FormatStates(d, f, n);
  }

  /** From the first sector on the disk is signed, so the next start mounts what is there. A blank disk then carries a
      good file system - and at once the formatted one - exactly when the root's first sector has been stored, too;
      before that the format is never taken up again. */
  lemma FormatCrashIsExact(d: Disk, f: Map, n: nat)
    requires n <= 9 && !Signed(d) && d[ROOT] == ZERO_CLUSTER
    ensures Signed(AfterFormat(d, f, n)) <==> n > 0
    ensures n > 0 ==> (WellFormed(Mounted(AfterFormat(d, f, n))) <==> n >= 6)
    ensures n >= 6 ==> Mounted(AfterFormat(d, f, n)) == Formatted(d, f)
  {
    hide EncodeMap, EncodeTable, DecodeMap, DecodeTable, WellFormed, Play, Signed, Formatted;
    if n == 0 {
      assert FormatLog(f)[..0] == [];
      PlayEmpty(d);
    } else {
      StaysSigned(d, f, n);
      FormatStates(d, f, n);
      WholeFormat(d, f);
      if n <= 5 {
        NoRoot(Mounted(AfterFormat(d, f, n)));
      } else {
        SameFromSix(d, f, n);
        assert WellFormed(Formatted(d, f)) by { hide VolumeOk; FormatIsWellFormed(d, f); WellFormedBy(d, f); }
      }
    }
  }

  lemma WellFormedBy(d: Disk, f: Map)
    requires VolumeOk(Formatted(d, f), Layout(map[ROOT := 0], map[]))
    ensures WellFormed(Formatted(d, f))
  {
  }

  lemma SameFromSix(d: Disk, f: Map, n: nat)
    requires 6 <= n <= 9 && d[ROOT] == ZERO_CLUSTER
    ensures AfterFormat(d, f, n) == AfterFormat(d, f, 9)
  {
    hide EncodeMap, EncodeTable, AfterFormat;
    FormatStates(d, f, n);
    FormatStates(d, f, 9);
    TornRoot(n - 5);
    TornRoot(4);
  }
}
