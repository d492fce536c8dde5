/** Whole runs: any sequence of writes, deletes, remounts and formats. */
module Runs {
  import opened Bytes
  import opened Directory
  import opened Fat
  import opened Tree
  import opened Volumes
  import opened Views
  import opened Writing
  import opened Reading
  import opened Deleting

  const ZERO_MAP: Map := seq(512, _ => EMPTY)

  // ---------- format and mount ----------

  lemma FormattedTable(d: Disk, f: Map)
    ensures var v := Formatted(d, f);
      TableAt(v, ROOT) == NewTable(ROOT_NAME, ROOT)
      && v.disk[0][..512] == SIGNATURE && v.disk[1] == EncodeMap(FormatMap(f))
  {
    hide EncodeTable, DecodeTable, EncodeMap;
    DecodeTableOfEncode(NewTable(ROOT_NAME, ROOT));
    assert (SIGNATURE + d[0][512..])[..512] == SIGNATURE;
  }

  /** Formatting any disk, whatever the table cached before, gives a well-formed volume with an empty root. */
  lemma FormatIsWellFormed(d: Disk, f: Map)
    ensures VolumeOk(Formatted(d, f), Layout(map[ROOT := 0], map[]))
    ensures TableAt(Formatted(d, f), ROOT) == NewTable(ROOT_NAME, ROOT)
  {
    hide EncodeTable, DecodeTable, EncodeMap, DecodeMap;
    var v, l := Formatted(d, f), Layout(map[ROOT := 0], map[]);
    FormattedTable(d, f);
    DecodeMapOfEncode(FormatMap(f));
    assert StructureOf(v).tables[ROOT] == TableAt(v, ROOT);
    assert DirectoryOk(StructureOf(v), l, ROOT);
  }

  /** Mounting what a well-formed volume has on disk - after a format or after any operation - finds the
      signature and gives back the very same volume. */
  lemma MountIsIdentity(v: Volume)
    requires WellFormed(v)
    ensures Signed(v.disk) && Mounted(v.disk) == v
  {
    var l :| VolumeOk(v, l);
  }

  // ---------- runs ----------

  datatype Op =
    | WriteOp(r: Request, buf: seq<byte>)
    | DeleteOp(r: Request)
    | MountOp
    | FormatOp

  /** What the driver leaves to its callers: the parent is a directory that can be reached, and write finds a
      slot, a countable size and a long enough buffer. */
  ghost predicate Admissible(v: Volume, op: Op) {
    match op
    case WriteOp(r, buf) =>
      WriteDefined(v, r, buf) && (r.name == ZERO_NAME || r.parent < 2 || IsDirectory(v, r.parent))
    case DeleteOp(r) => r.name == ZERO_NAME || IsDirectory(v, r.parent)
    case MountOp => true
    case FormatOp => true
  }

  function Step(v: Volume, op: Op): Volume {
    match op
    case WriteOp(r, buf) => if WriteDefined(v, r, buf) then Write(v, r, buf).volume else v
    case DeleteOp(r) => if DeleteDefined(v, r) then Delete(v, r).volume else v
    case MountOp => Mounted(v.disk)
    case FormatOp => Formatted(v.disk, v.fat)
  }

  ghost predicate Run(v: Volume, ops: seq<Op>)
    decreases |ops|
  {
    ops == [] || (Admissible(v, ops[0]) && Run(Step(v, ops[0]), ops[1..]))
  }

  function After(v: Volume, ops: seq<Op>): Volume
    decreases |ops|
  {
    if ops == [] then v else After(Step(v, ops[0]), ops[1..])
  }

  lemma WriteStepKeeps(v: Volume, r: Request, buf: seq<byte>)
    requires WellFormed(v) && Admissible(v, WriteOp(r, buf))
    ensures WellFormed(Write(v, r, buf).volume)
  {
    hide DecodeTable, EncodeTable, Apply, Link, TreeOk, DirectoryAt;
    var l :| VolumeOk(v, l);
    if Write(v, r, buf).code == 0 {
      DirectoriesAreReachable(v, l, r.parent);
      WriteKeepsVolume(v, l, r, buf, FirstFree(v.fat, 2, ClustersFor(r.size)));
    }
  }

  lemma DeleteStepKeeps(v: Volume, r: Request)
    requires WellFormed(v) && Admissible(v, DeleteOp(r))
    ensures DeleteDefined(v, r) && WellFormed(Delete(v, r).volume)
  {
    hide DecodeTable, EncodeTable, Apply, Clear, TreeOk, DirectoryAt, Deletes, Removal;
    var l :| VolumeOk(v, l);
    if r.name != ZERO_NAME {
      DirectoriesAreReachable(v, l, r.parent);
      DeleteIsExact(v, l, r);
      if Delete(v, r).code == 0 {
        var k :| 1 <= k < 64 && Matches(TableAt(v, r.parent)[k], r);
        var cs := Chain(v.fat, TableAt(v, r.parent)[k].Start());
        DeleteSucceeds(v, l, r, k, cs);
        DeleteKeepsVolume(v, l, r, k, cs);
      }
    }
  }

  lemma StepKeeps(v: Volume, op: Op)
    requires WellFormed(v) && Admissible(v, op)
    ensures WellFormed(Step(v, op))
  {
    hide VolumeOk, Formatted, Write, Delete, WriteDefined, DeleteDefined;
    match op
    case WriteOp(r, buf) => WriteStepKeeps(v, r, buf);
    case DeleteOp(r) => DeleteStepKeeps(v, r);
    case MountOp => MountIsIdentity(v);
    case FormatOp => FormatIsWellFormed(v.disk, v.fat);
  }

  /** Every run keeps the volume well formed. */
  lemma {:induction false} RunKeepsWellFormed(v: Volume, ops: seq<Op>)
    requires WellFormed(v) && Run(v, ops)
    ensures WellFormed(After(v, ops))
    decreases |ops|
  {
    hide VolumeOk, Step, Admissible;
    if ops != [] {
      StepKeeps(v, ops[0]);
      RunKeepsWellFormed(Step(v, ops[0]), ops[1..]);
    }
  }

  /** A run that starts with a format ends in a well-formed volume, whatever was on the disk before; and the table the
      driver has cached by then is the one on disk: mounting that disk gives back the very same volume. */
  lemma FormattedRunIsWellFormed(d: Disk, f: Map, ops: seq<Op>)
    requires Run(Formatted(d, f), ops)
    ensures var v := After(Formatted(d, f), ops);
      WellFormed(v) && Signed(v.disk) && Mounted(v.disk) == v
  {
    hide VolumeOk, Formatted, Signed, Mounted;
    FormatIsWellFormed(d, f);
    RunKeepsWellFormed(Formatted(d, f), ops);
    MountIsIdentity(After(Formatted(d, f), ops));
  }

  // ---------- what well-formedness says about directories that can be reached ----------

  /** Every slot of a reachable directory is all zero or in use; a slot in use has a name no other slot has and a
      chain that stays inside the data clusters, goes strictly up, ends with the end-of-file mark and is as long
      as the file needs. */
  lemma SlotsAreSound(v: Volume, d: DataCluster, i: nat)
    requires WellFormed(v) && IsDirectory(v, d) && 1 <= i < 64
    ensures var e := TableAt(v, d)[i];
      e == EMPTY_ENTRY ||
      (&& e.Used() && e.name != ZERO_NAME
       && (forall j :: 1 <= j < 64 && j != i ==> TableAt(v, d)[j].name != e.name)
       && Proper(v.fat, e.Start())
       && var cs := Chain(v.fat, e.Start());
          && Ascending(cs) && cs[0] >= 3 && |cs| == ClustersFor(e.filesize)
          && v.fat[cs[|cs| - 1]] == END_OF_FILE)
  {
    hide DecodeTable, DirectoryAt;
    var l :| VolumeOk(v, l);
    DirectoriesAreReachable(v, l, d);
    LiveDirectory(v, l, d);
    var e := TableAt(v, d)[i];
    assert StructureOf(v).tables[d] == TableAt(v, d);
    if e != EMPTY_ENTRY {
      assert EntryOk(StructureOf(v), l, d, i);
      NamedSlot(v, l, d, i);
      ChainShape(v.fat, e.Start());
    }
  }

  /** No cluster belongs to the chains of two entries. */
  lemma ChainsNeverCross(v: Volume, d: DataCluster, i: nat, d': DataCluster, i': nat, c: DataCluster)
    requires WellFormed(v) && IsDirectory(v, d) && IsDirectory(v, d') && 1 <= i < 64 && 1 <= i' < 64
    requires TableAt(v, d)[i].Used() && TableAt(v, d')[i'].Used()
    requires Proper(v.fat, TableAt(v, d)[i].Start()) && Proper(v.fat, TableAt(v, d')[i'].Start())
    requires c in Chain(v.fat, TableAt(v, d)[i].Start()) && c in Chain(v.fat, TableAt(v, d')[i'].Start())
    ensures d == d' && i == i'
  {
    hide DecodeTable, DirectoryAt;
    var l :| VolumeOk(v, l);
    DirectoriesAreReachable(v, l, d);
    DirectoriesAreReachable(v, l, d');
    LiveDirectory(v, l, d);
    LiveDirectory(v, l, d');
    assert StructureOf(v).tables[d] == TableAt(v, d) && StructureOf(v).tables[d'] == TableAt(v, d');
    assert EntryOk(StructureOf(v), l, d, i) && EntryOk(StructureOf(v), l, d', i');
  }
}
