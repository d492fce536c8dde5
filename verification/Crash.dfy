/**
  Power loss in the middle of a write. The disk driver stores one 512-byte sector
  after another (src/disk.c:47-53), so a crash leaves any prefix of the sector
  writes that the operation issued.
*/
module Crash {
  import opened Bytes
  import opened Directory
  import opened Fat
  import opened Tree
  import opened Volumes
  import opened Views
  import opened Writing

  type Sector = s: seq<byte> | |s| == 512 witness seq(512, _ => 0)
  type Lba = n: int | 0 <= n < 8192

  datatype SectorWrite = SectorWrite(lba: Lba, data: Sector)

  function Splice(c: Cluster, part: nat, s: Sector): Cluster
    requires part < 4
  {
    c[..512 * part] + s + c[512 * (part + 1)..]
  }

  function Store(d: Disk, w: SectorWrite): Disk {
    d[w.lba / 4 := Splice(d[w.lba / 4], w.lba % 4, w.data)]
  }

  /** The disk after a log of sector writes. */
  function Play(d: Disk, log: seq<SectorWrite>): Disk {
    if log == [] then d else Store(Play(d, log[..|log| - 1]), log[|log| - 1])
  }

  /** The four sector writes of one cluster write. */
  function Sectors(p: Put): (log: seq<SectorWrite>)
    ensures |log| == 4
  {
    seq(4, j requires 0 <= j < 4 => SectorWrite(4 * p.at + j, p.data[512 * j..512 * j + 512]))
  }

  /** The nine sector writes of a format: the signature, the allocation table and the root's table. */
  function FormatLog(f: Map): (log: seq<SectorWrite>)
    ensures |log| == 9
  {
    [SectorWrite(0, SIGNATURE)] + Sectors(Put(FAT_CLUSTER_NUMBER, EncodeMap(FormatMap(f))))
    + Sectors(Put(ROOT, EncodeTable(NewTable(ROOT_NAME, ROOT))))
  }

  function Expand(ps: seq<Put>): (log: seq<SectorWrite>)
    ensures |log| == 4 * |ps|
  {
    if ps == [] then [] else Expand(ps[..|ps| - 1]) + Sectors(ps[|ps| - 1])
  }

  /** A cluster write of which only the first j sectors reached the disk. */
  function Torn(d: Disk, p: Put, j: nat): Disk
    requires j <= 4
  {
    d[p.at := p.data[..512 * j] + d[p.at][512 * j..]]
  }

  lemma {:induction false} PlayAppend(d: Disk, a: seq<SectorWrite>, b: seq<SectorWrite>)
    ensures Play(d, a + b) == Play(Play(d, a), b)
    decreases |b|
  {
    if b == [] {
      assert a + b == a;
    } else {
      var n := |b| - 1;
      assert (a + b)[..|a + b| - 1] == a + b[..n] && (a + b)[|a + b| - 1] == b[n];
      PlayAppend(d, a, b[..n]);
    }
  }

  lemma SpliceNext(new_: Cluster, prior: Cluster, j: nat)
    requires j < 4
    ensures Splice(new_[..512 * j] + prior[512 * j..], j, new_[512 * j..512 * j + 512])
         == new_[..512 * (j + 1)] + prior[512 * (j + 1)..]
  {
    var c := new_[..512 * j] + prior[512 * j..];
    assert c[..512 * j] == new_[..512 * j];
    assert c[512 * (j + 1)..] == prior[512 * (j + 1)..];
    assert new_[..512 * j] + new_[512 * j..512 * j + 512] == new_[..512 * (j + 1)];
  }

  lemma {:induction false} PlaySectors(d: Disk, p: Put, j: nat)
    requires j <= 4
    ensures Play(d, Sectors(p)[..j]) == Torn(d, p, j)
  {
    if j == 0 {
      assert p.data[..0] + d[p.at][0..] == d[p.at];
      assert Torn(d, p, 0) == d;
    } else {
      PlaySectors(d, p, j - 1);
      var log := Sectors(p)[..j];
      assert log[..j - 1] == Sectors(p)[..j - 1] && log[j - 1] == Sectors(p)[j - 1];
      SpliceNext(p.data, d[p.at], j - 1);
    }
  }

  lemma PlayLast(d: Disk, ps: seq<Put>, p: Put, j: nat)
    requires j <= 4
    ensures Play(d, Expand(ps + [p])[..4 * |ps| + j]) == Torn(Play(d, Expand(ps)), p, j)
  {
    assert (ps + [p])[..|ps|] == ps;
    assert Expand(ps + [p])[..4 * |ps| + j] == Expand(ps) + Sectors(p)[..j];
    PlayAppend(d, Expand(ps), Sectors(p)[..j]);
    PlaySectors(Play(d, Expand(ps)), p, j);
  }

  lemma TornWhole(d: Disk, p: Put)
    ensures Torn(d, p, 4) == d[p.at := p.data]
  {
    assert p.data[..512 * 4] + d[p.at][512 * 4..] == p.data;
  }

  lemma PlayPut(d: Disk, ps: seq<Put>, p: Put)
    ensures Play(d, Expand(ps + [p])) == Play(d, Expand(ps))[p.at := p.data]
  {
    hide Torn, Play, Expand;
    PlayLast(d, ps, p, 4);
    assert Expand(ps + [p])[..4 * |ps| + 4] == Expand(ps + [p]);
    TornWhole(Play(d, Expand(ps)), p);
  }

  /** Played to the end, the sector writes amount to the cluster writes. */
  lemma {:induction false} PlayAll(d: Disk, ps: seq<Put>)
    ensures Play(d, Expand(ps)) == Apply(d, ps)
  {
    if ps != [] {
      hide Play;
      var n := |ps| - 1;
      PlayAll(d, ps[..n]);
      assert ps[..n] + [ps[n]] == ps;
      PlayPut(d, ps[..n], ps[n]);
    }
  }

  /** A crash state is a number of whole cluster writes and one torn one. */
  lemma {:induction false} PlayPrefix(d: Disk, ps: seq<Put>, k: nat)
    requires k < 4 * |ps|
    ensures Play(d, Expand(ps)[..k]) == Torn(Apply(d, ps[..k / 4]), ps[k / 4], k % 4)
    decreases |ps|
  {
    hide Torn, Play, Apply;
    var n := |ps| - 1;
    assert ps[..n] + [ps[n]] == ps;
    if k < 4 * n {
      PlayPrefix(d, ps[..n], k);
      assert Expand(ps)[..k] == Expand(ps[..n])[..k];
      assert ps[..n][..k / 4] == ps[..k / 4];
    } else {
      PlayLast(d, ps[..n], ps[n], k - 4 * n);
      PlayAll(d, ps[..n]);
      assert k / 4 == n && k % 4 == k - 4 * n;
    }
  }

  // ---------- torn tables ----------

  /** A word of the allocation table never straddles a sector: each is either old or new. */
  lemma TornMap(f: Map, c: Cluster, j: nat, i: nat)
    requires j <= 4 && i < 512
    ensures DecodeMap(EncodeMap(f)[..512 * j] + c[512 * j..])[i] == if i < 128 * j then f[i] else DecodeMap(c)[i]
  {
    var torn := EncodeMap(f)[..512 * j] + c[512 * j..];
    EncodedWord(f, i);
    Decode32OfEncode(f[i]);
    if i < 128 * j {
      assert torn[4 * i..4 * i + 4] == EncodeMap(f)[4 * i..4 * i + 4];
    } else {
      assert torn[4 * i..4 * i + 4] == c[4 * i..4 * i + 4];
    }
  }

  /** Nor does a directory entry: a torn table with one new entry is the old table or the new one. */
  lemma TornTable(t: Table, n: nat, e: Entry, j: nat)
    requires n < 64 && j <= 4
    ensures EncodeTable(t[n := e])[..512 * j] + EncodeTable(t)[512 * j..]
         == if n < 16 * j then EncodeTable(t[n := e]) else EncodeTable(t)
  {
    var a, b := EncodeTable(t[n := e]), EncodeTable(t);
    forall k | 0 <= k < 2048 && k / 32 != n
      ensures a[k] == b[k]
    {
    }
    if n < 16 * j {
      forall k | 512 * j <= k < 2048
        ensures a[k] == b[k]
      {
      }
      assert a[..512 * j] + b[512 * j..] == a;
    } else {
      forall k | 0 <= k < 512 * j
        ensures a[k] == b[k]
      {
      }
      assert a[..512 * j] + b[512 * j..] == b;
    }
  }

  // ---------- the crash states of a write ----------

  lemma CrashInData(v: Volume, l: Layout, r: Request, buf: seq<byte>, cs: seq<DataCluster>, m: nat, j: nat)
    requires Writes(v, l, r, buf, cs) && m < |cs| && j < 4
    ensures var ps := PutsOf(cs, Blocks(r, buf));
      KeepsAllocated(v, Mounted(Torn(Apply(v.disk, ps[..m]), ps[m], j)))
  {
    hide DecodeMap, EncodeTable, Blocks, TreeOk, DecodeTable;
    WritesMeans(v, l, r, buf, cs);
    var bs := Blocks(r, buf);
    assert PutsOf(cs, bs)[..m] == PutsOf(cs[..m], bs[..m]);
    ApplyPuts(v.disk, cs[..m], bs[..m]);
    assert forall c :: c in cs[..m] ==> c in cs;
    assert cs[m] in cs;
  }

  lemma CrashInMap(v: Volume, l: Layout, r: Request, buf: seq<byte>, cs: seq<DataCluster>, j: nat)
    requires Writes(v, l, r, buf, cs) && j <= 4
    ensures var d := Apply(v.disk, PutsOf(cs, Blocks(r, buf)));
      KeepsAllocated(v, Mounted(Torn(d, Put(FAT_CLUSTER_NUMBER, EncodeMap(Link(v.fat, cs))), j)))
  {
    hide DecodeMap, EncodeMap, EncodeTable, Blocks, TreeOk, DecodeTable, FirstFree, Link, Apply, PutsOf;
    WritesMeans(v, l, r, buf, cs);
    var d := Apply(v.disk, PutsOf(cs, Blocks(r, buf)));
    ApplyPuts(v.disk, cs, Blocks(r, buf));
    LinkWords(v.fat, cs);
    assert d[1] == v.disk[1];
    var w := Mounted(Torn(d, Put(FAT_CLUSTER_NUMBER, EncodeMap(Link(v.fat, cs))), j));
    forall i | 0 <= i < 512 && i !in cs
      ensures w.fat[i] == v.fat[i]
    {
      TornMap(Link(v.fat, cs), d[1], j, i);
    }
  }

  lemma CrashInParent(v: Volume, l: Layout, r: Request, buf: seq<byte>, cs: seq<DataCluster>, j: nat)
    requires Writes(v, l, r, buf, cs) && j <= 4
    ensures var w := Mounted(Torn(Staged(v, r, buf, cs).disk, Put(r.parent, NewParent(v, r, cs[0])), j));
      w == Staged(v, r, buf, cs) || w == Write(v, r, buf).volume
  {
    hide DecodeMap, EncodeMap, EncodeTable, Blocks, TreeOk, DecodeTable, FirstFree, NewEntry, Apply;
    WritesMeans(v, l, r, buf, cs);
    WriteSucceeds(v, r, buf, cs);
    StagedIsReady(v, l, r, buf, cs);
    DecodeMapOfEncode(Link(v.fat, cs));
    var s, t, n := Staged(v, r, buf, cs), TableAt(v, r.parent), FreeSlot(TableAt(v, r.parent), 0);
    EncodeTableOfDecode(v.disk[r.parent]);
    TornTable(t, n, NewEntry(t[n], r, cs[0]), j);
    var d := Torn(s.disk, Put(r.parent, NewParent(v, r, cs[0])), j);
    assert d == s.disk || d == s.disk[r.parent := NewParent(v, r, cs[0])];
  }

  /** The disk at every crash point: before the parent's sector is stored only free clusters differ, after it
      the write is complete. */
  lemma CrashStates(v: Volume, l: Layout, r: Request, buf: seq<byte>, cs: seq<DataCluster>, k: nat)
    requires Writes(v, l, r, buf, cs)
    ensures var o := Write(v, r, buf);
      k <= 4 * |o.puts| ==>
        var w := Mounted(Play(v.disk, Expand(o.puts)[..k]));
        KeepsAllocated(v, w) || w == o.volume
  {
    hide DecodeMap, EncodeMap, EncodeTable, Blocks, TreeOk, DecodeTable, FirstFree, NewEntry, KeepsAllocated;
    WriteSucceeds(v, r, buf, cs);
    WritesMeans(v, l, r, buf, cs);
    var ps, data, m := WritePuts(v, r, buf, cs), PutsOf(cs, Blocks(r, buf)), k / 4;
    var fat := Put(FAT_CLUSTER_NUMBER, EncodeMap(Link(v.fat, cs)));
    var parent := Put(r.parent, NewParent(v, r, cs[0]));
    assert ps == data + [fat] + [parent];
    if k <= 4 * |ps| {
      if k < 4 * |ps| { PlayPrefix(v.disk, ps, k); } else { PlayAll(v.disk, ps); assert Expand(ps)[..k] == Expand(ps); }
      if m < |cs| {
        assert ps[..m] == data[..m] && ps[m] == data[m];
        CrashInData(v, l, r, buf, cs, m, k % 4);
      } else if m == |cs| {
        assert ps[..m] == data;
        CrashInMap(v, l, r, buf, cs, k % 4);
      } else {
        assert ps[..|cs| + 1] == data + [fat];
        ApplyOne(v.disk, data, fat);
        StagedIsReady(v, l, r, buf, cs);
        DecodeMapOfEncode(Link(v.fat, cs));
        if m == |cs| + 1 { CrashInParent(v, l, r, buf, cs, k % 4); }
      }
    }
  }

  /** Crash atomicity: after power loss at any sector of a write, mounting the disk gives a well-formed volume
      that shows either everything as it was before the write or everything as it is after it. */
  lemma WriteIsCrashAtomic(v: Volume, r: Request, buf: seq<byte>, k: nat)
    requires WellFormed(v) && WriteDefined(v, r, buf)
    requires r.name == ZERO_NAME || r.parent < 2 || IsDirectory(v, r.parent)
    ensures var o := Write(v, r, buf);
      k <= 4 * |o.puts| ==>
        var w := Mounted(Play(v.disk, Expand(o.puts)[..k]));
        WellFormed(w) && NothingDangles(w) && (SameView(v, w) || SameView(o.volume, w))
  {
    hide DecodeMap, EncodeMap, EncodeTable, TreeOk, DecodeTable, DirectoryAt, See, Expand, Play;
    var l :| VolumeOk(v, l);
    var o := Write(v, r, buf);
    if k <= 4 * |o.puts| {
      var w := Mounted(Play(v.disk, Expand(o.puts)[..k]));
      if o.code != 0 {
        assert w == v by { NothingPlayed(v.disk); }
        ViewFrame(v, v, l);
      } else {
        DirectoriesAreReachable(v, l, r.parent);
        var cs := FirstFree(v.fat, 2, ClustersFor(r.size));
        CrashStates(v, l, r, buf, cs, k);
        if KeepsAllocated(v, w) {
          FreeClustersDoNotShow(v, w, l);
        } else {
          WriteKeepsVolume(v, l, r, buf, cs);
          var m := Grown(l, r.parent, FreeSlot(TableAt(v, r.parent), 0), cs, r.size == 0);
          ViewFrame(w, w, m);
        }
      }
    }
  }

  lemma NothingPlayed(d: Disk)
    ensures Play(d, Expand([])[..0]) == d
  {
  }
}
