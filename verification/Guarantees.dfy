/**
  The theorems about write and delete in their callers' terms: a well-formed
  volume, a parent that can be reached from the root, and the code that came back.
*/
module Guarantees {
  import opened Wrappers
  import opened Bytes
  import opened Directory
  import opened Fat
  import opened Tree
  import opened Volumes
  import opened Views
  import opened Writing
  import opened Reading
  import opened Deleting
  import opened Changes

  /** A write to a reachable directory of a well-formed volume that answers 0. */
  ghost predicate Written(v: Volume, r: Request, buf: seq<byte>, w: Volume) {
    && WellFormed(v) && IsDirectory(v, r.parent) && WriteDefined(v, r, buf)
    && Write(v, r, buf).code == 0 && w == Write(v, r, buf).volume
  }

  /** The clusters a successful write has taken. */
  predicate Taken(v: Volume, w: Volume, c: ClusterNumber) {
    2 <= c < 512 && v.fat[c] == EMPTY && w.fat[c] != EMPTY
  }

  lemma WrittenMeans(v: Volume, r: Request, buf: seq<byte>, w: Volume) returns (l: Layout, cs: seq<DataCluster>)
    requires Written(v, r, buf, w)
    ensures Writes(v, l, r, buf, cs) && w == Write(v, r, buf).volume && |cs| == ClustersFor(r.size)
  {
    hide DecodeTable, DirectoryAt, VolumeOk, Apply, Link, EncodeMap, EncodeTable;
    l :| VolumeOk(v, l);
    cs := FirstFree(v.fat, 2, ClustersFor(r.size));
    DirectoriesAreReachable(v, l, r.parent);
  }

  /** Read after write: what has been written is read back, the last cluster padded with zeros. */
  lemma FileIsReadBack(v: Volume, r: Request, buf: seq<byte>, w: Volume, into: seq<byte>)
    requires Written(v, r, buf, w) && 0 < r.size <= |buf| && 2048 * ClustersFor(r.size) <= |into|
    ensures var n := 2048 * ClustersFor(r.size);
      ReadDefined(w, r, into) && Read(w, r, into) == ReadResult(0, buf[..r.size] + Zeros(n - r.size) + into[n..])
  {
    hide Written, Writes, Read, ReadDefined, Write;
    var l, cs := WrittenMeans(v, r, buf, w);
    ReadAfterWrite(v, l, r, buf, cs, into);
  }

  /** A write changes the answer to no other read - with exactly one exception: reading the parent directory itself,
      through its entry one level up, as if it were a file. */
  lemma OtherReadsStay(v: Volume, r: Request, buf: seq<byte>, w: Volume, q: Request, into: seq<byte>)
    requires Written(v, r, buf, w) && IsDirectory(v, q.parent) && 2048 * ClustersFor(q.size) <= |into|
    requires NotForNew(q, r)
    ensures ReadDefined(v, q, into) && ReadDefined(w, q, into)
    ensures Read(w, q, into) == Read(v, q, into) <==>
      q.name == ZERO_NAME || q.size == 0 || NotItself(v, q, r.parent)
  {
    hide Written, Read, ReadDefined, Write, DirectoryAt, NotItself, VolumeOk;
    var l, cs := WrittenMeans(v, r, buf, w);
    DirectoriesAreReachable(v, l, q.parent);
    if NotItself(v, q, r.parent) {
      WriteLeavesReads(v, l, r, buf, cs, q, into);
    } else {
      ParentReadAsFile(v, l, r, buf, cs, q, into);
    }
  }

  lemma ParentReadAsFile(v: Volume, l: Layout, r: Request, buf: seq<byte>, cs: seq<DataCluster>,
                         q: Request, into: seq<byte>)
    requires Writes(v, l, r, buf, cs) && 2048 * ClustersFor(q.size) <= |into|
    requires 2 <= q.parent < 512 && q.parent in l.depth && !NotItself(v, q, r.parent)
    ensures var w := Write(v, r, buf).volume;
      && ReadDefined(v, q, into) && ReadDefined(w, q, into)
      && (Read(w, q, into) == Read(v, q, into) <==> q.name == ZERO_NAME || q.size == 0)
  {
    hide DecodeTable, VolumeOk, Write, NewEntry, Fetched, ReadFrom, Grown, TableAt, Proper, Chain;
    var w, n := Write(v, r, buf).volume, FreeSlot(TableAt(v, r.parent), 0);
    var m := Grown(l, r.parent, n, cs, r.size == 0);
    WriteKeepsVolume(v, l, r, buf, cs);
    KeptInLayout(l, r.parent, n, cs, r.size == 0, q.parent);
    ReadIsDefined(v, l, q, into);
    ReadIsDefined(w, m, q, into);
    if q.name != ZERO_NAME && q.size > 0 {
      var i :| 1 <= i < 64 && Matches(TableAt(v, q.parent)[i], q) && TableAt(v, q.parent)[i].Start() == r.parent;
      ParentEntry(v, l, r, buf, cs, q.parent, i);
      ReadIsExact(v, l, q, into);
      ReadIsExact(w, m, q, into);
      OneClusterFetched(v.disk, r.parent, q.size, into);
      OneClusterFetched(w.disk, r.parent, q.size, into);
      assert Read(v, q, into).buf[..2048] == v.disk[r.parent];
      assert Read(w, q, into).buf[..2048] == w.disk[r.parent];
    }
  }

  lemma KeptInLayout(l: Layout, p: DataCluster, n: nat, cs: seq<DataCluster>, directory: bool, d: DataCluster)
    requires |cs| > 0 && p in l.depth && d in l.depth
    ensures d in Grown(l, p, n, cs, directory).depth
  {
  }

  /** The parent's own entry, in slot i of the directory above: the same before and after, a chain of one cluster - and
      that cluster is not the same. */
  lemma ParentEntry(v: Volume, l: Layout, r: Request, buf: seq<byte>, cs: seq<DataCluster>, d: DataCluster, i: nat)
    requires Writes(v, l, r, buf, cs) && d in l.depth && 1 <= i < 64
    requires TableAt(v, d)[i].name != ZERO_NAME && TableAt(v, d)[i].Start() == r.parent
    ensures var w, p := Write(v, r, buf).volume, r.parent;
      && TableAt(w, d)[i] == TableAt(v, d)[i] && w.disk[p] != v.disk[p]
      && Proper(v.fat, p) && Chain(v.fat, p) == [p] && Proper(w.fat, p) && Chain(w.fat, p) == [p]
  {
    hide DecodeTable, VolumeOk, Write, NewEntry;
    WritesMeans(v, l, r, buf, cs);
    NamedSlot(v, l, d, i);
    OwnerOfStart(v, l, d, i);
    EnteredBy(v, l, r.parent);
    WriteLeavesTables(v, l, r, buf, cs, d);
    WriteTouches(v, l, r, buf, cs);
    LiveDirectory(v, l, r.parent);
    NewSlot(v, l, r, buf, cs);
    var n := FreeSlot(TableAt(v, r.parent), 0);
    assert TableAt(Write(v, r, buf).volume, r.parent)[n] != TableAt(v, r.parent)[n];
  }

  lemma OneClusterFetched(d: Disk, c: DataCluster, b: nat, into: seq<byte>)
    requires b > 0 && 2048 * ClustersFor(b) <= |into|
    ensures Fetched(d, [c], b, into)[..2048] == d[c]
  {
    assert [c][..0] == [] && Contents(d, [c]) == Contents(d, []) + d[c];
    assert [c][..1] == [c];
  }

  /** Every other file reads as before. */
  lemma OtherFilesStay(v: Volume, r: Request, buf: seq<byte>, w: Volume, q: Request, into: seq<byte>)
    requires Written(v, r, buf, w) && IsDirectory(v, q.parent) && 2048 * ClustersFor(q.size) <= |into|
    requires NotForNew(q, r)
    requires forall i :: 1 <= i < 64 && Matches(TableAt(v, q.parent)[i], q) ==>
      TableAt(v, q.parent)[i].attribute == ATTR_ARCHIVE
    ensures ReadDefined(v, q, into) && ReadDefined(w, q, into) && Read(w, q, into) == Read(v, q, into)
  {
    hide Written, Read, ReadDefined, Write, DirectoryAt, VolumeOk, TableAt;
    OtherReadsStay(v, r, buf, w, q, into);
    if q.name != ZERO_NAME {
      var l, cs := WrittenMeans(v, r, buf, w);
      DirectoriesAreReachable(v, l, q.parent);
      forall i | 1 <= i < 64 && Matches(TableAt(v, q.parent)[i], q)
        ensures TableAt(v, q.parent)[i].Start() != r.parent
      {
        FileIsNoDirectory(v, l, q.parent, i, r.parent);
      }
    }
  }

  lemma FileIsNoDirectory(v: Volume, l: Layout, d: DataCluster, i: nat, p: DataCluster)
    requires VolumeOk(v, l) && d in l.depth && p in l.depth && 1 <= i < 64
    requires TableAt(v, d)[i].name != ZERO_NAME && TableAt(v, d)[i].attribute == ATTR_ARCHIVE
    ensures TableAt(v, d)[i].Start() != p
  {
    hide DecodeTable, VolumeOk;
    NamedSlot(v, l, d, i);
    OwnerOfStart(v, l, d, i);
    if p != ROOT { EnteredBy(v, l, p); }
  }

  /** A write changes the table of no other directory. */
  lemma OtherTablesStay(v: Volume, r: Request, buf: seq<byte>, w: Volume, d: DataCluster)
    requires Written(v, r, buf, w) && IsDirectory(v, d) && d != r.parent
    ensures w.disk[d] == v.disk[d]
  {
    hide Written, Write, DirectoryAt, VolumeOk;
    var l, cs := WrittenMeans(v, r, buf, w);
    DirectoriesAreReachable(v, l, d);
    WriteLeavesTables(v, l, r, buf, cs, d);
  }

  /** read_directory of a new directory gives its fresh table - or the table of the directory above, when the new
      directory has the name of the one it is entered in. */
  lemma NewDirectoryIsRead(v: Volume, r: Request, buf: seq<byte>, w: Volume, into: seq<byte>)
    requires Written(v, r, buf, w) && r.size == 0
    ensures 2 <= r.parent < 512 && ParentOf(v, r.parent) < 512 && ReadDirectoryDefined(w, r)
    ensures ReadDirectory(w, r, into) ==
      ReadResult(0, if r.name == TableAt(v, r.parent)[0].name then w.disk[ParentOf(v, r.parent)]
                    else EncodeTable(NewTable(r.name, r.parent)))
  {
    hide Written, Write, VolumeOk, DecodeTable, EncodeTable, ReadDirectory, ReadDirectoryDefined;
    var l, cs := WrittenMeans(v, r, buf, w);
    ReadDirectoryAfterWrite(v, l, r, buf, cs, into);
  }

  /** Deleting what has just been written restores the allocation table and every cluster of the disk bit for bit,
      but for the clusters that were used: these are left zeroed. */
  lemma DeletingUndoesWriting(v: Volume, r: Request, buf: seq<byte>, w: Volume)
    requires Written(v, r, buf, w) && (r.size > 0 || r.ext == ZERO_EXT)
    ensures DeleteDefined(w, r) && Delete(w, r).code == 0
    ensures Delete(w, r).volume.fat == v.fat
    ensures forall c: ClusterNumber ::
      Delete(w, r).volume.disk[c] == if Taken(v, w, c) then ZERO_CLUSTER else v.disk[c]
  {
    hide Written, Write, VolumeOk, DecodeTable, Delete, DeleteDefined, EncodeMap, DecodeMap;
    var l, cs := WrittenMeans(v, r, buf, w);
    DeleteUndoesWrite(v, l, r, buf, cs);
    TableOnDisk(v, l);
    forall c: ClusterNumber
      ensures Taken(v, w, c) <==> c in cs
    {
      TakenAreLinked(v, l, r, buf, cs, c);
    }
  }

  lemma TableOnDisk(v: Volume, l: Layout)
    requires VolumeOk(v, l)
    ensures EncodeMap(v.fat) == v.disk[FAT_CLUSTER_NUMBER]
  {
    hide TreeOk;
    EncodeMapOfDecode(v.disk[FAT_CLUSTER_NUMBER]);
  }

  lemma TakenAreLinked(v: Volume, l: Layout, r: Request, buf: seq<byte>, cs: seq<DataCluster>, c: ClusterNumber)
    requires Writes(v, l, r, buf, cs)
    ensures Taken(v, Write(v, r, buf).volume, c) <==> c in cs
  {
    hide VolumeOk, DecodeTable, Write, Link, TableAt;
    WriteSucceeds(v, r, buf, cs);
    WritesMeans(v, l, r, buf, cs);
    if 2 <= c < 512 { LinkedIsTaken(v.fat, cs, c); }
  }

  /** What delete answers, from the parent's table and slot 1 of the directory to be deleted; a refusal changes and
      writes nothing. */
  lemma DeletingAnswers(v: Volume, r: Request, i: nat)
    requires WellFormed(v) && IsDirectory(v, r.parent) && r.name != ZERO_NAME && 1 <= i < 64
    ensures DeleteDefined(v, r) && (Matches(TableAt(v, r.parent)[i], r) ==> TableAt(v, r.parent)[i].Start() < 512)
    ensures var o, t := Delete(v, r), TableAt(v, r.parent);
      && (o.code == -1 <==> forall j :: 1 <= j < 64 ==> !Matches(t[j], r))
      && (o.code != 0 ==> o.volume == v && o.puts == [])
      && (Matches(t[i], r) ==>
            o.code == if t[i].IsDirectory() && TableAt(v, t[i].Start())[1].Used() then 2 else 0)
  {
    hide DecodeTable, DirectoryAt, VolumeOk, Delete, Proper;
    var l :| VolumeOk(v, l);
    DirectoriesAreReachable(v, l, r.parent);
    DeleteIsExact(v, l, r);
    if Matches(TableAt(v, r.parent)[i], r) { ChainShape(v.fat, TableAt(v, r.parent)[i].Start()); }
    DeleteCodes(v, r);
  }

  /** What read answers: 0 exactly when the chain has as many clusters as the size has whole ones, 3 otherwise and
      when there is no such entry, never 2; and what it copies. */
  lemma ReadingAnswers(v: Volume, r: Request, buf: seq<byte>, i: nat)
    requires WellFormed(v) && IsDirectory(v, r.parent) && r.name != ZERO_NAME && 1 <= i < 64
    requires r.size > 0 && 2048 * ClustersFor(r.size) <= |buf|
    ensures ReadDefined(v, r, buf) && Read(v, r, buf).code in {0, 3}
    ensures (forall j :: 1 <= j < 64 ==> !Matches(TableAt(v, r.parent)[j], r)) ==> Read(v, r, buf) == ReadResult(3, buf)
    ensures Matches(TableAt(v, r.parent)[i], r) ==>
      var s := TableAt(v, r.parent)[i].Start();
      && Proper(v.fat, s)
      && (Read(v, r, buf).code == 0 <==> |Chain(v.fat, s)| >= r.size / 2048)
      && Read(v, r, buf).buf == Fetched(v.disk, Chain(v.fat, s), r.size, buf)
  {
    hide DecodeTable, DirectoryAt, VolumeOk, Read, ReadDefined, Proper, Fetched;
    var l :| VolumeOk(v, l);
    DirectoriesAreReachable(v, l, r.parent);
    ReadIsExact(v, l, r, buf);
  }

  /** The chain of the entry that delete finds. */
  function Doomed(v: Volume, r: Request): seq<DataCluster>
    requires r.parent < 2048
  {
    var k := FindSlot(TableAt(v, r.parent), r.name, r.ext, 1);
    if k < 64 && Proper(v.fat, TableAt(v, r.parent)[k].Start()) then Chain(v.fat, TableAt(v, r.parent)[k].Start())
    else []
  }

  /** A delete to a reachable directory of a well-formed volume that answers 0. */
  ghost predicate Deleted(v: Volume, r: Request, w: Volume) {
    && WellFormed(v) && IsDirectory(v, r.parent) && DeleteDefined(v, r)
    && Delete(v, r).code == 0 && w == Delete(v, r).volume
  }

  lemma DeletedMeans(v: Volume, r: Request, w: Volume) returns (l: Layout, k: nat)
    requires Deleted(v, r, w)
    ensures 2 <= r.parent < 512 && Deletes(v, l, r, k, Doomed(v, r)) && w == Delete(v, r).volume
  {
    hide DecodeTable, DirectoryAt, VolumeOk, Removal;
    l :| VolumeOk(v, l);
    DirectoriesAreReachable(v, l, r.parent);
    DeleteIsExact(v, l, r);
    k := FindSlot(TableAt(v, r.parent), r.name, r.ext, 1);
  }

  /** Deleting zeroes and frees exactly the entry's chain. */
  lemma DeletingFreesTheChain(v: Volume, r: Request, w: Volume)
    requires Deleted(v, r, w)
    ensures r.parent < 2048 && Doomed(v, r) != []
    ensures FreeClusters(w.fat) == FreeClusters(v.fat) + Elements(Doomed(v, r))
    ensures |FreeClusters(w.fat)| == |FreeClusters(v.fat)| + |Doomed(v, r)|
    ensures forall c: ClusterNumber :: c != r.parent && c != FAT_CLUSTER_NUMBER ==>
      w.disk[c] == if c in Doomed(v, r) then ZERO_CLUSTER else v.disk[c]
  {
    hide Deleted, Delete, VolumeOk, DecodeTable, FreeClusters, Elements, Doomed;
    var l, k := DeletedMeans(v, r, w);
    DeleteFreesTheChain(v, l, r, k, Doomed(v, r));
    DeletesMeans(v, l, r, k, Doomed(v, r));
  }

  /** After a write its path shows the new entry with the bytes written - or a folder naming itself and its parent -
      nothing is below it, and every other path shows what it showed. */
  lemma WritingShows(v: Volume, r: Request, buf: seq<byte>, w: Volume, at: Path, path: Path)
    requires Written(v, r, buf, w) && r.size <= |buf| && at != []
    requires DirectoryAt(v, at[..|at| - 1]) == Some(r.parent) && at[|at| - 1] == FreeSlot(TableAt(v, r.parent), 0) < 64
    ensures var e := TableAt(w, r.parent)[at[|at| - 1]];
      See(w, path) ==
        if !(at <= path) then See(v, path)
        else if path != at then Nothing
        else if r.size == 0 then Folder(e, SelfEntry(r.name, r.parent))
        else File(e, buf[..r.size] + Zeros(2048 * ClustersFor(r.size) - r.size))
  {
    hide Written, Write, VolumeOk, DecodeTable, DirectoryAt, See, SelfEntry, FreeSlot;
    var l, cs := WrittenMeans(v, r, buf, w);
    WriteShows(v, l, r, buf, cs, at, path);
    NewSlot(v, l, r, buf, cs);
  }

  /** After a delete nothing is at its path or below, and every other path shows what it showed. */
  lemma DeletingShows(v: Volume, r: Request, w: Volume, at: Path, path: Path)
    requires Deleted(v, r, w) && at != [] && DirectoryAt(v, at[..|at| - 1]) == Some(r.parent)
    requires at[|at| - 1] == FindSlot(TableAt(v, r.parent), r.name, r.ext, 1)
    ensures See(w, path) == if at <= path then Nothing else See(v, path)
  {
    hide Deleted, Delete, VolumeOk, DecodeTable, DirectoryAt, See, Doomed;
    var l, k := DeletedMeans(v, r, w);
    DeleteShows(v, l, r, k, Doomed(v, r), at, path);
  }
}
