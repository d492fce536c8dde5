/**
  delete promises to refuse a directory that is not empty (src/fat32.c:446-449),
  but its test (src/fat32.c:475-491) looks only at the run of occupied slots that
  starts at slot 1. Here is exactly when the promise is kept, and a run of the
  driver in which it is not.
*/
module Emptiness {
  import opened Wrappers
  import opened Bytes
  import opened Directory
  import opened Fat
  import opened Tree
  import opened Volumes
  import opened Views
  import opened Writing
  import opened Reading
  import opened Deleting
  import opened Runs

  /** Some slot after the directory's own is in use. */
  predicate Occupied(t: Table) {
    exists i :: 1 <= i < 64 && t[i].Used()
  }

  /** Asked to delete a directory, delete refuses exactly when slot 1 is in use; that is the documented
      answer - refuse exactly when anything is in it - if and only if slot 1 is in use or nothing is. */
  lemma RefusalIsExact(v: Volume, r: Request, k: nat)
    requires WellFormed(v) && IsDirectory(v, r.parent) && r.name != ZERO_NAME && 1 <= k < 64
    requires Matches(TableAt(v, r.parent)[k], r) && TableAt(v, r.parent)[k].IsDirectory()
    ensures DeleteDefined(v, r) && TableAt(v, r.parent)[k].Start() < 512
    ensures var code, t := Delete(v, r).code, TableAt(v, TableAt(v, r.parent)[k].Start());
      && (code == 0 || code == 2)
      && (code == 2 <==> t[1].Used())
      && ((code == 2 <==> Occupied(t)) <==> (t[1].Used() || !Occupied(t)))
  {
    hide DecodeTable, DirectoryAt, Delete;
    var l :| VolumeOk(v, l);
    DirectoriesAreReachable(v, l, r.parent);
    DeleteIsExact(v, l, r);
    var t := TableAt(v, TableAt(v, r.parent)[k].Start());
    assert t[1].Used() ==> Occupied(t);
    DeleteCodes(v, r);
  }

  // ---------- a run that deletes a directory with a file in it ----------

  const DISK: Disk := seq<Cluster>(2048, _ => ZERO_CLUSTER)
  const A: Name := [0x41, 0, 0, 0, 0, 0, 0, 0]
  const B: Name := [0x42, 0, 0, 0, 0, 0, 0, 0]
  const C: Name := [0x43, 0, 0, 0, 0, 0, 0, 0]

  /** A one-byte file named name in directory d, and a directory named A in the root. */
  function FileRequest(name: Name, d: DataCluster): Request {
    Request(name, ZERO_EXT, d, 1)
  }

  function WithFile(t: Table, k: nat, name: Name, c: DataCluster): Table
    requires k < 64
  {
    t[k := NewEntry(t[k], FileRequest(name, 3), c)]
  }

  const DIR_REQUEST: Request := Request(A, ZERO_EXT, ROOT, 0)

  lemma {:induction false} FirstFreeIs(f: Map, k: nat, c: DataCluster)
    requires 2 <= k <= c && f[c] == EMPTY && forall i :: k <= i < c ==> f[i] != EMPTY
    ensures FirstFree(f, k, 1) == [c]
    decreases c - k
  {
    if k < c { FirstFreeIs(f, k + 1, c); }
  }

  /** One allocation step of the run: the lowest free cluster c is taken and the next one is then the lowest. */
  lemma TakeOne(v: Volume, l: Layout, r: Request, buf: seq<byte>, c: DataCluster)
    requires VolumeOk(v, l) && r.name != ZERO_NAME && 2 <= r.parent < 512 && r.parent in l.depth
    requires FreeSlot(TableAt(v, r.parent), 0) < 64 && r.size <= 1 && r.size <= |buf|
    requires forall i :: 1 <= i < 64 ==> TableAt(v, r.parent)[i].name != r.name
    requires c < 511 && (forall i :: 2 <= i < 512 ==> (v.fat[i] == EMPTY <==> c <= i))
    ensures Writes(v, l, r, buf, [c])
    ensures forall i :: 2 <= i < 512 ==> (Write(v, r, buf).volume.fat[i] == EMPTY <==> c + 1 <= i)
  {
    hide DecodeTable, VolumeOk, Write;
    FirstFreeIs(v.fat, 2, c);
    WriteSucceeds(v, r, buf, [c]);
    LinkWords(v.fat, [c]);
    assert Link(v.fat, [c])[[c][0]] == LinkWord([c], 0);
  }

  /** The state between two steps: the directory A sits in slot 1 of the root as cluster 3, whose table is t,
      and the clusters from c up are free. */
  ghost predicate Stage(v: Volume, l: Layout, t: Table, c: DataCluster) {
    && VolumeOk(v, l) && ROOT in l.depth && 3 in l.depth
    && TableAt(v, ROOT)[1].name == A && TableAt(v, ROOT)[1].ext == ZERO_EXT
    && TableAt(v, ROOT)[1].IsDirectory() && TableAt(v, ROOT)[1].Start() == 3
    && TableAt(v, 3) == t
    && (forall i :: 2 <= i < 512 ==> (v.fat[i] == EMPTY <==> c <= i))
  }

  lemma Start() returns (v: Volume, l: Layout)
    ensures v == Formatted(DISK, ZERO_MAP) && VolumeOk(v, l) && ROOT in l.depth
    ensures TableAt(v, ROOT) == NewTable(ROOT_NAME, ROOT)
    ensures forall i :: 2 <= i < 512 ==> (v.fat[i] == EMPTY <==> 3 <= i)
  {
    hide DecodeTable, EncodeTable, VolumeOk;
    v, l := Formatted(DISK, ZERO_MAP), Layout(map[ROOT := 0], map[]);
    FormatIsWellFormed(DISK, ZERO_MAP);
  }

  lemma SlotIs(t: Table, k: nat)
    requires k < 64 && !t[k].Used() && forall i :: 0 <= i < k ==> t[i].Used()
    ensures FreeSlot(t, 0) == k
  {
  }

  lemma MakeDirectory(v: Volume, l: Layout) returns (w: Volume, m: Layout)
    requires VolumeOk(v, l) && ROOT in l.depth && TableAt(v, ROOT) == NewTable(ROOT_NAME, ROOT)
    requires forall i :: 2 <= i < 512 ==> (v.fat[i] == EMPTY <==> 3 <= i)
    ensures WriteDefined(v, DIR_REQUEST, []) && w == Write(v, DIR_REQUEST, []).volume
    ensures Stage(w, m, NewTable(A, ROOT), 4)
  {
    hide DecodeTable, EncodeTable, VolumeOk, Write, FirstFree;
    SlotIs(TableAt(v, ROOT), 1);
    TakeOne(v, l, DIR_REQUEST, [], 3);
    w, m := Write(v, DIR_REQUEST, []).volume, Grown(l, ROOT, 1, [3], true);
    WriteKeepsVolume(v, l, DIR_REQUEST, [], [3]);
    NewSlot(v, l, DIR_REQUEST, [], [3]);
    WrittenFile(v, l, DIR_REQUEST, [], [3]);
    DecodeTableOfEncode(NewTable(A, ROOT));
    assert w.disk[[3][0]] == Blocks(DIR_REQUEST, [])[0];
  }

  lemma AddFile(v: Volume, l: Layout, t: Table, c: DataCluster, name: Name, k: nat) returns (w: Volume, m: Layout)
    requires Stage(v, l, t, c) && c < 511 && 1 <= k < 64 && name != ZERO_NAME
    requires !t[k].Used() && (forall i :: 0 <= i < k ==> t[i].Used()) && forall i :: 1 <= i < 64 ==> t[i].name != name
    ensures WriteDefined(v, FileRequest(name, 3), [7]) && w == Write(v, FileRequest(name, 3), [7]).volume
    ensures Stage(w, m, WithFile(t, k, name, c), c + 1)
  {
    hide DecodeTable, EncodeTable, VolumeOk, Write, FirstFree, NewEntry;
    var r := FileRequest(name, 3);
    SlotIs(t, k);
    TakeOne(v, l, r, [7], c);
    w, m := Write(v, r, [7]).volume, Grown(l, 3, k, [c], false);
    WriteKeepsVolume(v, l, r, [7], [c]);
    NewSlot(v, l, r, [7], [c]);
    WriteLeavesTables(v, l, r, [7], [c], ROOT);
  }

  lemma RemoveFirstFile(v: Volume, l: Layout, t: Table, c: DataCluster) returns (w: Volume, m: Layout)
    requires Stage(v, l, t, c) && Matches(t[1], FileRequest(B, 3)) && !t[1].IsDirectory()
    ensures DeleteDefined(v, FileRequest(B, 3)) && w == Delete(v, FileRequest(B, 3)).volume
    ensures VolumeOk(w, m) && ROOT in m.depth && TableAt(w, ROOT) == TableAt(v, ROOT)
    ensures TableAt(w, 3) == t[1 := EMPTY_ENTRY]
  {
    hide DecodeTable, EncodeTable, VolumeOk, Delete, Removal, Pruned, TreeOk;
    var r := FileRequest(B, 3);
    DeleteIsExact(v, l, r);
    var cs := Chain(v.fat, t[1].Start());
    FindSlotIs(t, B, ZERO_EXT, 1, 1);
    DeleteSucceeds(v, l, r, 1, cs);
    DeletesMeans(v, l, r, 1, cs);
    DeleteKeepsVolume(v, l, r, 1, cs);
    RemovalEffect(v, 3, 1, cs);
    DecodeTableOfEncode(t[1 := EMPTY_ENTRY]);
    w, m := Delete(v, r).volume, Pruned(l, cs);
    RootStays(w, m);
  }

  lemma RootStays(v: Volume, l: Layout)
    requires VolumeOk(v, l)
    ensures ROOT in l.depth
  {
  }

  lemma RootIsDirectory(v: Volume)
    ensures IsDirectory(v, ROOT)
  {
    assert DirectoryAt(v, []) == Some(ROOT);
  }

  /** Make a directory, put two files in it, delete the first: now delete takes the directory for an empty one,
      although the second file is still in it. */
  lemma OccupiedDirectoryIsDeleted()
    ensures var v0, rb, rc := Formatted(DISK, ZERO_MAP), FileRequest(B, 3), FileRequest(C, 3);
      var v := After(v0, [WriteOp(DIR_REQUEST, []), WriteOp(rb, [7]), WriteOp(rc, [7]), DeleteOp(rb)]);
      && Run(v0, [WriteOp(DIR_REQUEST, []), WriteOp(rb, [7]), WriteOp(rc, [7]), DeleteOp(rb)])
      && Occupied(TableAt(v, 3))
      && DeleteDefined(v, DIR_REQUEST) && Delete(v, DIR_REQUEST).code == 0
  {
    hide DecodeTable, EncodeTable, VolumeOk, Write, Delete, FirstFree, DirectoryAt, NewEntry, WriteDefined,
         DeleteDefined, IsDirectory, Formatted, WellFormed;
    var rb, rc := FileRequest(B, 3), FileRequest(C, 3);
    var v0, l0 := Start();
    var v1, l1 := MakeDirectory(v0, l0);
    var t1 := NewTable(A, ROOT);
    var v2, l2 := AddFile(v1, l1, t1, 4, B, 1);
    var t2 := WithFile(t1, 1, B, 4);
    var v3, l3 := AddFile(v2, l2, t2, 5, C, 2);
    var t3 := WithFile(t2, 2, C, 5);
    var v4, l4 := RemoveFirstFile(v3, l3, t3, 6);
    assert t3[1 := EMPTY_ENTRY][2].Used();
    FourSteps(v0, v1, v2, v3, v4, rb, rc, l1, l2, l3);
    assert WellFormed(v4) by { Witnessed(v4, l4); }
    RootIsDirectory(v4);
    RefusalIsExact(v4, DIR_REQUEST, 1);
  }

  lemma Witnessed(v: Volume, l: Layout)
    requires VolumeOk(v, l)
    ensures WellFormed(v)
  {
  }

  lemma FourSteps(v0: Volume, v1: Volume, v2: Volume, v3: Volume, v4: Volume, rb: Request, rc: Request,
                  l1: Layout, l2: Layout, l3: Layout)
    requires WriteDefined(v0, DIR_REQUEST, []) && v1 == Write(v0, DIR_REQUEST, []).volume
    requires WriteDefined(v1, rb, [7]) && v2 == Write(v1, rb, [7]).volume
    requires WriteDefined(v2, rc, [7]) && v3 == Write(v2, rc, [7]).volume
    requires DeleteDefined(v3, rb) && v4 == Delete(v3, rb).volume
    requires rb.parent == 3 && rc.parent == 3
    requires VolumeOk(v1, l1) && VolumeOk(v2, l2) && VolumeOk(v3, l3)
    requires 3 in l1.depth && 3 in l2.depth && 3 in l3.depth
    ensures var ops := [WriteOp(DIR_REQUEST, []), WriteOp(rb, [7]), WriteOp(rc, [7]), DeleteOp(rb)];
      Run(v0, ops) && After(v0, ops) == v4
  {
    hide VolumeOk, Write, Delete, WriteDefined, DeleteDefined, IsDirectory;
    var o1, o2, o3, o4 := WriteOp(DIR_REQUEST, []), WriteOp(rb, [7]), WriteOp(rc, [7]), DeleteOp(rb);
    RootIsDirectory(v0);
    DirectoriesAreReachable(v1, l1, 3);
    DirectoriesAreReachable(v2, l2, 3);
    DirectoriesAreReachable(v3, l3, 3);
    assert [o1, o2, o3, o4][1..] == [o2, o3, o4] && [o2, o3, o4][1..] == [o3, o4] && [o3, o4][1..] == [o4];
    assert Run(v4, []) && After(v4, []) == v4;
    assert [o4][1..] == [] && Step(v3, o4) == v4 && Admissible(v3, o4);
    assert After(v3, [o4]) == v4 && Run(v3, [o4]);
    assert After(v2, [o3, o4]) == v4 && Run(v2, [o3, o4]);
    assert After(v1, [o2, o3, o4]) == v4 && Run(v1, [o2, o3, o4]);
  }
}
