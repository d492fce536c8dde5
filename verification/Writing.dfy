/** What a write keeps: the tree, everything a user saw before, and the exactness of the allocation. */
module Writing {
  import opened Bytes
  import opened Directory
  import opened Fat
  import opened Tree
  import opened Volumes
  import opened Views

  /** w is a mountable volume that differs from v in free clusters and their words only. */
  ghost predicate KeepsAllocated(v: Volume, w: Volume) {
    && Coherent(w)
    && w.disk[0] == v.disk[0] && w.fat[0] == v.fat[0] && w.fat[1] == v.fat[1]
    && forall c: DataCluster :: v.fat[c] != EMPTY ==> w.fat[c] == v.fat[c] && w.disk[c] == v.disk[c]
  }

  lemma LiveIsAllocated(v: Volume, l: Layout)
    requires VolumeOk(v, l)
    ensures forall c :: c in Live(l) ==> v.fat[c] != EMPTY
  {
    LiveDirectory(v, l, ROOT);
  }

  /** Scribbling over free clusters neither harms the tree nor shows. */
  lemma FreeClustersDoNotShow(v: Volume, w: Volume, l: Layout)
    requires VolumeOk(v, l) && KeepsAllocated(v, w)
    ensures VolumeOk(w, l) && SameView(v, w) && NothingDangles(w)
  {
    LiveIsAllocated(v, l);
    assert SameOnDisk(v, w, Live(l));
    TreeFrame(StructureOf(v), StructureOf(w), l);
    ViewFrame(v, w, l);
  }

  /** What makes write succeed: a fresh name, a free slot, a size it can count, and enough free clusters cs. */
  ghost predicate Fits(v: Volume, r: Request, buf: seq<byte>, cs: seq<DataCluster>) {
    && r.name != ZERO_NAME && 2 <= r.parent < 512
    && FreeSlot(TableAt(v, r.parent), 0) < 64 && r.size <= MAX_FILE_SIZE && r.size <= |buf|
    && !NameTaken(TableAt(v, r.parent), r.name)
    && cs == FirstFree(v.fat, 2, ClustersFor(r.size)) && |cs| == ClustersFor(r.size)
  }

  /** The setting of a write that succeeds below a directory of a well-formed volume. */
  ghost predicate Writes(v: Volume, l: Layout, r: Request, buf: seq<byte>, cs: seq<DataCluster>) {
    Fits(v, r, buf, cs) && VolumeOk(v, l) && r.parent in l.depth
  }

  /** The slot a successful write fills: not slot 0, and blank until now. */
  lemma SlotIsBlank(v: Volume, l: Layout, d: DataCluster)
    requires VolumeOk(v, l) && d in l.depth && FreeSlot(TableAt(v, d), 0) < 64
    ensures 1 <= FreeSlot(TableAt(v, d), 0) && TableAt(v, d)[FreeSlot(TableAt(v, d), 0)] == EMPTY_ENTRY
  {
    LiveDirectory(v, l, d);
    var n := FreeSlot(TableAt(v, d), 0);
    assert StructureOf(v).tables[d] == TableAt(v, d);
    assert DirectoryOk(StructureOf(v), l, d);
  }

  /** The disk after the data writes and the allocation table write, the parent table still old. */
  function Staged(v: Volume, r: Request, buf: seq<byte>, cs: seq<DataCluster>): Volume
    requires r.size <= |buf| && |cs| == ClustersFor(r.size)
  {
    Volume(Apply(v.disk, PutsOf(cs, Blocks(r, buf)))[FAT_CLUSTER_NUMBER := EncodeMap(Link(v.fat, cs))],
           Link(v.fat, cs))
  }

  lemma WritePutsApplied(v: Volume, r: Request, buf: seq<byte>, cs: seq<DataCluster>)
    requires 2 <= r.parent < 2048 && FreeSlot(TableAt(v, r.parent), 0) < 64 && r.size <= |buf|
    requires |cs| == ClustersFor(r.size)
    ensures Apply(v.disk, WritePuts(v, r, buf, cs))
         == Staged(v, r, buf, cs).disk[r.parent := NewParent(v, r, cs[0])]
  {
    var data, fat := PutsOf(cs, Blocks(r, buf)), Put(FAT_CLUSTER_NUMBER, EncodeMap(Link(v.fat, cs)));
    var parent := Put(r.parent, NewParent(v, r, cs[0]));
    assert WritePuts(v, r, buf, cs) == (data + [fat]) + [parent];
    ApplyOne(v.disk, data + [fat], parent);
    ApplyOne(v.disk, data, fat);
  }

  /** The first free clusters are free, ascending, and above the root. */
  lemma TakenClusters(v: Volume, l: Layout, n: nat)
    requires VolumeOk(v, l)
    ensures var cs := FirstFree(v.fat, 2, n);
      Ascending(cs) && forall c :: c in cs ==> v.fat[c] == EMPTY && c !in Live(l) && c !in l.owner
  {
    FirstFreeShape(v.fat, n);
    LiveIsAllocated(v, l);
  }

  /** After data and table are written nothing shows yet, and the new chain lies ready. */
  lemma StagedIsReady(v: Volume, l: Layout, r: Request, buf: seq<byte>, cs: seq<DataCluster>)
    requires Writes(v, l, r, buf, cs)
    ensures KeepsAllocated(v, Staged(v, r, buf, cs))
    ensures Proper(Link(v.fat, cs), cs[0]) && Chain(Link(v.fat, cs), cs[0]) == cs
    ensures forall i :: 0 <= i < |cs| ==> Staged(v, r, buf, cs).disk[cs[i]] == Blocks(r, buf)[i]
    ensures forall c: DataCluster :: c !in cs ==>
      Staged(v, r, buf, cs).disk[c] == v.disk[c] && Link(v.fat, cs)[c] == v.fat[c]
  {
    hide DecodeTable, EncodeTable, DecodeMap, EncodeMap, Apply, TreeOk, Blocks, Chain, Proper;
    TakenClusters(v, l, ClustersFor(r.size));
    ApplyPuts(v.disk, cs, Blocks(r, buf));
    LinkWords(v.fat, cs);
    ChainOfLink(v.fat, cs);
    DecodeMapOfEncode(Link(v.fat, cs));
  }

  lemma StructureAfterPut(v: Volume, d: DataCluster, i: nat, e: Entry, before: Table)
    requires i < 64 && before == TableAt(v, d)
    ensures StructureOf(Volume(v.disk[d := EncodeTable(before[i := e])], v.fat)) == SetSlot(StructureOf(v), d, i, e)
  {
    DecodeTableOfEncode(before[i := e]);
    assert TablesOf(v.disk[d := EncodeTable(before[i := e])])
        == TablesOf(v.disk)[d := TablesOf(v.disk)[d][i := e]];
  }

  lemma NewTableIsFresh(name: Name, parent: u32)
    requires parent < 512
    ensures FreshTable(DecodeTable(EncodeTable(NewTable(name, parent))), name, parent)
  {
    DecodeTableOfEncode(NewTable(name, parent));
  }

  /** What the setting of a successful write says about the parent's table and the clusters taken. */
  lemma WritesMeans(v: Volume, l: Layout, r: Request, buf: seq<byte>, cs: seq<DataCluster>)
    requires Writes(v, l, r, buf, cs)
    ensures 1 <= FreeSlot(TableAt(v, r.parent), 0) < 64
    ensures TableAt(v, r.parent)[FreeSlot(TableAt(v, r.parent), 0)] == EMPTY_ENTRY
    ensures forall i :: 1 <= i < 64 ==> TableAt(v, r.parent)[i].name != r.name
    ensures r.size <= MAX_FILE_SIZE && r.size <= |buf| && |cs| == ClustersFor(r.size) && Ascending(cs)
    ensures r.parent !in cs && forall c :: c in cs ==> v.fat[c] == EMPTY && c != ROOT && c !in l.owner
  {
    hide DecodeTable, TreeOk;
    SlotIsBlank(v, l, r.parent);
    LiveDirectory(v, l, r.parent);
    TakenClusters(v, l, ClustersFor(r.size));
  }

  lemma EntryIsEnterable(v: Volume, l: Layout, r: Request, buf: seq<byte>, cs: seq<DataCluster>)
    requires Writes(v, l, r, buf, cs)
    ensures var t, n := TableAt(v, r.parent), FreeSlot(TableAt(v, r.parent), 0);
      Enterable(StructureOf(Staged(v, r, buf, cs)), l, r.parent, n, NewEntry(t[n], r, cs[0]), cs)
  {
    hide NewEntry, DecodeTable, EncodeTable, EncodeMap, Apply, VolumeOk, FreeSlot, FirstFree, NameTaken;
    WritesMeans(v, l, r, buf, cs);
    var t, n := TableAt(v, r.parent), FreeSlot(TableAt(v, r.parent), 0);
    var w := Staged(v, r, buf, cs);
    StagedIsReady(v, l, r, buf, cs);
    assert StructureOf(w).tables[r.parent] == t;
    if r.size == 0 {
      NewTableIsFresh(r.name, r.parent);
      assert StructureOf(w).tables[cs[0]] == DecodeTable(Blocks(r, buf)[0]);
    }
    var e := NewEntry(t[n], r, cs[0]);
    assert e.IsDirectory() <==> r.size == 0;
  }

  lemma WriteSucceeds(v: Volume, r: Request, buf: seq<byte>, cs: seq<DataCluster>)
    requires Fits(v, r, buf, cs)
    ensures Write(v, r, buf)
         == Outcome(0, Volume(Staged(v, r, buf, cs).disk[r.parent := NewParent(v, r, cs[0])], Link(v.fat, cs)),
                    WritePuts(v, r, buf, cs))
  {
    hide DecodeTable, EncodeTable, Apply, EncodeMap;
    WritePutsApplied(v, r, buf, cs);
  }

  lemma WriteIsSetSlot(v: Volume, l: Layout, r: Request, buf: seq<byte>, cs: seq<DataCluster>)
    requires Writes(v, l, r, buf, cs)
    ensures var t, n := TableAt(v, r.parent), FreeSlot(TableAt(v, r.parent), 0);
      StructureOf(Write(v, r, buf).volume)
      == SetSlot(StructureOf(Staged(v, r, buf, cs)), r.parent, n, NewEntry(t[n], r, cs[0]))
  {
    hide NewEntry, DecodeTable, EncodeTable, EncodeMap, Apply, TreeOk, Write;
    var t, n := TableAt(v, r.parent), FreeSlot(TableAt(v, r.parent), 0);
    WriteSucceeds(v, r, buf, cs);
    StagedIsReady(v, l, r, buf, cs);
    WritesMeans(v, l, r, buf, cs);
    StructureAfterPut(Staged(v, r, buf, cs), r.parent, n, NewEntry(t[n], r, cs[0]), t);
  }

  /** A write that succeeds keeps the volume well formed: the tree gains exactly one entry. */
  lemma WriteKeepsVolume(v: Volume, l: Layout, r: Request, buf: seq<byte>, cs: seq<DataCluster>)
    requires Writes(v, l, r, buf, cs)
    ensures var o := Write(v, r, buf);
      o.code == 0 && VolumeOk(o.volume, Grown(l, r.parent, FreeSlot(TableAt(v, r.parent), 0), cs, r.size == 0))
  {
    hide DecodeTable, EncodeTable, EncodeMap, Apply, TreeOk, Write, Enterable, NewEntry, TablesOf;
    var t, n := TableAt(v, r.parent), FreeSlot(TableAt(v, r.parent), 0);
    var w, e := Staged(v, r, buf, cs), NewEntry(t[n], r, cs[0]);
    StagedIsReady(v, l, r, buf, cs);
    FreeClustersDoNotShow(v, w, l);
    EntryIsEnterable(v, l, r, buf, cs);
    EnterKeepsTree(StructureOf(w), l, r.parent, n, e, cs);
    WriteIsSetSlot(v, l, r, buf, cs);
    WriteSucceeds(v, r, buf, cs);
  }

  /** First fit: the taken clusters are as many as asked for and lie below everything left free. */
  lemma FirstFitTakesLowest(f: Map, n: nat)
    requires n <= |FreeClusters(f)|
    ensures var g := Link(f, FirstFree(f, 2, n));
      && FreeClusters(g) <= FreeClusters(f) && |FreeClusters(g)| == |FreeClusters(f)| - n
      && forall c, d :: c in FreeClusters(f) - FreeClusters(g) && d in FreeClusters(g) ==> c < d
  {
    var cs := FirstFree(f, 2, n);
    FirstFreeCount(f, 2, n);
    FirstFreeShape(f, n);
    FreeAfterLink(f, cs);
    var g := Link(f, cs);
    forall c, d | c in FreeClusters(f) - FreeClusters(g) && d in FreeClusters(g)
      ensures c < d
    {
      hide Link, FirstFree, FreeFrom;
      assert c in Elements(cs) && d !in Elements(cs);
      var i :| 0 <= i < |cs| && cs[i] == c;
      assert f[d] == EMPTY by { assert d in FreeClusters(f); FreeMeaning(f, d); }
      assert c != d;
      assert d < cs[i] ==> d in cs;
    }
  }

  lemma FreeMeaning(f: Map, d: DataCluster)
    ensures d in FreeClusters(f) <==> f[d] == EMPTY
  {
  }

  /** When the name and the slot allow it, a write succeeds exactly if enough clusters are free. It
      takes the lowest ones, and as many as the file needs; otherwise nothing at all changes. */
  lemma AllocationIsExact(v: Volume, r: Request, buf: seq<byte>)
    requires WriteDefined(v, r, buf)
    requires r.name != ZERO_NAME && 2 <= r.parent < 2048 && !NameTaken(TableAt(v, r.parent), r.name)
    ensures var o, need := Write(v, r, buf), ClustersFor(r.size);
      && (o.code == 0 <==> need <= |FreeClusters(v.fat)|)
      && (o.code != 0 ==> o == Outcome(1, v, []))
      && (o.code == 0 ==>
            && FreeClusters(o.volume.fat) <= FreeClusters(v.fat)
            && |FreeClusters(o.volume.fat)| == |FreeClusters(v.fat)| - need
            && (forall c, d ::
                  c in FreeClusters(v.fat) - FreeClusters(o.volume.fat) && d in FreeClusters(o.volume.fat) ==> c < d))
  {
    hide FreeFrom, Link;
    var need := ClustersFor(r.size);
    FirstFreeCount(v.fat, 2, need);
    if need <= |FreeClusters(v.fat)| {
      FirstFitTakesLowest(v.fat, need);
    }
  }
}
