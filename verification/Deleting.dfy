/** What delete frees, what it leaves, and that it undoes a write. */
module Deleting {
  import opened Bytes
  import opened Directory
  import opened Fat
  import opened Tree
  import opened Volumes
  import opened Views
  import opened Writing
  import opened Reading

  lemma {:induction false} FindSlotIs(t: Table, name: Name, ext: Ext, i: nat, k: nat)
    requires i <= k < 64 && t[k].name == name && t[k].ext == ext
    requires forall j :: i <= j < k ==> t[j].name != name || t[j].ext != ext
    ensures FindSlot(t, name, ext, i) == k
    decreases k - i
  {
    if i < k { FindSlotIs(t, name, ext, i + 1, k); }
  }

  /** Every delete below a directory of a well-formed volume stays inside the driver's arrays and ends. */
  lemma DeleteIsDefined(v: Volume, l: Layout, r: Request)
    requires VolumeOk(v, l) && 2 <= r.parent < 512 && r.parent in l.depth
    ensures DeleteDefined(v, r)
  {
    hide DecodeTable, VolumeOk;
    if r.name != ZERO_NAME {
      var k := FindSlot(TableAt(v, r.parent), r.name, r.ext, 1);
      if k < 64 { NamedSlot(v, l, r.parent, k); }
    }
  }

  /** The setting of a delete that succeeds: slot k carries the name and owns the chain cs, and if it is
      a directory then the test of src/fat32.c:475-491 takes it for an empty one. */
  ghost predicate Deletes(v: Volume, l: Layout, r: Request, k: nat, cs: seq<DataCluster>) {
    && VolumeOk(v, l) && r.name != ZERO_NAME && 2 <= r.parent < 512 && r.parent in l.depth
    && k == FindSlot(TableAt(v, r.parent), r.name, r.ext, 1) && k < 64
    && (var e := TableAt(v, r.parent)[k];
        && Proper(v.fat, e.Start()) && cs == Chain(v.fat, e.Start())
        && (e.IsDirectory() ==> !TableAt(v, e.Start())[1].Used()))
  }

  lemma DeletesMeans(v: Volume, l: Layout, r: Request, k: nat, cs: seq<DataCluster>)
    requires Deletes(v, l, r, k, cs)
    ensures VolumeOk(v, l) && 2 <= r.parent < 512
    ensures Removable(StructureOf(v), l, r.parent, k, cs)
    ensures StructureOf(v).tables[r.parent] == TableAt(v, r.parent)
    ensures 1 <= k < 64 && |cs| > 0 && cs[0] == TableAt(v, r.parent)[k].Start() && Ascending(cs)
    ensures r.parent !in cs && ROOT !in cs && forall c :: c in cs ==> v.fat[c] != EMPTY
    ensures TableAt(v, r.parent)[k].IsDirectory() ==> cs == [cs[0]] && cs[0] in l.depth
  {
    hide DecodeTable;
    NamedSlot(v, l, r.parent, k);
    ChainShape(v.fat, TableAt(v, r.parent)[k].Start());
    assert cs[0] in cs;
    var e := TableAt(v, r.parent)[k];
    if e.Start() == r.parent {
      EnteredBy(v, l, r.parent);
      assert false;
    }
    DirectoryIsNotInside(v, l, r.parent, k, r.parent);
    if e.IsDirectory() { LiveDirectory(v, l, e.Start()); }
  }

  lemma DeleteSucceeds(v: Volume, l: Layout, r: Request, k: nat, cs: seq<DataCluster>)
    requires Deletes(v, l, r, k, cs)
    ensures DeleteDefined(v, r) && Delete(v, r) == Removal(v, r.parent, k, cs)
  {
    hide DecodeTable, Removal, VolumeOk;
    DeleteIsDefined(v, l, r);
    DeletesMeans(v, l, r, k, cs);
  }

  /** The volume with slot k of directory p blanked and nothing else changed. */
  function Blanked(v: Volume, p: DataCluster, k: nat): Volume
    requires k < 64
  {
    v.(disk := v.disk[p := EncodeTable(TableAt(v, p)[k := EMPTY_ENTRY])])
  }

  /** What a removal does to the disk and the table, cluster by cluster. */
  lemma RemovalEffect(v: Volume, p: DataCluster, k: nat, cs: seq<DataCluster>)
    requires k < 64 && Ascending(cs) && p !in cs
    ensures var w := Removal(v, p, k, cs).volume;
      && w.disk[p] == EncodeTable(TableAt(v, p)[k := EMPTY_ENTRY])
      && w.disk[FAT_CLUSTER_NUMBER] == EncodeMap(w.fat) && Coherent(w)
      && (forall c :: c in cs ==> w.disk[c] == ZERO_CLUSTER)
      && (forall c: ClusterNumber :: c != p && c != FAT_CLUSTER_NUMBER && c !in cs ==> w.disk[c] == v.disk[c])
      && (forall i :: 0 <= i < 512 ==> w.fat[i] == if i in cs then EMPTY else v.fat[i])
  {
    hide EncodeTable, DecodeTable, EncodeMap, DecodeMap;
    var zeros := ZeroBlocks(|cs|);
    var data, fat := PutsOf(cs, zeros), Put(FAT_CLUSTER_NUMBER, EncodeMap(Clear(v.fat, cs)));
    var parent := Put(p, EncodeTable(TableAt(v, p)[k := EMPTY_ENTRY]));
    assert DeletePuts(v, p, k, cs) == data + [fat] + [parent];
    ApplyOne(v.disk, data + [fat], parent);
    ApplyOne(v.disk, data, fat);
    ApplyPuts(v.disk, cs, zeros);
    ClearWords(v.fat, cs);
    DecodeMapOfEncode(Clear(v.fat, cs));
    var d := Apply(v.disk, data);
    forall c | c in cs
      ensures d[c] == ZERO_CLUSTER
    {
      var i :| 0 <= i < |cs| && cs[i] == c;
      assert d[cs[i]] == zeros[i];
    }
  }

  lemma BlankedKeepsVolume(v: Volume, l: Layout, r: Request, k: nat, cs: seq<DataCluster>)
    requires Deletes(v, l, r, k, cs)
    ensures |cs| > 0 && VolumeOk(Blanked(v, r.parent, k), Pruned(l, cs))
  {
    hide DecodeTable, EncodeTable, DecodeMap, Deletes, Pruned, TreeOk;
    DeletesMeans(v, l, r, k, cs);
    StructureAfterPut(v, r.parent, k, EMPTY_ENTRY, TableAt(v, r.parent));
    RemoveKeepsTree(StructureOf(v), l, r.parent, k, cs);
    BlankedIs(v, r.parent, k);
  }

  lemma RemovedIsNotLive(v: Volume, l: Layout, r: Request, k: nat, cs: seq<DataCluster>)
    requires Deletes(v, l, r, k, cs)
    ensures |cs| > 0 && SameOnDisk(Blanked(v, r.parent, k), Removal(v, r.parent, k, cs).volume, Live(Pruned(l, cs)))
  {
    hide DecodeTable, EncodeTable, DecodeMap, EncodeMap, Deletes, Removable, Removal, Blanked;
    DeletesMeans(v, l, r, k, cs);
    RemovalEffect(v, r.parent, k, cs);
    var u, w := Blanked(v, r.parent, k), Removal(v, r.parent, k, cs).volume;
    assert u.fat == v.fat && u.disk == v.disk[r.parent := EncodeTable(TableAt(v, r.parent)[k := EMPTY_ENTRY])] by {
      BlankedIs(v, r.parent, k);
    }
    forall c | c in Live(Pruned(l, cs))
      ensures w.fat[c] == u.fat[c] && w.disk[c] == u.disk[c]
    {
      assert c !in cs;
    }
  }

  lemma BlankedIs(v: Volume, p: DataCluster, k: nat)
    requires k < 64
    ensures Blanked(v, p, k) == Volume(v.disk[p := EncodeTable(TableAt(v, p)[k := EMPTY_ENTRY])], v.fat)
  {
  }

  /** A delete that succeeds keeps the volume well formed, whatever the deleted directory still held. */
  lemma DeleteKeepsVolume(v: Volume, l: Layout, r: Request, k: nat, cs: seq<DataCluster>)
    requires Deletes(v, l, r, k, cs)
    ensures |cs| > 0 && VolumeOk(Removal(v, r.parent, k, cs).volume, Pruned(l, cs))
  {
    hide DecodeTable, EncodeTable, DecodeMap, EncodeMap, Deletes, Removable, Removal, Pruned, TreeOk, Blanked;
    DeletesMeans(v, l, r, k, cs);
    BlankedKeepsVolume(v, l, r, k, cs);
    BlankedIs(v, r.parent, k);
    RemovedIsNotLive(v, l, r, k, cs);
    RemovalEffect(v, r.parent, k, cs);
    var u, w := Blanked(v, r.parent, k), Removal(v, r.parent, k, cs).volume;
    assert SameOn(StructureOf(u), StructureOf(w), Live(Pruned(l, cs)));
    TreeFrame(StructureOf(u), StructureOf(w), Pruned(l, cs));
  }

  /** A delete that succeeds ends after visiting each cluster of the chain once: these are zeroed and freed,
      no other word changes, and the free count rises by the length of the chain. */
  lemma DeleteFreesTheChain(v: Volume, l: Layout, r: Request, k: nat, cs: seq<DataCluster>)
    requires Deletes(v, l, r, k, cs)
    ensures DeleteDefined(v, r) && Delete(v, r).code == 0
    ensures var w := Delete(v, r).volume;
      && FreeClusters(w.fat) == FreeClusters(v.fat) + Elements(cs)
      && |FreeClusters(w.fat)| == |FreeClusters(v.fat)| + |cs|
      && (forall c :: c in cs ==> w.disk[c] == ZERO_CLUSTER)
      && (forall c: ClusterNumber :: c != r.parent && c != FAT_CLUSTER_NUMBER && c !in cs ==>
            w.disk[c] == v.disk[c])
  {
    hide DecodeTable, EncodeTable, DecodeMap, EncodeMap, Deletes, Removable, FreeFrom, Clear, Apply, DeletePuts;
    DeletesMeans(v, l, r, k, cs);
    DeleteSucceeds(v, l, r, k, cs);
    RemovalEffect(v, r.parent, k, cs);
    FreeAfterClear(v.fat, cs);
  }

  /** When delete succeeds, and what it answers otherwise, in terms of what the parent's table shows. */
  lemma DeleteIsExact(v: Volume, l: Layout, r: Request)
    requires VolumeOk(v, l) && 2 <= r.parent < 512 && r.parent in l.depth && r.name != ZERO_NAME
    ensures DeleteDefined(v, r)
    ensures var o, t := Delete(v, r), TableAt(v, r.parent);
      && (o.code == -1 <==> forall i :: 1 <= i < 64 ==> !Matches(t[i], r))
      && (o.code != 0 ==> o.volume == v && o.puts == [])
      && (forall i :: 1 <= i < 64 && Matches(t[i], r) ==>
            && Proper(v.fat, t[i].Start())
            && (t[i].IsDirectory() ==> (o.code == 2 <==> TableAt(v, t[i].Start())[1].Used()))
            && (!t[i].IsDirectory() ==> o.code == 0)
            && (o.code == 0 ==> Deletes(v, l, r, i, Chain(v.fat, t[i].Start()))))
  {
    hide DecodeTable, VolumeOk, Removal, Chain, Proper;
    DeleteIsDefined(v, l, r);
    var t, k := TableAt(v, r.parent), FindSlot(TableAt(v, r.parent), r.name, r.ext, 1);
    if k < 64 {
      assert Matches(t[k], r);
      NamedSlot(v, l, r.parent, k);
      RemovalCode(v, r.parent, k);
    }
  }

  lemma DeleteCodes(v: Volume, r: Request)
    requires DeleteDefined(v, r)
    ensures Delete(v, r).code in {-1, 0, 2}
  {
    hide DecodeTable, DeletePuts, Apply, Clear;
  }

  lemma RemovalCode(v: Volume, p: ClusterNumber, k: nat)
    requires k < 64
    ensures forall cs :: Removal(v, p, k, cs).code == 0
  {
  }

  // ---------- delete undoes write ----------

  lemma WrittenIsDeletable(v: Volume, l: Layout, r: Request, buf: seq<byte>, cs: seq<DataCluster>)
    requires Writes(v, l, r, buf, cs) && (r.size > 0 || r.ext == ZERO_EXT)
    ensures var n := FreeSlot(TableAt(v, r.parent), 0);
      Deletes(Write(v, r, buf).volume, Grown(l, r.parent, n, cs, r.size == 0), r, n, cs)
  {
    hide DecodeTable, EncodeTable, VolumeOk, Write, NewEntry, Chain, Proper, Grown;
    var w, t, n := Write(v, r, buf).volume, TableAt(v, r.parent), FreeSlot(TableAt(v, r.parent), 0);
    WriteKeepsVolume(v, l, r, buf, cs);
    WrittenFile(v, l, r, buf, cs);
    WritesMeans(v, l, r, buf, cs);
    NewSlot(v, l, r, buf, cs);
    assert EMPTY_ENTRY.ext == ZERO_EXT;
    FindSlotIs(TableAt(w, r.parent), r.name, r.ext, 1, n);
    if r.size == 0 {
      DecodeTableOfEncode(NewTable(r.name, r.parent));
      assert w.disk[cs[0]] == Blocks(r, buf)[0];
    }
    GrownKeepsParent(l, r.parent, n, cs, r.size == 0);
  }

  lemma GrownKeepsParent(l: Layout, p: DataCluster, n: nat, cs: seq<DataCluster>, directory: bool)
    requires |cs| > 0 && p in l.depth
    ensures p in Grown(l, p, n, cs, directory).depth
  {
  }

  lemma WriteTouchesDisk(v: Volume, l: Layout, r: Request, buf: seq<byte>, cs: seq<DataCluster>)
    requires Writes(v, l, r, buf, cs)
    ensures forall c: ClusterNumber :: c !in cs && c != FAT_CLUSTER_NUMBER && c != r.parent ==>
      Write(v, r, buf).volume.disk[c] == v.disk[c]
  {
    hide DecodeTable, EncodeTable, EncodeMap, VolumeOk, Write, NewEntry, Link;
    WriteSucceeds(v, r, buf, cs);
    WritesMeans(v, l, r, buf, cs);
    ApplyPuts(v.disk, cs, Blocks(r, buf));
  }

  /** Blanking the slot just filled gives back the table, and clearing the chain just linked the map. */
  lemma RemovalUndoesWrite(v: Volume, l: Layout, r: Request, buf: seq<byte>, cs: seq<DataCluster>)
    requires Writes(v, l, r, buf, cs)
    ensures var w, n := Write(v, r, buf).volume, FreeSlot(TableAt(v, r.parent), 0);
      && EncodeTable(TableAt(w, r.parent)[n := EMPTY_ENTRY]) == v.disk[r.parent]
      && Clear(w.fat, cs) == v.fat
  {
    hide DecodeTable, EncodeTable, VolumeOk, Write, NewEntry, Clear, Link, Apply;
    WritesMeans(v, l, r, buf, cs);
    NewSlot(v, l, r, buf, cs);
    var w, t, n := Write(v, r, buf).volume, TableAt(v, r.parent), FreeSlot(TableAt(v, r.parent), 0);
    assert TableAt(w, r.parent)[n := EMPTY_ENTRY] == t;
    EncodeTableOfDecode(v.disk[r.parent]);
    WriteSucceeds(v, r, buf, cs);
    ClearOfLink(v.fat, cs);
  }

  /** Deleting what has just been written restores the allocation table and the parent's table bit for bit,
      leaves every other cluster alone, and leaves the clusters it had used zeroed. */
  lemma DeleteUndoesWrite(v: Volume, l: Layout, r: Request, buf: seq<byte>, cs: seq<DataCluster>)
    requires Writes(v, l, r, buf, cs) && (r.size > 0 || r.ext == ZERO_EXT)
    ensures DeleteDefined(Write(v, r, buf).volume, r)
    ensures var o := Delete(Write(v, r, buf).volume, r);
      && o.code == 0 && o.volume.fat == v.fat
      && o.volume.disk[r.parent] == v.disk[r.parent]
      && o.volume.disk[FAT_CLUSTER_NUMBER] == EncodeMap(v.fat)
      && (forall c :: c in cs ==> o.volume.disk[c] == ZERO_CLUSTER)
      && (forall c: ClusterNumber :: c !in cs && c != FAT_CLUSTER_NUMBER ==> o.volume.disk[c] == v.disk[c])
  {
    hide DecodeTable, EncodeTable, DecodeMap, EncodeMap, VolumeOk, Write, Deletes, Grown, Clear, Apply, Delete;
    var w, n := Write(v, r, buf).volume, FreeSlot(TableAt(v, r.parent), 0);
    WrittenIsDeletable(v, l, r, buf, cs);
    DeleteSucceeds(w, Grown(l, r.parent, n, cs, r.size == 0), r, n, cs);
    WritesMeans(v, l, r, buf, cs);
    RemovalEffect(w, r.parent, n, cs);
    RemovalUndoesWrite(v, l, r, buf, cs);
    WriteTouchesDisk(v, l, r, buf, cs);
  }

  /** A directory made with a non-blank extension keeps a blank one in its entry: delete does not find it
      under the request that made it. */
  lemma DirectoryExtensionIsDropped(v: Volume, l: Layout, r: Request, buf: seq<byte>, cs: seq<DataCluster>)
    requires Writes(v, l, r, buf, cs) && r.size == 0
    ensures DeleteDefined(Write(v, r, buf).volume, r)
    ensures Delete(Write(v, r, buf).volume, r).code == (if r.ext == ZERO_EXT then 0 else -1)
  {
    hide DecodeTable, EncodeTable, VolumeOk, Write, NewEntry, Grown, Delete;
    if r.ext == ZERO_EXT {
      DeleteUndoesWrite(v, l, r, buf, cs);
    } else {
      var w, t, n := Write(v, r, buf).volume, TableAt(v, r.parent), FreeSlot(TableAt(v, r.parent), 0);
      WriteKeepsVolume(v, l, r, buf, cs);
      WritesMeans(v, l, r, buf, cs);
      NewSlot(v, l, r, buf, cs);
      GrownKeepsParent(l, r.parent, n, cs, true);
      assert EMPTY_ENTRY.ext == ZERO_EXT;
      DeleteIsExact(w, Grown(l, r.parent, n, cs, true), r);
    }
  }
}
