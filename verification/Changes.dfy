/** What a user sees of a write or a delete: one path changes, and nothing else. */
module Changes {
  import opened Wrappers
  import opened Bytes
  import opened Directory
  import opened Fat
  import opened Tree
  import opened Volumes
  import opened Views
  import opened Writing
  import opened Reading
  import opened Deleting

  /** path leads to the slot at the end of at, or through it. */
  predicate Through(path: Path, at: Path) {
    at <= path
  }

  /** w is v with slot n of directory p replaced and nothing else. */
  ghost predicate SlotReplaced(v: Volume, w: Volume, p: DataCluster, n: nat) {
    && 1 <= n < 64 && w.fat == v.fat
    && (forall c: DataCluster :: c != p ==> w.disk[c] == v.disk[c])
    && (forall i :: 0 <= i < 64 && i != n ==> TableAt(w, p)[i] == TableAt(v, p)[i])
  }

  lemma OtherSlotsShowTheSame(v: Volume, w: Volume, l: Layout, p: DataCluster, n: nat, d: DataCluster, i: nat)
    requires VolumeOk(v, l) && p in l.depth && d in l.depth && SlotReplaced(v, w, p, n) && (d, i) != (p, n)
    ensures Show(w, d, i) == Show(v, d, i)
  {
    hide DecodeTable, VolumeOk;
    assert i < 64 ==> TableAt(w, d)[i] == TableAt(v, d)[i];
    if 1 <= i < 64 && TableAt(v, d)[i].Used() {
      LiveDirectory(v, l, d);
      var e := TableAt(v, d)[i];
      assert EntryOk(StructureOf(v), l, d, i) && StructureOf(v).tables[d] == TableAt(v, d);
      if e.IsDirectory() {
        assert TableAt(w, e.Start())[0] == TableAt(v, e.Start())[0];
      } else {
        if e.Start() == p {
          EnteredBy(v, l, p);
          OwnerOfStart(v, l, d, i);
          assert false;
        }
        DirectoryIsNotInside(v, l, d, i, p);
        ContentsFrame(v.disk, w.disk, Chain(v.fat, e.Start()));
      }
    }
  }

  /** A path that does not go through at may end in the same directory, but then in another slot. */
  lemma AnotherSlot(v: Volume, l: Layout, at: Path, path: Path)
    requires VolumeOk(v, l) && at != [] && path != [] && !Through(path, at)
    requires DirectoryAt(v, at[..|at| - 1]).Some?
    ensures DirectoryAt(v, path[..|path| - 1]) == DirectoryAt(v, at[..|at| - 1]) ==>
      path[|path| - 1] != at[|at| - 1]
  {
    hide DecodeTable, VolumeOk, DirectoryAt;
    var m, n := |path| - 1, |at| - 1;
    if DirectoryAt(v, path[..m]) == DirectoryAt(v, at[..n]) {
      OnePath(v, l, at[..n], path[..m]);
      assert path == path[..m] + [path[m]] && at == at[..n] + [at[n]];
    }
  }

  lemma {:induction false} OtherPathsLeadOn(v: Volume, w: Volume, l: Layout, at: Path, path: Path)
    requires VolumeOk(v, l) && at != [] && DirectoryAt(v, at[..|at| - 1]).Some?
    requires SlotReplaced(v, w, DirectoryAt(v, at[..|at| - 1]).value, at[|at| - 1]) && !Through(path, at)
    ensures DirectoryAt(w, path) == DirectoryAt(v, path)
    decreases |path|
  {
    hide DecodeTable, VolumeOk;
    if path != [] {
      var m := |path| - 1;
      OtherPathsLeadOn(v, w, l, at, path[..m]);
      AnotherSlot(v, l, at, path);
      if DirectoryAt(v, path[..m]).Some? {
        var d := DirectoryAt(v, path[..m]).value;
        assert path[m] < 64 ==> TableAt(w, d)[path[m]] == TableAt(v, d)[path[m]];
      }
    }
  }

  /** Replacing one slot changes nothing at any path that does not go through it. */
  lemma OtherPathsShowTheSame(v: Volume, w: Volume, l: Layout, at: Path, path: Path)
    requires VolumeOk(v, l) && at != [] && DirectoryAt(v, at[..|at| - 1]).Some?
    requires SlotReplaced(v, w, DirectoryAt(v, at[..|at| - 1]).value, at[|at| - 1]) && !Through(path, at)
    ensures See(w, path) == See(v, path)
  {
    hide DecodeTable, VolumeOk, DirectoryAt, Show;
    DirectoryAtIsLive(v, l, at[..|at| - 1]);
    if path == [] {
      assert TableAt(w, ROOT)[0] == TableAt(v, ROOT)[0];
    } else {
      var m := |path| - 1;
      OtherPathsLeadOn(v, w, l, at, path[..m]);
      AnotherSlot(v, l, at, path);
      DirectoryAtIsLive(v, l, path[..m]);
      if DirectoryAt(v, path[..m]).Some? {
        OtherSlotsShowTheSame(v, w, l, DirectoryAt(v, at[..|at| - 1]).value, at[|at| - 1],
                              DirectoryAt(v, path[..m]).value, path[m]);
      }
    }
  }

  /** Nothing is to be seen through a slot that leads to no directory. */
  lemma {:induction false} NothingBeyond(w: Volume, at: Path, path: Path)
    requires DirectoryAt(w, at) == None && Through(path, at)
    ensures DirectoryAt(w, path) == None && (path != at ==> See(w, path) == Nothing)
    decreases |path|
  {
    if path != at {
      assert Through(path[..|path| - 1], at);
      NothingBeyond(w, at, path[..|path| - 1]);
    }
  }

  /** Nothing is to be seen inside a directory whose slots are blank. */
  lemma {:induction false} NothingInside(w: Volume, at: Path, path: Path)
    requires DirectoryAt(w, at).Some? && Through(path, at) && path != at
    requires forall i :: 1 <= i < 64 ==> TableAt(w, DirectoryAt(w, at).value)[i] == EMPTY_ENTRY
    ensures DirectoryAt(w, path) == None && See(w, path) == Nothing
    decreases |path|
  {
    hide DecodeTable;
    var m := |path| - 1;
    assert Through(path[..m], at);
    if path[..m] != at { NothingInside(w, at, path[..m]); }
  }

  // ---------- delete ----------

  lemma BlankedIsReplaced(v: Volume, p: DataCluster, k: nat)
    requires 1 <= k < 64
    ensures SlotReplaced(v, Blanked(v, p, k), p, k) && TableAt(Blanked(v, p, k), p)[k] == EMPTY_ENTRY
  {
    hide DecodeTable, EncodeTable;
    DecodeTableOfEncode(TableAt(v, p)[k := EMPTY_ENTRY]);
  }

  lemma {:induction false} DirectoriesAgree(v: Volume, w: Volume, path: Path)
    requires SameView(v, w)
    ensures DirectoryAt(w, path) == DirectoryAt(v, path)
  {
    hide DecodeTable;
    if path != [] {
      DirectoriesAgree(v, w, path[..|path| - 1]);
      assert See(w, path) == See(v, path);
    }
  }

  /** A user sees exactly this of a delete: nothing any more at the deleted path or below it, everything
      else as before. */
  lemma DeleteShows(v: Volume, l: Layout, r: Request, k: nat, cs: seq<DataCluster>, at: Path, path: Path)
    requires Deletes(v, l, r, k, cs) && at != []
    requires DirectoryAt(v, at[..|at| - 1]) == Some(r.parent) && at[|at| - 1] == k
    ensures DeleteDefined(v, r)
    ensures See(Delete(v, r).volume, path) == if Through(path, at) then Nothing else See(v, path)
  {
    hide DecodeTable, EncodeTable, VolumeOk, Deletes, Removal, Delete, Pruned, Blanked, DirectoryAt, See, Show;
    var n := |at| - 1;
    DeleteSucceeds(v, l, r, k, cs);
    DeletesMeans(v, l, r, k, cs);
    var u, w := Blanked(v, r.parent, k), Delete(v, r).volume;
    BlankedIsReplaced(v, r.parent, k);
    BlankedKeepsVolume(v, l, r, k, cs);
    RemovedIsNotLive(v, l, r, k, cs);
    ViewFrame(u, w, Pruned(l, cs));
    assert See(w, path) == See(u, path);
    if Through(path, at) {
      assert !Through(at[..n], at);
      OtherPathsLeadOn(v, u, l, at, at[..n]);
      SlotIsGone(u, at, r.parent, k);
      NothingBeyond(u, at, path);
    } else {
      OtherPathsShowTheSame(v, u, l, at, path);
    }
  }

  lemma SlotIsGone(u: Volume, at: Path, p: DataCluster, k: nat)
    requires at != [] && DirectoryAt(u, at[..|at| - 1]) == Some(p) && at[|at| - 1] == k
    requires 1 <= k < 64 && TableAt(u, p)[k] == EMPTY_ENTRY
    ensures DirectoryAt(u, at) == None && See(u, at) == Nothing
  {
    hide DecodeTable;
  }

  // ---------- write ----------

  /** What the new path shows after a write. */
  function NewSight(r: Request, buf: seq<byte>, e: Entry): Sight
    requires r.size <= |buf|
  {
    if r.size == 0 then Folder(e, SelfEntry(r.name, r.parent))
    else File(e, buf[..r.size] + Zeros(2048 * ClustersFor(r.size) - r.size))
  }

  lemma WrittenIsReplaced(v: Volume, l: Layout, r: Request, buf: seq<byte>, cs: seq<DataCluster>)
    requires Writes(v, l, r, buf, cs)
    ensures SlotReplaced(Staged(v, r, buf, cs), Write(v, r, buf).volume, r.parent, FreeSlot(TableAt(v, r.parent), 0))
  {
    hide DecodeTable, EncodeTable, VolumeOk, Write, NewEntry, Apply;
    WriteSucceeds(v, r, buf, cs);
    WritesMeans(v, l, r, buf, cs);
    StagedIsReady(v, l, r, buf, cs);
    NewSlot(v, l, r, buf, cs);
    assert Staged(v, r, buf, cs).disk[r.parent] == v.disk[r.parent];
  }

  /** What slot n shows once the new entry is in it. */
  lemma NewSlotShows(v: Volume, l: Layout, r: Request, buf: seq<byte>, cs: seq<DataCluster>)
    requires Writes(v, l, r, buf, cs)
    ensures var w, t, n := Write(v, r, buf).volume, TableAt(v, r.parent), FreeSlot(TableAt(v, r.parent), 0);
      Show(w, r.parent, n) == NewSight(r, buf, NewEntry(t[n], r, cs[0]))
  {
    hide DecodeTable, EncodeTable, VolumeOk, Write, NewEntry, Chain, Proper, Contents;
    var w, t, n := Write(v, r, buf).volume, TableAt(v, r.parent), FreeSlot(TableAt(v, r.parent), 0);
    WrittenFile(v, l, r, buf, cs);
    WritesMeans(v, l, r, buf, cs);
    NewSlot(v, l, r, buf, cs);
    assert TableAt(w, r.parent)[n] == NewEntry(t[n], r, cs[0]);
    if r.size == 0 {
      NewFolderHeader(v, l, r, buf, cs);
    } else {
      NewFileBytes(w.disk, cs, r, buf);
    }
  }

  lemma NewFolderHeader(v: Volume, l: Layout, r: Request, buf: seq<byte>, cs: seq<DataCluster>)
    requires Writes(v, l, r, buf, cs) && r.size == 0
    ensures TableAt(Write(v, r, buf).volume, cs[0])[0] == SelfEntry(r.name, r.parent)
  {
    hide DecodeTable, EncodeTable, VolumeOk, Write;
    WrittenFile(v, l, r, buf, cs);
    assert Write(v, r, buf).volume.disk[cs[0]] == Blocks(r, buf)[0];
    DecodeTableOfEncode(NewTable(r.name, r.parent));
  }

  lemma NewFileBytes(d: Disk, cs: seq<DataCluster>, r: Request, buf: seq<byte>)
    requires 0 < r.size <= |buf| && |cs| == ClustersFor(r.size)
    requires forall j :: 0 <= j < |cs| ==> d[cs[j]] == Blocks(r, buf)[j]
    ensures Contents(d, cs) == buf[..r.size] + Zeros(2048 * |cs| - r.size)
  {
    WrittenContents(d, cs, buf, r.size, |cs|);
    assert cs[..|cs|] == cs;
    assert 2048 * |cs| <= r.size ==> 2048 * |cs| == r.size;
  }

  lemma NewDirectoryIsBlank(v: Volume, l: Layout, r: Request, buf: seq<byte>, cs: seq<DataCluster>)
    requires Writes(v, l, r, buf, cs) && r.size == 0
    ensures forall i :: 1 <= i < 64 ==> TableAt(Write(v, r, buf).volume, cs[0])[i] == EMPTY_ENTRY
  {
    hide DecodeTable, EncodeTable, VolumeOk, Write;
    WrittenFile(v, l, r, buf, cs);
    assert Write(v, r, buf).volume.disk[cs[0]] == Blocks(r, buf)[0];
    DecodeTableOfEncode(NewTable(r.name, r.parent));
  }

  lemma NewPathShows(v: Volume, l: Layout, r: Request, buf: seq<byte>, cs: seq<DataCluster>, at: Path, path: Path)
    requires Writes(v, l, r, buf, cs) && at != [] && at[|at| - 1] == FreeSlot(TableAt(v, r.parent), 0)
    requires DirectoryAt(Write(v, r, buf).volume, at[..|at| - 1]) == Some(r.parent) && Through(path, at)
    ensures var t, n := TableAt(v, r.parent), FreeSlot(TableAt(v, r.parent), 0);
      See(Write(v, r, buf).volume, path)
      == if path == at then NewSight(r, buf, NewEntry(t[n], r, cs[0])) else Nothing
  {
    hide DecodeTable, EncodeTable, VolumeOk, Write, NewEntry, NewSight;
    var w, n := Write(v, r, buf).volume, FreeSlot(TableAt(v, r.parent), 0);
    NewSlotShows(v, l, r, buf, cs);
    if path != at {
      WritesMeans(v, l, r, buf, cs);
      NewSlot(v, l, r, buf, cs);
      if r.size == 0 {
        NewDirectoryIsBlank(v, l, r, buf, cs);
        assert DirectoryAt(w, at) == Some(cs[0]);
        NothingInside(w, at, path);
      } else {
        assert DirectoryAt(w, at) == None;
        NothingBeyond(w, at, path);
      }
    }
  }

  /** A user sees exactly this of a write: the new file or empty directory at its path, everything else as
      before. */
  lemma WriteShows(v: Volume, l: Layout, r: Request, buf: seq<byte>, cs: seq<DataCluster>, at: Path, path: Path)
    requires Writes(v, l, r, buf, cs) && at != []
    requires DirectoryAt(v, at[..|at| - 1]) == Some(r.parent) && at[|at| - 1] == FreeSlot(TableAt(v, r.parent), 0)
    ensures var t, n := TableAt(v, r.parent), FreeSlot(TableAt(v, r.parent), 0);
      See(Write(v, r, buf).volume, path)
      == if path == at then NewSight(r, buf, NewEntry(t[n], r, cs[0]))
         else if Through(path, at) then Nothing else See(v, path)
  {
    hide DecodeTable, EncodeTable, VolumeOk, Write, NewEntry, Apply, DirectoryAt, See, NewSight;
    var s, w, n := Staged(v, r, buf, cs), Write(v, r, buf).volume, |at| - 1;
    StagedIsReady(v, l, r, buf, cs);
    FreeClustersDoNotShow(v, s, l);
    DirectoriesAgree(v, s, at[..n]);
    WrittenIsReplaced(v, l, r, buf, cs);
    if Through(path, at) {
      assert !Through(at[..n], at);
      OtherPathsLeadOn(s, w, l, at, at[..n]);
      NewPathShows(v, l, r, buf, cs, at, path);
    } else {
      assert See(s, path) == See(v, path);
      OtherPathsShowTheSame(s, w, l, at, path);
    }
  }
}
