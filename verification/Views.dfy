/**
  What a volume shows to somebody who walks it from the root: the entry, table
  header and file contents found at every path of slot numbers. Two volumes are
  the same to a user when they show the same at every path.
*/
module Views {
  import opened Wrappers
  import opened Bytes
  import opened Directory
  import opened Fat
  import opened Tree
  import opened Volumes

  datatype Sight =
    | Nothing
    | Dangling(entry: Entry)
    | Folder(entry: Entry, self: Entry)
    | File(entry: Entry, bytes: seq<byte>)

  type Path = seq<nat>

  /** The directory reached from the root by following slot numbers. */
  function DirectoryAt(v: Volume, path: Path): Option<DataCluster>
    decreases |path|
  {
    if path == [] then Some(ROOT)
    else
      match DirectoryAt(v, path[..|path| - 1])
      case None => None
      case Some(d) =>
        var i := path[|path| - 1];
        if 1 <= i < 64 then
          var e := TableAt(v, d)[i];
          if e.Used() && e.IsDirectory() && 2 <= e.Start() < 512 then Some(e.Start()) else None
        else None
  }

  /** What slot i of directory d shows. */
  function Show(v: Volume, d: DataCluster, i: nat): Sight {
    if 1 <= i < 64 && TableAt(v, d)[i].Used() then
      var e := TableAt(v, d)[i];
      if e.IsDirectory() then
        if 2 <= e.Start() < 512 then Folder(e, TableAt(v, e.Start())[0]) else Dangling(e)
      else
        if Proper(v.fat, e.Start()) then File(e, Contents(v.disk, Chain(v.fat, e.Start()))) else Dangling(e)
    else Nothing
  }

  function See(v: Volume, path: Path): Sight {
    if path == [] then Folder(TableAt(v, ROOT)[0], TableAt(v, ROOT)[0])
    else
      match DirectoryAt(v, path[..|path| - 1])
      case None => Nothing
      case Some(d) => Show(v, d, path[|path| - 1])
  }

  ghost predicate SameView(v: Volume, w: Volume) {
    forall path :: See(w, path) == See(v, path)
  }

  /** No path of a well-formed volume ends in a broken chain. */
  ghost predicate NothingDangles(v: Volume) {
    forall path :: !See(v, path).Dangling?
  }

  ghost predicate SameOnDisk(v: Volume, w: Volume, cs: set<DataCluster>) {
    forall c :: c in cs ==> w.fat[c] == v.fat[c] && w.disk[c] == v.disk[c]
  }

  lemma LiveDirectory(v: Volume, l: Layout, d: DataCluster)
    requires VolumeOk(v, l) && d in l.depth
    ensures d in Live(l) && DirectoryOk(StructureOf(v), l, d)
    ensures forall i :: 1 <= i < 64 && TableAt(v, d)[i].Used() ==> EntryOk(StructureOf(v), l, d, i)
  {
    assert StructureOf(v).tables[d] == TableAt(v, d);
  }

  lemma {:induction false} DirectoryAtIsLive(v: Volume, l: Layout, path: Path)
    requires VolumeOk(v, l)
    ensures DirectoryAt(v, path).Some? ==>
      DirectoryAt(v, path).value in l.depth && l.depth[DirectoryAt(v, path).value] == |path|
    decreases |path|
  {
    if path != [] {
      var n := |path| - 1;
      DirectoryAtIsLive(v, l, path[..n]);
      if DirectoryAt(v, path).Some? {
        var d := DirectoryAt(v, path[..n]).value;
        LiveDirectory(v, l, d);
        assert EntryOk(StructureOf(v), l, d, path[n]);
      }
    }
  }

  lemma {:induction false} ContentsFrame(v: Disk, w: Disk, cs: seq<DataCluster>)
    requires forall c :: c in cs ==> w[c] == v[c]
    ensures Contents(w, cs) == Contents(v, cs)
  {
    if cs != [] {
      assert cs[|cs| - 1] in cs;
      ContentsFrame(v, w, cs[..|cs| - 1]);
    }
  }

  /** What a slot shows depends on live clusters only. */
  lemma ShowFrame(v: Volume, w: Volume, l: Layout, d: DataCluster, i: nat)
    requires VolumeOk(v, l) && d in l.depth && SameOnDisk(v, w, Live(l))
    ensures Show(w, d, i) == Show(v, d, i)
    ensures !Show(v, d, i).Dangling?
  {
    hide DecodeTable, Chain, Proper;
    LiveDirectory(v, l, d);
    assert w.disk[d] == v.disk[d];
    if 1 <= i < 64 && TableAt(v, d)[i].Used() {
      var e := TableAt(v, d)[i];
      assert EntryOk(StructureOf(v), l, d, i);
      var cs := Chain(v.fat, e.Start());
      ChainShape(v.fat, e.Start());
      assert forall c :: c in cs ==> c in Live(l);
      assert cs[0] in cs;
      ChainFrame(v.fat, w.fat, e.Start());
      ContentsFrame(v.disk, w.disk, cs);
    }
  }

  lemma {:induction false} DirectoryAtFrame(v: Volume, w: Volume, l: Layout, path: Path)
    requires VolumeOk(v, l) && SameOnDisk(v, w, Live(l))
    ensures DirectoryAt(w, path) == DirectoryAt(v, path)
    decreases |path|
  {
    if path != [] {
      var n := |path| - 1;
      DirectoryAtFrame(v, w, l, path[..n]);
      DirectoryAtIsLive(v, l, path[..n]);
      if DirectoryAt(v, path[..n]).Some? {
        LiveDirectory(v, l, DirectoryAt(v, path[..n]).value);
      }
    }
  }

  /** A user sees nothing of what happens outside the live clusters, and never a broken chain. */
  lemma ViewFrame(v: Volume, w: Volume, l: Layout)
    requires VolumeOk(v, l) && SameOnDisk(v, w, Live(l))
    ensures SameView(v, w) && NothingDangles(v)
  {
    forall path
      ensures See(w, path) == See(v, path) && !See(v, path).Dangling?
    {
      LiveDirectory(v, l, ROOT);
      if path != [] {
        var n := |path| - 1;
        DirectoryAtFrame(v, w, l, path[..n]);
        DirectoryAtIsLive(v, l, path[..n]);
        if DirectoryAt(v, path[..n]).Some? {
          ShowFrame(v, w, l, DirectoryAt(v, path[..n]).value, path[n]);
        }
      }
    }
  }

  // ---------- the directories of the tree ----------

  /** The directory's parent and the slot it is entered in. */
  lemma EnteredBy(v: Volume, l: Layout, d: DataCluster)
    requires VolumeOk(v, l) && d in l.depth && d != ROOT
    ensures d in l.owner
    ensures var (p, i) := l.owner[d];
      && p in l.depth && l.depth[d] == l.depth[p] + 1 && 1 <= i < 64
      && TableAt(v, p)[i].Used() && TableAt(v, p)[i].IsDirectory() && TableAt(v, p)[i].Start() == d
      && TableAt(v, d)[0].Start() == p && TableAt(v, d)[0].name == TableAt(v, p)[i].name
  {
    LiveDirectory(v, l, d);
    var (p, i) := l.owner[d];
    assert StructureOf(v).tables[p] == TableAt(v, p);
    LiveDirectory(v, l, p);
    assert EntryOk(StructureOf(v), l, p, i);
  }

  lemma {:induction false} PathTo(v: Volume, l: Layout, d: DataCluster) returns (path: Path)
    requires VolumeOk(v, l) && d in l.depth
    ensures DirectoryAt(v, path) == Some(d)
    decreases l.depth[d]
  {
    if d == ROOT {
      path := [];
    } else {
      EnteredBy(v, l, d);
      var (p, i) := l.owner[d];
      var up := PathTo(v, l, p);
      path := up + [i];
      assert path[..|path| - 1] == up;
    }
  }

  ghost predicate IsDirectory(v: Volume, d: int) {
    2 <= d < 512 && exists path :: DirectoryAt(v, path) == Some(d)
  }

  /** The directories of the layout are exactly those that can be reached from the root. */
  lemma DirectoriesAreReachable(v: Volume, l: Layout, d: int)
    requires VolumeOk(v, l)
    ensures IsDirectory(v, d) <==> 2 <= d < 512 && d in l.depth
  {
    if IsDirectory(v, d) {
      var path :| DirectoryAt(v, path) == Some(d);
      DirectoryAtIsLive(v, l, path);
    }
    if 2 <= d < 512 && d in l.depth {
      var path := PathTo(v, l, d);
    }
  }

  /** The cluster that slot 0 of a directory names: its parent. */
  function ParentOf(v: Volume, d: DataCluster): u32 {
    TableAt(v, d)[0].Start()
  }

  function Climb(v: Volume, d: DataCluster, n: nat): DataCluster
    decreases n
  {
    if n == 0 then d
    else
      var p := ParentOf(v, d);
      if 2 <= p < 512 then Climb(v, p, n - 1) else d
  }

  /** The last step of a path to a directory, and the way back. */
  lemma LastStep(v: Volume, l: Layout, path: Path)
    requires VolumeOk(v, l) && path != [] && DirectoryAt(v, path).Some?
    ensures var n, d := |path| - 1, DirectoryAt(v, path).value;
      && DirectoryAt(v, path[..n]) == Some(ParentOf(v, d))
      && d in l.owner && l.owner[d] == (ParentOf(v, d), path[n])
  {
    var n, d := |path| - 1, DirectoryAt(v, path).value;
    DirectoryAtIsLive(v, l, path[..n]);
    var q := DirectoryAt(v, path[..n]).value;
    OwnerOfStart(v, l, q, path[n]);
    DirectoryAtIsLive(v, l, path);
    EnteredBy(v, l, d);
  }

  lemma {:induction false} ClimbToRoot(v: Volume, l: Layout, path: Path)
    requires VolumeOk(v, l) && DirectoryAt(v, path).Some?
    ensures Climb(v, DirectoryAt(v, path).value, |path|) == ROOT
    decreases |path|
  {
    hide DecodeTable, VolumeOk;
    if path != [] {
      LastStep(v, l, path);
      ClimbToRoot(v, l, path[..|path| - 1]);
    }
  }

  /** Slot 0 of a directory names the directory it is entered in, and following these links
      comes to the root after as many steps as its path is long. */
  lemma ParentLinksAgree(v: Volume, path: Path)
    requires WellFormed(v) && DirectoryAt(v, path).Some?
    ensures Climb(v, DirectoryAt(v, path).value, |path|) == ROOT
    ensures path != [] ==>
      DirectoryAt(v, path[..|path| - 1]) == Some(ParentOf(v, DirectoryAt(v, path).value))
  {
    var l :| VolumeOk(v, l);
    ClimbToRoot(v, l, path);
    if path != [] { LastStep(v, l, path); }
  }

  lemma {:induction false} OnePath(v: Volume, l: Layout, path: Path, other: Path)
    requires VolumeOk(v, l) && DirectoryAt(v, path).Some? && DirectoryAt(v, other) == DirectoryAt(v, path)
    ensures other == path
    decreases |path|
  {
    hide DecodeTable, VolumeOk;
    DirectoryAtIsLive(v, l, path);
    DirectoryAtIsLive(v, l, other);
    if path != [] {
      var n := |path| - 1;
      LastStep(v, l, path);
      LastStep(v, l, other);
      OnePath(v, l, path[..n], other[..n]);
      assert path == path[..n] + [path[n]] && other == other[..n] + [other[n]];
    }
  }

  /** A directory can be reached by one path only: it is entered in exactly one slot of one directory. */
  lemma PathIsUnique(v: Volume, path: Path, other: Path)
    requires WellFormed(v) && DirectoryAt(v, path).Some? && DirectoryAt(v, other) == DirectoryAt(v, path)
    ensures other == path
  {
    var l :| VolumeOk(v, l);
    OnePath(v, l, path, other);
  }

  lemma OwnerOfStart(v: Volume, l: Layout, d: DataCluster, i: nat)
    requires VolumeOk(v, l) && d in l.depth && 1 <= i < 64 && TableAt(v, d)[i].Used()
    ensures var c := TableAt(v, d)[i].Start(); 3 <= c < 512 && c in l.owner && l.owner[c] == (d, i)
  {
    LiveDirectory(v, l, d);
    assert EntryOk(StructureOf(v), l, d, i);
    var e := TableAt(v, d)[i];
    ChainShape(v.fat, e.Start());
    assert Chain(v.fat, e.Start())[0] in Chain(v.fat, e.Start());
  }
}
