/** The shell's find command (src/user-shell.c): a breadth-first walk of the directory tree. */
module Find {
  import opened Wrappers
  import opened Bytes
  import opened Directory
  import opened Fat
  import opened Tree
  import opened Volumes
  import opened Views
  import opened Tokenizer
  import opened PendingQueue
  import opened Driver
  import opened Levels

  const MAX_DIR_STACK_SIZE := 16

  // ---------- what the walk needs of a volume ----------

  /** A name of eight bytes runs on into the extension behind it: as a string it still ends inside the entry, and a
      directory's also inside the nine bytes that are kept for it in the queue. */
  predicate TextFits(e: Entry) {
    Nul(EncodeEntry(e), 0) < if e.IsDirectory() then 9 else ENTRY_SIZE
  }

  ghost predicate NamesFit(v: Volume) {
    forall path, i :: Walkable(v, path) && Opens(v, path) && 1 <= i < 64 ==>
      var e := TableAt(v, DirectoryAt(v, path).value)[i];
      e.Used() ==> TextFits(e)
  }

  /** What keeps the walk inside its arrays: names that end, and less than sixteen levels. */
  ghost predicate Searchable(v: Volume) {
    WellFormed(v) && NamesFit(v) && Level(v, MAX_DIR_STACK_SIZE) == []
  }

  /** The clusters of the directories on the way to path, the root first. */
  function ClustersOn(v: Volume, path: Path): (cs: seq<u32>)
    ensures |cs| == |path| + 1
  {
    (if path == [] then [] else ClustersOn(v, path[..|path| - 1]))
    + [if DirectoryAt(v, path).Some? then DirectoryAt(v, path).value else 0]
  }

  /** A line that find prints: the directories on the way and the slot of the entry. */
  datatype Line = Line(clusters: seq<u32>, slot: nat)

  /** The comparison of find: the entry's name, read as a string from the first byte of the entry on, is a non-empty
      beginning of the target. */
  predicate Matches(e: Entry, target: seq<byte>) {
    e.Used() && CString(EncodeEntry(e), 0) != [] && CString(EncodeEntry(e), 0) <= target
  }

  /** The entry's bytes agree with the target from the first on until they end with a NUL, and there is at least one. */
  lemma MatchesMeans(e: Entry, target: seq<byte>)
    requires TextFits(e)
    ensures Matches(e, target) <==>
      e.Used() && exists n :: 1 <= n < 32 && n <= |target| && BeginsWith(target, EncodeEntry(e), n)
  {
    var s := EncodeEntry(e);
    var k := Nul(s, 0);
    assert CString(s, 0) == s[..k];
    forall n | 0 <= n < 32 && n <= |target| && BeginsWith(target, s, n)
      ensures n == k
    {
      assert !(n < k) && !(k < n);
    }
    if s[..k] <= target { assert forall j :: 0 <= j < k ==> target[j] == s[..k][j]; }
    if k <= |target| && BeginsWith(target, s, k) { assert s[..k] == target[..k]; }
  }

  /** The first n characters of the target are those of s, where s ends. */
  predicate BeginsWith(target: seq<byte>, s: seq<byte>, n: nat)
    requires n < |s| && n <= |target|
  {
    s[n] == 0 && forall k :: 0 <= k < n ==> s[k] != 0 && target[k] == s[k]
  }

  function LineAt(t: Table, clusters: seq<u32>, target: seq<byte>, i: nat): seq<Line>
    requires i < 64
  {
    if Matches(t[i], target) then [Line(clusters, i)] else []
  }

  function LinesFrom(t: Table, clusters: seq<u32>, target: seq<byte>, i: nat): seq<Line>
    requires i <= 64
    decreases 64 - i
  {
    if i == 64 then [] else LineAt(t, clusters, target, i) + LinesFrom(t, clusters, target, i + 1)
  }

  function LinesOf(v: Volume, path: Path, target: seq<byte>): seq<Line> {
    if Opens(v, path) then
      LinesFrom(TableAt(v, DirectoryAt(v, path).value), ClustersOn(v, path), target, FirstSlot(path))
    else []
  }

  /** What a walk over these directories prints. */
  function LinesOfAll(v: Volume, paths: seq<Path>, target: seq<byte>): seq<Line> {
    if paths == [] then []
    else LinesOfAll(v, paths[..|paths| - 1], target) + LinesOf(v, paths[|paths| - 1], target)
  }

  // ---------- the items of the queue ----------

  /** The queue item of the directory at path. */
  ghost predicate Describes(v: Volume, path: Path, info: FileInfo) {
    && DirectoryAt(v, path).Some? && DirectoryAt(v, path).value == info.cluster
    && info.parent == ParentOf(v, info.cluster)
    && Nul(info.filename, 0) < 9
    && CString(info.filename, 0) == CString(TableAt(v, info.cluster)[0].name, 0)
    && info.neff == |path| < 16
    && info.clusterPathing[..|path| + 1] == ClustersOn(v, path)
  }

  ghost predicate Pending(v: Volume, paths: seq<Path>, infos: seq<FileInfo>) {
    |paths| == |infos| && forall k :: 0 <= k < |paths| ==> Describes(v, paths[k], infos[k])
  }

  /** Slot i of a directory holds a subdirectory exactly when the path goes on there. */
  lemma SubdirectoryAt(v: Volume, path: Path, i: nat)
    requires WellFormed(v) && DirectoryAt(v, path).Some? && 1 <= i < 64
    ensures var e := TableAt(v, DirectoryAt(v, path).value)[i];
      && (DirectoryAt(v, path + [i]).Some? <==> e.Used() && e.IsDirectory())
      && (DirectoryAt(v, path + [i]).Some? ==>
            && DirectoryAt(v, path + [i]).value == e.Start()
            && TableAt(v, e.Start())[0].name == e.name
            && ParentOf(v, e.Start()) == DirectoryAt(v, path).value)
  {
    hide DecodeTable, VolumeOk, Chain, Proper;
    var l :| VolumeOk(v, l);
    DirectoryAtIsLive(v, l, path);
    var d := DirectoryAt(v, path).value;
    LiveDirectory(v, l, d);
    assert (path + [i])[..|path|] == path;
    var e := TableAt(v, d)[i];
    if e.Used() && e.IsDirectory() {
      assert EntryOk(StructureOf(v), l, d, i);
      assert StructureOf(v).tables[e.Start()] == TableAt(v, e.Start());
    }
  }

  /** A name that survives being copied as a C string. */
  predicate Terminated(name: Name) {
    Padded(name) == name
  }

  /** The directory that slot 0 names as the parent. */
  lemma ParentIsLive(v: Volume, l: Layout, d: DataCluster)
    requires VolumeOk(v, l) && d in l.depth
    ensures 2 <= ParentOf(v, d) < 512 && ParentOf(v, d) in l.depth
  {
    hide DecodeTable, VolumeOk;
    LiveDirectory(v, l, d);
    if d == ROOT { RootTable(v, l); } else { EnteredBy(v, l, d); }
  }

  /** A directory is found under its own name when no byte behind the NUL is lost: the search in the parent stops at the
      parent's own entry or at the directory's. The root is always found. */
  lemma OwnEntryIsFound(v: Volume, path: Path)
    requires WellFormed(v) && DirectoryAt(v, path).Some?
    requires path == [] || Terminated(TableAt(v, DirectoryAt(v, path).value)[0].name)
    ensures Opens(v, path)
  {
    hide DecodeTable, Answers, Padded;
    var l :| VolumeOk(v, l);
    DirectoryAtIsLive(v, l, path);
    var d := DirectoryAt(v, path).value;
    if path == [] {
      RootTable(v, l);
      RootName();
      RootAnswers(v, l);
    } else {
      DirectoryAtIsLive(v, l, []);
      EnteredBy(v, l, d);
      var (p, i) := l.owner[d];
      OwnSlotIsFirst(v, l, p, i);
    }
  }

  lemma RootName()
    ensures Padded(ROOT_NAME) == ROOT_NAME && ROOT_NAME != ZERO_NAME
  {
    NulAt(ROOT_NAME, 4);
    assert ROOT_NAME[0] != ZERO_NAME[0];
  }

  lemma RootAnswers(v: Volume, l: Layout)
    requires VolumeOk(v, l)
    ensures Answers(TableAt(v, ROOT), ROOT_NAME)
  {
    hide DecodeTable;
    RootTable(v, l);
    RootName();
    LiveDirectory(v, l, ROOT);
    assert StructureOf(v).tables[ROOT] == TableAt(v, ROOT);
  }

  lemma OwnSlotIsFirst(v: Volume, l: Layout, p: DataCluster, i: nat)
    requires VolumeOk(v, l) && p in l.depth && 1 <= i < 64 && TableAt(v, p)[i].Used() && TableAt(v, p)[i].IsDirectory()
    ensures Answers(TableAt(v, p), TableAt(v, p)[i].name)
  {
    hide DecodeTable, VolumeOk, Chain, Proper, FindName;
    LiveDirectory(v, l, p);
    var t := TableAt(v, p);
    assert StructureOf(v).tables[p] == t;
    var k := FindName(t, t[i].name, 0);
    assert EntryOk(StructureOf(v), l, p, i);
    if k > 0 {
      assert t[k].Used();
      assert !(k < i);
    }
  }

  /** What read_directory is asked for a pending directory is defined, and answered with 0 exactly when it opens. */
  lemma ReadingOpens(v: Volume, path: Path, ext: Ext, size: u32, buf: seq<byte>)
    requires WellFormed(v) && DirectoryAt(v, path).Some?
    ensures var d := DirectoryAt(v, path).value;
      var r := Request(Padded(TableAt(v, d)[0].name), ext, ParentOf(v, d), size);
      ReadDirectoryDefined(v, r) && (ReadDirectory(v, r, buf).code == 0 <==> Opens(v, path))
  {
    hide DecodeTable, Padded, FindName, VolumeOk;
    var l :| VolumeOk(v, l);
    DirectoryAtIsLive(v, l, path);
    var d := DirectoryAt(v, path).value;
    ParentIsLive(v, l, d);
    var p: DataCluster := ParentOf(v, d);
    SlotsNameClusters(v, l, p);
    assert FindName(TableAt(v, p), Padded(TableAt(v, d)[0].name), 0) <= 64;
  }

  lemma SlotsNameClusters(v: Volume, l: Layout, p: DataCluster)
    requires VolumeOk(v, l) && p in l.depth
    ensures forall k :: 0 <= k < 64 && TableAt(v, p)[k].IsDirectory() ==> TableAt(v, p)[k].Start() < 2048
  {
    hide DecodeTable, VolumeOk, Chain;
    LiveDirectory(v, l, p);
    ParentIsLive(v, l, p);
    var t := TableAt(v, p);
    assert StructureOf(v).tables[p] == t;
    forall k | 1 <= k < 64 && t[k].IsDirectory()
      ensures t[k].Start() < 2048
    {
      assert EntryOk(StructureOf(v), l, p, k);
    }
  }

  /** Setting the ninth byte of a filename to NUL, as the queue does, leaves the string alone. */
  lemma SealedName(v: Volume, path: Path, info: FileInfo)
    requires Describes(v, path, info)
    ensures Describes(v, path, info.(filename := info.filename[8 := 0]))
  {
    hide DirectoryAt, ClustersOn, TableAt, DecodeTable;
    var e, sealed := Nul(info.filename, 0), info.filename[8 := 0];
    NulAt(sealed, e);
    assert sealed[..e] == info.filename[..e];
  }

  /** The item that is queued for a subdirectory that starts at cluster start. */
  function SubInfo(info: FileInfo, filename: FileName, start: u32): FileInfo
    requires info.neff + 1 < 16
  {
    FileInfo(filename, start, info.cluster, info.clusterPathing[info.neff + 1 := start], info.neff + 1)
  }

  /** The item that is queued for the subdirectory in slot i describes it. */
  lemma SubdirectoryIsDescribed(v: Volume, path: Path, info: FileInfo, i: nat, filename: FileName)
    requires Searchable(v) && Walkable(v, path) && Describes(v, path, info) && FirstSlot(path) <= i < 64
    requires Opens(v, path) && TableAt(v, info.cluster)[i].Used() && TableAt(v, info.cluster)[i].IsDirectory()
    requires Nul(filename, 0) < 9 && CString(filename, 0) == CString(TableAt(v, info.cluster)[i].name, 0)
    ensures info.neff + 1 < 16
    ensures Describes(v, path + [i], SubInfo(info, filename, TableAt(v, info.cluster)[i].Start()))
  {
    hide Level, WellFormed, TableAt, DecodeTable, Opens, Walkable;
    var kid, start, n := path + [i], TableAt(v, info.cluster)[i].Start(), |path| + 1;
    SubdirectoryAt(v, path, i);
    assert kid[..|path|] == path;
    WalkableStep(v, kid);
    ShallowPath(v, kid, 16);
    assert info.clusterPathing[n := start][..n + 1] == info.clusterPathing[..n] + [start];
  }

  /** What the walk finds in slot i. */
  lemma SlotIsReadable(v: Volume, path: Path, info: FileInfo, i: nat)
    requires Searchable(v) && Walkable(v, path) && Opens(v, path) && Describes(v, path, info)
    requires FirstSlot(path) <= i < 64
    ensures DirectoryAt(v, path + [i]).Some? <==>
      TableAt(v, info.cluster)[i].Used() && TableAt(v, info.cluster)[i].IsDirectory()
    ensures TableAt(v, info.cluster)[i].Used() ==> TextFits(TableAt(v, info.cluster)[i])
    ensures info.clusterPathing[..info.neff + 1] == ClustersOn(v, path)
  {
    hide WellFormed, DirectoryAt, TableAt, Level, TextFits, Opens;
    SubdirectoryAt(v, path, i);
  }

  lemma LinesOfDescribed(v: Volume, path: Path, info: FileInfo, target: seq<byte>)
    requires Describes(v, path, info) && Opens(v, path)
    ensures info.neff < 16
    ensures LinesOf(v, path, target)
         == LinesFrom(TableAt(v, info.cluster), info.clusterPathing[..info.neff + 1], target, FirstSlot(path))
  {
    hide DirectoryAt, TableAt, LinesFrom, ClustersOn, Opens;
  }

  lemma TextOfName(e: Entry)
    requires Nul(EncodeEntry(e), 0) <= 8
    ensures CString(EncodeEntry(e), 0) == CString(e.name, 0)
  {
    var text, n := EncodeEntry(e), Nul(EncodeEntry(e), 0);
    assert text[..8] == e.name;
    if n < 8 {
      assert text[n] == e.name[n];
      forall k | 0 <= k < n
        ensures e.name[k] != 0
      {
        assert text[k] == e.name[k];
      }
      NulAt(e.name, n);
      assert text[..n] == e.name[..n];
    } else {
      assert forall k :: 0 <= k < 8 ==> text[k] == e.name[k];
      assert Nul(e.name, 0) == 8;
    }
  }

  /** The pushing of the subdirectory in slot i. */
  method EnqueueSubdirectory(e: Entry, text: array<byte>, info: FileInfo, queue: Queue,
                             ghost v: Volume, ghost path: Path, ghost i: nat, ghost pending: seq<Path>)
    requires Searchable(v) && Walkable(v, path) && Opens(v, path) && Describes(v, path, info)
    requires FirstSlot(path) <= i < 64
    requires e == TableAt(v, info.cluster)[i] && e.Used() && e.IsDirectory() && text[..] == EncodeEntry(e)
    requires TextFits(e)
    requires queue.Valid() && Pending(v, pending, queue.Contents())
    modifies queue, queue.items
    ensures queue.Valid() && Pending(v, Queued(pending + [path + [i]]), queue.Contents())
  {
    hide DirectoryAt, TableAt, Searchable, Describes, Ring, EncodeEntry, Opens, Walkable;
    TextOfName(e);
    var filename := new byte[9];
    CustomStrcpy(filename, text);
    SubdirectoryIsDescribed(v, path, info, i, filename[..]);
    var sub := SubInfo(info, filename[..], e.Start());
    SealedName(v, path + [i], sub);
    queue.Enqueue(sub);
  }

  /** One turn of the inner loop. */
  method ScanSlot(e: Entry, i: nat, info: FileInfo, target: array<byte>, queue: Queue,
                  ghost t: Table, ghost v: Volume, ghost path: Path, ghost pending: seq<Path>)
    returns (lines: seq<Line>)
    requires Searchable(v) && Walkable(v, path) && Opens(v, path) && Describes(v, path, info)
    requires t == TableAt(v, info.cluster) && FirstSlot(path) <= i < 64 && e == t[i]
    requires queue.Valid() && Pending(v, pending, queue.Contents())
    requires Nul(target[..], 0) < target.Length && target[0] != 0
    requires info.neff < 16
    modifies queue, queue.items
    ensures queue.Valid() && Pending(v, Queued(pending + KidAt(v, path, i)), queue.Contents())
    ensures lines == LineAt(t, info.clusterPathing[..info.neff + 1], CString(target[..], 0), i)
  {
    hide DirectoryAt, TableAt, Searchable, Describes, Ring, CString, Pending, EncodeEntry, Opens, Walkable;
    SlotIsReadable(v, path, info, i);
    lines := [];
    assert pending + [] == pending;
    assert Queued(pending) == pending by { PendingFits(v, pending, queue.Contents()); }
    if e.Used() {
      var bytes := EncodeEntry(e);
      var text := new byte[32](k requires 0 <= k < 32 => bytes[k]);
      assert text[..] == bytes && text[0] == bytes[0];
      if e.IsDirectory() {
        EnqueueSubdirectory(e, text, info, queue, v, path, i, pending);
      }
      EmptyText(bytes);
      var c := Strcmp(text, target);
      if c == 0 {
        lines := [Line(info.clusterPathing[..info.neff + 1], i)];
      }
    }
  }

  lemma EmptyText(s: seq<byte>)
    requires s != []
    ensures CString(s, 0) == [] <==> s[0] == 0
  {
  }

  lemma PendingFits(v: Volume, paths: seq<Path>, infos: seq<FileInfo>)
    requires Pending(v, paths, infos) && |infos| <= MAX_QUEUE_SIZE
    ensures |paths| <= MAX_QUEUE_SIZE && Queued(paths) == paths
  {
  }

  lemma ScanStep(v: Volume, path: Path, met: seq<Path>, t: Table, cs: seq<u32>, wanted: seq<byte>,
                 lines: seq<Line>, i: nat)
    requires i < 64
    ensures met + KidAt(v, path, i) + KidsFrom(v, path, i + 1) == met + KidsFrom(v, path, i)
    ensures lines + LineAt(t, cs, wanted, i) + LinesFrom(t, cs, wanted, i + 1) == lines + LinesFrom(t, cs, wanted, i)
  {
    hide KidAt, LineAt;
  }

  lemma ScanEnd(v: Volume, path: Path, met: seq<Path>, t: Table, cs: seq<u32>, wanted: seq<byte>, lines: seq<Line>)
    ensures met + KidsFrom(v, path, 64) == met && lines + LinesFrom(t, cs, wanted, 64) == lines
  {
  }

  lemma ScanStart(v: Volume, path: Path)
    requires Opens(v, path)
    ensures [] + KidsFrom(v, path, FirstSlot(path)) == Kids(v, path)
  {
  }

  /** The inner loop of the walk, over the slots of one directory. */
  method ScanTable(t: Table, info: FileInfo, first: nat, target: array<byte>, queue: Queue,
                   ghost v: Volume, ghost path: Path, ghost pending: seq<Path>) returns (lines: seq<Line>)
    requires Searchable(v) && Walkable(v, path) && Opens(v, path) && Describes(v, path, info)
    requires t == TableAt(v, info.cluster) && first == FirstSlot(path)
    requires queue.Valid() && Pending(v, pending, queue.Contents())
    requires Nul(target[..], 0) < target.Length && target[0] != 0
    modifies queue, queue.items
    ensures queue.Valid() && Pending(v, Queued(pending + Kids(v, path)), queue.Contents())
    ensures lines == LinesOf(v, path, CString(target[..], 0))
  {
    hide DirectoryAt, TableAt, Searchable, Describes, Ring, KidAt, LineAt, Pending, CString, Walkable, LinesOf,
         Kids, KidsFrom, LinesFrom, Opens;
    ghost var wanted := CString(target[..], 0);
    LinesOfDescribed(v, path, info, wanted);
    ghost var cs := info.clusterPathing[..info.neff + 1];
    lines := [];
    ghost var met: seq<Path> := [];
    assert pending + met == pending;
    PendingFits(v, pending, queue.Contents());
    ScanStart(v, path);
    for i := first to 64
      invariant queue.Valid() && Pending(v, Queued(pending + met), queue.Contents())
      invariant met + KidsFrom(v, path, i) == Kids(v, path)
      invariant Nul(target[..], 0) < target.Length && CString(target[..], 0) == wanted
      invariant lines + LinesFrom(t, cs, wanted, i) == LinesFrom(t, cs, wanted, first)
    {
      ScanStep(v, path, met, t, cs, wanted, lines, i);
      var more := ScanSlot(t[i], i, info, target, queue, t, v, path, Queued(pending + met));
      lines := lines + more;
      QueuedTwice(pending + met, KidAt(v, path, i));
      assert pending + met + KidAt(v, path, i) == pending + (met + KidAt(v, path, i));
      met := met + KidAt(v, path, i);
    }
    ScanEnd(v, path, met, t, cs, wanted, lines);
  }

  // ---------- the walk ----------

  lemma LinesGrow(v: Volume, paths: seq<Path>, path: Path, target: seq<byte>)
    ensures LinesOfAll(v, paths + [path], target) == LinesOfAll(v, paths, target) + LinesOf(v, path, target)
  {
    assert (paths + [path])[..|paths|] == paths;
  }

  lemma RootIsDescribed(v: Volume, info: FileInfo)
    requires WellFormed(v)
    requires Nul(info.filename, 0) == 4 && info.filename[..4] == ROOT_NAME[..4]
    requires info.cluster == ROOT && info.parent == ROOT && info.neff == 0 && info.clusterPathing[0] == ROOT
    ensures Describes(v, [], info)
  {
    hide DecodeTable, VolumeOk;
    var l :| VolumeOk(v, l);
    RootTable(v, l);
    NulAt(ROOT_NAME, 4);
    assert info.clusterPathing[..1] == [info.clusterPathing[0]];
  }

  lemma RootTable(v: Volume, l: Layout)
    requires VolumeOk(v, l)
    ensures TableAt(v, ROOT)[0].Start() == ROOT && TableAt(v, ROOT)[0].name == ROOT_NAME
  {
    LiveDirectory(v, l, ROOT);
    assert StructureOf(v).tables[ROOT] == TableAt(v, ROOT);
  }

  /** The request that bfs_find builds for a pending directory. The copy of a name of eight bytes ends in the extension,
      which is zero anyway. */
  lemma RequestFor(v: Volume, path: Path, info: FileInfo, text: seq<byte>)
    requires Describes(v, path, info)
    requires text == CString(info.filename, 0) + [0] + seq(11, _ => 0)[Nul(info.filename, 0) + 1..]
    ensures |text| == 11 && text[..8] == Padded(TableAt(v, info.cluster)[0].name) && text[8..] == ZERO_EXT
  {
    hide DirectoryAt, TableAt, ClustersOn;
    PaddedText(TableAt(v, info.cluster)[0].name, info.filename, text);
  }

  lemma PaddedText(own: Name, filename: FileName, text: seq<byte>)
    requires CString(filename, 0) == CString(own, 0) && Nul(filename, 0) < 9
    requires text == CString(filename, 0) + [0] + seq(11, _ => 0)[Nul(filename, 0) + 1..]
    ensures |text| == 11 && text[..8] == Padded(own) && text[8..] == ZERO_EXT
  {
    var n := Nul(filename, 0);
    assert |CString(own, 0)| == Nul(own, 0) == n;
    assert forall k :: 0 <= k < n ==> text[k] == own[k];
    assert forall k :: n <= k < 11 ==> text[k] == 0;
  }

  /** read_directory and the cluster fetch for one pending directory. */
  method FetchTable(fs: FileSystem, info: FileInfo, ghost path: Path) returns (code: int, t: Table)
    requires fs.Valid() && Searchable(fs.Volume()) && Describes(fs.Volume(), path, info)
    ensures code == 0 <==> Opens(fs.Volume(), path)
    ensures t == TableAt(fs.Volume(), info.cluster)
  {
    hide DirectoryAt, DecodeTable, ReadDirectoryDefined, Volumes.ReadDirectory, ClustersOn, Opens, WellFormed, NamesFit,
         Level, CString, Padded;
    ghost var v := fs.Volume();
    var filename := new byte[9](k requires 0 <= k < 9 => info.filename[k]);
    assert filename[..] == info.filename;
    var text := new byte[11](_ => 0);
    assert text[..] == seq(11, _ => 0);
    CustomStrcpy(text, filename);
    var dirTable := new byte[2048](_ => 0);
    RequestFor(v, path, info, text[..]);
    var r := Request(text[..8], text[8..], info.parent, 0);
    ReadingOpens(v, path, r.ext, 0, dirTable[..]);
    code := fs.ReadDirectory(r, dirTable);
    fs.ReadClusters(dirTable, 0, info.cluster);
    assert dirTable[..] == fs.device.Clusters()[info.cluster];
    t := DecodeTable(dirTable[..]);
  }

  method RootInfo() returns (info: FileInfo)
    ensures Nul(info.filename, 0) == 4 && info.filename[..4] == ROOT_NAME[..4]
    ensures info.cluster == ROOT && info.parent == ROOT && info.neff == 0 && info.clusterPathing[0] == ROOT
  {
    var text := new byte[9](k requires 0 <= k < 9 => if k < 8 then ROOT_NAME[k] else 0);
    NulAt(text[..], 4);
    var filename := new byte[9];
    CustomStrcpy(filename, text);
    assert text[..4] == ROOT_NAME[..4];
    info := FileInfo(filename[..], ROOT, ROOT, NO_INFO.clusterPathing[0 := ROOT], 0);
  }

  lemma PendingTail(v: Volume, paths: seq<Path>, infos: seq<FileInfo>)
    requires Pending(v, paths, infos) && paths != []
    ensures infos != [] && Describes(v, paths[0], infos[0]) && Pending(v, paths[1..], infos[1..])
  {
    hide Describes;
  }

  /** A directory that does not open adds nothing. */
  lemma ClosedDirectory(v: Volume, path: Path, pending: seq<Path>, target: seq<byte>)
    requires pending != [] && |pending| <= MAX_QUEUE_SIZE
    ensures !Opens(v, path) ==> LinesOf(v, path, target) == [] && Queued(pending[1..] + Kids(v, path)) == pending[1..]
  {
    hide Opens;
  }

  /** One turn of the outer loop: the first pending directory is taken, fetched and scanned. */
  method VisitNext(fs: FileSystem, isFirst: bool, target: array<byte>, queue: Queue,
                   ghost path: Path, ghost pending: seq<Path>) returns (lines: seq<Line>, code: int)
    requires fs.Valid() && Searchable(fs.Volume()) && queue !in fs.Repr() && queue.items as object !in fs.Repr()
    requires queue.Valid() && Pending(fs.Volume(), pending, queue.Contents()) && pending != [] && pending[0] == path
    requires Walkable(fs.Volume(), path)
    requires isFirst == (path == [])
    requires Nul(target[..], 0) < target.Length && target[0] != 0
    modifies queue, queue.items
    ensures queue.Valid() && (code == 0 <==> Opens(fs.Volume(), path)) && (isFirst ==> code == 0)
    ensures Pending(fs.Volume(), Queued(pending[1..] + Kids(fs.Volume(), path)), queue.Contents())
    ensures lines == LinesOf(fs.Volume(), path, CString(target[..], 0))
  {
    hide DirectoryAt, DecodeTable, Searchable, Describes, Ring, Walkable, Kids, LinesOf, CString, Pending, Opens;
    ghost var v := fs.Volume();
    PendingFits(v, pending, queue.Contents());
    ClosedDirectory(v, path, pending, CString(target[..], 0));
    if isFirst { RootOpens(v); }
    PendingTail(v, pending, queue.Contents());
    SealedName(v, path, queue.Contents()[0]);
    var info := queue.Dequeue();
    var t;
    code, t := FetchTable(fs, info, path);
    lines := [];
    if code == 0 {
      lines := ScanTable(t, info, if isFirst then 2 else 1, target, queue, v, path, pending[1..]);
    }
  }

  lemma RootOpens(v: Volume)
    requires Searchable(v)
    ensures Opens(v, [])
  {
    hide WellFormed, NamesFit, Level, Opens;
    OwnEntryIsFound(v, []);
  }

  /** One of these directories cannot be read. */
  predicate SomeClosed(v: Volume, paths: seq<Path>) {
    exists p :: p in paths && !Opens(v, p)
  }

  lemma ClosedGrows(v: Volume, paths: seq<Path>, path: Path)
    ensures SomeClosed(v, paths + [path]) <==> SomeClosed(v, paths) || !Opens(v, path)
  {
    hide Opens;
    assert path in paths + [path];
  }

  /** bfs_find: visits directories that can be walked to, each once, the root first, and prints a line for every match
      those it can read. It visits all of them, level by level, exactly when the queue never overflows: the queue drops
      the newcomer without a word, and with it all that is below. It complains exactly about visited directories that
      cannot be read. The count of matches is an 8-bit number, and the message that nothing was found is printed when it
      is 0. */
  method BfsFind(fs: FileSystem, target: array<byte>)
    returns (lines: seq<Line>, readError: bool, nothingFound: bool, ghost visited: seq<Path>)
    requires fs.Valid() && Searchable(fs.Volume())
    requires Nul(target[..], 0) < target.Length && target[0] != 0
    ensures visited == Order(fs.Volume(), MAX_DIR_STACK_SIZE) <==> QueueFits(fs.Volume())
    ensures Distinct(visited) && forall p :: p in visited ==> Walkable(fs.Volume(), p)
    ensures lines == LinesOfAll(fs.Volume(), visited, CString(target[..], 0))
    ensures readError <==> SomeClosed(fs.Volume(), visited)
    ensures nothingFound == (|lines| % 0x100 == 0)
  {
    hide DirectoryAt, DecodeTable, Searchable, Describes, Pending, Ring, Walkable, Kids, Level, Order, Walking,
         LinesOfAll, LinesOf, CString, BlankTail, QueueFits, Queued, Opens,
         SomeClosed, Nul, Distinct, VolumeOk, WellFormed, NamesFit, RingOk;
    ghost var v, wanted := fs.Volume(), CString(target[..], 0);
    var queue := new Queue();
    var isFirst, nFound := true, 0;
    lines, readError, visited := [], false, [];
    var root := RootInfo();
    QueueRoot(queue, root, v);
    ghost var n, j, lost: Option<Path>, pending: seq<Path> := 0, 0, None, [[]];
    WalkingStarts(v);
    LinesOfNone(v, wanted);
    ShallowLevels(v);
    var empty := queue.IsEmpty();
    while !empty
      invariant queue.Valid() && fresh(queue) && fresh(queue.items) && empty == (queue.Contents() == [])
      invariant Pending(v, pending, queue.Contents())
      invariant Walking(v, visited, pending, n, j, lost, isFirst)
      invariant lines == LinesOfAll(v, visited, wanted) && nFound == |lines| % 0x100
      invariant readError <==> SomeClosed(v, visited)
      decreases |Order(v, 16)| - |visited|
    {
      PendingIsNone(v, pending, queue.Contents());
      ghost var path := pending[0];
      LinesGrow(v, visited, path, wanted);
      n, j, lost := WalkingStep(v, visited, pending, n, j, lost, isFirst);
      var more, code := VisitNext(fs, isFirst, target, queue, path, pending);
      ClosedGrows(v, visited, path);
      if code == 0 { isFirst := false; } else { readError := true; }
      lines := lines + more;
      nFound := (nFound + |more|) % 0x100;
      visited, pending := visited + [path], Queued(pending[1..] + Kids(v, path));
      empty := queue.IsEmpty();
    }
    PendingIsNone(v, pending, queue.Contents());
    WalkingEnds(v, visited, n, j, lost, isFirst);
    nothingFound := nFound == 0;
  }

  lemma ShallowLevels(v: Volume)
    requires Searchable(v)
    ensures Level(v, 16) == []
  {
  }

  lemma PendingIsNone(v: Volume, paths: seq<Path>, infos: seq<FileInfo>)
    requires Pending(v, paths, infos)
    ensures infos == [] <==> paths == []
  {
  }

  lemma LinesOfNone(v: Volume, target: seq<byte>)
    ensures LinesOfAll(v, [], target) == [] && !SomeClosed(v, [])
  {
  }

  method QueueRoot(queue: Queue, root: FileInfo, ghost v: Volume)
    requires Searchable(v) && queue.Valid() && queue.Contents() == []
    requires Nul(root.filename, 0) == 4 && root.filename[..4] == ROOT_NAME[..4]
    requires root.cluster == ROOT && root.parent == ROOT && root.neff == 0 && root.clusterPathing[0] == ROOT
    modifies queue, queue.items
    ensures queue.Valid() && Pending(v, [[]], queue.Contents())
  {
    hide Describes, Ring, WellFormed, NamesFit, Level, Nul;
    RootIsDescribed(v, root);
    SealedName(v, [], root);
    queue.Enqueue(root);
  }

  // ---------- what is printed ----------

  lemma {:induction false} LinesFromShape(t: Table, clusters: seq<u32>, target: seq<byte>, i: nat)
    requires i <= 64
    ensures forall x :: x in LinesFrom(t, clusters, target, i) <==>
      x.clusters == clusters && i <= x.slot < 64 && Matches(t[x.slot], target)
    decreases 64 - i
  {
    hide Matches;
    if i < 64 { LinesFromShape(t, clusters, target, i + 1); }
  }

  lemma {:induction false} LinesOfAllShape(v: Volume, paths: seq<Path>, target: seq<byte>, x: Line)
    ensures x in LinesOfAll(v, paths, target) <==> exists p :: p in paths && x in LinesOf(v, p, target)
  {
    hide LinesOf;
    if paths != [] {
      var n := |paths| - 1;
      LinesOfAllShape(v, paths[..n], target, x);
      assert paths == paths[..n] + [paths[n]];
    }
  }

  lemma SameClustersSamePath(v: Volume, path: Path, other: Path)
    requires WellFormed(v) && DirectoryAt(v, path).Some? && DirectoryAt(v, other).Some?
    requires ClustersOn(v, other) == ClustersOn(v, path)
    ensures other == path
  {
    hide DirectoryAt, WellFormed;
    assert |path| == |other|;
    assert ClustersOn(v, path)[|path|] == DirectoryAt(v, path).value;
    assert ClustersOn(v, other)[|path|] == DirectoryAt(v, other).value;
    PathIsUnique(v, path, other);
  }

  /** find prints a line for a slot exactly when it visits and can read the directory and the entry in the slot
      matches. */
  lemma MatchesArePrinted(v: Volume, target: seq<byte>, visited: seq<Path>, path: Path, i: nat)
    requires WellFormed(v) && Walkable(v, path) && FirstSlot(path) <= i < 64
    requires forall p :: p in visited ==> Walkable(v, p)
    ensures Line(ClustersOn(v, path), i) in LinesOfAll(v, visited, target)
      <==> path in visited && Opens(v, path) && Matches(TableAt(v, DirectoryAt(v, path).value)[i], target)
  {
    hide DirectoryAt, TableAt, Matches, WellFormed, LinesOfAll, ClustersOn, LinesFrom, Opens;
    var x := Line(ClustersOn(v, path), i);
    LinesOfAllShape(v, visited, target, x);
    forall p | p in visited
      ensures x in LinesOf(v, p, target) <==>
        p == path && Opens(v, path) && Matches(TableAt(v, DirectoryAt(v, path).value)[i], target)
    {
      assert Walkable(v, p);
      LinesFromShape(TableAt(v, DirectoryAt(v, p).value), ClustersOn(v, p), target, FirstSlot(p));
      if ClustersOn(v, p) == ClustersOn(v, path) { SameClustersSamePath(v, path, p); }
    }
  }
}
