/** Volumes on which the shell's find may be called: a formatted one, and what making directories in it keeps. */
module SearchableVolumes {
  import opened Wrappers
  import opened Bytes
  import opened Directory
  import opened Fat
  import opened Tree
  import opened Volumes
  import opened Views
  import opened Writing
  import opened Reading
  import opened Changes
  import opened Runs
  import opened Guarantees
  import opened Emptiness
  import opened Tokenizer
  import opened Levels
  import opened Find
  import opened FindableRuns

  lemma RootHasNoKid(v: Volume, p: Path)
    requires TableAt(v, ROOT) == NewTable(ROOT_NAME, ROOT) && |p| == 1
    ensures !Walkable(v, p)
  {
    hide DecodeTable;
    assert p[..|p| - 1] == [] && DirectoryAt(v, []) == Some(ROOT);
    if 1 <= p[0] < 64 {
      BlankSlot(p[0]);
      assert !TableAt(v, ROOT)[p[0]].Used();
    }
  }

  lemma NothingBelowRoot(v: Volume)
    requires TableAt(v, ROOT) == NewTable(ROOT_NAME, ROOT)
    ensures Level(v, 1) == []
  {
    hide Level, Walkable, DecodeTable, NewTable;
    assert Level(v, 1) != [] ==> Level(v, 1)[0] in Level(v, 1);
    LevelShape(v, 1);
    forall p: Path | |p| == 1
      ensures !Walkable(v, p)
    {
      RootHasNoKid(v, p);
    }
  }

  /** A freshly formatted volume meets everything the walk asks for. */
  lemma FreshVolumeIsSearchable(d: Disk, f: Map)
    ensures Searchable(Formatted(d, f))
  {
    hide DecodeTable, VolumeOk, Formatted, Level, NewTable;
    var v := Formatted(d, f);
    FormatIsWellFormed(d, f);
    NothingBelowRoot(v);
    NoDeeperLevel(v, 1, 16);
    forall path, i | Walkable(v, path) && 1 <= i < 64
      ensures !TableAt(v, DirectoryAt(v, path).value)[i].Used()
    {
      ShallowPath(v, path, 1);
      assert NewTable(ROOT_NAME, ROOT)[i] == EMPTY_ENTRY by { BlankSlot(i); }
    }
  }

  lemma DirectoryFromSight(v: Volume, path: Path)
    requires path != []
    ensures DirectoryAt(v, path).Some? <==> See(v, path).Folder?
    ensures DirectoryAt(v, path).Some? ==> DirectoryAt(v, path).value == See(v, path).entry.Start()
  {
    hide TableAt;
  }

  /** The setting of a new directory at a path less than sixteen deep. */
  ghost predicate MakesDirectory(v: Volume, r: Request, w: Volume, at: Path) {
    && Written(v, r, [], w) && r.size == 0
    && at != [] && |at| < 16 && DirectoryAt(v, at[..|at| - 1]) == Some(r.parent)
    && at[|at| - 1] == FreeSlot(TableAt(v, r.parent), 0) < 64
  }

  lemma MakingMeans(v: Volume, r: Request, w: Volume, at: Path)
    requires MakesDirectory(v, r, w, at)
    ensures 0 < |at| < 16 && Written(v, r, [], w) && DirectoryAt(v, at[..|at| - 1]) == Some(r.parent)
    ensures WellFormed(v) && r.size == 0 && at[|at| - 1] == FreeSlot(TableAt(v, r.parent), 0)
  {
  }

  lemma RootDirectory(v: Volume)
    ensures DirectoryAt(v, []) == Some(ROOT)
  {
  }

  /** A new directory can be reached, nothing below it can, and everything else is reached as before. */
  lemma ReachedAfter(v: Volume, r: Request, w: Volume, at: Path, p: Path)
    requires MakesDirectory(v, r, w, at)
    ensures p == at ==> DirectoryAt(w, p).Some? && See(w, p) != Nothing
    ensures p != at && at <= p ==> DirectoryAt(w, p) == None && See(w, p) == Nothing
    ensures !(at <= p) ==> DirectoryAt(w, p) == DirectoryAt(v, p) && See(w, p) == See(v, p)
  {
    hide DirectoryAt, See, TableAt, Written, SelfEntry, FreeSlot;
    WritingShows(v, r, [], w, at, p);
    if p == [] {
      RootDirectory(v);
      RootDirectory(w);
    } else {
      DirectoryFromSight(v, p);
      DirectoryFromSight(w, p);
    }
  }

  lemma WrittenIsWellFormed(v: Volume, r: Request, w: Volume)
    requires Written(v, r, [], w)
    ensures WellFormed(w)
  {
    hide Written, Write, VolumeOk, Writes;
    var l, cs := WrittenMeans(v, r, [], w);
    WriteKeepsVolume(v, l, r, [], cs);
  }

  /** The slot was free: nothing could be reached through it. */
  lemma NothingThroughFreeSlot(v: Volume, r: Request, w: Volume, at: Path, p: Path)
    requires MakesDirectory(v, r, w, at) && at <= p
    ensures DirectoryAt(v, p) == None
  {
    hide TableAt, Written;
    NothingBeyond(v, at, p);
  }

  // ---------- which directories can be read afterwards ----------

  /** read_directory in a table with one directory more: only the new name is answered in addition. */
  lemma AnswersAfter(t: Table, n: nat, e: Entry, name: Name)
    requires 1 <= n < 64 && t[n] == EMPTY_ENTRY && t[0].IsDirectory() && t[0].filesize == 0
    requires e.name != ZERO_NAME && e.IsDirectory() && e.filesize == 0
    requires forall i :: 1 <= i < 64 ==> t[i].name != e.name
    ensures Answers(t[n := e], name) <==> Answers(t, name) || name == e.name
  {
    hide FindName;
    var u := t[n := e];
    var k, k' := FindName(t, name, 0), FindName(u, name, 0);
    if name == e.name {
      assert k == 0 || k == 64;
      assert u[n].name == name;
      assert k' == 0 || k' == n;
    } else if name != ZERO_NAME {
      assert k < 64 ==> u[k].name == name;
      assert k' < 64 ==> t[k'].name == name;
      assert k == k';
    }
  }

  /** The name under which find looks for the directory at path. */
  function SoughtName(v: Volume, path: Path): Name {
    if DirectoryAt(v, path).Some? then Padded(TableAt(v, DirectoryAt(v, path).value)[0].name) else ZERO_NAME
  }

  /** The paths p and at end in slots of the same directory. */
  predicate Siblings(at: Path, p: Path) {
    at != [] && p != [] && p[..|p| - 1] == at[..|at| - 1]
  }

  lemma TableAfter(v: Volume, r: Request, w: Volume, at: Path, d: DataCluster) returns (e: Entry)
    requires MakesDirectory(v, r, w, at) && IsDirectory(v, d)
    ensures d != r.parent ==> TableAt(w, d) == TableAt(v, d)
    ensures d == r.parent ==>
      var t, n := TableAt(v, d), at[|at| - 1];
      && 1 <= n < 64 && TableAt(w, d) == t[n := e] && t[n] == EMPTY_ENTRY
      && t[0].IsDirectory() && t[0].filesize == 0
      && forall i :: 1 <= i < 64 ==> t[i].name != e.name
    ensures e.name == r.name != ZERO_NAME && e.IsDirectory() && e.filesize == 0
  {
    hide DecodeTable, DirectoryAt, Write, FreeSlot, Plain, VolumeOk;
    e := WrittenSlot(v, r, [], w);
    if d != r.parent {
      OtherTablesStay(v, r, [], w, d);
    } else {
      var l :| VolumeOk(v, l);
      DirectoriesAreReachable(v, l, d);
      LiveDirectory(v, l, d);
      assert StructureOf(v).tables[d] == TableAt(v, d);
    }
  }

  lemma ParentPath(v: Volume, p: Path)
    requires WellFormed(v) && p != [] && DirectoryAt(v, p).Some?
    ensures 1 <= p[|p| - 1] < 64 && DirectoryAt(v, p[..|p| - 1]) == Some(ParentOf(v, DirectoryAt(v, p).value))
  {
    hide DirectoryAt, TableAt, WellFormed;
    LastSlot(v, p);
    assert p == p[..|p| - 1] + [p[|p| - 1]];
    SubdirectoryAt(v, p[..|p| - 1], p[|p| - 1]);
  }

  /** Making a directory closes none; it opens exactly those beside it that were looked for under its name in vain. */
  lemma OpensAfter(v: Volume, r: Request, w: Volume, at: Path, p: Path)
    requires MakesDirectory(v, r, w, at) && DirectoryAt(v, p).Some?
    ensures Opens(w, p) <==> Opens(v, p) || (Siblings(at, p) && SoughtName(v, p) == r.name)
  {
    hide DirectoryAt, See, TableAt, MakesDirectory, Answers, Padded, WellFormed, Written, FreeSlot;
    MakingMeans(v, r, w, at);
    WrittenIsWellFormed(v, r, w);
    if p == [] {
      RootDirectory(v);
      RootDirectory(w);
      OwnEntryIsFound(v, p);
      OwnEntryIsFound(w, p);
    } else {
      if at <= p { NothingThroughFreeSlot(v, r, w, at, p); }
      ReachedAfter(v, r, w, at, p);
      var d, above := DirectoryAt(v, p).value, p[..|p| - 1];
      ParentPath(v, p);
      var q: DataCluster := ParentOf(v, d);
      assert IsDirectory(v, d) && IsDirectory(v, q);
      var e := TableAfter(v, r, w, at, d);
      e := TableAfter(v, r, w, at, q);
      assert TableAt(w, d)[0] == TableAt(v, d)[0];
      if q == r.parent {
        PathIsUnique(v, above, at[..|at| - 1]);
        AnswersAfter(TableAt(v, q), at[|at| - 1], e, SoughtName(v, p));
      }
    }
  }

  /** A directory beside the new one that find has not been able to read before but can now, with a directory in it. */
  ghost predicate Reveals(v: Volume, r: Request, at: Path, p: Path) {
    && Walkable(v, p) && !Opens(v, p) && Siblings(at, p) && SoughtName(v, p) == r.name
    && exists i :: DirectoryAt(v, p + [i]).Some?
  }

  ghost predicate RevealsSome(v: Volume, r: Request, at: Path) {
    exists p :: Reveals(v, r, at, p)
  }

  /** What was walked to is walked to still. */
  lemma WalkableStays(v: Volume, r: Request, w: Volume, at: Path, p: Path)
    requires MakesDirectory(v, r, w, at) && Walkable(v, p)
    ensures Walkable(w, p) && (Opens(v, p) ==> Opens(w, p))
  {
    hide See, MakesDirectory, Opens;
    if at <= p { NothingThroughFreeSlot(v, r, w, at, p); }
    ReachedAfter(v, r, w, at, p);
    OpensAfter(v, r, w, at, p);
    forall k | 0 <= k < |p|
      ensures Opens(w, p[..k])
    {
      assert Opens(v, p[..k]);
      OpensAfter(v, r, w, at, p[..k]) by { OpenIsDirectory(v, p[..k]); }
    }
  }

  lemma OpenIsDirectory(v: Volume, p: Path)
    requires Opens(v, p)
    ensures DirectoryAt(v, p).Some?
  {
  }

  /** The new directory itself is walked to when the one it is in can be read, but in root slot 1. */
  lemma NewIsWalkable(v: Volume, r: Request, w: Volume, at: Path)
    requires MakesDirectory(v, r, w, at) && at != []
    ensures var above := at[..|at| - 1];
      Walkable(w, at) <==> Walkable(v, above) && Opens(v, above) && at[|at| - 1] >= FirstSlot(above)
  {
    hide DirectoryAt, See, MakesDirectory, Opens, Walkable;
    MakingMeans(v, r, w, at);
    var above := at[..|at| - 1];
    ReachedAfter(v, r, w, at, at);
    WalkableStep(w, at);
    OpensAfter(v, r, w, at, above);
    assert |above| == |at| - 1;
    if Walkable(v, above) {
      WalkableStays(v, r, w, at, above);
    } else if Walkable(w, above) {
      WalkableBefore(v, r, w, at, above);
    }
  }

  lemma HiddenAbove(v: Volume, r: Request, at: Path, p: Path, i: nat)
    requires Walkable(v, p) && !Opens(v, p) && Siblings(at, p) && SoughtName(v, p) == r.name
    requires DirectoryAt(v, p + [i]).Some?
    ensures RevealsSome(v, r, at)
  {
    hide DirectoryAt, Opens, Walkable, Siblings, SoughtName;
    assert Reveals(v, r, at, p);
  }

  /** Whatever is walked to in addition, is the new directory or below one that has been revealed. */
  lemma {:induction false} WalkableBefore(v: Volume, r: Request, w: Volume, at: Path, p: Path)
    requires MakesDirectory(v, r, w, at) && Walkable(w, p)
    ensures Walkable(v, p) || p == at || (|p| > |at| && RevealsSome(v, r, at))
    decreases |p|
  {
    hide DirectoryAt, See, MakesDirectory, Opens, Walkable, Siblings, SoughtName;
    MakingMeans(v, r, w, at);
    if p == [] {
      RootIsWalkable(v);
    } else if p != at {
      var above := p[..|p| - 1];
      WalkableStep(w, p);
      WalkableStep(v, p);
      WalkableBefore(v, r, w, at, above);
      ReachedAfter(v, r, w, at, p);
      assert !(at <= p);
      if Walkable(v, above) && !Opens(v, above) {
        WalkableIsDirectory(v, above);
        OpensAfter(v, r, w, at, above);
        SiblingsAreAsLong(at, above);
        LastStep(p);
        HiddenAbove(v, r, at, above, p[|p| - 1]);
      }
    }
  }

  lemma LastStep(p: Path)
    requires p != []
    ensures p == p[..|p| - 1] + [p[|p| - 1]]
  {
  }

  lemma WalkableIsDirectory(v: Volume, p: Path)
    requires Walkable(v, p)
    ensures DirectoryAt(v, p).Some?
  {
  }

  lemma SiblingsAreAsLong(at: Path, p: Path)
    ensures Siblings(at, p) ==> |p| == |at|
  {
    if Siblings(at, p) { assert |p[..|p| - 1]| == |at[..|at| - 1]|; }
  }

  /** What is below a revealed directory is walked to only now. */
  lemma RevealedIsNew(v: Volume, r: Request, w: Volume, at: Path, p: Path) returns (kid: Path)
    requires MakesDirectory(v, r, w, at) && Reveals(v, r, at, p)
    ensures Walkable(w, kid) && !Walkable(v, kid) && kid != at
  {
    hide DirectoryAt, See, MakesDirectory, Opens, Walkable, SoughtName;
    var i :| DirectoryAt(v, p + [i]).Some?;
    kid := p + [i];
    assert kid[..|kid| - 1] == p;
    SiblingsAreAsLong(at, p);
    LastSlot(v, kid);
    WalkableStep(v, kid);
    WalkableStep(w, kid);
    WalkableIsDirectory(v, p);
    OpensAfter(v, r, w, at, p);
    WalkableStays(v, r, w, at, p);
    if at <= kid { NothingThroughFreeSlot(v, r, w, at, kid); }
    ReachedAfter(v, r, w, at, kid);
  }

  /** Nothing but the new directory is walked to in addition. */
  ghost predicate GainsNoMore(v: Volume, w: Volume, at: Path) {
    forall p :: Walkable(w, p) ==> Walkable(v, p) || p == at
  }

  lemma GainIsExact(v: Volume, r: Request, w: Volume, at: Path)
    requires MakesDirectory(v, r, w, at)
    ensures GainsNoMore(v, w, at) <==> !RevealsSome(v, r, at)
  {
    hide MakesDirectory, Walkable, Reveals;
    if RevealsSome(v, r, at) {
      var p :| Reveals(v, r, at, p);
      var kid := RevealedIsNew(v, r, w, at, p);
    } else {
      forall p | Walkable(w, p)
        ensures Walkable(v, p) || p == at
      {
        WalkableBefore(v, r, w, at, p);
      }
    }
  }

  /** Making a directory less than sixteen deep, under any name, loses nothing of the walk. It adds at most this
      directory if and only if it reveals no other, and then the volume stays searchable. */
  lemma MakingDirectoriesKeepsSearchable(v: Volume, r: Request, w: Volume, at: Path)
    requires Searchable(v) && PlainEntries(v) && MakesDirectory(v, r, w, at)
    ensures PlainEntries(w) && |at| > 0
    ensures forall p :: Walkable(v, p) ==> Walkable(w, p)
    ensures var above := at[..|at| - 1];
      Walkable(w, at) <==> Walkable(v, above) && Opens(v, above) && at[|at| - 1] >= FirstSlot(above)
    ensures GainsNoMore(v, w, at) <==> !RevealsSome(v, r, at)
    ensures !RevealsSome(v, r, at) ==> Searchable(w) && |Order(w, 16)| <= |Order(v, 16)| + 1
  {
    hide DirectoryAt, See, Written, FreeSlot, MakesDirectory, NamesFit, WellFormed, Level, Order, PlainEntries,
         Walkable, RevealsSome, GainsNoMore, Opens;
    MakingMeans(v, r, w, at);
    WrittenIsWellFormed(v, r, w);
    WrittenKeepsPlain(v, r, [], w);
    PlainNamesFit(w);
    forall p | Walkable(v, p)
      ensures Walkable(w, p)
    {
      WalkableStays(v, r, w, at, p);
    }
    NewIsWalkable(v, r, w, at);
    GainIsExact(v, r, w, at);
    if GainsNoMore(v, w, at) { SmallGain(v, w, at); }
  }

  lemma SmallGain(v: Volume, w: Volume, at: Path)
    requires Level(v, 16) == [] && |at| < 16 && GainsNoMore(v, w, at)
    ensures Level(w, 16) == [] && |Order(w, 16)| <= |Order(v, 16)| + 1
  {
    hide Walkable, Level, Order;
    LevelIsEmpty(v, 16);
    LevelIsEmpty(w, 16);
    OrderShape(v, 16);
    OrderShape(w, 16);
    assert forall p :: p in Order(w, 16) ==> p in Order(v, 16) + [at];
    DistinctWithin(Order(w, 16), Order(v, 16) + [at]);
  }

  // ---------- a volume with directories in it ----------

  predicate FreeFromOn(v: Volume, c: nat) {
    forall i :: 2 <= i < 512 ==> (v.fat[i] == EMPTY <==> c <= i)
  }

  function DirectoryRequest(name: Name, parent: DataCluster): Request {
    Request(name, ZERO_EXT, parent, 0)
  }

  /** The slots below k are in use and no other. */
  predicate FilledTo(t: Table, k: nat) {
    forall i :: 0 <= i < 64 ==> (t[i].Used() <==> i < k)
  }

  /** One directory more, in the lowest free cluster c. */
  lemma MakeOne(v: Volume, l: Layout, name: Name, parent: DataCluster, c: DataCluster, at: Path)
    returns (w: Volume, m: Layout)
    requires VolumeOk(v, l) && name != ZERO_NAME && parent in l.depth
    requires 0 < |at| < 16 && DirectoryAt(v, at[..|at| - 1]) == Some(parent)
    requires at[|at| - 1] < 64 && FilledTo(TableAt(v, parent), at[|at| - 1])
    requires forall i :: 1 <= i < 64 ==> TableAt(v, parent)[i].name != name
    requires c < 511 && FreeFromOn(v, c)
    ensures WriteDefined(v, DirectoryRequest(name, parent), []) && IsDirectory(v, parent)
    ensures w == Write(v, DirectoryRequest(name, parent), []).volume
    ensures VolumeOk(w, m) && c in m.depth && (forall d :: d in l.depth ==> d in m.depth)
    ensures MakesDirectory(v, DirectoryRequest(name, parent), w, at) && FreeFromOn(w, c + 1)
    ensures TableAt(w, c) == NewTable(name, parent) && DirectoryAt(w, at) == Some(c)
    ensures FilledTo(TableAt(w, parent), at[|at| - 1] + 1)
    ensures forall i :: 0 <= i < 64 ==>
      TableAt(w, parent)[i].name == if i == at[|at| - 1] then name else TableAt(v, parent)[i].name
  {
    hide DecodeTable, EncodeTable, VolumeOk, Write, FirstFree, NewEntry, WellFormed, DirectoryAt;
    var r, n := DirectoryRequest(name, parent), at[|at| - 1];
    SlotIs(TableAt(v, parent), n);
    TakeOne(v, l, r, [], c);
    w, m := Write(v, r, []).volume, Grown(l, parent, n, [c], true);
    WriteKeepsVolume(v, l, r, [], [c]);
    WriteSucceeds(v, r, [], [c]);
    NewSlot(v, l, r, [], [c]);
    WrittenFile(v, l, r, [], [c]);
    DecodeTableOfEncode(NewTable(name, parent));
    assert w.disk[[c][0]] == Blocks(r, [])[0];
    Witnessed(v, l);
    assert IsDirectory(v, parent);
    NewAt(v, r, w, at, c);
  }

  lemma NewAt(v: Volume, r: Request, w: Volume, at: Path, c: DataCluster)
    requires MakesDirectory(v, r, w, at) && TableAt(w, r.parent)[at[|at| - 1]].Start() == c
    ensures DirectoryAt(w, at) == Some(c)
  {
    hide DirectoryAt, See, TableAt, Written, SelfEntry, FreeSlot;
    WritingShows(v, r, [], w, at, at);
    DirectoryFromSight(w, at);
  }

  lemma RootAlone(v: Volume)
    requires Level(v, 1) == []
    ensures |Order(v, 16)| == 1
  {
    hide Level;
    NoDeeperLevel(v, 1, 16);
    RootLevel(v);
  }

  lemma ThreeSteps(v: Volume, a: Op, b: Op, c: Op)
    ensures After(v, [a, b, c]) == Step(Step(Step(v, a), b), c)
    ensures Run(v, [a, b, c]) <==>
      Admissible(v, a) && Admissible(Step(v, a), b) && Admissible(Step(Step(v, a), b), c)
  {
    hide Step, Admissible;
    var x, y, z := Step(v, a), Step(Step(v, a), b), Step(Step(Step(v, a), b), c);
    assert [a, b, c][1..] == [b, c] && [b, c][1..] == [c] && [c][1..] == [];
    assert After(z, []) == z && Run(z, []);
    assert After(y, [c]) == z && (Run(y, [c]) <==> Admissible(y, c));
    assert After(x, [b, c]) == z;
  }

  /** Every directory that is walked to can be read. */
  ghost predicate AllOpen(v: Volume) {
    forall p :: Walkable(v, p) ==> Opens(v, p)
  }

  /** A volume in which the next directory gets cluster c. */
  ghost predicate Ready(v: Volume, l: Layout, c: nat) {
    VolumeOk(v, l) && Searchable(v) && PlainEntries(v) && FreeFromOn(v, c)
  }

  lemma ReadyMeans(v: Volume, l: Layout, c: nat)
    requires Ready(v, l, c)
    ensures VolumeOk(v, l) && Searchable(v) && FreeFromOn(v, c) && WellFormed(v) && NamesFit(v) && Level(v, 16) == []
  {
  }

  /** As long as all directories open there is nothing to reveal. */
  lemma NothingHidden(v: Volume, r: Request, at: Path)
    requires AllOpen(v)
    ensures !RevealsSome(v, r, at)
  {
    hide Walkable, Opens;
  }

  /** A directory whose name has nothing behind its NUL is found, and so all open that opened before. */
  lemma OpenStays(v: Volume, r: Request, w: Volume, at: Path)
    requires AllOpen(v) && MakesDirectory(v, r, w, at) && Terminated(r.name)
    ensures AllOpen(w)
  {
    hide Walkable, Opens, MakesDirectory, Terminated, DirectoryAt, See;
    NothingHidden(v, r, at);
    GainIsExact(v, r, w, at);
    NewOpens(v, r, w, at);
    forall p | Walkable(w, p)
      ensures Opens(w, p)
    {
      if p != at { WalkableStays(v, r, w, at, p); }
    }
  }

  lemma NewOpens(v: Volume, r: Request, w: Volume, at: Path)
    requires MakesDirectory(v, r, w, at) && Terminated(r.name)
    ensures Opens(w, at)
  {
    hide Opens, Terminated, DirectoryAt, See, TableAt, Written, FreeSlot;
    WrittenIsWellFormed(v, r, w);
    WritingShows(v, r, [], w, at, at);
    DirectoryFromSight(w, at);
    OwnName(w, at);
    OwnEntryIsFound(w, at);
  }

  lemma OwnName(v: Volume, path: Path)
    requires path != [] && DirectoryAt(v, path).Some?
    ensures See(v, path).Folder? && TableAt(v, DirectoryAt(v, path).value)[0] == See(v, path).self
  {
    hide TableAt;
  }

  const JUNK: Name := [0x42, 0, 0x58, 0, 0, 0, 0, 0]
  const MAKE_A: Op := WriteOp(DirectoryRequest(A, ROOT), [])
  const MAKE_B: Op := WriteOp(DirectoryRequest(B, ROOT), [])
  const MAKE_JUNK: Op := WriteOp(DirectoryRequest(JUNK, ROOT), [])
  const MAKE_C: Op := WriteOp(DirectoryRequest(C, 4), [])

  /** Making the directory is an admissible step of a run. */
  lemma StepIs(v: Volume, r: Request)
    requires WriteDefined(v, r, []) && IsDirectory(v, r.parent)
    ensures Step(v, WriteOp(r, [])) == Write(v, r, []).volume && Admissible(v, WriteOp(r, []))
  {
  }

  lemma WithA() returns (v: Volume, l: Layout)
    ensures v == Step(Formatted(DISK, ZERO_MAP), MAKE_A) && Admissible(Formatted(DISK, ZERO_MAP), MAKE_A)
    ensures Ready(v, l, 4) && ROOT in l.depth && AllOpen(v) && |Order(v, 16)| <= 2
    ensures FilledTo(TableAt(v, ROOT), 2) && DirectoryAt(v, [1]) == Some(3)
    ensures forall i :: 0 <= i < 64 ==> TableAt(v, ROOT)[i].name != B && TableAt(v, ROOT)[i].name != JUNK
  {
    hide DecodeTable, VolumeOk, Write, DirectoryAt, WriteDefined, IsDirectory, Formatted, Searchable, MakesDirectory,
         Order, Level, PlainEntries, AllOpen, Step, Admissible, RevealsSome, GainsNoMore, Walkable, Opens, Terminated;
    var v0, l0 := Start();
    var r := DirectoryRequest(A, ROOT);
    FreshVolumeIsSearchable(DISK, ZERO_MAP);
    FormattedIsPlain(DISK, ZERO_MAP);
    FreshIsOpen(DISK, ZERO_MAP);
    NothingBelowRoot(v0);
    RootAlone(v0);
    RootDirectory(v0);
    NamesEnd();
    FreshIsFilled();
    assert [1][..0] == [];
    v, l := MakeOne(v0, l0, A, ROOT, 3, [1]);
    StepIs(v0, r);
    NothingHidden(v0, r, [1]);
    MakingDirectoriesKeepsSearchable(v0, r, v, [1]);
    OpenStays(v0, r, v, [1]);
  }

  lemma FreshIsOpen(d: Disk, f: Map)
    ensures AllOpen(Formatted(d, f))
  {
    hide DecodeTable, VolumeOk, Formatted, Level, NewTable, Opens, Walkable, Searchable;
    var v := Formatted(d, f);
    FormatIsWellFormed(d, f);
    FreshVolumeIsSearchable(d, f);
    NothingBelowRoot(v);
    forall p | Walkable(v, p)
      ensures Opens(v, p)
    {
      ShallowPath(v, p, 1);
      RootOpens(v);
    }
  }

  lemma FreshIsFilled()
    ensures FilledTo(NewTable(ROOT_NAME, ROOT), 1)
    ensures forall i :: 0 <= i < 64 ==> NewTable(ROOT_NAME, ROOT)[i].name !in {A, B, C, JUNK}
  {
  }

  /** A second directory in the root, of any name, in cluster 4. */
  lemma WithSecond(v: Volume, l: Layout, name: Name) returns (w: Volume, m: Layout)
    requires Ready(v, l, 4) && ROOT in l.depth && AllOpen(v) && FilledTo(TableAt(v, ROOT), 2) && name != ZERO_NAME
    requires forall i :: 1 <= i < 64 ==> TableAt(v, ROOT)[i].name != name
    ensures var op := WriteOp(DirectoryRequest(name, ROOT), []); w == Step(v, op) && Admissible(v, op)
    ensures Ready(w, m, 5) && ROOT in m.depth && 4 in m.depth && |Order(w, 16)| <= |Order(v, 16)| + 1
    ensures MakesDirectory(v, DirectoryRequest(name, ROOT), w, [2])
    ensures FilledTo(TableAt(w, ROOT), 3) && TableAt(w, 4) == NewTable(name, ROOT)
    ensures DirectoryAt(w, [2]) == Some(4) && DirectoryAt(w, [1]) == DirectoryAt(v, [1])
    ensures forall i :: 0 <= i < 64 ==>
      TableAt(w, ROOT)[i].name == if i == 2 then name else TableAt(v, ROOT)[i].name
  {
    hide DecodeTable, VolumeOk, Write, DirectoryAt, WriteDefined, IsDirectory, Searchable, MakesDirectory, Order, Level,
         PlainEntries, AllOpen, Step, Admissible, RevealsSome, GainsNoMore, Walkable, Opens;
    var r := DirectoryRequest(name, ROOT);
    RootDirectory(v);
    assert [2][..0] == [];
    w, m := MakeOne(v, l, name, ROOT, 4, [2]);
    StepIs(v, r);
    NothingHidden(v, r, [2]);
    MakingDirectoriesKeepsSearchable(v, r, w, [2]);
    ReachedAfter(v, r, w, [2], [1]);
  }

  /** A directory C in the one of cluster 4. */
  lemma WithC(v: Volume, l: Layout) returns (w: Volume, m: Layout)
    requires Ready(v, l, 5) && 4 in l.depth && ROOT in l.depth && !RevealsSome(v, DirectoryRequest(C, 4), [2, 1])
    requires FilledTo(TableAt(v, 4), 1) && DirectoryAt(v, [2]) == Some(4)
    requires forall i :: 1 <= i < 64 ==> TableAt(v, 4)[i].name != C
    ensures w == Step(v, MAKE_C) && Admissible(v, MAKE_C)
    ensures Ready(w, m, 6) && ROOT in m.depth && |Order(w, 16)| <= |Order(v, 16)| + 1
    ensures MakesDirectory(v, DirectoryRequest(C, 4), w, [2, 1])
    ensures DirectoryAt(w, [2, 1]) == Some(5)
    ensures DirectoryAt(w, [1]) == DirectoryAt(v, [1]) && DirectoryAt(w, [2]) == DirectoryAt(v, [2])
    ensures TableAt(w, ROOT) == TableAt(v, ROOT) && TableAt(w, 4)[0] == TableAt(v, 4)[0]
  {
    hide DecodeTable, VolumeOk, Write, DirectoryAt, WriteDefined, Searchable, MakesDirectory, Order, Level,
         PlainEntries, Step, Admissible, RevealsSome, GainsNoMore, Walkable, Opens;
    var r := DirectoryRequest(C, 4);
    assert [2, 1][..1] == [2];
    w, m := MakeOne(v, l, C, 4, 5, [2, 1]);
    StepIs(v, r);
    MakingDirectoriesKeepsSearchable(v, r, w, [2, 1]);
    ReachedAfter(v, r, w, [2, 1], [1]);
    ReachedAfter(v, r, w, [2, 1], [2]);
    RootDirectory(v);
    var _ := TableAfter(v, r, w, [2, 1], ROOT);
    var _ := TableAfter(v, r, w, [2, 1], 4);
  }

  /** A run after which find has something to do: directories A and B in the root and C in B. The one in root slot 1 is
      passed over, the others are visited and can be read. */
  lemma ThreeDirectories()
    ensures var v0 := Formatted(DISK, ZERO_MAP);
      var v := After(v0, [MAKE_A, MAKE_B, MAKE_C]);
      && Run(v0, [MAKE_A, MAKE_B, MAKE_C]) && Searchable(v) && QueueFits(v) && AllOpen(v)
      && DirectoryAt(v, [1]) == Some(3) && [1] !in Order(v, 16)
      && DirectoryAt(v, [2]) == Some(4) && [2] in Order(v, 16)
      && DirectoryAt(v, [2, 1]) == Some(5) && [2, 1] in Order(v, 16)
  {
    hide DecodeTable, VolumeOk, Step, Admissible, DirectoryAt, Formatted, Searchable, Order, Level, QueueFits, Run,
         After, AllOpen, Ready, RevealsSome, MakesDirectory, Terminated;
    NamesEnd();
    var v1, l1 := WithA();
    var v2, l2 := WithSecond(v1, l1, B);
    OpenStays(v1, DirectoryRequest(B, ROOT), v2, [2]);
    NothingHidden(v2, DirectoryRequest(C, 4), [2, 1]);
    NewIsFilled(B, ROOT);
    var v3, l3 := WithC(v2, l2);
    OpenStays(v2, DirectoryRequest(C, 4), v3, [2, 1]);
    ThreeSteps(Formatted(DISK, ZERO_MAP), MAKE_A, MAKE_B, MAKE_C);
    ReadyMeans(v3, l3, 6);
    SmallTreesFit(v3);
    WalkedTo(v3);
  }

  lemma NewIsFilled(name: Name, parent: DataCluster)
    requires name == B || name == JUNK
    ensures FilledTo(NewTable(name, parent), 1)
    ensures forall i :: 1 <= i < 64 ==> NewTable(name, parent)[i].name != C
  {
  }

  lemma WalkedTo(v: Volume)
    requires Searchable(v) && AllOpen(v) && DirectoryAt(v, [2]).Some? && DirectoryAt(v, [2, 1]).Some?
    ensures [1] !in Order(v, 16) && [2] in Order(v, 16) && [2, 1] in Order(v, 16)
  {
    hide Level, Order, DirectoryAt, Opens, WellFormed, NamesFit;
    OrderShape(v, 16);
    RootOpens(v);
    WalkedInRoot(v);
    assert Walkable(v, [2]) && [2, 1][..1] == [2];
    WalkableStep(v, [2, 1]);
  }

  lemma WalkedInRoot(v: Volume)
    requires Opens(v, [])
    ensures !Walkable(v, [1]) && (DirectoryAt(v, [2]).Some? ==> Walkable(v, [2]))
  {
    hide DirectoryAt, Opens;
    RootIsWalkable(v);
    assert [2][..0] == [];
    WalkableStep(v, [2]);
  }

  /** A run that hides a directory from find: the name of the second one is B with a byte behind the NUL. find visits
      it, looks for B in vain, complains, and never comes to C inside - until a directory B is made beside it. */
  lemma HiddenDirectory()
    ensures var v0 := Formatted(DISK, ZERO_MAP);
      var v := After(v0, [MAKE_A, MAKE_JUNK, MAKE_C]);
      && Run(v0, [MAKE_A, MAKE_JUNK, MAKE_C]) && Searchable(v) && QueueFits(v)
      && [2] in Order(v, 16) && !Opens(v, [2])
      && DirectoryAt(v, [2, 1]) == Some(5) && [2, 1] !in Order(v, 16)
      && Admissible(v, MAKE_B) && RevealsSome(v, DirectoryRequest(B, ROOT), [3]) && Walkable(Step(v, MAKE_B), [2, 1])
  {
    hide DecodeTable, VolumeOk, Step, Admissible, DirectoryAt, Formatted, Searchable, Order, Level, QueueFits, Run,
         After, AllOpen, Ready, RevealsSome, MakesDirectory, Terminated, Walkable, Opens, Reveals, SoughtName;
    var v1, l1 := WithA();
    var v2, l2 := WithSecond(v1, l1, JUNK);
    JunkIsClosed(v1, v2);
    NewIsFilled(JUNK, ROOT);
    BelowClosed(v2, DirectoryRequest(C, 4));
    var v3, l3 := WithC(v2, l2);
    ThreeSteps(Formatted(DISK, ZERO_MAP), MAKE_A, MAKE_JUNK, MAKE_C);
    ReadyMeans(v3, l3, 6);
    SmallTreesFit(v3);
    OpensAfter(v2, DirectoryRequest(C, 4), v3, [2, 1], [2]);
    SoughtAlike(v2, v3, [2], 4);
    JunkIsVisited(v3);
    Revealing(v3, l3);
  }

  lemma SoughtAlike(v: Volume, w: Volume, path: Path, d: DataCluster)
    requires DirectoryAt(v, path) == Some(d) && DirectoryAt(w, path) == Some(d)
    requires TableAt(w, d)[0] == TableAt(v, d)[0]
    ensures SoughtName(w, path) == SoughtName(v, path)
  {
    hide DirectoryAt, TableAt;
  }

  /** Nothing in a directory that cannot be read is walked to: making something there reveals nothing. */
  lemma BelowClosed(v: Volume, r: Request)
    requires !Opens(v, [2])
    ensures !RevealsSome(v, r, [2, 1])
  {
    hide Opens, DirectoryAt, SoughtName;
    forall p | Siblings([2, 1], p)
      ensures !Walkable(v, p)
    {
      assert p[..|p| - 1] == [2, 1][..1] == [2];
    }
  }

  lemma JunkIsVisited(v: Volume)
    requires Searchable(v) && DirectoryAt(v, [2]).Some? && !Opens(v, [2])
    ensures [2] in Order(v, 16) && [2, 1] !in Order(v, 16) && Walkable(v, [2])
  {
    hide Level, Order, DirectoryAt, Opens, WellFormed, NamesFit, Walkable;
    OrderShape(v, 16);
    RootOpens(v);
    WalkedInRoot(v);
    assert [2, 1][..1] == [2];
    WalkableStep(v, [2, 1]);
  }

  /** The directory that is named as the hidden one is looked for brings out what is below that. */
  lemma Revealing(v: Volume, l: Layout)
    requires Ready(v, l, 6) && ROOT in l.depth && FilledTo(TableAt(v, ROOT), 3)
    requires forall i :: 1 <= i < 64 ==> TableAt(v, ROOT)[i].name != B
    requires Walkable(v, [2]) && !Opens(v, [2]) && SoughtName(v, [2]) == B && DirectoryAt(v, [2, 1]).Some?
    ensures Admissible(v, MAKE_B) && RevealsSome(v, DirectoryRequest(B, ROOT), [3]) && Walkable(Step(v, MAKE_B), [2, 1])
  {
    hide DecodeTable, VolumeOk, Write, DirectoryAt, WriteDefined, Searchable, MakesDirectory, PlainEntries, Step,
         Admissible, Walkable, Opens, SoughtName;
    var r := DirectoryRequest(B, ROOT);
    RootDirectory(v);
    assert [3][..0] == [] && [2][..0] == [] && [2] + [1] == [2, 1] && [2, 1][..1] == [2];
    var w, m := MakeOne(v, l, B, ROOT, 6, [3]);
    StepIs(v, r);
    assert Reveals(v, r, [3], [2]);
    WalkableIsDirectory(v, [2]);
    OpensAfter(v, r, w, [3], [2]);
    WalkableStays(v, r, w, [3], [2]);
    ReachedAfter(v, r, w, [3], [2, 1]);
    WalkableStep(w, [2, 1]);
  }

  lemma NamesEnd()
    ensures Terminated(A) && Terminated(B) && Terminated(C)
  {
    NulAt(A, 1);
    NulAt(B, 1);
    NulAt(C, 1);
  }

  lemma JunkIsClosed(v: Volume, w: Volume)
    requires forall i :: 0 <= i < 64 ==> TableAt(v, ROOT)[i].name != B
    requires forall i :: 0 <= i < 64 ==>
      TableAt(w, ROOT)[i].name == if i == 2 then JUNK else TableAt(v, ROOT)[i].name
    requires DirectoryAt(w, [2]) == Some(4) && TableAt(w, 4) == NewTable(JUNK, ROOT)
    ensures !Opens(w, [2]) && SoughtName(w, [2]) == B
  {
    hide DirectoryAt, TableAt, FindName;
    NulAt(JUNK, 1);
    assert Padded(JUNK) == B && JUNK[2] != B[2];
    assert FindName(TableAt(w, ROOT), B, 0) == 64;
  }
}
