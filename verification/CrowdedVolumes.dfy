/** A run of the driver after which the queue of find is too small: twenty-two directories in the root. */
module CrowdedVolumes {
  import opened Bytes
  import opened Directory
  import opened Tree
  import opened Volumes
  import opened Views
  import opened Runs
  import opened Emptiness
  import opened Tokenizer
  import opened PendingQueue
  import opened Levels
  import opened Find
  import opened FindableRuns
  import opened SearchableVolumes

  /** The name of the directory in root slot i: a, b, c and so on. */
  function NameOf(i: nat): Name
    requires i <= 22
  {
    [0x60 + i, 0, 0, 0, 0, 0, 0, 0]
  }

  function Making(i: nat): Op
    requires i <= 22
  {
    WriteOp(DirectoryRequest(NameOf(i), ROOT), [])
  }

  /** The making of the first n directories. */
  function Makings(n: nat): seq<Op>
    requires n <= 22
  {
    if n == 0 then [] else Makings(n - 1) + [Making(n)]
  }

  predicate Named(t: Table, n: nat)
    requires n <= 22
  {
    forall i :: 0 <= i < 64 ==> t[i].name == if i == 0 then ROOT_NAME else if i <= n then NameOf(i) else ZERO_NAME
  }

  lemma {:induction false} RunAppend(v: Volume, ops: seq<Op>, op: Op)
    ensures After(v, ops + [op]) == Step(After(v, ops), op)
    ensures Run(v, ops + [op]) <==> Run(v, ops) && Admissible(After(v, ops), op)
    decreases |ops|
  {
    hide Step, Admissible;
    if ops == [] {
      assert [op][1..] == [] && ops + [op] == [op];
      assert After(Step(v, op), []) == Step(v, op) && Run(Step(v, op), []);
    } else {
      assert (ops + [op])[0] == ops[0] && (ops + [op])[1..] == ops[1..] + [op];
      RunAppend(Step(v, ops[0]), ops[1..], op);
    }
  }

  /** The first n root slots hold directories, and the next one gets cluster n + 3. */
  ghost predicate Crowded(v: Volume, l: Layout, n: nat)
    requires n <= 22
  {
    && Ready(v, l, n + 3) && ROOT in l.depth && AllOpen(v)
    && FilledTo(TableAt(v, ROOT), n + 1) && Named(TableAt(v, ROOT), n)
    && forall k: nat :: 1 <= k <= n ==> DirectoryAt(v, [k]).Some?
  }

  lemma FreshIsCrowded() returns (v: Volume, l: Layout)
    ensures v == Formatted(DISK, ZERO_MAP) && Crowded(v, l, 0)
  {
    hide DecodeTable, VolumeOk, Formatted, Searchable, PlainEntries, AllOpen;
    v, l := Start();
    FreshVolumeIsSearchable(DISK, ZERO_MAP);
    FormattedIsPlain(DISK, ZERO_MAP);
    FreshIsOpen(DISK, ZERO_MAP);
    FreshNames();
  }

  lemma FreshNames()
    ensures FilledTo(NewTable(ROOT_NAME, ROOT), 1) && Named(NewTable(ROOT_NAME, ROOT), 0)
  {
  }

  lemma NewName(t: Table, n: nat)
    requires n < 22 && Named(t, n)
    ensures Terminated(NameOf(n + 1)) && NameOf(n + 1) != ZERO_NAME
    ensures forall i :: 0 <= i < 64 ==> t[i].name != NameOf(n + 1)
  {
    var x := NameOf(n + 1);
    NulAt(x, 1);
    assert ROOT_NAME[0] != x[0] && ZERO_NAME[0] != x[0];
    assert forall i :: 1 <= i <= n ==> NameOf(i)[0] != x[0];
  }

  lemma OneMoreDirectory(v: Volume, l: Layout, n: nat) returns (w: Volume, m: Layout)
    requires n < 22 && Crowded(v, l, n)
    ensures w == Step(v, Making(n + 1)) && Admissible(v, Making(n + 1)) && Crowded(w, m, n + 1)
  {
    hide DecodeTable, VolumeOk, Write, DirectoryAt, WriteDefined, IsDirectory, Searchable, MakesDirectory, Order,
         PlainEntries, AllOpen, Step, Admissible, RevealsSome, GainsNoMore, Walkable, Opens, Terminated, TableAt,
         NameOf;
    var r, at := DirectoryRequest(NameOf(n + 1), ROOT), [n + 1];
    NewName(TableAt(v, ROOT), n);
    RootDirectory(v);
    assert at[..0] == [];
    w, m := MakeOne(v, l, NameOf(n + 1), ROOT, n + 3, at);
    StepIs(v, r);
    NothingHidden(v, r, at);
    MakingDirectoriesKeepsSearchable(v, r, w, at);
    OpenStays(v, r, w, at);
    forall k: nat | 1 <= k <= n + 1
      ensures DirectoryAt(w, [k]).Some?
    {
      if k <= n { ReachedAfter(v, r, w, at, [k]); }
    }
  }

  lemma {:induction false} Crowd(n: nat) returns (v: Volume, l: Layout)
    requires n <= 22
    ensures v == After(Formatted(DISK, ZERO_MAP), Makings(n)) && Run(Formatted(DISK, ZERO_MAP), Makings(n))
    ensures Crowded(v, l, n)
    decreases n
  {
    hide Formatted, Step, Admissible, Crowded, Making;
    if n == 0 {
      v, l := FreshIsCrowded();
    } else {
      var u, k := Crowd(n - 1);
      v, l := OneMoreDirectory(u, k, n - 1);
      RunAppend(Formatted(DISK, ZERO_MAP), Makings(n - 1), Making(n));
    }
  }

  function RootPaths(n: nat): seq<Path> {
    seq(n, k requires 0 <= k < n => [k + 2])
  }

  lemma RootHasKids(v: Volume, l: Layout)
    requires Crowded(v, l, 22)
    ensures |Kids(v, [])| >= 21
  {
    hide DirectoryAt, Kids, Opens, Ready, TableAt, AllOpen;
    RootWalks(v, l);
    KidsAreKids(v, []);
    var paths := RootPaths(21);
    forall i, j | 0 <= i < j < 21
      ensures paths[i] != paths[j]
    {
      assert paths[i][0] != paths[j][0];
    }
    forall p | p in paths
      ensures p in Kids(v, [])
    {
      var k :| 0 <= k < 21 && p == [k + 2];
      assert p[..|p| - 1] == [] && KidOf(v, [[]], p);
    }
    DistinctWithin(paths, Kids(v, []));
  }

  lemma RootWalks(v: Volume, l: Layout)
    requires Crowded(v, l, 22)
    ensures Opens(v, []) && Searchable(v)
  {
    hide Searchable, Opens, VolumeOk, PlainEntries;
    RootOpens(v);
  }

  lemma FirstTurn(v: Volume)
    ensures |Level(v, 0)| == 1 && Ahead(v, 0, 1) == Kids(v, [])
  {
    hide Kids;
    RootLevel(v);
    var root: seq<Path> := [[]];
    assert root[..1] == root && root[..0] == [] && root[1..] == [];
    assert KidsOfAll(v, root) == KidsOfAll(v, []) + Kids(v, []);
  }

  /** After twenty-two directories have been made in the root, the queue overflows in the first turn of the walk. */
  lemma QueueOverflows()
    ensures var v0 := Formatted(DISK, ZERO_MAP);
      var v := After(v0, Makings(22));
      Run(v0, Makings(22)) && Searchable(v) && !QueueFits(v)
  {
    hide Formatted, Run, After, Searchable, Kids, Ahead, Level, Crowded, Makings;
    var v, l := Crowd(22);
    RootWalks(v, l);
    RootHasKids(v, l);
    FirstTurn(v);
    assert |Ahead(v, 0, 1)| > MAX_QUEUE_SIZE;
  }
}
