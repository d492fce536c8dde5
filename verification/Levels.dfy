/**
  The order of the shell's breadth-first walk (src/user-shell.c), level by level,
  and what a queue of twenty drops of it.
*/
module Levels {
  import opened Wrappers
  import opened Bytes
  import opened Directory
  import opened Volumes
  import opened Views
  import opened Tokenizer
  import opened PendingQueue

  // ---------- the directories the walk can read ----------

  /** A name copied as a C string into eight zero bytes: what lies behind its NUL is lost. */
  function Padded(name: Name): Name {
    seq(8, k requires 0 <= k < 8 => if k < Nul(name, 0) then name[k] else 0)
  }

  /** read_directory answers 0 for this name: the first slot that has it holds a directory. */
  predicate Answers(t: Table, name: Name) {
    var k := FindName(t, name, 0);
    name != ZERO_NAME && k < 64 && t[k].IsDirectory() && t[k].filesize == 0
  }

  /** The directory at path is found when its own name, copied as a C string, is looked up in its parent. */
  predicate Opens(v: Volume, path: Path) {
    DirectoryAt(v, path).Some? &&
    var d := DirectoryAt(v, path).value;
    ParentOf(v, d) < 2048 && Answers(TableAt(v, ParentOf(v, d)), Padded(TableAt(v, d)[0].name))
  }

  // ---------- the order of the walk ----------

  /** The directory entered in slot i of the directory at path, if there is one. */
  function KidAt(v: Volume, path: Path, i: nat): seq<Path> {
    if DirectoryAt(v, path + [i]).Some? then [path + [i]] else []
  }

  function KidsFrom(v: Volume, path: Path, i: nat): seq<Path>
    requires i <= 64
    decreases 64 - i
  {
    if i == 64 then [] else KidAt(v, path, i) + KidsFrom(v, path, i + 1)
  }

  /** At the root the walk starts at slot 2: slot 1 is where the shell's own file is kept. */
  function FirstSlot(path: Path): nat {
    if path == [] then 2 else 1
  }

  /** What the walk queues at a directory: nothing when it cannot be read. */
  function Kids(v: Volume, path: Path): seq<Path> {
    if Opens(v, path) then KidsFrom(v, path, FirstSlot(path)) else []
  }

  function KidsOfAll(v: Volume, paths: seq<Path>): seq<Path> {
    if paths == [] then [] else KidsOfAll(v, paths[..|paths| - 1]) + Kids(v, paths[|paths| - 1])
  }

  /** The directories n steps below the root, in the order the walk comes to them. */
  function Level(v: Volume, n: nat): seq<Path> {
    if n == 0 then [[]] else KidsOfAll(v, Level(v, n - 1))
  }

  /** The first n levels. */
  function Order(v: Volume, n: nat): seq<Path> {
    if n == 0 then [] else Order(v, n - 1) + Level(v, n - 1)
  }

  /** A path that the walk can take: not through root slot 1, and every directory above can be read. */
  predicate Walkable(v: Volume, path: Path) {
    && DirectoryAt(v, path).Some? && (path == [] || path[0] != 1)
    && forall k :: 0 <= k < |path| ==> Opens(v, path[..k])
  }

  lemma {:induction false} KidsShape(v: Volume, path: Path, i: nat)
    requires i <= 64
    ensures forall p :: p in KidsFrom(v, path, i) <==>
      |p| == |path| + 1 && p[..|path|] == path && i <= p[|path|] < 64 && DirectoryAt(v, p).Some?
    ensures forall a, b :: 0 <= a < b < |KidsFrom(v, path, i)| ==>
      KidsFrom(v, path, i)[a] != KidsFrom(v, path, i)[b]
    decreases 64 - i
  {
    hide DirectoryAt;
    if i < 64 {
      KidsShape(v, path, i + 1);
      ExtendedPath(path, i);
    }
  }

  lemma ExtendedPath(path: Path, i: nat)
    ensures |path + [i]| == |path| + 1 && (path + [i])[..|path|] == path && (path + [i])[|path|] == i
    ensures forall p: Path :: |p| == |path| + 1 && p[..|path|] == path && p[|path|] == i ==> p == path + [i]
  {
    forall p: Path | |p| == |path| + 1 && p[..|path|] == path && p[|path|] == i
      ensures p == path + [i]
    {
      assert p == p[..|path|] + [i];
    }
  }

  /** The last step of a path to a directory is a slot from 1 on. */
  lemma LastSlot(v: Volume, path: Path)
    requires path != [] && DirectoryAt(v, path).Some?
    ensures 1 <= path[|path| - 1] < 64 && DirectoryAt(v, path[..|path| - 1]).Some?
  {
  }

  /** p is a child of some path in the list. */
  predicate KidOf(v: Volume, paths: seq<Path>, p: Path) {
    && p != [] && p[..|p| - 1] in paths && Opens(v, p[..|p| - 1])
    && p[|p| - 1] >= FirstSlot(p[..|p| - 1]) && DirectoryAt(v, p).Some?
  }

  predicate Distinct(paths: seq<Path>) {
    forall a, b :: 0 <= a < b < |paths| ==> paths[a] != paths[b]
  }

  lemma DistinctTogether(a: seq<Path>, b: seq<Path>)
    requires Distinct(a) && Distinct(b) && forall p :: p in a ==> p !in b
    ensures Distinct(a + b)
    ensures forall p :: p in a + b <==> p in a || p in b
  {
    forall i, j | 0 <= i < j < |a + b|
      ensures (a + b)[i] != (a + b)[j]
    {
      if i < |a| <= j { assert a[i] in a && b[j - |a|] in b; }
    }
  }

  lemma KidsAreKids(v: Volume, path: Path)
    ensures forall p :: p in Kids(v, path) <==> KidOf(v, [path], p)
    ensures Distinct(Kids(v, path))
  {
    hide DirectoryAt, KidsFrom, Opens;
    KidsShape(v, path, FirstSlot(path));
    forall p
      ensures p in Kids(v, path) <==> KidOf(v, [path], p)
    {
      if KidOf(v, [path], p) {
        LastSlot(v, p);
        assert p[..|p| - 1] == path;
      }
    }
  }

  lemma {:induction false} KidsOfAllShape(v: Volume, paths: seq<Path>)
    requires Distinct(paths)
    ensures forall p :: p in KidsOfAll(v, paths) <==> KidOf(v, paths, p)
    ensures Distinct(KidsOfAll(v, paths))
  {
    hide DirectoryAt, Kids, Opens;
    if paths != [] {
      var n := |paths| - 1;
      KidsOfAllShape(v, paths[..n]);
      KidsAreKids(v, paths[n]);
      assert paths == paths[..n] + [paths[n]];
      assert paths[n] !in paths[..n];
      DistinctTogether(KidsOfAll(v, paths[..n]), Kids(v, paths[n]));
    }
  }

  lemma RootIsWalkable(v: Volume)
    ensures Walkable(v, [])
  {
  }

  lemma WalkableStep(v: Volume, p: Path)
    requires p != []
    ensures Walkable(v, p) <==>
      && DirectoryAt(v, p).Some? && Walkable(v, p[..|p| - 1]) && Opens(v, p[..|p| - 1])
      && p[|p| - 1] >= FirstSlot(p[..|p| - 1])
  {
    hide Opens;
    var q := p[..|p| - 1];
    if DirectoryAt(v, p).Some? { LastSlot(v, p); }
    if |p| > 1 { assert q[0] == p[0]; }
    hide DirectoryAt;
    forall k | 0 <= k < |q|
      ensures q[..k] == p[..k]
    {
    }
  }

  /** The n-th level: every walkable path of n steps, once. */
  lemma {:induction false} LevelShape(v: Volume, n: nat)
    ensures forall p :: p in Level(v, n) <==> |p| == n && Walkable(v, p)
    ensures Distinct(Level(v, n))
  {
    hide DirectoryAt, KidsOfAll, Walkable, Opens;
    if n == 0 {
      RootIsWalkable(v);
    } else {
      LevelShape(v, n - 1);
      KidsOfAllShape(v, Level(v, n - 1));
      forall p: Path | p != []
        ensures KidOf(v, Level(v, n - 1), p) <==> |p| == n && Walkable(v, p)
      {
        WalkableStep(v, p);
      }
    }
  }

  lemma {:induction false} OrderShape(v: Volume, n: nat)
    ensures forall p :: p in Order(v, n) <==> |p| < n && Walkable(v, p)
    ensures Distinct(Order(v, n))
    ensures forall a, b :: 0 <= a < b < |Order(v, n)| ==> |Order(v, n)[a]| <= |Order(v, n)[b]|
  {
    hide Walkable, Level;
    if n > 0 {
      OrderShape(v, n - 1);
      LevelShape(v, n - 1);
      forall a | 0 <= a < |Order(v, n)|
        ensures a < |Order(v, n - 1)| ==> Order(v, n)[a] in Order(v, n - 1)
        ensures a >= |Order(v, n - 1)| ==> Order(v, n)[a] in Level(v, n - 1)
      {
      }
    }
  }

  lemma {:induction false} NoDeeperLevel(v: Volume, n: nat, m: nat)
    requires Level(v, n) == [] && n <= m
    ensures Level(v, m) == [] && Order(v, m) == Order(v, n)
    decreases m
  {
    hide Kids;
    if n < m { NoDeeperLevel(v, n, m - 1); }
  }

  lemma {:induction false} ShallowPath(v: Volume, path: Path, n: nat)
    requires Level(v, n) == [] && Walkable(v, path)
    ensures |path| < n
  {
    hide Level, Walkable;
    LevelShape(v, |path|);
    if |path| >= n { NoDeeperLevel(v, n, |path|); }
  }

  /** Breadth first, complete and without repetition: in a tree less than n deep the order of the walk holds every
      directory it can walk to exactly once, the nearer ones first. */
  lemma WalkIsComplete(v: Volume, n: nat)
    requires WellFormed(v) && Level(v, n) == []
    ensures forall p :: Walkable(v, p) <==> p in Order(v, n)
    ensures forall a, b :: 0 <= a < b < |Order(v, n)| ==>
      && |Order(v, n)[a]| <= |Order(v, n)[b]|
      && DirectoryAt(v, Order(v, n)[a]) != DirectoryAt(v, Order(v, n)[b])
  {
    OrderShape(v, n);
    forall p | Walkable(v, p)
      ensures |p| < n
    {
      ShallowPath(v, p, n);
    }
    forall a, b | 0 <= a < b < |Order(v, n)|
      ensures DirectoryAt(v, Order(v, n)[a]) != DirectoryAt(v, Order(v, n)[b])
    {
      var p, q := Order(v, n)[a], Order(v, n)[b];
      assert p in Order(v, n) && q in Order(v, n);
      if DirectoryAt(v, p) == DirectoryAt(v, q) { PathIsUnique(v, q, p); }
    }
  }

  // ---------- where the walk stands ----------

  /** What is pending when j directories of level n are done. */
  function Ahead(v: Volume, n: nat, j: nat): seq<Path>
    requires j <= |Level(v, n)|
  {
    Level(v, n)[j..] + KidsOfAll(v, Level(v, n)[..j])
  }

  /** What has been visited then. */
  function Behind(v: Volume, n: nat, j: nat): seq<Path>
    requires j <= |Level(v, n)|
  {
    Order(v, n) + Level(v, n)[..j]
  }

  /** Whenever the walk is done with j directories of a level, the rest of the level and
      the subdirectories met so far fit into the queue. */
  ghost predicate QueueFits(v: Volume) {
    forall n, j :: 0 <= n < 16 && 0 <= j <= |Level(v, n)| ==> |Ahead(v, n, j)| <= MAX_QUEUE_SIZE
  }

  lemma WalkStep(v: Volume, n: nat, j: nat)
    requires j < |Level(v, n)|
    ensures Ahead(v, n, j) != [] && Ahead(v, n, j)[0] == Level(v, n)[j]
    ensures Ahead(v, n, j + 1) == Ahead(v, n, j)[1..] + Kids(v, Level(v, n)[j])
    ensures Behind(v, n, j + 1) == Behind(v, n, j) + [Level(v, n)[j]]
  {
    hide Level, Kids, Order;
    var l := Level(v, n);
    assert l[..j + 1][..j] == l[..j] && l[..j + 1][j] == l[j];
  }

  lemma WalkTurn(v: Volume, n: nat)
    ensures Ahead(v, n, |Level(v, n)|) == Ahead(v, n + 1, 0)
    ensures Behind(v, n, |Level(v, n)|) == Behind(v, n + 1, 0)
  {
    hide Kids;
    var l := Level(v, n);
    assert l[..|l|] == l && Level(v, n + 1)[..0] == [];
  }

  lemma RootLevel(v: Volume)
    ensures Level(v, 0) == [[]] && Order(v, 0) == [] && Ahead(v, 0, 0) == [[]] && Behind(v, 0, 0) == []
  {
  }

  // ---------- what the queue drops ----------

  /** What is left of these paths in the queue: the first twenty. */
  function Queued(paths: seq<Path>): (q: seq<Path>)
    ensures |q| <= MAX_QUEUE_SIZE
  {
    if |paths| <= MAX_QUEUE_SIZE then paths else paths[..MAX_QUEUE_SIZE]
  }

  lemma QueuedTwice(a: seq<Path>, b: seq<Path>)
    ensures Queued(Queued(a) + b) == Queued(a + b)
  {
  }

  /** What holds of every walk: no directory twice, and each but the root after the one it is entered in. */
  ghost predicate Sane(v: Volume, visited: seq<Path>, pending: seq<Path>) {
    && Distinct(visited + pending)
    && forall p :: p in visited + pending ==> Walkable(v, p) && (p == [] || p[..|p| - 1] in visited)
  }

  /** Nothing has been dropped yet: the walk stands at directory j of level n. */
  ghost predicate OnTrack(v: Volume, visited: seq<Path>, pending: seq<Path>, n: nat, j: nat) {
    && n <= 16 && j <= |Level(v, n)| && (j == |Level(v, n)| ==> j == 0)
    && pending == Ahead(v, n, j) && visited == Behind(v, n, j) && FitsUpTo(v, n, j)
  }

  ghost predicate FitsUpTo(v: Volume, n: nat, j: nat) {
    forall m, i :: 0 <= m < 16 && 0 <= i <= |Level(v, m)| && (m < n || (m == n && i <= j)) ==>
      |Ahead(v, m, i)| <= MAX_QUEUE_SIZE
  }

  lemma FitsHere(v: Volume, n: nat, j: nat)
    requires FitsUpTo(v, n, j) && n < 16 && j <= |Level(v, n)|
    ensures |Ahead(v, n, j)| <= MAX_QUEUE_SIZE
  {
    hide Level, Ahead;
  }

  lemma FitsNext(v: Volume, n: nat, j: nat)
    requires FitsUpTo(v, n, j) && j < |Level(v, n)| && |Ahead(v, n, j + 1)| <= MAX_QUEUE_SIZE
    ensures FitsUpTo(v, n, j + 1)
  {
    hide Level, Ahead;
  }

  lemma FitsTurn(v: Volume, n: nat)
    requires FitsUpTo(v, n, |Level(v, n)|) && |Ahead(v, n + 1, 0)| <= MAX_QUEUE_SIZE
    ensures FitsUpTo(v, n + 1, 0)
  {
    hide Level, Ahead;
  }

  /** Directory x has been dropped: it is entered in one that has been visited, and will not come up again. */
  ghost predicate Lost(v: Volume, visited: seq<Path>, pending: seq<Path>, x: Path) {
    !QueueFits(v) && Walkable(v, x) && x != [] && x[..|x| - 1] in visited && x !in visited + pending
  }

  ghost predicate Track(v: Volume, visited: seq<Path>, pending: seq<Path>, n: nat, j: nat, lost: Option<Path>) {
    match lost
    case None => OnTrack(v, visited, pending, n, j)
    case Some(x) => Lost(v, visited, pending, x)
  }

  lemma FirstIsNew(visited: seq<Path>, pending: seq<Path>)
    requires Distinct(visited + pending) && pending != []
    ensures pending[0] !in visited
  {
    var all := visited + pending;
    assert all[|visited|] == pending[0];
    forall i | 0 <= i < |visited|
      ensures visited[i] != pending[0]
    {
      assert all[i] == visited[i];
    }
  }

  lemma KidsOfPath(v: Volume, path: Path)
    requires Walkable(v, path)
    ensures Distinct(Kids(v, path))
    ensures forall p :: p in Kids(v, path) ==> p != [] && p[..|p| - 1] == path && Walkable(v, p)
  {
    hide DirectoryAt, Kids, Walkable;
    KidsAreKids(v, path);
    forall p | p in Kids(v, path)
      ensures p != [] && p[..|p| - 1] == path && Walkable(v, p)
    {
      WalkableStep(v, p);
    }
  }

  /** Visiting the first pending directory and queueing all it holds, before the queue cuts off. */
  lemma SaneStep(v: Volume, visited: seq<Path>, pending: seq<Path>)
    requires Sane(v, visited, pending) && pending != []
    ensures Sane(v, visited + [pending[0]], pending[1..] + Kids(v, pending[0]))
    ensures forall p :: p in Kids(v, pending[0]) ==> p !in visited + pending
  {
    hide Walkable, Kids, Distinct;
    var path, all, kids := pending[0], visited + pending, Kids(v, pending[0]);
    assert visited + [path] + pending[1..] == all && all[|visited|] == path;
    FirstIsNew(visited, pending);
    KidsOfPath(v, path);
    assert forall p :: p in kids ==> p !in all;
    DistinctTogether(all, kids);
    assert visited + [path] + (pending[1..] + kids) == all + kids;
    assert forall p :: p in visited + [path] <==> p in visited || p == path;
  }

  lemma SanePrefix(v: Volume, visited: seq<Path>, pending: seq<Path>)
    requires Sane(v, visited, pending)
    ensures Sane(v, visited, Queued(pending))
    ensures |pending| > MAX_QUEUE_SIZE ==> pending[MAX_QUEUE_SIZE] !in visited + Queued(pending)
  {
    hide Walkable;
    var all := visited + pending;
    assert visited + Queued(pending) == all[..|visited + Queued(pending)|];
    if |pending| > MAX_QUEUE_SIZE { assert all[|visited| + MAX_QUEUE_SIZE] == pending[MAX_QUEUE_SIZE]; }
  }

  lemma LostStays(v: Volume, visited: seq<Path>, pending: seq<Path>, x: Path)
    requires Sane(v, visited, pending) && pending != [] && Lost(v, visited, pending, x)
    ensures Lost(v, visited + [pending[0]], Queued(pending[1..] + Kids(v, pending[0])), x)
  {
    hide Walkable, Kids, QueueFits;
    SaneStep(v, visited, pending);
    var path, more := pending[0], pending[1..] + Kids(v, pending[0]);
    KidsOfPath(v, path);
    FirstIsNew(visited, pending);
    assert x !in Kids(v, path) && x !in visited + [path];
    assert forall p :: p in Queued(more) ==> p in more;
  }

  lemma TrackStep(v: Volume, visited: seq<Path>, pending: seq<Path>, n: nat, j: nat, lost: Option<Path>)
    returns (n': nat, j': nat, lost': Option<Path>)
    requires Level(v, 16) == [] && Sane(v, visited, pending) && pending != []
    requires Track(v, visited, pending, n, j, lost)
    ensures var more := Queued(pending[1..] + Kids(v, pending[0]));
      Sane(v, visited + [pending[0]], more) && Track(v, visited + [pending[0]], more, n', j', lost')
  {
    hide Sane, OnTrack, Lost, Kids, Level;
    SaneStep(v, visited, pending);
    SanePrefix(v, visited + [pending[0]], pending[1..] + Kids(v, pending[0]));
    n', j', lost' := n, j, lost;
    if lost.Some? {
      LostStays(v, visited, pending, lost.value);
    } else {
      n', j', lost' := OnTrackStep(v, visited, pending, n, j);
    }
  }

  lemma OnTrackStep(v: Volume, visited: seq<Path>, pending: seq<Path>, n: nat, j: nat)
    returns (n': nat, j': nat, lost: Option<Path>)
    requires Level(v, 16) == [] && Sane(v, visited, pending) && pending != [] && OnTrack(v, visited, pending, n, j)
    ensures Track(v, visited + [pending[0]], Queued(pending[1..] + Kids(v, pending[0])), n', j', lost)
  {
    hide Level, Kids, KidsOfAll, Order, Ahead, Behind, FitsUpTo, Sane;
    if j == |Level(v, n)| { NoneAhead(v, n); }
    assert n < 16;
    FitsHere(v, n, j);
    WalkStep(v, n, j);
    var more := pending[1..] + Kids(v, pending[0]);
    if |more| <= MAX_QUEUE_SIZE {
      lost := None;
      FitsNext(v, n, j);
      if j + 1 == |Level(v, n)| {
        WalkTurn(v, n);
        FitsTurn(v, n);
        n', j' := n + 1, 0;
      } else {
        n', j' := n, j + 1;
      }
    } else {
      n', j' := n, j;
      lost := Some(more[MAX_QUEUE_SIZE]);
      DroppedIsLost(v, visited, pending);
      assert |Ahead(v, n, j + 1)| > MAX_QUEUE_SIZE;
    }
  }

  lemma NoneAhead(v: Volume, n: nat)
    requires Level(v, n) == []
    ensures Ahead(v, n, 0) == []
  {
    hide Level;
  }

  lemma DroppedIsLost(v: Volume, visited: seq<Path>, pending: seq<Path>)
    requires Sane(v, visited, pending) && pending != [] && |pending| <= MAX_QUEUE_SIZE
    requires |pending[1..] + Kids(v, pending[0])| > MAX_QUEUE_SIZE
    ensures var more := pending[1..] + Kids(v, pending[0]);
      var x := more[MAX_QUEUE_SIZE];
      && Walkable(v, x) && x != [] && x[..|x| - 1] == pending[0]
      && x !in visited + [pending[0]] + Queued(more)
  {
    hide Walkable, Kids;
    var more := pending[1..] + Kids(v, pending[0]);
    SaneStep(v, visited, pending);
    SanePrefix(v, visited + [pending[0]], more);
    KidsOfPath(v, pending[0]);
    assert more[MAX_QUEUE_SIZE] in Kids(v, pending[0]);
  }

  lemma TrackEnds(v: Volume, visited: seq<Path>, n: nat, j: nat, lost: Option<Path>)
    requires Level(v, 16) == [] && Track(v, visited, [], n, j, lost)
    ensures visited == Order(v, 16) <==> QueueFits(v)
  {
    hide Level, Order, KidsOfAll, Walkable;
    if lost.Some? {
      OrderShape(v, 16);
      ShallowPath(v, lost.value, 16);
    } else {
      assert j == |Level(v, n)|;
      NoDeeperLevel(v, n, 16);
      forall m | n <= m < 16
        ensures Level(v, m) == [] && Ahead(v, m, 0) == []
      {
        NoDeeperLevel(v, n, m);
        NoneAhead(v, m);
      }
      BehindStart(v, n);
    }
  }

  lemma BehindStart(v: Volume, n: nat)
    ensures Behind(v, n, 0) == Order(v, n)
  {
  }

  lemma {:induction false} DistinctWithin(a: seq<Path>, b: seq<Path>)
    requires Distinct(a) && forall p :: p in a ==> p in b
    ensures |a| <= |b|
  {
    if a != [] {
      var n := |a| - 1;
      assert a[n] in a;
      var i :| 0 <= i < |b| && b[i] == a[n];
      var rest := b[..i] + b[i + 1..];
      forall p | p in a[..n]
        ensures p in rest
      {
        var k :| 0 <= k < n && a[k] == p;
        assert a[k] in a;
        var h :| 0 <= h < |b| && b[h] == p;
        assert if h < i then rest[h] == p else rest[h - 1] == p;
      }
      DistinctWithin(a[..n], rest);
    }
  }

  /** A walk never holds more directories than there are. */
  lemma WalkIsBounded(v: Volume, visited: seq<Path>, pending: seq<Path>)
    requires Level(v, 16) == [] && Sane(v, visited, pending)
    ensures |visited| + |pending| <= |Order(v, 16)|
  {
    hide Level, Order, Walkable;
    OrderShape(v, 16);
    forall p | p in visited + pending
      ensures p in Order(v, 16)
    {
      ShallowPath(v, p, 16);
    }
    DistinctWithin(visited + pending, Order(v, 16));
  }

  lemma TrackStarts(v: Volume)
    ensures Sane(v, [], [[]]) && Track(v, [], [[]], 0, 0, None)
  {
    hide Level, KidsOfAll, Order, Ahead, Behind;
    RootLevel(v);
    RootIsWalkable(v);
  }

  lemma FirstPending(v: Volume, visited: seq<Path>, pending: seq<Path>)
    requires Sane(v, visited, pending) && pending != []
    ensures Walkable(v, pending[0]) && pending[0] !in visited
  {
    hide Walkable;
    var all := visited + pending;
    assert all[|visited|] == pending[0] && pending[0] in all;
    FirstIsNew(visited, pending);
  }

  lemma VisitedIsWalkable(v: Volume, visited: seq<Path>)
    requires Sane(v, visited, [])
    ensures Distinct(visited) && forall p :: p in visited ==> Walkable(v, p)
  {
    hide Walkable;
    assert visited + [] == visited;
  }

  // ---------- the whole walk ----------

  /** Where the walk stands: sane, on the track or with a directory lost, the root visited first. */
  ghost predicate Walking(v: Volume, visited: seq<Path>, pending: seq<Path>, n: nat, j: nat, lost: Option<Path>,
                          isFirst: bool)
  {
    && Sane(v, visited, pending) && Track(v, visited, pending, n, j, lost)
    && if isFirst then visited == [] && pending == [[]] else [] in visited
  }

  lemma WalkingStarts(v: Volume)
    ensures Walking(v, [], [[]], 0, 0, None, true)
  {
    hide Sane, Track;
    TrackStarts(v);
  }

  lemma WalkingStep(v: Volume, visited: seq<Path>, pending: seq<Path>, n: nat, j: nat, lost: Option<Path>,
                    isFirst: bool)
    returns (n': nat, j': nat, lost': Option<Path>)
    requires Level(v, 16) == [] && pending != [] && Walking(v, visited, pending, n, j, lost, isFirst)
    ensures Walkable(v, pending[0]) && isFirst == (pending[0] == []) && |visited| < |Order(v, 16)|
    ensures Walking(v, visited + [pending[0]], Queued(pending[1..] + Kids(v, pending[0])), n', j', lost', false)
  {
    hide Sane, Track, Level, Order, Kids, Walkable, Queued;
    WalkIsBounded(v, visited, pending);
    FirstPending(v, visited, pending);
    n', j', lost' := TrackStep(v, visited, pending, n, j, lost);
    assert [] in visited + [pending[0]];
  }

  /** In the end all has been visited exactly when the queue was never too small. */
  lemma WalkingEnds(v: Volume, visited: seq<Path>, n: nat, j: nat, lost: Option<Path>, isFirst: bool)
    requires Level(v, 16) == [] && Walking(v, visited, [], n, j, lost, isFirst)
    ensures visited == Order(v, 16) <==> QueueFits(v)
    ensures Distinct(visited) && forall p :: p in visited ==> Walkable(v, p)
  {
    hide Sane, Track, Level, Order, Walkable;
    TrackEnds(v, visited, n, j, lost);
    VisitedIsWalkable(v, visited);
  }

  // ---------- when nothing is dropped ----------

  lemma PartOfKids(v: Volume, paths: seq<Path>, j: nat)
    requires Distinct(paths) && j <= |paths|
    ensures Distinct(KidsOfAll(v, paths[..j]))
    ensures forall p :: p in KidsOfAll(v, paths[..j]) ==> p in KidsOfAll(v, paths)
  {
    hide DirectoryAt, KidsOfAll;
    KidsOfAllShape(v, paths[..j]);
    KidsOfAllShape(v, paths);
  }

  lemma KidsAreNext(v: Volume, n: nat, j: nat)
    requires j <= |Level(v, n)|
    ensures var b := KidsOfAll(v, Level(v, n)[..j]);
      Distinct(b) && forall p :: p in b ==> |p| == n + 1 && Walkable(v, p)
  {
    hide Walkable, DirectoryAt, KidsOfAll;
    LevelShape(v, n);
    LevelShape(v, n + 1);
    PartOfKids(v, Level(v, n), j);
  }

  lemma AheadShape(v: Volume, n: nat, j: nat)
    requires j <= |Level(v, n)|
    ensures Distinct(Ahead(v, n, j)) && forall p :: p in Ahead(v, n, j) ==> Walkable(v, p)
  {
    hide Walkable, DirectoryAt, KidsOfAll, Level;
    var l := Level(v, n);
    LevelShape(v, n);
    KidsAreNext(v, n, j);
    var a, b := l[j..], KidsOfAll(v, l[..j]);
    assert forall p :: p in a ==> p in l;
    DistinctTogether(a, b);
  }

  lemma AheadIsWithin(v: Volume, n: nat, j: nat)
    requires Level(v, 16) == [] && j <= |Level(v, n)|
    ensures |Ahead(v, n, j)| <= |Order(v, 16)|
  {
    hide Level, Ahead, Order, Walkable;
    AheadShape(v, n, j);
    OrderShape(v, 16);
    forall p | p in Ahead(v, n, j)
      ensures p in Order(v, 16)
    {
      ShallowPath(v, p, 16);
    }
    DistinctWithin(Ahead(v, n, j), Order(v, 16));
  }

  /** As long as there are no more than twenty directories to visit, the queue cannot overflow. */
  lemma SmallTreesFit(v: Volume)
    requires Level(v, 16) == [] && |Order(v, 16)| <= MAX_QUEUE_SIZE
    ensures QueueFits(v)
  {
    hide Level, Order, Ahead;
    forall n, j | 0 <= n < 16 && 0 <= j <= |Level(v, n)|
      ensures |Ahead(v, n, j)| <= MAX_QUEUE_SIZE
    {
      AheadIsWithin(v, n, j);
    }
  }
}
