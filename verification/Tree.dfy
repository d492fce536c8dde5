/**
  The directory tree that the tables and the allocation table of a volume
  describe, and the invariant that keeps it a tree whose chains never cross.

  A layout is the proof's witness: the depth of every directory that can be
  reached from the root, and for every cluster in use the directory and slot
  that own it. Clusters that are allocated but owned by nobody are allowed.
*/
module Tree {
  import opened Bytes
  import opened Directory
  import opened Fat

  const ROOT: DataCluster := 2
  const MAX_FILE_SIZE := 522240   // 255 clusters: the cluster count of write is an 8-bit number
  const ROOT_NAME: Name := [0x52, 0x4F, 0x4F, 0x54, 0, 0, 0, 0]

  type Tables = t: seq<Table> | |t| == 2048 witness seq<Table>(2048, _ => EMPTY_TABLE)

  datatype Structure = Structure(tables: Tables, fat: Map)

  datatype Layout = Layout(depth: map<DataCluster, nat>, owner: map<DataCluster, (DataCluster, nat)>)

  function ClustersFor(size: nat): nat {
    if size == 0 then 1 else (size + 2047) / 2048
  }

  /** A directory entered in slot d of its parent points back at the parent and sits one level below it. */
  ghost predicate SubdirectoryOk(s: Structure, l: Layout, d: DataCluster, e: Entry) {
    && e.filesize == 0
    && 2 <= e.Start() < 512
    && d in l.depth && e.Start() in l.depth && l.depth[e.Start()] == l.depth[d] + 1
    && s.tables[e.Start()][0].Start() == d
    && s.tables[e.Start()][0].name == e.name
  }

  /** An occupied slot owns every cluster of a proper chain of the right length. */
  ghost predicate EntryOk(s: Structure, l: Layout, d: DataCluster, i: nat)
    requires i < 64
  {
    var e := s.tables[d][i];
    && e.Used() && e.name != ZERO_NAME
    && 3 <= e.Start() && Proper(s.fat, e.Start())
    && |Chain(s.fat, e.Start())| == ClustersFor(e.filesize)
    && (forall c :: c in Chain(s.fat, e.Start()) ==> c in l.owner && l.owner[c] == (d, i))
    && (if e.IsDirectory() then SubdirectoryOk(s, l, d, e)
        else e.attribute == ATTR_ARCHIVE && 1 <= e.filesize <= MAX_FILE_SIZE)
  }

  ghost predicate SelfOk(e: Entry) {
    e.Used() && e.IsDirectory() && e.filesize == 0
  }

  /** Every directory but the root is entered in the slot that owns it. */
  ghost predicate EnteredOk(s: Structure, l: Layout, d: DataCluster) {
    if d == ROOT then
      s.tables[d][0].Start() == ROOT && s.tables[d][0].name == ROOT_NAME
    else
      && d in l.owner
      && var (p, i) := l.owner[d];
      && p in l.depth && 1 <= i < 64
      && s.tables[p][i].Used() && s.tables[p][i].IsDirectory() && s.tables[p][i].Start() == d
  }

  predicate UniqueNames(t: Table) {
    forall i, j :: 1 <= i < j < 64 && t[i].Used() && t[j].Used() ==> t[i].name != t[j].name
  }

  ghost predicate DirectoryOk(s: Structure, l: Layout, d: DataCluster) {
    && s.fat[d] == END_OF_FILE
    && SelfOk(s.tables[d][0])
    && EnteredOk(s, l, d)
    && UniqueNames(s.tables[d])
    && (forall i :: 1 <= i < 64 ==>
          s.tables[d][i] == EMPTY_ENTRY || EntryOk(s, l, d, i))
  }

  ghost predicate TreeOk(s: Structure, l: Layout) {
    && ROOT in l.depth && l.depth[ROOT] == 0
    && (forall d :: d in l.depth ==> DirectoryOk(s, l, d))
    && (forall c :: c in l.owner ==> c != ROOT && s.fat[c] != EMPTY)
  }

  /** The clusters the tree depends on. */
  function Live(l: Layout): set<DataCluster> {
    {ROOT} + l.owner.Keys
  }

  ghost predicate SameOn(s: Structure, t: Structure, cs: set<DataCluster>) {
    forall c :: c in cs ==> t.fat[c] == s.fat[c] && t.tables[c] == s.tables[c]
  }

  lemma DirectoriesAreLive(s: Structure, l: Layout)
    requires TreeOk(s, l)
    ensures forall d :: d in l.depth ==> DirectoryOk(s, l, d) && d in Live(l)
  {
  }

  lemma EntryFrame(s: Structure, t: Structure, l: Layout, d: DataCluster, i: nat)
    requires i < 64 && d in l.depth
    requires EntryOk(s, l, d, i) && SameOn(s, t, Live(l)) && t.tables[d] == s.tables[d]
    ensures EntryOk(t, l, d, i)
    ensures Chain(t.fat, t.tables[d][i].Start()) == Chain(s.fat, s.tables[d][i].Start())
  {
    var e := s.tables[d][i];
    ChainFrame(s.fat, t.fat, e.Start());
    ChainShape(s.fat, e.Start());
    assert Chain(s.fat, e.Start())[0] in Chain(s.fat, e.Start());
    assert e.Start() in Live(l);
  }

  /** Whatever happens outside the live clusters leaves the tree intact. */
  lemma TreeFrame(s: Structure, t: Structure, l: Layout)
    requires TreeOk(s, l) && SameOn(s, t, Live(l))
    ensures TreeOk(t, l)
  {
    forall d | d in l.depth
      ensures DirectoryOk(t, l, d)
    {
      assert DirectoryOk(s, l, d) && d in Live(l);
      forall i | 1 <= i < 64
        ensures t.tables[d][i] == EMPTY_ENTRY || EntryOk(t, l, d, i)
      {
        if s.tables[d][i] != EMPTY_ENTRY { EntryFrame(s, t, l, d, i); }
      }
      if d != ROOT {
        var (p, i) := l.owner[d];
        assert DirectoryOk(s, l, p) && p in Live(l);
      }
    }
    forall c | c in l.owner
      ensures t.fat[c] != EMPTY
    {
      assert c in Live(l);
    }
  }

  // ---------- entering a new file or directory ----------

  function SetSlot(s: Structure, d: DataCluster, i: nat, e: Entry): Structure
    requires i < 64
  {
    s.(tables := s.tables[d := s.tables[d][i := e]])
  }

  function Grown(l: Layout, p: DataCluster, n: nat, cs: seq<DataCluster>, directory: bool): Layout
    requires |cs| > 0 && p in l.depth
  {
    Layout(if directory then l.depth[cs[0] := l.depth[p] + 1] else l.depth,
           l.owner + map c | c in cs :: (p, n))
  }

  /** A fresh directory table: its own entry pointing at the parent, and 63 free slots. */
  predicate FreshTable(t: Table, name: Name, parent: int) {
    && t[0].Used() && t[0].IsDirectory() && t[0].filesize == 0
    && t[0].name == name && t[0].Start() == parent
    && forall i :: 1 <= i < 64 ==> t[i] == EMPTY_ENTRY
  }

  /** What may be put into slot n of directory p: an entry owning the otherwise unowned chain cs. */
  ghost predicate Enterable(s: Structure, l: Layout, p: DataCluster, n: nat, e: Entry, cs: seq<DataCluster>) {
    && p in l.depth && 1 <= n < 64 && s.tables[p][n] == EMPTY_ENTRY
    && e.Used() && e.name != ZERO_NAME
    && (forall i :: 1 <= i < 64 && s.tables[p][i].Used() ==> s.tables[p][i].name != e.name)
    && Proper(s.fat, e.Start()) && Chain(s.fat, e.Start()) == cs
    && |cs| == ClustersFor(e.filesize)
    && (forall c :: c in cs ==> c != ROOT && c !in l.owner)
    && (if e.IsDirectory() then
          e.filesize == 0 && FreshTable(s.tables[e.Start()], e.name, p)
        else
          e.attribute == ATTR_ARCHIVE && 1 <= e.filesize <= MAX_FILE_SIZE)
  }

  /** The clusters cs belong to no entry and hold no directory of the tree. */
  predicate Unowned(l: Layout, cs: seq<DataCluster>) {
    forall c :: c in cs ==> c !in l.owner && c !in l.depth
  }

  lemma OldEntryKept(s: Structure, l: Layout, p: DataCluster, n: nat, e: Entry, cs: seq<DataCluster>,
                     d: DataCluster, i: nat)
    requires |cs| > 0 && p in l.depth && 1 <= n < 64 && Unowned(l, cs)
    requires d in l.depth && i < 64 && (d, i) != (p, n) && EntryOk(s, l, d, i)
    ensures EntryOk(SetSlot(s, p, n, e), Grown(l, p, n, cs, e.IsDirectory()), d, i)
  {
    var m, t, k := s.tables[d][i], SetSlot(s, p, n, e), Grown(l, p, n, cs, e.IsDirectory());
    assert t.tables[d][i] == m;
    assert cs[0] in cs;
    if m.IsDirectory() {
      assert t.tables[m.Start()][0] == s.tables[m.Start()][0];
      assert SubdirectoryOk(t, k, d, m);
    }
  }

  lemma NewDirectoryOk(s: Structure, l: Layout, p: DataCluster, n: nat, e: Entry, cs: seq<DataCluster>)
    requires TreeOk(s, l) && |cs| > 0 && Enterable(s, l, p, n, e, cs) && e.IsDirectory()
    ensures DirectoryOk(SetSlot(s, p, n, e), Grown(l, p, n, cs, true), cs[0])
  {
    var c := cs[0];
    ChainShape(s.fat, e.Start());
    assert c == e.Start() && c in cs && |cs| == 1;
    assert c != p by { DirectoriesAreLive(s, l); }
    hide Live, TreeOk;
    var t, m := SetSlot(s, p, n, e), Grown(l, p, n, cs, true);
    assert t.tables[c] == s.tables[c] && t.tables[p][n] == e;
    assert t.fat[c] == END_OF_FILE by { assert LinkWord(cs, 0) == END_OF_FILE; }
    assert c in m.owner && m.owner[c] == (p, n) && p in m.depth;
    assert EnteredOk(t, m, c);
  }

  lemma OldDirectoryOk(s: Structure, l: Layout, p: DataCluster, n: nat, e: Entry, cs: seq<DataCluster>,
                       d: DataCluster)
    requires TreeOk(s, l) && |cs| > 0 && Enterable(s, l, p, n, e, cs) && d in l.depth && d != p
    ensures DirectoryOk(SetSlot(s, p, n, e), Grown(l, p, n, cs, e.IsDirectory()), d)
  {
    var t, m := SetSlot(s, p, n, e), Grown(l, p, n, cs, e.IsDirectory());
    UnownedChain(s, l, p, n, e, cs);
    assert DirectoryOk(s, l, d) && t.tables[d] == s.tables[d];
    forall i | 1 <= i < 64 && s.tables[d][i] != EMPTY_ENTRY
      ensures EntryOk(t, m, d, i)
    {
      OldEntryKept(s, l, p, n, e, cs, d, i);
    }
    StillEnteredAfterEnter(s, l, p, n, e, cs, d);
  }

  lemma UnownedChain(s: Structure, l: Layout, p: DataCluster, n: nat, e: Entry, cs: seq<DataCluster>)
    requires TreeOk(s, l) && Enterable(s, l, p, n, e, cs)
    ensures Unowned(l, cs)
  {
    DirectoriesAreLive(s, l);
  }

  lemma StillEnteredAfterEnter(s: Structure, l: Layout, p: DataCluster, n: nat, e: Entry, cs: seq<DataCluster>,
                               d: DataCluster)
    requires |cs| > 0 && p in l.depth && 1 <= n < 64 && Unowned(l, cs) && !s.tables[p][n].Used()
    requires d in l.depth && EnteredOk(s, l, d)
    ensures EnteredOk(SetSlot(s, p, n, e), Grown(l, p, n, cs, e.IsDirectory()), d)
  {
    var t, m := SetSlot(s, p, n, e), Grown(l, p, n, cs, e.IsDirectory());
    if d == ROOT {
      assert t.tables[d][0] == s.tables[d][0];
    } else {
      var (q, i) := l.owner[d];
      assert m.owner[d] == (q, i) && t.tables[q][i] == s.tables[q][i];
    }
  }

  lemma NewEntryOk(s: Structure, l: Layout, p: DataCluster, n: nat, e: Entry, cs: seq<DataCluster>)
    requires TreeOk(s, l) && |cs| > 0 && Enterable(s, l, p, n, e, cs)
    ensures EntryOk(SetSlot(s, p, n, e), Grown(l, p, n, cs, e.IsDirectory()), p, n)
  {
    var t, m := SetSlot(s, p, n, e), Grown(l, p, n, cs, e.IsDirectory());
    DirectoriesAreLive(s, l);
    ChainShape(s.fat, e.Start());
    assert cs[0] == e.Start() && cs[0] in cs && cs[0] != p;
    assert t.tables[p][n] == e && t.fat == s.fat;
    assert t.tables[cs[0]] == s.tables[cs[0]];
    if e.IsDirectory() {
      assert SubdirectoryOk(t, m, p, e);
    }
  }

  lemma ParentDirectoryOk(s: Structure, l: Layout, p: DataCluster, n: nat, e: Entry, cs: seq<DataCluster>)
    requires TreeOk(s, l) && |cs| > 0 && Enterable(s, l, p, n, e, cs)
    ensures DirectoryOk(SetSlot(s, p, n, e), Grown(l, p, n, cs, e.IsDirectory()), p)
  {
    var t, m := SetSlot(s, p, n, e), Grown(l, p, n, cs, e.IsDirectory());
    UnownedChain(s, l, p, n, e, cs);
    NewEntryOk(s, l, p, n, e, cs);
    assert DirectoryOk(s, l, p);
    forall i | 1 <= i < 64 && i != n && s.tables[p][i] != EMPTY_ENTRY
      ensures EntryOk(t, m, p, i)
    {
      OldEntryKept(s, l, p, n, e, cs, p, i);
    }
    StillEnteredAfterEnter(s, l, p, n, e, cs, p);
  }

  /** Entering a fresh name for an unowned chain keeps the tree a tree. */
  lemma EnterKeepsTree(s: Structure, l: Layout, p: DataCluster, n: nat, e: Entry, cs: seq<DataCluster>)
    requires TreeOk(s, l) && |cs| > 0 && Enterable(s, l, p, n, e, cs)
    ensures TreeOk(SetSlot(s, p, n, e), Grown(l, p, n, cs, e.IsDirectory()))
  {
    var t, m := SetSlot(s, p, n, e), Grown(l, p, n, cs, e.IsDirectory());
    ChainShape(s.fat, e.Start());
    assert cs[0] in cs;
    forall d | d in m.depth
      ensures DirectoryOk(t, m, d)
    {
      if d !in l.depth {
        NewDirectoryOk(s, l, p, n, e, cs);
      } else if d == p {
        ParentDirectoryOk(s, l, p, n, e, cs);
      } else {
        OldDirectoryOk(s, l, p, n, e, cs, d);
      }
    }
  }

  // ---------- removing an entry ----------

  /** Directory d lies in the subtree of directory top. */
  ghost predicate Below(l: Layout, d: DataCluster, top: DataCluster)
    decreases if d in l.depth then l.depth[d] else 0
  {
    d == top ||
    (d in l.depth && d in l.owner && l.owner[d].0 in l.depth && l.depth[l.owner[d].0] < l.depth[d]
     && Below(l, l.owner[d].0, top))
  }

  /** What is left after the entry owning cs is removed: its clusters and, for a directory, its subtree are gone. */
  ghost function Pruned(l: Layout, cs: seq<DataCluster>): Layout
    requires |cs| > 0
  {
    Layout(map d | d in l.depth && !Below(l, d, cs[0]) :: l.depth[d],
           map c | c in l.owner && c !in cs :: l.owner[c])
  }

  lemma BelowParent(s: Structure, l: Layout, d: DataCluster, top: DataCluster)
    requires TreeOk(s, l) && d in l.depth && d != ROOT
    ensures d in l.owner && l.owner[d].0 in l.depth
    ensures Below(l, d, top) <==> d == top || Below(l, l.owner[d].0, top)
  {
    assert DirectoryOk(s, l, d);
    var (p, i) := l.owner[d];
    assert DirectoryOk(s, l, p);
    assert EntryOk(s, l, p, i);
  }

  /** The setting of a removal: the entry in slot n of directory p owns the chain cs. */
  ghost predicate Removable(s: Structure, l: Layout, p: DataCluster, n: nat, cs: seq<DataCluster>) {
    && TreeOk(s, l) && p in l.depth && 1 <= n < 64 && EntryOk(s, l, p, n)
    && cs == Chain(s.fat, s.tables[p][n].Start()) && |cs| > 0 && cs[0] == s.tables[p][n].Start() && cs[0] in cs
  }

  lemma OtherClustersStay(s: Structure, l: Layout, p: DataCluster, n: nat, cs: seq<DataCluster>,
                          d: DataCluster, i: nat)
    requires n < 64 && EntryOk(s, l, p, n) && cs == Chain(s.fat, s.tables[p][n].Start()) && |cs| > 0
    requires i < 64 && (d, i) != (p, n) && EntryOk(s, l, d, i)
    ensures forall c :: c in Chain(s.fat, s.tables[d][i].Start()) ==>
      c !in cs && c in Pruned(l, cs).owner && Pruned(l, cs).owner[c] == (d, i)
    ensures s.tables[d][i].Start() in Chain(s.fat, s.tables[d][i].Start())
  {
    var start := s.tables[d][i].Start();
    ChainShape(s.fat, start);
    assert Chain(s.fat, start)[0] in Chain(s.fat, start);
  }

  lemma OwnedChildStays(s: Structure, l: Layout, p: DataCluster, n: nat, cs: seq<DataCluster>,
                        d: DataCluster, i: nat)
    requires Removable(s, l, p, n, cs)
    requires d in l.depth && !Below(l, d, cs[0])
    requires 1 <= i < 64 && (d, i) != (p, n) && EntryOk(s, l, d, i)
    ensures EntryOk(SetSlot(s, p, n, EMPTY_ENTRY), Pruned(l, cs), d, i)
  {
    var e, t, m := s.tables[d][i], SetSlot(s, p, n, EMPTY_ENTRY), Pruned(l, cs);
    OtherClustersStay(s, l, p, n, cs, d, i);
    assert t.tables[d][i] == e && t.fat == s.fat;
    if e.IsDirectory() {
      var c: DataCluster := e.Start();
      assert SubdirectoryOk(s, l, d, e);
      assert c != ROOT && l.owner[c] == (d, i);
      BelowParent(s, l, c, cs[0]);
      assert c in m.depth && d in m.depth;
      assert t.tables[c][0] == s.tables[c][0];
      assert SubdirectoryOk(t, m, d, e);
    }
  }

  lemma StillEnteredAfterRemove(s: Structure, l: Layout, p: DataCluster, n: nat, cs: seq<DataCluster>,
                                d: DataCluster)
    requires 1 <= n < 64 && EntryOk(s, l, p, n) && cs == Chain(s.fat, s.tables[p][n].Start())
    requires |cs| > 0 && cs[0] == s.tables[p][n].Start()
    requires EnteredOk(s, l, d) && d != cs[0]
    requires d != ROOT ==> d in l.owner && l.owner[d].0 in Pruned(l, cs).depth
    ensures EnteredOk(SetSlot(s, p, n, EMPTY_ENTRY), Pruned(l, cs), d)
  {
    var t, m := SetSlot(s, p, n, EMPTY_ENTRY), Pruned(l, cs);
    if d == ROOT {
      assert t.tables[d][0] == s.tables[d][0];
    } else {
      var (q, i) := l.owner[d];
      assert d in cs ==> (q, i) == (p, n);
      assert (q, i) != (p, n);
      assert t.tables[q][i] == s.tables[q][i];
    }
  }

  lemma KeptDirectoryOk(s: Structure, l: Layout, p: DataCluster, n: nat, cs: seq<DataCluster>, d: DataCluster)
    requires Removable(s, l, p, n, cs)
    requires d in l.depth && !Below(l, d, cs[0])
    ensures DirectoryOk(SetSlot(s, p, n, EMPTY_ENTRY), Pruned(l, cs), d)
  {
    hide TreeOk, EntryOk, EnteredOk, SelfOk;
    var t, m := SetSlot(s, p, n, EMPTY_ENTRY), Pruned(l, cs);
    DirectoriesAreLive(s, l);
    forall i | 1 <= i < 64
      ensures t.tables[d][i] == EMPTY_ENTRY || EntryOk(t, m, d, i)
    {
      if (d, i) != (p, n) && s.tables[d][i] != EMPTY_ENTRY {
        OwnedChildStays(s, l, p, n, cs, d, i);
      }
    }
    UniqueAfterRemove(s.tables[d], t.tables[d]);
    if d != ROOT { BelowParent(s, l, d, cs[0]); }
    StillEnteredAfterRemove(s, l, p, n, cs, d);
  }

  lemma UniqueAfterRemove(t: Table, u: Table)
    requires UniqueNames(t) && forall i :: 0 <= i < 64 ==> u[i] == t[i] || u[i] == EMPTY_ENTRY
    ensures UniqueNames(u)
  {
  }

  /** Removing any entry, even a directory that still holds entries, keeps what is left a tree. */
  lemma RemoveKeepsTree(s: Structure, l: Layout, p: DataCluster, n: nat, cs: seq<DataCluster>)
    requires Removable(s, l, p, n, cs)
    ensures TreeOk(SetSlot(s, p, n, EMPTY_ENTRY), Pruned(l, cs))
  {
    var t, m := SetSlot(s, p, n, EMPTY_ENTRY), Pruned(l, cs);
    ChainShape(s.fat, cs[0]);
    assert !Below(l, ROOT, cs[0]) by { assert ROOT !in l.owner; }
    forall d | d in m.depth
      ensures DirectoryOk(t, m, d)
    {
      KeptDirectoryOk(s, l, p, n, cs, d);
    }
  }
}
