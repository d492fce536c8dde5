/**
  Power loss in the middle of a delete. delete zeroes the data first, then writes
  the allocation table, then the parent's table (src/fat32.c:511-546): here is what
  every crash shows, and exactly when it shows the state before or after.
*/
module DeleteCrash {
  import opened Wrappers
  import opened Bytes
  import opened Directory
  import opened Fat
  import opened Tree
  import opened Volumes
  import opened Views
  import opened Writing
  import opened Reading
  import opened Deleting
  import opened Changes
  import opened Crash
  import opened Guarantees
  import opened Runs
  import opened Emptiness

  // ---------- the disk after a number of sectors ----------

  /** How many sectors of the i-th cluster write are among the first n. */
  function Reached(n: nat, i: nat): (j: nat)
    ensures j <= 4
  {
    if n <= 4 * i then 0 else if n >= 4 * i + 4 then 4 else n - 4 * i
  }

  function TornCluster(data: Cluster, prior: Cluster, j: nat): Cluster
    requires j <= 4
  {
    data[..512 * j] + prior[512 * j..]
  }

  predicate DistinctPlaces(ps: seq<Put>) {
    forall i, j :: 0 <= i < j < |ps| ==> ps[i].at != ps[j].at
  }

  /** Writing to distinct clusters, each is torn by itself. */
  lemma {:induction false} PlayDistinct(d: Disk, ps: seq<Put>, n: nat)
    requires DistinctPlaces(ps) && n <= 4 * |ps|
    ensures forall i :: 0 <= i < |ps| ==>
      Play(d, Expand(ps)[..n])[ps[i].at] == TornCluster(ps[i].data, d[ps[i].at], Reached(n, i))
    ensures forall c: ClusterNumber :: (forall i :: 0 <= i < |ps| ==> ps[i].at != c) ==>
      Play(d, Expand(ps)[..n])[c] == d[c]
    decreases |ps|
  {
    hide Play, Sectors;
    if ps == [] {
      assert Expand(ps)[..n] == [];
      PlayEmpty(d);
    } else {
      var m := |ps| - 1;
      var init := ps[..m];
      assert ps == init + [ps[m]];
      var before := if n <= 4 * m then n else 4 * m;
      PlayDistinct(d, init, before);
      if n <= 4 * m {
        assert Expand(ps)[..n] == Expand(init)[..n];
        TornNothing(ps[m].data, d[ps[m].at]);
      } else {
        PlayLast(d, init, ps[m], n - 4 * m);
        assert Expand(init)[..4 * m] == Expand(init);
      }
    }
  }

  lemma PlayEmpty(d: Disk)
    ensures Play(d, []) == d
  {
  }

  lemma TornNothing(data: Cluster, prior: Cluster)
    ensures TornCluster(data, prior, 0) == prior
  {
  }

  /** The disk after the first n sectors of a delete, mounted. */
  function CrashedAt(v: Volume, p: DataCluster, k: nat, cs: seq<DataCluster>, n: nat): Volume
    requires k < 64 && n <= 4 * (|cs| + 2)
  {
    Mounted(Play(v.disk, Expand(DeletePuts(v, p, k, cs))[..n]))
  }

  lemma PutsAre(v: Volume, p: DataCluster, k: nat, cs: seq<DataCluster>)
    requires k < 64 && Ascending(cs) && p !in cs
    ensures var ps, m := DeletePuts(v, p, k, cs), |cs|;
      && |ps| == m + 2 && DistinctPlaces(ps)
      && (forall i :: 0 <= i < m ==> ps[i] == Put(cs[i], ZERO_CLUSTER))
      && ps[m] == Put(FAT_CLUSTER_NUMBER, EncodeMap(Clear(v.fat, cs)))
      && ps[m + 1] == Put(p, EncodeTable(TableAt(v, p)[k := EMPTY_ENTRY]))
  {
    hide EncodeMap, EncodeTable, DecodeTable;
  }

  lemma OtherPlaces(ps: seq<Put>, p: DataCluster, cs: seq<DataCluster>, c: ClusterNumber)
    requires |ps| == |cs| + 2 && ps[|cs|].at == FAT_CLUSTER_NUMBER && ps[|cs| + 1].at == p
    requires forall i :: 0 <= i < |cs| ==> ps[i].at == cs[i]
    requires c !in cs && c != p && c != FAT_CLUSTER_NUMBER
    ensures forall i :: 0 <= i < |ps| ==> ps[i].at != c
  {
    forall i | 0 <= i < |ps|
      ensures ps[i].at != c
    {
      if i < |cs| { assert cs[i] in cs; }
    }
  }

  /** What has become of every cluster. */
  lemma Clusters(v: Volume, p: DataCluster, k: nat, cs: seq<DataCluster>, n: nat)
    requires k < 64 && Ascending(cs) && p !in cs && n <= 4 * (|cs| + 2)
    ensures var w, m := CrashedAt(v, p, k, cs, n), |cs|;
      && (forall i :: 0 <= i < m ==> w.disk[cs[i]] == TornCluster(ZERO_CLUSTER, v.disk[cs[i]], Reached(n, i)))
      && (forall c: ClusterNumber :: c !in cs && c != p && c != FAT_CLUSTER_NUMBER ==> w.disk[c] == v.disk[c])
      && w.disk[FAT_CLUSTER_NUMBER]
           == TornCluster(EncodeMap(Clear(v.fat, cs)), v.disk[FAT_CLUSTER_NUMBER], Reached(n, m))
      && w.disk[p] == TornCluster(EncodeTable(TableAt(v, p)[k := EMPTY_ENTRY]), v.disk[p], Reached(n, m + 1))
  {
    hide EncodeMap, EncodeTable, DecodeTable, DecodeMap, DeletePuts, Play, Expand, TornCluster, Reached, Clear, TableAt;
    PutsAre(v, p, k, cs);
    var ps, m := DeletePuts(v, p, k, cs), |cs|;
    PlayDistinct(v.disk, ps, n);
    var d := Play(v.disk, Expand(ps)[..n]);
    assert CrashedAt(v, p, k, cs, n).disk == d;
    hide CrashedAt, DistinctPlaces, Ascending;
    forall c: ClusterNumber | c !in cs && c != p && c != FAT_CLUSTER_NUMBER
      ensures d[c] == v.disk[c]
    {
      OtherPlaces(ps, p, cs, c);
    }
    forall i | 0 <= i < m
      ensures d[cs[i]] == TornCluster(ZERO_CLUSTER, v.disk[cs[i]], Reached(n, i))
    {
      assert ps[i] == Put(cs[i], ZERO_CLUSTER);
    }
    assert ps[m].at == FAT_CLUSTER_NUMBER && ps[m + 1].at == p;
  }

  /** The slot is blank once its sector of the parent's table is stored; until then the table is as it was. */
  lemma ParentTable(v: Volume, p: DataCluster, k: nat, cs: seq<DataCluster>, n: nat)
    requires k < 64 && Ascending(cs) && p !in cs && n <= 4 * (|cs| + 2)
    ensures CrashedAt(v, p, k, cs, n).disk[p] ==
      if k < 16 * Reached(n, |cs| + 1) then EncodeTable(TableAt(v, p)[k := EMPTY_ENTRY]) else v.disk[p]
  {
    hide EncodeMap, EncodeTable, DecodeTable, DecodeMap, CrashedAt, Reached, Clear;
    Clusters(v, p, k, cs, n);
    EncodeTableOfDecode(v.disk[p]);
    TornTable(TableAt(v, p), k, EMPTY_ENTRY, Reached(n, |cs| + 1));
  }

  /** The words of the chain are cleared sector by sector, and no other word changes. */
  lemma Words(v: Volume, p: DataCluster, k: nat, cs: seq<DataCluster>, n: nat)
    requires k < 64 && Ascending(cs) && p !in cs && n <= 4 * (|cs| + 2) && Coherent(v)
    ensures forall i :: 0 <= i < 512 ==>
      CrashedAt(v, p, k, cs, n).fat[i] == if i in cs && i < 128 * Reached(n, |cs|) then EMPTY else v.fat[i]
  {
    hide EncodeMap, EncodeTable, DecodeTable, DecodeMap, Play, Expand, DeletePuts, Reached, Clear;
    Clusters(v, p, k, cs, n);
    ClearWords(v.fat, cs);
    forall i | 0 <= i < 512
      ensures CrashedAt(v, p, k, cs, n).fat[i] == if i in cs && i < 128 * Reached(n, |cs|) then EMPTY else v.fat[i]
    {
      TornMap(Clear(v.fat, cs), v.disk[FAT_CLUSTER_NUMBER], Reached(n, |cs|), i);
    }
  }

  // ---------- what a crash leaves alone ----------

  /** Blanking the slot on the crashed disk gives a well-formed volume that agrees with v, its slot blanked, on every
      cluster that is still in use. */
  lemma CrashedButSlot(v: Volume, l: Layout, r: Request, k: nat, cs: seq<DataCluster>, n: nat)
    requires Deletes(v, l, r, k, cs) && n <= 4 * (|cs| + 2)
    ensures |cs| > 0 && VolumeOk(Blanked(v, r.parent, k), Pruned(l, cs))
    ensures var u, x := Blanked(v, r.parent, k), Blanked(CrashedAt(v, r.parent, k, cs, n), r.parent, k);
      SameOnDisk(u, x, Live(Pruned(l, cs))) && VolumeOk(x, Pruned(l, cs))
  {
    hide DecodeTable, EncodeTable, DecodeMap, EncodeMap, Deletes, Removable, Pruned, TreeOk, Blanked, CrashedAt,
         Reached;
    DeletesMeans(v, l, r, k, cs);
    var p: DataCluster, w := r.parent, CrashedAt(v, r.parent, k, cs, n);
    BlankedKeepsVolume(v, l, r, k, cs);
    BlankedIs(v, p, k);
    BlankedIs(w, p, k);
    MountedIs(v, p, k, cs, n);
    SameBlankedTable(v, p, k, cs, n);
    Clusters(v, p, k, cs, n);
    Words(v, p, k, cs, n);
    PrunedIsNotDeleted(v, l, r, k, cs);
    var u, x := Blanked(v, p, k), Blanked(w, p, k);
    assert SameOnDisk(u, x, Live(Pruned(l, cs)));
    assert SameOn(StructureOf(u), StructureOf(x), Live(Pruned(l, cs)));
    TreeFrame(StructureOf(u), StructureOf(x), Pruned(l, cs));
  }

  lemma MountedIs(v: Volume, p: DataCluster, k: nat, cs: seq<DataCluster>, n: nat)
    requires k < 64 && n <= 4 * (|cs| + 2)
    ensures Coherent(CrashedAt(v, p, k, cs, n))
  {
  }

  lemma PrunedIsNotDeleted(v: Volume, l: Layout, r: Request, k: nat, cs: seq<DataCluster>)
    requires Deletes(v, l, r, k, cs)
    ensures |cs| > 0 && forall c :: c in Live(Pruned(l, cs)) ==> c !in cs
  {
    hide Deletes, Removable;
    DeletesMeans(v, l, r, k, cs);
  }

  lemma SameBlankedTable(v: Volume, p: DataCluster, k: nat, cs: seq<DataCluster>, n: nat)
    requires k < 64 && Ascending(cs) && p !in cs && n <= 4 * (|cs| + 2)
    ensures TableAt(CrashedAt(v, p, k, cs, n), p)[k := EMPTY_ENTRY] == TableAt(v, p)[k := EMPTY_ENTRY]
    ensures TableAt(CrashedAt(v, p, k, cs, n), p) ==
      if k < 16 * Reached(n, |cs| + 1) then TableAt(v, p)[k := EMPTY_ENTRY] else TableAt(v, p)
  {
    hide DecodeTable, EncodeTable, CrashedAt, Reached;
    ParentTable(v, p, k, cs, n);
    DecodeTableOfEncode(TableAt(v, p)[k := EMPTY_ENTRY]);
  }

  lemma ReplacedBack(w: Volume, p: DataCluster, k: nat)
    requires 1 <= k < 64
    ensures SlotReplaced(Blanked(w, p, k), w, p, k)
  {
    hide Blanked;
    BlankedIsReplaced(w, p, k);
  }

  /** Every path that does not go through the deleted slot shows after any crash what it showed before. */
  lemma CrashIsContained(v: Volume, l: Layout, r: Request, k: nat, cs: seq<DataCluster>, n: nat, at: Path, path: Path)
    requires Deletes(v, l, r, k, cs) && n <= 4 * (|cs| + 2) && at != [] && !Through(path, at)
    requires DirectoryAt(v, at[..|at| - 1]) == Some(r.parent) && at[|at| - 1] == k
    ensures See(CrashedAt(v, r.parent, k, cs, n), path) == See(v, path)
    ensures DirectoryAt(CrashedAt(v, r.parent, k, cs, n), path) == DirectoryAt(v, path)
  {
    hide DecodeTable, EncodeTable, VolumeOk, Deletes, Pruned, Blanked, DirectoryAt, See, Show, CrashedAt, SlotReplaced;
    DeletesMeans(v, l, r, k, cs);
    var p: DataCluster, w, prefix := r.parent, CrashedAt(v, r.parent, k, cs, n), at[..|at| - 1];
    var u, x := Blanked(v, p, k), Blanked(w, p, k);
    BlankedIsReplaced(v, p, k);
    ReplacedBack(w, p, k);
    CrashedButSlot(v, l, r, k, cs, n);
    assert !Through(prefix, at);
    ViewFrame(u, x, Pruned(l, cs));
    assert See(x, path) == See(u, path);
    DirectoryAtFrame(u, x, Pruned(l, cs), prefix);
    DirectoryAtFrame(u, x, Pruned(l, cs), path);
    OtherPathsLeadOn(v, u, l, at, prefix);
    OtherPathsLeadOn(v, u, l, at, path);
    OtherPathsShowTheSame(v, u, l, at, path);
    OtherPathsLeadOn(x, w, Pruned(l, cs), at, path);
    OtherPathsShowTheSame(x, w, Pruned(l, cs), at, path);
  }

  // ---------- exactly when a crash shows the state before or after ----------

  /** The crash comes before anything is stored, or after the sector of the slot is; or it is a file whose bytes zeroed
      so far were zero anyway, and whose first word of the allocation table is not yet stored. */
  predicate HarmlessCrash(v: Volume, p: DataCluster, k: nat, cs: seq<DataCluster>, n: nat)
    requires 1 <= k < 64 && |cs| > 0
  {
    || n == 0
    || n > 4 * (|cs| + 1) + k / 16
    || (&& !TableAt(v, p)[k].IsDirectory()
        && (forall b :: 0 <= b < Min(512 * n, 2048 * |cs|) ==> Contents(v.disk, cs)[b] == 0)
        && cs[0] >= 128 * Reached(n, |cs|))
  }

  lemma {:induction false} ContentsAt(d: Disk, cs: seq<DataCluster>, i: nat, x: nat)
    requires i < |cs| && x < 2048
    ensures Contents(d, cs)[2048 * i + x] == d[cs[i]][x]
    decreases |cs|
  {
    var m := |cs| - 1;
    if i < m { ContentsAt(d, cs[..m], i, x); }
  }

  lemma TornBytes(prior: Cluster, j: nat)
    requires j <= 4
    ensures forall x :: 0 <= x < 2048 ==> TornCluster(ZERO_CLUSTER, prior, j)[x] == if x < 512 * j then 0 else prior[x]
  {
  }

  /** Zeroing what is zero and clearing words beyond the sectors stored changes nothing. */
  lemma NothingChanged(v: Volume, p: DataCluster, k: nat, cs: seq<DataCluster>, n: nat)
    requires 1 <= k < 64 && |cs| > 0 && Ascending(cs) && p !in cs && n <= 4 * (|cs| + 1) + k / 16 && Coherent(v)
    requires forall b :: 0 <= b < Min(512 * n, 2048 * |cs|) ==> Contents(v.disk, cs)[b] == 0
    requires cs[0] >= 128 * Reached(n, |cs|)
    ensures CrashedAt(v, p, k, cs, n) == v
  {
    hide EncodeMap, DecodeMap, EncodeTable, DecodeTable, Contents, CrashedAt, TornCluster, Clear;
    var w := CrashedAt(v, p, k, cs, n);
    Clusters(v, p, k, cs, n);
    ParentTable(v, p, k, cs, n);
    Words(v, p, k, cs, n);
    forall i | 0 <= i < |cs|
      ensures w.disk[cs[i]] == v.disk[cs[i]]
    {
      TornBytes(v.disk[cs[i]], Reached(n, i));
      forall x | 0 <= x < 512 * Reached(n, i)
        ensures v.disk[cs[i]][x] == 0
      {
        ContentsAt(v.disk, cs, i, x);
      }
    }
    TornMapIsOld(v, cs, Reached(n, |cs|));
    assert w.disk == v.disk;
    assert w.fat == v.fat;
  }

  lemma TornMapIsOld(v: Volume, cs: seq<DataCluster>, j: nat)
    requires Coherent(v) && |cs| > 0 && Ascending(cs) && j <= 4 && cs[0] >= 128 * j
    ensures TornCluster(EncodeMap(Clear(v.fat, cs)), v.disk[FAT_CLUSTER_NUMBER], j) == v.disk[FAT_CLUSTER_NUMBER]
  {
    hide Clear, DecodeMap, EncodeMap;
    var c, f := v.disk[FAT_CLUSTER_NUMBER], Clear(v.fat, cs);
    EncodeMapOfDecode(c);
    ClearWords(v.fat, cs);
    forall x | 0 <= x < 512 * j
      ensures EncodeMap(f)[x] == c[x]
    {
      assert x / 4 !in cs;
      SameWordSameByte(f, v.fat, x);
    }
    assert EncodeMap(f)[..512 * j] == c[..512 * j];
  }

  lemma SameWordSameByte(f: Map, g: Map, x: nat)
    requires x < 2048 && f[x / 4] == g[x / 4]
    ensures EncodeMap(f)[x] == EncodeMap(g)[x]
  {
  }

  lemma TornEntirely(data: Cluster, prior: Cluster)
    ensures TornCluster(data, prior, 4) == data
  {
  }

  /** Once the sector of the slot is stored the delete is complete. */
  lemma EverythingDone(v: Volume, p: DataCluster, k: nat, cs: seq<DataCluster>, n: nat)
    requires 1 <= k < 64 && Ascending(cs) && p !in cs && 4 * (|cs| + 1) + k / 16 < n <= 4 * (|cs| + 2) && Coherent(v)
    ensures CrashedAt(v, p, k, cs, n) == Removal(v, p, k, cs).volume
  {
    hide EncodeMap, DecodeMap, EncodeTable, DecodeTable, CrashedAt, TornCluster, Clear, Removal;
    var w, o := CrashedAt(v, p, k, cs, n), Removal(v, p, k, cs).volume;
    Clusters(v, p, k, cs, n);
    ParentTable(v, p, k, cs, n);
    Words(v, p, k, cs, n);
    RemovalEffect(v, p, k, cs);
    forall i | 0 <= i < |cs|
      ensures w.disk[cs[i]] == ZERO_CLUSTER
    {
      TornEntirely(ZERO_CLUSTER, v.disk[cs[i]]);
    }
    TornEntirely(EncodeMap(Clear(v.fat, cs)), v.disk[FAT_CLUSTER_NUMBER]);
    RemovalIs(v, p, k, cs);
    assert w.disk == o.disk;
    assert w.fat == o.fat;
  }

  lemma RemovalIs(v: Volume, p: DataCluster, k: nat, cs: seq<DataCluster>)
    requires k < 64
    ensures Removal(v, p, k, cs).volume.fat == Clear(v.fat, cs)
  {
  }

  /** The entry is still there, and what it leads to is neither what it was nor gone. */
  lemma Damaged(v: Volume, l: Layout, r: Request, k: nat, cs: seq<DataCluster>, n: nat)
    requires Deletes(v, l, r, k, cs) && |cs| > 0 && 1 <= k < 64 && 2 <= r.parent < 512 && n <= 4 * (|cs| + 2)
    requires !HarmlessCrash(v, r.parent, k, cs, n)
    ensures var w := CrashedAt(v, r.parent, k, cs, n);
      Show(w, r.parent, k) != Show(v, r.parent, k) && Show(w, r.parent, k) != Nothing
  {
    hide CrashedAt, Chain, Proper, VolumeOk, Contents, Show, Deletes, TableAt, Reached;
    DeletesMeans(v, l, r, k, cs);
    var p: DataCluster, w := r.parent, CrashedAt(v, r.parent, k, cs, n);
    EntryStays(v, p, k, cs, n);
    EntryShows(v, l, r, k, cs);
    if TableAt(v, p)[k].IsDirectory() {
      DirectoryZeroed(v, l, p, k, cs, n);
    } else {
      HarmToFile(v, p, k, cs, n);
      FileDamaged(v, p, k, cs, n);
    }
    ShowsEntry(v, p, k);
    ShowsEntry(w, p, k);
  }

  /** A crash that harms a file has stored its first table word or zeroed a byte that was not zero. */
  lemma HarmToFile(v: Volume, p: DataCluster, k: nat, cs: seq<DataCluster>, n: nat)
    requires 1 <= k < 64 && |cs| > 0 && !TableAt(v, p)[k].IsDirectory() && !HarmlessCrash(v, p, k, cs, n)
    ensures cs[0] < 128 * Reached(n, |cs|)
      || exists b :: 0 <= b < Min(512 * n, 2048 * |cs|) && Contents(v.disk, cs)[b] != 0
  {
    hide TableAt, Contents, Reached;
    var zeroed := Min(512 * n, 2048 * |cs|);
    if cs[0] >= 128 * Reached(n, |cs|) {
      assert exists b :: 0 <= b < zeroed && Contents(v.disk, cs)[b] != 0;
    }
  }

  lemma ShowsEntry(v: Volume, p: DataCluster, k: nat)
    requires 1 <= k < 64 && TableAt(v, p)[k].Used() && 2 <= TableAt(v, p)[k].Start() < 512
    ensures var e := TableAt(v, p)[k];
      Show(v, p, k) ==
        if e.IsDirectory() then Folder(e, TableAt(v, e.Start())[0])
        else if Proper(v.fat, e.Start()) then File(e, Contents(v.disk, Chain(v.fat, e.Start())))
        else Dangling(e)
  {
    hide TableAt, Proper, Contents;
  }

  lemma EntryShows(v: Volume, l: Layout, r: Request, k: nat, cs: seq<DataCluster>)
    requires Deletes(v, l, r, k, cs)
    ensures 2 <= r.parent < 512 && 1 <= k < 64 && |cs| > 0 && Coherent(v) && TableAt(v, r.parent)[k].Used()
    ensures TableAt(v, r.parent)[k].Start() == cs[0] && Proper(v.fat, cs[0]) && Chain(v.fat, cs[0]) == cs
    ensures TableAt(v, r.parent)[k].IsDirectory() ==> |cs| == 1 && cs[0] in l.depth
  {
    hide DecodeTable, Proper, Chain;
    DeletesMeans(v, l, r, k, cs);
    NamedSlot(v, l, r.parent, k);
  }

  lemma EntryStays(v: Volume, p: DataCluster, k: nat, cs: seq<DataCluster>, n: nat)
    requires 1 <= k < 64 && |cs| > 0 && Ascending(cs) && p !in cs && n <= 4 * (|cs| + 2)
    requires !HarmlessCrash(v, p, k, cs, n)
    ensures 1 <= n && TableAt(CrashedAt(v, p, k, cs, n), p)[k] == TableAt(v, p)[k]
  {
    hide CrashedAt, TableAt, Contents;
    SameBlankedTable(v, p, k, cs, n);
  }

  lemma {:induction false} ZeroNumber(s: seq<byte>)
    requires forall i :: 0 <= i < |s| ==> s[i] == 0
    ensures Number(s) == 0
  {
    if s != [] { ZeroNumber(s[1..]); }
  }

  lemma ZeroSlot(c: Cluster, k: nat)
    requires k < 64 && forall x :: 32 * k <= x < 32 * k + 32 ==> c[x] == 0
    ensures DecodeTable(c)[k] == EMPTY_ENTRY
  {
    var s := c[32 * k..32 * k + 32];
    hide Number;
    assert forall x :: 0 <= x < 32 ==> s[x] == 0;
    forall i, j | 0 <= i <= j <= 32
      ensures Number(s[i..j]) == 0
    {
      ZeroNumber(s[i..j]);
    }
    assert s[..8] == ZERO_NAME && s[8..11] == ZERO_EXT;
  }

  lemma DirectoryZeroed(v: Volume, l: Layout, p: DataCluster, k: nat, cs: seq<DataCluster>, n: nat)
    requires VolumeOk(v, l) && 1 <= k < 64 && Ascending(cs) && |cs| == 1 && p !in cs && 1 <= n <= 4 * (|cs| + 2)
    requires cs[0] in l.depth
    ensures TableAt(CrashedAt(v, p, k, cs, n), cs[0])[0] == EMPTY_ENTRY != TableAt(v, cs[0])[0]
  {
    hide EncodeTable, DecodeTable, EncodeMap, DecodeMap, CrashedAt, TornCluster, VolumeOk;
    Clusters(v, p, k, cs, n);
    SelfEntryOk(v, l, cs[0]);
    TornBytes(v.disk[cs[0]], Reached(n, 0));
    ZeroSlot(CrashedAt(v, p, k, cs, n).disk[cs[0]], 0);
  }

  lemma ByteReached(n: nat, m: nat, b: nat)
    requires b < Min(512 * n, 2048 * m)
    ensures b / 2048 < m && b % 2048 < 512 * Reached(n, b / 2048) && 2048 * (b / 2048) + b % 2048 == b
  {
  }

  lemma FirstWordCleared(v: Volume, p: DataCluster, k: nat, cs: seq<DataCluster>, n: nat)
    requires Coherent(v) && k < 64 && Ascending(cs) && |cs| > 0 && p !in cs && n <= 4 * (|cs| + 2)
    requires cs[0] < 128 * Reached(n, |cs|)
    ensures !Proper(CrashedAt(v, p, k, cs, n).fat, cs[0])
  {
    hide CrashedAt, DecodeMap;
    Words(v, p, k, cs, n);
    assert cs[0] in cs;
  }

  /** As long as the first word is not stored the chain is the old one. */
  lemma ChainStays(v: Volume, p: DataCluster, k: nat, cs: seq<DataCluster>, n: nat)
    requires Coherent(v) && k < 64 && Ascending(cs) && |cs| > 0 && p !in cs && n <= 4 * (|cs| + 2)
    requires Proper(v.fat, cs[0]) && Chain(v.fat, cs[0]) == cs && cs[0] >= 128 * Reached(n, |cs|)
    ensures var w := CrashedAt(v, p, k, cs, n); Proper(w.fat, cs[0]) && Chain(w.fat, cs[0]) == cs
  {
    hide DecodeMap, CrashedAt, Chain, Proper, Reached;
    var w := CrashedAt(v, p, k, cs, n);
    Words(v, p, k, cs, n);
    forall c | c in cs
      ensures w.fat[c] == v.fat[c]
    {
      assert c >= cs[0];
    }
    ChainFrame(v.fat, w.fat, cs[0]);
  }

  lemma ByteZeroed(v: Volume, p: DataCluster, k: nat, cs: seq<DataCluster>, n: nat, b: nat)
    requires k < 64 && Ascending(cs) && |cs| > 0 && p !in cs && n <= 4 * (|cs| + 2)
    requires b < Min(512 * n, 2048 * |cs|)
    ensures Contents(CrashedAt(v, p, k, cs, n).disk, cs)[b] == 0
  {
    hide EncodeTable, DecodeTable, EncodeMap, DecodeMap, CrashedAt, TornCluster, Contents, Reached, Clear, Min;
    var w, i := CrashedAt(v, p, k, cs, n), b / 2048;
    ByteReached(n, |cs|, b);
    Clusters(v, p, k, cs, n);
    TornBytes(v.disk[cs[i]], Reached(n, i));
    ContentsAt(w.disk, cs, i, b % 2048);
  }

  lemma FileDamaged(v: Volume, p: DataCluster, k: nat, cs: seq<DataCluster>, n: nat)
    requires Coherent(v) && 1 <= k < 64 && Ascending(cs) && |cs| > 0 && p !in cs && n <= 4 * (|cs| + 2)
    requires Proper(v.fat, cs[0]) && Chain(v.fat, cs[0]) == cs
    requires cs[0] < 128 * Reached(n, |cs|)
      || exists b :: 0 <= b < Min(512 * n, 2048 * |cs|) && Contents(v.disk, cs)[b] != 0
    ensures var w := CrashedAt(v, p, k, cs, n);
      Proper(w.fat, cs[0]) ==> Contents(w.disk, Chain(w.fat, cs[0])) != Contents(v.disk, cs)
  {
    hide CrashedAt, Contents, Chain, Proper, Reached, Coherent;
    if cs[0] < 128 * Reached(n, |cs|) {
      FirstWordCleared(v, p, k, cs, n);
    } else {
      var b :| 0 <= b < Min(512 * n, 2048 * |cs|) && Contents(v.disk, cs)[b] != 0;
      ChainStays(v, p, k, cs, n);
      ByteZeroed(v, p, k, cs, n, b);
    }
  }

  // ---------- in the callers' terms ----------

  /** The volume mounted after the first n sector writes of a delete. */
  function AfterSectors(v: Volume, r: Request, n: nat): Volume
    requires DeleteDefined(v, r) && n <= 4 * |Delete(v, r).puts|
  {
    Mounted(Play(v.disk, Expand(Delete(v, r).puts)[..n]))
  }

  lemma PutsOfDelete(v: Volume, l: Layout, r: Request, k: nat, cs: seq<DataCluster>)
    requires Deletes(v, l, r, k, cs)
    ensures 2 <= r.parent < 512 && k < 64 && DeleteDefined(v, r)
    ensures Delete(v, r).puts == DeletePuts(v, r.parent, k, cs) && |Delete(v, r).puts| == |cs| + 2
    ensures Delete(v, r).volume == Removal(v, r.parent, k, cs).volume
  {
    hide Deletes, Delete, DeletePuts;
    DeletesMeans(v, l, r, k, cs);
    DeleteSucceeds(v, l, r, k, cs);
    PutsAre(v, r.parent, k, cs);
    RemovalPuts(v, r.parent, k, cs);
  }

  lemma RemovalPuts(v: Volume, p: DataCluster, k: nat, cs: seq<DataCluster>)
    requires k < 64
    ensures Removal(v, p, k, cs).puts == DeletePuts(v, p, k, cs)
  {
  }

  /** Whatever is refused writes nothing. */
  lemma RefusalCrash(v: Volume, r: Request)
    requires WellFormed(v) && IsDirectory(v, r.parent) && DeleteDefined(v, r)
    ensures Delete(v, r).code != 0 ==> Delete(v, r).puts == [] && AfterSectors(v, r, 0) == v
  {
    hide DecodeTable, DirectoryAt, TreeOk, Removal, Expand, DecodeMap;
    if Delete(v, r).code == 0 { return; }
    if r.name != ZERO_NAME {
      var l :| VolumeOk(v, l);
      DirectoriesAreReachable(v, l, r.parent);
      DeleteIsExact(v, l, r);
    }
    assert Delete(v, r).puts == [];
    NothingPlayed(v.disk);
    assert Expand(Delete(v, r).puts)[..0] == Expand([])[..0];
    MountIsIdentity(v);
  }

  /** Containment: power loss at any sector of any delete leaves everything that is not reached through the deleted
      slot as it was. */
  lemma DeleteCrashIsContained(v: Volume, r: Request, n: nat, at: Path, path: Path)
    requires WellFormed(v) && IsDirectory(v, r.parent) && DeleteDefined(v, r)
    requires at != [] && DirectoryAt(v, at[..|at| - 1]) == Some(r.parent) && !(at <= path)
    requires at[|at| - 1] == FindSlot(TableAt(v, r.parent), r.name, r.ext, 1)
    ensures n <= 4 * |Delete(v, r).puts| ==> See(AfterSectors(v, r, n), path) == See(v, path)
  {
    hide Delete, DecodeTable, DirectoryAt, See, Doomed, Play, Expand, DeleteDefined, WellFormed, FindSlot;
    if n > 4 * |Delete(v, r).puts| { return; }
    if Delete(v, r).code == 0 {
      var l, k := DeletedMeans(v, r, Delete(v, r).volume);
      PutsOfDelete(v, l, r, k, Doomed(v, r));
      CrashIsContained(v, l, r, k, Doomed(v, r), n, at, path);
    } else {
      RefusalCrash(v, r);
    }
  }

  lemma SameViewOfItself(v: Volume)
    ensures SameView(v, v)
  {
  }

  /** Delete is not crash-atomic in general: it is, after n sectors, exactly when the crash is a harmless one. */
  lemma DeleteCrashIsExact(v: Volume, r: Request, w: Volume, n: nat)
    requires Deleted(v, r, w)
    ensures 2 <= r.parent < 512 && 1 <= FindSlot(TableAt(v, r.parent), r.name, r.ext, 1) < 64 && Doomed(v, r) != []
    ensures n <= 4 * |Delete(v, r).puts| ==>
      (SameView(v, AfterSectors(v, r, n)) || SameView(w, AfterSectors(v, r, n)) <==>
       HarmlessCrash(v, r.parent, FindSlot(TableAt(v, r.parent), r.name, r.ext, 1), Doomed(v, r), n))
  {
    hide Deleted, Delete, DecodeTable, DirectoryAt, See, SameView, Doomed, Play, Expand, FindSlot, VolumeOk, Deletes,
         HarmlessCrash, Removal, DeletePuts, Contents;
    var l, k := DeletedMeans(v, r, w);
    var cs := Doomed(v, r);
    PutsOfDelete(v, l, r, k, cs);
    DeletesMeans(v, l, r, k, cs);
    SlotIsFound(v, l, r, k, cs);
    if n > 4 * |Delete(v, r).puts| { return; }
    var p: DataCluster := r.parent;
    var x := CrashedAt(v, p, k, cs, n);
    assert AfterSectors(v, r, n) == x;
    hide AfterSectors, CrashedAt;
    if HarmlessCrash(v, p, k, cs, n) {
      HarmlessShows(v, l, p, k, cs, n);
      SameViewOfItself(x);
    } else {
      HarmfulShows(v, l, r, k, cs, n, w);
    }
  }

  lemma SlotIsFound(v: Volume, l: Layout, r: Request, k: nat, cs: seq<DataCluster>)
    requires Deletes(v, l, r, k, cs)
    ensures 2 <= r.parent < 512 && k == FindSlot(TableAt(v, r.parent), r.name, r.ext, 1)
  {
    hide VolumeOk;
  }

  lemma HarmlessShows(v: Volume, l: Layout, p: DataCluster, k: nat, cs: seq<DataCluster>, n: nat)
    requires VolumeOk(v, l) && 1 <= k < 64 && |cs| > 0 && Ascending(cs) && p !in cs && n <= 4 * (|cs| + 2)
    requires HarmlessCrash(v, p, k, cs, n)
    ensures CrashedAt(v, p, k, cs, n) == v || CrashedAt(v, p, k, cs, n) == Removal(v, p, k, cs).volume
  {
    hide CrashedAt, Removal, TableAt, Contents, TreeOk;
    if n > 4 * (|cs| + 1) + k / 16 {
      EverythingDone(v, p, k, cs, n);
    } else {
      NothingChanged(v, p, k, cs, n);
    }
  }

  lemma HarmfulShows(v: Volume, l: Layout, r: Request, k: nat, cs: seq<DataCluster>, n: nat, w: Volume)
    requires Deletes(v, l, r, k, cs) && 2 <= r.parent < 512 && |cs| > 0 && 1 <= k < 64 && n <= 4 * (|cs| + 2)
    requires Deleted(v, r, w) && !HarmlessCrash(v, r.parent, k, cs, n)
    ensures var x := CrashedAt(v, r.parent, k, cs, n); !SameView(v, x) && !SameView(w, x)
  {
    hide Deletes, Delete, DecodeTable, DirectoryAt, Show, CrashedAt, HarmlessCrash, VolumeOk, DeleteDefined, WellFormed;
    var prefix :| DirectoryAt(v, prefix) == Some(r.parent);
    var at, x := prefix + [k], CrashedAt(v, r.parent, k, cs, n);
    assert at[..|at| - 1] == prefix && !Through(prefix, at);
    CrashIsContained(v, l, r, k, cs, n, at, prefix);
    DeleteShows(v, l, r, k, cs, at, at);
    Damaged(v, l, r, k, cs, n);
    assert See(v, at) == Show(v, r.parent, k) && See(x, at) == Show(x, r.parent, k);
    assert See(w, at) == Nothing;
  }

  /** A file with the byte 7 in it, in the root of a formatted volume. */
  lemma OneByteFile() returns (v: Volume, l: Layout)
    ensures Run(Formatted(DISK, ZERO_MAP), [WriteOp(FileRequest(B, ROOT), [7])])
    ensures v == After(Formatted(DISK, ZERO_MAP), [WriteOp(FileRequest(B, ROOT), [7])])
    ensures Deletes(v, l, FileRequest(B, ROOT), 1, [3]) && Contents(v.disk, [3])[0] == 7
    ensures !TableAt(v, ROOT)[1].IsDirectory()
  {
    hide DecodeTable, EncodeTable, VolumeOk, Write, FirstFree, NewEntry, Formatted, Grown, IsDirectory, WriteDefined;
    var r := FileRequest(B, ROOT);
    var v0, l0 := Start();
    SlotIs(TableAt(v0, ROOT), 1);
    TakeOne(v0, l0, r, [7], 3);
    WrittenIsDeletable(v0, l0, r, [7], [3]);
    NewSlot(v0, l0, r, [7], [3]);
    WrittenFile(v0, l0, r, [7], [3]);
    RootIsDirectory(v0);
    DefinedWhenFits(v0, r, [7], [3]);
    v, l := Write(v0, r, [7]).volume, Grown(l0, ROOT, 1, [3], false);
    OneStep(v0, WriteOp(r, [7]));
    assert v.disk[[3][0]] == Blocks(r, [7])[0];
    ContentsAt(v.disk, [3], 0, 0);
  }

  lemma DefinedWhenFits(v: Volume, r: Request, buf: seq<byte>, cs: seq<DataCluster>)
    requires Fits(v, r, buf, cs)
    ensures WriteDefined(v, r, buf)
  {
  }

  lemma OneStep(v: Volume, op: Op)
    ensures After(v, [op]) == Step(v, op) && (Run(v, [op]) <==> Admissible(v, op))
  {
    hide Step, Admissible;
    assert [op][1..] == [];
    assert After(Step(v, op), []) == Step(v, op) && Run(Step(v, op), []);
  }

  lemma DeletesIsDeleted(v: Volume, l: Layout, r: Request, k: nat, cs: seq<DataCluster>)
    requires Deletes(v, l, r, k, cs)
    ensures DeleteDefined(v, r) && Deleted(v, r, Delete(v, r).volume) && Doomed(v, r) == cs && k < 64
  {
    hide VolumeOk, Delete, Removal, DirectoryAt;
    DeleteSucceeds(v, l, r, k, cs);
    RemovalCode(v, r.parent, k);
    DirectoriesAreReachable(v, l, r.parent);
    Witnessed(v, l);
  }

  /** The damage happens: a one-byte file, the power lost after the first sector of its deletion. */
  lemma DeleteLosesBytes()
    ensures var v0, r := Formatted(DISK, ZERO_MAP), FileRequest(B, ROOT);
      var v := After(v0, [WriteOp(r, [7])]);
      && Run(v0, [WriteOp(r, [7])]) && DeleteDefined(v, r) && |Delete(v, r).puts| >= 1
      && Deleted(v, r, Delete(v, r).volume)
      && !SameView(v, AfterSectors(v, r, 1)) && !SameView(Delete(v, r).volume, AfterSectors(v, r, 1))
  {
    hide Formatted, After, Run, Deletes, Delete, DeleteDefined, Deleted, SameView, AfterSectors, Contents, TableAt,
         FindSlot, Doomed;
    var v, l := OneByteFile();
    var r := FileRequest(B, ROOT);
    DeletesIsDeleted(v, l, r, 1, [3]);
    PutsOfDelete(v, l, r, 1, [3]);
    SlotIsFound(v, l, r, 1, [3]);
    DeleteCrashIsExact(v, r, Delete(v, r).volume, 1);
    assert !HarmlessCrash(v, ROOT, 1, [3], 1);
  }
}
