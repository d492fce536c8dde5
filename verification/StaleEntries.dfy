/**
  The first write after a delete that lost power between its last two tables (src/fat32.c:545-546): the entry is still
  there but its first cluster is free, and the write may take it. Here is exactly when, and what the entry then shows.
*/
module StaleEntries {
  import opened Bytes
  import opened Directory
  import opened Fat
  import opened Tree
  import opened Volumes
  import opened Views
  import opened Writing
  import opened Reading
  import opened Deleting
  import opened Guarantees
  import opened Crash
  import opened DeleteCrash

  // ---------- which clusters the first fit takes ----------

  /** How many of the clusters from k up to c are free. */
  function FreeBetween(f: Map, k: nat, c: nat): nat
    requires c <= 512
    decreases c - k
  {
    if k >= c then 0 else (if f[k] == EMPTY then 1 else 0) + FreeBetween(f, k + 1, c)
  }

  /** A free cluster is taken exactly when fewer clusters below it are free than are asked for; and these go first. */
  lemma {:induction false} TakenWhenReached(f: Map, k: nat, n: nat, c: DataCluster)
    requires 2 <= k <= c && f[c] == EMPTY
    ensures c in FirstFree(f, k, n) <==> FreeBetween(f, k, c) < n
    ensures FreeBetween(f, k, c) < n ==>
      FreeBetween(f, k, c) < |FirstFree(f, k, n)| && FirstFree(f, k, n)[FreeBetween(f, k, c)] == c
    decreases c - k
  {
    if n > 0 {
      if k == c {
        assert FirstFree(f, k, n)[0] == c;
      } else if f[k] == EMPTY {
        TakenWhenReached(f, k + 1, n - 1, c);
        var rest := FirstFree(f, k + 1, n - 1);
        assert FirstFree(f, k, n) == [k] + rest;
        assert c in [k] + rest <==> c in rest;
      } else {
        TakenWhenReached(f, k + 1, n, c);
      }
    }
  }

  // ---------- a write to a volume that need not be well formed ----------

  /** What a write does that finds its clusters, as long as the parent's cluster is not free. */
  lemma RawWrite(x: Volume, q: Request, buf: seq<byte>, fs: seq<DataCluster>)
    requires Fits(x, q, buf, fs) && x.fat[q.parent] != EMPTY
    ensures Write(x, q, buf).code == 0 && Ascending(fs) && forall c :: c in fs ==> x.fat[c] == EMPTY
    ensures var u, t, n := Write(x, q, buf).volume, TableAt(x, q.parent), FreeSlot(TableAt(x, q.parent), 0);
      && u.fat == Link(x.fat, fs) && TableAt(u, q.parent) == t[n := NewEntry(t[n], q, fs[0])]
      && (forall c: DataCluster :: c !in fs && c != q.parent ==> u.disk[c] == x.disk[c])
      && (forall i :: 0 <= i < |fs| ==> u.disk[fs[i]] == Blocks(q, buf)[i])
  {
    hide DecodeTable, EncodeTable, EncodeMap, Apply, Link, Blocks, NewEntry, FirstFree, PutsOf, Write, WritePuts;
    WriteSucceeds(x, q, buf, fs);
    FirstFreeShape(x.fat, ClustersFor(q.size));
    ApplyPuts(x.disk, fs, Blocks(q, buf));
    var t, n := TableAt(x, q.parent), FreeSlot(TableAt(x, q.parent), 0);
    DecodeTableOfEncode(t[n := NewEntry(t[n], q, fs[0])]);
    assert q.parent !in fs;
    forall i | 0 <= i < |fs|
      ensures fs[i] != q.parent
    {
      assert fs[i] in fs;
    }
  }

  lemma FitsWhenAnswered(x: Volume, q: Request, buf: seq<byte>)
    requires WriteDefined(x, q, buf) && Write(x, q, buf).code == 0 && q.parent < 512
    ensures Fits(x, q, buf, FirstFree(x.fat, 2, ClustersFor(q.size)))
  {
    hide DecodeTable, WritePuts, Apply, Link, FirstFree;
  }

  // ---------- the stale entry ----------

  /** Slot k of directory p holds the entry of a file whose first cluster c has been freed; the clusters of p and d have
      not. */
  predicate Stale(x: Volume, p: DataCluster, k: nat, e: Entry, c: DataCluster, d: DataCluster) {
    && 1 <= k < 64 && TableAt(x, p)[k] == e && e.Used() && !e.IsDirectory() && e.Start() == c
    && x.fat[c] == EMPTY && x.fat[p] != EMPTY && x.fat[d] != EMPTY
  }

  /** The entry stays; and either its clusters are still free and it dangles, or it shows the new data from its cluster
      on, whose chain it shares. */
  lemma StaleAfterWrite(x: Volume, p: DataCluster, k: nat, e: Entry, c: DataCluster, q: Request, buf: seq<byte>,
                        fs: seq<DataCluster>)
    requires Fits(x, q, buf, fs) && Stale(x, p, k, e, c, q.parent)
    ensures var u, j := Write(x, q, buf).volume, FreeBetween(x.fat, 2, c);
      && Write(x, q, buf).code == 0 && TableAt(u, p)[k] == e
      && (c in fs <==> j < |fs|)
      && (j >= |fs| ==> Show(u, p, k) == Dangling(e))
      && (j < |fs| ==>
            && Proper(u.fat, fs[0]) && Chain(u.fat, fs[0]) == fs
            && TableAt(u, q.parent)[FreeSlot(TableAt(x, q.parent), 0)].Start() == fs[0]
            && Show(u, p, k) == File(e, Contents(u.disk, fs[j..])))
  {
    hide DecodeTable, Write, Chain, Proper, Contents, FirstFree, Link, NewEntry, Blocks, NameTaken, FreeBetween;
    var u, j := Write(x, q, buf).volume, FreeBetween(x.fat, 2, c);
    RawWrite(x, q, buf, fs);
    TakenWhenReached(x.fat, 2, ClustersFor(q.size), c);
    LinkWords(x.fat, fs);
    assert p !in fs;
    assert TableAt(u, p)[k] == e;
    if j < |fs| {
      ChainOfLink(x.fat, fs);
      LinkedSuffix(u.fat, fs, j);
    } else {
      NotProper(u.fat, c);
    }
  }

  lemma NotProper(f: Map, c: DataCluster)
    requires f[c] == EMPTY
    ensures !Proper(f, c)
  {
  }

  // ---------- in the callers' terms ----------

  /** The crashes after n sectors that leave the entry in slot k of the parent's table and have freed c, the first of m
      clusters: the sector with its word is stored, the sector with the slot is not. */
  predicate FreedButNamed(c: DataCluster, m: nat, k: nat, n: nat) {
    c < 128 * Reached(n, m) && k >= 16 * Reached(n, m + 1)
  }

  lemma CrashLeavesStale(v: Volume, l: Layout, r: Request, k: nat, cs: seq<DataCluster>, n: nat, d: DataCluster)
    requires Deletes(v, l, r, k, cs) && |cs| > 0 && k < 64 && !TableAt(v, r.parent)[k].IsDirectory() && d in l.depth
    requires n <= 4 * (|cs| + 2) && FreedButNamed(cs[0], |cs|, k, n)
    ensures r.parent < 512 && Stale(CrashedAt(v, r.parent, k, cs, n), r.parent, k, TableAt(v, r.parent)[k], cs[0], d)
  {
    hide DecodeTable, CrashedAt, Deletes, VolumeOk, Reached, Ascending, Removable, TableAt, Coherent;
    DeletesMeans(v, l, r, k, cs);
    DoomedIsUsed(v, l, r, k, cs);
    var p: DataCluster := r.parent;
    CoherentWhenOk(v, l);
    Words(v, p, k, cs, n);
    SameBlankedTable(v, p, k, cs, n);
    NotInFile(v, l, r, k, cs, p);
    NotInFile(v, l, r, k, cs, d);
    assert cs[0] in cs;
  }

  lemma DoomedIsUsed(v: Volume, l: Layout, r: Request, k: nat, cs: seq<DataCluster>)
    requires Deletes(v, l, r, k, cs) && 1 <= k < 64
    ensures 2 <= r.parent < 512 && r.parent in l.depth && TableAt(v, r.parent)[k].Used()
  {
    hide DecodeTable, VolumeOk, Chain, Proper;
    NamedSlot(v, l, r.parent, k);
  }

  lemma CoherentWhenOk(v: Volume, l: Layout)
    requires VolumeOk(v, l)
    ensures Coherent(v)
  {
  }

  /** No directory is in the chain of a file, and its word is not empty. */
  lemma NotInFile(v: Volume, l: Layout, r: Request, k: nat, cs: seq<DataCluster>, d: DataCluster)
    requires Deletes(v, l, r, k, cs) && 1 <= k < 64 && !TableAt(v, r.parent)[k].IsDirectory() && d in l.depth
    ensures d !in cs && v.fat[d] != EMPTY
  {
    hide DecodeTable, VolumeOk, Chain, Proper;
    LiveDirectory(v, l, d);
    LiveDirectory(v, l, r.parent);
    NamedSlot(v, l, r.parent, k);
    if d in cs && d != ROOT { EnteredBy(v, l, d); }
    if ROOT in cs { DeletesMeans(v, l, r, k, cs); }
  }

  /** A delete of a file that loses power when the word of the first cluster is cleared and the slot is not leaves a
      stale entry: whatever is then written, in whichever directory, the entry stays, and it shows the data of the new
      entry - from the cluster on that was its own first one - if and only if fewer clusters below that one were free
      than the write needed; otherwise it dangles. */
  lemma StaleEntryShows(v: Volume, r: Request, w: Volume, n: nat, q: Request, buf: seq<byte>)
    requires Deleted(v, r, w) && IsDirectory(v, q.parent)
    ensures 2 <= r.parent < 512 && Doomed(v, r) != []
    ensures var k, cs := FindSlot(TableAt(v, r.parent), r.name, r.ext, 1), Doomed(v, r);
      k < 64 && n <= 4 * |Delete(v, r).puts| ==>
        var x, e := AfterSectors(v, r, n), TableAt(v, r.parent)[k];
        && FreedButNamed(cs[0], |cs|, k, n) && !e.IsDirectory()
        && WriteDefined(x, q, buf) && Write(x, q, buf).code == 0 ==>
          var u, fs := Write(x, q, buf).volume, FirstFree(x.fat, 2, ClustersFor(q.size));
          var j := FreeBetween(x.fat, 2, cs[0]);
          && TableAt(u, r.parent)[k] == e
          && (j >= ClustersFor(q.size) ==> Show(u, r.parent, k) == Dangling(e))
          && (j < ClustersFor(q.size) ==>
                j < |fs| && fs[j] == cs[0] && Show(u, r.parent, k) == File(e, Contents(u.disk, fs[j..])))
  {
    hide Deleted, Delete, DecodeTable, Play, Expand, FindSlot, VolumeOk, Deletes, Removal, DeletePuts, Contents, Write,
         WriteDefined, Show, Doomed, CrashedAt, FirstFree, FreeBetween, DirectoryAt, Reached, Stale, Fits;
    var l, k := DeletedMeans(v, r, w);
    var cs := Doomed(v, r);
    PutsOfDelete(v, l, r, k, cs);
    DeletesMeans(v, l, r, k, cs);
    SlotIsFound(v, l, r, k, cs);
    if n <= 4 * |Delete(v, r).puts| && FreedButNamed(cs[0], |cs|, k, n) && !TableAt(v, r.parent)[k].IsDirectory() {
      var x := AfterSectors(v, r, n);
      assert x == CrashedAt(v, r.parent, k, cs, n) by { IsCrashedAt(v, r, k, cs, n); }
      DirectoriesAreReachable(v, l, q.parent);
      CrashLeavesStale(v, l, r, k, cs, n, q.parent);
      if WriteDefined(x, q, buf) && Write(x, q, buf).code == 0 {
        FitsWhenAnswered(x, q, buf);
        var fs := FirstFree(x.fat, 2, ClustersFor(q.size));
        FitsTakes(x, q, buf, fs);
        StaleAfterWrite(x, r.parent, k, TableAt(v, r.parent)[k], cs[0], q, buf, fs);
        StaleIsFree(x, r.parent, k, TableAt(v, r.parent)[k], cs[0], q.parent);
        TakenFirst(x, cs, ClustersFor(q.size));
      }
    }
  }

  lemma StaleIsFree(x: Volume, p: DataCluster, k: nat, e: Entry, c: DataCluster, d: DataCluster)
    requires Stale(x, p, k, e, c, d)
    ensures x.fat[c] == EMPTY
  {
  }

  lemma FitsTakes(x: Volume, q: Request, buf: seq<byte>, fs: seq<DataCluster>)
    requires Fits(x, q, buf, fs)
    ensures |fs| == ClustersFor(q.size) && 2 <= q.parent < 512 && FreeSlot(TableAt(x, q.parent), 0) < 64
  {
    hide DecodeTable, FirstFree, NameTaken;
  }

  lemma TakenFirst(x: Volume, cs: seq<DataCluster>, need: nat)
    requires |cs| > 0 && x.fat[cs[0]] == EMPTY
    ensures var fs, j := FirstFree(x.fat, 2, need), FreeBetween(x.fat, 2, cs[0]);
      j < need ==> j < |fs| && fs[j] == cs[0]
  {
    TakenWhenReached(x.fat, 2, need, cs[0]);
  }

  lemma IsCrashedAt(v: Volume, r: Request, k: nat, cs: seq<DataCluster>, n: nat)
    requires DeleteDefined(v, r) && 2 <= r.parent < 512 && k < 64 && n <= 4 * |Delete(v, r).puts|
    requires Delete(v, r).puts == DeletePuts(v, r.parent, k, cs) && |Delete(v, r).puts| == |cs| + 2
    ensures AfterSectors(v, r, n) == CrashedAt(v, r.parent, k, cs, n)
  {
    hide Delete, DeletePuts, Play, Expand;
  }
}
