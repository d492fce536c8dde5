/**
  The file allocation table: its 512 words, the chains linked through them, and
  the first-fit allocation of src/fat32.c:405-414.
*/
module Fat {
  import opened Bytes
  import opened Directory

  const CLUSTER_0_VALUE: u32 := 0x0FFF_FFF0
  const CLUSTER_1_VALUE: u32 := 0x0FFF_FFFF
  const END_OF_FILE: u32 := 0x0FFF_FFFF
  const EMPTY: u32 := 0

  /** A cluster that can hold a directory table or file data. */
  type DataCluster = c: int | 2 <= c < 512 witness 2
  type Map = f: seq<u32> | |f| == 512 witness seq(512, _ => 0)

  // ---------- the table as the bytes of cluster 1 ----------

  function EncodeMap(f: Map): Cluster {
    seq(2048, k requires 0 <= k < 2048 => Encode32(f[k / 4])[k % 4])
  }

  function DecodeMap(c: Cluster): Map {
    seq(512, i requires 0 <= i < 512 => Decode32(c[4 * i..4 * i + 4]))
  }

  /** Word i of the table lies at byte 4 * i, its lowest byte first. */
  lemma MapLayout(f: Map, i: nat)
    requires i < 512
    ensures var c := EncodeMap(f);
      && c[4 * i] == f[i] % 0x100 && c[4 * i + 1] == f[i] / 0x100 % 0x100
      && c[4 * i + 2] == f[i] / 0x1_0000 % 0x100 && c[4 * i + 3] == f[i] / 0x100_0000
  {
    LowestFirst(f[i]);
  }

  lemma EncodedWord(f: Map, i: nat)
    requires i < 512
    ensures EncodeMap(f)[4 * i..4 * i + 4] == Encode32(f[i])
  {
    var c := EncodeMap(f);
    forall k | 0 <= k < 4
      ensures c[4 * i..4 * i + 4][k] == Encode32(f[i])[k]
    {
      assert c[4 * i..4 * i + 4][k] == c[4 * i + k];
      assert (4 * i + k) / 4 == i && (4 * i + k) % 4 == k;
    }
  }

  /** Mounting reads back exactly the table that was written. */
  lemma DecodeMapOfEncode(f: Map)
    ensures DecodeMap(EncodeMap(f)) == f
  {
    forall i | 0 <= i < 512
      ensures DecodeMap(EncodeMap(f))[i] == f[i]
    {
      EncodedWord(f, i);
      Decode32OfEncode(f[i]);
    }
  }

  lemma EqualByWords(a: Cluster, b: Cluster)
    requires forall i :: 0 <= i < 512 ==> a[4 * i..4 * i + 4] == b[4 * i..4 * i + 4]
    ensures a == b
  {
    forall k | 0 <= k < 2048
      ensures a[k] == b[k]
    {
      var i := k / 4;
      assert a[4 * i..4 * i + 4][k % 4] == a[k];
      assert b[4 * i..4 * i + 4][k % 4] == b[k];
    }
  }

  /** The table view of a cluster holds every one of its bits. */
  lemma EncodeMapOfDecode(c: Cluster)
    ensures EncodeMap(DecodeMap(c)) == c
  {
    hide EncodeMap;
    var f := DecodeMap(c);
    forall i | 0 <= i < 512
      ensures EncodeMap(f)[4 * i..4 * i + 4] == c[4 * i..4 * i + 4]
    {
      EncodedWord(f, i);
      Encode32OfDecode(c[4 * i..4 * i + 4]);
    }
    EqualByWords(EncodeMap(f), c);
  }

  // ---------- chains ----------

  /** Following the links from s stays inside the table, always goes up, and ends. */
  predicate Proper(f: Map, s: int)
    decreases 512 - s
  {
    2 <= s < 512 && (f[s] == END_OF_FILE || (s < f[s] < 512 && Proper(f, f[s])))
  }

  function Chain(f: Map, s: int): seq<DataCluster>
    requires Proper(f, s)
    decreases 512 - s
  {
    if f[s] == END_OF_FILE then [s] else [s] + Chain(f, f[s])
  }

  predicate Ascending(cs: seq<DataCluster>) {
    forall i, j :: 0 <= i < j < |cs| ==> cs[i] < cs[j]
  }

  /** The word that cluster cs[i] gets when cs is linked into a chain. */
  function LinkWord(cs: seq<DataCluster>, i: nat): u32
    requires i < |cs|
  {
    if i + 1 < |cs| then cs[i + 1] else END_OF_FILE
  }

  lemma AscendingCons(c: DataCluster, cs: seq<DataCluster>)
    requires Ascending(cs) && (|cs| > 0 ==> c < cs[0])
    ensures Ascending([c] + cs)
  {
    var all := [c] + cs;
    forall i, j | 0 <= i < j < |all|
      ensures all[i] < all[j]
    {
      assert all[j] == cs[j - 1] && cs[0] <= cs[j - 1];
      if i > 0 { assert all[i] == cs[i - 1]; }
    }
  }

  lemma {:induction false} ChainAscends(f: Map, s: int)
    requires Proper(f, s)
    ensures |Chain(f, s)| > 0 && Chain(f, s)[0] == s && Ascending(Chain(f, s))
    decreases 512 - s
  {
    if f[s] != END_OF_FILE {
      ChainAscends(f, f[s]);
      AscendingCons(s, Chain(f, f[s]));
    }
  }

  lemma {:induction false} ChainWords(f: Map, s: int, i: nat)
    requires Proper(f, s) && i < |Chain(f, s)|
    ensures var cs := Chain(f, s);
      f[cs[i]] == LinkWord(cs, i) != EMPTY
    decreases i
  {
    if i > 0 {
      ChainWords(f, f[s], i - 1);
    } else if f[s] != END_OF_FILE {
      ChainAscends(f, f[s]);
    }
  }

  /** A chain starts at s, goes up along the links, and ends with the end-of-file mark. */
  lemma ChainShape(f: Map, s: int)
    requires Proper(f, s)
    ensures var cs := Chain(f, s);
      && |cs| > 0 && cs[0] == s && Ascending(cs)
      && (forall i :: 0 <= i < |cs| ==> f[cs[i]] == LinkWord(cs, i))
    ensures forall c :: c in Chain(f, s) ==> s <= c && f[c] != EMPTY
  {
    ChainAscends(f, s);
    var cs := Chain(f, s);
    forall i | 0 <= i < |cs|
      ensures f[cs[i]] == LinkWord(cs, i)
      ensures f[cs[i]] != EMPTY
    {
      ChainWords(f, s, i);
    }
    forall c | c in cs
      ensures s <= c && f[c] != EMPTY
    {
      var i :| 0 <= i < |cs| && cs[i] == c;
      assert f[cs[i]] != EMPTY;
    }
  }

  /** A chain depends on the words of its own clusters only. */
  lemma {:induction false} ChainFrame(f: Map, g: Map, s: int)
    requires Proper(f, s)
    requires forall c :: c in Chain(f, s) ==> g[c] == f[c]
    ensures Proper(g, s) && Chain(g, s) == Chain(f, s)
    decreases 512 - s
  {
    assert s in Chain(f, s);
    if f[s] != END_OF_FILE {
      assert forall c :: c in Chain(f, f[s]) ==> c in Chain(f, s);
      ChainFrame(f, g, f[s]);
    }
  }

  // ---------- allocation ----------

  /** The first n free clusters at or above k, in ascending order. */
  function FirstFree(f: Map, k: nat, n: nat): (cs: seq<DataCluster>)
    requires k >= 2
    decreases 512 - k
  {
    if n == 0 || k >= 512 then []
    else if f[k] == EMPTY then [k] + FirstFree(f, k + 1, n - 1)
    else FirstFree(f, k + 1, n)
  }

  function FreeFrom(f: Map, k: nat): set<DataCluster> {
    set c: DataCluster | k <= c < 512 && f[c] == EMPTY
  }

  /** The clusters an allocation may take. */
  function FreeClusters(f: Map): set<DataCluster> {
    FreeFrom(f, 2)
  }

  lemma {:induction false} FirstFreeAscends(f: Map, k: nat, n: nat)
    requires k >= 2
    ensures var cs := FirstFree(f, k, n);
      |cs| <= n && Ascending(cs) && forall i :: 0 <= i < |cs| ==> k <= cs[i] && f[cs[i]] == EMPTY
    decreases 512 - k
  {
    if n == 0 || k >= 512 {
    } else if f[k] == EMPTY {
      FirstFreeAscends(f, k + 1, n - 1);
      AscendingCons(k, FirstFree(f, k + 1, n - 1));
    } else {
      FirstFreeAscends(f, k + 1, n);
    }
  }

  lemma {:induction false} FirstFreeSkipsNone(f: Map, k: nat, n: nat, c: DataCluster)
    requires 2 <= k <= c && f[c] == EMPTY
    requires var cs := FirstFree(f, k, n); |cs| < n || (|cs| > 0 && c <= cs[|cs| - 1])
    ensures c in FirstFree(f, k, n)
    decreases 512 - k
  {
    FirstFreeAscends(f, k, n);
    if c > k {
      FirstFreeSkipsNone(f, k + 1, if f[k] == EMPTY then n - 1 else n, c);
    }
  }

  /** First fit: what is taken is free and ascending, and no free cluster below it was passed over. */
  lemma FirstFreeShape(f: Map, n: nat)
    ensures var cs := FirstFree(f, 2, n);
      && |cs| <= n && Ascending(cs)
      && (forall c :: c in cs ==> f[c] == EMPTY)
      && (forall c: DataCluster, i :: 0 <= i < |cs| && c < cs[i] && f[c] == EMPTY ==> c in cs)
  {
    FirstFreeAscends(f, 2, n);
    var cs := FirstFree(f, 2, n);
    forall c: DataCluster, i | 0 <= i < |cs| && c < cs[i] && f[c] == EMPTY
      ensures c in cs
    {
      FirstFreeSkipsNone(f, 2, n, c);
    }
  }

  /** The allocation is as long as asked for, or as long as there is space. */
  lemma {:induction false} FirstFreeCount(f: Map, k: nat, n: nat)
    requires k >= 2
    ensures |FirstFree(f, k, n)| == if n <= |FreeFrom(f, k)| then n else |FreeFrom(f, k)|
    decreases 512 - k
  {
    if k >= 512 {
      assert FreeFrom(f, k) == {};
    } else if f[k] == EMPTY {
      assert FreeFrom(f, k) == {k} + FreeFrom(f, k + 1);
      if n > 0 { FirstFreeCount(f, k + 1, n - 1); }
    } else {
      assert FreeFrom(f, k) == FreeFrom(f, k + 1);
      if n > 0 { FirstFreeCount(f, k + 1, n); }
    }
  }

  function Elements(cs: seq<DataCluster>): set<DataCluster> {
    set c | c in cs
  }

  lemma {:induction false} AscendingIsDistinct(cs: seq<DataCluster>)
    requires Ascending(cs)
    ensures |Elements(cs)| == |cs|
  {
    if cs == [] {
      assert Elements(cs) == {};
    } else {
      var n := |cs| - 1;
      AscendingIsDistinct(cs[..n]);
      assert cs == cs[..n] + [cs[n]];
      assert Elements(cs) == Elements(cs[..n]) + {cs[n]};
    }
  }

  // ---------- linking and clearing ----------

  /** The table after the first i clusters of cs have been linked. */
  function LinkFirst(f: Map, cs: seq<DataCluster>, i: nat): Map
    requires i <= |cs|
  {
    if i == 0 then f
    else LinkFirst(f, cs, i - 1)[cs[i - 1] := LinkWord(cs, i - 1)]
  }

  function Link(f: Map, cs: seq<DataCluster>): Map
  {
    LinkFirst(f, cs, |cs|)
  }

  lemma {:induction false} LinkFirstWords(f: Map, cs: seq<DataCluster>, i: nat)
    requires i <= |cs| && Ascending(cs)
    ensures forall j :: 0 <= j < i ==> LinkFirst(f, cs, i)[cs[j]] == LinkWord(cs, j)
    ensures forall c :: 0 <= c < 512 && c !in cs[..i] ==> LinkFirst(f, cs, i)[c] == f[c]
  {
    if i > 0 {
      LinkFirstWords(f, cs, i - 1);
      assert cs[..i] == cs[..i - 1] + [cs[i - 1]];
    }
  }

  /** Linking touches the linked clusters only, and leaves each pointing at the next. */
  lemma LinkWords(f: Map, cs: seq<DataCluster>)
    requires Ascending(cs)
    ensures forall j :: 0 <= j < |cs| ==> Link(f, cs)[cs[j]] == LinkWord(cs, j)
    ensures forall c :: 0 <= c < 512 && c !in cs ==> Link(f, cs)[c] == f[c]
  {
    LinkFirstWords(f, cs, |cs|);
    assert cs[..|cs|] == cs;
  }

  lemma {:induction false} LinkedSuffix(g: Map, cs: seq<DataCluster>, i: nat)
    requires i < |cs| && Ascending(cs)
    requires forall j :: 0 <= j < |cs| ==> g[cs[j]] == LinkWord(cs, j)
    ensures Proper(g, cs[i]) && Chain(g, cs[i]) == cs[i..]
    decreases |cs| - i
  {
    assert g[cs[i]] == LinkWord(cs, i);
    if i + 1 < |cs| {
      assert cs[i] < cs[i + 1];
      hide Ascending;
      LinkedSuffix(g, cs, i + 1);
      assert cs[i..] == [cs[i]] + cs[i + 1..];
    } else {
      assert cs[i..] == [cs[i]];
    }
  }

  /** The allocated clusters become one proper chain. */
  lemma ChainOfLink(f: Map, cs: seq<DataCluster>)
    requires |cs| > 0 && Ascending(cs)
    ensures Proper(Link(f, cs), cs[0]) && Chain(Link(f, cs), cs[0]) == cs
  {
    LinkWords(f, cs);
    LinkedSuffix(Link(f, cs), cs, 0);
    assert cs[0..] == cs;
  }

  /** The table with every cluster of cs marked empty. */
  function Clear(f: Map, cs: seq<DataCluster>): Map
  {
    if cs == [] then f
    else Clear(f, cs[..|cs| - 1])[cs[|cs| - 1] := EMPTY]
  }

  lemma {:induction false} ClearWords(f: Map, cs: seq<DataCluster>)
    ensures forall c :: 0 <= c < 512 ==> Clear(f, cs)[c] == if c in cs then EMPTY else f[c]
  {
    if cs != [] {
      var n := |cs| - 1;
      assert cs == cs[..n] + [cs[n]];
      ClearWords(f, cs[..n]);
    }
  }

  /** Clearing a chain laid in free clusters gives back the table bit for bit. */
  lemma ClearOfLink(f: Map, cs: seq<DataCluster>)
    requires Ascending(cs) && forall c :: c in cs ==> f[c] == EMPTY
    ensures Clear(Link(f, cs), cs) == f
  {
    LinkWords(f, cs);
    ClearWords(Link(f, cs), cs);
  }

  lemma LinkedIsTaken(f: Map, cs: seq<DataCluster>, c: DataCluster)
    requires Ascending(cs)
    ensures Link(f, cs)[c] == EMPTY <==> c !in cs && f[c] == EMPTY
  {
    LinkWords(f, cs);
    if c in cs {
      var j :| 0 <= j < |cs| && cs[j] == c;
      assert Link(f, cs)[cs[j]] == LinkWord(cs, j);
    }
  }

  /** Linking free clusters takes exactly those. */
  lemma FreeAfterLink(f: Map, cs: seq<DataCluster>)
    requires Ascending(cs) && forall c :: c in cs ==> f[c] == EMPTY
    ensures FreeClusters(Link(f, cs)) == FreeClusters(f) - Elements(cs)
    ensures |FreeClusters(Link(f, cs))| == |FreeClusters(f)| - |cs|
  {
    AscendingIsDistinct(cs);
    var before, after := FreeClusters(f), FreeClusters(Link(f, cs));
    forall c: DataCluster
      ensures c in after <==> c in before - Elements(cs)
    {
      LinkedIsTaken(f, cs, c);
    }
    assert after == before - Elements(cs);
    assert Elements(cs) <= before;
  }

  /** Clearing allocated clusters frees exactly those. */
  lemma FreeAfterClear(f: Map, cs: seq<DataCluster>)
    requires Ascending(cs) && forall c :: c in cs ==> f[c] != EMPTY
    ensures FreeClusters(Clear(f, cs)) == FreeClusters(f) + Elements(cs)
    ensures |FreeClusters(Clear(f, cs))| == |FreeClusters(f)| + |cs|
  {
    AscendingIsDistinct(cs);
    ClearWords(f, cs);
    var before, after := FreeClusters(f), FreeClusters(Clear(f, cs));
    forall c: DataCluster
      ensures c in after <==> c in before + Elements(cs)
    {
      assert Clear(f, cs)[c] == if c in cs then EMPTY else f[c];
    }
    assert after == before + Elements(cs);
    assert before !! Elements(cs);
  }
}
