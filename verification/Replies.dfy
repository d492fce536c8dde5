/**
  What the four operations on files and folders answer, for every request, and what a write and a format store, byte by
  byte (src/fat32.c:154-552) - in terms of tables, clusters and bytes alone.
*/
module Replies {
  import opened Wrappers
  import opened Bytes
  import opened Directory
  import opened Fat
  import opened Tree
  import opened Volumes
  import opened Views
  import opened Writing
  import opened Reading
  import opened Guarantees
  import opened FindableRuns
  import Find

  // ---------- write ----------

  /** Some slot from 1 on has the name. */
  predicate NameIn(t: Table, name: Name) {
    exists i :: 1 <= i < 64 && t[i].name == name
  }

  /** Where write stays inside its arrays: a slot of the parent must be free, the clusters must be no more than an 8-bit
      number counts, and the buffer must hold the file. */
  lemma WritingIsDefined(v: Volume, r: Request, buf: seq<byte>)
    ensures WriteDefined(v, r, buf) <==>
      r.name == [0, 0, 0, 0, 0, 0, 0, 0] || r.parent < 2 ||
      (r.parent < 2048 &&
       (NameIn(TableAt(v, r.parent), r.name) ||
        ((exists n :: 0 <= n < 64 && !TableAt(v, r.parent)[n].Used())
         && (r.size + 2047) / 2048 <= 0xFF && r.size <= |buf|)))
  {
    hide DecodeTable;
  }

  /** What write answers, on any volume; and a refusal changes nothing and writes no sector. */
  lemma WritingAnswers(v: Volume, r: Request, buf: seq<byte>)
    requires WriteDefined(v, r, buf)
    ensures r.name != ZERO_NAME && r.parent >= 2 ==> r.parent < 2048
    ensures var need := if r.size == 0 then 1 else (r.size + 2047) / 2048;
      Write(v, r, buf).code ==
        if r.name == [0, 0, 0, 0, 0, 0, 0, 0] then -1
        else if r.parent < 2 then 2
        else if NameIn(TableAt(v, r.parent), r.name) || |FreeClusters(v.fat)| < need then 1
        else 0
    ensures Write(v, r, buf).code != 0 ==> Write(v, r, buf).volume == v && Write(v, r, buf).puts == []
  {
    hide DecodeTable, FreeFrom, WritePuts, Apply, Link;
    FirstFreeCount(v.fat, 2, ClustersFor(r.size));
  }

  /** The lowest free cluster. */
  predicate LowestFreeCluster(f: Map, c: DataCluster) {
    f[c] == EMPTY && forall i :: 2 <= i < c ==> f[i] != EMPTY
  }

  /** The first slot that is not in use. */
  predicate FirstFreeSlot(t: Table, n: nat) {
    n < 64 && !t[n].Used() && forall i :: 0 <= i < n ==> t[i].Used()
  }

  lemma FreeSlotIs(t: Table, n: nat)
    requires FirstFreeSlot(t, n)
    ensures FreeSlot(t, 0) == n
  {
    var k := FreeSlot(t, 0);
    assert !(k < n) && !(n < k);
  }

  /** The 32 bytes of a new entry. */
  predicate EntryBytes(s: seq<byte>, r: Request, start: DataCluster)
    requires |s| == 32
  {
    && s[..8] == r.name && s[8..11] == (if r.size == 0 then [0, 0, 0] else r.ext)
    && s[11] == (if r.size == 0 then 0x10 else 0x20) && s[12] == 0xAA
    && (forall k :: 13 <= k < 26 ==> s[k] == 0)
    && s[26] == start % 0x100 && s[27] == start / 0x100
    && s[28] == r.size % 0x100 && s[29] == r.size / 0x100 % 0x100
    && s[30] == r.size / 0x1_0000 % 0x100 && s[31] == r.size / 0x100_0000
  }

  lemma NewEntryBytes(r: Request, start: DataCluster)
    ensures EntryBytes(EncodeEntry(NewEntry(EMPTY_ENTRY, r, start)), r, start)
  {
    var e := NewEntry(EMPTY_ENTRY, r, start);
    assert e.clusterHigh == 0 && e.clusterLow == start;
    hide EncodeEntry, NewEntry;
    EntryLayout(e);
  }

  lemma OneSlotChanged(t: Table, n: nat, e: Entry, k: nat)
    requires n < 64 && k < 2048
    ensures k / 32 != n ==> EncodeTable(t[n := e])[k] == EncodeTable(t)[k]
  {
    hide EncodeEntry;
  }

  /** The bytes of slot n are those of the new entry, and no others have changed. */
  predicate StoredIn(after: seq<byte>, before: seq<byte>, n: nat, r: Request, start: DataCluster) {
    && n < 64 && |after| == |before| == 2048 && EntryBytes(after[32 * n..32 * n + 32], r, start)
    && forall k :: 0 <= k < 2048 && k / 32 != n ==> after[k] == before[k]
  }

  lemma TableStores(t: Table, n: nat, r: Request, start: DataCluster)
    requires n < 64
    ensures StoredIn(EncodeTable(t[n := NewEntry(EMPTY_ENTRY, r, start)]), EncodeTable(t), n, r, start)
  {
    hide EncodeTable, EncodeEntry, NewEntry, EntryBytes;
    var e := NewEntry(EMPTY_ENTRY, r, start);
    EncodedSlot(t[n := e], n);
    NewEntryBytes(r, start);
    forall k | 0 <= k < 2048 && k / 32 != n
      ensures EncodeTable(t[n := e])[k] == EncodeTable(t)[k]
    {
      OneSlotChanged(t, n, e, k);
    }
  }

  /** What a successful write stores in the parent's cluster p: the 32 bytes of the first free slot, and no others. */
  lemma WritingStores(v: Volume, r: Request, buf: seq<byte>, w: Volume, p: DataCluster, n: nat, start: DataCluster)
    requires p == r.parent && FirstFreeSlot(TableAt(v, p), n) && LowestFreeCluster(v.fat, start)
    requires Written(v, r, buf, w)
    ensures StoredIn(w.disk[p], v.disk[p], n, r, start)
  {
    hide DecodeTable, EncodeTable, VolumeOk, Write, Written, NewEntry, StoredIn, Apply, FirstFree, Staged, Blocks;
    var l, cs := WrittenMeans(v, r, buf, w);
    WritesMeans(v, l, r, buf, cs);
    FreeSlotIs(TableAt(v, p), n);
    StartsLowest(v.fat, ClustersFor(r.size), start);
    WriteSucceeds(v, r, buf, cs);
    EncodeTableOfDecode(v.disk[p]);
    TableStores(TableAt(v, p), n, r, start);
  }

  lemma StartsLowest(f: Map, n: nat, c: DataCluster)
    requires LowestFreeCluster(f, c) && n > 0
    ensures FirstFree(f, 2, n) != [] && FirstFree(f, 2, n)[0] == c
  {
    StartsFrom(f, 2, n, c);
  }

  lemma {:induction false} StartsFrom(f: Map, k: nat, n: nat, c: DataCluster)
    requires n > 0 && 2 <= k <= c && f[c] == EMPTY && forall i :: k <= i < c ==> f[i] != EMPTY
    ensures FirstFree(f, k, n) != [] && FirstFree(f, k, n)[0] == c
    decreases c - k
  {
    if k < c { StartsFrom(f, k + 1, n, c); }
  }

  // ---------- read ----------

  /** The two refusals of read that need no look at the disk: no name, and a folder's size. They leave the buffer. */
  lemma ReadingRefuses(v: Volume, r: Request, buf: seq<byte>)
    requires ReadDefined(v, r, buf)
    ensures Read(v, r, buf).code == -1 <==> r.name == [0, 0, 0, 0, 0, 0, 0, 0]
    ensures Read(v, r, buf).code == 1 <==> r.name != [0, 0, 0, 0, 0, 0, 0, 0] && r.size == 0
    ensures Read(v, r, buf).code in {-1, 1} ==> Read(v, r, buf).buf == buf
  {
    hide DecodeTable, Fetched, ReadFrom;
    if r.name != ZERO_NAME && r.size > 0 { SearchCode(v, r, buf, 1); }
  }

  lemma {:induction false} SearchCode(v: Volume, r: Request, buf: seq<byte>, i: nat)
    requires r.name != ZERO_NAME && r.size > 0 && ReadDefined(v, r, buf) && 1 <= i <= 64
    ensures ReadFrom(v, r, buf, i).code in {0, 2, 3}
    decreases 64 - i
  {
    hide DecodeTable, Chain, Proper, Contents;
    if i < 64 {
      var e := TableAt(v, r.parent)[i];
      if Matches(e, r) { SearchCode(v, r, Fetched(v.disk, Chain(v.fat, e.Start()), r.size, buf), i + 1); }
      else { SearchCode(v, r, buf, i + 1); }
    }
  }

  lemma {:induction false} ClusterOf(d: Disk, cs: seq<DataCluster>, i: nat)
    requires i < |cs|
    ensures Contents(d, cs)[2048 * i..2048 * i + 2048] == d[cs[i]]
  {
    var n := |cs| - 1;
    if i < n { ClusterOf(d, cs[..n], i); }
  }

  /** What read copies: as many of the file's clusters as the size takes, in the order of the chain; nothing else. */
  lemma ReadingCopies(v: Volume, r: Request, buf: seq<byte>, i: nat)
    requires WellFormed(v) && IsDirectory(v, r.parent) && r.name != ZERO_NAME && 1 <= i < 64
    requires r.size > 0 && 2048 * ((r.size + 2047) / 2048) <= |buf| && Matches(TableAt(v, r.parent)[i], r)
    ensures ReadDefined(v, r, buf) && Proper(v.fat, TableAt(v, r.parent)[i].Start())
    ensures var cs, need := Chain(v.fat, TableAt(v, r.parent)[i].Start()), (r.size + 2047) / 2048;
      var k := if need <= |cs| then need else |cs|;
      var into := Read(v, r, buf).buf;
      && |into| == |buf| && into[2048 * k..] == buf[2048 * k..]
      && forall j :: 0 <= j < k ==> into[2048 * j..2048 * j + 2048] == v.disk[cs[j]]
  {
    hide DecodeTable, DirectoryAt, WellFormed, Read, ReadDefined, Proper, Chain, Contents;
    ReadingAnswers(v, r, buf, i);
    var cs, need := Chain(v.fat, TableAt(v, r.parent)[i].Start()), (r.size + 2047) / 2048;
    var k := if need <= |cs| then need else |cs|;
    var front := Contents(v.disk, cs[..k]);
    assert Read(v, r, buf).buf == front + buf[2048 * k..];
    forall j | 0 <= j < k
      ensures (front + buf[2048 * k..])[2048 * j..2048 * j + 2048] == v.disk[cs[j]]
    {
      ClusterOf(v.disk, cs[..k], j);
      assert (front + buf[2048 * k..])[2048 * j..2048 * j + 2048] == front[2048 * j..2048 * j + 2048];
    }
  }

  // ---------- read_directory ----------

  /** Slot i is the first with this name, slot 0 included. */
  predicate FirstNamed(t: Table, name: Name, i: nat) {
    i < 64 && t[i].name == name && forall j :: 0 <= j < i ==> t[j].name != name
  }

  /** What read_directory answers: a folder's own cluster, 1 for a file, 2 for a name that is not there. */
  lemma ReadingDirectoryAnswers(v: Volume, r: Request, buf: seq<byte>, p: DataCluster, i: nat)
    requires p == r.parent && r.name != ZERO_NAME && WellFormed(v) && IsDirectory(v, p)
    ensures ReadDirectoryDefined(v, r)
    ensures FirstNamed(TableAt(v, p), r.name, i) ==>
      var e := TableAt(v, p)[i];
      if e.IsDirectory() then e.Start() < 512 && ReadDirectory(v, r, buf) == ReadResult(0, v.disk[e.Start()])
      else ReadDirectory(v, r, buf) == ReadResult(1, buf)
    ensures (forall j :: 0 <= j < 64 ==> TableAt(v, p)[j].name != r.name) ==>
      ReadDirectory(v, r, buf) == ReadResult(2, buf)
  {
    hide DecodeTable, VolumeOk, FindName, Chain, Proper, DirectoryAt;
    var l :| VolumeOk(v, l);
    DirectoriesAreReachable(v, l, p);
    LiveDirectory(v, l, p);
    Find.ParentIsLive(v, l, p);
    var t := TableAt(v, p);
    assert StructureOf(v).tables[p] == t;
    var k := FindName(t, r.name, 0);
    if k < 64 {
      if k > 0 { NamedSlot(v, l, p, k); }
      if FirstNamed(t, r.name, i) { assert !(i < k) && !(k < i); }
    }
  }

  /** Without a name read_directory and delete do nothing. */
  lemma NoNameIsRefused(v: Volume, r: Request, buf: seq<byte>)
    requires r.name == [0, 0, 0, 0, 0, 0, 0, 0]
    ensures ReadDirectoryDefined(v, r) && ReadDirectory(v, r, buf) == ReadResult(-1, buf)
    ensures DeleteDefined(v, r) && Delete(v, r) == Outcome(-1, v, [])
  {
  }

  /** A new entry is listed: read_directory of the directory that was written to, through its own entry, gives a table
      that is the old one but for the first free slot, and there is the new entry - unless the directory has the name of
      the one it is entered in, whose table is given instead. */
  lemma WrittenIsListed(v: Volume, r: Request, buf: seq<byte>, w: Volume, path: Path, n: nat, start: DataCluster,
                        q: Request, into: seq<byte>, d: DataCluster, p: DataCluster)
    requires d == r.parent && DirectoryAt(v, path) == Some(d)
    requires FirstFreeSlot(TableAt(v, d), n) && LowestFreeCluster(v.fat, start)
    requires q.name == TableAt(v, d)[0].name && p == q.parent == ParentOf(v, d)
    requires path == [] || q.name != TableAt(v, p)[0].name
    requires Written(v, r, buf, w)
    ensures ReadDirectoryDefined(w, q)
    ensures ReadDirectory(w, q, into).code == 0 && StoredIn(ReadDirectory(w, q, into).buf, v.disk[d], n, r, start)
  {
    hide DecodeTable, EncodeTable, VolumeOk, Write, Written, StoredIn, DirectoryAt, ReadDirectory, FirstNamed,
         ReadDirectoryDefined, TableAt, FirstFreeSlot, LowestFreeCluster, WellFormed, IsDirectory;
    WritingStores(v, r, buf, w, d, n, start);
    var i := OwnSlot(v, r, buf, w, path, q, d, p);
    ReadingDirectoryAnswers(w, q, into, p, i);
  }

  /** The slot of the directory above in which the written directory is found, before and after. */
  lemma OwnSlot(v: Volume, r: Request, buf: seq<byte>, w: Volume, path: Path, q: Request, d: DataCluster,
                p: DataCluster) returns (i: nat)
    requires d == r.parent && DirectoryAt(v, path) == Some(d)
    requires q.name == TableAt(v, d)[0].name && p == q.parent == ParentOf(v, d)
    requires path == [] || q.name != TableAt(v, p)[0].name
    requires Written(v, r, buf, w)
    ensures WellFormed(w) && IsDirectory(w, p) && q.name != ZERO_NAME
    ensures FirstNamed(TableAt(w, p), q.name, i)
    ensures TableAt(w, p)[i].IsDirectory() && TableAt(w, p)[i].Start() == d
  {
    hide DecodeTable, EncodeTable, Write, VolumeOk, Chain, Proper, FreeSlot, Plain, DirectoryAt, Written;
    var l, cs := WrittenMeans(v, r, buf, w);
    var e := WrittenSlot(v, r, buf, w);
    WriteKeepsVolume(v, l, r, buf, cs);
    var m := Grown(l, d, FreeSlot(TableAt(v, d), 0), cs, r.size == 0);
    WritesMean(v, l, r, buf, cs);
    DirectoryAtIsLive(v, l, path);
    if path == [] {
      RootPath(v);
      Find.RootTable(v, l);
      Find.RootName();
      SelfEntryOk(v, l, ROOT);
      i := 0;
    } else {
      EnteredBy(v, l, d) by { NotRoot(v, l, path); }
      i := l.owner[d].1;
      NamedInUse(v, l, p, i);
      NamedSlot(v, l, p, i);
      DirectoriesAreReachable(v, l, p);
      OtherTablesStay(v, r, buf, w, p);
    }
    DirectoriesAreReachable(w, m, p);
  }

  lemma WritesMean(v: Volume, l: Layout, r: Request, buf: seq<byte>, cs: seq<DataCluster>)
    requires Writes(v, l, r, buf, cs)
    ensures VolumeOk(v, l) && r.parent in l.depth && |cs| > 0
  {
    hide DecodeTable, VolumeOk, FirstFree;
  }

  lemma RootPath(v: Volume)
    ensures DirectoryAt(v, []) == Some(ROOT)
  {
  }

  lemma NotRoot(v: Volume, l: Layout, path: Path)
    requires VolumeOk(v, l) && path != [] && DirectoryAt(v, path).Some?
    ensures DirectoryAt(v, path).value != ROOT
  {
    hide DecodeTable, DirectoryAt;
    DirectoryAtIsLive(v, l, path);
  }

  lemma NamedInUse(v: Volume, l: Layout, p: DataCluster, i: nat)
    requires VolumeOk(v, l) && p in l.depth && 1 <= i < 64 && TableAt(v, p)[i].Used()
    ensures TableAt(v, p)[i].name != ZERO_NAME
  {
    hide DecodeTable, VolumeOk;
    LiveDirectory(v, l, p);
    assert EntryOk(StructureOf(v), l, p, i) && StructureOf(v).tables[p] == TableAt(v, p);
  }

  // ---------- format ----------

  /** What a format stores: the first three words of the allocation table, and the root's own entry in a table that is
      otherwise zero. */
  lemma FormatStores(d: Disk, f: Map)
    ensures var x := Formatted(d, f).disk;
      && x[1][..12] == [0xF0, 0xFF, 0xFF, 0x0F, 0xFF, 0xFF, 0xFF, 0x0F, 0xFF, 0xFF, 0xFF, 0x0F]
      && x[2][..8] == [0x52, 0x4F, 0x4F, 0x54, 0, 0, 0, 0]
      && x[2][11] == 0x10 && x[2][12] == 0xAA && x[2][26] == 2
      && (forall k :: 8 <= k < 2048 && k !in {11, 12, 26} ==> x[2][k] == 0)
      && x[0][512..] == d[0][512..]
      && forall c :: 3 <= c < 2048 ==> x[c] == d[c]
  {
    hide EncodeMap, EncodeTable, EncodeEntry, FormatMap, NewTable;
    FormattedWords(f);
    RootBytes();
    var x := Formatted(d, f).disk;
    assert x[1] == EncodeMap(FormatMap(f)) && x[2] == EncodeTable(NewTable(ROOT_NAME, ROOT));
  }

  lemma FormattedWords(f: Map)
    ensures EncodeMap(FormatMap(f))[..12]
         == [0xF0, 0xFF, 0xFF, 0x0F, 0xFF, 0xFF, 0xFF, 0x0F, 0xFF, 0xFF, 0xFF, 0x0F]
  {
    hide EncodeMap;
    var g, c := FormatMap(f), EncodeMap(FormatMap(f));
    MapLayout(g, 0);
    MapLayout(g, 1);
    MapLayout(g, 2);
    assert c[..12] == [c[0], c[1], c[2], c[3], c[4], c[5], c[6], c[7], c[8], c[9], c[10], c[11]];
  }

  lemma RootEntryBytes()
    ensures var s := EncodeEntry(SelfEntry(ROOT_NAME, ROOT));
      && s[..8] == [0x52, 0x4F, 0x4F, 0x54, 0, 0, 0, 0] && s[11] == 0x10 && s[12] == 0xAA && s[26] == 2
      && forall k :: 8 <= k < 32 && k !in {11, 12, 26} ==> s[k] == 0
  {
    hide EncodeEntry;
    var s := EncodeEntry(SelfEntry(ROOT_NAME, ROOT));
    EntryLayout(SelfEntry(ROOT_NAME, ROOT));
    assert forall k :: 8 <= k < 11 ==> s[k] == s[8..11][k - 8];
  }

  lemma RootBytes()
    ensures var c := EncodeTable(NewTable(ROOT_NAME, ROOT));
      && c[..8] == [0x52, 0x4F, 0x4F, 0x54, 0, 0, 0, 0] && c[11] == 0x10 && c[12] == 0xAA && c[26] == 2
      && forall k :: 8 <= k < 2048 && k !in {11, 12, 26} ==> c[k] == 0
  {
    hide EncodeTable, EncodeEntry;
    var t, c := NewTable(ROOT_NAME, ROOT), EncodeTable(NewTable(ROOT_NAME, ROOT));
    RootEntryBytes();
    BlankBytes();
    forall k | 0 <= k < 2048
      ensures c[k] == EncodeEntry(t[k / 32])[k % 32]
    {
      EncodedSlot(t, k / 32);
      assert c[k] == c[32 * (k / 32)..32 * (k / 32) + 32][k % 32];
    }
    assert c[..8] == EncodeEntry(t[0])[..8];
  }

  lemma BlankBytes()
    ensures forall k :: 0 <= k < 32 ==> EncodeEntry(EMPTY_ENTRY)[k] == 0
  {
    hide EncodeEntry;
    EntryLayout(EMPTY_ENTRY);
    var s := EncodeEntry(EMPTY_ENTRY);
    assert forall k :: 0 <= k < 8 ==> s[k] == s[..8][k];
    assert forall k :: 8 <= k < 11 ==> s[k] == s[8..11][k - 8];
  }
}
