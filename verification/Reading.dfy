/** The exact result of read and read_directory, and what a write makes readable. */
module Reading {
  import opened Bytes
  import opened Directory
  import opened Fat
  import opened Tree
  import opened Volumes
  import opened Views
  import opened Writing

  predicate Matches(e: Entry, r: Request) {
    e.name == r.name && e.ext == r.ext
  }

  /** On a well-formed volume every slot that carries a given name is in use and owns its chain. */
  lemma NamedSlot(v: Volume, l: Layout, d: DataCluster, i: nat)
    requires VolumeOk(v, l) && d in l.depth && 1 <= i < 64 && TableAt(v, d)[i].name != ZERO_NAME
    ensures EntryOk(StructureOf(v), l, d, i) && TableAt(v, d)[i] == StructureOf(v).tables[d][i]
    ensures Proper(v.fat, TableAt(v, d)[i].Start())
    ensures forall j :: 1 <= j < 64 && j != i ==> TableAt(v, d)[j].name != TableAt(v, d)[i].name
  {
    hide DecodeTable;
    LiveDirectory(v, l, d);
    var t := TableAt(v, d);
    assert StructureOf(v).tables[d] == t && UniqueNames(t);
    assert t[i] != EMPTY_ENTRY && EntryOk(StructureOf(v), l, d, i);
    forall j | 1 <= j < 64 && j != i
      ensures t[j].name != t[i].name
    {
      if t[j] != EMPTY_ENTRY { assert EntryOk(StructureOf(v), l, d, j); }
    }
  }

  lemma ReadIsDefined(v: Volume, l: Layout, r: Request, buf: seq<byte>)
    requires VolumeOk(v, l) && 2 <= r.parent < 512 && r.parent in l.depth && 2048 * ClustersFor(r.size) <= |buf|
    ensures ReadDefined(v, r, buf)
  {
    hide DecodeTable, VolumeOk, Proper;
    if r.name != ZERO_NAME {
      forall i | 1 <= i < 64 && TableAt(v, r.parent)[i].name == r.name && TableAt(v, r.parent)[i].ext == r.ext
        ensures Proper(v.fat, TableAt(v, r.parent)[i].Start())
      {
        NamedSlot(v, l, r.parent, i);
      }
    }
  }

  // ---------- the search ----------

  lemma {:induction false} NoMatchLeft(v: Volume, r: Request, buf: seq<byte>, i: nat)
    requires r.name != ZERO_NAME && r.size > 0 && ReadDefined(v, r, buf) && 1 <= i <= 64
    requires forall j :: i <= j < 64 ==> !Matches(TableAt(v, r.parent)[j], r)
    ensures ReadFrom(v, r, buf, i) == ReadResult(3, buf)
    decreases 64 - i
  {
    hide DecodeTable;
    if i < 64 { NoMatchLeft(v, r, buf, i + 1); }
  }

  lemma {:induction false} SkipTo(v: Volume, r: Request, buf: seq<byte>, i: nat, k: nat)
    requires r.name != ZERO_NAME && r.size > 0 && ReadDefined(v, r, buf) && 1 <= i <= k < 64
    requires forall j :: i <= j < k ==> !Matches(TableAt(v, r.parent)[j], r)
    ensures ReadFrom(v, r, buf, i) == ReadFrom(v, r, buf, k)
    decreases k - i
  {
    hide DecodeTable;
    if i < k { SkipTo(v, r, buf, i + 1, k); }
  }

  /** What read returns when exactly slot k matches: the first min(b, 2048 m) bytes count, where b is
      the size asked for and m the length of the chain; success exactly when m >= b / 2048. */
  function ReadSlot(v: Volume, r: Request, buf: seq<byte>, e: Entry): ReadResult
    requires r.size > 0 && 2048 * ClustersFor(r.size) <= |buf| && Proper(v.fat, e.Start())
  {
    var cs := Chain(v.fat, e.Start());
    ReadResult(if |cs| >= r.size / 2048 then 0 else 3, Fetched(v.disk, cs, r.size, buf))
  }

  lemma WholeClusters(b: nat, m: nat)
    ensures Min(b, 2048 * m) / 2048 == b / 2048 <==> m >= b / 2048
  {
    if 2048 * m < b {
      assert Min(b, 2048 * m) / 2048 == m;
    }
  }

  lemma OneMatch(v: Volume, r: Request, buf: seq<byte>, k: nat)
    requires r.name != ZERO_NAME && r.size > 0 && ReadDefined(v, r, buf) && 1 <= k < 64
    requires Proper(v.fat, TableAt(v, r.parent)[k].Start())
    requires forall j :: 1 <= j < 64 ==> (Matches(TableAt(v, r.parent)[j], r) <==> j == k)
    ensures Read(v, r, buf) == ReadSlot(v, r, buf, TableAt(v, r.parent)[k])
  {
    hide DecodeTable, Chain, Proper, Contents;
    SkipTo(v, r, buf, 1, k);
    var e := TableAt(v, r.parent)[k];
    assert Matches(e, r);
    var cs := Chain(v.fat, e.Start());
    var got := Fetched(v.disk, cs, r.size, buf);
    WholeClusters(r.size, |cs|);
    NoMatchLeft(v, r, got, k + 1);
  }

  /** Exact result of read, whatever the size asked for: a matching slot is read as ReadSlot says,
      nothing matching means 3 and an untouched buffer, and 2 is never returned. */
  lemma ReadIsExact(v: Volume, l: Layout, r: Request, buf: seq<byte>)
    requires VolumeOk(v, l) && 2 <= r.parent < 512 && r.parent in l.depth
    requires r.name != ZERO_NAME && r.size > 0 && 2048 * ClustersFor(r.size) <= |buf|
    ensures ReadDefined(v, r, buf)
    ensures forall k :: 1 <= k < 64 && Matches(TableAt(v, r.parent)[k], r) ==>
      Proper(v.fat, TableAt(v, r.parent)[k].Start())
      && Read(v, r, buf) == ReadSlot(v, r, buf, TableAt(v, r.parent)[k])
    ensures (forall k :: 1 <= k < 64 ==> !Matches(TableAt(v, r.parent)[k], r)) ==>
      Read(v, r, buf) == ReadResult(3, buf)
    ensures Read(v, r, buf).code in {0, 3}
  {
    hide DecodeTable, VolumeOk, Proper, Chain, Contents, ReadFrom, Fetched;
    ReadIsDefined(v, l, r, buf);
    if k :| 1 <= k < 64 && Matches(TableAt(v, r.parent)[k], r) {
      NamedSlot(v, l, r.parent, k);
      OneMatch(v, r, buf, k);
    } else {
      NoMatchLeft(v, r, buf, 1);
    }
  }

  // ---------- reading back what was written ----------

  lemma {:induction false} WrittenContents(d: Disk, cs: seq<DataCluster>, buf: seq<byte>, size: nat, i: nat)
    requires 0 < size <= |buf| && |cs| == ClustersFor(size) && i <= |cs|
    requires forall j :: 0 <= j < |cs| ==> d[cs[j]] == FileBlock(buf, size, j)
    ensures Contents(d, cs[..i])
         == if 2048 * i <= size then buf[..2048 * i] else buf[..size] + Zeros(2048 * i - size)
  {
    if i > 0 {
      WrittenContents(d, cs, buf, size, i - 1);
      assert cs[..i][..i - 1] == cs[..i - 1] && cs[..i][i - 1] == cs[i - 1];
    }
  }

  lemma FetchWritten(d: Disk, cs: seq<DataCluster>, buf: seq<byte>, size: nat, into: seq<byte>)
    requires 0 < size <= |buf| && |cs| == ClustersFor(size) && 2048 * |cs| <= |into|
    requires forall j :: 0 <= j < |cs| ==> d[cs[j]] == FileBlock(buf, size, j)
    ensures Fetched(d, cs, size, into) == buf[..size] + Zeros(2048 * |cs| - size) + into[2048 * |cs|..]
  {
    WrittenContents(d, cs, buf, size, |cs|);
    assert cs[..|cs|] == cs;
    assert 2048 * |cs| <= size ==> 2048 * |cs| == size;
  }

  /** Where the new file is found, and what its chain holds. */
  lemma WrittenFile(v: Volume, l: Layout, r: Request, buf: seq<byte>, cs: seq<DataCluster>)
    requires Writes(v, l, r, buf, cs)
    ensures var w, k := Write(v, r, buf).volume, FreeSlot(TableAt(v, r.parent), 0);
      && 1 <= k < 64 && TableAt(w, r.parent)[k].name == r.name && TableAt(w, r.parent)[k].Start() == cs[0]
      && (r.size > 0 ==> TableAt(w, r.parent)[k].ext == r.ext)
      && Proper(w.fat, cs[0]) && Chain(w.fat, cs[0]) == cs
      && forall j :: 0 <= j < |cs| ==> w.disk[cs[j]] == Blocks(r, buf)[j]
  {
    hide DecodeTable, EncodeTable, VolumeOk, Proper, Chain, Write, Apply, NewEntry;
    WriteSucceeds(v, r, buf, cs);
    StagedIsReady(v, l, r, buf, cs);
    WritesMeans(v, l, r, buf, cs);
    NewSlot(v, l, r, buf, cs);
  }

  /** Reading a file that has just been written gives back its bytes, the last cluster padded with zeros. */
  lemma ReadAfterWrite(v: Volume, l: Layout, r: Request, buf: seq<byte>, cs: seq<DataCluster>, into: seq<byte>)
    requires Writes(v, l, r, buf, cs) && r.size > 0 && 2048 * |cs| <= |into|
    ensures var w := Write(v, r, buf).volume;
      && ReadDefined(w, r, into)
      && Read(w, r, into) == ReadResult(0, buf[..r.size] + Zeros(2048 * |cs| - r.size) + into[2048 * |cs|..])
  {
    hide DecodeTable, VolumeOk, Proper, Chain, Write, Read, ReadFrom, Fetched, ReadDefined;
    WriteKeepsVolume(v, l, r, buf, cs);
    WrittenFile(v, l, r, buf, cs);
    var w, k := Write(v, r, buf).volume, FreeSlot(TableAt(v, r.parent), 0);
    assert Matches(TableAt(w, r.parent)[k], r);
    ReadIsExact(w, Grown(l, r.parent, k, cs, false), r, into);
    FetchWritten(w.disk, cs, buf, r.size, into);
  }

  /** The parent's table after a successful write: the new entry in the first free slot, the rest as before. */
  lemma NewSlot(v: Volume, l: Layout, r: Request, buf: seq<byte>, cs: seq<DataCluster>)
    requires Writes(v, l, r, buf, cs)
    ensures var t, n := TableAt(v, r.parent), FreeSlot(TableAt(v, r.parent), 0);
      TableAt(Write(v, r, buf).volume, r.parent) == t[n := NewEntry(t[n], r, cs[0])]
  {
    hide DecodeTable, EncodeTable, VolumeOk, Write, Apply, NewEntry;
    WriteSucceeds(v, r, buf, cs);
    var t, n := TableAt(v, r.parent), FreeSlot(TableAt(v, r.parent), 0);
    DecodeTableOfEncode(t[n := NewEntry(t[n], r, cs[0])]);
  }

  // ---------- what stays as it was ----------

  /** Two volumes answer a request alike when the same slots match and these own the same contents. */
  ghost predicate SameForRequest(v: Volume, w: Volume, r: Request)
    requires r.parent < 2048
  {
    forall i :: 1 <= i < 64 ==>
      var e, f := TableAt(v, r.parent)[i], TableAt(w, r.parent)[i];
      && (Matches(e, r) <==> Matches(f, r))
      && (Matches(e, r) ==> f == e && SameFile(v, w, e))
  }

  ghost predicate SameFile(v: Volume, w: Volume, e: Entry) {
    && Proper(v.fat, e.Start()) && Proper(w.fat, e.Start())
    && Chain(w.fat, e.Start()) == Chain(v.fat, e.Start())
    && forall c :: c in Chain(v.fat, e.Start()) ==> w.disk[c] == v.disk[c]
  }

  lemma FetchedFrame(v: Disk, w: Disk, cs: seq<DataCluster>, b: nat, buf: seq<byte>)
    requires b > 0 && 2048 * ClustersFor(b) <= |buf| && forall c :: c in cs ==> w[c] == v[c]
    ensures Fetched(w, cs, b, buf) == Fetched(v, cs, b, buf)
  {
    var k := Min(ClustersFor(b), |cs|);
    assert forall c :: c in cs[..k] ==> c in cs;
    ContentsFrame(v, w, cs[..k]);
  }

  lemma {:induction false} ReadFromFrame(v: Volume, w: Volume, r: Request, buf: seq<byte>, i: nat)
    requires r.name != ZERO_NAME && r.size > 0 && 1 <= i <= 64
    requires ReadDefined(v, r, buf) && ReadDefined(w, r, buf) && SameForRequest(v, w, r)
    ensures ReadFrom(w, r, buf, i) == ReadFrom(v, r, buf, i)
    decreases 64 - i
  {
    hide DecodeTable, Proper, Chain, Contents, Fetched;
    if i < 64 {
      var e := TableAt(v, r.parent)[i];
      if Matches(e, r) {
        var cs := Chain(v.fat, e.Start());
        FetchedFrame(v.disk, w.disk, cs, r.size, buf);
        ReadFromFrame(v, w, r, Fetched(v.disk, cs, r.size, buf), i + 1);
      } else {
        ReadFromFrame(v, w, r, buf, i + 1);
      }
    }
  }

  /** A directory is in nobody's chain but that of the entry that starts with it. */
  lemma DirectoryIsNotInside(v: Volume, l: Layout, d: DataCluster, i: nat, p: DataCluster)
    requires VolumeOk(v, l) && d in l.depth && p in l.depth && 1 <= i < 64
    requires TableAt(v, d)[i].name != ZERO_NAME && TableAt(v, d)[i].Start() != p
    ensures Proper(v.fat, TableAt(v, d)[i].Start()) && p !in Chain(v.fat, TableAt(v, d)[i].Start())
  {
    hide DecodeTable, VolumeOk;
    NamedSlot(v, l, d, i);
    if p in Chain(v.fat, TableAt(v, d)[i].Start()) {
      ChainShape(v.fat, TableAt(v, d)[i].Start());
      EnteredBy(v, l, p);
      assert false;
    }
  }

  lemma WriteTouches(v: Volume, l: Layout, r: Request, buf: seq<byte>, cs: seq<DataCluster>)
    requires Writes(v, l, r, buf, cs)
    ensures var w := Write(v, r, buf).volume;
      && (forall c: DataCluster :: c !in cs ==> w.fat[c] == v.fat[c])
      && (forall c: DataCluster :: c !in cs && c != r.parent ==> w.disk[c] == v.disk[c])
  {
    hide DecodeTable, EncodeTable, VolumeOk, Write, Apply, NewEntry;
    WriteSucceeds(v, r, buf, cs);
    StagedIsReady(v, l, r, buf, cs);
  }

  /** The slot names no entry that starts in directory p. */
  ghost predicate NotItself(v: Volume, q: Request, p: u32)
    requires q.parent < 2048
  {
    forall i :: 1 <= i < 64 && Matches(TableAt(v, q.parent)[i], q) ==> TableAt(v, q.parent)[i].Start() != p
  }

  lemma WriteLeavesFile(v: Volume, l: Layout, r: Request, buf: seq<byte>, cs: seq<DataCluster>,
                        d: DataCluster, i: nat)
    requires Writes(v, l, r, buf, cs) && d in l.depth && 1 <= i < 64
    requires TableAt(v, d)[i].name != ZERO_NAME && TableAt(v, d)[i].Start() != r.parent
    ensures SameFile(v, Write(v, r, buf).volume, TableAt(v, d)[i])
  {
    hide DecodeTable, VolumeOk, Write, NewEntry;
    WriteTouches(v, l, r, buf, cs);
    WritesMeans(v, l, r, buf, cs);
    DirectoryIsNotInside(v, l, d, i, r.parent);
    NamedSlot(v, l, d, i);
    ChainFrame(v.fat, Write(v, r, buf).volume.fat, TableAt(v, d)[i].Start());
  }

  /** Every directory table but the parent's stays as it was. */
  lemma WriteLeavesTables(v: Volume, l: Layout, r: Request, buf: seq<byte>, cs: seq<DataCluster>, d: DataCluster)
    requires Writes(v, l, r, buf, cs) && d in l.depth && d != r.parent
    ensures Write(v, r, buf).volume.disk[d] == v.disk[d]
  {
    WriteTouches(v, l, r, buf, cs);
    WritesMeans(v, l, r, buf, cs);
    LiveDirectory(v, l, d);
  }

  /** The request q does not ask for the entry that the write r makes. */
  predicate NotForNew(q: Request, r: Request) {
    q.parent != r.parent || q.name != r.name || q.ext != (if r.size == 0 then ZERO_EXT else r.ext)
  }

  /** In every directory the same slots carry a name other than the one just written. */
  lemma WriteLeavesNames(v: Volume, l: Layout, r: Request, buf: seq<byte>, cs: seq<DataCluster>,
                         q: Request, i: nat)
    requires Writes(v, l, r, buf, cs) && q.name != ZERO_NAME && 1 <= i < 64
    requires 2 <= q.parent < 512 && q.parent in l.depth && NotForNew(q, r)
    ensures var e, f := TableAt(v, q.parent)[i], TableAt(Write(v, r, buf).volume, q.parent)[i];
      f == e || (!Matches(e, q) && !Matches(f, q))
  {
    hide DecodeTable, VolumeOk, Write, NewEntry;
    if q.parent == r.parent {
      NewSlot(v, l, r, buf, cs);
      WritesMeans(v, l, r, buf, cs);
    } else {
      WriteLeavesTables(v, l, r, buf, cs, q.parent);
    }
  }

  lemma WriteLeavesRequest(v: Volume, l: Layout, r: Request, buf: seq<byte>, cs: seq<DataCluster>, q: Request)
    requires Writes(v, l, r, buf, cs) && q.name != ZERO_NAME
    requires 2 <= q.parent < 512 && q.parent in l.depth && NotForNew(q, r)
    requires NotItself(v, q, r.parent)
    ensures SameForRequest(v, Write(v, r, buf).volume, q)
  {
    hide TableAt, VolumeOk, Write, NewEntry, SameFile;
    var w := Write(v, r, buf).volume;
    forall i | 1 <= i < 64
      ensures var e, f := TableAt(v, q.parent)[i], TableAt(w, q.parent)[i];
        (Matches(e, q) <==> Matches(f, q)) && (Matches(e, q) ==> f == e && SameFile(v, w, e))
    {
      WriteLeavesNames(v, l, r, buf, cs, q, i);
      if Matches(TableAt(v, q.parent)[i], q) {
        WriteLeavesFile(v, l, r, buf, cs, q.parent, i);
      }
    }
  }

  /** Framing: a write changes the answer to no other request. The one exception a caller can see coming
      is reading the parent directory's own cluster through its entry, as if it were a file. */
  lemma WriteLeavesReads(v: Volume, l: Layout, r: Request, buf: seq<byte>, cs: seq<DataCluster>,
                         q: Request, into: seq<byte>)
    requires Writes(v, l, r, buf, cs) && 2048 * ClustersFor(q.size) <= |into|
    requires 2 <= q.parent < 512 && q.parent in l.depth && NotForNew(q, r)
    requires NotItself(v, q, r.parent)
    ensures ReadDefined(v, q, into) && ReadDefined(Write(v, r, buf).volume, q, into)
    ensures Read(Write(v, r, buf).volume, q, into) == Read(v, q, into)
  {
    hide DecodeTable, VolumeOk, Write, NewEntry, SameFile, ReadFrom;
    ReadIsDefined(v, l, q, into);
    WriteKeepsVolume(v, l, r, buf, cs);
    var n := FreeSlot(TableAt(v, r.parent), 0);
    ReadIsDefined(Write(v, r, buf).volume, Grown(l, r.parent, n, cs, r.size == 0), q, into);
    if q.name != ZERO_NAME && q.size > 0 {
      WriteLeavesRequest(v, l, r, buf, cs, q);
      ReadFromFrame(v, Write(v, r, buf).volume, q, into, 1);
    }
  }

  // ---------- read_directory ----------

  lemma {:induction false} FindNameIs(t: Table, name: Name, i: nat, k: nat)
    requires i <= k < 64 && t[k].name == name && forall j :: i <= j < k ==> t[j].name != name
    ensures FindName(t, name, i) == k
    decreases k - i
  {
    if i < k { FindNameIs(t, name, i + 1, k); }
  }

  /** After a directory has been made, read_directory shows its fresh table - unless it was given the name
      of the directory it is in: slot 0 is searched too, and then the table of the directory above is shown. */
  lemma ReadDirectoryAfterWrite(v: Volume, l: Layout, r: Request, buf: seq<byte>, cs: seq<DataCluster>,
                                 into: seq<byte>)
    requires Writes(v, l, r, buf, cs) && r.size == 0
    ensures var w, above := Write(v, r, buf).volume, ParentOf(v, r.parent);
      && ReadDirectoryDefined(w, r) && above < 512
      && ReadDirectory(w, r, into) ==
           ReadResult(0, if r.name == TableAt(v, r.parent)[0].name then w.disk[above]
                         else EncodeTable(NewTable(r.name, r.parent)))
  {
    hide DecodeTable, EncodeTable, VolumeOk, Write, NewEntry, Proper, Chain, FirstFree, FindName;
    var w, t, k := Write(v, r, buf).volume, TableAt(v, r.parent), FreeSlot(TableAt(v, r.parent), 0);
    WritesMeans(v, l, r, buf, cs);
    WrittenFile(v, l, r, buf, cs);
    NewSlot(v, l, r, buf, cs);
    SelfEntryOk(v, l, r.parent);
    if r.name == t[0].name {
      FindNameIs(TableAt(w, r.parent), r.name, 0, 0);
    } else {
      FindNameIs(TableAt(w, r.parent), r.name, 0, k);
      assert w.disk[cs[0]] == Blocks(r, buf)[0];
    }
  }

  lemma SelfEntryOk(v: Volume, l: Layout, d: DataCluster)
    requires VolumeOk(v, l) && d in l.depth
    ensures SelfOk(TableAt(v, d)[0]) && 2 <= ParentOf(v, d) < 512
  {
    hide DecodeTable;
    LiveDirectory(v, l, d);
    assert StructureOf(v).tables[d] == TableAt(v, d);
    if d != ROOT { EnteredBy(v, l, d); }
  }
}
