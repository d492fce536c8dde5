/** In every run of the driver the names are such that find stays inside its arrays; only the depth of the tree is left
    to its caller. */
module FindableRuns {
  import opened Wrappers
  import opened Bytes
  import opened Directory
  import opened Fat
  import opened Tree
  import opened Volumes
  import opened Views
  import opened Writing
  import opened Reading
  import opened Runs
  import opened Guarantees
  import opened Levels
  import opened Find

  /** What write leaves in an entry: a zero byte after the extension, and no extension in a directory. */
  predicate Plain(e: Entry) {
    e.undelete == 0 && (e.IsDirectory() ==> e.ext == ZERO_EXT)
  }

  ghost predicate PlainEntries(v: Volume) {
    forall path :: path != [] && See(v, path) != Nothing ==> Plain(See(v, path).entry)
  }

  /** A name that takes all eight bytes is ended by what follows it. */
  lemma PlainFits(e: Entry)
    requires Plain(e)
    ensures TextFits(e)
  {
    var text := EncodeEntry(e);
    assert text[13] == e.undelete;
    if e.IsDirectory() { assert text[8] == e.ext[0] == 0; }
  }

  lemma SlotFromSight(v: Volume, path: Path, i: nat)
    requires DirectoryAt(v, path).Some? && 1 <= i < 64
    ensures var e, s := TableAt(v, DirectoryAt(v, path).value)[i], See(v, path + [i]);
      (e.Used() <==> s != Nothing) && (e.Used() ==> s.entry == e)
  {
    hide TableAt;
    assert (path + [i])[..|path|] == path;
  }

  lemma PlainNamesFit(v: Volume)
    requires PlainEntries(v)
    ensures NamesFit(v)
  {
    hide DirectoryAt, See, TableAt, Plain, TextFits, Opens;
    forall path, i | Walkable(v, path) && Opens(v, path) && 1 <= i < 64
      ensures var e := TableAt(v, DirectoryAt(v, path).value)[i];
        e.Used() ==> TextFits(e)
    {
      var e := TableAt(v, DirectoryAt(v, path).value)[i];
      SlotFromSight(v, path, i);
      if e.Used() {
        assert path + [i] != [] && Plain(See(v, path + [i]).entry);
        PlainFits(e);
      }
    }
  }

  /** The slot that a successful write fills was blank; what it holds then. */
  lemma WrittenSlot(v: Volume, r: Request, buf: seq<byte>, w: Volume) returns (e: Entry)
    requires Written(v, r, buf, w)
    ensures var t, n := TableAt(v, r.parent), FreeSlot(TableAt(v, r.parent), 0);
      && 1 <= n < 64 && t[n] == EMPTY_ENTRY && TableAt(w, r.parent) == t[n := e]
      && r.size <= |buf| && r.name != ZERO_NAME && 2 <= r.parent < 512
      && forall i :: 1 <= i < 64 ==> t[i].name != r.name
    ensures e.Used() && e.name == r.name && e.filesize == r.size && Plain(e) && (r.size == 0 ==> e.IsDirectory())
  {
    hide DecodeTable, EncodeTable, VolumeOk, Write, Written, FirstFree;
    var l, cs := WrittenMeans(v, r, buf, w);
    WritesMeans(v, l, r, buf, cs);
    NewSlot(v, l, r, buf, cs);
    var t, n := TableAt(v, r.parent), FreeSlot(TableAt(v, r.parent), 0);
    e := NewEntry(t[n], r, cs[0]);
  }

  lemma WrittenKeepsPlain(v: Volume, r: Request, buf: seq<byte>, w: Volume)
    requires Written(v, r, buf, w) && PlainEntries(v)
    ensures PlainEntries(w)
  {
    hide DirectoryAt, See, TableAt, Written, Plain, FreeSlot, SelfEntry;
    var e := WrittenSlot(v, r, buf, w);
    var above := PathTo(v, r.parent) by { IsItsParent(v, r, buf, w); }
    var at := above + [FreeSlot(TableAt(v, r.parent), 0)];
    assert at[..|at| - 1] == above;
    forall path | path != [] && See(w, path) != Nothing
      ensures Plain(See(w, path).entry)
    {
      WritingShows(v, r, buf, w, at, path);
    }
  }

  lemma PathTo(v: Volume, d: DataCluster) returns (path: Path)
    requires IsDirectory(v, d)
    ensures DirectoryAt(v, path) == Some(d)
  {
    hide DirectoryAt;
    path :| DirectoryAt(v, path) == Some(d);
  }

  lemma IsItsParent(v: Volume, r: Request, buf: seq<byte>, w: Volume)
    requires Written(v, r, buf, w)
    ensures IsDirectory(v, r.parent) && 2 <= r.parent < 512
  {
  }

  lemma DeletedKeepsPlain(v: Volume, r: Request, w: Volume)
    requires Deleted(v, r, w) && PlainEntries(v)
    ensures PlainEntries(w)
  {
    hide DirectoryAt, See, TableAt, Plain, FindSlot, Delete, DeleteDefined;
    var above := PathTo(v, r.parent);
    var at := above + [FindSlot(TableAt(v, r.parent), r.name, r.ext, 1)];
    assert at[..|at| - 1] == above;
    forall path | path != [] && See(w, path) != Nothing
      ensures Plain(See(w, path).entry)
    {
      DeletingShows(v, r, w, at, path);
    }
  }

  lemma RefusedWrite(v: Volume, r: Request, buf: seq<byte>)
    requires WriteDefined(v, r, buf)
    ensures Write(v, r, buf).code != 0 ==> Write(v, r, buf).volume == v
    ensures Write(v, r, buf).code == 0 ==> r.name != ZERO_NAME && r.parent >= 2
  {
    hide DecodeTable, FirstFree, WritePuts, Apply, Link;
  }

  lemma RefusedDelete(v: Volume, r: Request)
    requires DeleteDefined(v, r)
    ensures Delete(v, r).code != 0 ==> Delete(v, r).volume == v
    ensures Delete(v, r).code == 0 ==> r.name != ZERO_NAME
  {
    hide DecodeTable, DeletePuts, Apply, Clear;
  }

  lemma FormattedIsPlain(d: Disk, f: Map)
    ensures PlainEntries(Formatted(d, f))
  {
    hide DirectoryAt, See, DecodeTable, Formatted, VolumeOk, NewTable;
    var v := Formatted(d, f);
    FormatIsWellFormed(d, f);
    forall path | path != []
      ensures See(v, path) == Nothing
    {
      NothingInRoot(v, path);
    }
  }

  lemma {:induction false} NothingInRoot(v: Volume, path: Path)
    requires TableAt(v, ROOT) == NewTable(ROOT_NAME, ROOT)
    ensures path != [] ==> See(v, path) == Nothing && DirectoryAt(v, path) == None
    decreases |path|
  {
    hide DecodeTable;
    if path != [] {
      NothingInRoot(v, path[..|path| - 1]);
      if 1 <= path[|path| - 1] < 64 { BlankSlot(path[|path| - 1]); }
    }
  }

  lemma BlankSlot(i: nat)
    requires 1 <= i < 64
    ensures NewTable(ROOT_NAME, ROOT)[i] == EMPTY_ENTRY
  {
  }

  lemma StepKeepsPlain(v: Volume, op: Op)
    requires WellFormed(v) && Admissible(v, op) && PlainEntries(v)
    ensures PlainEntries(Step(v, op))
  {
    hide PlainEntries, Formatted, Write, Delete, WriteDefined, DeleteDefined, WellFormed, IsDirectory, Mounted;
    match op
    case WriteOp(r, buf) =>
      RefusedWrite(v, r, buf);
      if Write(v, r, buf).code == 0 { WrittenKeepsPlain(v, r, buf, Write(v, r, buf).volume); }
    case DeleteOp(r) =>
      DeleteStepKeeps(v, r);
      RefusedDelete(v, r);
      if Delete(v, r).code == 0 { DeletedKeepsPlain(v, r, Delete(v, r).volume); }
    case MountOp => MountIsIdentity(v);
    case FormatOp => FormattedIsPlain(v.disk, v.fat);
  }

  lemma {:induction false} RunKeepsPlain(v: Volume, ops: seq<Op>)
    requires WellFormed(v) && Run(v, ops) && PlainEntries(v)
    ensures PlainEntries(After(v, ops))
    decreases |ops|
  {
    hide WellFormed, PlainEntries, Step, Admissible;
    if ops != [] {
      StepKeeps(v, ops[0]);
      StepKeepsPlain(v, ops[0]);
      RunKeepsPlain(Step(v, ops[0]), ops[1..]);
    }
  }

  /** After any run from a format, whatever names it has used, find may be called if and only if no directory that it
      walks to is sixteen deep. */
  lemma RunsAreFindable(d: Disk, f: Map, ops: seq<Op>)
    requires Run(Formatted(d, f), ops)
    ensures var v := After(Formatted(d, f), ops);
      && WellFormed(v) && PlainEntries(v) && NamesFit(v)
      && (Searchable(v) <==> forall path :: Walkable(v, path) ==> |path| < MAX_DIR_STACK_SIZE)
  {
    hide VolumeOk, PlainEntries, NamesFit, Level, Walkable, Run, Formatted;
    var v := After(Formatted(d, f), ops);
    FormatIsWellFormed(d, f);
    FormattedIsPlain(d, f);
    FormattedRunIsWellFormed(d, f, ops);
    RunKeepsPlain(Formatted(d, f), ops);
    PlainNamesFit(v);
    LevelIsEmpty(v, 16);
  }

  /** No walk is n long exactly when every walk is shorter. */
  lemma LevelIsEmpty(v: Volume, n: nat)
    ensures Level(v, n) == [] <==> forall path :: Walkable(v, path) ==> |path| < n
  {
    hide Level, Walkable;
    LevelShape(v, n);
    if Level(v, n) == [] {
      forall path | Walkable(v, path)
        ensures |path| < n
      {
        ShallowPath(v, path, n);
      }
    } else {
      assert Level(v, n)[0] in Level(v, n);
    }
  }
}
