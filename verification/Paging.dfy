/**
  Page frames, page directories and CR3 (src/paging.c). Frames and directories are
  4 MiB pages as in the Intel Software Developer's Manual, volume 3A, section 4.3.
*/
module Paging {
  import opened Bytes

  const PAGE_FRAME_SIZE := 0x40_0000
  const KERNEL_BASE: u32 := 0xC000_0000
  const KERNEL_ENTRY := 0x300
  const NULL: u32 := 0

  /** A page directory entry, as far as the kernel sets it. */
  datatype Pde = Pde(present: bool, write: bool, user: bool, pageSize4Mb: bool, frame: nat)

  const CLEAR_PDE: Pde := Pde(false, false, false, false, 0)
  const KERNEL_PDE: Pde := Pde(true, true, false, true, 0)

  function UserPde(frame: nat): Pde {
    Pde(true, true, true, true, frame)
  }

  type PageDirectory = d: seq<Pde> | |d| == 1024 witness seq(1024, _ => CLEAR_PDE)

  function ClearDirectory(): (d: PageDirectory)
    ensures forall e :: 0 <= e < 1024 ==> d[e] == CLEAR_PDE
  {
    seq(1024, _ => CLEAR_PDE)
  }

  type Flags = f: seq<bool> | |f| == 32 witness seq(32, _ => false)
  type Directories = d: seq<PageDirectory> | |d| == 32
    witness seq<PageDirectory>(32, _ => ClearDirectory())

  /** The paging state: base is the address of the static array of directories, cr3 the register. */
  datatype State = State(base: u32, frames: Flags, free: int, dirs: Directories, used: Flags, cr3: u32)

  /** Where the linker may have put the directories: in the kernel's part of the address space, page aligned. */
  predicate Placed(base: int) {
    KERNEL_BASE < base && base + 4096 * 32 <= 0x1_0000_0000 && base % 4096 == 0
  }

  function AddressOf(base: int, i: int): int {
    base + 4096 * i
  }

  // ---------- counting flags ----------

  function CountTrue(s: seq<bool>): (n: nat)
    ensures n <= |s|
  {
    if s == [] then 0 else CountTrue(s[..|s| - 1]) + (if s[|s| - 1] then 1 else 0)
  }

  lemma {:induction false} CountUpdate(s: seq<bool>, i: nat, b: bool)
    requires i < |s|
    ensures CountTrue(s[i := b]) == CountTrue(s) - (if s[i] then 1 else 0) + (if b then 1 else 0)
  {
    var n := |s| - 1;
    if i == n {
      assert s[i := b][..n] == s[..n];
    } else {
      CountUpdate(s[..n], i, b);
      assert s[i := b][..n] == s[..n][i := b];
    }
  }

  lemma {:induction false} CountAll(s: seq<bool>)
    ensures CountTrue(s) == |s| <==> forall i :: 0 <= i < |s| ==> s[i]
    ensures CountTrue(s) == 0 <==> forall i :: 0 <= i < |s| ==> !s[i]
  {
    if s != [] {
      var n := |s| - 1;
      CountAll(s[..n]);
      if CountTrue(s) == |s| || CountTrue(s) == 0 {
        assert forall i :: 0 <= i < n ==> s[..n][i] == s[i];
      }
      if forall i :: 0 <= i < |s| ==> s[i] { assert forall i :: 0 <= i < n ==> s[..n][i]; }
      if forall i :: 0 <= i < |s| ==> !s[i] { assert forall i :: 0 <= i < n ==> !s[..n][i]; }
    }
  }

  /** The first index from i on whose flag is clear, |s| when there is none. */
  function FirstClear(s: seq<bool>, i: nat): (k: nat)
    requires i <= |s|
    ensures i <= k <= |s|
    ensures k < |s| ==> !s[k]
    ensures forall j :: i <= j < k ==> s[j]
    decreases |s| - i
  {
    if i == |s| || !s[i] then i else FirstClear(s, i + 1)
  }

  // ---------- the operations ----------

  /** paging_allocate_check: the ceiling of amount / PAGE_FRAME_SIZE frames must be free. */
  predicate AllocateCheck(s: State, amount: nat) {
    s.free >= (amount + PAGE_FRAME_SIZE - 1) / PAGE_FRAME_SIZE
  }

  /** The directory slot that a virtual address falls into. */
  function EntryIndex(virtual: u32): (e: nat)
    ensures e < 1024
  {
    virtual / PAGE_FRAME_SIZE % 0x400
  }

  /** The first free frame goes to the directory; when none is free nothing happens. */
  function AllocateFrame(s: State, d: nat, virtual: u32): State
    requires d < 32
  {
    var i := FirstClear(s.frames, 1);
    if i == 32 then s
    else s.(frames := s.frames[i := true], free := s.free - 1,
            dirs := s.dirs[d := s.dirs[d][EntryIndex(virtual) := UserPde(i)]])
  }

  /** paging_free_user_page_frame: the frame of the entry is marked free and the entry cleared. */
  function FreeFrame(s: State, d: nat, virtual: u32): State
    requires d < 32 && s.dirs[d][EntryIndex(virtual)].frame < 32
  {
    var e := EntryIndex(virtual);
    s.(frames := s.frames[s.dirs[d][e].frame := false], free := s.free + 1,
       dirs := s.dirs[d := s.dirs[d][e := CLEAR_PDE]])
  }

  /** The first unused directory, now with the kernel's entry; 32 when there is none. */
  function CreateDirectory(s: State): (r: (State, nat))
    ensures r.1 <= 32
  {
    var i := FirstClear(s.used, 0);
    if i == 32 then (s, i)
    else (s.(used := s.used[i := true], dirs := s.dirs[i := s.dirs[i][KERNEL_ENTRY := KERNEL_PDE]]), i)
  }

  /** paging_free_page_directory returns in the first turn of its loop: only directory 0 can be released. */
  function FreeDirectory(s: State, address: u32): State {
    if address == s.base then s.(used := s.used[0 := false], dirs := s.dirs[0 := ClearDirectory()]) else s
  }

  function UseDirectory(s: State, virtual: u32): State {
    s.(cr3 := if virtual > KERNEL_BASE then virtual - KERNEL_BASE else virtual)
  }

  function CurrentDirectory(s: State): u32 {
    (s.cr3 + KERNEL_BASE) % 0x1_0000_0000
  }

  /** Saving CR3 and loading it again, as creating a process does, is the identity exactly for a directory of the
      kernel's part of the address space, its very first address excepted. */
  lemma UseOfCurrent(s: State)
    ensures UseDirectory(s, CurrentDirectory(s)) == s <==> 0 < s.cr3 < 0x4000_0000
  {
  }

  // ---------- isolation ----------

  predicate UserEntry(s: State, d: int, e: int)
    requires 0 <= d < 32 && 0 <= e < 1024
  {
    s.dirs[d][e].present && s.dirs[d][e].user
  }

  /** No two user entries anywhere map the same frame, every mapped frame is marked used, frame 0 is never given to a
      user, and a directory that is not in use is entirely clear. */
  ghost predicate Isolated(s: State) {
    && s.frames[0]
    && s.free == 32 - CountTrue(s.frames)
    && (forall d, e :: 0 <= d < 32 && 0 <= e < 1024 && UserEntry(s, d, e) ==>
          1 <= s.dirs[d][e].frame < 32 && s.frames[s.dirs[d][e].frame])
    && (forall d, e :: 0 <= d < 32 && 0 <= e < 1024 && !UserEntry(s, d, e) ==> s.dirs[d][e].frame == 0)
    && (forall d, e, d', e' | 0 <= d < 32 && 0 <= e < 1024 && 0 <= d' < 32 && 0 <= e' < 1024 ::
          UserEntry(s, d, e) && UserEntry(s, d', e') && s.dirs[d][e].frame == s.dirs[d'][e'].frame ==>
            d == d' && e == e')
    && (forall d :: 0 <= d < 32 && !s.used[d] ==> s.dirs[d] == ClearDirectory())
  }

  /** What one allocation changes, entry by entry. */
  lemma AllocateEntries(s: State, d: nat, virtual: u32)
    requires Isolated(s) && d < 32 && FirstClear(s.frames, 1) < 32
    ensures var i, x, t := FirstClear(s.frames, 1), EntryIndex(virtual), AllocateFrame(s, d, virtual);
      && t.dirs[d][x] == UserPde(i) && !s.frames[i]
      && (forall c, e :: 0 <= c < 32 && 0 <= e < 1024 && (c, e) != (d, x) ==> t.dirs[c][e] == s.dirs[c][e])
      && (forall c, e :: 0 <= c < 32 && 0 <= e < 1024 && UserEntry(s, c, e) ==> s.dirs[c][e].frame != i)
  {
  }

  lemma AllocateFrameIsolates(s: State, d: nat, virtual: u32)
    requires Isolated(s) && d < 32 && s.used[d]
    ensures Isolated(AllocateFrame(s, d, virtual))
  {
    var i, x, t := FirstClear(s.frames, 1), EntryIndex(virtual), AllocateFrame(s, d, virtual);
    if i < 32 {
      AllocateEntries(s, d, virtual);
      CountUpdate(s.frames, i, true);
      assert t.frames == s.frames[i := true] && t.used == s.used && t.free == s.free - 1;
      assert forall c :: 0 <= c < 32 && c != d ==> t.dirs[c] == s.dirs[c];
      hide AllocateFrame, EntryIndex, FirstClear, CountTrue;
      forall c, e | 0 <= c < 32 && 0 <= e < 1024
        ensures UserEntry(t, c, e) ==> 1 <= t.dirs[c][e].frame < 32 && t.frames[t.dirs[c][e].frame]
        ensures !UserEntry(t, c, e) ==> t.dirs[c][e].frame == 0
      {
        if (c, e) != (d, x) { assert UserEntry(t, c, e) <==> UserEntry(s, c, e); }
      }
      forall c, e, c', e' | 0 <= c < 32 && 0 <= e < 1024 && 0 <= c' < 32 && 0 <= e' < 1024
        ensures UserEntry(t, c, e) && UserEntry(t, c', e') && t.dirs[c][e].frame == t.dirs[c'][e'].frame ==>
          c == c' && e == e'
      {
        if (c, e) != (d, x) { assert UserEntry(t, c, e) <==> UserEntry(s, c, e); }
        if (c', e') != (d, x) { assert UserEntry(t, c', e') <==> UserEntry(s, c', e'); }
      }
    }
  }

  lemma CreateDirectoryIsolates(s: State)
    requires Isolated(s)
    ensures Isolated(CreateDirectory(s).0)
  {
    var i, t := FirstClear(s.used, 0), CreateDirectory(s).0;
    if i < 32 {
      assert forall d, e | 0 <= d < 32 && 0 <= e < 1024 ::
          t.dirs[d][e] == if d == i && e == KERNEL_ENTRY then KERNEL_PDE else s.dirs[d][e];
      assert !UserEntry(s, i, KERNEL_ENTRY) && s.dirs[i][KERNEL_ENTRY].frame == 0;
      assert forall d, e | 0 <= d < 32 && 0 <= e < 1024 ::
          UserEntry(t, d, e) == UserEntry(s, d, e) && t.dirs[d][e].frame == s.dirs[d][e].frame;
      hide UserEntry;
    }
  }

  lemma FreeDirectoryIsolates(s: State, address: u32)
    requires Isolated(s)
    ensures Isolated(FreeDirectory(s, address))
  {
    var t := FreeDirectory(s, address);
    assert forall d, e | 0 <= d < 32 && 0 <= e < 1024 ::
        UserEntry(t, d, e) ==> UserEntry(s, d, e) && t.dirs[d] == s.dirs[d];
  }

  /** Releasing a frame is safe exactly when a user page is mapped at the address: otherwise it is the kernel's frame 0
      that is marked free, or a frame counted as free twice. */
  lemma FreeFrameIsolates(s: State, d: nat, virtual: u32)
    requires Isolated(s) && d < 32
    ensures s.dirs[d][EntryIndex(virtual)].frame < 32
    ensures Isolated(FreeFrame(s, d, virtual)) <==> UserEntry(s, d, EntryIndex(virtual))
  {
    var x := EntryIndex(virtual);
    var t := FreeFrame(s, d, virtual);
    if UserEntry(s, d, x) {
      CountUpdate(s.frames, s.dirs[d][x].frame, false);
      assert forall d', e' | 0 <= d' < 32 && 0 <= e' < 1024 ::
          UserEntry(t, d', e') ==> UserEntry(s, d', e') && (d', e') != (d, x) && t.dirs[d'][e'] == s.dirs[d'][e'];
      assert s.used[d];
    } else {
      assert !t.frames[0];
    }
  }

  /** Releasing the frame just mapped at an address that was clear restores the paging state. */
  lemma FreeUndoesAllocate(s: State, d: nat, virtual: u32)
    requires d < 32 && s.dirs[d][EntryIndex(virtual)] == CLEAR_PDE && FirstClear(s.frames, 1) < 32
    ensures var t := AllocateFrame(s, d, virtual);
      t.dirs[d][EntryIndex(virtual)].frame < 32 && FreeFrame(t, d, virtual) == s
  {
    var t, x, i := AllocateFrame(s, d, virtual), EntryIndex(virtual), FirstClear(s.frames, 1);
    assert t.dirs[d][x].frame == i;
    assert t.dirs[d][x := CLEAR_PDE] == s.dirs[d];
    assert FreeFrame(t, d, virtual).dirs == s.dirs;
    assert t.frames[i := false] == s.frames;
  }

  /** Creating a directory and giving it a frame each for code and stack: what the state is afterwards. */
  function Provide(s: State, entry: u32): State
    requires CreateDirectory(s).1 < 32
  {
    var d := CreateDirectory(s).1;
    AllocateFrame(AllocateFrame(CreateDirectory(s).0, d, entry), d, 0xBFFF_FFFC)
  }

  /** Each new directory takes at least as many frames as directories - two frames, or the last one. */
  lemma ProvideCounts(s: State, entry: u32)
    requires Isolated(s) && CreateDirectory(s).1 < 32
    ensures var t, d := Provide(s, entry), CreateDirectory(s).1;
      && Isolated(t) && t.base == s.base && t.cr3 == s.cr3
      && t.used == s.used[d := true] && !s.used[d] && CountTrue(t.used) == CountTrue(s.used) + 1
      && CountTrue(t.frames) == (if CountTrue(s.frames) + 2 <= 32 then CountTrue(s.frames) + 2 else 32)
      && (forall c :: 0 <= c < 32 && c != d ==> t.dirs[c] == s.dirs[c])
  {
    var d, s1 := CreateDirectory(s).1, CreateDirectory(s).0;
    CreateDirectoryIsolates(s);
    CountUpdate(s.used, d, true);
    AllocateCounts(s1, d, entry);
    AllocateFrameIsolates(s1, d, entry);
    var s2 := AllocateFrame(s1, d, entry);
    AllocateCounts(s2, d, 0xBFFF_FFFC);
    AllocateFrameIsolates(s2, d, 0xBFFF_FFFC);
  }

  lemma AllocateCounts(s: State, d: nat, virtual: u32)
    requires d < 32 && s.frames[0]
    ensures var t := AllocateFrame(s, d, virtual);
      && CountTrue(t.frames) == (if CountTrue(s.frames) < 32 then CountTrue(s.frames) + 1 else 32)
      && t.base == s.base && t.cr3 == s.cr3 && t.used == s.used
      && (forall c :: 0 <= c < 32 && c != d ==> t.dirs[c] == s.dirs[c])
  {
    var i := FirstClear(s.frames, 1);
    CountAll(s.frames);
    if i < 32 {
      CountUpdate(s.frames, i, true);
    }
  }

  // ---------- the page manager in place ----------

  class PageManager {
    const base: u32
    const frames: array<bool>               // page_manager_state.page_frame_map
    var free: int                           // page_manager_state.free_page_frame_count
    const dirs: array<PageDirectory>        // page_directory_list
    const used: array<bool>                 // page_directory_manager.page_directory_used
    var cr3: u32

    ghost function Repr(): set<object> {
      {this, frames, dirs, used}
    }

    ghost predicate Valid()
      reads this
    {
      Placed(base) && frames.Length == 32 && dirs.Length == 32 && used.Length == 32 && frames != used
    }

    ghost function Abs(): State
      reads this, frames, dirs, used
      requires Valid()
    {
      State(base, frames[..], free, dirs[..], used[..], cr3)
    }

    /** The static initial state: frame 0 belongs to the kernel, whose own directory is in CR3. */
    constructor (list: u32, kernelDirectory: u32)
      requires Placed(list) && KERNEL_BASE < kernelDirectory
      ensures Valid() && base == list && cr3 == kernelDirectory - KERNEL_BASE && fresh(Repr())
      ensures Isolated(Abs()) && used[..] == seq(32, _ => false) && frames[..] == [true] + seq(31, _ => false)
    {
      base := list;
      frames := new bool[32](i => i == 0);
      free := 31;
      dirs := new PageDirectory[32](_ => ClearDirectory());
      used := new bool[32](_ => false);
      cr3 := kernelDirectory - KERNEL_BASE;
      new;
      assert frames[..] == [true] + seq(31, _ => false);
      assert used[..] == seq(32, _ => false);
      OneFrameUsed(frames[..]);
    }

    method AllocateUserPageFrame(d: nat, virtual: u32) returns (ok: bool)
      requires Valid() && d < 32
      modifies this`free, frames, dirs
      ensures Valid() && ok && Abs() == AllocateFrame(old(Abs()), d, virtual)
    {
      for i := 1 to 32
        invariant Abs() == old(Abs()) && FirstClear(frames[..], 1) == FirstClear(frames[..], i)
      {
        if !frames[i] {
          frames[i] := true;
          dirs[d] := dirs[d][EntryIndex(virtual) := UserPde(i)];
          free := free - 1;
          return true;
        }
      }
      return true;
    }

    method FreeUserPageFrame(d: nat, virtual: u32) returns (ok: bool)
      requires Valid() && d < 32 && dirs[d][EntryIndex(virtual)].frame < 32
      modifies this`free, frames, dirs
      ensures Valid() && ok && Abs() == FreeFrame(old(Abs()), d, virtual)
    {
      var e := EntryIndex(virtual);
      frames[dirs[d][e].frame] := false;
      free := free + 1;
      dirs[d] := dirs[d][e := CLEAR_PDE];
      return true;
    }

    method CreateNewPageDirectory() returns (address: u32)
      requires Valid()
      modifies dirs, used
      ensures Valid() && Abs() == CreateDirectory(old(Abs())).0
      ensures var d := CreateDirectory(old(Abs())).1; address == if d < 32 then AddressOf(base, d) else NULL
    {
      for i := 0 to 32
        invariant Abs() == old(Abs()) && FirstClear(used[..], 0) == FirstClear(used[..], i)
      {
        if !used[i] {
          used[i] := true;
          dirs[i] := dirs[i][KERNEL_ENTRY := KERNEL_PDE];
          return AddressOf(base, i);
        }
      }
      return NULL;
    }

    method FreePageDirectory(address: u32) returns (ok: bool)
      requires Valid()
      modifies dirs, used
      ensures Valid() && ok && Abs() == FreeDirectory(old(Abs()), address)
    {
      for i := 0 to 32
        invariant i == 0 && Abs() == old(Abs())
      {
        if AddressOf(base, i) == address {
          used[i] := false;
          var d := dirs[i];
          for j := 0 to 1024
            invariant |d| == 1024 && forall e :: 0 <= e < j ==> d[e] == CLEAR_PDE
          {
            d := d[j := CLEAR_PDE];
          }
          assert d == ClearDirectory();
          dirs[i] := d;
        }
        return true;
      }
      assert false;   // the loop returns in its first turn
    }

    method GetCurrentPageDirectory() returns (address: u32)
      requires Valid()
      ensures address == CurrentDirectory(Abs())
    {
      address := (cr3 + KERNEL_BASE) % 0x1_0000_0000;
    }

    method UsePageDirectory(virtual: u32)
      requires Valid()
      modifies this`cr3
      ensures Valid() && Abs() == UseDirectory(old(Abs()), virtual)
    {
      var physical := virtual;
      if virtual > KERNEL_BASE { physical := physical - KERNEL_BASE; }
      cr3 := physical;
    }
  }

  lemma OneFrameUsed(f: seq<bool>)
    requires |f| == 32 && f[0] && forall i :: 1 <= i < 32 ==> !f[i]
    ensures CountTrue(f) == 1
  {
    CountUpdate(f, 0, false);
    CountAll(f[0 := false]);
  }
}
