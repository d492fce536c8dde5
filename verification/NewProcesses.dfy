/**
  What a process starts with and what becomes of it: the control block, the address space and the first instruction
  after process_create_user_process, and everything that process_destroy changes (src/process.c:51-158).
*/
module NewProcesses {
  import opened Bytes
  import opened Paging
  import opened Processes
  import opened Scheduler
  import opened KernelRuns
  import opened AddressSpaces
  import opened Rounding

  /** The slot p is the first that is free. */
  predicate FirstFreeSlot(active: Active, p: nat) {
    p < 16 && !active[p] && forall i :: 0 <= i < p ==> active[i]
  }

  /** The directory d is the first that is not in use. */
  predicate FirstFreeDirectory(s: State, d: nat) {
    d < 32 && !s.used[d] && forall i :: 0 <= i < d ==> s.used[i]
  }

  lemma FirstIsFirstClear(s: seq<bool>, p: nat)
    requires p < |s| && !s[p] && forall i :: 0 <= i < p ==> s[i]
    ensures FirstClear(s, 0) == p
  {
    var k := FirstClear(s, 0);
    assert !(k < p) && !(p < k);
  }

  /** The flags f with bits 1 and 9 set and all others as they were. */
  predicate FlagsSet(f: u32, prior: u32) {
    && f % 2 == prior % 2 && f / 2 % 2 == 1 && f % 0x200 / 4 == prior % 0x200 / 4
    && f / 0x200 % 2 == 1 && f / 0x400 == prior / 0x400
  }

  lemma ShiftedFlags(x: u32)
    ensures x / 0x200 == x / 4 / 0x80 && x % 0x200 / 4 == x / 4 % 0x80 && x / 0x400 == x / 0x200 / 2
  {
  }

  lemma BaseFlag(x: u32)
    ensures var y := WithBaseFlag(x); y / 4 == x / 4 && y % 2 == x % 2 && y / 2 % 2 == 1
  {
  }

  lemma Quarter(x: int, q: int, r: int)
    requires x == 4 * q + r && 0 <= r < 4
    ensures x / 4 == q && x % 4 == r
  {
  }

  lemma Above9(x: int, q: int, r: int)
    requires x == 0x200 * q + r && 0 <= r < 0x200
    ensures x / 0x200 == q && x % 0x200 == r
  {
  }

  lemma Above10(x: int, q: int, r: int)
    requires x == 0x400 * q + r && 0 <= r < 0x400
    ensures x / 0x400 == q
  {
  }

  lemma InterruptFlag(y: u32)
    ensures var z := WithInterruptFlag(y); z / 0x400 == y / 0x400 && z % 0x200 == y % 0x200 && z / 0x200 % 2 == 1
  {
    var z, a, t := WithInterruptFlag(y), y / 0x400, y % 0x200;
    Above10(z, a, 0x200 + t);
    Above9(z, 2 * a + 1, t);
  }

  lemma LowTwo(y: u32)
    ensures y % 2 == y % 4 % 2 && y / 2 % 2 == y % 4 / 2
  {
  }

  lemma LowFlags(y: u32, z: u32)
    requires z % 0x200 == y % 0x200
    ensures z % 2 == y % 2 && z / 2 % 2 == y / 2 % 2
  {
    var t := y % 0x200;
    Quarter(y, 0x80 * (y / 0x200) + t / 4, t % 4);
    Quarter(z, 0x80 * (z / 0x200) + t / 4, t % 4);
    LowTwo(y);
    LowTwo(z);
  }

  lemma FlagBits(x: u32)
    ensures FlagsSet(WithInterruptFlag(WithBaseFlag(x)), x)
  {
    hide WithBaseFlag, WithInterruptFlag;
    var y := WithBaseFlag(x);
    var z := WithInterruptFlag(y);
    BaseFlag(x);
    InterruptFlag(y);
    LowFlags(y, z);
    ShiftedFlags(x);
    ShiftedFlags(y);
  }

  /** A process that has been created at entry: with an empty stack, user segments, interrupts on, its own directory,
      and everything else in the registers as the slot's last owner left it. */
  predicate StartsAt(x: Context, prior: Context, entry: u32, directory: u32) {
    && x.eip == entry && x.esp == 0xBFFF_FFFC && x.ebp == 0xBFFF_FFFC
    && x.ds == 0x23 && x.es == 0x23 && x.fs == 0x23 && x.gs == 0x23
    && FlagsSet(x.eflags, prior.eflags) && x.pageDirectory == directory
    && x.edi == prior.edi && x.esi == prior.esi && x.ebx == prior.ebx
    && x.edx == prior.edx && x.ecx == prior.ecx && x.eax == prior.eax
  }

  lemma FreshStarts(prior: Context, entry: u32, directory: u32)
    ensures StartsAt(FreshContext(prior, entry, directory), prior, entry, directory)
  {
    hide FlagsSet, WithBaseFlag, WithInterruptFlag;
    FlagBits(prior.eflags);
  }

  /** What a creation answers in any kernel of any run: 1 when all sixteen slots are taken, 2 for an entry point in the
      kernel's part, 3 when no frame is free or the program is too large - or, for the one size that asks for no frame,
      when no directory is left - and 0 otherwise. */
  lemma CreationAnswers(k: Kernel, entry: u32, size: u32)
    requires AlwaysOk(k)
    ensures CreateCode(k, entry, size) ==
      if forall i :: 0 <= i < 16 ==> k.active[i] then 1
      else if entry >= 0xC000_0000 then 2
      else if size == 0xFFC0_0000 then (if forall d :: 0 <= d < 32 ==> k.paging.used[d] then 3 else 0)
      else if (forall f :: 0 <= f < 32 ==> k.paging.frames[f]) || 0x1C0_0002 < size < 0xFFC0_0000 then 3
      else 0
  {
    hide AlwaysOk, CreateCode, PagesNeeded, CountTrue;
    CreateCodeIs(k, entry, size);
    CountAll(k.active);
    CountAll(k.paging.used);
    CountAll(k.paging.frames);
    TooLargeIs(size);
  }

  /** A creation that answers 0, in any kernel of any run: the first free slot p is taken by a process that starts at
      the entry point, in the first free directory, which maps the two lowest free frames; nothing else changes - but
      CR3, which keeps its value exactly when that is below a gigabyte. */
  lemma CreationStarts(k: Kernel, entry: u32, size: u32, p: nat, d: nat, f: nat, g: nat)
    requires AlwaysOk(k) && CreateCode(k, entry, size) == 0
    requires FirstFreeSlot(k.active, p) && FirstFreeDirectory(k.paging, d)
    requires LowestFree(k.paging.frames, f) && NextFree(k.paging.frames, f, g)
    ensures FirstClear(k.active, 0) == p && entry < 0xC000_0000
    ensures var m := Create(k, entry, size);
      && m.active == k.active[p := true] && m.count == k.count + 1
      && (forall i :: 0 <= i < 16 && i != p ==> m.pcbs[i] == k.pcbs[i])
      && m.pcbs[p].pid == p && m.pcbs[p].state == Ready
      && StartsAt(m.pcbs[p].context, k.pcbs[p].context, entry, k.paging.base + 4096 * d)
    ensures var s, t := k.paging, Create(k, entry, size).paging;
      && NewSpace(t.dirs[d], entry, f, g) && (forall c :: 0 <= c < 32 && c != d ==> t.dirs[c] == s.dirs[c])
      && t.used == s.used[d := true] && t.base == s.base
      && t.frames == (if f == 32 then s.frames else if g == 32 then s.frames[f := true]
                      else s.frames[f := true][g := true])
      && (t.cr3 == s.cr3 <==> 0 < s.cr3 < 0x4000_0000)
  {
    hide AlwaysOk, CreateCode, Create, FreshContext, Provide, CreateDirectory, NewSpace, StartsAt, LowestFree, NextFree,
         Isolated, CountTrue, Placed;
    FirstIsFirstClear(k.active, p);
    FirstIsFirstClear(k.paging.used, d);
    CreationIs(k, entry, size);
    FirstDirectory(k.paging, d);
    ParseCode(k, entry, size);
    AlwaysIsolated(k);
    FreshStarts(k.pcbs[p].context, entry, AddressOf(k.paging.base, d));
    ProvidedSpace(k.paging, entry, f, g);
    ProvideCounts(k.paging, entry);
    UseOfCurrent(k.paging);
  }

  lemma FirstDirectory(s: State, d: nat)
    requires FirstClear(s.used, 0) == d < 32
    ensures CreateDirectory(s).1 == d
  {
  }

  lemma ParseCode(k: Kernel, entry: u32, size: u32)
    requires CreateCode(k, entry, size) == 0
    ensures entry < 0xC000_0000
  {
  }

  lemma AlwaysIsolated(k: Kernel)
    requires AlwaysOk(k)
    ensures Isolated(k.paging) && Placed(k.paging.base)
  {
  }

  /** The program's first instruction: whatever happens elsewhere after its creation, the first tick that chooses the
      process goes on at the entry point, in user mode, with an empty stack and interrupts on, in its own directory. */
  lemma FirstTurn(m: Machine, entry: u32, size: u32, es: seq<Event>, p: nat, d: nat)
    requires AlwaysOk(m.kernel) && CreateCode(m.kernel, entry, size) == 0
    requires FirstFreeSlot(m.kernel.active, p) && FirstFreeDirectory(m.kernel.paging, d)
    requires ElsewhereRun(Next(m, CreateEvent(entry, size)), es, p)
    requires NextPid(AfterEvents(Next(m, CreateEvent(entry, size)), es).kernel) == p
    ensures var z := Tick(AfterEvents(Next(m, CreateEvent(entry, size)), es));
      && z.cpu.eip == entry && z.cpu.esp == 0xBFFF_FFFC && z.cpu.ebp == 0xBFFF_FFFC
      && z.cpu.cs == 0x1B && z.cpu.ss == 0x23
      && z.cpu.ds == 0x23 && z.cpu.es == 0x23 && z.cpu.fs == 0x23 && z.cpu.gs == 0x23
      && z.cpu.eflags / 0x200 % 2 == 1
      && z.kernel.paging.cr3 == m.kernel.paging.base + 4096 * d - 0xC000_0000
  {
    hide AlwaysOk, CreateCode, Create, Tick, NextPid, AfterEvents, ElsewhereRun, NewSpace, SomeActive;
    var k, y := m.kernel, Next(m, CreateEvent(entry, size));
    var f, g := SomeFrames(k.paging.frames);
    CreationStarts(k, entry, size, p, d, f, g);
    AlwaysIsolated(k);
    AlwaysNext(m, CreateEvent(entry, size));
    var ctx := y.kernel.pcbs[p].context;
    ParkedAlong(y, es, p, ctx);
    var x := AfterEvents(y, es);
    ParkedIsActive(x.kernel, p, ctx);
    ChosenResumes(x, p, ctx);
    assert ctx.pageDirectory > 0xC000_0000;
  }

  lemma SomeFrames(frames: Flags) returns (f: nat, g: nat)
    ensures LowestFree(frames, f) && NextFree(frames, f, g)
  {
    f := FirstClear(frames, 1);
    g := if f < 32 then FirstClear(frames, f + 1) else 32;
  }

  /** What process_destroy changes, and what it answers: true exactly when the process is active. Then the pid is given
      up, and the last control block with this pid becomes ready and keeps its context; its directory is cleared and
      released exactly when that is the first one. No frame is given back. */
  lemma DestructionIs(k: Kernel, pid: u32, i: nat)
    requires DestroyDefined(k, pid) && i < 16
    requires k.pcbs[i].pid == pid && forall j :: i < j < 16 ==> k.pcbs[j].pid != pid
    ensures var (m, done) := Destroy(k, pid);
      && (done <==> pid < 16 && k.active[pid])
      && (!done ==> m == k)
      && (done ==>
            && m.active == k.active[pid := false] && m.count == k.count - 1
            && (forall j :: 0 <= j < 16 && j != i ==> m.pcbs[j] == k.pcbs[j])
            && m.pcbs[i].state == Ready && m.pcbs[i].pid == pid && m.pcbs[i].context == k.pcbs[i].context
            && (if k.pcbs[i].context.pageDirectory == k.paging.base then
                  && !m.paging.used[0] && Empty(m.paging.dirs[0])
                  && (forall c :: 1 <= c < 32 ==>
                        m.paging.used[c] == k.paging.used[c] && m.paging.dirs[c] == k.paging.dirs[c])
                else m.paging.used == k.paging.used && m.paging.dirs == k.paging.dirs)
            && m.paging.frames == k.paging.frames && m.paging.free == k.paging.free
            && m.paging.cr3 == k.paging.cr3 && m.paging.base == k.paging.base)
  {
    LastIs(k.pcbs, pid, i);
  }

  lemma LastIs(pcbs: Pcbs, pid: u32, i: nat)
    requires i < 16 && pcbs[i].pid == pid && forall j :: i < j < 16 ==> pcbs[j].pid != pid
    ensures LastWithPid(pcbs, pid, 16) == i
  {
    var k := LastWithPid(pcbs, pid, 16);
    assert !(k < i) && !(i < k < 16);
  }
}
