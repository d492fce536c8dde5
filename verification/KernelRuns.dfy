/**
  The machine as a transition system: timer ticks, process creation, process
  destruction, and user instructions in between. The invariant of every run, the
  accounting of frames and directories, and the transparency of preemption.
*/
module KernelRuns {
  import opened Bytes
  import opened Paging
  import opened Processes
  import opened Scheduler
  import opened Interrupt

  /** kernelEsp is the stack pointer that pushad sees on interrupt entry. */
  datatype Machine = Machine(kernel: Kernel, cpu: Cpu, kernelEsp: u32)

  function SavedContext(m: Machine): Context {
    ContextOf(FrameWords(m.cpu, m.kernelEsp, TIMER_INTERRUPT), CurrentDirectory(m.kernel.paging))
  }

  /** The timer branch of main_interrupt_handler, from the interrupted instruction to the resumed one. */
  function Tick(m: Machine): Machine {
    var k := Save(m.kernel, SavedContext(m));
    m.(kernel := Switch(k), cpu := Resumed(k.pcbs[NextPid(k)].context))
  }

  /** From the interrupted instruction until the context is in the running process's control block. */
  method EnterAndSave(p: Processor, pm: ProcessManager)
    requires p.Valid() && pm.Valid() && {p, p.mem} !! pm.Repr()
    modifies p, p.mem, pm.pcbs
    ensures p.Valid() && pm.Valid() && p.sp == p.mem.Length - 19
    ensures pm.Abs() == Save(old(pm.Abs()), SavedContext(Machine(old(pm.Abs()), old(p.Registers()), p.PushadEsp())))
  {
    hide FrameWords, Save;
    p.Interrupted(TIMER_INTERRUPT);
    var current := pm.paging.GetCurrentPageDirectory();
    assert p.mem[p.sp..p.sp + 19] == p.mem[p.sp..];
    var ctx := p.TakeContext(current);
    SaveContextToCurrentRunningPcb(pm, ctx);
  }

  /** From the choice of the next process until its program goes on. */
  method SwitchAndResume(p: Processor, pm: ProcessManager)
    requires p.Valid() && pm.Valid() && {p, p.mem} !! pm.Repr() && p.sp >= 21
    requires SomeActive(pm.Abs().active) && pm.pcbs[Current(pm.Abs())].pid < 16
    modifies p, p.mem, pm.pcbs, pm.paging
    ensures p.Valid() && pm.Valid() && pm.Abs() == Switch(old(pm.Abs()))
    ensures p.Registers() == Resumed(old(pm.Abs().pcbs[NextPid(pm.Abs())].context))
  {
    hide SomeActive, Resumed, Switch, NextPid, Current, FirstRunning;
    SwitchKeepsContexts(pm.Abs());
    var next := SwitchToNextProcess(pm);
    p.PassContext(next, 0);
    p.ProcessContextSwitch(next);
  }

  method TimerTick(p: Processor, pm: ProcessManager)
    requires p.Valid() && pm.Valid() && {p, p.mem} !! pm.Repr()
    requires SomeActive(pm.Abs().active) && pm.pcbs[Current(pm.Abs())].pid < 16
    modifies p, p.mem, pm.pcbs, pm.paging
    ensures p.Valid() && pm.Valid()
    ensures Machine(pm.Abs(), p.Registers(), p.PushadEsp())
         == Tick(Machine(old(pm.Abs()), old(p.Registers()), p.PushadEsp()))
  {
    hide SomeActive, SavedContext, Resumed, Switch, NextPid, Current, Save;
    SaveKeepsCurrent(pm.Abs(), SavedContext(Machine(pm.Abs(), p.Registers(), p.PushadEsp())));
    EnterAndSave(p, pm);
    SwitchAndResume(p, pm);
  }

  lemma {:induction false} FirstRunningSame(a: Pcbs, b: Pcbs, i: nat)
    requires i <= 16 && forall j :: 0 <= j < 16 ==> (a[j].state == Running <==> b[j].state == Running)
    ensures FirstRunning(a, i) == FirstRunning(b, i)
    decreases 16 - i
  {
    if i < 16 { FirstRunningSame(a, b, i + 1); }
  }

  /** Saving a context decides nothing about who is next. */
  lemma SaveKeepsCurrent(k: Kernel, ctx: Context)
    ensures Current(Save(k, ctx)) == Current(k) && NextPid(Save(k, ctx)) == NextPid(k)
    ensures Save(k, ctx).active == k.active
    ensures forall i :: 0 <= i < 16 ==> Save(k, ctx).pcbs[i].pid == k.pcbs[i].pid
  {
    FirstRunningSame(k.pcbs, Save(k, ctx).pcbs, 0);
  }

  lemma SwitchKeepsContexts(k: Kernel)
    ensures forall i :: 0 <= i < 16 ==>
      Switch(k).pcbs[i].context == k.pcbs[i].context && Switch(k).pcbs[i].pid == k.pcbs[i].pid
  {
    hide Nearest;
  }

  // ---------- the invariant ----------

  /** The directory index of an address. */
  function DirectoryIndex(base: int, address: int): int {
    (address - base) / 4096
  }

  /** Process i has a page directory of its own list that is in use. */
  predicate HasDirectory(k: Kernel, i: nat)
    requires i < 16
  {
    var d := DirectoryIndex(k.paging.base, k.pcbs[i].context.pageDirectory);
    0 <= d < 32 && k.pcbs[i].context.pageDirectory == AddressOf(k.paging.base, d) && k.paging.used[d]
  }

  /** A control block that has never been used: pid 0, ready, and no page directory. */
  predicate Unused(x: Pcb) {
    x.pid == 0 && x.state == Ready && x.context.pageDirectory == 0
  }

  /** A control block carries its own index as pid, or has never been used. */
  predicate PidsOk(k: Kernel) {
    forall i :: 0 <= i < 16 ==> k.pcbs[i].pid == i || (Unused(k.pcbs[i]) && !k.active[i])
  }

  predicate DirectoriesOk(k: Kernel) {
    && (forall i :: 0 <= i < 16 && k.active[i] ==> HasDirectory(k, i))
    && (forall i, j :: 0 <= i < j < 16 && k.active[i] && k.active[j] ==>
          k.pcbs[i].context.pageDirectory != k.pcbs[j].context.pageDirectory)
  }

  /** At most one process is running. */
  predicate OneRunning(k: Kernel) {
    forall i, j :: 0 <= i < j < 16 ==> k.pcbs[i].state != Running || k.pcbs[j].state != Running
  }

  /** The running process has its page directory in CR3. */
  predicate LoadedOk(k: Kernel) {
    forall i :: 0 <= i < 16 && k.pcbs[i].state == Running ==>
      k.paging.cr3 == k.pcbs[i].context.pageDirectory - KERNEL_BASE
  }

  /** The running process is active. */
  predicate RunningIsActive(k: Kernel) {
    forall i :: 0 <= i < 16 && k.pcbs[i].state == Running ==> k.active[i]
  }

  /** The active count and the free count are those of the flags, and while a frame is left, every directory in use
      has taken two. */
  predicate CountsOk(k: Kernel) {
    && k.count == CountTrue(k.active)
    && k.paging.free == 32 - CountTrue(k.paging.frames)
    && (CountTrue(k.paging.frames) < 32 ==> 2 * CountTrue(k.paging.used) + 1 <= CountTrue(k.paging.frames))
  }

  /** What holds whatever happens, whichever pid is destroyed and whatever size is asked for. */
  ghost predicate AlwaysOk(k: Kernel) {
    Placed(k.paging.base) && Isolated(k.paging) && PidsOk(k) && CountsOk(k) && OneRunning(k)
  }

  /** What holds as long as no process is created without a page directory. */
  ghost predicate NearlyOk(k: Kernel) {
    AlwaysOk(k) && 0 < k.paging.cr3 < 0x4000_0000 && DirectoriesOk(k) && LoadedOk(k)
  }

  /** What holds as long as, moreover, the running process 0 does not miss itself when it is destroyed. */
  ghost predicate KernelOk(k: Kernel) {
    NearlyOk(k) && RunningIsActive(k)
  }

  /** The state at boot: no process, every directory free, the kernel's own directory loaded. */
  function Boot(base: u32, kernelDirectory: u32): Kernel
    requires KERNEL_BASE < kernelDirectory
  {
    Kernel(seq(16, _ => ZERO_PCB), seq(16, _ => false), 0,
           State(base, [true] + seq(31, _ => false), 31, seq<PageDirectory>(32, _ => ClearDirectory()),
                 seq(32, _ => false), kernelDirectory - KERNEL_BASE))
  }

  lemma BootIsOk(base: u32, kernelDirectory: u32)
    requires Placed(base) && KERNEL_BASE < kernelDirectory
    ensures KernelOk(Boot(base, kernelDirectory)) && CountTrue(Boot(base, kernelDirectory).paging.frames) == 1
    ensures CountTrue(Boot(base, kernelDirectory).paging.used) == 0 == CountTrue(Boot(base, kernelDirectory).active)
  {
    var k := Boot(base, kernelDirectory);
    OneFrameUsed(k.paging.frames);
    CountAll(k.active);
    CountAll(k.paging.used);
  }

  // ---------- what keeps it ----------

  lemma {:induction false} PidIsOwn(k: Kernel, pid: u32, n: nat)
    requires PidsOk(k) && 1 <= pid < 16 && k.active[pid] && n <= 16
    ensures LastWithPid(k.pcbs, pid, n) == if pid < n then pid else 16
    decreases n
  {
    if n > 0 { PidIsOwn(k, pid, n - 1); }
  }

  /** With room for a process there is a slot, and with a free frame a page directory. */
  lemma RoomToCreate(k: Kernel)
    requires AlwaysOk(k)
    ensures k.count < 16 ==> FirstClear(k.active, 0) < 16
    ensures k.count >= 16 ==> FirstClear(k.active, 0) == 16
    ensures k.paging.free >= 1 ==> CreateDirectory(k.paging).1 < 32
    ensures CreateDirectory(k.paging).1 == 32 <==> CountTrue(k.paging.used) == 32
  {
    CountAll(k.active);
    CountAll(k.paging.used);
  }

  /** What a creation answers in every run, for every size: it is refused only for want of a slot, a user entry point
      or a free frame, or because the program is too large. The missing-directory branch of
      process_create_user_process is never taken - but for the one size whose sum wraps to zero, which asks for no
      frame and is refused for want of a directory alone. */
  lemma CreateCodeIs(k: Kernel, entry: u32, size: u32)
    requires AlwaysOk(k)
    ensures CreateCode(k, entry, size) ==
      if CountTrue(k.active) == 16 then 1
      else if entry >= KERNEL_BASE then 2
      else if size == WRAPPING_SIZE then (if CountTrue(k.paging.used) == 32 then 3 else 0)
      else if CountTrue(k.paging.frames) == 32 || PagesNeeded(size) > 8 then 3
      else 0
    ensures size != WRAPPING_SIZE && AllocateCheck(k.paging, PagesNeeded(size)) ==> CreateDirectory(k.paging).1 < 32
  {
    hide Isolated, CountTrue, CreateDirectory, AllocateCheck, CeilDiv;
    RoomToCreate(k);
    MemoryCheckMeans(k.paging, size);
    CeilDivIsExact((size + PAGE_FRAME_SIZE) % 0x1_0000_0000);
    CountBound(k.active);
    CountBound(k.paging.frames);
  }

  lemma CountBound(s: seq<bool>)
    ensures CountTrue(s) <= |s|
  {
  }

  /** The kernel with slot p given to a new process whose context is x, over the paging state t. */
  function Created(k: Kernel, p: nat, x: Context, t: State): Kernel
    requires p < 16
  {
    Kernel(k.pcbs[p := Pcb(p, Ready, x)], k.active[p := true], k.count + 1, t)
  }

  /** A creation that succeeds, written out: the first free slot gets the first free directory and up to two frames,
      and CR3 is back where it was. */
  lemma CreateEffect(k: Kernel, entry: u32, size: u32)
    requires NearlyOk(k) && CreateCode(k, entry, size) == 0
    ensures FirstClear(k.active, 0) < 16 && CreateDirectory(k.paging).1 < 32
    ensures var p, d, t := FirstClear(k.active, 0), CreateDirectory(k.paging).1, Provide(k.paging, entry);
      && t.cr3 == k.paging.cr3
      && Create(k, entry, size)
           == Created(k, p, FreshContext(k.pcbs[p].context, entry, AddressOf(k.paging.base, d)), t)
  {
    hide PagesNeeded, AllocateFrame, Isolated, Create, CreateCode, Provide, CreateDirectory, FreshContext;
    CreationIs(k, entry, size);
    ProvideCounts(k.paging, entry);
    CurrentIsRestored(k.paging, Provide(k.paging, entry));
  }

  lemma CurrentIsRestored(s: State, t: State)
    requires 0 < s.cr3 < 0x4000_0000 && t.cr3 == s.cr3
    ensures UseDirectory(t, CurrentDirectory(s)) == t
  {
    UseOfCurrent(t);
  }

  /** The paging state t arose from k's by taking the unused directory d. */
  predicate TookDirectory(k: Kernel, d: nat, t: State) {
    d < 32 && !k.paging.used[d] && t.base == k.paging.base && t.cr3 == k.paging.cr3
    && t.used == k.paging.used[d := true]
  }

  lemma CreatedDirectories(k: Kernel, p: nat, x: Context, d: nat, t: State)
    requires Placed(k.paging.base) && DirectoriesOk(k) && p < 16 && !k.active[p] && TookDirectory(k, d, t)
    requires x.pageDirectory == AddressOf(k.paging.base, d)
    ensures DirectoriesOk(Created(k, p, x, t))
  {
    var m := Created(k, p, x, t);
    assert DirectoryIndex(k.paging.base, x.pageDirectory) == d;
    forall i | 0 <= i < 16 && m.active[i]
      ensures HasDirectory(m, i) && (i != p ==> m.pcbs[i].context.pageDirectory != x.pageDirectory)
    {
      if i != p { assert HasDirectory(k, i); }
    }
  }

  lemma CreatedRunning(k: Kernel, p: nat, x: Context, t: State)
    requires p < 16
    ensures OneRunning(k) ==> OneRunning(Created(k, p, x, t))
    ensures LoadedOk(k) && t.cr3 == k.paging.cr3 ==> LoadedOk(Created(k, p, x, t))
    ensures RunningIsActive(k) ==> RunningIsActive(Created(k, p, x, t))
  {
  }

  lemma CreatedPids(k: Kernel, p: nat, x: Context, t: State)
    requires PidsOk(k) && p < 16
    ensures PidsOk(Created(k, p, x, t))
  {
  }

  lemma FreshDirectory(prior: Context, entry: u32, directory: u32)
    ensures FreshContext(prior, entry, directory).pageDirectory == directory
  {
  }

  lemma TakesDirectory(k: Kernel, entry: u32)
    requires Isolated(k.paging) && CreateDirectory(k.paging).1 < 32
    ensures TookDirectory(k, CreateDirectory(k.paging).1, Provide(k.paging, entry))
  {
    ProvideCounts(k.paging, entry);
  }

  /** The frame count after a creation: two more, or all of them. */
  function FramesAfter(n: nat): nat {
    if n + 2 <= 32 then n + 2 else 32
  }

  lemma CreatedCounts(k: Kernel, entry: u32, size: u32)
    requires AlwaysOk(k) && CreateCode(k, entry, size) == 0
    requires FirstClear(k.active, 0) < 16 && CreateDirectory(k.paging).1 < 32
    ensures var p, t := FirstClear(k.active, 0), Provide(k.paging, entry);
      && Isolated(t) && CountTrue(t.frames) == FramesAfter(CountTrue(k.paging.frames))
      && forall x :: CountsOk(Created(k, p, x, t))
  {
    hide PagesNeeded, AllocateFrame, CreateDirectory, CountTrue, Isolated, Provide, PidsOk;
    ProvideCounts(k.paging, entry);
    CountUpdate(k.active, FirstClear(k.active, 0), true);
    IsolatedFree(Provide(k.paging, entry));
  }

  lemma IsolatedFree(s: State)
    requires Isolated(s)
    ensures s.free == 32 - CountTrue(s.frames)
  {
  }

  /** A creation that succeeds. */
  lemma CreationKeeps(k: Kernel, entry: u32, size: u32)
    requires NearlyOk(k) && CreateCode(k, entry, size) == 0
    ensures FirstClear(k.active, 0) < 16
    ensures NearlyOk(Create(k, entry, size)) && (RunningIsActive(k) ==> RunningIsActive(Create(k, entry, size)))
    ensures CountTrue(Create(k, entry, size).paging.frames) == FramesAfter(CountTrue(k.paging.frames))
  {
    hide PagesNeeded, AllocateFrame, Isolated, Create, CreateCode, CountTrue, FreshContext, Provide, DirectoriesOk,
         OneRunning, LoadedOk, RunningIsActive, PidsOk, CountsOk, CreateDirectory;
    CreateEffect(k, entry, size);
    var p, d, t := FirstClear(k.active, 0), CreateDirectory(k.paging).1, Provide(k.paging, entry);
    var x := FreshContext(k.pcbs[p].context, entry, AddressOf(k.paging.base, d));
    FreshDirectory(k.pcbs[p].context, entry, AddressOf(k.paging.base, d));
    TakesDirectory(k, entry);
    CreatedDirectories(k, p, x, d, t);
    CreatedRunning(k, p, x, t);
    CreatedPids(k, p, x, t);
    CreatedCounts(k, entry, size);
  }

  /** The control block of slot p, left over from an earlier process, names a directory that is in use and that no
      active process has. */
  predicate LeftoverDirectory(k: Kernel, p: nat)
    requires p < 16
  {
    && HasDirectory(k, p)
    && forall i :: 0 <= i < 16 && k.active[i] ==>
         k.pcbs[i].context.pageDirectory != k.pcbs[p].context.pageDirectory
  }

  /** A creation gets past the checks although no directory is left - only the size that wraps can - and the slot it
      takes has none of its own. */
  predicate MissesDirectory(k: Kernel, entry: u32, size: u32) {
    && size == WRAPPING_SIZE && entry < KERNEL_BASE && CountTrue(k.paging.used) == 32
    && FirstClear(k.active, 0) < 16 && !LeftoverDirectory(k, FirstClear(k.active, 0))
  }

  lemma CreationWithoutDirectory(k: Kernel, p: nat)
    requires NearlyOk(k) && p < 16 && !k.active[p]
    ensures var m := k.(active := k.active[p := true], count := k.count + 1, pcbs := k.pcbs[p := k.pcbs[p].(pid := p)]);
      (NearlyOk(m) <==> LeftoverDirectory(k, p)) && (RunningIsActive(k) ==> RunningIsActive(m))
  {
    hide Isolated, CountTrue, AddressOf;
    var m := k.(active := k.active[p := true], count := k.count + 1, pcbs := k.pcbs[p := k.pcbs[p].(pid := p)]);
    CountUpdate(k.active, p, true);
    assert m.active[p] && (HasDirectory(m, p) <==> HasDirectory(k, p));
    assert forall i :: 0 <= i < 16 && i != p ==>
        (HasDirectory(m, i) <==> HasDirectory(k, i)) && m.active[i] == k.active[i] && m.pcbs[i] == k.pcbs[i];
  }

  /** What is refused before a slot is taken changes nothing; with no directory left the slot is taken all the same. */
  lemma RefusedCreation(k: Kernel, entry: u32, size: u32)
    requires AlwaysOk(k) && CreateCode(k, entry, size) != 0
    ensures k.count < 16 ==> FirstClear(k.active, 0) < 16
    ensures var p := FirstClear(k.active, 0);
      Create(k, entry, size) ==
        if p < 16 && size == WRAPPING_SIZE && entry < KERNEL_BASE && CountTrue(k.paging.used) == 32 then
          k.(active := k.active[p := true], count := k.count + 1, pcbs := k.pcbs[p := k.pcbs[p].(pid := p)])
        else k
  {
    hide Isolated, CountTrue, CreateDirectory, AllocateCheck, CeilDiv;
    RoomToCreate(k);
    CreateCodeIs(k, entry, size);
    MemoryCheckMeans(k.paging, size);
    CeilDivIsExact((size + PAGE_FRAME_SIZE) % 0x1_0000_0000);
  }

  /** Creating keeps the kernel sound, for every entry point and size, exactly when it does not miss a directory; a
      creation that succeeds takes two frames, or what is left of them. */
  lemma CreateKeeps(k: Kernel, entry: u32, size: u32)
    requires NearlyOk(k)
    ensures k.count < 16 ==> FirstClear(k.active, 0) < 16
    ensures NearlyOk(Create(k, entry, size)) <==> !MissesDirectory(k, entry, size)
    ensures KernelOk(k) ==> (KernelOk(Create(k, entry, size)) <==> !MissesDirectory(k, entry, size))
    ensures CountTrue(Create(k, entry, size).paging.frames) ==
      if CreateCode(k, entry, size) == 0 then FramesAfter(CountTrue(k.paging.frames)) else CountTrue(k.paging.frames)
  {
    hide NearlyOk, Create, CreateCode, CountTrue, LeftoverDirectory, RunningIsActive;
    SoundIsAlwaysOk(k);
    RoomToCreate(k);
    if CreateCode(k, entry, size) == 0 {
      CreationKeeps(k, entry, size);
      CreateCodeIs(k, entry, size);
    } else {
      RefusedCreation(k, entry, size);
      if FirstClear(k.active, 0) < 16 { CreationWithoutDirectory(k, FirstClear(k.active, 0)); }
    }
  }

  lemma SoundIsAlwaysOk(k: Kernel)
    requires NearlyOk(k)
    ensures AlwaysOk(k)
  {
  }

  /** Destroying process 0 resets its own control block exactly when every other one has been used at some time: a block
      never used also carries pid 0 and is found later. That matters exactly when process 0 is running: it then stays
      marked running although it is no longer active. */
  lemma DestroyZeroIsExact(k: Kernel)
    requires NearlyOk(k) && k.active[0]
    ensures DestroyDefined(k, 0) && NearlyOk(Destroy(k, 0).0) && Destroy(k, 0).0.paging.frames == k.paging.frames
    ensures KernelOk(k) ==> (KernelOk(Destroy(k, 0).0) <==>
      k.pcbs[0].state != Running || forall i :: 1 <= i < 16 ==> k.pcbs[i].pid == i)
  {
    hide Isolated, CountsOk, CountTrue, DirectoriesOk, LoadedOk, OneRunning, RunningIsActive;
    var i := LastWithPid(k.pcbs, 0, 16);
    DestroyedIsAlwaysOk(k, 0, i, k.pcbs[i].context.pageDirectory);
    if i == 0 {
      DestroyedDirectories(k, 0);
    } else {
      assert Unused(k.pcbs[i]);
      assert Destroyed(k, 0, i, 0) == k.(active := k.active[0 := false], count := k.count - 1);
      WithoutZero(k);
    }
  }

  /** Taking process 0 off the active set and nothing else. */
  lemma WithoutZero(k: Kernel)
    requires DirectoriesOk(k) && LoadedOk(k)
    ensures var m := k.(active := k.active[0 := false], count := k.count - 1);
      && DirectoriesOk(m) && LoadedOk(m)
      && (RunningIsActive(k) ==> (RunningIsActive(m) <==> k.pcbs[0].state != Running))
  {
    var m := k.(active := k.active[0 := false], count := k.count - 1);
    assert forall j :: 0 <= j < 16 ==> (HasDirectory(m, j) <==> HasDirectory(k, j));
    assert m.pcbs[0].state == k.pcbs[0].state && !m.active[0];
  }

  /** The one harmful destruction: that of the running process 0 while some control block has never been used. */
  predicate MissesItself(k: Kernel, pid: u32) {
    pid == 0 && k.active[0] && k.pcbs[0].state == Running && exists i :: 1 <= i < 16 && k.pcbs[i].pid != i
  }

  /** Destroying keeps the kernel sound, for every pid, exactly when it does not miss the process itself; what it then
      breaks is that the running process is active, and nothing else. It releases no frame. */
  lemma DestroyKeeps(k: Kernel, pid: u32)
    requires NearlyOk(k)
    ensures DestroyDefined(k, pid) && NearlyOk(Destroy(k, pid).0)
    ensures KernelOk(k) ==> (KernelOk(Destroy(k, pid).0) <==> !MissesItself(k, pid))
    ensures Destroy(k, pid).0.paging.frames == k.paging.frames
  {
    hide NearlyOk, RunningIsActive;
    if pid == 0 && k.active[0] {
      DestroyZeroIsExact(k);
    } else {
      DestroyOtherKeeps(k, pid);
    }
  }

  /** The kernel with process pid taken off the active set, control block i made ready and a directory released. */
  function Destroyed(k: Kernel, pid: nat, i: nat, address: u32): Kernel
    requires pid < 16 && i < 16
  {
    Kernel(k.pcbs[i := k.pcbs[i].(state := Ready)], k.active[pid := false], k.count - 1,
           FreeDirectory(k.paging, address))
  }

  lemma DestroyedIsAlwaysOk(k: Kernel, pid: nat, i: nat, address: u32)
    requires AlwaysOk(k) && pid < 16 && k.active[pid] && i < 16
    ensures AlwaysOk(Destroyed(k, pid, i, address))
    ensures Destroyed(k, pid, i, address).paging.frames == k.paging.frames
    ensures CountTrue(Destroyed(k, pid, i, address).paging.used) <= CountTrue(k.paging.used)
  {
    hide CountTrue, Isolated, OneRunning;
    FreeDirectoryIsolates(k.paging, address);
    CountUpdate(k.active, pid, false);
    CountUpdate(k.paging.used, 0, false);
    StillOneRunning(k, Destroyed(k, pid, i, address));
    assert PidsOk(Destroyed(k, pid, i, address));
  }

  lemma StillOneRunning(k: Kernel, m: Kernel)
    requires OneRunning(k) && forall i :: 0 <= i < 16 && m.pcbs[i].state == Running ==> k.pcbs[i].state == Running
    ensures OneRunning(m)
  {
  }

  lemma DestroyedDirectories(k: Kernel, pid: nat)
    requires Placed(k.paging.base) && DirectoriesOk(k) && LoadedOk(k) && pid < 16 && k.active[pid]
    ensures var m := Destroyed(k, pid, pid, k.pcbs[pid].context.pageDirectory);
      DirectoriesOk(m) && LoadedOk(m) && (RunningIsActive(k) ==> RunningIsActive(m))
  {
    hide AddressOf;
    OthersKeepDirectories(k, pid);
  }

  lemma DestroyOtherKeeps(k: Kernel, pid: u32)
    requires NearlyOk(k) && (pid >= 1 || !k.active[0])
    ensures DestroyDefined(k, pid) && NearlyOk(Destroy(k, pid).0)
    ensures RunningIsActive(k) ==> RunningIsActive(Destroy(k, pid).0)
    ensures Destroy(k, pid).0.paging.frames == k.paging.frames
  {
    hide PidsOk, DirectoriesOk, LoadedOk, OneRunning, RunningIsActive, Isolated, CountsOk, CountTrue;
    if pid < 16 && k.active[pid] {
      PidIsOwn(k, pid, 16);
      DestroyedIsAlwaysOk(k, pid, pid, k.pcbs[pid].context.pageDirectory);
      DestroyedDirectories(k, pid);
    }
  }

  /** Releasing the directory of one process leaves the directories of the others in use. */
  lemma OthersKeepDirectories(k: Kernel, pid: nat)
    requires Placed(k.paging.base) && DirectoriesOk(k) && pid < 16 && k.active[pid]
    ensures var t := FreeDirectory(k.paging, k.pcbs[pid].context.pageDirectory);
      forall i :: 0 <= i < 16 && k.active[i] && i != pid ==>
        var d := DirectoryIndex(k.paging.base, k.pcbs[i].context.pageDirectory);
        HasDirectory(k, i) && t.used[d] && t.dirs[d] == k.paging.dirs[d]
  {
    assert HasDirectory(k, pid);
    forall i | 0 <= i < 16 && k.active[i] && i != pid
      ensures HasDirectory(k, i)
      ensures k.pcbs[i].context.pageDirectory != k.pcbs[pid].context.pageDirectory
    {
    }
  }

  /** m has the pids, directories and active set of k, and the control blocks that were never used. */
  predicate SameTables(k: Kernel, m: Kernel) {
    && m.active == k.active && m.paging.base == k.paging.base && m.paging.used == k.paging.used
    && forall i :: 0 <= i < 16 ==>
         m.pcbs[i].pid == k.pcbs[i].pid && m.pcbs[i].context.pageDirectory == k.pcbs[i].context.pageDirectory
         && (k.pcbs[i].pid == i || m.pcbs[i].state == k.pcbs[i].state)
  }

  lemma TablesStayOk(k: Kernel, m: Kernel)
    requires PidsOk(k) && DirectoriesOk(k) && SameTables(k, m)
    ensures PidsOk(m) && DirectoriesOk(m)
  {
    forall i | 0 <= i < 16 && m.active[i]
      ensures HasDirectory(m, i)
    {
      assert HasDirectory(k, i);
    }
  }

  lemma RunningAfterSwitch(k: Kernel)
    requires OneRunning(k)
    ensures forall i :: 0 <= i < 16 ==> (Switch(k).pcbs[i].state == Running <==> i == NextPid(k))
  {
    hide Nearest, NextPid;
  }

  lemma NextIsActive(k: Kernel)
    requires SomeActive(k.active)
    ensures k.active[NextPid(k)]
  {
    NearestIsActive(k.active, k.pcbs[Current(k)].pid);
  }

  /** After a switch exactly one process is running, the chosen one, whatever has happened before: it is active, and if
      page directories are as they should be it has its own in CR3. */
  lemma SwitchKeeps(k: Kernel)
    requires AlwaysOk(k) && SomeActive(k.active)
    ensures AlwaysOk(Switch(k)) && k.active[NextPid(k)]
    ensures forall i :: 0 <= i < 16 ==> (Switch(k).pcbs[i].state == Running <==> i == NextPid(k))
    ensures NearlyOk(k) ==>
      KernelOk(Switch(k)) && Switch(k).paging.cr3 == k.pcbs[NextPid(k)].context.pageDirectory - KERNEL_BASE
  {
    hide Isolated, CountTrue, Nearest, SomeActive, NextPid, DirectoriesOk, FirstRunning, OneRunning, HasDirectory,
         AddressOf, PidsOk;
    NextIsActive(k);
    SwitchKeepsContexts(k);
    RunningAfterSwitch(k);
    OnlyOneRunning(Switch(k), NextPid(k));
    IsolatedIgnoresCr3(k.paging, Switch(k).paging);
    SwitchedPids(k);
    if NearlyOk(k) {
      ActiveHasDirectory(k, NextPid(k));
      DirectoryIsHigh(k, NextPid(k));
      SwitchedTables(k);
      TablesStayOk(k, Switch(k));
    }
  }

  lemma OnlyOneRunning(k: Kernel, p: nat)
    requires forall i :: 0 <= i < 16 ==> (k.pcbs[i].state == Running <==> i == p)
    ensures OneRunning(k)
  {
  }

  lemma DirectoryIsHigh(k: Kernel, p: nat)
    requires Placed(k.paging.base) && p < 16 && HasDirectory(k, p)
    ensures KERNEL_BASE < k.pcbs[p].context.pageDirectory
  {
  }

  lemma SwitchedTables(k: Kernel)
    requires PidsOk(k) && k.active[NextPid(k)]
    ensures SameTables(k, Switch(k))
  {
    hide FirstRunning, NextPid;
  }

  lemma ActiveHasDirectory(k: Kernel, i: nat)
    requires DirectoriesOk(k) && i < 16 && k.active[i]
    ensures HasDirectory(k, i)
  {
  }

  lemma IsolatedIgnoresCr3(s: State, t: State)
    requires Isolated(s) && t == s.(cr3 := t.cr3)
    ensures Isolated(t)
  {
    assert forall d, e | 0 <= d < 32 && 0 <= e < 1024 :: UserEntry(t, d, e) <==> UserEntry(s, d, e);
  }

  lemma SavedTables(k: Kernel, ctx: Context)
    requires Placed(k.paging.base) && 0 < k.paging.cr3 < 0x4000_0000 && LoadedOk(k) && PidsOk(k)
    requires ctx.pageDirectory == CurrentDirectory(k.paging)
    ensures SameTables(k, Save(k, ctx)) && LoadedOk(Save(k, ctx))
  {
    hide FirstRunning;
    var i := FirstRunning(k.pcbs, 0);
    if i < 16 {
      assert k.paging.cr3 == k.pcbs[i].context.pageDirectory - KERNEL_BASE;
    }
  }

  lemma SavedStates(k: Kernel, ctx: Context)
    ensures forall i :: 0 <= i < 16 ==> Save(k, ctx).pcbs[i].state == k.pcbs[i].state
  {
    hide FirstRunning;
  }

  /** Saving keeps what always holds; and what is saved into the running process names the directory it already has. */
  lemma SaveKeeps(k: Kernel, ctx: Context)
    requires AlwaysOk(k)
    ensures AlwaysOk(Save(k, ctx))
    ensures NearlyOk(k) && ctx.pageDirectory == CurrentDirectory(k.paging) ==> NearlyOk(Save(k, ctx))
  {
    hide Isolated, CountTrue, DirectoriesOk, PidsOk, LoadedOk, OneRunning, SameTables, Save;
    SavedPids(k, ctx);
    SavedStates(k, ctx);
    StillOneRunning(k, Save(k, ctx));
    SaveKeepsRest(k, ctx);
    if NearlyOk(k) && ctx.pageDirectory == CurrentDirectory(k.paging) {
      SavedTables(k, ctx);
      TablesStayOk(k, Save(k, ctx));
    }
  }

  lemma SavedPids(k: Kernel, ctx: Context)
    requires PidsOk(k)
    ensures PidsOk(Save(k, ctx))
  {
    hide FirstRunning;
  }

  lemma SwitchedPids(k: Kernel)
    requires PidsOk(k) && SomeActive(k.active)
    ensures PidsOk(Switch(k))
  {
    hide FirstRunning, NextPid, SomeActive;
    NextIsActive(k);
  }

  lemma SaveKeepsRest(k: Kernel, ctx: Context)
    ensures Save(k, ctx) == k.(pcbs := Save(k, ctx).pcbs)
  {
  }

  // ---------- events and runs ----------

  datatype Event =
    | TickEvent
    | CreateEvent(entry: u32, size: u32)
    | DestroyEvent(pid: u32)
    | UserEvent(cpu: Cpu)   // user instructions: any change of the program's own registers

  /** What may happen without upsetting the page directories: a tick needs a process to run, a creation must not miss
      a directory, user instructions stay in user mode; any process may be destroyed. */
  ghost predicate Possible(m: Machine, e: Event) {
    match e
    case TickEvent => SomeActive(m.kernel.active)
    case CreateEvent(entry, size) => !MissesDirectory(m.kernel, entry, size)
    case DestroyEvent(pid) => true
    case UserEvent(cpu) => UserMode(cpu)
  }

  ghost predicate MachineNearlyOk(m: Machine) {
    NearlyOk(m.kernel) && UserMode(m.cpu)
  }

  ghost predicate MachineOk(m: Machine) {
    KernelOk(m.kernel) && UserMode(m.cpu)
  }

  /** System calls come back to the program that made them with its registers as they were. */
  function Next(m: Machine, e: Event): Machine {
    match e
    case TickEvent => Tick(m)
    case CreateEvent(entry, size) =>
      if Placed(m.kernel.paging.base) && FirstClear(m.kernel.active, 0) < 16 then
        m.(kernel := Create(m.kernel, entry, size))
      else m
    case DestroyEvent(pid) =>
      if DestroyDefined(m.kernel, pid) then m.(kernel := Destroy(m.kernel, pid).0) else m
    case UserEvent(cpu) => m.(cpu := cpu)
  }

  /** Whatever has happened before, a tick leaves exactly one process running, an active one; and it makes a kernel
      sound again in which a running process 0 had missed itself. */
  lemma TickKeeps(m: Machine)
    requires AlwaysOk(m.kernel) && SomeActive(m.kernel.active)
    ensures AlwaysOk(Tick(m).kernel) && NextPid(Save(m.kernel, SavedContext(m))) == NextPid(m.kernel)
    ensures m.kernel.active[NextPid(m.kernel)] && Tick(m).kernel.active == m.kernel.active
    ensures forall i :: 0 <= i < 16 ==> (Tick(m).kernel.pcbs[i].state == Running <==> i == NextPid(m.kernel))
    ensures Tick(m).kernel.paging == m.kernel.paging.(cr3 := Tick(m).kernel.paging.cr3)
    ensures NearlyOk(m.kernel) ==> MachineOk(Tick(m))
  {
    hide AlwaysOk, NearlyOk, KernelOk, Switch, Save, NextPid, SomeActive;
    var ctx := SavedContext(m);
    SaveKeeps(m.kernel, ctx);
    SaveKeepsCurrent(m.kernel, ctx);
    SwitchKeeps(Save(m.kernel, ctx));
    NextIsActive(m.kernel);
    SwitchKeepsPaging(m.kernel, ctx);
  }

  lemma SwitchKeepsPaging(k: Kernel, ctx: Context)
    ensures var t := Switch(Save(k, ctx));
      t.active == k.active && t.paging == k.paging.(cr3 := t.paging.cr3)
  {
    hide Nearest;
  }

  /** Exactly the possible events keep the page directories right; a sound machine they keep sound, but for the running
      process 0 that misses itself. */
  lemma NextKeeps(m: Machine, e: Event)
    requires MachineNearlyOk(m) && (e.TickEvent? ==> SomeActive(m.kernel.active))
    ensures MachineNearlyOk(Next(m, e)) <==> Possible(m, e)
    ensures MachineOk(m) ==>
      (MachineOk(Next(m, e)) <==> Possible(m, e) && !(e.DestroyEvent? && MissesItself(m.kernel, e.pid)))
    ensures e.TickEvent? ==> MachineOk(Next(m, e))
  {
    hide NearlyOk, Tick, Create, Destroy, MissesDirectory, MissesItself, RunningIsActive;
    SoundIsAlwaysOk(m.kernel);
    match e
    case TickEvent => TickKeeps(m);
    case CreateEvent(entry, size) =>
      if FirstClear(m.kernel.active, 0) < 16 {
        CreateKeeps(m.kernel, entry, size);
      } else {
        assert !MissesDirectory(m.kernel, entry, size) by { FullTable(m.kernel, entry, size); }
      }
    case DestroyEvent(pid) => DestroyKeeps(m.kernel, pid);
    case UserEvent(cpu) =>
  }

  lemma FullTable(k: Kernel, entry: u32, size: u32)
    requires FirstClear(k.active, 0) == 16
    ensures !MissesDirectory(k, entry, size)
  {
  }

  ghost predicate PossibleRun(m: Machine, es: seq<Event>)
    decreases |es|
  {
    es == [] || (Possible(m, es[0]) && PossibleRun(Next(m, es[0]), es[1..]))
  }

  function AfterEvents(m: Machine, es: seq<Event>): Machine
    decreases |es|
  {
    if es == [] then m else AfterEvents(Next(m, es[0]), es[1..])
  }

  /** The creations of a run that succeed. */
  function Successes(m: Machine, es: seq<Event>): nat
    decreases |es|
  {
    if es == [] then 0
    else
      (if Succeeds(m, es[0]) then 1 else 0) + Successes(Next(m, es[0]), es[1..])
  }

  /** How many frames are used after n successful creations from boot. */
  function FramesUsed(n: nat): nat {
    if 2 * n + 1 <= 32 then 2 * n + 1 else 32
  }

  predicate Succeeds(m: Machine, e: Event) {
    e.CreateEvent? && CreateCode(m.kernel, e.entry, e.size) == 0
  }

  /** The successful creations of a run that do not ask for the one size whose sum wraps to zero. */
  function PlainSuccesses(m: Machine, es: seq<Event>): nat
    decreases |es|
  {
    if es == [] then 0
    else
      (if Succeeds(m, es[0]) && es[0].size != WRAPPING_SIZE then 1 else 0) + PlainSuccesses(Next(m, es[0]), es[1..])
  }

  // ---------- what holds in every run ----------

  /** The search of the scheduler needs an active process to end; everything else may happen at any time. */
  ghost predicate Executable(m: Machine, e: Event) {
    e.TickEvent? ==> SomeActive(m.kernel.active)
  }

  ghost predicate ExecutableRun(m: Machine, es: seq<Event>)
    decreases |es|
  {
    es == [] || (Executable(m, es[0]) && ExecutableRun(Next(m, es[0]), es[1..]))
  }

  /** From k to m the frames have grown by those of n successful creations, and so have the directories at most. */
  predicate Spent(k: Kernel, m: Kernel, n: nat)
    requires n <= 1
  {
    && CountTrue(m.paging.frames)
         == (if n == 1 then FramesAfter(CountTrue(k.paging.frames)) else CountTrue(k.paging.frames))
    && CountTrue(m.paging.used) <= CountTrue(k.paging.used) + n
  }

  lemma {:induction false} ActivePidIsFound(k: Kernel, pid: u32, n: nat)
    requires PidsOk(k) && pid < 16 && k.active[pid] && n <= 16
    ensures pid < n ==> LastWithPid(k.pcbs, pid, n) < 16
    decreases n
  {
    if n > 0 { ActivePidIsFound(k, pid, n - 1); }
  }

  /** A creation that succeeds, written out, wherever CR3 may point. */
  lemma CreationIs(k: Kernel, entry: u32, size: u32)
    requires AlwaysOk(k) && CreateCode(k, entry, size) == 0
    ensures FirstClear(k.active, 0) < 16 && CreateDirectory(k.paging).1 < 32
    ensures var p, d, t := FirstClear(k.active, 0), CreateDirectory(k.paging).1, Provide(k.paging, entry);
      Create(k, entry, size)
        == Created(k, p, FreshContext(k.pcbs[p].context, entry, AddressOf(k.paging.base, d)),
                   UseDirectory(t, CurrentDirectory(k.paging)))
  {
    hide PagesNeeded, AllocateFrame, Isolated, CountTrue, FreshContext, Provide, CreateDirectory, UseDirectory, PidsOk;
    RoomToCreate(k);
  }

  lemma AlwaysAfterSuccess(k: Kernel, entry: u32, size: u32)
    requires AlwaysOk(k) && CreateCode(k, entry, size) == 0
    ensures FirstClear(k.active, 0) < 16
    ensures AlwaysOk(Create(k, entry, size)) && Spent(k, Create(k, entry, size), 1)
  {
    hide CreateCode, Create, CountTrue, Isolated, FreshContext, CreateDirectory, Provide, PidsOk, FirstClear,
         OneRunning;
    CreationIs(k, entry, size);
    CreatedCounts(k, entry, size);
    ProvideCounts(k.paging, entry);
    var p, d, t := FirstClear(k.active, 0), CreateDirectory(k.paging).1, Provide(k.paging, entry);
    var x := FreshContext(k.pcbs[p].context, entry, AddressOf(k.paging.base, d));
    var u := UseDirectory(t, CurrentDirectory(k.paging));
    IsolatedIgnoresCr3(t, u);
    CreatedPids(k, p, x, u);
    CreatedRunning(k, p, x, u);
    assert CountsOk(Created(k, p, x, t));
  }

  lemma AlwaysAfterRefusal(k: Kernel, entry: u32, size: u32)
    requires AlwaysOk(k) && CreateCode(k, entry, size) != 0 && FirstClear(k.active, 0) < 16
    ensures AlwaysOk(Create(k, entry, size)) && Spent(k, Create(k, entry, size), 0)
  {
    hide CreateCode, Create, CountTrue, Isolated, OneRunning;
    RefusedCreation(k, entry, size);
    CountUpdate(k.active, FirstClear(k.active, 0), true);
    StillOneRunning(k, Create(k, entry, size));
  }

  lemma AlwaysAfterDestroy(k: Kernel, pid: u32)
    requires AlwaysOk(k)
    ensures DestroyDefined(k, pid) && AlwaysOk(Destroy(k, pid).0) && Spent(k, Destroy(k, pid).0, 0)
  {
    hide CountTrue, Isolated, CountsOk, PidsOk, FreeDirectory, LastWithPid, OneRunning;
    if pid < 16 && k.active[pid] {
      ActivePidIsFound(k, pid, 16);
      var i := LastWithPid(k.pcbs, pid, 16);
      DestroyedIsAlwaysOk(k, pid, i, k.pcbs[i].context.pageDirectory);
    }
  }

  lemma AlwaysNext(m: Machine, e: Event)
    requires AlwaysOk(m.kernel) && Executable(m, e)
    ensures AlwaysOk(Next(m, e).kernel)
    ensures Spent(m.kernel, Next(m, e).kernel, if Succeeds(m, e) then 1 else 0)
  {
    hide Create, Destroy, Isolated, CountTrue, Tick, CreateCode;
    match e
    case TickEvent => TickKeeps(m);
    case CreateEvent(entry, size) =>
      RoomToCreate(m.kernel);
      if FirstClear(m.kernel.active, 0) < 16 {
        if CreateCode(m.kernel, entry, size) == 0 {
          AlwaysAfterSuccess(m.kernel, entry, size);
        } else {
          AlwaysAfterRefusal(m.kernel, entry, size);
        }
      } else {
        CreateCodeIs(m.kernel, entry, size);
        CountAll(m.kernel.active);
      }
    case DestroyEvent(pid) => AlwaysAfterDestroy(m.kernel, pid);
    case UserEvent(cpu) =>
  }

  /** A creation that succeeds with a plain size has found a free frame. */
  lemma PlainNeedsFrame(m: Machine, e: Event)
    requires AlwaysOk(m.kernel) && Succeeds(m, e) && e.size != WRAPPING_SIZE
    ensures CountTrue(m.kernel.paging.frames) <= 31
  {
    hide CreateCode, CountTrue, Isolated;
    CreateCodeIs(m.kernel, e.entry, e.size);
    CountBound(m.kernel.paging.frames);
  }

  /** The account of a run: how many frames are used tells how many creations have succeeded before and in it, no more
      directories are in use than that, and as long as a frame is left, not more than sixteen of plain size. */
  lemma {:induction false} RunIsAccounted(m: Machine, es: seq<Event>, n: nat)
    requires AlwaysOk(m.kernel) && ExecutableRun(m, es)
    requires CountTrue(m.kernel.paging.frames) == FramesUsed(n) && CountTrue(m.kernel.paging.used) <= n
    ensures AlwaysOk(AfterEvents(m, es).kernel)
    ensures CountTrue(AfterEvents(m, es).kernel.paging.frames) == FramesUsed(n + Successes(m, es))
    ensures CountTrue(AfterEvents(m, es).kernel.paging.used) <= n + Successes(m, es)
    ensures PlainSuccesses(m, es) <= if n <= 16 then 16 - n else 0
    decreases |es|
  {
    hide AlwaysOk, Next, Executable, CountTrue, CreateCode;
    if es != [] {
      AlwaysNext(m, es[0]);
      if Succeeds(m, es[0]) && es[0].size != WRAPPING_SIZE { PlainNeedsFrame(m, es[0]); }
      RunIsAccounted(Next(m, es[0]), es[1..], n + if Succeeds(m, es[0]) then 1 else 0);
    }
  }

  lemma {:induction false} PlainIsAll(m: Machine, es: seq<Event>)
    requires forall e :: e in es && e.CreateEvent? ==> e.size != WRAPPING_SIZE
    ensures PlainSuccesses(m, es) == Successes(m, es)
    decreases |es|
  {
    hide Next, CreateCode;
    if es != [] { PlainIsAll(Next(m, es[0]), es[1..]); }
  }

  /** Resource accounting from boot, in every run, whatever pid is destroyed: n successful creations have used 2n + 1
      frames, or all of them, because destroying releases none; the directories in use never exceed the creations nor
      the frames; and at most 16 creations ever succeed, those with the one wrapping size not counted. */
  lemma AtMostSixteenCreations(base: u32, kernelDirectory: u32, cpu: Cpu, kernelEsp: u32, es: seq<Event>)
    requires Placed(base) && KERNEL_BASE < kernelDirectory
    requires ExecutableRun(Machine(Boot(base, kernelDirectory), cpu, kernelEsp), es)
    ensures var m := Machine(Boot(base, kernelDirectory), cpu, kernelEsp);
      var k, n := AfterEvents(m, es).kernel, Successes(m, es);
      && AlwaysOk(k) && CountTrue(k.paging.frames) == FramesUsed(n)
      && CountTrue(k.paging.used) <= n && CountTrue(k.paging.used) <= CountTrue(k.paging.frames)
      && PlainSuccesses(m, es) <= 16
      && ((forall e :: e in es && e.CreateEvent? ==> e.size != WRAPPING_SIZE) ==> n <= 16)
  {
    hide AlwaysOk, KernelOk, Boot, CountTrue, ExecutableRun, AfterEvents, Successes, PlainSuccesses;
    var m := Machine(Boot(base, kernelDirectory), cpu, kernelEsp);
    BootIsOk(base, kernelDirectory);
    SoundIsAlwaysOk(m.kernel);
    RunIsAccounted(m, es, 0);
    CountBound(AfterEvents(m, es).kernel.paging.used);
    if forall e :: e in es && e.CreateEvent? ==> e.size != WRAPPING_SIZE { PlainIsAll(m, es); }
  }

  /** Address-space isolation in every run from boot, whatever is created and destroyed, frames running out included. */
  lemma IsolationInEveryRun(base: u32, kernelDirectory: u32, cpu: Cpu, kernelEsp: u32, es: seq<Event>)
    requires Placed(base) && KERNEL_BASE < kernelDirectory
    requires ExecutableRun(Machine(Boot(base, kernelDirectory), cpu, kernelEsp), es)
    ensures Isolated(AfterEvents(Machine(Boot(base, kernelDirectory), cpu, kernelEsp), es).kernel.paging)
  {
    hide Isolated, Boot, CountTrue, ExecutableRun, AfterEvents;
    AtMostSixteenCreations(base, kernelDirectory, cpu, kernelEsp, es);
  }

  /** In every run from boot, whatever is created and destroyed, at most one process is running; and after a tick
      exactly one is, the nearest active one. */
  lemma OneProcessRuns(base: u32, kernelDirectory: u32, cpu: Cpu, kernelEsp: u32, es: seq<Event>)
    requires Placed(base) && KERNEL_BASE < kernelDirectory
    requires ExecutableRun(Machine(Boot(base, kernelDirectory), cpu, kernelEsp), es)
    ensures var y := AfterEvents(Machine(Boot(base, kernelDirectory), cpu, kernelEsp), es);
      && OneRunning(y.kernel)
      && (SomeActive(y.kernel.active) ==>
            y.kernel.active[NextPid(y.kernel)]
            && forall i :: 0 <= i < 16 ==> (Tick(y).kernel.pcbs[i].state == Running <==> i == NextPid(y.kernel)))
  {
    hide Isolated, Boot, CountTrue, ExecutableRun, AfterEvents, Tick, NextPid, SomeActive;
    AtMostSixteenCreations(base, kernelDirectory, cpu, kernelEsp, es);
    var y := AfterEvents(Machine(Boot(base, kernelDirectory), cpu, kernelEsp), es);
    if SomeActive(y.kernel.active) { TickKeeps(y); }
  }

  // ---------- what holds in every possible run ----------

  /** Every possible run can be executed and keeps the page directories right; and if it ends with a tick the machine is
      sound. */
  lemma {:induction false} RunKeeps(m: Machine, es: seq<Event>)
    requires MachineNearlyOk(m) && PossibleRun(m, es)
    ensures MachineNearlyOk(AfterEvents(m, es)) && ExecutableRun(m, es)
    ensures es != [] && es[|es| - 1].TickEvent? ==> MachineOk(AfterEvents(m, es))
    decreases |es|
  {
    hide MachineNearlyOk, MachineOk, Next;
    if es != [] {
      NextKeeps(m, es[0]);
      RunKeeps(Next(m, es[0]), es[1..]);
    }
  }

  // ---------- preemption is transparent ----------

  /** The page directory of process p. */
  function DirectoryOf(k: Kernel, p: nat): PageDirectory
    requires p < 16 && HasDirectory(k, p)
  {
    k.paging.dirs[DirectoryIndex(k.paging.base, k.pcbs[p].context.pageDirectory)]
  }

  /** Process p is active but not running, with this context. */
  predicate Parked(k: Kernel, p: nat, ctx: Context) {
    p < 16 && k.active[p] && k.pcbs[p].state != Running && k.pcbs[p].context == ctx
  }

  /** Process p is parked and has this page directory. */
  predicate Suspended(k: Kernel, p: nat, ctx: Context, d: PageDirectory) {
    Parked(k, p, ctx) && HasDirectory(k, p) && DirectoryOf(k, p) == d
  }

  /** Nothing in the event concerns p: it is not destroyed, and no tick chooses it. */
  predicate Elsewhere(m: Machine, e: Event, p: nat) {
    match e
    case TickEvent => NextPid(m.kernel) != p
    case CreateEvent(_, _) => true
    case DestroyEvent(pid) => pid != p
    case UserEvent(_) => true
  }

  ghost predicate ElsewhereRun(m: Machine, es: seq<Event>, p: nat)
    decreases |es|
  {
    es == [] || (Executable(m, es[0]) && Elsewhere(m, es[0], p) && ElsewhereRun(Next(m, es[0]), es[1..], p))
  }

  lemma TickLeaves(m: Machine, p: nat, ctx: Context)
    requires AlwaysOk(m.kernel) && SomeActive(m.kernel.active) && NextPid(m.kernel) != p && Parked(m.kernel, p, ctx)
    ensures Parked(Tick(m).kernel, p, ctx)
  {
    hide AlwaysOk, NextPid, Save, Switch;
    TickKeeps(m);
    SwitchKeepsContexts(Save(m.kernel, SavedContext(m)));
    SaveLeavesParked(m.kernel, SavedContext(m), p);
  }

  lemma SaveLeavesParked(k: Kernel, ctx: Context, p: nat)
    requires p < 16 && k.pcbs[p].state != Running
    ensures Save(k, ctx).pcbs[p].context == k.pcbs[p].context
  {
    hide FirstRunning;
  }

  lemma CreateLeaves(k: Kernel, entry: u32, size: u32, p: nat, ctx: Context)
    requires AlwaysOk(k) && FirstClear(k.active, 0) < 16 && Parked(k, p, ctx)
    ensures Parked(Create(k, entry, size), p, ctx)
  {
    hide AlwaysOk, Create, CreateCode, FreshContext, CountTrue, Provide, CreateDirectory;
    if CreateCode(k, entry, size) == 0 { CreationIs(k, entry, size); } else { RefusedCreation(k, entry, size); }
  }

  lemma DestroyLeaves(k: Kernel, pid: u32, p: nat, ctx: Context)
    requires AlwaysOk(k) && pid != p && Parked(k, p, ctx)
    ensures DestroyDefined(k, pid) && Parked(Destroy(k, pid).0, p, ctx)
  {
    hide Isolated, CountsOk, OneRunning;
    if pid < 16 && k.active[pid] { ActivePidIsFound(k, pid, 16); }
  }

  /** Whatever happens elsewhere leaves a parked process alone. */
  lemma ParkedStays(m: Machine, e: Event, p: nat, ctx: Context)
    requires AlwaysOk(m.kernel) && Executable(m, e) && Elsewhere(m, e, p) && Parked(m.kernel, p, ctx)
    ensures Parked(Next(m, e).kernel, p, ctx)
  {
    hide AlwaysOk, Create, Destroy, NextPid, Tick, Parked;
    match e
    case TickEvent => TickLeaves(m, p, ctx);
    case CreateEvent(entry, size) =>
      if FirstClear(m.kernel.active, 0) < 16 { CreateLeaves(m.kernel, entry, size, p, ctx); }
    case DestroyEvent(pid) => DestroyLeaves(m.kernel, pid, p, ctx);
    case UserEvent(cpu) =>
  }

  lemma {:induction false} ParkedAlong(m: Machine, es: seq<Event>, p: nat, ctx: Context)
    requires AlwaysOk(m.kernel) && ElsewhereRun(m, es, p) && Parked(m.kernel, p, ctx)
    ensures AlwaysOk(AfterEvents(m, es).kernel) && Parked(AfterEvents(m, es).kernel, p, ctx)
    decreases |es|
  {
    hide AlwaysOk, Next, Elsewhere, Parked, SomeActive;
    if es != [] {
      AlwaysNext(m, es[0]);
      ParkedStays(m, es[0], p, ctx);
      ParkedAlong(Next(m, es[0]), es[1..], p, ctx);
    }
  }

  lemma CreateLeavesDirectory(k: Kernel, entry: u32, size: u32, p: nat, ctx: Context, d: PageDirectory)
    requires NearlyOk(k) && FirstClear(k.active, 0) < 16 && Suspended(k, p, ctx, d)
    ensures Suspended(Create(k, entry, size), p, ctx, d)
  {
    hide PagesNeeded, AllocateFrame, Isolated, Create, CreateCode, CountTrue, FreshContext, Provide,
         LoadedOk, OneRunning, PidsOk, CountsOk, CreateDirectory;
    SoundIsAlwaysOk(k);
    if CreateCode(k, entry, size) == 0 {
      CreateEffect(k, entry, size);
      TakesDirectory(k, entry);
      ProvideCounts(k.paging, entry);
    } else {
      RefusedCreation(k, entry, size);
    }
  }

  lemma DestroyLeavesDirectory(k: Kernel, pid: u32, p: nat, ctx: Context, d: PageDirectory)
    requires NearlyOk(k) && pid != p && Suspended(k, p, ctx, d)
    ensures DestroyDefined(k, pid) && Suspended(Destroy(k, pid).0, p, ctx, d)
  {
    hide Isolated, CountsOk, CountTrue, OneRunning, LoadedOk;
    if pid < 16 && k.active[pid] {
      ActivePidIsFound(k, pid, 16);
      var i := LastWithPid(k.pcbs, pid, 16);
      if i == pid { OthersKeepDirectories(k, pid); } else { assert Unused(k.pcbs[i]); }
    }
  }

  lemma TickLeavesDirectory(m: Machine, p: nat, ctx: Context, d: PageDirectory)
    requires AlwaysOk(m.kernel) && SomeActive(m.kernel.active)
    requires NextPid(m.kernel) != p && Suspended(m.kernel, p, ctx, d)
    ensures Suspended(Tick(m).kernel, p, ctx, d)
  {
    hide AlwaysOk, NextPid, Tick;
    TickLeaves(m, p, ctx);
    TickKeeps(m);
  }

  /** And whatever is possible leaves it its page directory. */
  lemma SuspendedStays(m: Machine, e: Event, p: nat, ctx: Context, d: PageDirectory)
    requires NearlyOk(m.kernel) && Possible(m, e) && Elsewhere(m, e, p) && Suspended(m.kernel, p, ctx, d)
    ensures Suspended(Next(m, e).kernel, p, ctx, d)
  {
    hide NearlyOk, Create, Destroy, NextPid, Tick, MissesDirectory, Suspended;
    SoundIsAlwaysOk(m.kernel);
    match e
    case TickEvent => TickLeavesDirectory(m, p, ctx, d);
    case CreateEvent(entry, size) =>
      if FirstClear(m.kernel.active, 0) < 16 { CreateLeavesDirectory(m.kernel, entry, size, p, ctx, d); }
    case DestroyEvent(pid) => DestroyLeavesDirectory(m.kernel, pid, p, ctx, d);
    case UserEvent(cpu) =>
  }

  lemma {:induction false} SuspendedAlong(m: Machine, es: seq<Event>, p: nat, ctx: Context, d: PageDirectory)
    requires MachineNearlyOk(m) && PossibleRun(m, es) && ElsewhereRun(m, es, p) && Suspended(m.kernel, p, ctx, d)
    ensures MachineNearlyOk(AfterEvents(m, es)) && Suspended(AfterEvents(m, es).kernel, p, ctx, d)
    decreases |es|
  {
    hide NearlyOk, Next, Elsewhere, Suspended, MissesDirectory, SomeActive, MachineOk;
    if es != [] {
      NextKeeps(m, es[0]);
      SuspendedStays(m, es[0], p, ctx, d);
      SuspendedAlong(Next(m, es[0]), es[1..], p, ctx, d);
    }
  }

  /** The running process is the one that is found running, and has its own pid. */
  lemma RunningIs(k: Kernel, p: nat)
    requires AlwaysOk(k) && p < 16 && k.pcbs[p].state == Running
    ensures FirstRunning(k.pcbs, 0) == p && k.pcbs[p].pid == p
  {
    hide Isolated, CountsOk, FirstRunning;
  }

  /** What a tick saves for the running process names the page directory it has, which is the one in CR3. */
  lemma RunningDirectory(m: Machine, p: nat)
    requires NearlyOk(m.kernel) && p < 16 && m.kernel.pcbs[p].state == Running
    ensures m.kernel.active[p] ==> HasDirectory(m.kernel, p)
    ensures SavedContext(m).pageDirectory == m.kernel.pcbs[p].context.pageDirectory > KERNEL_BASE
    ensures m.kernel.paging.cr3 == m.kernel.pcbs[p].context.pageDirectory - KERNEL_BASE
  {
    hide Isolated, CountTrue, FrameWords;
    if m.kernel.active[p] { ActiveHasDirectory(m.kernel, p); }
  }

  lemma PreemptedIsParked(m: Machine, p: nat)
    requires AlwaysOk(m.kernel) && p < 16 && m.kernel.active[p] && m.kernel.pcbs[p].state == Running
    requires NextPid(m.kernel) != p
    ensures SomeActive(m.kernel.active) && Parked(Tick(m).kernel, p, SavedContext(m))
  {
    hide AlwaysOk, SavedContext, NextPid, FirstRunning;
    RunningIs(m.kernel, p);
    assert m.kernel.active[p];
    TickKeeps(m);
    var k := Save(m.kernel, SavedContext(m));
    SwitchKeepsContexts(k);
    assert k.pcbs[p].context == SavedContext(m);
  }

  lemma PreemptedIsSuspended(m: Machine, p: nat)
    requires NearlyOk(m.kernel) && p < 16 && m.kernel.active[p] && m.kernel.pcbs[p].state == Running
    requires NextPid(m.kernel) != p
    ensures HasDirectory(m.kernel, p)
    ensures Suspended(Tick(m).kernel, p, SavedContext(m), DirectoryOf(m.kernel, p))
  {
    hide NearlyOk, SavedContext, NextPid, Tick;
    SoundIsAlwaysOk(m.kernel);
    RunningDirectory(m, p);
    PreemptedIsParked(m, p);
    TickKeeps(m);
  }

  /** The program that a tick choosing p goes on with. */
  lemma ChosenResumes(m: Machine, p: nat, ctx: Context)
    requires AlwaysOk(m.kernel) && SomeActive(m.kernel.active) && NextPid(m.kernel) == p && Parked(m.kernel, p, ctx)
    ensures Tick(m).cpu == Resumed(ctx) && Tick(m).kernel.pcbs[p].context == ctx
    ensures Tick(m).kernel.paging == UseDirectory(m.kernel.paging, ctx.pageDirectory)
  {
    hide AlwaysOk, SavedContext, NextPid, Resumed;
    TickKeeps(m);
    var k := Save(m.kernel, SavedContext(m));
    SwitchKeepsContexts(k);
    SaveLeavesParked(m.kernel, SavedContext(m), p);
  }

  lemma DirectoryAfterTick(m: Machine, p: nat, ctx: Context, d: PageDirectory)
    requires AlwaysOk(m.kernel) && SomeActive(m.kernel.active)
    requires NextPid(m.kernel) == p && Suspended(m.kernel, p, ctx, d)
    ensures HasDirectory(Tick(m).kernel, p) && DirectoryOf(Tick(m).kernel, p) == d
  {
    hide AlwaysOk, NextPid, Tick;
    ChosenResumes(m, p, ctx);
    TickKeeps(m);
  }

  lemma LoadsTheSame(m: Machine, s: State)
    ensures UseDirectory(s, SavedContext(m).pageDirectory).cr3 == m.kernel.paging.cr3
      <==> 0 < m.kernel.paging.cr3 < 0x4000_0000
  {
    hide FrameWords;
    UseOfCurrent(m.kernel.paging);
  }

  /** Context transparency: a process is preempted, anything at all happens before and in between - ticks, creations,
      destructions, other programs' instructions, the harmful ones included - and a tick chooses it again. It then has
      exactly the registers it had if and only if its data segment carried the privilege bits by which the entry code
      recognises a user program, or the two stack pointers agree; and the CR3 it had if and only if that was below a
      gigabyte. As long as no creation misses a directory it was, and the page directory is what it was, too. */
  lemma PreemptionIsTransparent(m: Machine, es: seq<Event>, p: nat)
    requires AlwaysOk(m.kernel) && UserMode(m.cpu)
    requires p < 16 && m.kernel.active[p] && m.kernel.pcbs[p].state == Running
    requires NextPid(m.kernel) != p && ElsewhereRun(Tick(m), es, p)
    requires NextPid(AfterEvents(Tick(m), es).kernel) == p
    ensures var z := Tick(AfterEvents(Tick(m), es));
      && (z.cpu == m.cpu <==> m.cpu.ds % 4 != 0 || m.cpu.esp == m.kernelEsp)
      && (z.kernel.paging.cr3 == m.kernel.paging.cr3 <==> 0 < m.kernel.paging.cr3 < 0x4000_0000)
    ensures NearlyOk(m.kernel) ==> HasDirectory(m.kernel, p) && 0 < m.kernel.paging.cr3 < 0x4000_0000
    ensures NearlyOk(m.kernel) && PossibleRun(Tick(m), es) ==>
      var z := Tick(AfterEvents(Tick(m), es)).kernel;
      HasDirectory(z, p) && DirectoryOf(z, p) == DirectoryOf(m.kernel, p)
  {
    hide AlwaysOk, NearlyOk, Tick, NextPid, Resumed, SavedContext, HasDirectory, DirectoryOf, AfterEvents, ElsewhereRun,
         PossibleRun, SomeActive, Parked, Suspended, UseDirectory;
    PreemptedIsParked(m, p);
    TickKeeps(m);
    var ctx, y := SavedContext(m), AfterEvents(Tick(m), es);
    ParkedAlong(Tick(m), es, p, ctx);
    ParkedIsActive(y.kernel, p, ctx);
    ChosenResumes(y, p, ctx);
    SavedResumes(m);
    LoadsTheSame(m, y.kernel.paging);
    if NearlyOk(m.kernel) { DirectoryComesBack(m, es, p); }
  }

  lemma DirectoryComesBack(m: Machine, es: seq<Event>, p: nat)
    requires MachineNearlyOk(m) && p < 16 && m.kernel.active[p] && m.kernel.pcbs[p].state == Running
    requires NextPid(m.kernel) != p && ElsewhereRun(Tick(m), es, p)
    requires NextPid(AfterEvents(Tick(m), es).kernel) == p
    ensures HasDirectory(m.kernel, p) && 0 < m.kernel.paging.cr3 < 0x4000_0000
    ensures PossibleRun(Tick(m), es) ==>
      var z := Tick(AfterEvents(Tick(m), es)).kernel;
      HasDirectory(z, p) && DirectoryOf(z, p) == DirectoryOf(m.kernel, p)
  {
    hide Tick, NextPid, SavedContext, HasDirectory, DirectoryOf, AfterEvents, ElsewhereRun, PossibleRun, SomeActive,
         Parked, Suspended, AlwaysOk, LoadedOk, DirectoriesOk;
    PreemptedIsSuspended(m, p);
    hide NearlyOk;
    SoundIsAlwaysOk(m.kernel);
    PreemptedIsParked(m, p);
    TickKeeps(m);
    var ctx, d, y := SavedContext(m), DirectoryOf(m.kernel, p), AfterEvents(Tick(m), es);
    ParkedAlong(Tick(m), es, p, ctx);
    ParkedIsActive(y.kernel, p, ctx);
    if PossibleRun(Tick(m), es) {
      assert MachineNearlyOk(Tick(m)) by { hide KernelOk; MachineOkIsNearly(Tick(m)); }
      SuspendedAlong(Tick(m), es, p, ctx, d);
      DirectoryAfterTick(y, p, ctx, d);
    }
  }

  lemma MachineOkIsNearly(m: Machine)
    requires MachineOk(m)
    ensures MachineNearlyOk(m)
  {
  }

  lemma ParkedIsActive(k: Kernel, p: nat, ctx: Context)
    requires Parked(k, p, ctx)
    ensures SomeActive(k.active)
  {
    assert k.active[p];
  }

  lemma SavedResumes(m: Machine)
    requires UserMode(m.cpu)
    ensures Resumed(SavedContext(m)) == m.cpu <==> m.cpu.ds % 4 != 0 || m.cpu.esp == m.kernelEsp
  {
    ResumeOfSave(m.cpu, m.kernelEsp, TIMER_INTERRUPT, CurrentDirectory(m.kernel.paging));
  }

  /** A tick that chooses the interrupted process again gives it back its registers at once, and loads the same CR3. */
  lemma SoleProcessContinues(m: Machine, p: nat)
    requires AlwaysOk(m.kernel) && UserMode(m.cpu)
    requires p < 16 && m.kernel.pcbs[p].state == Running && NextPid(m.kernel) == p
    ensures Tick(m).cpu == m.cpu <==> m.cpu.ds % 4 != 0 || m.cpu.esp == m.kernelEsp
    ensures Tick(m).kernel.paging == m.kernel.paging <==> 0 < m.kernel.paging.cr3 < 0x4000_0000
  {
    hide AlwaysOk, FrameWords, ContextOf, NextPid, Resumed, FirstRunning, UseDirectory;
    RunningIs(m.kernel, p);
    SaveKeepsCurrent(m.kernel, SavedContext(m));
    SavedResumes(m);
    assert Save(m.kernel, SavedContext(m)).pcbs[p].context == SavedContext(m);
    UseOfCurrent(m.kernel.paging);
    SavesCr3(m);
  }

  lemma SavesCr3(m: Machine)
    ensures SavedContext(m).pageDirectory == CurrentDirectory(m.kernel.paging)
  {
    hide FrameWords;
  }

  // ---------- turns in a run ----------

  lemma {:induction false} SearchShifts(a: Active, x: nat, limit: nat)
    requires x <= limit
    ensures SearchUp(a, x + 16, limit + 16) == SearchUp(a, x, limit) + 16
    decreases limit - x
  {
    assert (x + 16) % 16 == x % 16;
    if x < limit { SearchShifts(a, x + 1, limit); }
  }

  lemma NearestShifts(a: Active, x: nat)
    ensures Nearest(a, x + 16) == Nearest(a, x) + 16
  {
    hide SearchUp;
    SearchShifts(a, x + 1, x + 16);
  }

  lemma RingShift(n: nat)
    ensures (n + 16) % 16 == n % 16
  {
  }

  /** On the ring only the place matters, not how often one has gone round. */
  lemma {:induction false} NearestOnRing(a: Active, x: nat)
    ensures Nearest(a, x) % 16 == Nearest(a, x % 16) % 16
    decreases x
  {
    hide Nearest;
    if x >= 16 {
      var y := x - 16;
      NearestOnRing(a, y);
      NearestShifts(a, y);
      RingShift(y);
      RingShift(Nearest(a, y));
    }
  }

  /** Stretches of user instructions, each ended by a tick. */
  function Slices(m: Machine, us: seq<Cpu>): Machine {
    if us == [] then m else Tick(Slices(m, us[..|us| - 1]).(cpu := us[|us| - 1]))
  }

  /** While the active set stays fixed, the process running after j ticks is the one whose turn is j. */
  lemma {:induction false} SlicesTakeTurns(m: Machine, us: seq<Cpu>, p: nat)
    requires AlwaysOk(m.kernel) && p < 16 && m.kernel.active[p] && m.kernel.pcbs[p].state == Running
    ensures AlwaysOk(Slices(m, us).kernel) && Slices(m, us).kernel.active == m.kernel.active
    ensures FirstRunning(Slices(m, us).kernel.pcbs, 0) == Turn(m.kernel.active, p, |us|)
    decreases |us|
  {
    hide AlwaysOk, Tick, Nearest, NextPid;
    RunningIs(m.kernel, p);
    assert m.kernel.active[p];
    if us != [] {
      var n := |us| - 1;
      SlicesTakeTurns(m, us[..n], p);
      var y := Slices(m, us[..n]).(cpu := us[n]);
      assert SomeActive(y.kernel.active);
      TickKeeps(y);
      NextIsNearest(y, FirstRunning(y.kernel.pcbs, 0));
      NearestOnRing(m.kernel.active, Visit(m.kernel.active, p, n));
      OnlyRunning(Tick(y).kernel.pcbs, NextPid(y.kernel));
    }
  }

  lemma NextIsNearest(m: Machine, q: nat)
    requires AlwaysOk(m.kernel) && q < 16 && FirstRunning(m.kernel.pcbs, 0) == q
    ensures NextPid(m.kernel) == Nearest(m.kernel.active, q) % 16
  {
    hide AlwaysOk, Nearest;
    RunningIs(m.kernel, q);
  }

  lemma OnlyRunning(pcbs: Pcbs, q: nat)
    requires q < 16 && forall i :: 0 <= i < 16 ==> (pcbs[i].state == Running <==> i == q)
    ensures FirstRunning(pcbs, 0) == q
  {
    hide FirstRunning;
    var k := FirstRunning(pcbs, 0);
    assert pcbs[q].state == Running;
    assert k < 16 ==> k == q;
  }

  /** Fairness of whole runs: while the active set of k processes stays fixed, k ticks bring the turn back to the
      process that was running, and every active process has been chosen by exactly one of them. */
  lemma EveryProcessGetsItsSlice(m: Machine, us: seq<Cpu>, p: nat, q: nat)
    requires AlwaysOk(m.kernel) && p < 16 && m.kernel.active[p] && m.kernel.pcbs[p].state == Running
    requires |us| == CountTrue(m.kernel.active) && q < 16 && m.kernel.active[q]
    ensures FirstRunning(Slices(m, us).kernel.pcbs, 0) == p
    ensures exists j :: 1 <= j <= |us| && FirstRunning(Slices(m, us[..j]).kernel.pcbs, 0) == q
    ensures forall i, j :: 1 <= i < j <= |us| ==>
      FirstRunning(Slices(m, us[..i]).kernel.pcbs, 0) != FirstRunning(Slices(m, us[..j]).kernel.pcbs, 0)
  {
    hide AlwaysOk, Tick, Visit, CountTrue, Slices, FirstRunning;
    RoundRobinIsFair(m.kernel.active, p);
    SlicesTakeTurns(m, us, p);
    forall j | 1 <= j <= |us|
      ensures FirstRunning(Slices(m, us[..j]).kernel.pcbs, 0) == Turn(m.kernel.active, p, j)
    {
      SlicesTakeTurns(m, us[..j], p);
    }
    var j :| 1 <= j <= CountTrue(m.kernel.active) && Turn(m.kernel.active, p, j) == q;
    assert FirstRunning(Slices(m, us[..j]).kernel.pcbs, 0) == q;
  }

  // ---------- a harmful destruction ----------

  /** The first creation: process 0 is the only active one, and no other control block has been used. */
  lemma FirstCreation(k: Kernel)
    requires KernelOk(k) && CountTrue(k.paging.frames) == 1 && CountTrue(k.active) == 0
    requires k.pcbs == seq(16, _ => ZERO_PCB)
    ensures !MissesDirectory(k, 0, 0) && FirstClear(k.active, 0) == 0
    ensures var m := Create(k, 0, 0);
      KernelOk(m) && m.pcbs[1].pid == 0 && forall i :: 0 <= i < 16 ==> (m.active[i] <==> i == 0)
  {
    hide Isolated, CountTrue, FreshContext, Provide, AllocateFrame, PidsOk, DirectoriesOk, LoadedOk, OneRunning,
         CreateDirectory, Create, CreateCode;
    CountAll(k.active);
    StackNeedsOnePage();
    CreateCodeIs(k, 0, 0);
    CreateEffect(k, 0, 0);
    CreationKeeps(k, 0, 0);
  }

  lemma OnlyZeroActive(m: Machine)
    requires MachineOk(m) && m.kernel.pcbs[1].pid == 0 && forall i :: 0 <= i < 16 ==> (m.kernel.active[i] <==> i == 0)
    ensures SomeActive(m.kernel.active) && MachineOk(Tick(m))
    ensures Tick(m).kernel.active[0] && Tick(m).kernel.pcbs[0].state == Running && Tick(m).kernel.pcbs[1].pid == 0
  {
    hide NearlyOk, NextPid, Save, Switch, RunningIsActive;
    SoundIsAlwaysOk(m.kernel);
    assert m.kernel.active[0];
    TickKeeps(m);
    SaveKeepsCurrent(m.kernel, SavedContext(m));
    SwitchKeepsContexts(Save(m.kernel, SavedContext(m)));
  }

  /** The harmful destruction happens: a run from boot - one creation, one tick - after which the running process 0
      destroys itself and stays marked running. */
  lemma DestroyZeroFails(base: u32, kernelDirectory: u32, cpu: Cpu, kernelEsp: u32)
    requires Placed(base) && KERNEL_BASE < kernelDirectory && UserMode(cpu)
    ensures var m, es := Machine(Boot(base, kernelDirectory), cpu, kernelEsp), [CreateEvent(0, 0), TickEvent];
      var k := AfterEvents(m, es).kernel;
      && PossibleRun(m, es) && KernelOk(k) && k.active[0] && k.pcbs[0].state == Running
      && DestroyDefined(k, 0) && !KernelOk(Destroy(k, 0).0)
  {
    hide NearlyOk, RunningIsActive, Tick, Create, Destroy, MissesDirectory, SomeActive, CountTrue, DestroyDefined;
    var m, es := Machine(Boot(base, kernelDirectory), cpu, kernelEsp), [CreateEvent(0, 0), TickEvent];
    BootIsOk(base, kernelDirectory);
    FirstCreation(m.kernel);
    var y := Next(m, es[0]);
    OnlyZeroActive(y);
    TwoEvents(m, es[0], es[1]);
    DestroyZeroIsExact(Tick(y).kernel);
  }

  lemma TwoEvents(m: Machine, e: Event, f: Event)
    ensures AfterEvents(m, [e, f]) == Next(Next(m, e), f)
    ensures PossibleRun(m, [e, f]) <==> Possible(m, e) && Possible(Next(m, e), f)
  {
    hide Next, Possible;
    var y := Next(m, e);
    assert [e, f][1..] == [f] && [f][1..] == [];
    assert AfterEvents(Next(y, f), []) == Next(y, f) && AfterEvents(y, [f]) == Next(y, f);
    assert PossibleRun(Next(y, f), []) && (PossibleRun(y, [f]) <==> Possible(y, f));
  }
}
