/** Runs from boot that reach the exceptions of the kernel's theorems. */
module KernelCases {
  import opened Bytes
  import opened Paging
  import opened Processes
  import opened Scheduler
  import opened Interrupt
  import opened KernelRuns
  import opened KernelMapping

  lemma {:induction false} RunAppend(m: Machine, es: seq<Event>, e: Event)
    ensures AfterEvents(m, es + [e]) == Next(AfterEvents(m, es), e)
    ensures PossibleRun(m, es + [e]) <==> PossibleRun(m, es) && Possible(AfterEvents(m, es), e)
    decreases |es|
  {
    hide Next, Possible;
    if es == [] {
      assert [e][1..] == [] && es + [e] == [e];
      assert AfterEvents(Next(m, e), []) == Next(m, e) && PossibleRun(Next(m, e), []);
    } else {
      assert (es + [e])[0] == es[0] && (es + [e])[1..] == es[1..] + [e];
      RunAppend(Next(m, es[0]), es[1..], e);
    }
  }

  // ---------- a creation that misses a directory ----------

  const MAKE: Event := CreateEvent(0, WRAPPING_SIZE)

  /** Process 0 is running, owns directory 0 and is the only active one; control block 1 alone has been used besides,
      and j directories are in use. */
  ghost predicate Idle(k: Kernel, j: nat) {
    && KernelOk(k) && CountTrue(k.paging.used) == j
    && (forall i :: 0 <= i < 16 ==> (k.active[i] <==> i == 0))
    && k.pcbs[0].state == Running && k.pcbs[0].context.pageDirectory == k.paging.base
    && (forall i :: 2 <= i < 16 ==> Unused(k.pcbs[i]))
  }

  /** The same with process 1 active, too. */
  ghost predicate Busy(k: Kernel, j: nat) {
    && KernelOk(k) && CountTrue(k.paging.used) == j
    && (forall i :: 0 <= i < 16 ==> (k.active[i] <==> i <= 1))
    && k.pcbs[0].state == Running && k.pcbs[0].context.pageDirectory == k.paging.base
    && (forall i :: 2 <= i < 16 ==> Unused(k.pcbs[i]))
  }

  lemma MakeOnce(k: Kernel, j: nat)
    requires Idle(k, j) && j < 32
    ensures !MissesDirectory(k, 0, WRAPPING_SIZE) && FirstClear(k.active, 0) == 1
    ensures Busy(Create(k, 0, WRAPPING_SIZE), j + 1)
  {
    hide KernelOk, Create, CreateCode, CountTrue, FreshContext, CreateDirectory, Provide;
    SoundParts(k);
    SomeInactive(k);
    CreateCodeIs(k, 0, WRAPPING_SIZE);
    CreateEffect(k, 0, WRAPPING_SIZE);
    CreationKeepsSound(k, 0, WRAPPING_SIZE);
    ProvideCounts(k.paging, 0);
  }

  lemma SoundParts(k: Kernel)
    requires KernelOk(k)
    ensures NearlyOk(k) && AlwaysOk(k) && Isolated(k.paging) && Placed(k.paging.base)
  {
  }

  lemma CreationKeepsSound(k: Kernel, entry: u32, size: u32)
    requires KernelOk(k) && CreateCode(k, entry, size) == 0
    ensures FirstClear(k.active, 0) < 16 && KernelOk(Create(k, entry, size))
  {
    hide NearlyOk, Create, CreateCode, RunningIsActive;
    CreationKeeps(k, entry, size);
  }

  lemma SomeInactive(k: Kernel)
    requires !k.active[1]
    ensures CountTrue(k.active) < 16
  {
    CountUpdate(k.active, 1, true);
    CountBound(k.active[1 := true]);
  }

  lemma DestroyOnce(k: Kernel, j: nat)
    requires Busy(k, j)
    ensures DestroyDefined(k, 1) && Idle(Destroy(k, 1).0, j)
  {
    hide KernelOk, CountTrue, FreeDirectory, LastWithPid;
    SoundParts(k);
    ActivePidIsFound(k, 1, 16);
    assert k.active[0] && k.active[1];
    var i := LastWithPid(k.pcbs, 1, 16);
    assert i == 1;
    OtherDirectory(k);
    FreeNothing(k.paging, k.pcbs[1].context.pageDirectory);
    DestroyKeepsSound(k);
  }

  lemma OtherDirectory(k: Kernel)
    requires KernelOk(k) && k.active[0] && k.active[1]
    ensures k.pcbs[1].context.pageDirectory != k.pcbs[0].context.pageDirectory
  {
    hide AlwaysOk;
  }

  lemma FreeNothing(s: State, address: u32)
    requires address != s.base
    ensures FreeDirectory(s, address) == s
  {
  }

  lemma DestroyKeepsSound(k: Kernel)
    requires KernelOk(k)
    ensures DestroyDefined(k, 1) && KernelOk(Destroy(k, 1).0)
  {
    hide NearlyOk, RunningIsActive;
    DestroyKeeps(k, 1);
  }

  lemma TickToIdle(m: Machine)
    requires MachineOk(m) && CountTrue(m.kernel.paging.used) == 1
    requires forall i :: 0 <= i < 16 ==> (m.kernel.active[i] <==> i == 0) && m.kernel.pcbs[i].state != Running
    requires m.kernel.pcbs[0].context.pageDirectory == m.kernel.paging.base
    requires forall i :: 1 <= i < 16 ==> m.kernel.pcbs[i] == ZERO_PCB
    ensures SomeActive(m.kernel.active) && Idle(Tick(m).kernel, 1)
  {
    hide KernelOk, NextPid, Save, Switch, CountTrue;
    SoundParts(m.kernel);
    assert m.kernel.active[0];
    TickKeeps(m);
    SoundParts(Tick(m).kernel);
    SaveKeepsCurrent(m.kernel, SavedContext(m));
    SwitchKeepsContexts(Save(m.kernel, SavedContext(m)));
    SaveLeavesParked(m.kernel, SavedContext(m), 0);
    forall i | 2 <= i < 16
      ensures Unused(Tick(m).kernel.pcbs[i])
    {
      assert Tick(m).kernel.pcbs[i].pid == 0;
    }
  }

  /** Creations and destructions of process 1 by process 0, after the boot has made that and switched to it. */
  lemma {:induction false} Rounds(base: u32, kernelDirectory: u32, cpu: Cpu, kernelEsp: u32, j: nat)
    returns (es: seq<Event>)
    requires Placed(base) && KERNEL_BASE < kernelDirectory && UserMode(cpu) && 1 <= j < 32
    ensures var m := Machine(Boot(base, kernelDirectory), cpu, kernelEsp);
      PossibleRun(m, es) && Idle(AfterEvents(m, es).kernel, j)
    ensures |es| == 2 * j && es[0] == CreateEvent(0, 0) && es[1] == TickEvent
    ensures forall i :: 2 <= i < |es| ==> es[i] == if i % 2 == 0 then MAKE else DestroyEvent(1)
    decreases j
  {
    hide KernelOk, CountTrue, PossibleRun, AfterEvents, MissesDirectory, Create, Destroy, DestroyDefined, Idle, Busy,
         Tick, SomeActive;
    var m := Machine(Boot(base, kernelDirectory), cpu, kernelEsp);
    if j == 1 {
      es := [CreateEvent(0, 0), TickEvent];
      BootIsOk(base, kernelDirectory);
      FirstOne(m.kernel);
      TickToIdle(Next(m, es[0]));
      TwoEvents(m, es[0], es[1]);
    } else {
      var before := Rounds(base, kernelDirectory, cpu, kernelEsp, j - 1);
      var y := AfterEvents(m, before);
      hide Boot;
      MakeOnce(y.kernel, j - 1);
      IdleIsPlaced(y.kernel, j - 1);
      RunAppend(m, before, MAKE);
      DestroyOnce(Next(y, MAKE).kernel, j);
      RunAppend(m, before + [MAKE], DestroyEvent(1));
      es := before + [MAKE] + [DestroyEvent(1)];
    }
  }

  lemma IdleIsPlaced(k: Kernel, j: nat)
    requires Idle(k, j)
    ensures Placed(k.paging.base)
  {
  }

  /** Process 0 makes and destroys process 1 until all 32 directories are in use: one creation more gets past the checks
      and finds none. */
  lemma DirectoriesRunOut(base: u32, kernelDirectory: u32, cpu: Cpu, kernelEsp: u32) returns (es: seq<Event>)
    requires Placed(base) && KERNEL_BASE < kernelDirectory && UserMode(cpu)
    ensures var m := Machine(Boot(base, kernelDirectory), cpu, kernelEsp);
      PossibleRun(m, es) && MissesDirectory(AfterEvents(m, es).kernel, 0, WRAPPING_SIZE)
    ensures |es| == 63 && es[0] == CreateEvent(0, 0) && es[1] == TickEvent
    ensures forall i :: 2 <= i < |es| ==> es[i] == if i % 2 == 0 then MAKE else DestroyEvent(1)
  {
    hide KernelOk, CountTrue, PossibleRun, AfterEvents, MissesDirectory, Create, Idle, Busy, Boot;
    var m := Machine(Boot(base, kernelDirectory), cpu, kernelEsp);
    var before := Rounds(base, kernelDirectory, cpu, kernelEsp, 31);
    var y := AfterEvents(m, before);
    MakeOnce(y.kernel, 31);
    IdleIsPlaced(y.kernel, 31);
    RunAppend(m, before, MAKE);
    es := before + [MAKE];
    BusyMisses(Next(y, MAKE).kernel);
  }

  lemma BusyMisses(k: Kernel)
    requires Busy(k, 32)
    ensures MissesDirectory(k, 0, WRAPPING_SIZE)
  {
    hide KernelOk, CountTrue;
    SoundParts(k);
    assert k.active[0] && k.active[1] && !k.active[2];
    assert Unused(k.pcbs[2]);
  }

  // ---------- a destruction that unmaps the kernel ----------

  /** The first n processes are active, process 0 is running and owns directory 0. */
  ghost predicate Fleet(k: Kernel, n: nat) {
    && KernelOk(k) && 1 <= n <= 16 && CountTrue(k.active) == n
    && CountTrue(k.paging.frames) == FramesUsed(n)
    && (forall i :: 0 <= i < 16 ==> (k.active[i] <==> i < n))
    && k.pcbs[0].state == Running && k.pcbs[0].context.pageDirectory == k.paging.base
  }

  lemma OneMore(k: Kernel, n: nat)
    requires Fleet(k, n) && n < 16
    ensures !MissesDirectory(k, 0, 0) && FirstClear(k.active, 0) == n
    ensures Fleet(Create(k, 0, 0), n + 1)
  {
    hide KernelOk, Create, CreateCode, CountTrue, FreshContext, CreateDirectory, Provide, PagesNeeded, Isolated, Placed,
         NearlyOk;
    SoundParts(k);
    StackNeedsOnePage();
    CreateCodeIs(k, 0, 0);
    CreateEffect(k, 0, 0);
    CreationKeepsSound(k, 0, 0);
    ProvideCounts(k.paging, 0);
    CountUpdate(k.active, n, true);
  }

  lemma FirstOne(k: Kernel)
    requires KernelOk(k) && CountTrue(k.paging.frames) == 1 && CountTrue(k.active) == 0 == CountTrue(k.paging.used)
    requires k.pcbs == seq(16, _ => ZERO_PCB)
    ensures !MissesDirectory(k, 0, 0) && FirstClear(k.active, 0) == 0
    ensures var m := Create(k, 0, 0);
      && KernelOk(m) && (forall i :: 0 <= i < 16 ==> (m.active[i] <==> i == 0) && m.pcbs[i].state != Running)
      && CountTrue(m.active) == 1 && CountTrue(m.paging.frames) == 3
      && CountTrue(m.paging.used) == 1 && m.pcbs[0].context.pageDirectory == m.paging.base
      && forall i :: 1 <= i < 16 ==> m.pcbs[i] == ZERO_PCB
  {
    hide KernelOk, Create, CreateCode, CountTrue, FreshContext, Provide, PagesNeeded, Isolated, Placed;
    SoundParts(k);
    StackNeedsOnePage();
    CountAll(k.active);
    CountAll(k.paging.used);
    CreateCodeIs(k, 0, 0);
    CreateEffect(k, 0, 0);
    CreationKeepsSound(k, 0, 0);
    ProvideCounts(k.paging, 0);
    CountUpdate(k.active, 0, true);
    FreshDirectory(k.pcbs[0].context, 0, k.paging.base);
  }

  lemma TickToFleet(m: Machine)
    requires MachineOk(m) && CountTrue(m.kernel.active) == 1 && CountTrue(m.kernel.paging.frames) == 3
    requires forall i :: 0 <= i < 16 ==> (m.kernel.active[i] <==> i == 0) && m.kernel.pcbs[i].state != Running
    requires m.kernel.pcbs[0].context.pageDirectory == m.kernel.paging.base
    ensures SomeActive(m.kernel.active) && Fleet(Tick(m).kernel, 1)
  {
    hide KernelOk, NextPid, Save, Switch, CountTrue;
    SoundParts(m.kernel);
    assert m.kernel.active[0];
    TickKeeps(m);
    SwitchKeepsContexts(Save(m.kernel, SavedContext(m)));
    SaveLeavesParked(m.kernel, SavedContext(m), 0);
  }

  lemma {:induction false} Crowd(base: u32, kernelDirectory: u32, cpu: Cpu, kernelEsp: u32, n: nat)
    returns (es: seq<Event>)
    requires Placed(base) && KERNEL_BASE < kernelDirectory && UserMode(cpu) && 1 <= n <= 16
    ensures var m := Machine(Boot(base, kernelDirectory), cpu, kernelEsp);
      PossibleRun(m, es) && Fleet(AfterEvents(m, es).kernel, n)
    decreases n
  {
    hide KernelOk, CountTrue, PossibleRun, AfterEvents, MissesDirectory, Create, Fleet, Tick, SomeActive;
    var m := Machine(Boot(base, kernelDirectory), cpu, kernelEsp);
    if n == 1 {
      BootIsOk(base, kernelDirectory);
      FirstOne(m.kernel);
      var y := Next(m, CreateEvent(0, 0));
      TickToFleet(y);
      TwoEvents(m, CreateEvent(0, 0), TickEvent);
      es := [CreateEvent(0, 0), TickEvent];
    } else {
      var before := Crowd(base, kernelDirectory, cpu, kernelEsp, n - 1);
      var y := AfterEvents(m, before);
      hide Boot;
      OneMore(y.kernel, n - 1);
      FleetIsPlaced(y.kernel, n - 1);
      RunAppend(m, before, CreateEvent(0, 0));
      es := before + [CreateEvent(0, 0)];
    }
  }

  lemma FleetIsPlaced(k: Kernel, n: nat)
    requires Fleet(k, n)
    ensures Placed(k.paging.base)
  {
  }

  /** Sixteen processes are made while process 0 runs; when that destroys itself the directory in CR3 is cleared, and
      the kernel's entry with it. */
  lemma DestructionUnmapsKernel(base: u32, kernelDirectory: u32, cpu: Cpu, kernelEsp: u32) returns (es: seq<Event>)
    requires Placed(base) && KERNEL_BASE < kernelDirectory && UserMode(cpu)
    ensures var m := Machine(Boot(base, kernelDirectory), cpu, kernelEsp);
      var k := AfterEvents(m, es).kernel;
      && PossibleRun(m, es) && KernelOk(k) && LoadedIsUsed(k.paging) && Unloads(k, DestroyEvent(0))
      && DestroyDefined(k, 0) && !LoadedIsUsed(Destroy(k, 0).0.paging)
      && CurrentDirectory(Destroy(k, 0).0.paging) == AddressOf(k.paging.base, 0)
      && Destroy(k, 0).0.paging.dirs[0][KERNEL_ENTRY] == CLEAR_PDE
  {
    hide KernelOk, CountTrue, PossibleRun, AfterEvents, Boot;
    var m := Machine(Boot(base, kernelDirectory), cpu, kernelEsp);
    es := Crowd(base, kernelDirectory, cpu, kernelEsp, 16);
    FleetUnloads(AfterEvents(m, es).kernel);
  }

  lemma FleetUnloads(k: Kernel)
    requires Fleet(k, 16)
    ensures LoadedIsUsed(k.paging) && Unloads(k, DestroyEvent(0))
    ensures DestroyDefined(k, 0) && !LoadedIsUsed(Destroy(k, 0).0.paging)
    ensures CurrentDirectory(Destroy(k, 0).0.paging) == AddressOf(k.paging.base, 0)
    ensures Destroy(k, 0).0.paging.dirs[0][KERNEL_ENTRY] == CLEAR_PDE
  {
    hide Isolated, CountTrue, LoadedIsUsed, LastWithPid, FreeDirectory, DirectoriesOk, OneRunning, CountsOk;
    RunningLoads(k, 0);
    assert LastWithPid(k.pcbs, 0, 16) == 0 by { assert k.pcbs[0].pid == 0; }
    FreeKeepsLoaded(k.paging, k.paging.base);
    FreeClears(k.paging);
  }

  lemma FreeClears(s: State)
    ensures FreeDirectory(s, s.base).dirs[0][KERNEL_ENTRY] == CLEAR_PDE
    ensures CurrentDirectory(FreeDirectory(s, s.base)) == CurrentDirectory(s)
  {
  }
}
