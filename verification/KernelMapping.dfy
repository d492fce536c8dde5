/**
  The kernel's part of the address space: entry 0x300 of every page directory in
  use maps the kernel, and so does the directory in CR3 - but for one event.
*/
module KernelMapping {
  import opened Bytes
  import opened Paging
  import opened Processes
  import opened Scheduler
  import opened Interrupt
  import opened KernelRuns

  /** The directories in use, and no others, map the kernel. */
  predicate UsedMapKernel(s: State) {
    forall d :: 0 <= d < 32 ==> (s.used[d] <==> s.dirs[d][KERNEL_ENTRY] == KERNEL_PDE)
  }

  lemma EntriesBelowKernel(entry: u32)
    requires entry < KERNEL_BASE
    ensures EntryIndex(entry) < KERNEL_ENTRY && EntryIndex(0xBFFF_FFFC) < KERNEL_ENTRY
  {
  }

  lemma AllocateLeavesKernelEntry(s: State, d: nat, virtual: u32)
    requires d < 32 && EntryIndex(virtual) < KERNEL_ENTRY
    ensures AllocateFrame(s, d, virtual).used == s.used
    ensures forall c :: 0 <= c < 32 ==> AllocateFrame(s, d, virtual).dirs[c][KERNEL_ENTRY] == s.dirs[c][KERNEL_ENTRY]
  {
    hide EntryIndex, FirstClear;
  }

  lemma ProvideMapsKernel(s: State, entry: u32)
    requires UsedMapKernel(s) && CreateDirectory(s).1 < 32 && entry < KERNEL_BASE
    ensures UsedMapKernel(Provide(s, entry))
  {
    hide AllocateFrame, EntryIndex;
    var s1, d := CreateDirectory(s).0, CreateDirectory(s).1;
    EntriesBelowKernel(entry);
    AllocateLeavesKernelEntry(s1, d, entry);
    AllocateLeavesKernelEntry(AllocateFrame(s1, d, entry), d, 0xBFFF_FFFC);
    assert forall c :: 0 <= c < 32 && c != d ==> s1.dirs[c] == s.dirs[c];
  }

  lemma CreateMapsKernel(k: Kernel, entry: u32, size: u32)
    requires AlwaysOk(k) && UsedMapKernel(k.paging) && FirstClear(k.active, 0) < 16
    ensures UsedMapKernel(Create(k, entry, size).paging)
  {
    hide AlwaysOk, Create, FreshContext, Provide, CreateDirectory, CountTrue;
    if CreateCode(k, entry, size) == 0 {
      CreationIs(k, entry, size);
      ProvideMapsKernel(k.paging, entry);
    } else {
      hide CreateCode;
      RefusedCreation(k, entry, size);
    }
  }

  lemma FreeUnmapsKernel(s: State, address: u32)
    requires UsedMapKernel(s)
    ensures UsedMapKernel(FreeDirectory(s, address))
  {
  }

  /** In every run, whatever is created and destroyed, the directories in use map the kernel. */
  lemma NextMapsKernel(m: Machine, e: Event)
    requires AlwaysOk(m.kernel) && Executable(m, e) && UsedMapKernel(m.kernel.paging)
    ensures UsedMapKernel(Next(m, e).kernel.paging)
  {
    hide AlwaysOk, Create, Tick, UsedMapKernel, LastWithPid, SomeActive, FreeDirectory;
    match e
    case TickEvent =>
      TickKeeps(m);
      assert UsedMapKernel(Tick(m).kernel.paging) by { OnlyCr3(m.kernel.paging, Tick(m).kernel.paging); }
    case CreateEvent(entry, size) =>
      if FirstClear(m.kernel.active, 0) < 16 { CreateMapsKernel(m.kernel, entry, size); }
    case DestroyEvent(pid) =>
      if pid < 16 && m.kernel.active[pid] && DestroyDefined(m.kernel, pid) {
        FreeUnmapsKernel(m.kernel.paging, m.kernel.pcbs[LastWithPid(m.kernel.pcbs, pid, 16)].context.pageDirectory);
      }
    case UserEvent(cpu) =>
  }

  lemma OnlyCr3(s: State, t: State)
    requires t == s.(cr3 := t.cr3) && UsedMapKernel(s)
    ensures UsedMapKernel(t)
  {
  }

  // ---------- the directory in CR3 ----------

  /** If the directory in CR3 is one of the list, it is in use. */
  predicate LoadedIsUsed(s: State) {
    forall d :: 0 <= d < 32 && CurrentDirectory(s) == AddressOf(s.base, d) ==> s.used[d]
  }

  /** The one event that takes the directory in CR3 out of use: the destruction of a process that owns directory 0 while
      that is loaded. */
  predicate Unloads(k: Kernel, e: Event) {
    && e.DestroyEvent? && e.pid < 16 && k.active[e.pid] && LastWithPid(k.pcbs, e.pid, 16) < 16
    && k.pcbs[LastWithPid(k.pcbs, e.pid, 16)].context.pageDirectory == k.paging.base == CurrentDirectory(k.paging)
  }

  lemma CreateKeepsLoaded(k: Kernel, entry: u32, size: u32)
    requires NearlyOk(k) && LoadedIsUsed(k.paging) && FirstClear(k.active, 0) < 16
    ensures LoadedIsUsed(Create(k, entry, size).paging)
  {
    hide NearlyOk, Create, CreateCode, FreshContext, Provide, CreateDirectory, CountTrue, AddressOf;
    SoundIsAlwaysOk(k);
    if CreateCode(k, entry, size) == 0 {
      CreateEffect(k, entry, size);
      AlwaysIsIsolated(k);
      TakesDirectory(k, entry);
    } else {
      RefusedCreation(k, entry, size);
    }
  }

  lemma AlwaysIsIsolated(k: Kernel)
    requires AlwaysOk(k)
    ensures Isolated(k.paging)
  {
  }

  lemma FreeKeepsLoaded(s: State, address: u32)
    requires LoadedIsUsed(s) && Placed(s.base)
    ensures LoadedIsUsed(FreeDirectory(s, address)) <==> !(address == s.base == CurrentDirectory(s))
  {
    if address == s.base == CurrentDirectory(s) {
      assert CurrentDirectory(s) == AddressOf(s.base, 0) && !FreeDirectory(s, address).used[0];
    }
  }

  lemma TickLoads(m: Machine)
    requires NearlyOk(m.kernel) && SomeActive(m.kernel.active)
    ensures LoadedIsUsed(Tick(m).kernel.paging)
  {
    hide NearlyOk, Tick, SomeActive, NextPid;
    SoundIsAlwaysOk(m.kernel);
    TickKeeps(m);
    RunningLoads(Tick(m).kernel, NextPid(m.kernel));
  }

  lemma RunningLoads(k: Kernel, p: nat)
    requires KernelOk(k) && p < 16 && k.pcbs[p].state == Running
    ensures LoadedIsUsed(k.paging)
  {
    hide Isolated, CountTrue, CountsOk, PidsOk, OneRunning;
    ActiveHasDirectory(k, p);
  }

  /** The directory in CR3 stays one in use - and so maps the kernel - exactly until a process that owns directory 0 is
      destroyed while that is loaded; the next tick loads a good one again. */
  lemma LoadedStaysUsed(m: Machine, e: Event)
    requires NearlyOk(m.kernel) && Possible(m, e)
    ensures LoadedIsUsed(m.kernel.paging) ==> (LoadedIsUsed(Next(m, e).kernel.paging) <==> !Unloads(m.kernel, e))
    ensures e.TickEvent? ==> LoadedIsUsed(Next(m, e).kernel.paging)
  {
    hide NearlyOk, Create, Tick, LoadedIsUsed, LastWithPid, SomeActive, FreeDirectory, CurrentDirectory,
         MissesDirectory;
    SoundIsAlwaysOk(m.kernel);
    match e
    case TickEvent => TickLoads(m);
    case CreateEvent(entry, size) =>
      if LoadedIsUsed(m.kernel.paging) && FirstClear(m.kernel.active, 0) < 16 {
        CreateKeepsLoaded(m.kernel, entry, size);
      }
    case DestroyEvent(pid) =>
      DestroyKeeps(m.kernel, pid);
      if LoadedIsUsed(m.kernel.paging) && pid < 16 && m.kernel.active[pid] {
        AlwaysIsPlaced(m.kernel);
        FreeKeepsLoaded(m.kernel.paging, m.kernel.pcbs[LastWithPid(m.kernel.pcbs, pid, 16)].context.pageDirectory);
      }
    case UserEvent(cpu) =>
  }

  lemma AlwaysIsPlaced(k: Kernel)
    requires AlwaysOk(k)
    ensures Placed(k.paging.base)
  {
  }

  // ---------- over whole runs ----------

  lemma BootMapsKernel(base: u32, kernelDirectory: u32)
    requires Placed(base) && KERNEL_BASE < kernelDirectory
    ensures UsedMapKernel(Boot(base, kernelDirectory).paging)
    ensures !(base <= kernelDirectory < base + 4096 * 32) ==> LoadedIsUsed(Boot(base, kernelDirectory).paging)
  {
    CurrentAtBoot(base, kernelDirectory);
  }

  lemma CurrentAtBoot(base: u32, kernelDirectory: u32)
    requires KERNEL_BASE < kernelDirectory
    ensures CurrentDirectory(Boot(base, kernelDirectory).paging) == kernelDirectory
  {
  }

  lemma {:induction false} RunMapsKernel(m: Machine, es: seq<Event>)
    requires AlwaysOk(m.kernel) && UsedMapKernel(m.kernel.paging) && ExecutableRun(m, es)
    ensures UsedMapKernel(AfterEvents(m, es).kernel.paging)
    decreases |es|
  {
    hide AlwaysOk, UsedMapKernel, Next, Executable;
    if es != [] {
      AlwaysNext(m, es[0]);
      NextMapsKernel(m, es[0]);
      RunMapsKernel(Next(m, es[0]), es[1..]);
    }
  }

  /** No event of the run takes the directory in CR3 out of use. */
  predicate NeverUnloads(m: Machine, es: seq<Event>)
    decreases |es|
  {
    es == [] || (!Unloads(m.kernel, es[0]) && NeverUnloads(Next(m, es[0]), es[1..]))
  }

  lemma {:induction false} RunKeepsLoaded(m: Machine, es: seq<Event>)
    requires MachineNearlyOk(m) && LoadedIsUsed(m.kernel.paging) && PossibleRun(m, es) && NeverUnloads(m, es)
    ensures LoadedIsUsed(AfterEvents(m, es).kernel.paging)
    decreases |es|
  {
    hide NearlyOk, LoadedIsUsed, Next, Unloads, MachineOk, MissesDirectory, SomeActive;
    if es != [] {
      NextKeeps(m, es[0]);
      LoadedStaysUsed(m, es[0]);
      RunKeepsLoaded(Next(m, es[0]), es[1..]);
    }
  }

  /** From boot: in every run the directories in use map the kernel, and in every possible run that unloads none so does
      the one in CR3, unless it is still the kernel's own. */
  lemma KernelStaysMapped(base: u32, kernelDirectory: u32, cpu: Cpu, kernelEsp: u32, es: seq<Event>)
    requires Placed(base) && KERNEL_BASE < kernelDirectory
    requires ExecutableRun(Machine(Boot(base, kernelDirectory), cpu, kernelEsp), es)
    ensures var m := Machine(Boot(base, kernelDirectory), cpu, kernelEsp);
      var s := AfterEvents(m, es).kernel.paging;
      && UsedMapKernel(s)
      && (UserMode(cpu) && PossibleRun(m, es) && NeverUnloads(m, es)
          && !(base <= kernelDirectory < base + 4096 * 32) ==>
            forall d :: 0 <= d < 32 && CurrentDirectory(s) == AddressOf(s.base, d) ==>
              s.used[d] && s.dirs[d][KERNEL_ENTRY] == KERNEL_PDE)
  {
    hide NearlyOk, Boot, CountTrue, ExecutableRun, PossibleRun, AfterEvents, NeverUnloads, CurrentDirectory;
    var m := Machine(Boot(base, kernelDirectory), cpu, kernelEsp);
    BootIsOk(base, kernelDirectory);
    SoundIsAlwaysOk(m.kernel);
    BootMapsKernel(base, kernelDirectory);
    RunMapsKernel(m, es);
    if UserMode(cpu) && PossibleRun(m, es) && NeverUnloads(m, es) && !(base <= kernelDirectory < base + 4096 * 32) {
      RunKeepsLoaded(m, es);
    }
  }
}
