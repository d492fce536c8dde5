/**
  How long an active process waits for its turn (src/scheduler.c:29-52) when anything may happen between the ticks: less
  than sixteen ticks, as long as each tick finds a process running - and otherwise perhaps for ever, because the search
  then starts again at process 0.
*/
module Waiting {
  import opened Bytes
  import opened Paging
  import opened Processes
  import opened Scheduler
  import opened Interrupt
  import opened KernelRuns
  import opened KernelCases

  // ---------- bounded waiting ----------

  /** How far ahead of q the search finds p: between one step and a whole round. */
  function Gap(p: nat, q: nat): (g: nat)
    requires p < 16 && q < 16
    ensures 1 <= g <= 16
  {
    if q < p then p - q else p + 16 - q
  }

  function Ticks(es: seq<Event>): nat {
    if es == [] then 0 else (if es[0].TickEvent? then 1 else 0) + Ticks(es[1..])
  }

  /** A run in which p is neither destroyed nor chosen, and every tick finds a process running. */
  ghost predicate WaitingRun(m: Machine, es: seq<Event>, p: nat)
    decreases |es|
  {
    es == [] ||
    (&& Executable(m, es[0]) && Elsewhere(m, es[0], p)
     && (es[0].TickEvent? ==> FirstRunning(m.kernel.pcbs, 0) < 16)
     && WaitingRun(Next(m, es[0]), es[1..], p))
  }

  /** A tick that passes p over has come nearer to it. */
  lemma GapShrinks(a: Active, p: nat, q: nat)
    requires p < 16 && q < 16 && a[p] && Nearest(a, q) % 16 != p
    ensures Gap(p, Nearest(a, q) % 16) < Gap(p, q)
  {
    hide SearchUp;
    NearestIsActive(a, q) by { assert a[p]; }
    var z := q + Gap(p, q);
    assert z % 16 == p && ActiveAt(a, z);
    assert Nearest(a, q) < z;
  }

  /** Only a tick makes a process running. */
  lemma NobodyStarts(m: Machine, e: Event, i: nat)
    requires AlwaysOk(m.kernel) && Executable(m, e) && !e.TickEvent? && i < 16
    ensures Next(m, e).kernel.pcbs[i].state == Running ==> m.kernel.pcbs[i].state == Running
  {
    hide AlwaysOk, Create, FreshContext, LastWithPid, CountTrue;
    match e
    case CreateEvent(entry, size) =>
      if FirstClear(m.kernel.active, 0) < 16 {
        hide CreateCode;
        if CreateCode(m.kernel, entry, size) == 0 {
          CreationIs(m.kernel, entry, size);
        } else {
          RefusedCreation(m.kernel, entry, size);
        }
      }
    case DestroyEvent(pid) =>
    case UserEvent(cpu) =>
  }

  lemma SameOneRuns(k: Kernel, y: Kernel)
    requires AlwaysOk(k) && AlwaysOk(y)
    requires forall i :: 0 <= i < 16 && y.pcbs[i].state == Running ==> k.pcbs[i].state == Running
    ensures FirstRunning(y.pcbs, 0) == 16 || FirstRunning(y.pcbs, 0) == FirstRunning(k.pcbs, 0)
  {
    hide Isolated, CountsOk, PidsOk, FirstRunning;
    var i := FirstRunning(y.pcbs, 0);
    if i < 16 { RunningIs(k, i); }
  }

  /** Nothing but its destruction makes a process inactive. */
  lemma StaysActive(m: Machine, e: Event, p: nat)
    requires AlwaysOk(m.kernel) && Executable(m, e) && Elsewhere(m, e, p) && p < 16 && m.kernel.active[p]
    ensures Next(m, e).kernel.active[p]
  {
    hide AlwaysOk, Create, CreateCode, FreshContext, LastWithPid, CountTrue, NextPid, Tick, SomeActive;
    match e
    case TickEvent => TickKeeps(m);
    case CreateEvent(entry, size) =>
      if FirstClear(m.kernel.active, 0) < 16 {
        if CreateCode(m.kernel, entry, size) == 0 {
          CreationIs(m.kernel, entry, size);
        } else {
          RefusedCreation(m.kernel, entry, size);
        }
      }
    case DestroyEvent(pid) =>
    case UserEvent(cpu) =>
  }

  lemma TickComesNearer(m: Machine, p: nat)
    requires AlwaysOk(m.kernel) && SomeActive(m.kernel.active) && NextPid(m.kernel) != p
    requires p < 16 && m.kernel.active[p] && FirstRunning(m.kernel.pcbs, 0) < 16
    ensures FirstRunning(Tick(m).kernel.pcbs, 0) == NextPid(m.kernel)
    ensures Gap(p, NextPid(m.kernel)) < Gap(p, FirstRunning(m.kernel.pcbs, 0))
  {
    hide AlwaysOk, Tick, Nearest, NextPid, SomeActive, FirstRunning, Gap;
    var q := FirstRunning(m.kernel.pcbs, 0);
    TickKeeps(m);
    NextIsNearest(m, q);
    GapShrinks(m.kernel.active, p, q);
    OnlyRunning(Tick(m).kernel.pcbs, NextPid(m.kernel));
  }

  /** Bounded waiting, whatever happens between the ticks: if no tick chooses p and each finds a process running, there
      are fewer ticks than places from the first of these processes to p - at most fifteen. */
  lemma {:induction false} WaitingIsBounded(m: Machine, es: seq<Event>, p: nat)
    requires AlwaysOk(m.kernel) && p < 16 && m.kernel.active[p] && WaitingRun(m, es, p)
    ensures Ticks(es) > 0 ==>
      FirstRunning(m.kernel.pcbs, 0) < 16 && Ticks(es) < Gap(p, FirstRunning(m.kernel.pcbs, 0))
    decreases |es|
  {
    hide AlwaysOk, Next, NextPid, FirstRunning, SomeActive, Gap;
    if es != [] {
      var y := Next(m, es[0]);
      AlwaysNext(m, es[0]);
      StaysActive(m, es[0], p);
      WaitingIsBounded(y, es[1..], p);
      if es[0].TickEvent? {
        assert y == Tick(m) by { NextIsTick(m); }
        TickComesNearer(m, p);
      } else {
        forall i | 0 <= i < 16 && y.kernel.pcbs[i].state == Running
          ensures m.kernel.pcbs[i].state == Running
        {
          NobodyStarts(m, es[0], i);
        }
        SameOneRuns(m.kernel, y.kernel);
      }
    }
  }

  lemma NextIsTick(m: Machine)
    ensures Next(m, TickEvent) == Tick(m)
  {
    hide Tick;
  }

  // ---------- starvation ----------

  /** Process 1 is running; 0 and 2 wait. */
  ghost predicate Hungry(k: Kernel) {
    && AlwaysOk(k) && k.active[0] && k.active[1] && k.active[2]
    && k.pcbs[1].state == Running
  }

  /** A program that destroys its own process and creates it again, and then the tick. */
  const ROUND: seq<Event> := [DestroyEvent(1), CreateEvent(0, WRAPPING_SIZE), TickEvent]

  function Rounds(n: nat): seq<Event> {
    if n == 0 then [] else ROUND + Rounds(n - 1)
  }

  /** Nobody is running after process 1 has destroyed itself. */
  lemma LeavesNobody(k: Kernel)
    requires Hungry(k)
    ensures DestroyDefined(k, 1)
    ensures var y := Destroy(k, 1).0;
      && (forall i :: 0 <= i < 16 ==> y.pcbs[i].state != Running)
      && y.active == k.active[1 := false] && y.pcbs[0].pid == 0
  {
    hide Isolated, CountsOk, LastWithPid;
    ActivePidIsFound(k, 1, 16);
    assert LastWithPid(k.pcbs, 1, 16) == 1;
  }

  lemma TakesSlotOne(k: Kernel)
    requires AlwaysOk(k) && k.active[0] && !k.active[1] && k.pcbs[0].pid == 0
    requires forall i :: 0 <= i < 16 ==> k.pcbs[i].state != Running
    ensures FirstClear(k.active, 0) == 1
    ensures var y := Create(k, 0, WRAPPING_SIZE);
      && (forall i :: 0 <= i < 16 ==> y.pcbs[i].state != Running)
      && y.active == k.active[1 := true] && y.pcbs[0].pid == 0
  {
    hide AlwaysOk, Create, CreateCode, FreshContext, CountTrue;
    CreateCodeIs(k, 0, WRAPPING_SIZE);
    AlwaysIsPlacedToCreate(k);
    if CreateCode(k, 0, WRAPPING_SIZE) == 0 {
      CreationIs(k, 0, WRAPPING_SIZE);
    } else {
      RefusedCreation(k, 0, WRAPPING_SIZE);
      CountBelow(k.active, 1);
    }
  }

  lemma AlwaysIsPlacedToCreate(k: Kernel)
    requires AlwaysOk(k)
    ensures Placed(k.paging.base) && (k.count < 16 ==> FirstClear(k.active, 0) < 16)
  {
    hide Isolated, CountTrue;
    RoomToCreate(k);
  }

  lemma CountBelow(s: seq<bool>, i: nat)
    requires i < |s| && !s[i]
    ensures CountTrue(s) < |s|
  {
    CountUpdate(s, i, true);
    CountBound(s[i := true]);
  }

  lemma SearchStartsAtZero(k: Kernel)
    requires k.active[1] && k.pcbs[0].pid == 0 && forall i :: 0 <= i < 16 ==> k.pcbs[i].state != Running
    ensures NextPid(k) == 1 && SomeActive(k.active)
  {
    hide SearchUp, FirstRunning;
    NearestIsActive(k.active, 0);
    assert ActiveAt(k.active, 1);
  }

  /** One round: the tick chooses process 1 again. */
  lemma RoundKeeps(m: Machine, p: nat)
    requires Hungry(m.kernel) && (p == 0 || p == 2)
    ensures ElsewhereRun(m, ROUND, p) && Hungry(AfterEvents(m, ROUND).kernel)
  {
    hide AlwaysOk, Create, Destroy, Tick, NextPid, SomeActive, FirstClear, ElsewhereRun, AfterEvents;
    var y := Next(m, ROUND[0]);
    LeavesNobody(m.kernel);
    AlwaysNext(m, ROUND[0]);
    AlwaysIsPlacedToCreate(y.kernel);
    TakesSlotOne(y.kernel);
    var z := Next(y, ROUND[1]);
    AlwaysNext(y, ROUND[1]);
    SearchStartsAtZero(z.kernel);
    TickKeeps(z);
    ThreeEvents(m, ROUND[0], ROUND[1], ROUND[2], p);
  }

  lemma ThreeEvents(m: Machine, a: Event, b: Event, c: Event, p: nat)
    requires var y := Next(m, a); var z := Next(y, b);
      && Executable(m, a) && Executable(y, b) && Executable(z, c)
      && Elsewhere(m, a, p) && Elsewhere(y, b, p) && Elsewhere(z, c, p)
    ensures AfterEvents(m, [a, b, c]) == Next(Next(Next(m, a), b), c) && ElsewhereRun(m, [a, b, c], p)
  {
    hide Next, Executable, Elsewhere;
    var y := Next(m, a);
    var z := Next(y, b);
    assert [a, b, c][1..] == [b, c] && [b, c][1..] == [c] && [c][1..] == [];
    assert AfterEvents(Next(z, c), []) == Next(z, c) && ElsewhereRun(Next(z, c), [], p);
    assert AfterEvents(z, [c]) == Next(z, c) && ElsewhereRun(z, [c], p);
    assert AfterEvents(y, [b, c]) == AfterEvents(z, [c]) && ElsewhereRun(y, [b, c], p);
  }

  lemma {:induction false} RunsTogether(m: Machine, es: seq<Event>, fs: seq<Event>, p: nat)
    ensures AfterEvents(m, es + fs) == AfterEvents(AfterEvents(m, es), fs)
    ensures ElsewhereRun(m, es, p) && ElsewhereRun(AfterEvents(m, es), fs, p) ==> ElsewhereRun(m, es + fs, p)
    ensures Ticks(es + fs) == Ticks(es) + Ticks(fs)
    decreases |es|
  {
    hide Next, Executable, Elsewhere;
    if es == [] {
      assert es + fs == fs;
    } else {
      assert (es + fs)[0] == es[0] && (es + fs)[1..] == es[1..] + fs;
      RunsTogether(Next(m, es[0]), es[1..], fs, p);
    }
  }

  /** For as long as the program of process 1 likes, the processes 0 and 2 stay active and are never chosen. */
  lemma {:induction false} OthersStarve(m: Machine, n: nat, p: nat)
    requires Hungry(m.kernel) && (p == 0 || p == 2)
    ensures ElsewhereRun(m, Rounds(n), p) && Ticks(Rounds(n)) == n
    ensures Hungry(AfterEvents(m, Rounds(n)).kernel)
    decreases n
  {
    hide Hungry, AfterEvents, ElsewhereRun, Elsewhere, Executable;
    if n == 0 {
      NothingElsewhere(m, p);
    } else {
      RoundKeeps(m, p);
      RunsTogether(m, ROUND, Rounds(n - 1), p);
      OthersStarve(AfterEvents(m, ROUND), n - 1, p);
      RoundTicks();
    }
  }

  lemma NothingElsewhere(m: Machine, p: nat)
    ensures ElsewhereRun(m, [], p) && AfterEvents(m, []) == m
  {
  }

  lemma RoundTicks()
    ensures Ticks(ROUND) == 1
  {
    assert ROUND[1..] == [CreateEvent(0, WRAPPING_SIZE), TickEvent] && ROUND[2..] == [TickEvent];
    assert ROUND[1..][1..] == [TickEvent] && [TickEvent][1..] == [];
    assert Ticks([TickEvent]) == 1 + Ticks([]);
  }

  /** From boot: three processes, the second of them at work, and then as many ticks as one likes that never choose the
      third. */
  lemma StarvationFromBoot(base: u32, kernelDirectory: u32, cpu: Cpu, kernelEsp: u32, n: nat)
    returns (before: seq<Event>)
    requires Placed(base) && KERNEL_BASE < kernelDirectory && UserMode(cpu)
    ensures var m := Machine(Boot(base, kernelDirectory), cpu, kernelEsp);
      var y := AfterEvents(m, before);
      && PossibleRun(m, before) && y.kernel.active[2]
      && ElsewhereRun(y, Rounds(n), 2) && Ticks(Rounds(n)) == n && AfterEvents(y, Rounds(n)).kernel.active[2]
  {
    hide PossibleRun, AfterEvents, Boot, ElsewhereRun, Fleet, Next, AlwaysOk;
    var m := Machine(Boot(base, kernelDirectory), cpu, kernelEsp);
    var fleet := Crowd(base, kernelDirectory, cpu, kernelEsp, 3);
    var y := AfterEvents(m, fleet);
    FleetTurns(y);
    RunAppend(m, fleet, TickEvent);
    before := fleet + [TickEvent];
    OthersStarve(Next(y, TickEvent), n, 2);
  }

  lemma FleetTurns(m: Machine)
    requires Fleet(m.kernel, 3)
    ensures Possible(m, TickEvent) && Hungry(Next(m, TickEvent).kernel)
  {
    hide AlwaysOk, Tick, NextPid, CountTrue, SearchUp, FirstRunning;
    SoundParts(m.kernel);
    assert m.kernel.active[1];
    TickKeeps(m);
    RunningIs(m.kernel, 0);
    NextIsNearest(m, 0);
    NearestIsActive(m.kernel.active, 0);
    assert ActiveAt(m.kernel.active, 1);
  }
}
