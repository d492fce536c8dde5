/** Round-robin scheduling (src/scheduler.c) and its fairness. */
module Scheduler {
  import opened Bytes
  import opened Paging
  import opened Processes

  ghost predicate SomeActive(a: Active) {
    exists i :: 0 <= i < 16 && a[i]
  }

  /** The pids form a ring; a position on it is a number of steps, and 16 steps go round once. */
  predicate ActiveAt(a: Active, x: nat) {
    a[x % 16]
  }

  function SearchUp(a: Active, x: nat, limit: nat): (y: nat)
    requires x <= limit
    ensures x <= y <= limit
    ensures y < limit ==> ActiveAt(a, y)
    ensures forall z :: x <= z < y ==> !ActiveAt(a, z)
    decreases limit - x
  {
    if x == limit || ActiveAt(a, x) then x else SearchUp(a, x + 1, limit)
  }

  /** The nearest active position after x, going round. */
  function Nearest(a: Active, x: nat): (y: nat)
    ensures x < y <= x + 16
  {
    SearchUp(a, x + 1, x + 16)
  }

  lemma NearestIsActive(a: Active, x: nat)
    requires SomeActive(a)
    ensures ActiveAt(a, Nearest(a, x)) && forall z :: x < z < Nearest(a, x) ==> !ActiveAt(a, z)
  {
    var i :| 0 <= i < 16 && a[i];
    var z := x + 1 + (i + 16 - (x + 1) % 16) % 16;
    assert z % 16 == i by {
      var r := (x + 1) % 16;
      assert (x + 1) == (x + 1) / 16 * 16 + r;
      if i >= r { assert z == (x + 1) / 16 * 16 + i; } else { assert z == ((x + 1) / 16 + 1) * 16 + i; }
    }
    assert ActiveAt(a, z);
  }

  // ---------- the operations ----------

  /** scheduler_save_context_to_current_running_pcb. */
  function Save(k: Kernel, ctx: Context): Kernel {
    var i := FirstRunning(k.pcbs, 0);
    if i == 16 then k else k.(pcbs := k.pcbs[i := k.pcbs[i].(state := Running, context := ctx)])
  }

  /** The process control block the search starts from: the running one, or the first when none is running. */
  function Current(k: Kernel): (i: nat)
    ensures i < 16
  {
    var i := FirstRunning(k.pcbs, 0);
    if i == 16 then 0 else i
  }

  function NextPid(k: Kernel): (p: nat)
    ensures p < 16
  {
    Nearest(k.active, k.pcbs[Current(k)].pid) % 16
  }

  /** scheduler_switch_to_next_process up to the jump: the context of NextPid is then loaded. */
  function Switch(k: Kernel): Kernel {
    var c, p := Current(k), NextPid(k);
    var pcbs := k.pcbs[c := k.pcbs[c].(state := Ready)];
    k.(pcbs := pcbs[p := pcbs[p].(state := Running)],
       paging := UseDirectory(k.paging, k.pcbs[p].context.pageDirectory))
  }

  method SaveContextToCurrentRunningPcb(pm: ProcessManager, ctx: Context)
    requires pm.Valid()
    modifies pm.pcbs
    ensures pm.Valid() && pm.Abs() == Save(old(pm.Abs()), ctx)
  {
    var i := pm.GetCurrentRunning();
    if i != 16 {
      pm.pcbs[i] := pm.pcbs[i].(state := Running);
      pm.pcbs[i] := pm.pcbs[i].(context := ctx);
    }
  }

  /** The wrap-around search ends because some process is active: the distance to the nearest one shrinks. */
  method FindNextActive(pm: ProcessManager, currentPid: u32) returns (nextPid: nat)
    requires pm.Valid() && SomeActive(pm.active[..]) && currentPid < 16
    ensures nextPid < 16 && nextPid == Nearest(pm.active[..], currentPid) % 16
  {
    hide Nearest, SearchUp, SomeActive;
    ghost var a := pm.active[..];
    nextPid := currentPid + 1;
    if nextPid >= 16 { nextPid := 0; }
    NearestIsActive(a, currentPid);
    ghost var x: nat := currentPid + 1;
    while !pm.active[nextPid]
      invariant currentPid < x <= Nearest(a, currentPid) && nextPid < 16 && nextPid == x % 16
      decreases Nearest(a, currentPid) - x
    {
      assert !ActiveAt(a, x);
      nextPid := nextPid + 1;
      if nextPid >= 16 { nextPid := 0; }
      x := x + 1;
    }
    assert ActiveAt(a, x);
  }

  method SwitchToNextProcess(pm: ProcessManager) returns (ctx: Context)
    requires pm.Valid() && SomeActive(pm.Abs().active) && pm.pcbs[Current(pm.Abs())].pid < 16
    modifies pm.pcbs, pm.paging
    ensures pm.Valid() && pm.Abs() == Switch(old(pm.Abs()))
    ensures ctx == pm.pcbs[NextPid(old(pm.Abs()))].context
  {
    hide Nearest, SomeActive;
    var pcb := pm.GetCurrentRunning();
    if pcb == 16 { pcb := 0; }
    var currentPid := pm.pcbs[pcb].pid;
    pm.pcbs[pcb] := pm.pcbs[pcb].(state := Ready);
    var nextPid := FindNextActive(pm, currentPid);
    pm.pcbs[nextPid] := pm.pcbs[nextPid].(state := Running);
    pm.paging.UsePageDirectory(pm.pcbs[nextPid].context.pageDirectory);
    ctx := pm.pcbs[nextPid].context;
  }

  // ---------- fairness ----------

  /** Where the j-th switch from position p on arrives. */
  function Visit(a: Active, p: nat, j: nat): nat {
    if j == 0 then p else Nearest(a, Visit(a, p, j - 1))
  }

  /** How many active positions lie in (x, y]. */
  function ActiveBetween(a: Active, x: nat, y: nat): nat
    decreases y
  {
    if y <= x then 0 else ActiveBetween(a, x, y - 1) + (if ActiveAt(a, y) then 1 else 0)
  }

  lemma {:induction false} BetweenSplits(a: Active, x: nat, y: nat, z: nat)
    requires x <= y <= z
    ensures ActiveBetween(a, x, z) == ActiveBetween(a, x, y) + ActiveBetween(a, y, z)
    decreases z
  {
    if y < z { BetweenSplits(a, x, y, z - 1); }
  }

  lemma {:induction false} NoneBetween(a: Active, x: nat, y: nat)
    requires x <= y && forall z :: x < z <= y ==> !ActiveAt(a, z)
    ensures ActiveBetween(a, x, y) == 0
    decreases y
  {
    if x < y { NoneBetween(a, x, y - 1); }
  }

  /** A switch passes exactly one active position: the one it arrives at. */
  lemma {:induction false} VisitCounts(a: Active, p: nat, j: nat)
    requires SomeActive(a)
    ensures Visit(a, p, j) >= p && ActiveBetween(a, p, Visit(a, p, j)) == j
    ensures j > 0 ==> ActiveAt(a, Visit(a, p, j)) && Visit(a, p, j) > p
    decreases j
  {
    if j > 0 {
      VisitCounts(a, p, j - 1);
      var x, y := Visit(a, p, j - 1), Visit(a, p, j);
      NearestIsActive(a, x);
      NoneBetween(a, x, y - 1);
      BetweenSplits(a, p, x, y);
    }
  }

  lemma {:induction false} OneRound(a: Active, n: nat)
    requires n <= 16
    ensures ActiveBetween(a, 15, 15 + n) == CountTrue(a[..n])
    decreases n
  {
    if n > 0 {
      OneRound(a, n - 1);
      assert a[..n][..n - 1] == a[..n - 1] && (15 + n) % 16 == n - 1;
    }
  }

  lemma {:induction false} AnyRound(a: Active, x: nat)
    ensures ActiveBetween(a, x + 15, x + 31) == CountTrue(a)
    decreases x
  {
    if x == 0 {
      OneRound(a, 16);
      assert a[..16] == a;
    } else {
      AnyRound(a, x - 1);
      BetweenSplits(a, x + 14, x + 15, x + 30);
      BetweenSplits(a, x + 15, x + 30, x + 31);
      assert (x + 31) % 16 == (x + 15) % 16;
    }
  }

  lemma {:induction false} BetweenShifts(a: Active, x: nat, y: nat)
    requires x <= y
    ensures ActiveBetween(a, x + 16, y + 16) == ActiveBetween(a, x, y)
    decreases y
  {
    if x < y {
      BetweenShifts(a, x, y - 1);
      assert (y + 16) % 16 == y % 16;
    }
  }

  /** Going round once passes every active process once. */
  lemma FullRound(a: Active, p: nat)
    ensures ActiveBetween(a, p, p + 16) == CountTrue(a)
  {
    BetweenShifts(a, p, p + 16);
    AnyRound(a, p + 1);
  }

  lemma CountGrows(a: Active, p: nat, x: nat, y: nat)
    requires p <= x < y && ActiveAt(a, y)
    ensures ActiveBetween(a, p, x) < ActiveBetween(a, p, y)
  {
    BetweenSplits(a, p, x, y - 1);
  }

  /** Active positions are told apart by how many lie before them. */
  lemma PositionIsCount(a: Active, p: nat, x: nat, y: nat)
    requires p <= x && p <= y && ActiveAt(a, x) && ActiveAt(a, y)
    requires ActiveBetween(a, p, x) == ActiveBetween(a, p, y)
    ensures x == y
  {
    hide ActiveBetween;
    if x < y { CountGrows(a, p, x, y); } else if y < x { CountGrows(a, p, y, x); }
  }

  /** The pid chosen by the j-th switch from pid p on. */
  function Turn(a: Active, p: nat, j: nat): nat {
    Visit(a, p, j) % 16
  }

  /** From an active process on, as many switches as there are active processes come back to it. */
  lemma RoundCloses(a: Active, p: nat)
    requires p < 16 && a[p]
    ensures CountTrue(a) > 0 && Visit(a, p, CountTrue(a)) == p + 16
  {
    hide ActiveBetween, Visit, CountTrue;
    var k := CountTrue(a);
    FullRound(a, p);
    VisitCounts(a, p, k);
    assert (p + 16) % 16 == p && ActiveAt(a, p + 16);
    CountGrows(a, p, p, p + 16);
    PositionIsCount(a, p, Visit(a, p, k), p + 16);
  }

  lemma {:induction false} VisitIncreases(a: Active, p: nat, i: nat, j: nat)
    requires i < j
    ensures Visit(a, p, i) < Visit(a, p, j)
    decreases j
  {
    if i < j - 1 { VisitIncreases(a, p, i, j - 1); }
  }

  lemma EachHasATurn(a: Active, p: nat, q: nat) returns (j: nat)
    requires p < 16 && a[p] && q < 16 && a[q]
    ensures 1 <= j <= CountTrue(a) && Turn(a, p, j) == q
  {
    hide ActiveBetween, Visit, CountTrue;
    var x := if q > p then q else q + 16;
    assert x % 16 == q && ActiveAt(a, x);
    j := ActiveBetween(a, p, x);
    FullRound(a, p);
    BetweenSplits(a, p, x, p + 16);
    CountGrows(a, p, p, x);
    VisitCounts(a, p, j);
    PositionIsCount(a, p, Visit(a, p, j), x);
  }

  lemma TurnsDiffer(a: Active, p: nat, i: nat, j: nat)
    requires p < 16 && a[p] && 1 <= i < j <= CountTrue(a)
    ensures Turn(a, p, i) != Turn(a, p, j)
  {
    hide Visit, CountTrue;
    RoundCloses(a, p);
    ZeroVisit(a, p);
    VisitIncreases(a, p, 0, i);
    VisitIncreases(a, p, i, j);
    if j < CountTrue(a) { VisitIncreases(a, p, j, CountTrue(a)); }
    var x, y := Visit(a, p, i), Visit(a, p, j);
    assert p < x < y <= p + 16;
  }

  lemma ZeroVisit(a: Active, p: nat)
    ensures Visit(a, p, 0) == p
  {
  }

  /** Fairness: with a fixed active set of k processes, k switches in a row starting from an active process come
      round to it again, and each active process is chosen exactly once on the way; no other process is. */
  lemma RoundRobinIsFair(a: Active, p: nat)
    requires p < 16 && a[p]
    ensures Turn(a, p, CountTrue(a)) == p
    ensures forall j :: 1 <= j <= CountTrue(a) ==> a[Turn(a, p, j)]
    ensures forall q :: 0 <= q < 16 && a[q] ==> exists j :: 1 <= j <= CountTrue(a) && Turn(a, p, j) == q
    ensures forall i, j :: 1 <= i < j <= CountTrue(a) ==> Turn(a, p, i) != Turn(a, p, j)
  {
    hide Visit, CountTrue;
    RoundCloses(a, p);
    forall j | 1 <= j <= CountTrue(a)
      ensures a[Turn(a, p, j)]
    {
      VisitCounts(a, p, j);
    }
    forall q | 0 <= q < 16 && a[q]
      ensures exists j :: 1 <= j <= CountTrue(a) && Turn(a, p, j) == q
    {
      var j := EachHasATurn(a, p, q);
    }
    forall i, j | 1 <= i < j <= CountTrue(a)
      ensures Turn(a, p, i) != Turn(a, p, j)
    {
      TurnsDiffer(a, p, i, j);
    }
  }
}
