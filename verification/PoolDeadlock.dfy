/**
 Close and the dispatcher of the queue take the pool lock and the queue lock in opposite orders: each
 can wait for the lock that the other has, and then both wait for good.
 */
module PoolDeadlock {
  import opened Options
  import opened Pool
  import opened PoolSafety
  import opened PoolTickets
  import opened PoolNil

  /** Thread `c` has the pool lock and goes for the queue lock; thread `d` has that and goes for the pool lock. */
  predicate Deadlocked(s: State, c: nat, d: nat) {
    && c < |s.threads| && s.threads[c] == CloseQueue
    && d < |s.threads| && (s.threads[d] == WorkStart(Dispatcher) || s.threads[d] == ReserveStart(Dispatcher) ||
                           s.threads[d] == StartReserve(Dispatcher))
  }

  /** The two threads hold what the other needs. */
  lemma DeadlockHolds(s: State, c: nat, d: nat)
    requires Inv(s) && Deadlocked(s, c, d)
    ensures s.writer == Some(c) && s.pendingHolder == Some(d) && c != d
  {
    hide Owners, Counters, Lists, Scans, Closed, QueueOk;
    assert Writes(s.threads[c]) && Queues(s.threads[d]);
  }

  lemma NeitherSteps(s: State, c: nat, d: nat, choice: Choice)
    requires Deadlocked(s, c, d) && s.writer.Some? && s.pendingHolder.Some?
    ensures StepThread(s, c, choice).None? && StepThread(s, d, choice).None?
  {
  }

  /** A step of one thread leaves the others where they are. */
  predicate OthersKeepPlace(s: State, t: nat, s': State) {
    |s'.threads| >= |s.threads| && forall u | 0 <= u < |s.threads| && u != t :: s'.threads[u] == s.threads[u]
  }

  lemma EnqueueKeepsPlaces(s: State, t: nat, s': State)
    requires t < |s.threads| && StepEnqueue(s, t) == Some(s')
    ensures OthersKeepPlace(s, t, s')
  {
  }

  lemma WaitingKeepsPlaces(s: State, t: nat, r: nat, choice: Choice, s': State)
    requires t < |s.threads| && StepWaiting(s, t, r, choice) == Some(s')
    ensures OthersKeepPlace(s, t, s')
  {
  }

  lemma CancellingKeepsPlaces(s: State, t: nat, r: nat, s': State)
    requires t < |s.threads| && StepCancelling(s, t, r) == Some(s')
    ensures OthersKeepPlace(s, t, s')
  {
  }

  lemma HandingKeepsPlaces(s: State, t: nat, c: nat, choice: Choice, s': State)
    requires t < |s.threads| && StepHanding(s, t, c, choice) == Some(s')
    ensures OthersKeepPlace(s, t, s')
  {
  }

  lemma CloseQueueKeepsPlaces(s: State, t: nat, s': State)
    requires t < |s.threads| && StepCloseQueue(s, t) == Some(s')
    ensures OthersKeepPlace(s, t, s')
  {
  }

  lemma StepKeepsPlaces(s: State, t: nat, choice: Choice, s': State)
    requires t < |s.threads| && StepThread(s, t, choice) == Some(s')
    ensures OthersKeepPlace(s, t, s')
  {
    hide OthersKeepPlace, LeavesQueue, StepEnqueue, StepWaiting, StepCancelling, StepHanding, StepCloseQueue;
    match s.threads[t] {
      case Enqueue => EnqueueKeepsPlaces(s, t, s');
      case Waiting(r) => WaitingKeepsPlaces(s, t, r, choice, s');
      case Cancelling(r) => CancellingKeepsPlaces(s, t, r, s');
      case Handing(c) => HandingKeepsPlaces(s, t, c, choice, s');
      case CloseQueue => CloseQueueKeepsPlaces(s, t, s');
      case _ =>
        hide StepThread;
        StepLeaves(s, t, choice, s');
        LeavesKeepsPlaces(s, t, s');
    }
  }

  lemma LeavesKeepsPlaces(s: State, t: nat, s': State)
    requires t < |s.threads| && LeavesQueue(s, t, s')
    ensures OthersKeepPlace(s, t, s')
  {
  }

  lemma DeadlockStays(s: State, c: nat, d: nat, a: Action, s': State)
    requires Inv(s) && Deadlocked(s, c, d) && Step(s, a) == Some(s')
    ensures Deadlocked(s', c, d)
  {
    DeadlockHolds(s, c, d);
    if a.Run? {
      NeitherSteps(s, c, d, a.choice);
      hide StepThread, Inv;
      StepKeepsPlaces(s, a.t, a.choice, s');
    } else {
      hide StepThread, Inv;
    }
  }

  lemma {:induction false} DeadlockRuns(s: State, c: nat, d: nat, more: seq<Action>)
    requires Inv(s) && Deadlocked(s, c, d) && RunAll(s, more).Some?
    ensures Inv(RunAll(s, more).value) && Deadlocked(RunAll(s, more).value, c, d)
  {
    hide Step, Inv, Deadlocked;
    if more != [] {
      var before, a := more[..|more| - 1], more[|more| - 1];
      DeadlockRuns(s, c, d, before);
      StepInv(RunAll(s, before).value, a, RunAll(s, more).value);
      DeadlockStays(RunAll(s, before).value, c, d, a, RunAll(s, more).value);
    }
  }

  /** Once that has happened neither thread ever takes a step again, and nobody gets either lock,
      whatever else happens. */
  lemma DeadlockIsForGood(n: nat, maxReserve: nat, actions: seq<Action>, s: State, c: nat, d: nat,
                          more: seq<Action>, choice: Choice)
    requires RunAll(Initial(n, maxReserve), actions) == Some(s) && Deadlocked(s, c, d) && RunAll(s, more).Some?
    ensures var s' := RunAll(s, more).value;
      && Deadlocked(s', c, d) && s'.writer == Some(c) && s'.pendingHolder == Some(d)
      && StepThread(s', c, choice).None? && StepThread(s', d, choice).None?
  {
    hide RunAll, Inv, Deadlocked, StepThread;
    RunInv(n, maxReserve, actions);
    DeadlockRuns(s, c, d, more);
    var s' := RunAll(s, more).value;
    DeadlockHolds(s', c, d);
    NeitherSteps(s', c, d, choice);
  }

  /** Every pool with a work core can get there: a caller waits, a core is released, and Close comes while the
      dispatcher is on its way to the released core. */
  lemma DeadlockIsReached(n: nat, maxReserve: nat)
    requires n > 0
    ensures exists s, c, d :: Reaches(n, maxReserve, s) && Deadlocked(s, c, d)
  {
    hide Reaches;
    CallerWaits(n, maxReserve);
    var s0 := OneWaits(n, maxReserve);
    var s1 := StepRelease(s0, 0, Caller, 0).value;
    ReachesNext(n, maxReserve, s0, Run(0, Go(0)), s1);
    var s2 := StepUnlocking(s1, 0, Caller, 0, 0).value;
    ReachesNext(n, maxReserve, s1, Run(0, Go(0)), s2);
    DispatcherMeetsClose(n, maxReserve, s2);
  }

  lemma DispatcherMeetsClose(n: nat, maxReserve: nat, s: State)
    requires Reaches(n, maxReserve, s) && |s.threads| == n + 2 && s.threads[n + 1] == DispatchStart
    requires s.pendingHolder.None? && s.writer.None? && s.readers == {} && !s.stopped && s.queue != []
    ensures exists s', c, d :: Reaches(n, maxReserve, s') && Deadlocked(s', c, d)
  {
    hide Reaches;
    var s1 := StepDispatchStart(s, n + 1).value;
    ReachesNext(n, maxReserve, s, Run(n + 1, Go(0)), s1);
    var s2 := StepDispatchLoop(s1, n + 1).value;
    ReachesNext(n, maxReserve, s1, Run(n + 1, Go(0)), s2);
    var s3 := s2.(threads := s2.threads + [CloseStart]);
    ReachesNext(n, maxReserve, s2, NewThread(CloseStart), s3);
    var s4 := StepCloseStart(s3, n + 2).value;
    ReachesNext(n, maxReserve, s3, Run(n + 2, Go(0)), s4);
    assert Deadlocked(s4, n + 2, n + 1);
  }

  // ----- Exactly when Close finishes -----

  /** Thread `d` has the queue lock and will need the pool lock before it gives it back: it is on its way to that
      lock, or requests are left in the queue. */
  predicate Needs(s: State, d: nat) {
    d < |s.threads| &&
    match s.threads[d]
    case WorkStart(who) => who == Dispatcher
    case ReserveStart(who) => who == Dispatcher
    case StartReserve(who) => who == Dispatcher
    case DispatchLoop => s.queue != []
    case Releasing(_) => s.queue != []
    case Unlocking(who, _) => who == Dispatcher && s.queue != []
    case Handing(_) => |s.queue| > 1
    case _ => false
  }

  ghost predicate Doomed(s: State, c: nat) {
    && c < |s.threads| && s.threads[c] == CloseQueue
    && s.pendingHolder.Some? && Needs(s, s.pendingHolder.value)
  }

  lemma HandingNeeds(s: State, d: nat, k: nat, choice: Choice, s': State)
    requires Needs(s, d) && s.threads[d] == Handing(k) && StepHanding(s, d, k, choice) == Some(s')
    ensures Needs(s', d)
  {
  }

  lemma UnlockingNeeds(s: State, d: nat, who: Who, k: nat, now: int, s': State)
    requires Needs(s, d) && s.threads[d] == Unlocking(who, k) && StepUnlocking(s, d, who, k, now) == Some(s')
    ensures Needs(s', d)
  {
  }

  lemma ReleasingNeeds(s: State, d: nat, k: nat, s': State)
    requires Needs(s, d) && s.threads[d] == Releasing(k) && StepRelease(s, d, Dispatcher, k) == Some(s')
    ensures Needs(s', d)
  {
  }

  /** While Close has the pool lock the dispatcher gets nowhere but to that lock. */
  lemma HolderSteps(s: State, d: nat, choice: Choice, s': State)
    requires Needs(s, d) && s.writer.Some? && StepThread(s, d, choice) == Some(s')
    ensures Needs(s', d)
  {
    hide StepHanding, StepUnlocking, StepRelease;
    match s.threads[d] {
      case Handing(k) =>
        hide Needs;
        HandingNeeds(s, d, k, choice, s');
      case Unlocking(who, k) =>
        hide Needs;
        UnlockingNeeds(s, d, who, k, NowOf(choice), s');
      case Releasing(k) =>
        hide Needs;
        ReleasingNeeds(s, d, k, s');
      case _ =>
    }
  }

  lemma WaitingLeavesQueue(s: State, t: nat, r: nat, choice: Choice, s': State)
    requires t < |s.threads| && StepWaiting(s, t, r, choice) == Some(s')
    ensures s'.queue == s.queue
  {
  }

  lemma QueueLockTaken(s: State, t: nat, r: nat)
    requires s.pendingHolder.Some? && t < |s.threads|
    ensures StepEnqueue(s, t).None? && StepCancelling(s, t, r).None? && StepCloseQueue(s, t).None?
  {
  }

  /** Another thread does not change the queue. */
  lemma OthersLeaveQueue(s: State, t: nat, d: nat, choice: Choice, s': State)
    requires Inv(s) && s.pendingHolder == Some(d) && t != d && t < |s.threads| && StepThread(s, t, choice) == Some(s')
    ensures s'.queue == s.queue
  {
    NotHanding(s, t, d);
    hide Inv, StepEnqueue, StepWaiting, StepCancelling, StepHanding, StepCloseQueue;
    match s.threads[t] {
      case Enqueue => QueueLockTaken(s, t, 0);
      case Waiting(r) => WaitingLeavesQueue(s, t, r, choice, s');
      case Cancelling(r) => QueueLockTaken(s, t, r);
      case CloseQueue => QueueLockTaken(s, t, 0);
      case _ =>
        hide StepThread;
        StepLeaves(s, t, choice, s');
    }
  }

  lemma NotHanding(s: State, t: nat, d: nat)
    requires Inv(s) && s.pendingHolder == Some(d) && t != d && t < |s.threads|
    ensures !Queues(s.threads[t])
  {
    hide Owners, Counters, Lists, Scans, Closed, QueueOk;
  }

  lemma LocksOf(s: State, c: nat)
    requires Inv(s) && c < |s.threads| && s.threads[c] == CloseQueue
    ensures s.writer == Some(c)
    ensures forall d | 0 <= d < |s.threads| && Queues(s.threads[d]) :: s.pendingHolder == Some(d)
  {
    hide Owners, Counters, Lists, Scans, Closed, QueueOk;
    assert Writes(s.threads[c]);
  }

  lemma NeedsIsHolding(s: State, d: nat)
    requires Needs(s, d)
    ensures d < |s.threads| && Queues(s.threads[d])
  {
  }

  lemma CloseWaits(s: State, c: nat, choice: Choice)
    requires c < |s.threads| && s.threads[c] == CloseQueue && s.pendingHolder.Some?
    ensures StepThread(s, c, choice).None?
  {
  }

  lemma StillNeeds(s: State, d: nat, s': State)
    requires Needs(s, d) && s'.queue == s.queue && d < |s'.threads| && s'.threads[d] == s.threads[d]
    ensures Needs(s', d)
  {
  }

  lemma ThreadKeepsDoom(s: State, c: nat, d: nat, t: nat, choice: Choice, s': State)
    requires Inv(s) && Doomed(s, c) && s.pendingHolder == Some(d) && t < |s.threads|
    requires StepThread(s, t, choice) == Some(s')
    ensures Needs(s', d) && c < |s'.threads| && s'.threads[c] == CloseQueue
  {
    LocksOf(s, c);
    CloseWaits(s, c, choice);
    hide StepThread, Inv, Needs;
    StepKeepsPlaces(s, t, choice, s');
    if t == d {
      HolderSteps(s, d, choice, s');
    } else {
      NeedsIsHolding(s, d);
      OthersLeaveQueue(s, t, d, choice, s');
      StillNeeds(s, d, s');
    }
  }

  lemma DoomStays(s: State, c: nat, a: Action, s': State)
    requires Inv(s) && Doomed(s, c) && Step(s, a) == Some(s')
    ensures Inv(s') && Doomed(s', c)
  {
    StepInv(s, a, s');
    hide StepThread, Inv, Needs;
    var d := s.pendingHolder.value;
    if a.Run? {
      ThreadKeepsDoom(s, c, d, a.t, a.choice, s');
    } else {
      NeedsIsHolding(s, d);
      StillNeeds(s, d, s');
    }
    LocksOf(s', c);
    NeedsIsHolding(s', d);
  }

  lemma {:induction false} DoomRuns(s: State, c: nat, more: seq<Action>)
    requires Inv(s) && Doomed(s, c) && RunAll(s, more).Some?
    ensures Inv(RunAll(s, more).value) && Doomed(RunAll(s, more).value, c)
  {
    hide Step, Inv, Doomed;
    if more != [] {
      var before := more[..|more| - 1];
      DoomRuns(s, c, before);
      DoomStays(RunAll(s, before).value, c, more[|more| - 1], RunAll(s, more).value);
    }
  }

  predicate WaitsToClose(s: State, c: nat) {
    c < |s.threads| && s.threads[c] == CloseQueue
  }

  /** In some continuation Close gets past the queue lock. */
  ghost predicate Finishes(s: State, c: nat) {
    exists more :: RunAll(s, more).Some? && !WaitsToClose(RunAll(s, more).value, c)
  }

  lemma {:induction false} RunFrom(s: State, a: Action, more: seq<Action>)
    requires Step(s, a).Some?
    ensures RunAll(s, [a] + more) == RunAll(Step(s, a).value, more)
  {
    hide Step;
    if more == [] {
      assert ([a] + more)[..0] == [] && RunAll(s, []) == Some(s);
      assert [a] + more == [a];
    } else {
      RunFrom(s, a, more[..|more| - 1]);
      assert ([a] + more)[..|more|] == [a] + more[..|more| - 1];
    }
  }

  lemma FinishesNext(s: State, a: Action, s': State, c: nat)
    requires Step(s, a) == Some(s') && Finishes(s', c)
    ensures Finishes(s, c)
  {
    hide Step, RunAll;
    var more :| RunAll(s', more).Some? && !WaitsToClose(RunAll(s', more).value, c);
    RunFrom(s, a, more);
    assert RunAll(s, [a] + more) == RunAll(s', more);
  }

  lemma FreeFinishes(s: State, c: nat)
    requires c < |s.threads| && s.threads[c] == CloseQueue && s.pendingHolder.None?
    ensures Finishes(s, c)
  {
    var s' := StepCloseQueue(s, c).value;
    assert RunAll(s', []) == Some(s') && s'.threads[c] == Finished;
    hide RunAll;
    assert Finishes(s', c);
    FinishesNext(s, Run(c, Go(0)), s', c);
  }

  lemma LoopFinishes(s: State, c: nat, d: nat)
    requires c < |s.threads| && s.threads[c] == CloseQueue
    requires d < |s.threads| && s.threads[d] == DispatchLoop && s.queue == []
    ensures Finishes(s, c)
  {
    hide Finishes;
    var s' := StepDispatchLoop(s, d).value;
    FreeFinishes(s', c);
    FinishesNext(s, Run(d, Go(0)), s', c);
  }

  lemma UnlockingFinishes(s: State, c: nat, d: nat, k: nat)
    requires c < |s.threads| && s.threads[c] == CloseQueue
    requires d < |s.threads| && s.threads[d] == Unlocking(Dispatcher, k) && s.queue == [] && k < |s.cores|
    ensures Finishes(s, c)
  {
    hide Finishes;
    var s' := StepUnlocking(s, d, Dispatcher, k, 0).value;
    LoopFinishes(s', c, d);
    FinishesNext(s, Run(d, Go(0)), s', c);
  }

  lemma ReleasingFinishes(s: State, c: nat, d: nat, k: nat)
    requires c < |s.threads| && s.threads[c] == CloseQueue
    requires d < |s.threads| && s.threads[d] == Releasing(k) && s.queue == [] && k < |s.cores|
    ensures Finishes(s, c)
  {
    hide Finishes;
    var s' := StepRelease(s, d, Dispatcher, k).value;
    UnlockingFinishes(s', c, d, k);
    FinishesNext(s, Run(d, Go(0)), s', c);
  }

  lemma HandingFinishes(s: State, c: nat, d: nat, k: nat)
    requires c < |s.threads| && s.threads[c] == CloseQueue
    requires d < |s.threads| && s.threads[d] == Handing(k) && |s.queue| == 1 && CanDeliver(s)
    ensures Finishes(s, c)
  {
    hide Finishes;
    var s' := StepHanding(s, d, k, Go(0)).value;
    LoopFinishes(s', c, d);
    FinishesNext(s, Run(d, Go(0)), s', c);
  }

  lemma HolderFinishes(s: State, c: nat, d: nat)
    requires Inv(s) && c < |s.threads| && s.threads[c] == CloseQueue && s.pendingHolder == Some(d) && !Needs(s, d)
    ensures Finishes(s, c)
  {
    HolderPlace(s, c, d);
    hide Inv, Finishes;
    match s.threads[d] {
      case DispatchLoop => LoopFinishes(s, c, d);
      case Unlocking(_, k) => UnlockingFinishes(s, c, d, k);
      case Releasing(k) => ReleasingFinishes(s, c, d, k);
      case Handing(k) =>
        HandingCanDeliver(s, d);
        HandingFinishes(s, c, d, k);
    }
  }

  lemma HolderPlace(s: State, c: nat, d: nat)
    requires Inv(s) && c < |s.threads| && s.threads[c] == CloseQueue && s.pendingHolder == Some(d)
    ensures d < |s.threads| && Queues(s.threads[d]) && !Reads(s.threads[d])
    ensures Has(s.threads[d]).Some? ==> Has(s.threads[d]).value < |s.cores|
  {
    hide Counters, Lists, Scans, Closed, QueueOk;
    assert Writes(s.threads[c]);
  }

  /** Over every run: Close, once it has the pool lock, can finish exactly if nobody has the queue lock, or the
      dispatcher that has it will not need the pool lock again: no request is left in the queue for it. */
  lemma CloseFinishesExactly(n: nat, maxReserve: nat, actions: seq<Action>, s: State, c: nat)
    requires RunAll(Initial(n, maxReserve), actions) == Some(s) && c < |s.threads| && s.threads[c] == CloseQueue
    ensures Finishes(s, c) <==> s.pendingHolder.None? || !Needs(s, s.pendingHolder.value)
  {
    hide RunAll, Inv, Needs;
    RunInv(n, maxReserve, actions);
    if s.pendingHolder.None? {
      FreeFinishes(s, c);
    } else if Needs(s, s.pendingHolder.value) {
      forall more | RunAll(s, more).Some? ensures WaitsToClose(RunAll(s, more).value, c) {
        DoomRuns(s, c, more);
      }
    } else {
      HolderFinishes(s, c, s.pendingHolder.value);
    }
  }
}
