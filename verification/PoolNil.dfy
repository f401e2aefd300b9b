/**
 Nil cores are really given out: for every size of the pool there is a run in which a caller that
 waited is given one. And a caller that comes after Close has closed the queue may wait for good.
 */
module PoolNil {
  import opened Options
  import opened Pool
  import opened PoolClosing
  import opened PoolSafety
  import opened PoolTickets

  // ----- Reachable states -----

  ghost predicate Reaches(n: nat, maxReserve: nat, s: State) {
    exists actions :: RunAll(Initial(n, maxReserve), actions) == Some(s)
  }

  lemma ReachesInitial(n: nat, maxReserve: nat)
    ensures Reaches(n, maxReserve, Initial(n, maxReserve))
  {
    assert RunAll(Initial(n, maxReserve), []) == Some(Initial(n, maxReserve));
  }

  lemma ReachesNext(n: nat, maxReserve: nat, s: State, a: Action, s': State)
    requires Reaches(n, maxReserve, s) && Step(s, a) == Some(s')
    ensures Reaches(n, maxReserve, s')
  {
    hide Step;
    var actions :| RunAll(Initial(n, maxReserve), actions) == Some(s);
    assert (actions + [a])[..|actions|] == actions;
    assert RunAll(Initial(n, maxReserve), actions + [a]) == Some(s');
  }

  // ----- Callers take all work cores -----

  /** The first `k` work cores are in use, core i by thread i. */
  function Busy(n: nat, maxReserve: nat, k: nat): State
    requires k <= n
  {
    State(BusyCores(n, k), seq(n, i requires 0 <= i < n => i), [], maxReserve, 0, true, false,
          map i: nat | i < k :: Thread(i), {}, None, None, BusyThreads(k), [], [], [])
  }

  function BusyCores(n: nat, k: nat): seq<Core> {
    seq(n, i requires 0 <= i < n => Core(Work, i + 1, i < k, if i < k then 1 else 0, 0, false))
  }

  function BusyThreads(k: nat): seq<Pc> {
    seq(k, i requires 0 <= i < k => Holding(i))
  }

  /** And another caller is on its way, with or without the pool lock. */
  function Arriving(n: nat, maxReserve: nat, k: nat, pc: Pc, inside: bool): State
    requires k <= n
  {
    Busy(n, maxReserve, k).(threads := BusyThreads(k) + [pc], readers := if inside then {k} else {})
  }

  lemma CallerStarts(n: nat, maxReserve: nat, k: nat)
    requires k <= n && Reaches(n, maxReserve, Busy(n, maxReserve, k))
    ensures Reaches(n, maxReserve, Arriving(n, maxReserve, k, WorkStart(Caller), false))
  {
    ReachesNext(n, maxReserve, Busy(n, maxReserve, k), NewThread(WorkStart(Caller)),
                Arriving(n, maxReserve, k, WorkStart(Caller), false));
  }

  lemma Moves(n: nat, maxReserve: nat, k: nat, pc: Pc, inside: bool, choice: Choice, pc': Pc, inside': bool)
    requires k <= n && Reaches(n, maxReserve, Arriving(n, maxReserve, k, pc, inside))
    requires StepThread(Arriving(n, maxReserve, k, pc, inside), k, choice) ==
               Some(Arriving(n, maxReserve, k, pc, inside).(
                 threads := Arriving(n, maxReserve, k, pc, inside).threads[k := pc'],
                 readers := if inside' then {k} else {}))
    ensures Reaches(n, maxReserve, Arriving(n, maxReserve, k, pc', inside'))
  {
    hide Reaches, StepThread;
    var s := Arriving(n, maxReserve, k, pc, inside);
    assert s.threads[k := pc'] == BusyThreads(k) + [pc'];
    ReachesNext(n, maxReserve, s, Run(k, choice), Arriving(n, maxReserve, k, pc', inside'));
  }

  /** The scan passes the cores in use. */
  lemma {:induction false} ScanPasses(n: nat, maxReserve: nat, k: nat, i: nat)
    requires i <= k <= n
    requires Reaches(n, maxReserve, Arriving(n, maxReserve, k, WorkScan(Caller, 0, -1, 1), true))
    ensures Reaches(n, maxReserve, Arriving(n, maxReserve, k, WorkScan(Caller, i, -1, 1), true))
  {
    hide Reaches;
    if i > 0 {
      ScanPasses(n, maxReserve, k, i - 1);
      Moves(n, maxReserve, k, WorkScan(Caller, i - 1, -1, 1), true, Go(0), WorkScan(Caller, i, -1, 1), true);
    }
  }

  /** The next free core is found, locked and counted. */
  lemma CallerTakes(n: nat, maxReserve: nat, k: nat)
    requires k < n && Reaches(n, maxReserve, Busy(n, maxReserve, k))
    ensures Reaches(n, maxReserve, Busy(n, maxReserve, k + 1))
  {
    hide Reaches;
    CallerStarts(n, maxReserve, k);
    assert Arriving(n, maxReserve, k, WorkStart(Caller), false).readers + {k} == {k};
    Moves(n, maxReserve, k, WorkStart(Caller), false, Go(0), WorkScan(Caller, 0, -1, 1), true);
    ScanPasses(n, maxReserve, k, k);
    Moves(n, maxReserve, k, WorkScan(Caller, k, -1, 1), true, Go(0), Locking(Caller, k), true);
    CallerLocks(n, maxReserve, k);
  }

  lemma CallerLocks(n: nat, maxReserve: nat, k: nat)
    requires k < n && Reaches(n, maxReserve, Arriving(n, maxReserve, k, Locking(Caller, k), true))
    ensures Reaches(n, maxReserve, Busy(n, maxReserve, k + 1))
  {
    hide Reaches;
    var s0 := Arriving(n, maxReserve, k, Locking(Caller, k), true);
    var s1 := Lock(s0, k, Caller, k);
    ReachesNext(n, maxReserve, s0, Run(k, Go(0)), s1);
    var s2 := StepLocked(s1, k, Caller, k, 0).value;
    ReachesNext(n, maxReserve, s1, Run(k, Go(0)), s2);
    var s3 := StepCounted(s2, k, Caller, k).value;
    ReachesNext(n, maxReserve, s2, Run(k, Go(0)), s3);
    var s4 := Busy(n, maxReserve, k + 1);
    assert s3.cores == s4.cores && s3.threads == s4.threads;
    assert s3.owner == s4.owner && s3.readers == s4.readers;
  }

  lemma {:induction false} AllCoresTaken(n: nat, maxReserve: nat, k: nat)
    requires k <= n
    ensures Reaches(n, maxReserve, Busy(n, maxReserve, k))
  {
    hide Reaches;
    if k == 0 {
      ReachesInitial(n, maxReserve);
      assert Busy(n, maxReserve, 0) == Initial(n, maxReserve);
    } else {
      AllCoresTaken(n, maxReserve, k - 1);
      CallerTakes(n, maxReserve, k - 1);
    }
  }

  // ----- One more caller waits -----

  /** With all work cores in use, one more caller looks for a reserve core. */
  lemma CallerFindsNone(n: nat, maxReserve: nat)
    ensures Reaches(n, maxReserve, Arriving(n, maxReserve, n, StartReserve(Caller), false))
  {
    hide Reaches;
    AllCoresTaken(n, maxReserve, n);
    CallerStarts(n, maxReserve, n);
    if n == 0 {
      Moves(n, maxReserve, n, WorkStart(Caller), false, Go(0), ReserveStart(Caller), false);
    } else {
      assert Arriving(n, maxReserve, n, WorkStart(Caller), false).readers + {n} == {n};
      Moves(n, maxReserve, n, WorkStart(Caller), false, Go(0), WorkScan(Caller, 0, -1, 1), true);
      ScanPasses(n, maxReserve, n, n);
      Moves(n, maxReserve, n, WorkScan(Caller, n, -1, 1), true, Go(0), ReserveStart(Caller), false);
    }
    assert Arriving(n, maxReserve, n, ReserveStart(Caller), false).readers + {n} == {n};
    Moves(n, maxReserve, n, ReserveStart(Caller), false, Go(0), ReserveScan(Caller, 0), true);
    Moves(n, maxReserve, n, ReserveScan(Caller, 0), true, Go(0), StartReserve(Caller), false);
  }

  /** All work cores are in use, and one more caller waits: a reserve core is not allowed, or could not be started. */
  function OneWaits(n: nat, maxReserve: nat): State {
    Busy(n, maxReserve, n).(threads := BusyThreads(n) + [Waiting(0)], nextSeq := if maxReserve > 0 then 1 else 0,
                            requests := [Request(None, false, false)], queue := [0])
  }

  lemma CallerWaits(n: nat, maxReserve: nat)
    ensures Reaches(n, maxReserve, OneWaits(n, maxReserve))
  {
    hide Reaches;
    CallerFindsNone(n, maxReserve);
    var s0 := Arriving(n, maxReserve, n, StartReserve(Caller), false);
    var s1 := StepStartReserve(s0, n, Caller, Otherwise).value;
    ReachesNext(n, maxReserve, s0, Run(n, Otherwise), s1);
    var s2 := StepEnqueue(s1, n).value;
    ReachesNext(n, maxReserve, s1, Run(n, Go(0)), s2);
    assert s2.threads == OneWaits(n, maxReserve).threads;
    assert s2.queue == [0] && s2.requests == [Request(None, false, false)];
  }

  // ----- The pool is closed -----

  /** Whatever the number of work cores and of reserve cores allowed, a run ends with a caller being given a nil core. */
  lemma NilCoreIsReached(n: nat, maxReserve: nat)
    ensures exists s, t :: Reaches(n, maxReserve, s) && 0 <= t < |s.threads| && s.threads[t] == NilCore
  {
    hide Reaches;
    CallerWaits(n, maxReserve);
    var s0 := OneWaits(n, maxReserve);
    var s1 := s0.(threads := s0.threads + [CloseStart]);
    ReachesNext(n, maxReserve, s0, NewThread(CloseStart), s1);
    var s2 := StepCloseStart(s1, n + 1).value;
    ReachesNext(n, maxReserve, s1, Run(n + 1, Go(0)), s2);
    var s3 := StepCloseQueue(s2, n + 1).value;
    ReachesNext(n, maxReserve, s2, Run(n + 1, Go(0)), s3);
    var s4 := At(s3, n, NilCore);
    ReachesNext(n, maxReserve, s3, Run(n, Go(0)), s4);
    assert s4.threads[n] == NilCore;
  }

  // ----- A caller that comes too late -----

  /** The pool is closed for good, nobody has a core, and thread `t` waits with its request in the queue. */
  ghost predicate WaitsTooLate(s: State, t: nat, r: nat) {
    s.stopped && s.maxReserve == 0 && s.owner.Keys == {} && StillWaits(s, t, r)
  }

  /** Thread `t` waits with its request in the queue, and nobody is about to close the queue. */
  ghost predicate StillWaits(s: State, t: nat, r: nat) {
    && (forall v | 0 <= v < |s.threads| :: !s.threads[v].CloseQueue?)
    && t < |s.threads| && s.threads[t] == Waiting(r)
    && r < |s.requests| && r in s.queue && !s.requests[r].ctxDone
  }

  lemma NobodyHands(s: State, u: nat)
    requires Inv(s) && s.owner.Keys == {} && u < |s.threads|
    ensures !s.threads[u].Handing?
  {
    OwnedFacts(s, u);
    hide Inv;
  }

  lemma EnqueuePasses(s: State, t: nat, r: nat, u: nat, s': State)
    requires StillWaits(s, t, r) && u < |s.threads| && u != t && StepEnqueue(s, u) == Some(s')
    ensures StillWaits(s', t, r)
  {
  }

  lemma WaitingPasses(s: State, t: nat, r: nat, u: nat, q: nat, choice: Choice, s': State)
    requires StillWaits(s, t, r) && u < |s.threads| && u != t && StepWaiting(s, u, q, choice) == Some(s')
    ensures StillWaits(s', t, r)
  {
  }

  lemma CancellingPasses(s: State, t: nat, r: nat, u: nat, q: nat, s': State)
    requires StillWaits(s, t, r) && u < |s.threads| && u != t && q != r && StepCancelling(s, u, q) == Some(s')
    requires QueueOk(s)
    ensures StillWaits(s', t, r)
  {
    WithoutKeepsOrder(s.queue, q);
  }

  lemma OtherTicket(s: State, t: nat, r: nat, u: nat, q: nat)
    requires Tickets(s) && t < |s.threads| && s.threads[t] == Waiting(r)
    requires u < |s.threads| && u != t && s.threads[u] == Cancelling(q)
    ensures q != r
  {
    assert Ticket(s.threads[t]) != Ticket(s.threads[u]);
  }

  lemma LeavesPasses(s: State, t: nat, r: nat, u: nat, s': State)
    requires StillWaits(s, t, r) && s.stopped && u < |s.threads| && u != t && LeavesQueue(s, u, s')
    ensures StillWaits(s', t, r)
  {
  }

  lemma OthersPassBy(s: State, t: nat, r: nat, u: nat, choice: Choice, s': State)
    requires Inv(s) && Tickets(s) && WaitsTooLate(s, t, r) && u < |s.threads| && u != t
    requires StepThread(s, u, choice) == Some(s')
    ensures StillWaits(s', t, r)
  {
    NobodyHands(s, u);
    HasQueue(s);
    assert StillWaits(s, t, r) && s.stopped;
    hide Inv, QueueOk, Tickets, StillWaits, WaitsTooLate, StepThread;
    if TouchesQueue(s.threads[u]) {
      TouchersPassBy(s, t, r, u, choice, s');
    } else {
      StepLeaves(s, u, choice, s');
      LeavesPasses(s, t, r, u, s');
    }
  }

  lemma TouchersPassBy(s: State, t: nat, r: nat, u: nat, choice: Choice, s': State)
    requires QueueOk(s) && Tickets(s) && StillWaits(s, t, r) && u < |s.threads| && u != t
    requires TouchesQueue(s.threads[u]) && !s.threads[u].Handing? && StepThread(s, u, choice) == Some(s')
    ensures StillWaits(s', t, r)
  {
    assert s.threads[t] == Waiting(r) && !s.threads[u].CloseQueue?;
    hide QueueOk, Tickets, StillWaits, StepEnqueue, StepWaiting, StepCancelling;
    match s.threads[u] {
      case Enqueue => EnqueuePasses(s, t, r, u, s');
      case Waiting(q) => WaitingPasses(s, t, r, u, q, choice, s');
      case Cancelling(q) =>
        OtherTicket(s, t, r, u, q);
        CancellingPasses(s, t, r, u, q, s');
    }
  }

  lemma TooLateStays(s: State, t: nat, r: nat, a: Action, s': State)
    requires Inv(s) && Tickets(s) && WaitsTooLate(s, t, r) && Step(s, a) == Some(s') && a != CancelContext(r)
    ensures WaitsTooLate(s', t, r)
  {
    StepFacts(s, a, s');
    ClosedPoolLocksNothing(s, a, s');
    if a.Run? && a.t != t {
      hide Inv, StepThread;
      OthersPassBy(s, t, r, a.t, a.choice, s');
    } else if a.Run? {
      HasQueue(s);
      hide Inv;
    } else {
      hide Inv, StepThread;
    }
  }

  lemma {:induction false} TooLateForGood(s: State, t: nat, r: nat, more: seq<Action>)
    requires Inv(s) && Tickets(s) && WaitsTooLate(s, t, r) && RunAll(s, more).Some? && CancelContext(r) !in more
    ensures var s' := RunAll(s, more).value; Inv(s') && Tickets(s') && WaitsTooLate(s', t, r)
  {
    hide Step, Inv, Tickets, WaitsTooLate;
    if more != [] {
      var before, a := more[..|more| - 1], more[|more| - 1];
      TooLateForGood(s, t, r, before);
      var s0, s1 := RunAll(s, before).value, RunAll(s, more).value;
      StepInv(s0, a, s1);
      StepTickets(s0, a, s1);
      TooLateStays(s0, t, r, a, s1);
    }
  }

  lemma TooLateCannotStep(s: State, t: nat, r: nat, choice: Choice)
    requires Inv(s) && Tickets(s) && WaitsTooLate(s, t, r)
    ensures StepThread(s, t, choice).None?
  {
    HasQueue(s);
    hide Inv;
  }

  /** Such a caller waits until its own context is done, whatever else happens. */
  lemma LateCallerWaits(n: nat, actions: seq<Action>, s: State, t: nat, r: nat, more: seq<Action>, choice: Choice)
    requires RunAll(Initial(n, 0), actions) == Some(s) && WaitsTooLate(s, t, r)
    requires RunAll(s, more).Some? && CancelContext(r) !in more
    ensures WaitsTooLate(RunAll(s, more).value, t, r) && StepThread(RunAll(s, more).value, t, choice).None?
  {
    hide RunAll, Inv, Tickets, WaitsTooLate;
    RunInv(n, 0, actions);
    RunTickets(n, 0, actions);
    TooLateForGood(s, t, r, more);
    TooLateCannotStep(RunAll(s, more).value, t, r, choice);
  }

  /** For every number of work cores a caller does come too late, when no reserve cores are allowed. */
  lemma TooLateIsReached(n: nat)
    ensures exists s :: Reaches(n, 0, s) && WaitsTooLate(s, 1, 0)
  {
    ReachesClosed(n, 0, 0);
    hide RunAll;
    var s0 := ClosedState(n, 0);
    assert Reaches(n, 0, s0);
    var s1 := At(s0, 1, Enqueue);
    ReachesNext(n, 0, s0, Run(1, Go(0)), s1);
    var s2 := StepEnqueue(s1, 1).value;
    ReachesNext(n, 0, s1, Run(1, Go(0)), s2);
    assert s2.queue == [0];
    assert WaitsTooLate(s2, 1, 0);
  }
}
