/**
 A core that was delivered to a waiting caller while its context ends: exactly when such a core is lost
 to the worker pool.
 */
module PoolLeak {
  import opened Options
  import opened Pool
  import opened PoolSafety
  import opened PoolTickets
  import opened PoolNil

  /** The core is in the channel of request `r`. */
  predicate Buffered(s: State, r: nat, c: nat) {
    r < |s.requests| && s.requests[r].buffer == Some(c)
  }

  ghost predicate SomeoneWaits(s: State, r: nat) {
    exists t | 0 <= t < |s.threads| :: s.threads[t] == Waiting(r)
  }

  /** And nobody waits for it any more. */
  ghost predicate Stranded(s: State, r: nat, c: nat) {
    Buffered(s, r, c) && !SomeoneWaits(s, r)
  }

  lemma EnqueueStrands(s: State, t: nat, r: nat, c: nat, s': State)
    requires Stranded(s, r, c) && t < |s.threads| && StepEnqueue(s, t) == Some(s')
    ensures Stranded(s', r, c)
  {
  }

  lemma WaitingStrands(s: State, t: nat, r: nat, c: nat, q: nat, choice: Choice, s': State)
    requires Stranded(s, r, c) && t < |s.threads| && s.threads[t] == Waiting(q) && StepWaiting(s, t, q, choice) == Some(s')
    ensures Stranded(s', r, c)
  {
    assert q != r;
  }

  lemma CancellingStrands(s: State, t: nat, r: nat, c: nat, q: nat, s': State)
    requires Stranded(s, r, c) && t < |s.threads| && StepCancelling(s, t, q) == Some(s')
    ensures Stranded(s', r, c)
  {
  }

  lemma HandingStrands(s: State, t: nat, r: nat, c: nat, d: nat, choice: Choice, s': State)
    requires Stranded(s, r, c) && t < |s.threads| && StepHanding(s, t, d, choice) == Some(s')
    ensures Stranded(s', r, c)
  {
  }

  lemma CloseQueueStrands(s: State, t: nat, r: nat, c: nat, s': State)
    requires Stranded(s, r, c) && t < |s.threads| && StepCloseQueue(s, t) == Some(s')
    ensures Stranded(s', r, c)
  {
  }

  lemma LeavesStrands(s: State, t: nat, r: nat, c: nat, s': State)
    requires Stranded(s, r, c) && t < |s.threads| && LeavesQueue(s, t, s')
    ensures Stranded(s', r, c)
  {
    forall u | 0 <= u < |s'.threads| ensures s'.threads[u] != Waiting(r) {
      assert Ticket(s'.threads[u]).None? || (u < |s.threads| && s'.threads[u] == s.threads[u]);
    }
  }

  lemma ThreadStrands(s: State, t: nat, r: nat, c: nat, choice: Choice, s': State)
    requires Stranded(s, r, c) && StepThread(s, t, choice) == Some(s')
    ensures Stranded(s', r, c)
  {
    hide Stranded, LeavesQueue, StepEnqueue, StepWaiting, StepCancelling, StepHanding, StepCloseQueue;
    match s.threads[t] {
      case Enqueue => EnqueueStrands(s, t, r, c, s');
      case Waiting(q) => WaitingStrands(s, t, r, c, q, choice, s');
      case Cancelling(q) => CancellingStrands(s, t, r, c, q, s');
      case Handing(d) => HandingStrands(s, t, r, c, d, choice, s');
      case CloseQueue => CloseQueueStrands(s, t, r, c, s');
      case _ =>
        hide StepThread;
        StepLeaves(s, t, choice, s');
        LeavesStrands(s, t, r, c, s');
    }
  }

  lemma StepStrands(s: State, r: nat, c: nat, a: Action, s': State)
    requires Stranded(s, r, c) && Step(s, a) == Some(s')
    ensures Stranded(s', r, c)
  {
    hide StepThread;
    if a.Run? {
      hide Stranded;
      ThreadStrands(s, a.t, r, c, a.choice, s');
    }
  }

  lemma {:induction false} StaysStranded(s: State, r: nat, c: nat, more: seq<Action>)
    requires Stranded(s, r, c) && RunAll(s, more).Some?
    ensures Stranded(RunAll(s, more).value, r, c)
  {
    hide Step, Stranded;
    if more != [] {
      var before := more[..|more| - 1];
      StaysStranded(s, r, c, before);
      StepStrands(RunAll(s, before).value, r, c, more[|more| - 1], RunAll(s, more).value);
    }
  }

  /** The core leaves the channel in some continuation. */
  ghost predicate ComesBack(s: State, r: nat, c: nat) {
    exists more :: RunAll(s, more).Some? && !Buffered(RunAll(s, more).value, r, c)
  }

  /** A delivered core can ever be used again exactly if a caller still waits for it. */
  lemma ComesBackExactly(s: State, r: nat, c: nat)
    requires Buffered(s, r, c)
    ensures ComesBack(s, r, c) <==> SomeoneWaits(s, r)
  {
    if SomeoneWaits(s, r) {
      var t :| 0 <= t < |s.threads| && s.threads[t] == Waiting(r);
      var s' := StepWaiting(s, t, r, Go(0)).value;
      assert StepThread(s, t, Go(0)) == Some(s');
      assert RunAll(s, []) == Some(s);
      RunOne(s, Run(t, Go(0)));
      assert RunAll(s, [Run(t, Go(0))]) == Some(s') && !Buffered(s', r, c);
    } else {
      forall more | RunAll(s, more).Some? ensures Buffered(RunAll(s, more).value, r, c) {
        StaysStranded(s, r, c, more);
      }
    }
  }

  lemma RunOne(s: State, a: Action)
    ensures RunAll(s, [a]) == Step(s, a)
  {
    hide Step;
    assert [a][..0] == [];
    assert RunAll(s, []) == Some(s);
  }

  /** Over every run: the core of a request that nobody waits for stays locked and counted for good. */
  lemma StrandedIsLocked(n: nat, maxReserve: nat, actions: seq<Action>, s: State, r: nat, c: nat)
    requires RunAll(Initial(n, maxReserve), actions) == Some(s) && Buffered(s, r, c)
    ensures c < |s.cores| && s.cores[c].locked && s.cores[c].active == 1
  {
    RunInv(n, maxReserve, actions);
    hide RunAll, Locks, Lists, Scans, Closed, QueueOk;
  }

  // ----- Such a core -----

  /** One caller waits, the first work core is free, and the dispatcher `d` is at `pc` on its way to it. */
  ghost predicate Coming(s: State, t: nat, d: nat, pc: Pc, free: bool) {
    && t < |s.threads| && d < |s.threads| && t != d && s.threads[t] == Waiting(0) && s.threads[d] == pc
    && (forall u | 0 <= u < |s.threads| && u != t :: !s.threads[u].Waiting?)
    && s.requests == [Request(None, false, false)] && s.queue == [0]
    && s.ready && |s.work| > 0 && s.work[0] == 0 && |s.cores| > 0
    && s.writer.None? && (free ==> !s.cores[0].locked && s.cores[0].active == 0)
  }

  lemma DispatcherStarts(n: nat, maxReserve: nat)
    requires n > 0
    ensures exists s :: Reaches(n, maxReserve, s) && Coming(s, n, n + 1, WorkStart(Dispatcher), true)
  {
    hide Reaches;
    CallerWaits(n, maxReserve);
    var s0 := OneWaits(n, maxReserve);
    var s1 := StepRelease(s0, 0, Caller, 0).value;
    ReachesNext(n, maxReserve, s0, Run(0, Go(0)), s1);
    var s2 := StepUnlocking(s1, 0, Caller, 0, 0).value;
    ReachesNext(n, maxReserve, s1, Run(0, Go(0)), s2);
    var s3 := StepDispatchStart(s2, n + 1).value;
    ReachesNext(n, maxReserve, s2, Run(n + 1, Go(0)), s3);
    var s4 := StepDispatchLoop(s3, n + 1).value;
    ReachesNext(n, maxReserve, s3, Run(n + 1, Go(0)), s4);
    assert Coming(s4, n, n + 1, WorkStart(Dispatcher), true);
  }

  lemma DispatcherTakes(n: nat, maxReserve: nat, s: State, t: nat, d: nat)
    requires Reaches(n, maxReserve, s) && Coming(s, t, d, WorkStart(Dispatcher), true)
    ensures exists s' :: Reaches(n, maxReserve, s') && Coming(s', t, d, Handing(0), false)
  {
    hide Reaches;
    var s1 := StepWorkStart(s, d, Dispatcher).value;
    ReachesNext(n, maxReserve, s, Run(d, Go(0)), s1);
    var s2 := StepWorkScan(s1, d, Dispatcher, 0, -1, 1).value;
    ReachesNext(n, maxReserve, s1, Run(d, Go(0)), s2);
    assert Coming(s2, t, d, Locking(Dispatcher, 0), true);
    DispatcherLocks(n, maxReserve, s2, t, d);
  }

  lemma DispatcherLocks(n: nat, maxReserve: nat, s: State, t: nat, d: nat)
    requires Reaches(n, maxReserve, s) && Coming(s, t, d, Locking(Dispatcher, 0), true)
    ensures exists s' :: Reaches(n, maxReserve, s') && Coming(s', t, d, Handing(0), false)
  {
    hide Reaches;
    var s1 := StepLocking(s, d, Dispatcher, 0).value;
    ReachesNext(n, maxReserve, s, Run(d, Go(0)), s1);
    var s2 := StepLocked(s1, d, Dispatcher, 0, 0).value;
    ReachesNext(n, maxReserve, s1, Run(d, Go(0)), s2);
    var s3 := StepCounted(s2, d, Dispatcher, 0).value;
    ReachesNext(n, maxReserve, s2, Run(d, Go(0)), s3);
    assert Coming(s3, t, d, Handing(0), false);
  }

  /** The core is delivered, the context ends, and the caller takes that branch. */
  lemma CallerLeaves(n: nat, maxReserve: nat, s: State, t: nat, d: nat)
    requires Reaches(n, maxReserve, s) && Coming(s, t, d, Handing(0), false)
    ensures exists s' :: Reaches(n, maxReserve, s') && Stranded(s', 0, 0)
  {
    hide Reaches;
    var s1 := StepHanding(s, d, 0, Go(0)).value;
    ReachesNext(n, maxReserve, s, Run(d, Go(0)), s1);
    var s2 := SetRequest(s1, 0, s1.requests[0].(ctxDone := true));
    ReachesNext(n, maxReserve, s1, CancelContext(0), s2);
    var s3 := StepWaiting(s2, t, 0, Otherwise).value;
    ReachesNext(n, maxReserve, s2, Run(t, Otherwise), s3);
    assert Stranded(s3, 0, 0);
  }

  /** Every pool with a work core can lose it this way. */
  lemma LeakIsReached(n: nat, maxReserve: nat)
    requires n > 0
    ensures exists s :: Reaches(n, maxReserve, s) && Stranded(s, 0, 0)
  {
    hide Reaches, Coming, Stranded;
    DispatcherStarts(n, maxReserve);
    var s :| Reaches(n, maxReserve, s) && Coming(s, n, n + 1, WorkStart(Dispatcher), true);
    DispatcherTakes(n, maxReserve, s, n, n + 1);
    var s' :| Reaches(n, maxReserve, s') && Coming(s', n, n + 1, Handing(0), false);
    CallerLeaves(n, maxReserve, s', n, n + 1);
  }
}
