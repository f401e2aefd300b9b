/**
 What Close leaves of the worker pool: when a closed pool still gives out cores, and who is given
 a nil core.
 */
module PoolClosing {
  import opened Options
  import opened Pool
  import opened PoolProgress
  import opened PoolSafety
  import opened PoolTickets

  // ----- A closed pool without reserve cores gives out nothing -----

  /** A closed pool that may not have reserve cores locks no core that is not locked already. */
  lemma ClosedPoolLocksNothing(s: State, a: Action, s': State)
    requires Inv(s) && Step(s, a) == Some(s') && s.stopped && s.maxReserve == 0
    ensures s'.owner.Keys <= s.owner.Keys
  {
    StepFacts(s, a, s');
    if a.Run? {
      NothingListed(s, a.t);
    }
    hide Inv, Step;
  }

  lemma NothingListed(s: State, t: nat)
    requires Inv(s) && s.stopped && s.maxReserve == 0 && t < |s.threads|
    ensures s.reserve == [] && !s.threads[t].Locking? && !s.threads[t].Trying?
  {
    hide Owners, Counters, Locks, Closed, QueueOk;
    assert ScanOk(s, s.threads[t]);
  }

  // ----- With reserve cores it does -----

  /** Close, and then a caller up to the point where it starts a reserve core. */
  function ClosingRun(now: int): seq<Action> {
    [NewThread(CloseStart), Run(0, Go(now)), Run(0, Go(now)), NewThread(WorkStart(Caller)),
     Run(1, Go(now)), Run(1, Go(now)), Run(1, Go(now))]
  }

  function ClosedState(n: nat, maxReserve: nat): State {
    var s := Initial(n, maxReserve);
    s.(cores := CloseListed(s), work := [], ready := false, stopped := true, requests := [],
       threads := [Finished, StartReserve(Caller)])
  }

  lemma RunNext(s: State, actions: seq<Action>, a: Action, s1: State)
    requires RunAll(s, actions) == Some(s1)
    ensures RunAll(s, actions + [a]) == Step(s1, a)
  {
    hide Step;
    assert (actions + [a])[..|actions|] == actions;
  }

  lemma ReachesClosed(n: nat, maxReserve: nat, now: int)
    ensures RunAll(Initial(n, maxReserve), ClosingRun(now)) == Some(ClosedState(n, maxReserve))
  {
    hide RunAll;
    var run := ClosingRun(now);
    var s0 := Initial(n, maxReserve);
    RunNothing(s0);
    var s1 := s0.(threads := [CloseStart]);
    RunNext(s0, run[..0], run[0], s0);
    assert run[..0] + [run[0]] == run[..1] && s0.threads + [CloseStart] == s1.threads;
    var s2 := StepCloseStart(s1, 0).value;
    RunNext(s0, run[..1], run[1], s1);
    assert run[..1] + [run[1]] == run[..2];
    var s3 := StepCloseQueue(s2, 0).value;
    RunNext(s0, run[..2], run[2], s2);
    assert run[..2] + [run[2]] == run[..3];
    CallerArrives(n, maxReserve, now, s0, s1, s2, s3);
  }

  lemma RunNothing(s: State)
    ensures RunAll(s, []) == Some(s)
  {
  }

  lemma CallerArrives(n: nat, maxReserve: nat, now: int, s0: State, s1: State, s2: State, s3: State)
    requires s0 == Initial(n, maxReserve) && s1 == s0.(threads := [CloseStart])
    requires StepCloseStart(s1, 0) == Some(s2) && StepCloseQueue(s2, 0) == Some(s3)
    requires RunAll(s0, ClosingRun(now)[..3]) == Some(s3)
    ensures RunAll(s0, ClosingRun(now)) == Some(ClosedState(n, maxReserve))
  {
    hide RunAll;
    var run := ClosingRun(now);
    assert CloseListed(s1) == CloseListed(s0);
    assert s3.threads == [Finished] && s3.requests == [];
    var s4 := s3.(threads := [Finished, WorkStart(Caller)]);
    RunNext(s0, run[..3], run[3], s3);
    assert run[..3] + [run[3]] == run[..4] && s3.threads + [WorkStart(Caller)] == s4.threads;
    var s5 := s4.(threads := [Finished, ReserveStart(Caller)]);
    RunNext(s0, run[..4], run[4], s4);
    assert run[..4] + [run[4]] == run[..5] && s4.threads[1 := ReserveStart(Caller)] == s5.threads;
    var s6 := s5.(threads := [Finished, ReserveScan(Caller, 0)], readers := {1});
    RunNext(s0, run[..5], run[5], s5);
    assert s5.readers + {1} == {1};
    assert run[..5] + [run[5]] == run[..6] && s5.threads[1 := ReserveScan(Caller, 0)] == s6.threads;
    var s7 := ClosedState(n, maxReserve);
    RunNext(s0, run[..6], run[6], s6);
    assert run[..6] + [run[6]] == run && s6.threads[1 := StartReserve(Caller)] == s7.threads;
    assert s6.readers - {1} == {};
  }

  /** The action locks a core although the pool is closed by then. */
  ghost predicate LocksAfterClose(n: nat, maxReserve: nat, actions: seq<Action>, a: Action) {
    var r := RunAll(Initial(n, maxReserve), actions);
    && r.Some? && r.value.stopped && Step(r.value, a).Some?
    && !(Step(r.value, a).value.owner.Keys <= r.value.owner.Keys)
  }

  /** A closed pool with reserve cores allowed can give a later caller a new core that is open, counted and its own. */
  lemma ClosedPoolStillStartsCores(n: nat, maxReserve: nat, now: int)
    requires maxReserve > 0
    ensures LocksAfterClose(n, maxReserve, ClosingRun(now), Run(1, Go(now)))
    ensures var s' := Step(ClosedState(n, maxReserve), Run(1, Go(now))).value;
      s'.threads[1] == Holding(n) && |s'.cores| == n + 1 && !s'.cores[n].closed && s'.cores[n].active == 1
  {
    ReachesClosed(n, maxReserve, now);
    hide RunAll, ClosingRun;
    var s := ClosedState(n, maxReserve);
    var s' := Step(s, Run(1, Go(now))).value;
    assert n in s'.owner.Keys && n !in s.owner.Keys;
  }

  /** Exactly when a closed pool can give out another core: when reserve cores are allowed. */
  lemma ClosedPoolExactly(n: nat, maxReserve: nat)
    ensures (exists actions, a :: LocksAfterClose(n, maxReserve, actions, a)) <==> maxReserve > 0
  {
    if maxReserve > 0 {
      ClosedPoolStillStartsCores(n, maxReserve, 0);
    } else {
      forall actions, a ensures !LocksAfterClose(n, maxReserve, actions, a) {
        var r := RunAll(Initial(n, maxReserve), actions);
        if r.Some? && r.value.stopped && Step(r.value, a).Some? {
          RunInv(n, maxReserve, actions);
          MaxReserveFixed(n, maxReserve, actions);
          ClosedPoolLocksNothing(r.value, a, Step(r.value, a).value);
        }
      }
    }
  }

  // ----- Nil cores -----

  /** Channels are closed, and nil cores given out, by Close only. */
  ghost predicate NilOk(s: State) {
    && (forall r | 0 <= r < |s.requests| && s.requests[r].channelClosed :: s.stopped)
    && (forall t | 0 <= t < |s.threads| && s.threads[t] == NilCore :: s.stopped)
  }

  lemma StepNil(s: State, a: Action, s': State)
    requires Inv(s) && NilOk(s) && Step(s, a) == Some(s')
    ensures NilOk(s')
  {
    hide Inv, Step;
    if a.Run? {
      StepFacts(s, a, s');
      CloserHasStopped(s, a.t);
    } else {
      ArrivalNil(s, a, s');
    }
  }

  lemma ArrivalNil(s: State, a: Action, s': State)
    requires NilOk(s) && Step(s, a) == Some(s') && !a.Run?
    ensures NilOk(s')
  {
    hide StepThread;
  }

  lemma CloserHasStopped(s: State, t: nat)
    requires Inv(s) && t < |s.threads|
    ensures s.threads[t] == CloseQueue ==> s.stopped
  {
    hide Owners, Counters, Locks, Lists, Closed, QueueOk;
    assert ScanOk(s, s.threads[t]);
  }

  lemma {:induction false} RunNil(n: nat, maxReserve: nat, actions: seq<Action>)
    requires RunAll(Initial(n, maxReserve), actions).Some?
    ensures NilOk(RunAll(Initial(n, maxReserve), actions).value)
  {
    hide Step, Inv;
    if actions != [] {
      var before := actions[..|actions| - 1];
      RunNil(n, maxReserve, before);
      RunInv(n, maxReserve, before);
      StepNil(RunAll(Initial(n, maxReserve), before).value, actions[|actions| - 1],
              RunAll(Initial(n, maxReserve), actions).value);
    }
  }

  /** A caller is given a nil core without an error only once the pool is closed, and then every waiting caller whose
      channel is closed and empty can be: exactly those whose request left the queue when Close closed it. */
  lemma NilCoreMeansClosed(n: nat, maxReserve: nat, actions: seq<Action>, s: State, t: nat, now: int)
    requires RunAll(Initial(n, maxReserve), actions) == Some(s) && t < |s.threads|
    ensures s.threads[t] == NilCore ==> s.stopped
    ensures AwaitsClosed(s, t) && s.requests[s.threads[t].ticket].buffer.None? ==> s.stopped && NextIsNil(s, t, now)
    ensures s.threads[t].Waiting? ==>
      (NextIsNil(s, t, now) <==> s.threads[t].ticket !in s.queue && s.threads[t].ticket !in s.popped) &&
      (NextIsNil(s, t, now) ==> s.stopped)
  {
    RunNil(n, maxReserve, actions);
    if s.threads[t].Waiting? {
      NilCoreExactly(n, maxReserve, actions, s, t, s.threads[t].ticket, now);
    }
    hide RunAll;
  }
}
