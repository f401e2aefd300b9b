/**
 A caller of the worker pool can wait while every work core is idle: it queues after the last release has
 looked at the queue.
 */
module PoolWakeup {
  import opened Options
  import opened Pool
  import opened PoolSafety
  import opened PoolNil

  /** The first `k` callers have released their cores and their dispatchers have found an empty queue;
      caller `n`, who found all cores busy, is about to queue. */
  ghost predicate Releasing(s: State, n: nat, k: nat)
    requires k <= n
  {
    && |s.threads| > n && s.threads[n] == Enqueue
    && (forall i | 0 <= i < k :: s.threads[i] == Finished) && (forall i | k <= i < n :: s.threads[i] == Holding(i))
    && (forall i | n < i < |s.threads| :: s.threads[i] == Finished)
    && |s.cores| == n && |s.work| == n && (forall i | 0 <= i < n :: s.work[i] == i)
    && (forall i | 0 <= i < k :: !s.cores[i].locked && s.cores[i].active == 0)
    && (forall i | k <= i < n :: s.cores[i].active == 1)
    && (forall i | 0 <= i < n :: !s.cores[i].closed)
    && s.requests == [] && s.queue == [] && s.pendingHolder.None? && s.writer.None? && s.ready && !s.stopped
  }

  lemma AboutToQueue(n: nat, maxReserve: nat)
    ensures exists s :: Reaches(n, maxReserve, s) && Releasing(s, n, 0)
  {
    hide Reaches;
    CallerFindsNone(n, maxReserve);
    var s0 := Arriving(n, maxReserve, n, StartReserve(Caller), false);
    var s1 := StepStartReserve(s0, n, Caller, Otherwise).value;
    ReachesNext(n, maxReserve, s0, Run(n, Otherwise), s1);
    assert Releasing(s1, n, 0);
  }

  /** One release, and a dispatcher that finds nobody waiting. */
  lemma OneReleases(n: nat, maxReserve: nat, s: State, k: nat)
    requires k < n && Reaches(n, maxReserve, s) && Releasing(s, n, k)
    ensures exists s' :: Reaches(n, maxReserve, s') && Releasing(s', n, k + 1)
  {
    hide Reaches;
    var d := |s.threads|;
    var s1 := StepRelease(s, k, Caller, k).value;
    ReachesNext(n, maxReserve, s, Run(k, Go(0)), s1);
    var s2 := StepUnlocking(s1, k, Caller, k, 0).value;
    ReachesNext(n, maxReserve, s1, Run(k, Go(0)), s2);
    NobodyWaits(n, maxReserve, s2, k, d);
  }

  lemma NobodyWaits(n: nat, maxReserve: nat, s: State, k: nat, d: nat)
    requires k < n < d && |s.threads| == d + 1 && s.threads[d] == DispatchStart
    requires Reaches(n, maxReserve, s) && Releasing(At(s, d, Finished), n, k + 1)
    requires s.pendingHolder.None? && s.queue == []
    ensures exists s' :: Reaches(n, maxReserve, s') && Releasing(s', n, k + 1)
  {
    hide Reaches, Releasing;
    var s1 := StepDispatchStart(s, d).value;
    ReachesNext(n, maxReserve, s, Run(d, Go(0)), s1);
    var s2 := StepDispatchLoop(s1, d).value;
    ReachesNext(n, maxReserve, s1, Run(d, Go(0)), s2);
    assert s2 == At(s, d, Finished);
  }

  lemma {:induction false} AllRelease(n: nat, maxReserve: nat, k: nat)
    requires k <= n
    ensures exists s :: Reaches(n, maxReserve, s) && Releasing(s, n, k)
  {
    hide Reaches, Releasing;
    if k == 0 {
      AboutToQueue(n, maxReserve);
    } else {
      AllRelease(n, maxReserve, k - 1);
      var s :| Reaches(n, maxReserve, s) && Releasing(s, n, k - 1);
      OneReleases(n, maxReserve, s, k - 1);
    }
  }

  /** A caller waits in the queue of an open pool, every work core is idle and open, and no thread can take a step. */
  ghost predicate Overlooked(s: State, t: nat, r: nat) {
    && t < |s.threads| && s.threads[t] == Waiting(r) && r in s.queue && !s.stopped
    && (forall c | c in s.work && c < |s.cores| :: !s.cores[c].locked && s.cores[c].active == 0 && !s.cores[c].closed)
    && (forall u: nat, choice :: StepThread(s, u, choice).None?)
  }

  /** Whatever the number of work cores and of reserve cores allowed, a run ends like this. */
  lemma OverlookedIsReached(n: nat, maxReserve: nat)
    ensures exists s :: Reaches(n, maxReserve, s) && |s.work| == n && Overlooked(s, n, 0)
  {
    hide Reaches;
    AllRelease(n, maxReserve, n);
    var s :| Reaches(n, maxReserve, s) && Releasing(s, n, n);
    var s' := StepEnqueue(s, n).value;
    ReachesNext(n, maxReserve, s, Run(n, Go(0)), s');
    forall u: nat, choice ensures StepThread(s', u, choice).None? {
      if u < |s'.threads| && u != n {
        assert s'.threads[u] == Finished;
      }
    }
    assert s'.queue == [0];
    assert Overlooked(s', n, 0);
  }
}
