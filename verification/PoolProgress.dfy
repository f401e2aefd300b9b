/**
 What single steps of the worker pool can and cannot change, whatever else is going on: how many
 reserve cores are allowed, that the pool is closed, closed channels, nil cores, and who may lock a
 core that nobody has locked.
 */
module PoolProgress {
  import opened Options
  import opened Pool

  /** What a step of thread `t` does to these things. */
  ghost predicate Goes(s: State, t: nat, s': State)
    requires t < |s.threads|
  {
    && s'.maxReserve == s.maxReserve && (s.stopped ==> s'.stopped)
    && OnlyCloseCloses(s, t, s') && NilCoresAreNew(s, t, s')
    && (s'.owner.Keys <= s.owner.Keys || s.threads[t].Locking? || s.threads[t].Trying? || |s.reserve| < s.maxReserve)
  }

  /** Only Close closes the channel of a request. */
  ghost predicate OnlyCloseCloses(s: State, t: nat, s': State)
    requires t < |s.threads|
  {
    s.threads[t] == CloseQueue ||
    forall r | 0 <= r < |s'.requests| && s'.requests[r].channelClosed :: r < |s.requests| && s.requests[r].channelClosed
  }

  /** Only a waiting caller whose channel is closed is given a nil core. */
  ghost predicate NilCoresAreNew(s: State, t: nat, s': State)
    requires t < |s.threads|
  {
    forall u | 0 <= u < |s'.threads| && s'.threads[u] == NilCore ::
      u < |s.threads| && (s.threads[u] == NilCore || (u == t && AwaitsClosed(s, t)))
  }

  predicate AwaitsClosed(s: State, t: nat)
    requires t < |s.threads|
  {
    s.threads[t].Waiting? && s.threads[t].ticket < |s.requests| && s.requests[s.threads[t].ticket].channelClosed
  }

  /** A core that has been delivered but not received is owned. */
  ghost predicate BuffersAreOwned(s: State) {
    forall r | 0 <= r < |s.requests| && s.requests[r].buffer.Some? :: s.requests[r].buffer.value in s.owner
  }

  lemma WorkStartGoes(s: State, t: nat, who: Who, s': State)
    requires t < |s.threads| && StepWorkStart(s, t, who) == Some(s')
    ensures Goes(s, t, s')
  {
  }

  lemma WorkScanGoes(s: State, t: nat, who: Who, i: nat, best: int, m: int, s': State)
    requires t < |s.threads| && StepWorkScan(s, t, who, i, best, m) == Some(s')
    ensures Goes(s, t, s')
  {
  }

  lemma ReserveStartGoes(s: State, t: nat, who: Who, s': State)
    requires t < |s.threads| && StepReserveStart(s, t, who) == Some(s')
    ensures Goes(s, t, s')
  {
  }

  lemma ReserveScanGoes(s: State, t: nat, who: Who, i: nat, s': State)
    requires t < |s.threads| && StepReserveScan(s, t, who, i) == Some(s')
    ensures Goes(s, t, s')
  {
  }

  lemma TryingGoes(s: State, t: nat, who: Who, i: nat, s': State)
    requires t < |s.threads| && StepTrying(s, t, who, i) == Some(s')
    requires s.threads[t].Trying?
    ensures Goes(s, t, s')
  {
  }

  lemma ReadStartGoes(s: State, t: nat, s': State)
    requires t < |s.threads| && StepReadStart(s, t) == Some(s')
    ensures Goes(s, t, s')
  {
  }

  lemma ReadScanGoes(s: State, t: nat, i: nat, best: int, m: int, s': State)
    requires t < |s.threads| && StepReadScan(s, t, i, best, m) == Some(s')
    ensures Goes(s, t, s')
  {
  }

  lemma LockingGoes(s: State, t: nat, who: Who, c: nat, s': State)
    requires t < |s.threads| && StepLocking(s, t, who, c) == Some(s')
    requires s.threads[t].Locking?
    ensures Goes(s, t, s')
  {
  }

  lemma LockedGoes(s: State, t: nat, who: Who, c: nat, now: int, s': State)
    requires t < |s.threads| && StepLocked(s, t, who, c, now) == Some(s')
    ensures Goes(s, t, s')
  {
  }

  lemma CountedGoes(s: State, t: nat, who: Who, c: nat, s': State)
    requires t < |s.threads| && StepCounted(s, t, who, c) == Some(s')
    ensures Goes(s, t, s')
  {
  }

  lemma StartReserveGoes(s: State, t: nat, who: Who, choice: Choice, s': State)
    requires t < |s.threads| && StepStartReserve(s, t, who, choice) == Some(s')
    ensures Goes(s, t, s')
  {
  }

  lemma EnqueueGoes(s: State, t: nat, s': State)
    requires t < |s.threads| && StepEnqueue(s, t) == Some(s')
    ensures Goes(s, t, s')
  {
  }

  lemma WaitingGoes(s: State, t: nat, r: nat, choice: Choice, s': State)
    requires t < |s.threads| && StepWaiting(s, t, r, choice) == Some(s')
    requires s.threads[t] == Waiting(r) && BuffersAreOwned(s)
    ensures Goes(s, t, s')
  {
  }

  lemma CancellingGoes(s: State, t: nat, r: nat, s': State)
    requires t < |s.threads| && StepCancelling(s, t, r) == Some(s')
    ensures Goes(s, t, s')
  {
  }

  lemma ReleaseGoes(s: State, t: nat, who: Who, c: nat, s': State)
    requires t < |s.threads| && StepRelease(s, t, who, c) == Some(s')
    ensures Goes(s, t, s')
  {
  }

  lemma UnlockingGoes(s: State, t: nat, who: Who, c: nat, now: int, s': State)
    requires t < |s.threads| && StepUnlocking(s, t, who, c, now) == Some(s')
    ensures Goes(s, t, s')
  {
  }

  lemma DispatchStartGoes(s: State, t: nat, s': State)
    requires t < |s.threads| && StepDispatchStart(s, t) == Some(s')
    ensures Goes(s, t, s')
  {
  }

  lemma DispatchLoopGoes(s: State, t: nat, s': State)
    requires t < |s.threads| && StepDispatchLoop(s, t) == Some(s')
    ensures Goes(s, t, s')
  {
  }

  lemma HandingGoes(s: State, t: nat, c: nat, choice: Choice, s': State)
    requires t < |s.threads| && StepHanding(s, t, c, choice) == Some(s')
    requires c in s.owner
    ensures Goes(s, t, s')
  {
  }

  lemma CleanStartGoes(s: State, t: nat, now: int, s': State)
    requires t < |s.threads| && StepCleanStart(s, t, now) == Some(s')
    ensures Goes(s, t, s')
  {
  }

  lemma CleanScanGoes(s: State, t: nat, i: nat, remaining: seq<nat>, now: int, s': State)
    requires t < |s.threads| && StepCleanScan(s, t, i, remaining, now) == Some(s')
    ensures Goes(s, t, s')
  {
  }

  lemma CleanCloseGoes(s: State, t: nat, i: nat, remaining: seq<nat>, now: int, s': State)
    requires t < |s.threads| && StepCleanClose(s, t, i, remaining, now) == Some(s')
    ensures Goes(s, t, s')
  {
  }

  lemma CloseStartGoes(s: State, t: nat, s': State)
    requires t < |s.threads| && StepCloseStart(s, t) == Some(s')
    ensures Goes(s, t, s')
  {
  }

  lemma CloseQueueGoes(s: State, t: nat, s': State)
    requires t < |s.threads| && StepCloseQueue(s, t) == Some(s')
    requires s.threads[t] == CloseQueue
    ensures Goes(s, t, s')
  {
  }

  /** The thread has a core that it owns. */
  ghost predicate HandsItsOwn(s: State, t: nat)
    requires t < |s.threads|
  {
    s.threads[t].Handing? ==> s.threads[t].core in s.owner
  }

  lemma StepGoes(s: State, t: nat, choice: Choice, s': State)
    requires StepThread(s, t, choice) == Some(s') && BuffersAreOwned(s)
    requires t < |s.threads| && HandsItsOwn(s, t)
    ensures Goes(s, t, s')
  {
    hide StepWorkStart, StepWorkScan, StepReserveStart, StepReserveScan, StepTrying, StepReadStart, StepReadScan,
         StepLocking, StepLocked, StepCounted, StepStartReserve, StepEnqueue, StepWaiting, StepCancelling, StepRelease,
         StepUnlocking, StepDispatchStart, StepDispatchLoop, StepHanding, StepCleanStart, StepCleanScan, StepCleanClose,
         StepCloseStart, StepCloseQueue, Goes, BuffersAreOwned;
    match s.threads[t]
    case WorkStart(who) => WorkStartGoes(s, t, who, s');
    case WorkScan(who, i, best, m) => WorkScanGoes(s, t, who, i, best, m, s');
    case ReserveStart(who) => ReserveStartGoes(s, t, who, s');
    case ReserveScan(who, i) => ReserveScanGoes(s, t, who, i, s');
    case Trying(who, i) => TryingGoes(s, t, who, i, s');
    case ReadStart => ReadStartGoes(s, t, s');
    case ReadScan(i, best, m) => ReadScanGoes(s, t, i, best, m, s');
    case Locking(who, c) => LockingGoes(s, t, who, c, s');
    case Locked(who, c) => LockedGoes(s, t, who, c, NowOf(choice), s');
    case Counted(who, c) => CountedGoes(s, t, who, c, s');
    case StartReserve(who) => StartReserveGoes(s, t, who, choice, s');
    case Enqueue => EnqueueGoes(s, t, s');
    case Waiting(r) => WaitingGoes(s, t, r, choice, s');
    case Cancelling(r) => CancellingGoes(s, t, r, s');
    case Holding(c) => ReleaseGoes(s, t, Caller, c, s');
    case Releasing(c) => ReleaseGoes(s, t, Dispatcher, c, s');
    case Unlocking(who, c) => UnlockingGoes(s, t, who, c, NowOf(choice), s');
    case DispatchStart => DispatchStartGoes(s, t, s');
    case DispatchLoop => DispatchLoopGoes(s, t, s');
    case Handing(c) => HandingGoes(s, t, c, choice, s');
    case CleanStart => CleanStartGoes(s, t, NowOf(choice), s');
    case CleanScan(i, remaining, now) => CleanScanGoes(s, t, i, remaining, now, s');
    case CleanClose(i, remaining, now) => CleanCloseGoes(s, t, i, remaining, now, s');
    case CloseStart => CloseStartGoes(s, t, s');
    case CloseQueue => CloseQueueGoes(s, t, s');
  }
}
