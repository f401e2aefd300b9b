/**
 What acquiring and releasing a core comes to when a thread is not interrupted (pkg/ttsruntime/pool.go): work cores first,
 then reserve cores, then a new one, then the queue, which a release serves in order.
 */
module PoolAlone {
  import opened Options
  import opened Pool
  import opened PoolSafety

  /** `n` steps of thread `t` alone, at one time. */
  function Alone(s: State, t: nat, now: int, n: nat): Option<State>
    decreases n
  {
    if n == 0 then Some(s)
    else
      match StepThread(s, t, Go(now))
      case None => None
      case Some(s') => Alone(s', t, now, n - 1)
  }

  lemma {:induction false} AloneThen(s: State, t: nat, now: int, m: nat, n: nat)
    requires Alone(s, t, now, m).Some?
    ensures Alone(s, t, now, m + n) == Alone(Alone(s, t, now, m).value, t, now, n)
    decreases m
  {
    hide StepThread;
    if m > 0 {
      AloneThen(StepThread(s, t, Go(now)).value, t, now, m - 1, n);
    }
  }

  lemma OneMore(s: State, t: nat, now: int, m: nat)
    requires Alone(s, t, now, m).Some?
    ensures Alone(s, t, now, m + 1) == StepThread(Alone(s, t, now, m).value, t, Go(now))
  {
    hide StepThread;
    AloneThen(s, t, now, m, 1);
    var s' := Alone(s, t, now, m).value;
    match StepThread(s', t, Go(now))
    case None =>
    case Some(s'') => assert Alone(s'', t, now, 0) == Some(s'');
  }

  // ----- Scanning -----

  predicate IdleAt(s: State, list: seq<nat>, k: nat) {
    k < |list| && list[k] < |s.cores| && s.cores[list[k]].active == 0
  }

  ghost predicate FirstIdle(s: State, list: seq<nat>, k: nat) {
    IdleAt(s, list, k) && forall j | 0 <= j < k :: !IdleAt(s, list, j)
  }

  predicate FreeAt(s: State, list: seq<nat>, k: nat) {
    IdleAt(s, list, k) && !s.cores[list[k]].locked
  }

  ghost predicate FirstFree(s: State, list: seq<nat>, k: nat) {
    FreeAt(s, list, k) && forall j | 0 <= j < k :: !FreeAt(s, list, j)
  }

  lemma {:induction false} FirstExists(s: State, list: seq<nat>, n: nat) returns (k: nat)
    requires n <= |list|
    ensures k <= n && (forall j | 0 <= j < k :: !IdleAt(s, list, j)) && (k < n ==> IdleAt(s, list, k))
  {
    if n == 0 {
      k := 0;
    } else {
      k := FirstExists(s, list, n - 1);
      if k == n - 1 && !IdleAt(s, list, k) {
        k := n;
      }
    }
  }

  lemma {:induction false} FirstFreeExists(s: State, list: seq<nat>, n: nat) returns (k: nat)
    requires n <= |list|
    ensures k <= n && (forall j | 0 <= j < k :: !FreeAt(s, list, j)) && (k < n ==> FreeAt(s, list, k))
  {
    if n == 0 {
      k := 0;
    } else {
      k := FirstFreeExists(s, list, n - 1);
      if k == n - 1 && !FreeAt(s, list, k) {
        k := n;
      }
    }
  }

  /** The lists name cores of their kinds, counts are 0 or 1, and the thread has no read lock. */
  ghost predicate Sound(s: State, t: nat) {
    && (forall c | 0 <= c < |s.cores| :: s.cores[c].active == 0 || s.cores[c].active == 1)
    && (forall k | 0 <= k < |s.work| :: s.work[k] < |s.cores|)
    && (forall k | 0 <= k < |s.reserve| :: s.reserve[k] < |s.cores|)
    && t !in s.readers
  }

  lemma InvIsSound(s: State, t: nat)
    requires Inv(s) && t < |s.threads| && !Reads(s.threads[t])
    ensures Sound(s, t)
  {
    hide Owners, Scans, Closed, QueueOk, CountedBy;
  }

  /** Past busy work cores. */
  lemma {:induction false} PastBusy(s: State, t: nat, who: Who, i: nat, k: nat, now: int)
    requires t < |s.threads| && s.threads[t] == WorkScan(who, i, -1, 1) && i <= k <= |s.work|
    requires forall j | i <= j < k :: s.work[j] < |s.cores| && s.cores[s.work[j]].active >= 1
    ensures Alone(s, t, now, k - i) == Some(s.(threads := s.threads[t := WorkScan(who, k, -1, 1)]))
    decreases k - i
  {
    if i < k {
      var s' := At(s, t, WorkScan(who, i + 1, -1, 1));
      assert StepThread(s, t, Go(now)) == Some(s');
      PastBusy(s', t, who, i + 1, k, now);
      assert s'.threads[t := WorkScan(who, k, -1, 1)] == s.threads[t := WorkScan(who, k, -1, 1)];
    } else {
      assert s.threads[t := WorkScan(who, k, -1, 1)] == s.threads;
    }
  }

  /** Past reserve cores that are in use or locked. */
  lemma {:induction false} PastTaken(s: State, t: nat, who: Who, i: nat, k: nat, now: int) returns (n: nat)
    requires t < |s.threads| && s.threads[t] == ReserveScan(who, i) && i <= k <= |s.reserve|
    requires forall j | i <= j < k :: s.reserve[j] < |s.cores| && !FreeAt(s, s.reserve, j)
    ensures Alone(s, t, now, n) == Some(s.(threads := s.threads[t := ReserveScan(who, k)]))
    decreases k - i
  {
    if i < k {
      var s' := At(s, t, ReserveScan(who, i + 1));
      var m := PastOne(s, t, who, i, now);
      var rest := PastTaken(s', t, who, i + 1, k, now);
      AloneThen(s, t, now, m, rest);
      n := m + rest;
      assert s'.threads[t := ReserveScan(who, k)] == s.threads[t := ReserveScan(who, k)];
    } else {
      n := 0;
      assert s.threads[t := ReserveScan(who, k)] == s.threads;
    }
  }

  lemma PastOne(s: State, t: nat, who: Who, i: nat, now: int) returns (m: nat)
    requires t < |s.threads| && s.threads[t] == ReserveScan(who, i) && i < |s.reserve|
    requires s.reserve[i] < |s.cores| && !FreeAt(s, s.reserve, i)
    ensures Alone(s, t, now, m) == Some(At(s, t, ReserveScan(who, i + 1)))
  {
    var s' := At(s, t, ReserveScan(who, i + 1));
    if s.cores[s.reserve[i]].active == 0 {
      var tried := At(s, t, Trying(who, i));
      assert StepThread(s, t, Go(now)) == Some(tried);
      assert At(tried, t, ReserveScan(who, i + 1)) == s';
      assert StepThread(tried, t, Go(now)) == Some(s');
      assert Alone(s', t, now, 0) == Some(s') && Alone(tried, t, now, 1) == Some(s');
      m := 2;
    } else {
      assert StepThread(s, t, Go(now)) == Some(s') && Alone(s', t, now, 0) == Some(s');
      m := 1;
    }
  }

  // ----- Taking a core -----

  /** The thread has the core: it is locked and counted, a reserve core's time is now, and nothing else changes. */
  function Taken(s: State, t: nat, who: Who, c: nat, now: int): State
    requires t < |s.threads| && c < |s.cores|
  {
    var last := if s.cores[c].kind == Reserve then now else s.cores[c].lastActive;
    s.(cores := s.cores[c := s.cores[c].(locked := true, active := 1, lastActive := last)],
       owner := s.owner[c := Thread(t)],
       threads := s.threads[t := if who == Caller then Holding(c) else Handing(c)])
  }

  /** From the lock on. */
  lemma TakesLocked(s: State, t: nat, who: Who, c: nat, now: int)
    requires t < |s.threads| && c < |s.cores| && !s.cores[c].locked && s.cores[c].active == 0 && t !in s.readers
    ensures Alone(Lock(RLock(s, t), t, who, c), t, now, 2) == Some(Taken(s, t, who, c, now))
  {
    var s1 := Lock(RLock(s, t), t, who, c);
    var core := s1.cores[c];
    var last := if core.kind == Reserve then now else core.lastActive;
    var s2 := At(SetCore(s1, c, core.(active := 1, lastActive := last)), t, Counted(who, c));
    assert StepThread(s1, t, Go(now)) == StepLocked(s1, t, who, c, now) == Some(s2);
    var s3 := At(RUnlock(s2, t), t, HaveCore(who, c));
    assert StepThread(s2, t, Go(now)) == StepCounted(s2, t, who, c) == Some(s3);
    hide StepThread;
    assert s.readers + {t} - {t} == s.readers;
    assert s3.threads == s.threads[t := HaveCore(who, c)];
    assert s3 == Taken(s, t, who, c, now);
    assert Alone(s3, t, now, 0) == Some(s3) && Alone(s2, t, now, 1) == Some(s3);
  }

  /** Up to the lock of the first idle work core. */
  lemma ReachesIdle(s: State, t: nat, who: Who, k: nat, now: int) returns (n: nat)
    requires Sound(s, t) && t < |s.threads| && s.threads[t] == WorkStart(who) && s.writer.None? && s.ready
    requires FirstIdle(s, s.work, k)
    ensures Alone(s, t, now, n) == Some(At(RLock(s, t), t, Locking(who, s.work[k])))
  {
    var s1 := At(RLock(s, t), t, WorkScan(who, 0, -1, 1));
    assert StepThread(s, t, Go(now)) == Some(s1);
    assert Alone(s1, t, now, 0) == Some(s1);
    forall j | 0 <= j < k ensures s1.cores[s1.work[j]].active >= 1 {
      assert !IdleAt(s, s.work, j);
    }
    PastBusy(s1, t, who, 0, k, now);
    AloneThen(s, t, now, 1, k);
    var s2 := s1.(threads := s1.threads[t := WorkScan(who, k, -1, 1)]);
    OneMore(s, t, now, 1 + k);
    var s3 := At(RLock(s, t), t, Locking(who, s.work[k]));
    assert s2.threads[t := Locking(who, s.work[k])] == s3.threads;
    assert StepThread(s2, t, Go(now)) == Some(s3);
    n := k + 2;
  }

  lemma TakesWork(s: State, t: nat, who: Who, k: nat, now: int) returns (n: nat)
    requires Sound(s, t) && t < |s.threads| && s.threads[t] == WorkStart(who) && s.writer.None? && s.ready
    requires FirstIdle(s, s.work, k) && !s.cores[s.work[k]].locked
    ensures Alone(s, t, now, n) == Some(Taken(s, t, who, s.work[k], now))
  {
    var c := s.work[k];
    var m := ReachesIdle(s, t, who, k, now);
    hide Taken, FirstIdle;
    var s1 := At(RLock(s, t), t, Locking(who, c));
    OneMore(s, t, now, m);
    var s2 := Lock(RLock(s, t), t, who, c);
    LocksFrom(s, t, who, c, now);
    TakesLocked(s, t, who, c, now);
    AloneThen(s, t, now, m + 1, 2);
    n := m + 3;
  }

  lemma LocksFrom(s: State, t: nat, who: Who, c: nat, now: int)
    requires t < |s.threads| && c < |s.cores| && !s.cores[c].locked
    ensures StepThread(At(RLock(s, t), t, Locking(who, c)), t, Go(now)) == Some(Lock(RLock(s, t), t, who, c))
  {
    var s1 := At(RLock(s, t), t, Locking(who, c));
    assert s1.threads[t := Locked(who, c)] == s.threads[t := Locked(who, c)];
    assert Lock(s1, t, who, c) == Lock(RLock(s, t), t, who, c);
  }

  /** A work core that is idle but still locked, by a release under way, makes the thread wait. */
  lemma WaitsForWork(s: State, t: nat, who: Who, k: nat, now: int) returns (n: nat, s': State)
    requires Sound(s, t) && t < |s.threads| && s.threads[t] == WorkStart(who) && s.writer.None? && s.ready
    requires FirstIdle(s, s.work, k) && s.cores[s.work[k]].locked
    ensures Alone(s, t, now, n) == Some(s') && |s'.threads| == |s.threads| && s'.threads[t] == Locking(who, s.work[k])
    ensures s'.cores == s.cores && StepThread(s', t, Go(now)).None?
  {
    n := ReachesIdle(s, t, who, k, now);
    s' := At(RLock(s, t), t, Locking(who, s.work[k]));
  }

  /** No work core is idle, or the pool is not ready: on to the reserve cores. */
  lemma PassesWork(s: State, t: nat, who: Who, now: int) returns (n: nat)
    requires Sound(s, t) && t < |s.threads| && s.threads[t] == WorkStart(who) && s.writer.None?
    requires !s.ready || forall k | 0 <= k < |s.work| :: !IdleAt(s, s.work, k)
    ensures Alone(s, t, now, n) == Some(At(s, t, ReserveStart(who)))
  {
    var last := At(s, t, ReserveStart(who));
    if !s.ready || s.work == [] {
      assert StepThread(s, t, Go(now)) == Some(last) && Alone(last, t, now, 0) == Some(last);
      n := 1;
    } else {
      var k := |s.work|;
      var s1 := At(RLock(s, t), t, WorkScan(who, 0, -1, 1));
      assert StepThread(s, t, Go(now)) == Some(s1) && Alone(s1, t, now, 0) == Some(s1);
      forall j | 0 <= j < k ensures s1.cores[s1.work[j]].active >= 1 {
        assert !IdleAt(s, s.work, j);
      }
      PastBusy(s1, t, who, 0, k, now);
      AloneThen(s, t, now, 1, k);
      var s2 := s1.(threads := s1.threads[t := WorkScan(who, k, -1, 1)]);
      OneMore(s, t, now, 1 + k);
      assert s.readers + {t} - {t} == s.readers && s2.threads[t := ReserveStart(who)] == last.threads;
      assert At(RUnlock(s2, t), t, ReserveStart(who)) == last;
      assert StepThread(s2, t, Go(now)) == Some(last);
      n := k + 2;
    }
  }

  lemma TakesReserve(s: State, t: nat, who: Who, k: nat, now: int) returns (n: nat)
    requires Sound(s, t) && t < |s.threads| && s.threads[t] == ReserveStart(who) && s.writer.None?
    requires FirstFree(s, s.reserve, k)
    ensures Alone(s, t, now, n) == Some(Taken(s, t, who, s.reserve[k], now))
  {
    hide Taken, StepThread;
    var c := s.reserve[k];
    var s1 := At(RLock(s, t), t, ReserveScan(who, 0));
    BeginsReserve(s, t, who, now);
    assert forall j: nat | j < k :: FreeAt(s1, s1.reserve, j) == FreeAt(s, s.reserve, j);
    var m := PastTaken(s1, t, who, 0, k, now);
    AloneThen(s, t, now, 1, m);
    var s2 := s1.(threads := s1.threads[t := ReserveScan(who, k)]);
    OneMore(s, t, now, 1 + m);
    TriesFrom(s, t, who, k, s2, now);
    OneMore(s, t, now, 2 + m);
    TakesLocked(s, t, who, c, now);
    AloneThen(s, t, now, 3 + m, 2);
    n := m + 5;
  }

  lemma BeginsReserve(s: State, t: nat, who: Who, now: int)
    requires t < |s.threads| && s.threads[t] == ReserveStart(who) && s.writer.None?
    ensures Alone(s, t, now, 1) == Some(At(RLock(s, t), t, ReserveScan(who, 0)))
  {
    var s1 := At(RLock(s, t), t, ReserveScan(who, 0));
    assert StepThread(s, t, Go(now)) == StepReserveStart(s, t, who) == Some(s1);
    assert Alone(s1, t, now, 0) == Some(s1);
  }

  lemma TriesFrom(s: State, t: nat, who: Who, k: nat, s2: State, now: int)
    requires t < |s.threads| && k < |s.reserve| && s.reserve[k] < |s.cores| && FreeAt(s, s.reserve, k)
    requires s2 == At(RLock(s, t), t, ReserveScan(who, 0))
                     .(threads := s.threads[t := ReserveScan(who, 0)][t := ReserveScan(who, k)])
    ensures var s3 := StepThread(s2, t, Go(now));
      s3.Some? && StepThread(s3.value, t, Go(now)) == Some(Lock(RLock(s, t), t, who, s.reserve[k]))
  {
    var s3 := At(s2, t, Trying(who, k));
    assert StepThread(s2, t, Go(now)) == Some(s3);
    var c := s.reserve[k];
    assert s3.threads[t := Locked(who, c)] == s.threads[t := Locked(who, c)];
    assert Lock(s3, t, who, c) == Lock(RLock(s, t), t, who, c);
  }

  lemma PassesReserve(s: State, t: nat, who: Who, now: int) returns (n: nat)
    requires Sound(s, t) && t < |s.threads| && s.threads[t] == ReserveStart(who) && s.writer.None?
    requires forall k | 0 <= k < |s.reserve| :: !FreeAt(s, s.reserve, k)
    ensures Alone(s, t, now, n) == Some(At(s, t, StartReserve(who)))
  {
    var k, last := |s.reserve|, At(s, t, StartReserve(who));
    var s1 := At(RLock(s, t), t, ReserveScan(who, 0));
    BeginsReserve(s, t, who, now);
    assert forall j | 0 <= j < k :: FreeAt(s1, s1.reserve, j) == FreeAt(s, s.reserve, j);
    var m := PastTaken(s1, t, who, 0, k, now);
    AloneThen(s, t, now, 1, m);
    var s2 := s1.(threads := s1.threads[t := ReserveScan(who, k)]);
    OneMore(s, t, now, 1 + m);
    assert s.readers + {t} - {t} == s.readers && s2.threads[t := StartReserve(who)] == last.threads;
    assert At(RUnlock(s2, t), t, StartReserve(who)) == last;
    assert StepThread(s2, t, Go(now)) == Some(last);
    n := m + 2;
  }

  // ----- The whole acquisition -----

  /** With no core to be had: a new reserve core below the limit, in use from the start; otherwise a caller is queued
      last, and the dispatcher stops. */
  ghost predicate StartedOrQueued(s: State, s': State, t: nat, who: Who, now: int)
    requires t < |s.threads|
  {
    var c, r := |s.cores|, |s.requests|;
    if |s.reserve| < s.maxReserve then
      s' == s.(nextSeq := s.nextSeq + 1, cores := s.cores + [Core(Reserve, s.nextSeq + 1, true, 1, now, false)],
               owner := s.owner[c := Thread(t)], reserve := s.reserve + [c],
               threads := s.threads[t := if who == Caller then Holding(c) else Handing(c)])
    else if who == Caller then
      s' == s.(requests := s.requests + [Request(None, false, false)], queue := s.queue + [r],
               threads := s.threads[t := Waiting(r)])
    else s' == s.(pendingHolder := None, threads := s.threads[t := Finished])
  }

  lemma StartsOrQueues(s: State, t: nat, who: Who, now: int) returns (n: nat, s': State)
    requires t < |s.threads| && s.threads[t] == StartReserve(who) && s.writer.None? && s.readers == {}
    requires who == Caller ==> s.pendingHolder.None?
    ensures Alone(s, t, now, n) == Some(s') && StartedOrQueued(s, s', t, who, now)
  {
    var s1 := StepThread(s, t, Go(now)).value;
    assert StepThread(s, t, Go(now)) == Some(s1) && Alone(s1, t, now, 0) == Some(s1);
    if |s.reserve| < s.maxReserve || who == Dispatcher {
      n, s' := 1, s1;
    } else {
      s' := StepThread(s1, t, Go(now)).value;
      var r := |s.requests|;
      assert s1.threads[t := Waiting(r)] == s.threads[t := Waiting(r)];
      assert StepThread(s1, t, Go(now)) == Some(s');
      assert Alone(s', t, now, 0) == Some(s') && Alone(s1, t, now, 1) == Some(s');
      n := 2;
    }
  }

  lemma SameBehind(s: State, t: nat, pc: Pc, s': State, who: Who, now: int)
    requires t < |s.threads| && StartedOrQueued(At(s, t, pc), s', t, who, now)
    ensures StartedOrQueued(s, s', t, who, now)
  {
    var c, r := |s.cores|, |s.requests|;
    var have := if who == Caller then Holding(c) else Handing(c);
    assert s.threads[t := pc][t := have] == s.threads[t := have];
    assert s.threads[t := pc][t := Waiting(r)] == s.threads[t := Waiting(r)];
    assert s.threads[t := pc][t := Finished] == s.threads[t := Finished];
  }

  /** Acquire, or an attempt of the dispatcher, by a thread that runs alone: the first idle work core; or else the first
      reserve core that is idle and not locked; or else a new one, or the queue. */
  lemma AcquiresByPriority(s: State, t: nat, who: Who, now: int) returns (n: nat, s': State)
    requires Inv(s) && t < |s.threads| && s.threads[t] == WorkStart(who)
    requires s.writer.None? && s.readers == {} && (who == Caller ==> s.pendingHolder.None?)
    ensures Alone(s, t, now, n) == Some(s')
    ensures
      if s.ready && exists k: nat :: FirstIdle(s, s.work, k) then
        forall k: nat | FirstIdle(s, s.work, k) ::
          if s.cores[s.work[k]].locked then StepThread(s', t, Go(now)).None? && s'.cores == s.cores
          else s' == Taken(s, t, who, s.work[k], now)
      else if exists k: nat :: FirstFree(s, s.reserve, k) then
        forall k: nat | FirstFree(s, s.reserve, k) :: s' == Taken(s, t, who, s.reserve[k], now)
      else StartedOrQueued(s, s', t, who, now)
  {
    hide Inv, Sound, Taken, StartedOrQueued, StepThread;
    InvIsSound(s, t);
    var k := FirstExists(s, s.work, |s.work|);
    if s.ready && k < |s.work| {
      assert FirstIdle(s, s.work, k) && forall j: nat | FirstIdle(s, s.work, j) :: j == k;
      if s.cores[s.work[k]].locked {
        n, s' := WaitsForWork(s, t, who, k, now);
      } else {
        n := TakesWork(s, t, who, k, now);
        s' := Taken(s, t, who, s.work[k], now);
      }
    } else {
      if k == |s.work| {
        NoneFirst(s, s.work);
      }
      n, s' := AcquiresBehind(s, t, who, now);
    }
  }

  lemma AcquiresBehind(s: State, t: nat, who: Who, now: int) returns (n: nat, s': State)
    requires Sound(s, t) && t < |s.threads| && s.threads[t] == WorkStart(who)
    requires s.writer.None? && s.readers == {} && (who == Caller ==> s.pendingHolder.None?)
    requires !s.ready || forall k | 0 <= k < |s.work| :: !IdleAt(s, s.work, k)
    ensures Alone(s, t, now, n) == Some(s')
    ensures
      if exists k: nat :: FirstFree(s, s.reserve, k) then
        forall k: nat | FirstFree(s, s.reserve, k) :: s' == Taken(s, t, who, s.reserve[k], now)
      else StartedOrQueued(s, s', t, who, now)
  {
    hide Taken, StartedOrQueued, StepThread;
    var m := PassesWork(s, t, who, now);
    var r := At(s, t, ReserveStart(who));
    var k := FirstFreeExists(s, s.reserve, |s.reserve|);
    assert forall j: nat :: FreeAt(r, r.reserve, j) == FreeAt(s, s.reserve, j);
    if k < |s.reserve| {
      assert FirstFree(s, s.reserve, k) && forall j: nat | FirstFree(s, s.reserve, j) :: j == k;
      var c := TakesReserve(r, t, who, k, now);
      AloneThen(s, t, now, m, c);
      TakenBehind(s, t, who, s.reserve[k], now);
      n, s' := m + c, Taken(s, t, who, s.reserve[k], now);
    } else {
      NoneFree(s, s.reserve);
      var p := PassesReserve(r, t, who, now);
      AloneThen(s, t, now, m, p);
      var q := At(s, t, StartReserve(who));
      assert At(r, t, StartReserve(who)) == q by {
        assert r.threads[t := StartReserve(who)] == q.threads;
      }
      var e;
      e, s' := StartsOrQueues(q, t, who, now);
      AloneThen(s, t, now, m + p, e);
      SameBehind(s, t, StartReserve(who), s', who, now);
      n := m + p + e;
    }
  }

  lemma TakenBehind(s: State, t: nat, who: Who, c: nat, now: int)
    requires t < |s.threads| && c < |s.cores|
    ensures Taken(At(s, t, ReserveStart(who)), t, who, c, now) == Taken(s, t, who, c, now)
  {
    var pc := if who == Caller then Holding(c) else Handing(c);
    assert s.threads[t := ReserveStart(who)][t := pc] == s.threads[t := pc];
  }

  lemma NoneFree(s: State, list: seq<nat>)
    requires forall j | 0 <= j < |list| :: !FreeAt(s, list, j)
    ensures forall k: nat :: !FirstFree(s, list, k)
  {
  }

  lemma NoneFirst(s: State, list: seq<nat>)
    requires forall j | 0 <= j < |list| :: !IdleAt(s, list, j)
    ensures forall k: nat :: !FirstIdle(s, list, k)
  {
  }

  // ----- Acquiring for reading -----

  /** The first of the work cores up to `n` with the least count. */
  ghost predicate LeastUpTo(s: State, n: nat, k: nat)
    requires n <= |s.work| && forall j | 0 <= j < |s.work| :: s.work[j] < |s.cores|
  {
    && k < n && (forall j | 0 <= j < n :: s.cores[s.work[j]].active >= s.cores[s.work[k]].active)
    && (forall j | 0 <= j < k :: s.cores[s.work[j]].active > s.cores[s.work[k]].active)
  }

  lemma {:induction false} ReadsOn(s: State, t: nat, now: int, i: nat, best: nat) returns (k: nat)
    requires t < |s.threads| && i <= |s.work| && forall j | 0 <= j < |s.work| :: s.work[j] < |s.cores|
    requires LeastUpTo(s, i, best) && s.threads[t] == ReadScan(i, best, s.cores[s.work[best]].active)
    ensures LeastUpTo(s, |s.work|, k)
    ensures Alone(s, t, now, |s.work| - i + 1) == Some(At(s, t, Locking(Caller, s.work[k])))
    decreases |s.work| - i
  {
    if i == |s.work| {
      k := best;
      var last := At(s, t, Locking(Caller, s.work[k]));
      assert StepThread(s, t, Go(now)) == StepReadScan(s, t, i, best, s.cores[s.work[best]].active) == Some(last);
      assert Alone(last, t, now, 0) == Some(last);
    } else {
      var next := if s.cores[s.work[i]].active < s.cores[s.work[best]].active then i else best;
      var s1 := At(s, t, ReadScan(i + 1, next, s.cores[s.work[next]].active));
      assert StepThread(s, t, Go(now)) == StepReadScan(s, t, i, best, s.cores[s.work[best]].active) == Some(s1);
      hide StepThread;
      k := ReadsOn(s1, t, now, i + 1, next);
      assert s1.threads[t := Locking(Caller, s.work[k])] == s.threads[t := Locking(Caller, s.work[k])];
    }
  }

  /** AcquireForRead by a thread that runs alone goes for the least used work core, the first of several. */
  lemma ReadsLeast(s: State, t: nat, now: int) returns (k: nat)
    requires Sound(s, t) && t < |s.threads| && s.threads[t] == ReadStart && s.writer.None? && s.ready && s.work != []
    ensures LeastUpTo(s, |s.work|, k)
    ensures Alone(s, t, now, |s.work| + 1) == Some(At(RLock(s, t), t, Locking(Caller, s.work[k])))
  {
    var s1 := At(RLock(s, t), t, ReadScan(1, 0, s.cores[s.work[0]].active));
    assert StepThread(s, t, Go(now)) == StepReadStart(s, t) == Some(s1);
    hide StepThread;
    k := ReadsOn(s1, t, now, 1, 0);
    assert s1.threads[t := Locking(Caller, s.work[k])] == s.threads[t := Locking(Caller, s.work[k])];
  }

  // ----- Giving a core back -----

  /** Release in two steps: the core is idle, unlocked and used just now, and a dispatcher is started. */
  lemma Releases(s: State, t: nat, c: nat, now: int)
    requires Inv(s) && t < |s.threads| && s.threads[t] == Holding(c)
    ensures c < |s.cores|
    ensures Alone(s, t, now, 2) ==
      Some(s.(cores := s.cores[c := s.cores[c].(active := 0, locked := false, lastActive := now)],
              owner := s.owner - {c}, threads := s.threads[t := Finished] + [DispatchStart]))
  {
    hide Inv, StepThread;
    HolderHas(s, t, c);
    CountsDown(s, t, c, now);
    var s1 := At(SetCore(s, c, s.cores[c].(active := s.cores[c].active - 1)), t, Unlocking(Caller, c));
    assert s1 == s.(cores := s1.cores, threads := s1.threads);
    Unlocks(s, t, c, s1, now);
    var s2 := StepThread(s1, t, Go(now)).value;
    assert Alone(s2, t, now, 0) == Some(s2) && Alone(s1, t, now, 1) == Some(s2);
  }

  lemma CountsDown(s: State, t: nat, c: nat, now: int)
    requires t < |s.threads| && s.threads[t] == Holding(c) && c < |s.cores|
    ensures StepThread(s, t, Go(now)) ==
      Some(At(SetCore(s, c, s.cores[c].(active := s.cores[c].active - 1)), t, Unlocking(Caller, c)))
  {
    assert StepThread(s, t, Go(now)) == StepRelease(s, t, Caller, c);
  }

  lemma Unlocks(s: State, t: nat, c: nat, s1: State, now: int)
    requires t < |s.threads| && c < |s.cores| && s.cores[c].active == 1
    requires s1 == s.(cores := s.cores[c := s.cores[c].(active := 0)], threads := s.threads[t := Unlocking(Caller, c)])
    ensures StepThread(s1, t, Go(now)) ==
      Some(s.(cores := s.cores[c := s.cores[c].(active := 0, locked := false, lastActive := now)],
              owner := s.owner - {c}, threads := s.threads[t := Finished] + [DispatchStart]))
  {
    assert StepThread(s1, t, Go(now)) == StepUnlocking(s1, t, Caller, c, now);
    hide StepThread;
    assert s1.threads[t := Finished] == s.threads[t := Finished];
    assert s1.cores[c := s1.cores[c].(locked := false, lastActive := now)] ==
           s.cores[c := s.cores[c].(active := 0, locked := false, lastActive := now)];
  }

  lemma HolderHas(s: State, t: nat, c: nat)
    requires Inv(s) && t < |s.threads| && s.threads[t] == Holding(c)
    ensures c < |s.cores| && s.cores[c].active == 1 && s.cores[c].locked
  {
    hide Locks, Lists, Scans, Closed, QueueOk;
    assert Has(s.threads[t]) == Some(c);
  }

  /** A core the dispatcher has goes to the request that has waited longest; its caller then holds it. Where the context
      of that request is done, the dispatcher may give the core back instead. */
  lemma HandsToFirst(s: State, t: nat, c: nat, u: nat, now: int)
    requires Inv(s) && t < |s.threads| && s.threads[t] == Handing(c)
    requires s.queue != [] && u < |s.threads| && s.threads[u] == Waiting(s.queue[0])
    ensures var r := s.queue[0];
      && r < |s.requests| && StepThread(s, t, Go(now)).Some?
      && var s1 := StepThread(s, t, Go(now)).value;
         && s1.queue == s.queue[1..] && s1.cores == s.cores && s1.owner == s.owner[c := Buffer(r)]
         && s1.requests == s.requests[r := s.requests[r].(buffer := Some(c))]
         && s1.threads == s.threads[t := DispatchLoop]
         && StepThread(s1, u, Go(now)) ==
              Some(s1.(requests := s.requests, owner := s.owner[c := Thread(u)], threads := s1.threads[u := Holding(c)]))
    ensures var r := s.queue[0];
      StepThread(s, t, Otherwise) ==
        if s.requests[r].ctxDone
        then Some(s.(queue := s.queue[1..], popped := s.popped + [r], threads := s.threads[t := Releasing(c)])) else None
  {
    hide Inv, StepThread;
    HandingCanDeliver(s, t);
    HandsOver(s, t, c, Go(now));
    HandsOver(s, t, c, Otherwise);
    Receives(StepThread(s, t, Go(now)).value, u, s.queue[0], c, s.requests, s.owner, now);
  }

  lemma HandsOver(s: State, t: nat, c: nat, choice: Choice)
    requires t < |s.threads| && s.threads[t] == Handing(c) && CanDeliver(s)
    ensures StepThread(s, t, choice) == StepHanding(s, t, c, choice)
  {
    hide StepHanding;
  }

  lemma Receives(s1: State, u: nat, r: nat, c: nat, requests: seq<Request>, owner: map<nat, Agent>, now: int)
    requires u < |s1.threads| && s1.threads[u] == Waiting(r) && r < |requests| && requests[r].buffer.None?
    requires s1.requests == requests[r := requests[r].(buffer := Some(c))] && s1.owner == owner[c := Buffer(r)]
    ensures StepThread(s1, u, Go(now)) ==
      Some(s1.(requests := requests, owner := owner[c := Thread(u)], threads := s1.threads[u := Holding(c)]))
  {
    assert StepThread(s1, u, Go(now)) == StepWaiting(s1, u, r, Go(now));
    hide StepThread;
    assert s1.requests[r := s1.requests[r].(buffer := None)] == requests;
    assert s1.owner[c := Thread(u)] == owner[c := Thread(u)];
  }

  /** A new worker that fails to start leaves nothing but a number that is not given out again. */
  lemma FailedStart(s: State, t: nat)
    requires t < |s.threads| && s.threads[t] == StartReserve(Caller) && s.writer.None? && s.readers == {}
    requires |s.reserve| < s.maxReserve
    ensures StepThread(s, t, Otherwise) == Some(s.(nextSeq := s.nextSeq + 1, threads := s.threads[t := Enqueue]))
  {
    assert StepThread(s, t, Otherwise) == StepStartReserve(s, t, Caller, Otherwise);
  }

  // ----- Closing the pool -----

  /** Close, when nobody has a lock: every listed core and every queued request's channel is closed, and no other; the
      lists and the queue are empty, and the pool is not ready any more. */
  lemma Closes(s: State, t: nat, now: int)
    requires t < |s.threads| && s.threads[t] == CloseStart && !s.stopped
    requires s.writer.None? && s.readers == {} && s.pendingHolder.None?
    ensures Alone(s, t, now, 2).Some?
    ensures var s' := Alone(s, t, now, 2).value;
      && s'.work == [] && s'.reserve == [] && s'.queue == [] && !s'.ready && s'.stopped
      && s'.writer.None? && s'.pendingHolder.None? && s'.threads == s.threads[t := Finished]
      && |s'.cores| == |s.cores| && |s'.requests| == |s.requests|
      && (forall c | 0 <= c < |s.cores| ::
            s'.cores[c] == s.cores[c].(closed := s.cores[c].closed || c in s.work || c in s.reserve))
      && (forall r | 0 <= r < |s.requests| ::
            s'.requests[r] == s.requests[r].(channelClosed := s.requests[r].channelClosed || r in s.queue))
  {
    var s1 := StepThread(s, t, Go(now)).value;
    assert StepThread(s, t, Go(now)) == StepCloseStart(s, t) == Some(s1);
    var s2 := StepThread(s1, t, Go(now)).value;
    assert StepThread(s1, t, Go(now)) == StepCloseQueue(s1, t) == Some(s2);
    hide StepThread;
    assert s1.threads[t := Finished] == s.threads[t := Finished];
    assert Alone(s2, t, now, 0) == Some(s2) && Alone(s1, t, now, 1) == Some(s2);
  }
}
