/**
 The cleanup of idle reserve cores, as a whole: exactly which cores a sweep over the reserve list closes
 and which it keeps, whatever other threads do in the meantime.
 */
module PoolSweep {
  import opened Options
  import opened Pool
  import opened PoolSafety
  import opened PoolDeadlock

  /** Thread `t` is in a sweep that began at time `now`. */
  predicate Sweeps(s: State, t: nat, now: int) {
    t < |s.threads| &&
    match s.threads[t]
    case CleanScan(_, _, at) => at == now
    case CleanClose(_, _, at) => at == now
    case _ => false
  }

  predicate IsAt(s: State, t: nat, pc: Pc) {
    t < |s.threads| && s.threads[t] == pc
  }

  /** A core the sweep has to keep: it is in use, or was used within the last minute. */
  predicate StaysOpen(core: Core, now: int) {
    core.active > 0 || now - core.lastActive <= 60000
  }

  /** The action makes thread `t` look at a core of the reserve list. */
  predicate Looks(s: State, t: nat, a: Action) {
    && a.Run? && a.t == t && t < |s.threads| && s.threads[t].CleanScan?
    && s.threads[t].i < |s.reserve| && s.reserve[s.threads[t].i] < |s.cores|
  }

  /** What the thread sees, core by core, at the moments it looks. */
  ghost function Verdicts(s: State, t: nat, now: int, actions: seq<Action>): seq<bool>
    requires RunAll(s, actions).Some?
  {
    if actions == [] then []
    else
      var before, a := actions[..|actions| - 1], actions[|actions| - 1];
      var r := RunAll(s, before).value;
      Verdicts(s, t, now, before) +
      (if Looks(r, t, a) then [StaysOpen(r.cores[r.reserve[r.threads[t].i]], now)] else [])
  }

  /** The elements of the list that are marked, in order. */
  function Marked(list: seq<nat>, marks: seq<bool>): seq<nat>
    requires |marks| <= |list|
  {
    if marks == [] then []
    else
      var n := |marks| - 1;
      Marked(list, marks[..n]) + (if marks[n] then [list[n]] else [])
  }

  /** The core is in the list at a place that is not marked. */
  ghost predicate Struck(list: seq<nat>, marks: seq<bool>, c: nat) {
    exists j | 0 <= j < |marks| && j < |list| :: list[j] == c && !marks[j]
  }

  /** The whole run is part of one sweep. */
  ghost predicate OneSweep(s: State, t: nat, now: int, actions: seq<Action>) {
    && RunAll(s, actions).Some?
    && forall k | 0 <= k <= |actions| :: RunAll(s, actions[..k]).Some? && Sweeps(RunAll(s, actions[..k]).value, t, now)
  }

  /** How far the sweep is: `v` are the verdicts on the cores looked at, and all of them but the one about to be closed
      have been carried out. */
  ghost predicate Progress(s0: State, s: State, t: nat, now: int, v: seq<bool>) {
    && Sweeps(s, t, now) && s.reserve == s0.reserve && |s.cores| == |s0.cores| && |v| <= |s0.reserve|
    && match s.threads[t]
       case CleanScan(i, remaining, _) => i == |v| && remaining == Marked(s0.reserve, v) && OnlyClosed(s0, s, v)
       case CleanClose(i, remaining, _) =>
         && i + 1 == |v| && !v[i] && remaining == Marked(s0.reserve, v) && OnlyClosed(s0, s, v[..i])
       case _ => false
  }

  /** Exactly the cores with an adverse verdict have been closed since. */
  ghost predicate OnlyClosed(s0: State, s: State, v: seq<bool>) {
    |s.cores| == |s0.cores| &&
    forall c | 0 <= c < |s.cores| :: s.cores[c].closed <==> s0.cores[c].closed || Struck(s0.reserve, v, c)
  }

  // ----- Other threads -----

  /** While another thread has the pool lock exclusively. */
  ghost predicate LeavesLists(s: State, s': State) {
    && s'.reserve == s.reserve && |s'.cores| == |s.cores|
    && forall c | 0 <= c < |s.cores| :: s'.cores[c].closed == s.cores[c].closed
  }

  lemma ScansLeavesLists(s: State, u: nat, choice: Choice, s': State)
    requires StepThread(s, u, choice) == Some(s') && s.writer.Some?
    requires u < |s.threads| && (s.threads[u].WorkStart? || s.threads[u].WorkScan? ||
                                s.threads[u].ReserveStart? || s.threads[u].ReserveScan? ||
                                s.threads[u].ReadStart? || s.threads[u].ReadScan?)
    ensures LeavesLists(s, s')
  {
  }

  lemma TakesLeavesLists(s: State, u: nat, choice: Choice, s': State)
    requires StepThread(s, u, choice) == Some(s') && s.writer.Some?
    requires u < |s.threads| && (s.threads[u].Trying? || s.threads[u].Locking? || s.threads[u].Locked? ||
                                s.threads[u].Counted?)
    ensures LeavesLists(s, s')
  {
  }

  lemma GivesLeavesLists(s: State, u: nat, choice: Choice, s': State)
    requires StepThread(s, u, choice) == Some(s') && s.writer.Some?
    requires u < |s.threads| && (s.threads[u].Holding? || s.threads[u].Releasing? || s.threads[u].Unlocking?)
    ensures LeavesLists(s, s')
  {
  }

  lemma QueuesLeavesLists(s: State, u: nat, choice: Choice, s': State)
    requires StepThread(s, u, choice) == Some(s') && s.writer.Some?
    requires u < |s.threads| && (s.threads[u].Enqueue? || s.threads[u].Waiting? || s.threads[u].Cancelling?)
    ensures LeavesLists(s, s')
  {
  }

  lemma DispatchesLeavesLists(s: State, u: nat, choice: Choice, s': State)
    requires StepThread(s, u, choice) == Some(s') && s.writer.Some?
    requires u < |s.threads| && (s.threads[u].DispatchStart? || s.threads[u].DispatchLoop? || s.threads[u].Handing?)
    ensures LeavesLists(s, s')
  {
  }

  lemma LockTaken(s: State, u: nat, choice: Choice)
    requires s.writer.Some? && u < |s.threads|
    requires s.threads[u].StartReserve? || s.threads[u].CleanStart? || s.threads[u].CloseStart?
    ensures StepThread(s, u, choice).None?
  {
  }

  lemma OthersLeaveLists(s: State, u: nat, choice: Choice, s': State)
    requires StepThread(s, u, choice) == Some(s') && s.writer.Some? && u < |s.threads| && !Writes(s.threads[u])
    ensures LeavesLists(s, s')
  {
    hide LeavesLists;
    match s.threads[u] {
      case WorkStart(_) => ScansLeavesLists(s, u, choice, s');
      case WorkScan(_, _, _, _) => ScansLeavesLists(s, u, choice, s');
      case ReserveStart(_) => ScansLeavesLists(s, u, choice, s');
      case ReserveScan(_, _) => ScansLeavesLists(s, u, choice, s');
      case ReadStart => ScansLeavesLists(s, u, choice, s');
      case ReadScan(_, _, _) => ScansLeavesLists(s, u, choice, s');
      case Trying(_, _) => TakesLeavesLists(s, u, choice, s');
      case Locking(_, _) => TakesLeavesLists(s, u, choice, s');
      case Locked(_, _) => TakesLeavesLists(s, u, choice, s');
      case Counted(_, _) => TakesLeavesLists(s, u, choice, s');
      case StartReserve(_) => LockTaken(s, u, choice);
      case Holding(_) => GivesLeavesLists(s, u, choice, s');
      case Releasing(_) => GivesLeavesLists(s, u, choice, s');
      case Unlocking(_, _) => GivesLeavesLists(s, u, choice, s');
      case Enqueue => QueuesLeavesLists(s, u, choice, s');
      case Waiting(_) => QueuesLeavesLists(s, u, choice, s');
      case Cancelling(_) => QueuesLeavesLists(s, u, choice, s');
      case DispatchStart => DispatchesLeavesLists(s, u, choice, s');
      case DispatchLoop => DispatchesLeavesLists(s, u, choice, s');
      case Handing(_) => DispatchesLeavesLists(s, u, choice, s');
      case CleanStart => LockTaken(s, u, choice);
      case CloseStart => LockTaken(s, u, choice);
    }
  }

  // ----- The sweeping thread -----

  lemma MarkedMore(list: seq<nat>, v: seq<bool>, b: bool)
    requires |v| < |list|
    ensures Marked(list, v + [b]) == Marked(list, v) + (if b then [list[|v|]] else [])
  {
    assert (v + [b])[..|v|] == v;
  }

  lemma StruckMore(list: seq<nat>, v: seq<bool>, b: bool, c: nat)
    requires |v| < |list|
    ensures Struck(list, v + [b], c) <==> Struck(list, v, c) || (!b && list[|v|] == c)
  {
    var w := v + [b];
    if Struck(list, v, c) {
      var j :| 0 <= j < |v| && j < |list| && list[j] == c && !v[j];
      assert !w[j];
    }
    if !b && list[|v|] == c {
      assert !w[|v|];
    }
  }

  lemma CoreAt(s: State, t: nat, i: nat)
    requires Inv(s) && t < |s.threads| && i < |s.reserve|
    ensures s.reserve[i] < |s.cores| && 0 <= s.cores[s.reserve[i]].active
  {
    hide Owners, Locks, Scans, Closed, QueueOk;
  }

  /** A kept core goes to the new list, any other is closed next. */
  lemma LookStep(s: State, t: nat, choice: Choice, s': State)
    requires Inv(s) && t < |s.threads| && s.threads[t].CleanScan? && s.threads[t].i < |s.reserve|
    requires StepThread(s, t, choice) == Some(s')
    ensures var pc := s.threads[t];
      && s.reserve[pc.i] < |s.cores|
      && s' == At(s, t, if StaysOpen(s.cores[s.reserve[pc.i]], pc.now)
                        then CleanScan(pc.i + 1, pc.remaining + [s.reserve[pc.i]], pc.now)
                        else CleanClose(pc.i, pc.remaining, pc.now))
  {
    CoreAt(s, t, s.threads[t].i);
    hide Inv;
  }

  lemma LookAdvances(s0: State, s: State, t: nat, now: int, v: seq<bool>, choice: Choice, s': State)
    requires Inv(s) && Progress(s0, s, t, now, v) && s.threads[t].CleanScan? && s.threads[t].i < |s.reserve|
    requires StepThread(s, t, choice) == Some(s')
    ensures s.reserve[|v|] < |s.cores| && Looks(s, t, Run(t, choice))
    ensures Progress(s0, s', t, now, v + [StaysOpen(s.cores[s.reserve[|v|]], now)])
  {
    LookStep(s, t, choice, s');
    hide Inv, Struck, StepThread, Marked;
    var b := StaysOpen(s.cores[s.reserve[|v|]], now);
    MarkedMore(s0.reserve, v, b);
    assert (v + [b])[..|v|] == v;
    forall c | 0 <= c < |s.cores| ensures b ==> (Struck(s0.reserve, v + [b], c) <==> Struck(s0.reserve, v, c)) {
      StruckMore(s0.reserve, v, b, c);
    }
  }

  /** The thread closes the core it has just looked at. */
  lemma CloseAdvances(s0: State, s: State, t: nat, now: int, v: seq<bool>, choice: Choice, s': State)
    requires Inv(s) && Progress(s0, s, t, now, v) && s.threads[t].CleanClose?
    requires StepThread(s, t, choice) == Some(s')
    ensures Progress(s0, s', t, now, v) && !Looks(s, t, Run(t, choice))
  {
    hide Inv, Struck;
    var i := s.threads[t].i;
    assert v == v[..i] + [false];
    forall c | 0 <= c < |s.cores|
      ensures Struck(s0.reserve, v, c) <==> Struck(s0.reserve, v[..i], c) || s0.reserve[i] == c
    {
      StruckMore(s0.reserve, v[..i], false, c);
    }
  }

  lemma OthersKeepProgress(s0: State, s: State, t: nat, now: int, v: seq<bool>, s': State)
    requires Progress(s0, s, t, now, v) && LeavesLists(s, s')
    requires t < |s'.threads| && s'.threads[t] == s.threads[t]
    ensures Progress(s0, s', t, now, v)
  {
    hide Struck;
  }

  lemma SweeperIsAlone(s: State, t: nat, now: int)
    requires Inv(s) && Sweeps(s, t, now)
    ensures s.writer == Some(t) && forall u | 0 <= u < |s.threads| && u != t :: !Writes(s.threads[u])
  {
    hide Owners, Counters, Lists, Scans, Closed, QueueOk;
    assert Writes(s.threads[t]);
  }

  lemma ArrivalKeepsProgress(s0: State, s: State, t: nat, now: int, v: seq<bool>, a: Action, s': State)
    requires Progress(s0, s, t, now, v) && Step(s, a) == Some(s') && !a.Run?
    ensures Progress(s0, s', t, now, v)
  {
    hide StepThread, Struck;
  }

  /** One step of a run that stays within the sweep. */
  lemma StepProgress(s0: State, s: State, t: nat, now: int, v: seq<bool>, a: Action, s': State)
    requires Inv(s) && Progress(s0, s, t, now, v) && Step(s, a) == Some(s') && Sweeps(s', t, now)
    ensures Looks(s, t, a) ==> |v| < |s.reserve| && s.reserve[|v|] < |s.cores| && s.threads[t].i == |v|
    ensures Progress(s0, s', t, now, if Looks(s, t, a) then v + [StaysOpen(s.cores[s.reserve[|v|]], now)] else v)
  {
    assert Looks(s, t, a) ==> s.threads[t].i == |v|;
    if !a.Run? {
      ArrivalKeepsProgress(s0, s, t, now, v, a, s');
    } else if a.t != t {
      SweeperIsAlone(s, t, now);
      OthersLeaveLists(s, a.t, a.choice, s');
      StepKeepsPlaces(s, a.t, a.choice, s');
      hide Inv, StepThread, LeavesLists;
      OthersKeepProgress(s0, s, t, now, v, s');
    } else if s.threads[t].CleanClose? {
      CloseAdvances(s0, s, t, now, v, a.choice, s');
    } else if s.threads[t].i < |s.reserve| {
      LookAdvances(s0, s, t, now, v, a.choice, s');
    } else {
      SweepEnds(s, t, a.choice, s');
    }
  }

  lemma SweepEnds(s: State, t: nat, choice: Choice, s': State)
    requires t < |s.threads| && s.threads[t].CleanScan? && StepThread(s, t, choice) == Some(s')
    requires s.threads[t].i >= |s.reserve|
    ensures s' == At(s.(reserve := s.threads[t].remaining, writer := None), t, CleanStart)
  {
  }

  // ----- Whole sweeps -----

  lemma SweepBefore(s: State, t: nat, now: int, actions: seq<Action>)
    requires OneSweep(s, t, now, actions) && actions != []
    ensures OneSweep(s, t, now, actions[..|actions| - 1])
    ensures Sweeps(RunAll(s, actions).value, t, now)
  {
    hide RunAll, Sweeps;
    var before := actions[..|actions| - 1];
    assert actions[..|actions|] == actions;
    forall k | 0 <= k <= |before| ensures before[..k] == actions[..k] {
    }
    assert before[..|before|] == before;
  }

  lemma {:induction false} SweepSoFar(s: State, t: nat, now: int, actions: seq<Action>)
    requires Inv(s) && OneSweep(s, t, now, actions) && IsAt(s, t, CleanScan(0, [], now))
    ensures Inv(RunAll(s, actions).value)
    ensures Progress(s, RunAll(s, actions).value, t, now, Verdicts(s, t, now, actions))
  {
    hide Step, Inv, Looks, StaysOpen;
    if actions == [] {
      assert forall c :: !Struck(s.reserve, [], c);
    } else {
      var before, a := actions[..|actions| - 1], actions[|actions| - 1];
      SweepBefore(s, t, now, actions);
      hide OneSweep, Progress;
      SweepSoFar(s, t, now, before);
      var r := RunAll(s, before).value;
      StepInv(r, a, RunAll(s, actions).value);
      var v := Verdicts(s, t, now, before);
      StepProgress(s, r, t, now, v, a, RunAll(s, actions).value);
      assert Verdicts(s, t, now, actions) ==
        if Looks(r, t, a) then v + [StaysOpen(r.cores[r.reserve[|v|]], now)] else v;
    }
  }

  /** The reserve list has become the marked part of the old one, and exactly the others have been closed. */
  ghost predicate SweptExactly(s0: State, v: seq<bool>, s: State) {
    && |v| == |s0.reserve| && s.reserve == Marked(s0.reserve, v) && OnlyClosed(s0, s, v)
  }

  /** Over every run, whatever other threads do: a sweep that starts at `now` and ends leaves in the reserve list, in
      order, exactly the cores that were in use, or last used at most 60000 ms before, when it looked at them; it has
      closed exactly the others. */
  lemma SweepExactly(n: nat, maxReserve: nat, actions: seq<Action>, idle: State, t: nat, now: int, s: State,
                     sweep: seq<Action>, choice: Choice, s': State)
    requires RunAll(Initial(n, maxReserve), actions) == Some(idle) && IsAt(idle, t, CleanStart)
    requires StepThread(idle, t, Go(now)) == Some(s) && OneSweep(s, t, now, sweep)
    requires StepThread(RunAll(s, sweep).value, t, choice) == Some(s') && IsAt(s', t, CleanStart)
    ensures SweptExactly(idle, Verdicts(s, t, now, sweep), s')
  {
    hide RunAll, StepThread, OnlyClosed, Verdicts, Marked, Inv, Progress;
    RunInv(n, maxReserve, actions);
    SweepStarts(idle, t, now, s);
    SweepSoFar(s, t, now, sweep);
    var r, v := RunAll(s, sweep).value, Verdicts(s, t, now, sweep);
    OnlyEndLeaves(s, r, t, now, v, choice, s');
    SameStart(idle, s, v, s');
  }

  lemma SameStart(idle: State, s: State, v: seq<bool>, s': State)
    requires SweptExactly(s, v, s') && s.reserve == idle.reserve && s.cores == idle.cores
    ensures SweptExactly(idle, v, s')
  {
  }

  lemma SweepStarts(idle: State, t: nat, now: int, s: State)
    requires Inv(idle) && IsAt(idle, t, CleanStart) && StepThread(idle, t, Go(now)) == Some(s)
    ensures Inv(s) && s.reserve == idle.reserve && s.cores == idle.cores
    ensures IsAt(s, t, CleanScan(0, [], now))
  {
    StepInv(idle, Run(t, Go(now)), s);
    hide Inv;
  }

  lemma OnlyEndLeaves(s0: State, s: State, t: nat, now: int, v: seq<bool>, choice: Choice, s': State)
    requires Inv(s) && Progress(s0, s, t, now, v) && StepThread(s, t, choice) == Some(s') && IsAt(s', t, CleanStart)
    ensures SweptExactly(s0, v, s')
  {
    ScanOrClose(s0, s, t, now, v, choice, s');
    hide StepThread, Marked, Struck, StaysOpen;
    if s.threads[t].i < |s.reserve| {
      LookStep(s, t, choice, s');
    } else {
      SweepEnds(s, t, choice, s');
    }
    hide Inv;
  }

  lemma ScanOrClose(s0: State, s: State, t: nat, now: int, v: seq<bool>, choice: Choice, s': State)
    requires Progress(s0, s, t, now, v) && StepThread(s, t, choice) == Some(s') && IsAt(s', t, CleanStart)
    ensures s.threads[t].CleanScan?
  {
    hide Struck, Marked;
  }
}
