/**
 The callers that wait for a core: where their requests are, when they can go on, and exactly when
 they are given a nil core.
 */
module PoolTickets {
  import opened Options
  import opened Pool
  import opened PoolSafety

  // ----- Requests of waiting callers -----

  /** The request that a thread waits for, or is about to take out of the queue. */
  function Ticket(pc: Pc): Option<nat> {
    match pc
    case Waiting(r) => Some(r)
    case Cancelling(r) => Some(r)
    case _ => None
  }

  /** A request that has left the queue was given a core, or its context was done. */
  predicate Answered(s: State, r: nat)
    requires r < |s.requests|
  {
    r in s.popped && (s.requests[r].buffer.Some? || s.requests[r].ctxDone)
  }

  /** Every thread that waits has a request of its own. */
  ghost predicate OwnTickets(threads: seq<Pc>, requests: nat) {
    && (forall t | 0 <= t < |threads| && Ticket(threads[t]).Some? :: Ticket(threads[t]).value < requests)
    && (forall t, u | 0 <= t < u < |threads| && Ticket(threads[t]).Some? :: Ticket(threads[t]) != Ticket(threads[u]))
  }

  ghost predicate AllPlaced(s: State) {
    forall t | 0 <= t < |s.threads| && s.threads[t].Waiting? :: Placed(s, s.threads[t].ticket)
  }

  /** A closed request is neither in the queue nor was it ever taken from it. */
  ghost predicate ClosedAreGone(s: State) {
    forall r | 0 <= r < |s.requests| && s.requests[r].channelClosed :: r !in s.queue && r !in s.popped
  }

  ghost predicate Tickets(s: State) {
    OwnTickets(s.threads, |s.requests|) && AllPlaced(s) && ClosedAreGone(s)
  }

  /** The request is queued, answered or closed. */
  predicate Placed(s: State, r: nat) {
    r < |s.requests| && (r in s.queue || Answered(s, r) || s.requests[r].channelClosed)
  }

  /** A thread at these points may change the queue, the requests, or what a thread waits for. */
  predicate TouchesQueue(pc: Pc) {
    pc.Enqueue? || pc.Waiting? || pc.Cancelling? || pc.Handing? || pc.CloseQueue?
  }

  /** The queue and the requests stay, and no thread begins to wait, or to close the queue of a closed pool. */
  ghost predicate LeavesQueue(s: State, t: nat, s': State)
    requires t < |s.threads|
  {
    && s'.requests == s.requests && s'.queue == s.queue && s'.popped == s.popped
    && |s'.threads| >= |s.threads|
    && (forall u | 0 <= u < |s.threads| && u != t :: s'.threads[u] == s.threads[u])
    && Ticket(s'.threads[t]).None? && (s.stopped ==> !s'.threads[t].CloseQueue?)
    && (forall u | |s.threads| <= u < |s'.threads| :: Ticket(s'.threads[u]).None? && !s'.threads[u].CloseQueue?)
  }

  lemma WorkLeaves(s: State, t: nat, choice: Choice, s': State)
    requires StepThread(s, t, choice) == Some(s') && t < |s.threads|
    requires s.threads[t].WorkStart? || s.threads[t].WorkScan?
    ensures LeavesQueue(s, t, s')
  {
  }

  lemma ReserveLeaves(s: State, t: nat, choice: Choice, s': State)
    requires StepThread(s, t, choice) == Some(s') && t < |s.threads|
    requires s.threads[t].ReserveStart? || s.threads[t].ReserveScan?
    ensures LeavesQueue(s, t, s')
  {
  }

  lemma TryingLeaves(s: State, t: nat, choice: Choice, s': State)
    requires StepThread(s, t, choice) == Some(s') && t < |s.threads|
    requires s.threads[t].Trying?
    ensures LeavesQueue(s, t, s')
  {
  }

  lemma NoCoreLeaves(s: State, x: State, t: nat, who: Who)
    requires t < |s.threads| && x.threads == s.threads && x.requests == s.requests && x.queue == s.queue
    requires x.popped == s.popped
    ensures LeavesQueue(s, t, NoCore(x, t, who))
  {
  }

  lemma StartReserveLeaves(s: State, t: nat, choice: Choice, s': State)
    requires StepThread(s, t, choice) == Some(s') && t < |s.threads|
    requires s.threads[t].StartReserve?
    ensures LeavesQueue(s, t, s')
  {
    hide NoCore;
    NoCoreLeaves(s, s, t, s.threads[t].who);
    NoCoreLeaves(s, s.(nextSeq := s.nextSeq + 1), t, s.threads[t].who);
  }

  lemma ReadLeaves(s: State, t: nat, choice: Choice, s': State)
    requires StepThread(s, t, choice) == Some(s') && t < |s.threads|
    requires s.threads[t].ReadStart? || s.threads[t].ReadScan?
    ensures LeavesQueue(s, t, s')
  {
  }

  lemma CoreLeaves(s: State, t: nat, choice: Choice, s': State)
    requires StepThread(s, t, choice) == Some(s') && t < |s.threads|
    requires s.threads[t].Locking? || s.threads[t].Locked? || s.threads[t].Counted?
    ensures LeavesQueue(s, t, s')
  {
  }

  lemma ReleaseLeaves(s: State, t: nat, choice: Choice, s': State)
    requires StepThread(s, t, choice) == Some(s') && t < |s.threads|
    requires s.threads[t].Holding? || s.threads[t].Releasing? || s.threads[t].Unlocking?
    ensures LeavesQueue(s, t, s')
  {
  }

  lemma DispatchLeaves(s: State, t: nat, choice: Choice, s': State)
    requires StepThread(s, t, choice) == Some(s') && t < |s.threads|
    requires s.threads[t].DispatchStart? || s.threads[t].DispatchLoop?
    ensures LeavesQueue(s, t, s')
  {
  }

  lemma CleanLeaves(s: State, t: nat, choice: Choice, s': State)
    requires StepThread(s, t, choice) == Some(s') && t < |s.threads|
    requires s.threads[t].CleanStart? || s.threads[t].CleanScan? || s.threads[t].CleanClose? || s.threads[t].CloseStart?
    ensures LeavesQueue(s, t, s')
  {
  }

  lemma StepLeaves(s: State, t: nat, choice: Choice, s': State)
    requires StepThread(s, t, choice) == Some(s') && t < |s.threads| && !TouchesQueue(s.threads[t])
    ensures LeavesQueue(s, t, s')
  {
    hide LeavesQueue;
    match s.threads[t] {
      case WorkStart(_) => WorkLeaves(s, t, choice, s');
      case WorkScan(_, _, _, _) => WorkLeaves(s, t, choice, s');
      case ReserveStart(_) => ReserveLeaves(s, t, choice, s');
      case ReserveScan(_, _) => ReserveLeaves(s, t, choice, s');
      case Trying(_, _) => TryingLeaves(s, t, choice, s');
      case StartReserve(_) => StartReserveLeaves(s, t, choice, s');
      case ReadStart => ReadLeaves(s, t, choice, s');
      case ReadScan(_, _, _) => ReadLeaves(s, t, choice, s');
      case Locking(_, _) => CoreLeaves(s, t, choice, s');
      case Locked(_, _) => CoreLeaves(s, t, choice, s');
      case Counted(_, _) => CoreLeaves(s, t, choice, s');
      case Holding(_) => ReleaseLeaves(s, t, choice, s');
      case Releasing(_) => ReleaseLeaves(s, t, choice, s');
      case Unlocking(_, _) => ReleaseLeaves(s, t, choice, s');
      case DispatchStart => DispatchLeaves(s, t, choice, s');
      case DispatchLoop => DispatchLeaves(s, t, choice, s');
      case CleanStart => CleanLeaves(s, t, choice, s');
      case CleanScan(_, _, _) => CleanLeaves(s, t, choice, s');
      case CleanClose(_, _, _) => CleanLeaves(s, t, choice, s');
      case CloseStart => CleanLeaves(s, t, choice, s');
      case _ =>
    }
  }

  lemma LeavesTickets(s: State, t: nat, s': State)
    requires Tickets(s) && t < |s.threads| && LeavesQueue(s, t, s')
    ensures Tickets(s')
  {
  }

  // ----- The steps that do touch the queue -----

  lemma TicketMoves(threads: seq<Pc>, requests: nat, requests': nat, t: nat, pc: Pc)
    requires OwnTickets(threads, requests) && t < |threads| && requests <= requests'
    requires Ticket(pc).None? || Ticket(pc) == Ticket(threads[t]) ||
             (Ticket(pc) == Some(requests) && requests < requests')
    ensures OwnTickets(threads[t := pc], requests')
  {
  }

  /** Requests of other threads stay placed. */
  ghost predicate OthersStay(s: State, t: nat, s': State)
    requires t < |s.threads|
  {
    forall r: nat | Placed(s, r) && Ticket(s.threads[t]) != Some(r) :: Placed(s', r)
  }

  lemma PlacesMove(s: State, t: nat, pc: Pc, s': State)
    requires OwnTickets(s.threads, |s.requests|) && AllPlaced(s) && t < |s.threads| && s'.threads == s.threads[t := pc]
    requires OthersStay(s, t, s') && (pc.Waiting? ==> Placed(s', pc.ticket))
    ensures AllPlaced(s')
  {
    hide Placed;
    forall u | 0 <= u < |s'.threads| && s'.threads[u].Waiting? ensures Placed(s', s'.threads[u].ticket) {
      if u != t {
        assert Placed(s, s.threads[u].ticket);
        assert Ticket(s.threads[u]) == Some(s.threads[u].ticket);
        assert Ticket(s.threads[t]) != Ticket(s.threads[u]);
      }
    }
  }

  lemma EnqueueTickets(s: State, t: nat, s': State)
    requires Tickets(s) && QueueOk(s) && t < |s.threads| && s.threads[t].Enqueue?
    requires StepEnqueue(s, t) == Some(s')
    ensures Tickets(s')
  {
    hide OwnTickets, AllPlaced;
    var r := |s.requests|;
    assert s'.queue[|s.queue|] == r;
    TicketMoves(s.threads, r, r + 1, t, Waiting(r));
    PlacesMove(s, t, Waiting(r), s');
  }

  lemma ReceiveTickets(s: State, t: nat, r: nat, choice: Choice, s': State)
    requires Tickets(s) && t < |s.threads| && s.threads[t] == Waiting(r) && r < |s.requests|
    requires choice.Go? && s.requests[r].buffer.Some? && StepWaiting(s, t, r, choice) == Some(s')
    ensures Tickets(s')
  {
    hide OwnTickets, AllPlaced;
    var pc := Holding(s.requests[r].buffer.value);
    TicketMoves(s.threads, |s.requests|, |s.requests|, t, pc);
    PlacesMove(s, t, pc, s');
  }

  lemma LeaveTickets(s: State, t: nat, r: nat, choice: Choice, s': State)
    requires Tickets(s) && t < |s.threads| && s.threads[t] == Waiting(r) && r < |s.requests|
    requires choice == Otherwise || s.requests[r].buffer.None?
    requires StepWaiting(s, t, r, choice) == Some(s')
    ensures Tickets(s')
  {
    hide OwnTickets, AllPlaced;
    var pc := if choice == Otherwise then Cancelling(r) else NilCore;
    TicketMoves(s.threads, |s.requests|, |s.requests|, t, pc);
    PlacesMove(s, t, pc, s');
  }

  lemma WaitingTickets(s: State, t: nat, r: nat, choice: Choice, s': State)
    requires Tickets(s) && t < |s.threads| && s.threads[t] == Waiting(r)
    requires StepWaiting(s, t, r, choice) == Some(s')
    ensures Tickets(s')
  {
    hide Tickets;
    if choice.Go? && s.requests[r].buffer.Some? {
      ReceiveTickets(s, t, r, choice, s');
    } else {
      LeaveTickets(s, t, r, choice, s');
    }
  }

  lemma CancellingTickets(s: State, t: nat, r: nat, s': State)
    requires Tickets(s) && QueueOk(s) && t < |s.threads| && s.threads[t] == Cancelling(r)
    requires StepCancelling(s, t, r) == Some(s')
    ensures Tickets(s')
  {
    WithoutKeepsOrder(s.queue, r);
    hide OwnTickets, AllPlaced, QueueOk;
    TicketMoves(s.threads, |s.requests|, |s.requests|, t, Finished);
    PlacesMove(s, t, Finished, s');
  }

  lemma FrontGoes(s: State, t: nat, c: nat, choice: Choice, s': State)
    requires ClosedAreGone(s) && QueueOk(s) && t < |s.threads| && s.threads[t] == Handing(c)
    requires StepHanding(s, t, c, choice) == Some(s')
    ensures s'.threads == s.threads[t := if choice == Otherwise then Releasing(c) else DispatchLoop]
    ensures |s'.requests| == |s.requests| && ClosedAreGone(s') && OthersStay(s, t, s')
  {
    hide QueueOk;
    assert s.queue == [s.queue[0]] + s.queue[1..];
  }

  /** The request at the front of the queue goes, with a core or because its context is done. */
  lemma HandingTickets(s: State, t: nat, c: nat, choice: Choice, s': State)
    requires Tickets(s) && QueueOk(s) && t < |s.threads| && s.threads[t] == Handing(c)
    requires StepHanding(s, t, c, choice) == Some(s')
    ensures Tickets(s')
  {
    FrontGoes(s, t, c, choice, s');
    hide OwnTickets, AllPlaced, QueueOk, OthersStay, Placed, StepHanding;
    var pc := if choice == Otherwise then Releasing(c) else DispatchLoop;
    TicketMoves(s.threads, |s.requests|, |s.requests|, t, pc);
    PlacesMove(s, t, pc, s');
  }

  lemma CloseQueueTickets(s: State, t: nat, s': State)
    requires Tickets(s) && QueueOk(s) && t < |s.threads| && s.threads[t].CloseQueue?
    requires StepCloseQueue(s, t) == Some(s')
    ensures Tickets(s')
  {
    hide OwnTickets, AllPlaced;
    TicketMoves(s.threads, |s.requests|, |s.requests|, t, Finished);
    PlacesMove(s, t, Finished, s');
  }

  lemma ArrivalTickets(s: State, a: Action, s': State)
    requires Tickets(s) && Step(s, a) == Some(s') && !a.Run?
    ensures Tickets(s')
  {
    hide StepThread;
  }

  lemma StepTickets(s: State, a: Action, s': State)
    requires Inv(s) && Tickets(s) && Step(s, a) == Some(s')
    ensures Tickets(s')
  {
    hide Inv, Tickets, LeavesQueue, StepEnqueue, StepWaiting, StepCancelling, StepHanding, StepCloseQueue;
    if a.Run? {
      HasQueue(s);
      var t, choice := a.t, a.choice;
      match s.threads[t] {
        case Enqueue => EnqueueTickets(s, t, s');
        case Waiting(r) => WaitingTickets(s, t, r, choice, s');
        case Cancelling(r) => CancellingTickets(s, t, r, s');
        case Handing(c) => HandingTickets(s, t, c, choice, s');
        case CloseQueue => CloseQueueTickets(s, t, s');
        case _ =>
          hide StepThread;
          StepLeaves(s, t, choice, s');
          LeavesTickets(s, t, s');
      }
    } else {
      ArrivalTickets(s, a, s');
    }
  }

  lemma HasQueue(s: State)
    requires Inv(s)
    ensures QueueOk(s)
  {
  }

  lemma {:induction false} RunTickets(n: nat, maxReserve: nat, actions: seq<Action>)
    requires RunAll(Initial(n, maxReserve), actions).Some?
    ensures Tickets(RunAll(Initial(n, maxReserve), actions).value)
  {
    hide Step, Inv;
    if actions != [] {
      var before := actions[..|actions| - 1];
      RunTickets(n, maxReserve, before);
      RunInv(n, maxReserve, before);
      StepTickets(RunAll(Initial(n, maxReserve), before).value, actions[|actions| - 1],
                  RunAll(Initial(n, maxReserve), actions).value);
    }
  }

  // ----- What it says about waiting callers -----

  /** The next step gives the thread a nil core. */
  predicate NextIsNil(s: State, t: nat, now: int) {
    StepThread(s, t, Go(now)).Some? && t < |StepThread(s, t, Go(now)).value.threads|
    && StepThread(s, t, Go(now)).value.threads[t] == NilCore
  }

  /** Over every run: a waiting caller is given a nil core by its next step exactly if its request is neither in
      the queue nor was ever taken from it, and these are exactly the requests whose channel is closed. */
  lemma NilCoreExactly(n: nat, maxReserve: nat, actions: seq<Action>, s: State, t: nat, r: nat, now: int)
    requires RunAll(Initial(n, maxReserve), actions) == Some(s) && t < |s.threads| && s.threads[t] == Waiting(r)
    ensures r < |s.requests| && (s.requests[r].channelClosed <==> r !in s.queue && r !in s.popped)
    ensures NextIsNil(s, t, now) <==> r !in s.queue && r !in s.popped
  {
    RunTickets(n, maxReserve, actions);
    RunInv(n, maxReserve, actions);
    hide RunAll, Owners, Counters, Locks, Lists, Scans, Closed;
  }

  /** Over every run: a waiting caller can go on exactly if its request has left the queue or its context is done;
    X. */
  lemma WaitingGoesOnExactly(n: nat, maxReserve: nat, actions: seq<Action>, s: State, t: nat, r: nat)
    requires RunAll(Initial(n, maxReserve), actions) == Some(s) && t < |s.threads| && s.threads[t] == Waiting(r)
    ensures r < |s.requests|
    ensures (exists choice :: StepThread(s, t, choice).Some?) <==> r !in s.queue || s.requests[r].ctxDone
    ensures r in s.popped ==> s.requests[r].buffer.Some? || s.requests[r].ctxDone
  {
    RunTickets(n, maxReserve, actions);
    RunInv(n, maxReserve, actions);
    hide RunAll, Owners, Counters, Locks, Lists, Scans, Closed;
    if r !in s.queue && !s.requests[r].ctxDone {
      assert StepThread(s, t, Go(0)).Some?;
    } else if s.requests[r].ctxDone {
      assert StepThread(s, t, Otherwise).Some?;
    }
  }
}
