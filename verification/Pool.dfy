/**
 The two-tier worker pool (pkg/ttsruntime/pool.go) as a state machine.

 Threads run the program's methods step by step: every lock operation, atomic counter update,
 channel operation and list access that another thread can observe is a step of its own, and
 steps of different threads interleave freely. Sections that run entirely under an exclusive
 lock and touch nothing another thread may read are single steps.
 */
module Pool {
  import opened Options

  datatype Kind = Work | Reserve

  /** A worker core. `name` is its number; reserve cores are numbered by the pool's sequence counter. */
  datatype Core = Core(kind: Kind, name: nat, locked: bool, active: int, lastActive: int, closed: bool)

  const IDLE_TIMEOUT_MS := 60000

  /** On whose behalf a core is acquired: a caller of Acquire, or the dispatcher of the queue. */
  datatype Who = Caller | Dispatcher

  /** Where a thread is. */
  datatype Pc =
    // acquireFromWorkCores
    | WorkStart(who: Who)
    | WorkScan(who: Who, i: nat, best: int, minActive: int)
    // acquireFromReserveCores
    | ReserveStart(who: Who)
    | ReserveScan(who: Who, i: nat)
    | Trying(who: Who, i: nat)
    // AcquireForRead
    | ReadStart
    | ReadScan(i: nat, best: int, minActive: int)
    // taking a core
    | Locking(who: Who, core: nat)
    | Locked(who: Who, core: nat)
    | Counted(who: Who, core: nat)
    // tryStartReserveCore
    | StartReserve(who: Who)
    // enqueueWait
    | Enqueue
    | Waiting(ticket: nat)
    | Cancelling(ticket: nat)
    // a caller that was given a nil core without an error
    | NilCore
    // a caller using its core, and Release
    | Holding(core: nat)
    | Releasing(core: nat)
    | Unlocking(who: Who, core: nat)
    // dispatchPending
    | DispatchStart
    | DispatchLoop
    | Handing(core: nat)
    // cleanupIdleReserveCores
    | CleanStart
    | CleanScan(i: nat, remaining: seq<nat>, now: int)
    | CleanClose(i: nat, remaining: seq<nat>, now: int)
    // Close
    | CloseStart
    | CloseQueue
    | Finished

  /** A queued request: its one-place channel, whether that is closed, and whether its context is done. */
  datatype Request = Request(buffer: Option<nat>, channelClosed: bool, ctxDone: bool)

  /** Who has a core's lock. */
  datatype Agent = Thread(t: nat) | Buffer(r: nat)

  /** The pool, its locks, its threads, and as history the requests taken from the queue.
      `owner` records for every locked core the thread or channel buffer that has it. */
  datatype State = State(
    cores: seq<Core>, work: seq<nat>, reserve: seq<nat>, maxReserve: nat, nextSeq: nat, ready: bool, stopped: bool,
    owner: map<nat, Agent>,
    readers: set<nat>, writer: Option<nat>, pendingHolder: Option<nat>,
    threads: seq<Pc>, requests: seq<Request>, queue: seq<nat>, popped: seq<nat>)

  /** What resolves a thread's nondeterminism: go on (at a given time), take the context-done or failure branch. */
  datatype Choice = Go(now: int) | Otherwise

  datatype Action = Run(t: nat, choice: Choice) | NewThread(pc: Pc) | CancelContext(r: nat)

  // ----- Steps -----

  function At(s: State, t: nat, pc: Pc): State
    requires t < |s.threads|
  {
    s.(threads := s.threads[t := pc])
  }

  function SetCore(s: State, c: nat, core: Core): State
    requires c < |s.cores|
  {
    s.(cores := s.cores[c := core])
  }

  /** Take the core's lock. */
  function Lock(s: State, t: nat, who: Who, c: nat): State
    requires t < |s.threads| && c < |s.cores|
  {
    At(SetCore(s, c, s.cores[c].(locked := true)).(owner := s.owner[c := Thread(t)]), t, Locked(who, c))
  }

  /** The thread has a core: a caller uses it, the dispatcher hands it over. */
  function HaveCore(who: Who, c: nat): Pc {
    if who == Caller then Holding(c) else Handing(c)
  }

  function RLock(s: State, t: nat): State { s.(readers := s.readers + {t}) }

  function RUnlock(s: State, t: nat): State { s.(readers := s.readers - {t}) }

  function StepWorkStart(s: State, t: nat, who: Who): Option<State>
    requires t < |s.threads|
  {
    if s.writer.Some? then None
    else if !s.ready || s.work == [] then Some(At(s, t, ReserveStart(who)))
    else Some(At(RLock(s, t), t, WorkScan(who, 0, -1, 1)))
  }

  function StepWorkScan(s: State, t: nat, who: Who, i: nat, best: int, minActive: int): Option<State>
    requires t < |s.threads|
  {
    if i < |s.work| && s.work[i] < |s.cores| then
      var active := s.cores[s.work[i]].active;
      if active < minActive then
        Some(At(s, t, if active == 0 then Locking(who, s.work[i]) else WorkScan(who, i + 1, i, active)))
      else Some(At(s, t, WorkScan(who, i + 1, best, minActive)))
    else if 0 <= best < |s.work| then Some(At(s, t, Locking(who, s.work[best])))
    else Some(At(RUnlock(s, t), t, ReserveStart(who)))
  }

  function StepLocking(s: State, t: nat, who: Who, c: nat): Option<State>
    requires t < |s.threads|
  {
    if c >= |s.cores| || s.cores[c].locked then None else Some(Lock(s, t, who, c))
  }

  function StepLocked(s: State, t: nat, who: Who, c: nat, now: int): Option<State>
    requires t < |s.threads|
  {
    if c >= |s.cores| then None
    else
      var core := s.cores[c];
      var last := if core.kind == Reserve then now else core.lastActive;
      Some(At(SetCore(s, c, core.(active := core.active + 1, lastActive := last)), t, Counted(who, c)))
  }

  function StepCounted(s: State, t: nat, who: Who, c: nat): Option<State>
    requires t < |s.threads|
  {
    Some(At(RUnlock(s, t), t, HaveCore(who, c)))
  }

  function StepReserveStart(s: State, t: nat, who: Who): Option<State>
    requires t < |s.threads|
  {
    if s.writer.Some? then None else Some(At(RLock(s, t), t, ReserveScan(who, 0)))
  }

  function StepReserveScan(s: State, t: nat, who: Who, i: nat): Option<State>
    requires t < |s.threads|
  {
    if i < |s.reserve| && s.reserve[i] < |s.cores| then
      Some(At(s, t, if s.cores[s.reserve[i]].active == 0 then Trying(who, i) else ReserveScan(who, i + 1)))
    else Some(At(RUnlock(s, t), t, StartReserve(who)))
  }

  function StepTrying(s: State, t: nat, who: Who, i: nat): Option<State>
    requires t < |s.threads|
  {
    if i >= |s.reserve| || s.reserve[i] >= |s.cores| then None
    else if s.cores[s.reserve[i]].locked then Some(At(s, t, ReserveScan(who, i + 1)))
    else Some(Lock(s, t, who, s.reserve[i]))
  }

  /** No core to be had: a caller queues, the dispatcher gives up and releases the queue lock. */
  function NoCore(s: State, t: nat, who: Who): State
    requires t < |s.threads|
  {
    if who == Caller then At(s, t, Enqueue) else At(s.(pendingHolder := None), t, Finished)
  }

  function StepStartReserve(s: State, t: nat, who: Who, choice: Choice): Option<State>
    requires t < |s.threads|
  {
    if s.writer.Some? || s.readers != {} then None
    else if |s.reserve| >= s.maxReserve then Some(NoCore(s, t, who))
    else if choice == Otherwise then Some(NoCore(s.(nextSeq := s.nextSeq + 1), t, who))
    else
      var c := |s.cores|;
      Some(At(s.(nextSeq := s.nextSeq + 1,
                 cores := s.cores + [Core(Reserve, s.nextSeq + 1, true, 1, choice.now, false)],
                 owner := s.owner[c := Thread(t)],
                 reserve := s.reserve + [c]), t, HaveCore(who, c)))
  }

  function StepEnqueue(s: State, t: nat): Option<State>
    requires t < |s.threads|
  {
    if s.pendingHolder.Some? then None
    else
      var r := |s.requests|;
      Some(At(s.(requests := s.requests + [Request(None, false, false)], queue := s.queue + [r]), t, Waiting(r)))
  }

  function SetRequest(s: State, r: nat, req: Request): State
    requires r < |s.requests|
  {
    s.(requests := s.requests[r := req])
  }

  function StepWaiting(s: State, t: nat, r: nat, choice: Choice): Option<State>
    requires t < |s.threads|
  {
    if r >= |s.requests| then None
    else
      var req := s.requests[r];
      if choice == Otherwise then
        if req.ctxDone then Some(At(s, t, Cancelling(r))) else None
      else if req.buffer.Some? then
        var c := req.buffer.value;
        Some(At(SetRequest(s, r, req.(buffer := None)).(owner := s.owner[c := Thread(t)]), t, Holding(c)))
      else if req.channelClosed then Some(At(s, t, NilCore))
      else None
  }

  /** The queue without the first occurrence of `r`. */
  function WithoutFirst(q: seq<nat>, r: nat): seq<nat> {
    if q == [] then [] else if q[0] == r then q[1..] else [q[0]] + WithoutFirst(q[1..], r)
  }

  function StepCancelling(s: State, t: nat, r: nat): Option<State>
    requires t < |s.threads|
  {
    if s.pendingHolder.Some? then None else Some(At(s.(queue := WithoutFirst(s.queue, r)), t, Finished))
  }

  /** The first half of Release: the counter goes down. */
  function StepRelease(s: State, t: nat, who: Who, c: nat): Option<State>
    requires t < |s.threads|
  {
    if c >= |s.cores| then None
    else Some(At(SetCore(s, c, s.cores[c].(active := s.cores[c].active - 1)), t, Unlocking(who, c)))
  }

  /** The second half: unlock, and start a dispatcher. */
  function StepUnlocking(s: State, t: nat, who: Who, c: nat, now: int): Option<State>
    requires t < |s.threads|
  {
    if c >= |s.cores| then None
    else
      var s' := SetCore(s, c, s.cores[c].(locked := false, lastActive := now)).(owner := s.owner - {c});
      var s'' := At(s', t, if who == Caller then Finished else DispatchLoop);
      Some(s''.(threads := s''.threads + [DispatchStart]))
  }

  function StepDispatchStart(s: State, t: nat): Option<State>
    requires t < |s.threads|
  {
    if s.pendingHolder.Some? then None else Some(At(s.(pendingHolder := Some(t)), t, DispatchLoop))
  }

  function StepDispatchLoop(s: State, t: nat): Option<State>
    requires t < |s.threads|
  {
    if s.queue == [] then Some(At(s.(pendingHolder := None), t, Finished))
    else Some(At(s, t, WorkStart(Dispatcher)))
  }

  /** What a delivery needs in order not to block and not to send on a closed channel. */
  predicate CanDeliver(s: State) {
    && s.queue != [] && s.queue[0] < |s.requests|
    && s.requests[s.queue[0]].buffer.None?
    && !s.requests[s.queue[0]].channelClosed
  }

  function StepHanding(s: State, t: nat, c: nat, choice: Choice): Option<State>
    requires t < |s.threads|
  {
    if !CanDeliver(s) then None
    else
      var r := s.queue[0];
      var s' := s.(queue := s.queue[1..], popped := s.popped + [r]);
      if choice == Otherwise then
        if s.requests[r].ctxDone then Some(At(s', t, Releasing(c))) else None
      else
        Some(At(SetRequest(s', r, s.requests[r].(buffer := Some(c))).(owner := s.owner[c := Buffer(r)]), t, DispatchLoop))
  }

  function StepCleanStart(s: State, t: nat, now: int): Option<State>
    requires t < |s.threads|
  {
    if s.writer.Some? || s.readers != {} then None
    else Some(At(s.(writer := Some(t)), t, CleanScan(0, [], now)))
  }

  function StepCleanScan(s: State, t: nat, i: nat, remaining: seq<nat>, now: int): Option<State>
    requires t < |s.threads|
  {
    if i < |s.reserve| && s.reserve[i] < |s.cores| then
      var core := s.cores[s.reserve[i]];
      if core.active == 0 && now - core.lastActive > IDLE_TIMEOUT_MS then Some(At(s, t, CleanClose(i, remaining, now)))
      else Some(At(s, t, CleanScan(i + 1, remaining + [s.reserve[i]], now)))
    else Some(At(s.(reserve := remaining, writer := None), t, CleanStart))
  }

  function StepCleanClose(s: State, t: nat, i: nat, remaining: seq<nat>, now: int): Option<State>
    requires t < |s.threads|
  {
    if i >= |s.reserve| || s.reserve[i] >= |s.cores| then None
    else Some(At(SetCore(s, s.reserve[i], s.cores[s.reserve[i]].(closed := true)), t, CleanScan(i + 1, remaining, now)))
  }

  function CloseListed(s: State): seq<Core> {
    seq(|s.cores|, c requires 0 <= c < |s.cores| =>
      if c in s.work || c in s.reserve then s.cores[c].(closed := true) else s.cores[c])
  }

  /** Close the workers and empty the lists; a second Close would panic and is not a step. */
  function StepCloseStart(s: State, t: nat): Option<State>
    requires t < |s.threads|
  {
    if s.writer.Some? || s.readers != {} || s.stopped then None
    else
      Some(At(s.(writer := Some(t), stopped := true, cores := CloseListed(s), work := [], reserve := [], ready := false),
              t, CloseQueue))
  }

  function CloseChannels(s: State): seq<Request> {
    seq(|s.requests|, r requires 0 <= r < |s.requests| =>
      if r in s.queue then s.requests[r].(channelClosed := true) else s.requests[r])
  }

  function StepCloseQueue(s: State, t: nat): Option<State>
    requires t < |s.threads|
  {
    if s.pendingHolder.Some? then None
    else Some(At(s.(requests := CloseChannels(s), queue := [], writer := None), t, Finished))
  }

  function StepReadStart(s: State, t: nat): Option<State>
    requires t < |s.threads|
  {
    if s.writer.Some? then None
    else if !s.ready || s.work == [] || s.work[0] >= |s.cores| then Some(At(s, t, Finished))
    else Some(At(RLock(s, t), t, ReadScan(1, 0, s.cores[s.work[0]].active)))
  }

  function StepReadScan(s: State, t: nat, i: nat, best: int, minActive: int): Option<State>
    requires t < |s.threads|
  {
    if i < |s.work| && s.work[i] < |s.cores| then
      var active := s.cores[s.work[i]].active;
      Some(At(s, t, if active < minActive then ReadScan(i + 1, i, active) else ReadScan(i + 1, best, minActive)))
    else if 0 <= best < |s.work| then Some(At(s, t, Locking(Caller, s.work[best])))
    else None
  }

  function NowOf(choice: Choice): int {
    if choice.Go? then choice.now else 0
  }

  /** One step of thread `t`; None when it has to wait or the choice is not open to it. */
  function StepThread(s: State, t: nat, choice: Choice): Option<State> {
    if t >= |s.threads| then None
    else
      match s.threads[t]
      case WorkStart(who) => StepWorkStart(s, t, who)
      case WorkScan(who, i, best, m) => StepWorkScan(s, t, who, i, best, m)
      case ReserveStart(who) => StepReserveStart(s, t, who)
      case ReserveScan(who, i) => StepReserveScan(s, t, who, i)
      case Trying(who, i) => StepTrying(s, t, who, i)
      case ReadStart => StepReadStart(s, t)
      case ReadScan(i, best, m) => StepReadScan(s, t, i, best, m)
      case Locking(who, c) => StepLocking(s, t, who, c)
      case Locked(who, c) => StepLocked(s, t, who, c, NowOf(choice))
      case Counted(who, c) => StepCounted(s, t, who, c)
      case StartReserve(who) => StepStartReserve(s, t, who, choice)
      case Enqueue => StepEnqueue(s, t)
      case Waiting(r) => StepWaiting(s, t, r, choice)
      case Cancelling(r) => StepCancelling(s, t, r)
      case Holding(c) => StepRelease(s, t, Caller, c)
      case Releasing(c) => StepRelease(s, t, Dispatcher, c)
      case Unlocking(who, c) => StepUnlocking(s, t, who, c, NowOf(choice))
      case DispatchStart => StepDispatchStart(s, t)
      case DispatchLoop => StepDispatchLoop(s, t)
      case Handing(c) => StepHanding(s, t, c, choice)
      case CleanStart => StepCleanStart(s, t, NowOf(choice))
      case CleanScan(i, remaining, now) => StepCleanScan(s, t, i, remaining, now)
      case CleanClose(i, remaining, now) => StepCleanClose(s, t, i, remaining, now)
      case CloseStart => StepCloseStart(s, t)
      case CloseQueue => StepCloseQueue(s, t)
      case Finished => None
      case NilCore => None
  }

  function Step(s: State, a: Action): Option<State> {
    match a
    case Run(t, choice) => StepThread(s, t, choice)
    case NewThread(pc) =>
      if pc in {WorkStart(Caller), ReadStart, CleanStart, CloseStart} then Some(s.(threads := s.threads + [pc])) else None
    case CancelContext(r) =>
      if r < |s.requests| then Some(SetRequest(s, r, s.requests[r].(ctxDone := true))) else None
  }

  /** NewPool: `n` work cores, numbered from 1, and no reserve core. */
  function Initial(n: nat, maxReserve: nat): State {
    State(seq(n, i requires 0 <= i < n => Core(Work, i + 1, false, 0, 0, false)), seq(n, i requires 0 <= i < n => i), [],
          maxReserve, 0, true, false, map[], {}, None, None, [], [], [], [])
  }

  /** The state after a run of actions; None if one of them was not possible. */
  function RunAll(s: State, actions: seq<Action>): Option<State> {
    if actions == [] then Some(s)
    else
      var r := RunAll(s, actions[..|actions| - 1]);
      if r.None? then None else Step(r.value, actions[|actions| - 1])
  }
}
