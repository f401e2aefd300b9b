/**
 The multiplexed connection between the main process and one worker
 (pkg/ttsruntime/worker_process.go and cmd/worker_main.go) as a state machine.

 Callers, the response reader, the worker's request loop and its task goroutines take steps in
 any order. The connection carries whole frames in order, as `Framing` shows, until it is lost.
 A call is identified by its request number; so is its reply channel.
 */
module Demux {
  import opened Options

  datatype Kind = Result | Chunk | Error | Pong | Done | Cancelled

  /** A response frame. Connection errors made up by the reader itself carry the request number 0. */
  datatype Response = Response(id: nat, kind: Kind, body: int)

  /** The response types after which the reader forgets a request. */
  predicate Terminal(k: Kind) {
    k != Chunk
  }

  /** Calls: answered by the request loop itself, answered by a synthesis task, or streamed by one. */
  datatype CallKind = Quick | Synthesis | Stream

  datatype CallPc = Assigned | Registered | Waiting(cancelSent: bool) | Leaving | Ended

  /** A call, and whether its request has been written to the connection. */
  datatype Call = Call(kind: CallKind, pc: CallPc, written: bool)

  datatype Request = Ask(id: nat, kind: CallKind) | Cancel(id: nat)

  datatype ReaderPc = Reading | Delivering(resp: Response) | Closing | Stopped

  /** A worker task: before registering itself, running, or about to write a response. */
  datatype TaskPc = Starting | Running | Writing(resp: Response) | Over

  datatype LoopPc = Idle | Answering(resp: Response)

  datatype State = State(
    // main process
    nextID: nat, calls: map<nat, Call>, pending: set<nat>,
    channel: map<nat, seq<Response>>, sent: map<nat, seq<Response>>, out: map<nat, seq<Response>>,
    closedChannels: set<nat>, reader: ReaderPc,
    // the connection: requests under way; all responses ever written, and how many the reader has taken
    requests: seq<Request>, written: seq<Response>, consumed: nat,
    // worker process
    loop: LoopPc, taken: set<nat>, tasks: map<nat, TaskPc>, active: set<nat>, cancelled: set<nat>)

  const CONNECTION_LOST := Response(0, Error, -1)

  function Capacity(kind: CallKind): nat {
    if kind == Stream then 64 else 1
  }

  function Initial(): State {
    State(0, map[], {}, map[], map[], map[], {}, Reading, [], [], 0, Idle, {}, map[], {}, {})
  }

  datatype Action =
    | Begin(callKind: CallKind)
    | Register(id: nat)
    | Write(id: nat)
    | WriteFails(id: nat)
    | Receive(id: nat)
    | GiveUp(id: nat)
    | SendCancel(id: nat)
    | Leave(id: nat)
    | Read
    | Deliver
    | Lose
    | FailPending(id: nat)
    | StopReading
    | TakeRequest(kind: Kind, body: int)
    | Answer
    | StartTask(id: nat)
    | Decide(id: nat, kind: Kind, body: int)
    | FinishSilently(id: nat)
    | Emit(id: nat)

  // ----- Main process -----

  /** A call takes the next request number. */
  function StepBegin(s: State, kind: CallKind): Option<State> {
    Some(s.(nextID := s.nextID + 1, calls := s.calls[s.nextID + 1 := Call(kind, Assigned, false)]))
  }

  /** The pending map may be changed: closePending does not have its lock. */
  predicate MapFree(s: State) {
    s.reader != Closing
  }

  function SetPc(s: State, id: nat, pc: CallPc): State
    requires id in s.calls
  {
    s.(calls := s.calls[id := s.calls[id].(pc := pc)])
  }

  function StepRegister(s: State, id: nat): Option<State> {
    if id in s.calls && s.calls[id].pc == Assigned && MapFree(s) then
      Some(SetPc(s, id, Registered).(pending := s.pending + {id}, channel := s.channel[id := []],
                                     sent := s.sent[id := []], out := s.out[id := []]))
    else None
  }

  function StepWrite(s: State, id: nat): Option<State> {
    if id in s.calls && s.calls[id].pc == Registered then
      Some(s.(calls := s.calls[id := s.calls[id].(pc := Waiting(false), written := true)],
              requests := s.requests + [Ask(id, s.calls[id].kind)]))
    else None
  }

  /** The request could not be written: a stream call forgets its entry and closes its channel. */
  function StepWriteFails(s: State, id: nat): Option<State> {
    if id in s.calls && s.calls[id].pc == Registered && MapFree(s) then
      if s.calls[id].kind == Stream then
        Some(SetPc(s, id, Ended).(pending := s.pending - {id}, closedChannels := s.closedChannels + {id}))
      else Some(SetPc(s, id, Leaving))
    else None
  }

  /** Take a message from the reply channel. A plain call is done with it; a stream goes on until its last message. */
  function StepReceive(s: State, id: nat): Option<State> {
    if id in s.calls && s.calls[id].pc.Waiting? && id in s.channel && id in s.out && s.channel[id] != [] then
      var m := s.channel[id][0];
      var last := s.calls[id].kind != Stream || m.kind in {Done, Error, Cancelled};
      var s' := s.(channel := s.channel[id := s.channel[id][1..]], out := s.out[id := s.out[id] + [m]]);
      Some(if last then SetPc(s', id, Leaving) else s')
    else None
  }

  /** A plain call stops waiting: the timeout fired. */
  function StepGiveUp(s: State, id: nat): Option<State> {
    if id in s.calls && s.calls[id].pc.Waiting? && s.calls[id].kind != Stream then Some(SetPc(s, id, Leaving)) else None
  }

  /** The caller's context is done: the worker is told once; a stream keeps reading, a plain call leaves. */
  function StepSendCancel(s: State, id: nat): Option<State> {
    if id in s.calls && s.calls[id].pc == Waiting(false) then
      Some(SetPc(s, id, if s.calls[id].kind == Stream then Waiting(true) else Leaving)
             .(requests := s.requests + [Cancel(id)]))
    else None
  }

  function StepLeave(s: State, id: nat): Option<State> {
    if id in s.calls && s.calls[id].pc == Leaving && MapFree(s) then
      Some(SetPc(s, id, Ended).(pending := s.pending - {id}))
    else None
  }

  /** readLoop: take the next response, look its request up, and forget it if the response is terminal. */
  function StepRead(s: State): Option<State> {
    if s.reader == Reading && s.consumed < |s.written| then
      var r := s.written[s.consumed];
      var s' := s.(consumed := s.consumed + 1);
      if r.id in s.pending then
        Some(s'.(reader := Delivering(r), pending := if Terminal(r.kind) then s.pending - {r.id} else s.pending))
      else Some(s')
    else None
  }

  /** There is room in the channel of a call. */
  predicate HasRoom(s: State, id: nat) {
    id in s.calls && id in s.channel && |s.channel[id]| < Capacity(s.calls[id].kind)
  }

  function Put(s: State, id: nat, m: Response): State
    requires id in s.channel && id in s.sent
  {
    s.(channel := s.channel[id := s.channel[id] + [m]], sent := s.sent[id := s.sent[id] + [m]])
  }

  function StepDeliver(s: State): Option<State> {
    if s.reader.Delivering? && HasRoom(s, s.reader.resp.id) && s.reader.resp.id in s.sent then
      Some(Put(s, s.reader.resp.id, s.reader.resp).(reader := Reading))
    else None
  }

  /** The connection breaks: no further response is read. */
  function StepLose(s: State): Option<State> {
    if s.reader == Reading then Some(s.(reader := Closing)) else None
  }

  /** closePending: every pending request gets the connection error and is forgotten. */
  function StepFailPending(s: State, id: nat): Option<State> {
    if s.reader == Closing && id in s.pending && HasRoom(s, id) && id in s.sent then
      Some(Put(s, id, CONNECTION_LOST).(pending := s.pending - {id}))
    else None
  }

  function StepStopReading(s: State): Option<State> {
    if s.reader == Closing && s.pending == {} then Some(s.(reader := Stopped)) else None
  }

  // ----- Worker process -----

  /** The request loop takes a request. Quick requests it answers itself, synthesis requests become
      tasks, and a cancellation stops the task if it is registered; its acknowledgement has number 0. */
  function StepTakeRequest(s: State, kind: Kind, body: int): Option<State> {
    if s.loop == Idle && s.requests != [] then
      var s' := s.(requests := s.requests[1..]);
      match s.requests[0]
      case Ask(id, Quick) =>
        if kind in {Result, Pong, Error} then
          Some(s'.(taken := s.taken + {id}, loop := Answering(Response(id, kind, body))))
        else None
      case Ask(id, _) => Some(s'.(taken := s.taken + {id}, tasks := s.tasks[id := Starting]))
      case Cancel(id) =>
        if id in s.active then
          Some(s'.(active := s.active - {id}, cancelled := s.cancelled + {id},
                   loop := Answering(Response(0, Cancelled, body))))
        else Some(s'.(loop := Answering(Response(0, Error, body))))
    else None
  }

  function StepAnswer(s: State): Option<State> {
    if s.loop.Answering? then Some(s.(loop := Idle, written := s.written + [s.loop.resp])) else None
  }

  function StepStartTask(s: State, id: nat): Option<State> {
    if id in s.tasks && s.tasks[id] == Starting then
      Some(s.(tasks := s.tasks[id := Running], active := s.active + {id}))
    else None
  }

  /** What a task may decide to write next: a stream its chunks, its end, or its cancellation; a
      synthesis its result or error, or, after a cancellation, the notice of it. */
  predicate MayWrite(s: State, id: nat, kind: Kind)
    requires id in s.calls
  {
    if s.calls[id].kind == Stream then
      match kind
      case Chunk => id !in s.cancelled
      case Cancelled => id in s.cancelled
      case Done => true
      case Error => true
      case _ => false
    else
      match kind
      case Result => id !in s.cancelled
      case Error => id !in s.cancelled
      case Cancelled => id in s.cancelled
      case _ => false
  }

  function StepDecide(s: State, id: nat, kind: Kind, body: int): Option<State> {
    if id in s.tasks && s.tasks[id] == Running && id in s.calls && MayWrite(s, id, kind) then
      Some(s.(tasks := s.tasks[id := Writing(Response(id, kind, body))]))
    else None
  }

  /** A synthesis that finishes after it was cancelled drops its result. */
  function StepFinishSilently(s: State, id: nat): Option<State> {
    if id in s.tasks && s.tasks[id] == Running && id in s.calls && s.calls[id].kind == Synthesis && id in s.cancelled then
      Some(s.(tasks := s.tasks[id := Over], active := s.active - {id}))
    else None
  }

  /** The task's response goes out; only a chunk leaves it running. */
  function StepEmit(s: State, id: nat): Option<State> {
    if id in s.tasks && s.tasks[id].Writing? then
      var r := s.tasks[id].resp;
      var s' := s.(written := s.written + [r]);
      if r.kind == Chunk then Some(s'.(tasks := s.tasks[id := Running]))
      else Some(s'.(tasks := s.tasks[id := Over], active := s.active - {id}))
    else None
  }

  function Step(s: State, a: Action): Option<State> {
    match a
    case Begin(kind) => StepBegin(s, kind)
    case Register(id) => StepRegister(s, id)
    case Write(id) => StepWrite(s, id)
    case WriteFails(id) => StepWriteFails(s, id)
    case Receive(id) => StepReceive(s, id)
    case GiveUp(id) => StepGiveUp(s, id)
    case SendCancel(id) => StepSendCancel(s, id)
    case Leave(id) => StepLeave(s, id)
    case Read => StepRead(s)
    case Deliver => StepDeliver(s)
    case Lose => StepLose(s)
    case FailPending(id) => StepFailPending(s, id)
    case StopReading => StepStopReading(s)
    case TakeRequest(kind, body) => StepTakeRequest(s, kind, body)
    case Answer => StepAnswer(s)
    case StartTask(id) => StepStartTask(s, id)
    case Decide(id, kind, body) => StepDecide(s, id, kind, body)
    case FinishSilently(id) => StepFinishSilently(s, id)
    case Emit(id) => StepEmit(s, id)
  }

  function RunAll(actions: seq<Action>): Option<State> {
    if actions == [] then Some(Initial())
    else
      var r := RunAll(actions[..|actions| - 1]);
      if r.None? then None else Step(r.value, actions[|actions| - 1])
  }
}
