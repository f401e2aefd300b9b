/**
 When a call returns, with what, and what it has told the worker by then, in every run of the multiplexed connection
 (pkg/ttsruntime/worker_process.go).
 */
module DemuxCallers {
  import opened Options
  import opened Demux
  import opened DemuxFrames
  import opened DemuxSafety

  // ----- When a call returns -----

  ghost predicate EndsStream(m: Response) {
    m.kind == Done || m.kind == Error || m.kind == Cancelled
  }

  ghost predicate Unfinished(out: seq<Response>) {
    forall m | m in out :: !EndsStream(m)
  }

  ghost predicate Finished(out: seq<Response>) {
    out != [] && EndsStream(out[|out| - 1]) && Unfinished(out[..|out| - 1])
  }

  /** What a call has received, by where it is. A stream whose request went out reads on until the message that ends it,
      also after a cancellation, and its channel is closed exactly when its request did not go out; a plain call takes
      one message or gives up. */
  ghost predicate CallerOk(c: Call, out: seq<Response>, closed: bool) {
    match c.pc
    case Assigned => out == [] && !closed && !c.written
    case Registered => out == [] && !closed && !c.written
    case Waiting(told) => !closed && c.written && if c.kind == Stream then Unfinished(out) else out == [] && !told
    case Leaving => !closed && if c.kind == Stream then c.written && Finished(out) else |out| <= 1
    case Ended =>
      if c.kind == Stream then (if closed then out == [] && !c.written else c.written && Finished(out))
      else !closed && |out| <= 1
  }

  function OutOf(s: State, id: nat): seq<Response> {
    if id in s.out then s.out[id] else []
  }

  ghost predicate CallersOk(s: State) {
    && (forall id | id in s.calls :: CallerOk(s.calls[id], OutOf(s, id), id in s.closedChannels))
    && (forall id: nat | id in s.calls :: 1 <= id <= s.nextID) && (forall id: nat | 1 <= id <= s.nextID :: id in s.calls)
    && (forall id | id in s.out :: id in s.calls) && (forall id | id in s.closedChannels :: id in s.calls)
  }

  /** A caller's step leaves the other calls alone. */
  lemma OtherCaller(s: State, a: Action, s': State, id: nat)
    requires Step(s, a) == Some(s') && IsCaller(a) && !a.Begin? && id != a.id
    ensures OutOf(s', id) == OutOf(s, id) && (id in s'.closedChannels <==> id in s.closedChannels)
    ensures id in s'.out ==> id in s.out
  {
    Frame(s, a, s');
    match a
    case Register(_) =>
    case Receive(_) =>
    case WriteFails(_) =>
    case _ =>
  }

  lemma OwnReceive(s: State, id: nat, s': State)
    requires StepReceive(s, id) == Some(s') && CallerOk(s.calls[id], OutOf(s, id), id in s.closedChannels)
    ensures CallerOk(s'.calls[id], OutOf(s', id), id in s'.closedChannels)
    ensures id in s.out
  {
    var m := s.channel[id][0];
    var out := s.out[id] + [m];
    assert OutOf(s', id) == out && out[|out| - 1] == m && out[..|out| - 1] == s.out[id];
  }

  lemma OwnRegister(s: State, id: nat, s': State)
    requires StepRegister(s, id) == Some(s') && CallerOk(s.calls[id], OutOf(s, id), id in s.closedChannels)
    ensures CallerOk(s'.calls[id], OutOf(s', id), id in s'.closedChannels)
  {
  }

  lemma OwnWriteFails(s: State, id: nat, s': State)
    requires StepWriteFails(s, id) == Some(s') && CallerOk(s.calls[id], OutOf(s, id), id in s.closedChannels)
    ensures CallerOk(s'.calls[id], OutOf(s', id), id in s'.closedChannels)
  {
  }

  /** The steps that only move the call on. */
  lemma OwnMove(s: State, a: Action, s': State)
    requires Step(s, a) == Some(s') && (a.Write? || a.GiveUp? || a.SendCancel? || a.Leave?)
    requires CallerOk(s.calls[a.id], OutOf(s, a.id), a.id in s.closedChannels)
    requires a.id in s.calls
    ensures a.id in s'.calls && CallerOk(s'.calls[a.id], OutOf(s', a.id), a.id in s'.closedChannels)
  {
    hide Finished;
    Frame(s, a, s');
    match a
    case Write(_) =>
    case GiveUp(_) =>
    case SendCancel(_) =>
    case Leave(_) =>
    case _ =>
  }

  lemma OwnStep(s: State, a: Action, s': State)
    requires Step(s, a) == Some(s') && IsCaller(a) && !a.Begin? && a.id in s.calls
    requires CallerOk(s.calls[a.id], OutOf(s, a.id), a.id in s.closedChannels)
    ensures a.id in s'.calls && CallerOk(s'.calls[a.id], OutOf(s', a.id), a.id in s'.closedChannels)
    ensures forall id | id in s'.out :: id in s.out || id == a.id
    ensures forall id | id in s'.closedChannels :: id in s.closedChannels || id == a.id
  {
    hide CallerOk, StepWrite, StepGiveUp, StepSendCancel, StepLeave;
    Frame(s, a, s');
    match a
    case Register(id) => OwnRegister(s, id, s');
    case Receive(id) => OwnReceive(s, id, s');
    case WriteFails(id) => OwnWriteFails(s, id, s');
    case _ => OwnMove(s, a, s');
  }

  lemma CallersStep(s: State, a: Action, s': State)
    requires CallersOk(s) && Step(s, a) == Some(s')
    ensures CallersOk(s')
  {
    hide Step, CallerOk;
    Frame(s, a, s');
    if a.Begin? {
      BeginCallers(s, a.callKind, s');
    } else if IsCaller(a) {
      OwnStep(s, a, s');
      forall id | id in s'.calls ensures CallerOk(s'.calls[id], OutOf(s', id), id in s'.closedChannels) {
        if id != a.id {
          OtherCaller(s, a, s', id);
        }
      }
    } else {
      assert forall id: nat :: OutOf(s', id) == OutOf(s, id);
    }
  }

  lemma BeginCallers(s: State, kind: CallKind, s': State)
    requires CallersOk(s) && Step(s, Begin(kind)) == Some(s')
    ensures CallersOk(s')
  {
    assert forall id: nat :: OutOf(s', id) == OutOf(s, id);
    NewCaller(kind);
    hide CallerOk;
    assert s.nextID + 1 !in s.calls && s'.nextID == s.nextID + 1;
  }

  lemma NewCaller(kind: CallKind)
    ensures CallerOk(Call(kind, Assigned, false), [], false)
  {
  }

  // ----- Reply channels -----

  /** A stream's channel takes 64 messages, a plain call's one. */
  ghost predicate RoomOk(s: State) {
    forall id | id in s.channel && id in s.calls :: |s.channel[id]| <= if s.calls[id].kind == Stream then 64 else 1
  }

  lemma ChannelStep(s: State, a: Action, s': State, id: nat)
    requires Step(s, a) == Some(s') && id in s.channel && id in s'.channel && id in s.calls
    ensures |s'.channel[id]| <= |s.channel[id]| || |s'.channel[id]| <= if s.calls[id].kind == Stream then 64 else 1
  {
    Frame(s, a, s');
    hide StepBegin, StepWrite, StepWriteFails, StepGiveUp, StepSendCancel, StepLeave, StepRead, StepLose, StepStopReading,
         StepTakeRequest, StepAnswer, StepStartTask, StepDecide, StepFinishSilently, StepEmit;
  }

  lemma NewChannel(s: State, a: Action, s': State, id: nat)
    requires Step(s, a) == Some(s') && id !in s.channel && id in s'.channel
    ensures s'.channel[id] == []
  {
    Frame(s, a, s');
    hide StepBegin, StepWrite, StepWriteFails, StepGiveUp, StepSendCancel, StepLeave, StepRead, StepLose, StepStopReading,
         StepTakeRequest, StepAnswer, StepStartTask, StepDecide, StepFinishSilently, StepEmit;
  }

  lemma RoomStep(s: State, a: Action, s': State)
    requires Inv(s) && RoomOk(s) && Step(s, a) == Some(s')
    ensures RoomOk(s')
  {
    hide Inv, Step, OneCall;
    PendingSent(s);
    Frame(s, a, s');
    forall id | id in s'.channel && id in s'.calls
      ensures |s'.channel[id]| <= if s'.calls[id].kind == Stream then 64 else 1
    {
      if id in s.channel {
        ChannelStep(s, a, s', id);
        CallFacts(s, id);
        KindStays(s, a, s', id);
      } else {
        NewChannel(s, a, s', id);
      }
    }
  }

  lemma {:induction false} CallersRun(actions: seq<Action>)
    requires RunAll(actions).Some?
    ensures CallersOk(RunAll(actions).value) && RoomOk(RunAll(actions).value)
  {
    hide Step, Inv;
    if actions != [] {
      var before, a := actions[..|actions| - 1], actions[|actions| - 1];
      CallersRun(before);
      RunInv(before);
      hide CallersOk, RoomOk, RunAll;
      CallersStep(RunAll(before).value, a, RunAll(actions).value);
      RoomStep(RunAll(before).value, a, RunAll(actions).value);
    }
  }

  /** Calls are numbered one by one from 1; a stream returns exactly with the message that ends it, and a plain call with
      at most one message; the reader finds room exactly below 64 messages, or below one. */
  lemma CallsReturn(s: State, id: nat)
    requires Reaches(s)
    ensures id in s.calls <==> 1 <= id <= s.nextID
    ensures id in s.calls ==> CallerOk(s.calls[id], OutOf(s, id), id in s.closedChannels)
    ensures s.reader.Delivering? && s.reader.resp.id == id && id in s.calls && id in s.channel ==>
      (Step(s, Deliver).Some? <==> |s.channel[id]| < if s.calls[id].kind == Stream then 64 else 1)
    ensures id in s.calls && id in s.channel ==> |s.channel[id]| <= if s.calls[id].kind == Stream then 64 else 1
  {
    hide RunAll, CallerOk, Inv;
    var actions :| RunAll(actions) == Some(s);
    CallersRun(actions);
    RunInv(actions);
    PendingSent(s);
  }

  // ----- What a caller may do -----

  /** A call goes on as far as its reply lets it; only while the reader fails the pending requests must it wait for
      the map. */
  lemma GoesOnExactly(s: State, id: nat)
    requires Reaches(s) && id in s.calls
    ensures Step(s, Register(id)).Some? <==> s.calls[id].pc == Assigned && s.reader != Closing
    ensures Step(s, Write(id)).Some? <==> s.calls[id].pc == Registered
    ensures Step(s, WriteFails(id)).Some? <==> s.calls[id].pc == Registered && s.reader != Closing
    ensures Step(s, Receive(id)).Some? <==> s.calls[id].pc.Waiting? && id in s.channel && s.channel[id] != []
    ensures Step(s, GiveUp(id)).Some? <==> s.calls[id].pc.Waiting? && s.calls[id].kind != Stream
    ensures Step(s, SendCancel(id)).Some? <==> s.calls[id].pc == Waiting(false)
    ensures Step(s, Leave(id)).Some? <==> s.calls[id].pc == Leaving && s.reader != Closing
  {
    hide Inv, Reaches;
    ReachedInv(s);
    if id in s.channel {
      HasOut(s, id);
    }
  }

  lemma HasOut(s: State, id: nat)
    requires Inv(s) && id in s.channel
    ensures id in s.out && id in s.sent
  {
    hide RequestsOk, WrittenOk, RoutingOk;
  }

  /** A lost connection leaves nobody pending: while there is one, its entry can be failed, or, if its channel is full,
      its caller can read; then the reader stops. */
  lemma ClosingGoesOn(s: State, id: nat)
    requires Reaches(s) && s.reader == Closing
    ensures Step(s, StopReading).Some? <==> s.pending == {}
    ensures id in s.pending ==>
      id in s.calls && id in s.channel &&
      (Step(s, FailPending(id)).Some? <==> |s.channel[id]| < if s.calls[id].kind == Stream then 64 else 1)
  {
    hide Inv, Reaches;
    ReachedInv(s);
    PendingSent(s);
    ClosingSteps(s, id);
  }

  lemma ClosingSteps(s: State, id: nat)
    requires s.reader == Closing
    ensures Step(s, StopReading).Some? <==> s.pending == {}
    ensures id in s.pending && id in s.calls && id in s.channel && id in s.sent ==>
      (Step(s, FailPending(id)).Some? <==> |s.channel[id]| < if s.calls[id].kind == Stream then 64 else 1)
  {
    assert Step(s, StopReading) == StepStopReading(s) && Step(s, FailPending(id)) == StepFailPending(s, id);
  }

  // ----- What a caller has told the worker -----

  function Cancels(actions: seq<Action>, id: nat): nat {
    if actions == [] then 0
    else Cancels(actions[..|actions| - 1], id) + (if actions[|actions| - 1] == SendCancel(id) then 1 else 0)
  }

  /** A call that has not asked for its cancellation yet and may still do so. */
  ghost predicate MayTell(s: State, id: nat) {
    id !in s.calls || s.calls[id].pc == Assigned || s.calls[id].pc == Registered || s.calls[id].pc == Waiting(false)
  }

  lemma TellStep(s: State, a: Action, s': State, id: nat)
    requires Step(s, a) == Some(s') && (id in s.calls ==> id <= s.nextID)
    ensures MayTell(s', id) ==> MayTell(s, id) && a != SendCancel(id)
    ensures a == SendCancel(id) ==> MayTell(s, id)
  {
    hide Step;
    Frame(s, a, s');
    if IsCaller(a) && !a.Begin? && a.id == id {
      TellOwn(s, a, s');
    }
  }

  lemma TellOwn(s: State, a: Action, s': State)
    requires Step(s, a) == Some(s') && IsCaller(a) && !a.Begin? && a.id in s'.calls
    ensures MayTell(s', a.id) ==> MayTell(s, a.id) && !a.SendCancel?
    ensures a.SendCancel? ==> MayTell(s, a.id)
  {
    hide StepBegin, StepRead, StepDeliver, StepLose, StepFailPending, StepStopReading, StepTakeRequest, StepAnswer,
         StepStartTask, StepDecide, StepFinishSilently, StepEmit;
    match a
    case Register(_) =>
    case Write(_) =>
    case WriteFails(_) =>
    case Receive(_) =>
    case GiveUp(_) =>
    case SendCancel(_) =>
    case Leave(_) =>
    case _ =>
  }

  /** The worker is told at most once, and only while the call waits for its reply. */
  lemma {:induction false} ToldOnce(actions: seq<Action>, id: nat)
    requires RunAll(actions).Some?
    ensures Cancels(actions, id) <= 1
    ensures MayTell(RunAll(actions).value, id) ==> Cancels(actions, id) == 0
  {
    if actions != [] {
      var before, a := actions[..|actions| - 1], actions[|actions| - 1];
      ToldOnce(before, id);
      RunInv(before);
      if id in RunAll(before).value.calls {
        CallFacts(RunAll(before).value, id);
      }
      hide Inv, Step, MayTell, RunAll;
      TellStep(RunAll(before).value, a, RunAll(actions).value, id);
    }
  }
}
