/**
 What each step of the multiplexed connection leaves alone.
 */
module DemuxFrames {
  import opened Options
  import opened Demux

  /** Only one call changes, which has not ended, and it stays a call of its kind. */
  ghost predicate OneCall(s: State, id: nat, s': State) {
    && id in s.calls && id in s'.calls && s'.calls == s.calls[id := s'.calls[id]]
    && s'.calls[id].kind == s.calls[id].kind && s.calls[id].pc != Ended
  }

  lemma BeginFrame(s: State, kind: CallKind, s': State)
    requires StepBegin(s, kind) == Some(s')
    ensures s' == s.(nextID := s'.nextID, calls := s'.calls)
    ensures s'.calls == s.calls[s.nextID + 1 := Call(kind, Assigned, false)]
  {
  }

  lemma RegisterFrame(s: State, id: nat, s': State)
    requires StepRegister(s, id) == Some(s')
    ensures s' == s.(calls := s'.calls, pending := s'.pending, channel := s'.channel, sent := s'.sent, out := s'.out)
    ensures OneCall(s, id, s')
  {
  }

  lemma WriteFrame(s: State, id: nat, s': State)
    requires StepWrite(s, id) == Some(s')
    ensures s' == s.(calls := s'.calls, requests := s'.requests)
    ensures OneCall(s, id, s')
  {
  }

  lemma WriteFailsFrame(s: State, id: nat, s': State)
    requires StepWriteFails(s, id) == Some(s')
    ensures s' == s.(calls := s'.calls, pending := s'.pending, closedChannels := s'.closedChannels)
    ensures OneCall(s, id, s')
  {
  }

  lemma ReceiveFrame(s: State, id: nat, s': State)
    requires StepReceive(s, id) == Some(s')
    ensures s' == s.(calls := s'.calls, channel := s'.channel, out := s'.out)
    ensures OneCall(s, id, s')
  {
  }

  lemma GiveUpFrame(s: State, id: nat, s': State)
    requires StepGiveUp(s, id) == Some(s')
    ensures s' == s.(calls := s'.calls)
    ensures OneCall(s, id, s')
  {
  }

  lemma SendCancelFrame(s: State, id: nat, s': State)
    requires StepSendCancel(s, id) == Some(s')
    ensures s' == s.(calls := s'.calls, requests := s'.requests)
    ensures OneCall(s, id, s')
  {
  }

  lemma LeaveFrame(s: State, id: nat, s': State)
    requires StepLeave(s, id) == Some(s')
    ensures s' == s.(calls := s'.calls, pending := s'.pending)
    ensures OneCall(s, id, s')
  {
  }

  lemma ReadFrame(s: State, s': State)
    requires StepRead(s) == Some(s')
    ensures s' == s.(consumed := s'.consumed, reader := s'.reader, pending := s'.pending)
  {
  }

  lemma DeliverFrame(s: State, s': State)
    requires StepDeliver(s) == Some(s')
    ensures s' == s.(channel := s'.channel, sent := s'.sent, reader := s'.reader)
  {
  }

  lemma LoseFrame(s: State, s': State)
    requires StepLose(s) == Some(s')
    ensures s' == s.(reader := s'.reader)
  {
  }

  lemma FailPendingFrame(s: State, id: nat, s': State)
    requires StepFailPending(s, id) == Some(s')
    ensures s' == s.(channel := s'.channel, sent := s'.sent, pending := s'.pending)
  {
  }

  lemma StopReadingFrame(s: State, s': State)
    requires StepStopReading(s) == Some(s')
    ensures s' == s.(reader := s'.reader)
  {
  }

  lemma TakeRequestFrame(s: State, kind: Kind, body: int, s': State)
    requires StepTakeRequest(s, kind, body) == Some(s')
    ensures s' == s.(requests := s'.requests, taken := s'.taken, tasks := s'.tasks, active := s'.active,
                    cancelled := s'.cancelled, loop := s'.loop)
  {
    match s.requests[0]
    case Ask(_, Quick) =>
    case Ask(_, _) =>
    case Cancel(id) =>
      if id in s.active {
      } else {
      }
  }

  lemma AnswerFrame(s: State, s': State)
    requires StepAnswer(s) == Some(s')
    ensures s' == s.(loop := s'.loop, written := s'.written)
  {
  }

  lemma StartTaskFrame(s: State, id: nat, s': State)
    requires StepStartTask(s, id) == Some(s')
    ensures s' == s.(tasks := s'.tasks, active := s'.active)
  {
  }

  lemma DecideFrame(s: State, id: nat, kind: Kind, body: int, s': State)
    requires StepDecide(s, id, kind, body) == Some(s')
    ensures s' == s.(tasks := s'.tasks)
  {
  }

  lemma FinishSilentlyFrame(s: State, id: nat, s': State)
    requires StepFinishSilently(s, id) == Some(s')
    ensures s' == s.(tasks := s'.tasks, active := s'.active)
  {
  }

  lemma EmitFrame(s: State, id: nat, s': State)
    requires StepEmit(s, id) == Some(s')
    ensures s' == s.(tasks := s'.tasks, active := s'.active, written := s'.written)
  {
  }

  predicate IsCaller(a: Action) {
    a.Begin? || a.Register? || a.Write? || a.WriteFails? || a.Receive? || a.GiveUp? || a.SendCancel? || a.Leave?
  }

  /** Callers and the reader do not touch the worker; only callers change calls; and so on. */
  lemma Frame(s: State, a: Action, s': State)
    requires Step(s, a) == Some(s')
    ensures a.TakeRequest? || a.StartTask? || a.Decide? || a.FinishSilently? || a.Emit? ||
      (s'.tasks == s.tasks && s'.active == s.active && s'.cancelled == s.cancelled)
    ensures a.Emit? || a.Answer? || s'.written == s.written
    ensures a.Write? || a.SendCancel? || a.TakeRequest? || s'.requests == s.requests
    ensures a.TakeRequest? || a.Answer? || s'.loop == s.loop
    ensures a.TakeRequest? || s'.taken == s.taken
    ensures IsCaller(a) || (s'.calls == s.calls && s'.out == s.out && s'.closedChannels == s.closedChannels)
    ensures IsCaller(a) && !a.Begin? ==> OneCall(s, a.id, s')
    ensures a.Begin? ==> s'.calls == s.calls[s.nextID + 1 := Call(a.callKind, Assigned, false)]
    ensures a.Begin? || s'.nextID == s.nextID
    ensures a.Read? || a.Deliver? || a.Lose? || a.StopReading? || s'.reader == s.reader
    ensures a.Read? || s'.consumed == s.consumed
    ensures a.Register? || a.Deliver? || a.FailPending? || s'.sent == s.sent
    ensures a.Register? || a.WriteFails? || a.Leave? || a.Read? || a.FailPending? || s'.pending == s.pending
    ensures a.Register? || a.Receive? || a.Deliver? || a.FailPending? || s'.channel == s.channel
    ensures a.Register? || a.Receive? || s'.out == s.out
    ensures a.WriteFails? || s'.closedChannels == s.closedChannels
  {
    hide StepBegin, StepRegister, StepWrite, StepWriteFails, StepReceive, StepGiveUp, StepSendCancel, StepLeave,
         StepRead, StepDeliver, StepLose, StepFailPending, StepStopReading, StepTakeRequest, StepAnswer,
         StepStartTask, StepDecide, StepFinishSilently, StepEmit;
    match a
    case Begin(kind) => BeginFrame(s, kind, s');
    case Register(id) => RegisterFrame(s, id, s');
    case Write(id) => WriteFrame(s, id, s');
    case WriteFails(id) => WriteFailsFrame(s, id, s');
    case Receive(id) => ReceiveFrame(s, id, s');
    case GiveUp(id) => GiveUpFrame(s, id, s');
    case SendCancel(id) => SendCancelFrame(s, id, s');
    case Leave(id) => LeaveFrame(s, id, s');
    case Read => ReadFrame(s, s');
    case Deliver => DeliverFrame(s, s');
    case Lose => LoseFrame(s, s');
    case FailPending(id) => FailPendingFrame(s, id, s');
    case StopReading => StopReadingFrame(s, s');
    case TakeRequest(kind, body) => TakeRequestFrame(s, kind, body, s');
    case Answer => AnswerFrame(s, s');
    case StartTask(id) => StartTaskFrame(s, id, s');
    case Decide(id, kind, body) => DecideFrame(s, id, kind, body, s');
    case FinishSilently(id) => FinishSilentlyFrame(s, id, s');
    case Emit(id) => EmitFrame(s, id, s');
  }

  lemma KindStays(s: State, a: Action, s': State, id: nat)
    requires Step(s, a) == Some(s') && id in s.calls && id <= s.nextID
    ensures id in s'.calls && s'.calls[id].kind == s.calls[id].kind
  {
    hide Step;
    Frame(s, a, s');
  }
}
