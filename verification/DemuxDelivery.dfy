/**
 What every run of the multiplexed connection guarantees to a caller (pkg/ttsruntime/worker_process.go): nothing that is
 read for a call is dropped before the call ends, a call returns exactly when its reply is complete, and a worker is told
 of a cancellation once.
 */
module DemuxDelivery {
  import opened Options
  import opened Demux
  import opened DemuxFrames
  import opened DemuxSafety

  // ----- Nothing is dropped -----

  /** All that was read for a call is in its channel, or just going there, and the call is pending until the last of it;
      or the connection error was put behind it. */
  ghost predicate HandedOver(sent: seq<Response>, held: seq<Response>, read: seq<Response>, pending: bool, lost: bool) {
    || (sent + held == read && (pending <==> AllChunks(read)))
    || (lost && !pending && held == [] && AllChunks(read) && sent == read + [Response(0, Error, -1)])
  }

  ghost predicate Reported(s: State, id: nat)
    requires id in s.sent && s.consumed <= |s.written|
  {
    HandedOver(s.sent[id], Held(s.reader, id), For(s.written[..s.consumed], id), id in s.pending,
               s.reader == Closing || s.reader == Stopped)
  }

  ghost predicate AllReported(s: State) {
    && s.consumed <= |s.written|
    && forall id | id in s.sent && id in s.calls && s.calls[id].pc != Ended :: Reported(s, id)
  }

  lemma RegisterReported(s: State, id: nat, s': State)
    requires Inv(s) && StepRegister(s, id) == Some(s') && s.consumed <= |s.written|
    ensures id in s'.sent && Reported(s', id)
  {
    hide CallsOk, RequestsOk, WrittenOk, RoutingOk, For, Reported;
    CallFacts(s, id);
    WrittenNothing(s.calls, s.written, s.taken, s.tasks, s.loop, id);
    ForPrefix(s.written, s.consumed, id);
    if s.reader.Delivering? {
      HeldIsSent(s);
    }
    EmptyReported(s', id);
  }

  lemma EmptyReported(s: State, id: nat)
    requires id in s.sent && s.consumed <= |s.written| && s.sent[id] == [] && id in s.pending
    requires Held(s.reader, id) == [] && For(s.written[..s.consumed], id) == []
    ensures Reported(s, id)
  {
    hide For;
  }

  lemma ReadReported(s: State, s': State, id: nat)
    requires Inv(s) && StepRead(s) == Some(s') && id in s.sent && id in s.calls && s.consumed <= |s.written|
    requires id in s'.sent && s'.consumed <= |s'.written| && Reported(s, id)
    ensures Reported(s', id)
  {
    hide CallsOk, RequestsOk, WrittenOk, RoutingOk, For, Open;
    var r, read := s.written[s.consumed], For(s.written[..s.consumed], id);
    ForNext(s.written, s.consumed, id);
    assert s.sent[id] + [] == s.sent[id];
    if r.id == id {
      ShapeFor(s, id);
      ForPrefix(s.written, s.consumed + 1, id);
      FrontIsChunks(s.calls[id].kind, For(s.written, id), read, r, Open(id, s.tasks, s.loop));
      assert (read + [r])[|read|] == r && (forall m | m in read + [r] :: m in read || m == r);
    } else {
      assert read + [] == read;
    }
  }

  /** Only the last response of a reply ends it. */
  lemma FrontIsChunks(kind: CallKind, all: seq<Response>, read: seq<Response>, r: Response, open: bool)
    requires ShapeOf(kind, all, open) && read + [r] <= all
    ensures AllChunks(read)
  {
    forall m | m in read ensures m.kind == Chunk {
      var i :| 0 <= i < |read| && read[i] == m;
      assert all[i] == (read + [r])[i];
    }
  }

  lemma DeliverReported(s: State, s': State, id: nat)
    requires StepDeliver(s) == Some(s') && id in s.sent && s.consumed <= |s.written| && Reported(s, id)
    ensures id in s'.sent && Reported(s', id)
  {
    hide For, HasRoom;
    assert s'.sent[id] == s.sent[id] + Held(s.reader, id);
    assert s'.sent[id] + [] == s'.sent[id];
  }

  lemma FailReported(s: State, x: nat, s': State, id: nat)
    requires StepFailPending(s, x) == Some(s') && id in s.sent && s.consumed <= |s.written| && Reported(s, id)
    ensures id in s'.sent && Reported(s', id)
  {
    hide For, HasRoom;
    assert s.sent[id] + [] == s.sent[id];
  }

  lemma TurnReported(s: State, a: Action, s': State, id: nat)
    requires Step(s, a) == Some(s') && (a.Lose? || a.StopReading?)
    requires id in s.sent && s.consumed <= |s.written| && Reported(s, id)
    ensures Reported(s', id)
  {
    hide For, HandedOver;
    Frame(s, a, s');
    assert Held(s.reader, id) == [] == Held(s'.reader, id);
    LostStays(s.sent[id], For(s.written[..s.consumed], id), id in s.pending,
              s.reader == Closing || s.reader == Stopped, s'.reader == Closing || s'.reader == Stopped);
  }

  lemma LostStays(sent: seq<Response>, read: seq<Response>, pending: bool, lost: bool, lost': bool)
    requires HandedOver(sent, [], read, pending, lost) && (lost ==> lost')
    ensures HandedOver(sent, [], read, pending, lost')
  {
  }

  /** A caller's step does not change what other callers have pending. */
  lemma OtherPending(s: State, a: Action, s': State, id: nat)
    requires Step(s, a) == Some(s') && (a.Register? || a.WriteFails? || a.Leave?) && id != a.id
    ensures (id in s'.pending <==> id in s.pending) && (id in s'.sent <==> id in s.sent)
    ensures id in s.sent ==> s'.sent[id] == s.sent[id]
  {
    Frame(s, a, s');
  }

  /** The caller's own step either keeps its request pending or ends the call. */
  lemma OwnPending(s: State, a: Action, s': State)
    requires Step(s, a) == Some(s') && (a.WriteFails? || a.Leave?)
    ensures a.id in s'.calls && (s'.calls[a.id].pc == Ended || s'.pending == s.pending)
  {
  }

  lemma ReportedStep(s: State, a: Action, s': State, id: nat)
    requires Inv(s) && AllReported(s) && Step(s, a) == Some(s')
    requires id in s'.sent && id in s'.calls && s'.calls[id].pc != Ended && s'.consumed <= |s'.written|
    ensures Reported(s', id)
  {
    hide Inv, Reported, Step;
    if a == Register(id) {
      NewlyReported(s, id, s');
    } else {
      StillOpen(s, a, s', id);
      if a.Read? {
        ReadStep(s, s', id);
      } else if a.Deliver? {
        DeliverStep(s, s', id);
      } else if a.FailPending? {
        FailStep(s, a.id, s', id);
      } else if a.Lose? || a.StopReading? {
        TurnReported(s, a, s', id);
      } else {
        QuietReported(s, a, s', id);
      }
    }
  }

  lemma QuietReported(s: State, a: Action, s': State, id: nat)
    requires Step(s, a) == Some(s') && !a.Read? && !a.Lose? && !a.StopReading? && !a.Deliver?
    requires id in s.sent && s.consumed <= |s.written| && Reported(s, id)
    requires id in s'.sent && s'.sent[id] == s.sent[id] && (id in s'.pending <==> id in s.pending)
    requires s'.consumed <= |s'.written|
    ensures Reported(s', id)
  {
    hide Reported, Step;
    Frame(s, a, s');
    GrowsBehind(s, a, s');
    SameReported(s, s', id);
  }

  lemma NewlyReported(s: State, id: nat, s': State)
    requires Inv(s) && Step(s, Register(id)) == Some(s') && s.consumed <= |s.written|
    ensures id in s'.sent && Reported(s', id)
  {
    hide Inv, Reported, StepRegister;
    RegisterReported(s, id, s');
  }

  lemma ReadStep(s: State, s': State, id: nat)
    requires Inv(s) && Step(s, Read) == Some(s') && id in s.sent && id in s.calls && s.consumed <= |s.written|
    requires Reported(s, id) && id in s'.sent && s'.consumed <= |s'.written|
    ensures Reported(s', id)
  {
    hide Inv, Reported, StepRead;
    ReadReported(s, s', id);
  }

  lemma DeliverStep(s: State, s': State, id: nat)
    requires Step(s, Deliver) == Some(s') && id in s.sent && s.consumed <= |s.written| && Reported(s, id)
    requires id in s'.sent && s'.consumed <= |s'.written|
    ensures Reported(s', id)
  {
    hide Reported, StepDeliver;
    DeliverReported(s, s', id);
  }

  lemma FailStep(s: State, x: nat, s': State, id: nat)
    requires Step(s, FailPending(x)) == Some(s') && id in s.sent && s.consumed <= |s.written| && Reported(s, id)
    requires id in s'.sent && s'.consumed <= |s'.written|
    ensures Reported(s', id)
  {
    hide Reported, StepFailPending;
    FailReported(s, x, s', id);
  }

  /** A call that is open after a step was so before, and unless it registers just now, it had its channel. */
  lemma StillOpen(s: State, a: Action, s': State, id: nat)
    requires Inv(s) && Step(s, a) == Some(s') && id in s'.sent && id in s'.calls && s'.calls[id].pc != Ended
    requires a != Register(id)
    ensures id in s.sent && id in s.calls && s.calls[id].pc != Ended
    ensures !a.Read? && !a.FailPending? ==> (id in s'.pending <==> id in s.pending)
    ensures !a.Deliver? && !a.FailPending? ==> s'.sent[id] == s.sent[id]
  {
    hide Inv, Step;
    Frame(s, a, s');
    SentKeeps(s, a, s', id);
    PendingSent(s);
    CallFacts(s, id);
    if a.WriteFails? || a.Leave? {
      OwnPending(s, a, s');
    }
    if (a.Register? || a.WriteFails? || a.Leave?) && a.id != id {
      OtherPending(s, a, s', id);
    }
    if s.calls[id].pc == Ended {
      EndedStays(s, a, s', id);
    }
  }

  lemma SentKeeps(s: State, a: Action, s': State, id: nat)
    requires Step(s, a) == Some(s') && a != Register(id)
    ensures id in s'.sent ==> id in s.sent
  {
    Frame(s, a, s');
    hide HasRoom, StepBegin, StepWrite, StepWriteFails, StepReceive, StepGiveUp, StepSendCancel, StepLeave, StepRead,
         StepLose, StepStopReading, StepTakeRequest, StepAnswer, StepStartTask, StepDecide, StepFinishSilently, StepEmit;
  }

  lemma EndedStays(s: State, a: Action, s': State, id: nat)
    requires Step(s, a) == Some(s') && id in s.calls && s.calls[id].pc == Ended && id <= s.nextID
    ensures id in s'.calls && s'.calls[id].pc == Ended
  {
    hide Step;
    Frame(s, a, s');
  }

  /** What is written goes behind what has been read. */
  lemma GrowsBehind(s: State, a: Action, s': State)
    requires Step(s, a) == Some(s') && s.consumed <= |s.written| && !a.Read?
    ensures s'.consumed == s.consumed <= |s'.written| && s'.written[..s.consumed] == s.written[..s.consumed]
  {
    Frame(s, a, s');
    hide StepBegin, StepRegister, StepWrite, StepWriteFails, StepReceive, StepGiveUp, StepSendCancel, StepLeave, StepRead,
         StepDeliver, StepLose, StepFailPending, StepStopReading, StepTakeRequest, StepStartTask, StepDecide,
         StepFinishSilently;
  }

  lemma SameReported(s: State, s': State, id: nat)
    requires id in s.sent && s.consumed <= |s.written| && Reported(s, id)
    requires id in s'.sent && s'.sent[id] == s.sent[id] && (id in s'.pending <==> id in s.pending)
    requires s'.consumed == s.consumed <= |s'.written| && s'.written[..s.consumed] == s.written[..s.consumed]
    requires s'.reader == s.reader
    ensures Reported(s', id)
  {
    hide For, HandedOver;
  }

  lemma ReportedAll(s: State, a: Action, s': State)
    requires Inv(s) && AllReported(s) && Step(s, a) == Some(s')
    ensures AllReported(s')
  {
    hide Inv, Step, Reported;
    StepInv(s, a, s');
    ConsumedWritten(s');
    forall id | id in s'.sent && id in s'.calls && s'.calls[id].pc != Ended ensures Reported(s', id) {
      ReportedStep(s, a, s', id);
    }
  }

  lemma ConsumedWritten(s: State)
    requires Inv(s)
    ensures s.consumed <= |s.written|
  {
    hide CallsOk, RequestsOk, WrittenOk;
  }

  lemma {:induction false} ReportedRun(actions: seq<Action>)
    requires RunAll(actions).Some?
    ensures AllReported(RunAll(actions).value)
  {
    hide Step, Inv;
    if actions != [] {
      var before := actions[..|actions| - 1];
      RunInv(before);
      ReportedRun(before);
      ReportedAll(RunAll(before).value, actions[|actions| - 1], RunAll(actions).value);
    }
  }

  /** Until a call ends, what it has received, what waits in its channel, and what the reader holds for it is all that
      was read for it, and it is pending exactly until the last response was read; only a lost connection puts an error
      behind that, of number 0. */
  lemma NothingIsDropped(s: State, id: nat)
    requires Reaches(s) && id in s.sent && id in s.calls && s.calls[id].pc != Ended
    ensures id in s.out && id in s.channel && s.consumed <= |s.written|
    ensures HandedOver(s.out[id] + s.channel[id], Held(s.reader, id), For(s.written[..s.consumed], id), id in s.pending,
                       s.reader == Closing || s.reader == Stopped)
  {
    hide Inv, RunAll, HandedOver;
    var actions :| RunAll(actions) == Some(s);
    RunInv(actions);
    ReportedRun(actions);
    ChannelSplit(s, id);
  }
}
