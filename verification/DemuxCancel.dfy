/**
 What a cancellation does to a worker task, over every run (cmd/worker_main.go): it is acknowledged exactly when the task
 is under way, and an acknowledged one stops the task.
 */
module DemuxCancel {
  import opened Options
  import opened Demux
  import opened DemuxFrames
  import opened DemuxSafety

  ghost predicate UnderWay(t: TaskPc) {
    t == Running || t.Writing?
  }

  /** Registered are the tasks that are under way, until they are cancelled. */
  ghost predicate TasksOk(tasks: map<nat, TaskPc>, active: set<nat>, cancelled: set<nat>) {
    && (forall id | id in active :: id in tasks && UnderWay(tasks[id]) && id !in cancelled)
    && (forall id | id in cancelled :: id in tasks && tasks[id] != Starting)
    && (forall id | id in tasks && UnderWay(tasks[id]) :: id in active || id in cancelled)
  }

  /** A request that is taken has no task yet. */
  lemma NoTaskYet(s: State)
    requires Inv(s) && s.requests != [] && s.requests[0].Ask?
    ensures s.requests[0].id !in s.tasks
  {
    hide CallsOk, WrittenOk, RoutingOk;
  }

  lemma TakeTasks(s: State, kind: Kind, body: int, s': State)
    requires TasksOk(s.tasks, s.active, s.cancelled) && StepTakeRequest(s, kind, body) == Some(s')
    requires s.requests != [] && s.requests[0].Ask? ==> s.requests[0].id !in s.tasks
    ensures TasksOk(s'.tasks, s'.active, s'.cancelled)
  {
  }

  lemma StartTasks(s: State, id: nat, s': State)
    requires TasksOk(s.tasks, s.active, s.cancelled) && StepStartTask(s, id) == Some(s')
    ensures TasksOk(s'.tasks, s'.active, s'.cancelled)
  {
  }

  lemma DecideTasks(s: State, id: nat, kind: Kind, body: int, s': State)
    requires TasksOk(s.tasks, s.active, s.cancelled) && StepDecide(s, id, kind, body) == Some(s')
    ensures TasksOk(s'.tasks, s'.active, s'.cancelled)
  {
    hide MayWrite;
  }

  lemma SilentTasks(s: State, id: nat, s': State)
    requires TasksOk(s.tasks, s.active, s.cancelled) && StepFinishSilently(s, id) == Some(s')
    ensures TasksOk(s'.tasks, s'.active, s'.cancelled)
  {
  }

  lemma EmitTasks(s: State, id: nat, s': State)
    requires TasksOk(s.tasks, s.active, s.cancelled) && StepEmit(s, id) == Some(s')
    ensures TasksOk(s'.tasks, s'.active, s'.cancelled)
  {
  }

  lemma TasksStep(s: State, a: Action, s': State)
    requires Inv(s) && TasksOk(s.tasks, s.active, s.cancelled) && Step(s, a) == Some(s')
    ensures TasksOk(s'.tasks, s'.active, s'.cancelled)
  {
    hide Inv, TasksOk, StepTakeRequest, StepStartTask, StepDecide, StepFinishSilently, StepEmit, StepBegin, StepRegister,
         StepWrite, StepWriteFails, StepReceive, StepGiveUp, StepSendCancel, StepLeave, StepRead, StepDeliver, StepLose,
         StepFailPending, StepStopReading, StepAnswer;
    if s.requests != [] && s.requests[0].Ask? {
      NoTaskYet(s);
    }
    match a
    case TakeRequest(kind, body) => TakeTasks(s, kind, body, s');
    case StartTask(id) => StartTasks(s, id, s');
    case Decide(id, kind, body) => DecideTasks(s, id, kind, body, s');
    case FinishSilently(id) => SilentTasks(s, id, s');
    case Emit(id) => EmitTasks(s, id, s');
    case _ => Frame(s, a, s');
  }

  lemma {:induction false} TasksRun(actions: seq<Action>)
    requires RunAll(actions).Some?
    ensures var s := RunAll(actions).value; Inv(s) && TasksOk(s.tasks, s.active, s.cancelled)
  {
    RunInv(actions);
    hide Inv, Step;
    if actions != [] {
      TasksRun(actions[..|actions| - 1]);
      TasksStep(RunAll(actions[..|actions| - 1]).value, actions[|actions| - 1], RunAll(actions).value);
    }
  }

  // ----- When a cancellation is acknowledged -----

  /** The loop acknowledges a cancellation exactly when the task has started, has not ended, and is not cancelled yet;
      otherwise it reports an error and changes nothing. */
  lemma AcknowledgedExactly(s: State, id: nat, kind: Kind, body: int)
    requires Reaches(s) && s.loop == Idle && s.requests != [] && s.requests[0] == Cancel(id)
    ensures Step(s, TakeRequest(kind, body)).Some?
    ensures var s' := Step(s, TakeRequest(kind, body)).value;
      && s'.tasks == s.tasks && s'.written == s.written && s'.requests == s.requests[1..]
      && if id in s.tasks && UnderWay(s.tasks[id]) && id !in s.cancelled
         then s'.loop == Answering(Response(0, Cancelled, body)) && s'.cancelled == s.cancelled + {id}
         else s'.loop == Answering(Response(0, Error, body)) && s'.cancelled == s.cancelled && s'.active == s.active
  {
    hide Inv, RunAll;
    var actions :| RunAll(actions) == Some(s);
    TasksRun(actions);
  }

  /** No task is cancelled unless its caller has asked for it. */
  lemma {:induction false} CancelledWhenAsked(actions: seq<Action>, id: nat)
    requires RunAll(actions).Some?
    ensures var s := RunAll(actions).value;
      id in s.cancelled || Cancel(id) in s.requests ==> SendCancel(id) in actions
  {
    if actions != [] {
      var before, a := actions[..|actions| - 1], actions[|actions| - 1];
      CancelledWhenAsked(before, id);
      hide RunAll;
      AskedStep(RunAll(before).value, a, RunAll(actions).value, id);
      assert a in actions && forall b | b in before :: b in actions;
    }
  }

  lemma AskedStep(s: State, a: Action, s': State, id: nat)
    requires Step(s, a) == Some(s')
    ensures id in s'.cancelled ==> id in s.cancelled || Cancel(id) in s.requests
    ensures Cancel(id) in s'.requests ==> Cancel(id) in s.requests || a == SendCancel(id)
  {
    hide Step;
    Frame(s, a, s');
    match a
    case SendCancel(x) => CancelSent(s, x, s');
    case Write(x) => RequestWritten(s, x, s');
    case TakeRequest(kind, body) => RequestTaken(s, kind, body, s', id);
    case _ => TaskFrame(s, a, s');
  }

  lemma CancelSent(s: State, id: nat, s': State)
    requires Step(s, SendCancel(id)) == Some(s')
    ensures s'.requests == s.requests + [Cancel(id)]
  {
  }

  lemma RequestWritten(s: State, id: nat, s': State)
    requires Step(s, Write(id)) == Some(s')
    ensures exists kind :: s'.requests == s.requests + [Ask(id, kind)]
  {
    assert s'.requests == s.requests + [Ask(id, s.calls[id].kind)];
  }

  lemma RequestTaken(s: State, kind: Kind, body: int, s': State, id: nat)
    requires Step(s, TakeRequest(kind, body)) == Some(s')
    ensures s.requests != [] && s'.requests == s.requests[1..]
    ensures id in s'.cancelled ==> id in s.cancelled || s.requests[0] == Cancel(id)
  {
  }

  lemma TaskFrame(s: State, a: Action, s': State)
    requires Step(s, a) == Some(s') && !a.TakeRequest?
    ensures s'.cancelled == s.cancelled
  {
    Frame(s, a, s');
    hide MayWrite, StepBegin, StepRegister, StepWrite, StepWriteFails, StepReceive, StepGiveUp, StepSendCancel, StepLeave,
         StepRead, StepDeliver, StepLose, StepFailPending, StepStopReading, StepAnswer;
  }

  // ----- What a cancelled task still writes -----

  function RunFrom(s: State, later: seq<Action>): Option<State> {
    if later == [] then Some(s)
    else
      var r := RunFrom(s, later[..|later| - 1]);
      if r.None? then None else Step(r.value, later[|later| - 1])
  }

  lemma {:induction false} RunsOn(actions: seq<Action>, later: seq<Action>)
    requires RunAll(actions).Some? && RunFrom(RunAll(actions).value, later).Some?
    ensures RunAll(actions + later) == RunFrom(RunAll(actions).value, later)
  {
    hide Step;
    if later == [] {
      assert actions + later == actions;
    } else {
      RunsOn(actions, later[..|later| - 1]);
      assert (actions + later)[..|actions + later| - 1] == actions + later[..|later| - 1];
    }
  }

  /** The last words of a cancelled task: of a synthesis the notice that it was cancelled, of a stream also its end
      or an error. */
  ghost predicate IsLastWord(kind: CallKind, r: Response) {
    r.kind == Cancelled || (kind == Stream && (r.kind == Done || r.kind == Error))
  }

  /** From its state at the cancellation on, a task that is now in state `now` has written `more`: what it was writing
      already, and then at most its last word. */
  ghost predicate Stops(kind: CallKind, then_: TaskPc, more: seq<Response>, now: TaskPc)
    decreases |more|
  {
    match then_
    case Starting => false
    case Over => more == [] && now == Over
    case Running =>
      || (more == [] && (now == Running || now == Over || (now.Writing? && IsLastWord(kind, now.resp))))
      || (|more| == 1 && IsLastWord(kind, more[0]) && now == Over)
    case Writing(r) =>
      || (more == [] && now == then_)
      || (more != [] && more[0] == r &&
          if r.kind == Chunk then Stops(kind, Running, more[1..], now) else |more| == 1 && now == Over)
  }

  lemma StopsStart(kind: CallKind, t: TaskPc)
    requires t != Starting
    ensures Stops(kind, t, [], t)
  {
  }

  lemma StopsDecides(kind: CallKind, t: TaskPc, more: seq<Response>, r: Response)
    requires Stops(kind, t, more, Running) && IsLastWord(kind, r)
    ensures Stops(kind, t, more, Writing(r))
  {
  }

  lemma StopsSilently(kind: CallKind, t: TaskPc, more: seq<Response>)
    requires Stops(kind, t, more, Running)
    ensures Stops(kind, t, more, Over)
  {
  }

  lemma StopsWrites(kind: CallKind, t: TaskPc, more: seq<Response>, r: Response)
    requires Stops(kind, t, more, Writing(r))
    ensures Stops(kind, t, more + [r], if r.kind == Chunk then Running else Over)
  {
    if more == [] {
      assert [] + [r] == [r] && [r][1..] == [];
    } else {
      assert (more + [r])[1..] == more[1..] + [r];
      assert t.Writing? && Stops(kind, Running, more[1..], Writing(r));
      assert more[1..] == [] && more[1..] + [r] == [r];
    }
  }

  /** One step of the run: what it adds to the responses for a cancelled task. */
  lemma CancelledStep(s: State, a: Action, s': State, id: nat, t: TaskPc, more: seq<Response>)
    requires Inv(s) && Step(s, a) == Some(s') && id in s.cancelled && id in s.tasks && id in s.calls
    requires Stops(s.calls[id].kind, t, more, s.tasks[id])
    ensures id in s'.cancelled && id in s'.tasks && s.written <= s'.written
    ensures Stops(s.calls[id].kind, t, more + For(s'.written[|s.written|..], id), s'.tasks[id])
  {
    hide Inv, Stops, For, StepTakeRequest, StepStartTask, StepDecide, StepFinishSilently, StepEmit, StepBegin,
         StepRegister, StepWrite, StepWriteFails, StepReceive, StepGiveUp, StepSendCancel, StepLeave, StepRead,
         StepDeliver, StepLose, StepFailPending, StepStopReading, StepAnswer;
    assert more + [] == more;
    NothingNew(s.written, id);
    match a
    case TakeRequest(kind, body) => TakeKeeps(s, kind, body, s', id);
    case StartTask(x) =>
      HasStarted(s.calls[id].kind, t, more, s.tasks[id]);
      StartKeeps(s, x, s', id);
    case Decide(x, kind, body) => CancelledDecides(s, x, kind, body, s', id, t, more);
    case FinishSilently(x) => CancelledEnds(s, x, s', id, t, more);
    case Emit(x) => CancelledEmits(s, x, s', id, t, more);
    case Answer => AnswerKeeps(s, s', id);
    case _ => Frame(s, a, s');
  }

  lemma {:induction false} HasStarted(kind: CallKind, t: TaskPc, more: seq<Response>, now: TaskPc)
    requires Stops(kind, t, more, now)
    ensures now != Starting
    decreases |more|
  {
    if t.Writing? && more != [] && t.resp.kind == Chunk {
      HasStarted(kind, Running, more[1..], now);
    }
  }

  lemma NothingNew(w: seq<Response>, id: nat)
    ensures For(w[|w|..], id) == []
  {
    assert w[|w|..] == [];
  }

  lemma TakeKeeps(s: State, kind: Kind, body: int, s': State, id: nat)
    requires Inv(s) && StepTakeRequest(s, kind, body) == Some(s') && id in s.cancelled && id in s.tasks
    ensures id in s'.cancelled && id in s'.tasks && s'.tasks[id] == s.tasks[id] && s'.written == s.written
  {
    hide Inv;
    if s.requests != [] && s.requests[0].Ask? {
      NoTaskYet(s);
    }
  }

  lemma StartKeeps(s: State, x: nat, s': State, id: nat)
    requires Inv(s) && StepStartTask(s, x) == Some(s') && id in s.cancelled && id in s.tasks
    requires s.tasks[id] != Starting
    ensures id in s'.cancelled && id in s'.tasks && s'.tasks[id] == s.tasks[id] && s'.written == s.written
  {
    hide Inv;
  }

  lemma CancelledDecides(s: State, x: nat, kind: Kind, body: int, s': State, id: nat, t: TaskPc, more: seq<Response>)
    requires StepDecide(s, x, kind, body) == Some(s') && id in s.cancelled && id in s.tasks && id in s.calls
    requires Stops(s.calls[id].kind, t, more, s.tasks[id])
    ensures id in s'.cancelled && id in s'.tasks && s'.written == s.written
    ensures Stops(s.calls[id].kind, t, more, s'.tasks[id])
  {
    hide Stops;
    if x == id {
      StopsDecides(s.calls[id].kind, t, more, Response(id, kind, body));
    }
  }

  lemma CancelledEnds(s: State, x: nat, s': State, id: nat, t: TaskPc, more: seq<Response>)
    requires StepFinishSilently(s, x) == Some(s') && id in s.cancelled && id in s.tasks && id in s.calls
    requires Stops(s.calls[id].kind, t, more, s.tasks[id])
    ensures id in s'.cancelled && id in s'.tasks && s'.written == s.written
    ensures Stops(s.calls[id].kind, t, more, s'.tasks[id])
  {
    hide Stops;
    if x == id {
      StopsSilently(s.calls[id].kind, t, more);
    }
  }

  lemma CancelledEmits(s: State, x: nat, s': State, id: nat, t: TaskPc, more: seq<Response>)
    requires Inv(s) && StepEmit(s, x) == Some(s') && id in s.cancelled && id in s.tasks && id in s.calls
    requires Stops(s.calls[id].kind, t, more, s.tasks[id])
    ensures id in s'.cancelled && id in s'.tasks && s.written <= s'.written
    ensures Stops(s.calls[id].kind, t, more + For(s'.written[|s.written|..], id), s'.tasks[id])
  {
    hide Inv, Stops, For;
    TaskFacts(s, x);
    var r := s.tasks[x].resp;
    ForNew(s.written, r, id);
    assert more + [] == more;
    if x == id {
      StopsWrites(s.calls[id].kind, t, more, r);
    }
  }

  lemma AnswerKeeps(s: State, s': State, id: nat)
    requires Inv(s) && StepAnswer(s) == Some(s') && id in s.cancelled && id in s.tasks
    ensures id in s'.cancelled && id in s'.tasks && s'.tasks[id] == s.tasks[id]
    ensures s.written <= s'.written && For(s'.written[|s.written|..], id) == []
  {
    hide Inv, For;
    TaskFacts(s, id);
    ForNew(s.written, s.loop.resp, id);
  }

  lemma ForNew(w: seq<Response>, r: Response, id: nat)
    ensures For((w + [r])[|w|..], id) == if r.id == id then [r] else []
  {
    assert (w + [r])[|w|..] == [] + [r];
    ForAppend([], r, id);
  }

  lemma {:induction false} ForConcat(a: seq<Response>, b: seq<Response>, id: nat)
    ensures For(a + b, id) == For(a, id) + For(b, id)
  {
    if b == [] {
      assert a + b == a;
    } else {
      ForConcat(a, b[..|b| - 1], id);
      assert (a + b)[..|a + b| - 1] == a + b[..|b| - 1];
    }
  }

  /** Once a task is cancelled, all that the worker ever writes for its request is the response the task was writing
      at that moment, and its last word: no chunk and no result that was not already on its way. */
  lemma {:induction false} CancelledTaskStops(s: State, later: seq<Action>, id: nat)
    requires Reaches(s) && id in s.cancelled && RunFrom(s, later).Some?
    ensures id in s.tasks && id in s.calls
    ensures var s' := RunFrom(s, later).value;
      && s.written <= s'.written && id in s'.tasks && id in s'.cancelled && id in s'.calls
      && s'.calls[id].kind == s.calls[id].kind
      && Stops(s.calls[id].kind, s.tasks[id], For(s'.written[|s.written|..], id), s'.tasks[id])
  {
    hide Inv, Step, Stops, RunAll, For;
    var actions :| RunAll(actions) == Some(s);
    TasksRun(actions);
    TaskFacts(s, id);
    if later == [] {
      StopsStart(s.calls[id].kind, s.tasks[id]);
      NothingNew(s.written, id);
    } else {
      var front := later[..|later| - 1];
      CancelledTaskStops(s, front, id);
      RunsOn(actions, front);
      RunInv(actions + front);
      StopsMore(s, id, RunFrom(s, front).value, later[|later| - 1], RunFrom(s, later).value);
    }
  }

  lemma StopsMore(s: State, id: nat, m: State, a: Action, s': State)
    requires Inv(m) && Step(m, a) == Some(s') && id in s.tasks && id in s.calls
    requires s.written <= m.written && id in m.tasks && id in m.cancelled && id in m.calls
    requires m.calls[id].kind == s.calls[id].kind
    requires Stops(s.calls[id].kind, s.tasks[id], For(m.written[|s.written|..], id), m.tasks[id])
    ensures s.written <= s'.written && id in s'.tasks && id in s'.cancelled && id in s'.calls
    ensures s'.calls[id].kind == s.calls[id].kind
    ensures Stops(s.calls[id].kind, s.tasks[id], For(s'.written[|s.written|..], id), s'.tasks[id])
  {
    hide Inv, Step, Stops, For;
    CancelledStep(m, a, s', id, s.tasks[id], For(m.written[|s.written|..], id));
    CallFacts(m, id);
    KindStays(m, a, s', id);
    ForConcat(m.written[|s.written|..], s'.written[|m.written|..], id);
    assert s'.written[|s.written|..] == m.written[|s.written|..] + s'.written[|m.written|..];
  }

  /** So at most one chunk and two responses follow, and a synthesis delivers its result only if it was writing it. */
  lemma {:induction false} StopsShortly(kind: CallKind, t: TaskPc, more: seq<Response>, now: TaskPc)
    requires Stops(kind, t, more, now)
    ensures |more| <= 2 && (t == Running ==> |more| <= 1)
    ensures forall i | 0 <= i < |more| && (more[i].kind == Chunk || more[i].kind == Result) ::
              i == 0 && t == Writing(more[0])
    decreases |more|
  {
    if t.Writing? && more != [] && t.resp.kind == Chunk {
      StopsShortly(kind, Running, more[1..], now);
      assert forall i | 1 <= i < |more| :: more[i] == more[1..][i - 1];
    }
  }

  /** A cancelled task can always end at once. */
  lemma CancelledCanEnd(s: State, id: nat, body: int)
    requires Reaches(s) && id in s.cancelled && id in s.tasks && s.tasks[id] == Running
    ensures RunFrom(s, [Decide(id, Cancelled, body), Emit(id)]).Some?
    ensures var s' := RunFrom(s, [Decide(id, Cancelled, body), Emit(id)]).value;
      id in s'.tasks && s'.tasks[id] == Over && s'.written == s.written + [Response(id, Cancelled, body)]
  {
    hide Inv, Reaches, Step;
    ReachedInv(s);
    TaskFacts(s, id);
    EndsInTwo(s, id, body);
    var two := [Decide(id, Cancelled, body), Emit(id)];
    assert two[..1] == [Decide(id, Cancelled, body)] && two[..1][..0] == [];
    assert RunFrom(s, two[..1][..0]) == Some(s);
    assert RunFrom(s, two[..1]) == Step(s, Decide(id, Cancelled, body));
  }

  lemma EndsInTwo(s: State, id: nat, body: int)
    requires id in s.cancelled && id in s.tasks && s.tasks[id] == Running && id in s.calls
    ensures Step(s, Decide(id, Cancelled, body)).Some?
    ensures var m := Step(s, Decide(id, Cancelled, body)).value;
      && Step(m, Emit(id)).Some? && var s' := Step(m, Emit(id)).value;
         id in s'.tasks && s'.tasks[id] == Over && s'.written == s.written + [Response(id, Cancelled, body)]
  {
    assert Step(s, Decide(id, Cancelled, body)) == StepDecide(s, id, Cancelled, body);
  }

  /** What a task may do next: a stream writes chunks until it is cancelled, and it may always end or fail; a synthesis
      writes its result or error, or, once cancelled, the notice of that, if anything. */
  lemma TaskGoesOnExactly(s: State, id: nat, kind: Kind, body: int)
    requires Reaches(s) && id in s.tasks
    ensures id in s.calls
    ensures Step(s, StartTask(id)).Some? <==> s.tasks[id] == Starting
    ensures Step(s, Decide(id, kind, body)).Some? <==>
      s.tasks[id] == Running &&
      if s.calls[id].kind == Stream then
        kind == Done || kind == Error || kind == (if id in s.cancelled then Cancelled else Chunk)
      else if id in s.cancelled then kind == Cancelled else kind == Result || kind == Error
    ensures Step(s, FinishSilently(id)).Some? <==>
      s.tasks[id] == Running && s.calls[id].kind != Stream && id in s.cancelled
    ensures Step(s, Emit(id)).Some? <==> s.tasks[id].Writing?
  {
    hide Inv, Reaches;
    ReachedInv(s);
    TaskFacts(s, id);
  }

  /** The request loop answers what it has taken before it takes the next request. */
  lemma LoopGoesOnExactly(s: State, kind: Kind, body: int)
    requires Reaches(s)
    ensures Step(s, Answer).Some? <==> s.loop.Answering?
    ensures Step(s, TakeRequest(kind, body)).Some? <==>
      s.loop == Idle && s.requests != [] &&
      (s.requests[0].Ask? && s.requests[0].kind == Quick ==> kind == Result || kind == Pong || kind == Error)
    ensures Step(s, TakeRequest(kind, body)).Some? && s.requests[0].Ask? ==>
      var s', id := Step(s, TakeRequest(kind, body)).value, s.requests[0].id;
      if s.requests[0].kind == Quick then s'.loop == Answering(Response(id, kind, body)) && s'.tasks == s.tasks
      else s'.loop == Idle && id !in s.tasks && s'.tasks == s.tasks[id := Starting]
  {
    hide Inv, Reaches;
    ReachedInv(s);
    if s.requests != [] && s.requests[0].Ask? {
      NoTaskYet(s);
    }
  }
}
