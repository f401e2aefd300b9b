/**
 A cancellation that overtakes its task (cmd/worker_main.go): the request loop takes it before the task, which was started
 first, has registered itself; it is answered with an error, and the task is never cancelled any more.
 */
module DemuxOvertaken {
  import opened Options
  import opened Demux
  import opened DemuxCallers
  import opened DemuxCancel
  import opened DemuxFrames
  import opened DemuxSafety

  /** The caller has asked for the cancellation, but the task is not cancelled, nor is the request for it under way. */
  ghost predicate Overtaken(actions: seq<Action>, id: nat) {
    && RunAll(actions).Some? && SendCancel(id) in actions
    && var s := RunAll(actions).value;
       id in s.tasks && s.tasks[id] == Running && id !in s.cancelled && Cancel(id) !in s.requests
  }

  lemma {:induction false} CancelsCount(actions: seq<Action>, id: nat)
    ensures SendCancel(id) in actions ==> Cancels(actions, id) >= 1
  {
    if actions != [] {
      CancelsCount(actions[..|actions| - 1], id);
      assert actions == actions[..|actions| - 1] + [actions[|actions| - 1]];
    }
  }

  /** In every continuation the task stays as it is to the worker: not cancelled. */
  lemma {:induction false} NeverCancelled(actions: seq<Action>, later: seq<Action>, id: nat)
    requires Overtaken(actions, id) && RunFrom(RunAll(actions).value, later).Some?
    ensures var s' := RunFrom(RunAll(actions).value, later).value; id !in s'.cancelled && Cancel(id) !in s'.requests
  {
    hide Step, RunAll;
    if later != [] {
      var front, a := later[..|later| - 1], later[|later| - 1];
      NeverCancelled(actions, front, id);
      RunsOn(actions, later);
      ToldOnce(actions + later, id);
      CancelsCount(actions, id);
      assert (actions + later)[..|actions + later| - 1] == actions + front;
      CancelsGrow(actions, front, id);
      AskedStep(RunFrom(RunAll(actions).value, front).value, a, RunFrom(RunAll(actions).value, later).value, id);
    }
  }

  lemma {:induction false} CancelsGrow(actions: seq<Action>, more: seq<Action>, id: nat)
    ensures Cancels(actions + more, id) >= Cancels(actions, id)
  {
    if more == [] {
      assert actions + more == actions;
    } else {
      CancelsGrow(actions, more[..|more| - 1], id);
      assert (actions + more)[..|actions + more| - 1] == actions + more[..|more| - 1];
    }
  }

  lemma Then(actions: seq<Action>, a: Action)
    requires RunAll(actions).Some?
    ensures RunAll(actions + [a]) == Step(RunAll(actions).value, a)
  {
    assert (actions + [a])[..|actions|] == actions;
  }

  /** A stream is cancelled at once: request and cancellation are both on their way before the worker looks. */
  lemma AskedAtOnce() returns (actions: seq<Action>, s: State)
    ensures RunAll(actions) == Some(s) && SendCancel(1) in actions
    ensures s.requests == [Ask(1, Stream), Cancel(1)] && s.loop == Idle && s.tasks == map[] && s.active == {}
    ensures s.cancelled == {}
  {
    var s0 := Initial();
    Then([], Begin(Stream));
    var s1 := Step(s0, Begin(Stream)).value;
    assert [] + [Begin(Stream)] == [Begin(Stream)];
    Then([Begin(Stream)], Register(1));
    var s2 := Step(s1, Register(1)).value;
    var a2 := [Begin(Stream)] + [Register(1)];
    Then(a2, Write(1));
    var s3 := Step(s2, Write(1)).value;
    Then(a2 + [Write(1)], SendCancel(1));
    s := Step(s3, SendCancel(1)).value;
    actions := a2 + [Write(1)] + [SendCancel(1)];
    assert actions[3] == SendCancel(1);
    assert s3.requests == [Ask(1, Stream)];
  }

  /** Some run overtakes its task. */
  lemma OvertakenIsReached() returns (actions: seq<Action>)
    ensures Overtaken(actions, 1)
  {
    var first, s := AskedAtOnce();
    hide RunAll;
    Then(first, TakeRequest(Done, 0));
    var s1 := Step(s, TakeRequest(Done, 0)).value;
    assert s1.requests == [Cancel(1)] && s1.tasks == map[1 := Starting];
    var a1 := first + [TakeRequest(Done, 0)];
    Then(a1, TakeRequest(Done, 0));
    var s2 := Step(s1, TakeRequest(Done, 0)).value;
    assert s2.requests == [] && s2.tasks == map[1 := Starting] && s2.cancelled == {};
    var a2 := a1 + [TakeRequest(Done, 0)];
    Then(a2, StartTask(1));
    var s3 := Step(s2, StartTask(1)).value;
    actions := a2 + [StartTask(1)];
    assert SendCancel(1) in first && forall a | a in first :: a in actions;
    assert RunAll(actions) == Some(s3);
  }
}
