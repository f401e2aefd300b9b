/**
 Safety of the multiplexed worker connection over every run: no response reaches the wrong
 request, a stream's output is a prefix of what the worker wrote for it, and a one-place reply
 channel never gets a second message.
 */
module DemuxSafety {
  import opened Options
  import opened Demux

  // ----- The responses for one request -----

  function For(w: seq<Response>, id: nat): seq<Response> {
    if w == [] then []
    else For(w[..|w| - 1], id) + (if w[|w| - 1].id == id then [w[|w| - 1]] else [])
  }

  lemma ForAppend(w: seq<Response>, r: Response, id: nat)
    ensures For(w + [r], id) == For(w, id) + (if r.id == id then [r] else [])
  {
    assert (w + [r])[..|w + [r]| - 1] == w;
  }

  lemma ForNext(w: seq<Response>, k: nat, id: nat)
    requires k < |w|
    ensures For(w[..k + 1], id) == For(w[..k], id) + (if w[k].id == id then [w[k]] else [])
  {
    assert w[..k + 1] == w[..k] + [w[k]];
    ForAppend(w[..k], w[k], id);
  }

  lemma {:induction false} ForPrefix(w: seq<Response>, k: nat, id: nat)
    requires k <= |w|
    ensures For(w[..k], id) <= For(w, id)
    decreases |w|
  {
    if k == |w| {
      assert w[..k] == w;
    } else {
      var v := w[..|w| - 1];
      ForPrefix(v, k, id);
      assert v[..k] == w[..k];
    }
  }

  lemma {:induction false} ForOnly(w: seq<Response>, id: nat)
    ensures forall m | m in For(w, id) :: m.id == id && m in w
    ensures (forall k | 0 <= k < |w| :: w[k].id != id) ==> For(w, id) == []
  {
    if w != [] {
      ForOnly(w[..|w| - 1], id);
    }
  }

  ghost predicate AllChunks(w: seq<Response>) {
    forall m | m in w :: m.kind == Chunk
  }

  // ----- The invariant -----

  /** Calls are numbered from 1, without gaps in time or repeats; channels exist from registration on. */
  ghost predicate CallsOk(nextID: nat, calls: map<nat, Call>, pending: set<nat>, channel: map<nat, seq<Response>>,
                          sent: map<nat, seq<Response>>, out: map<nat, seq<Response>>, closed: set<nat>) {
    && (forall id | id in calls :: 1 <= id <= nextID)
    && (forall id: nat :: id in channel <==> id in calls && calls[id].pc != Assigned)
    && (forall id: nat :: id in sent <==> id in channel)
    && (forall id: nat :: id in out <==> id in channel)
    && (forall id | id in pending :: id in channel && calls[id].pc != Ended)
    && (forall id | id in calls && (calls[id].pc == Assigned || calls[id].pc == Registered) :: !calls[id].written)
    && (forall id | id in calls && calls[id].pc.Waiting? :: calls[id].written)
    && (forall id | id in closed :: id in calls && calls[id].pc == Ended && !calls[id].written)
    && (forall id | id in channel :: out[id] + channel[id] == sent[id])
  }

  /** Every request is on its way at most once, and is taken at most once. */
  ghost predicate RequestsOk(calls: map<nat, Call>, requests: seq<Request>, taken: set<nat>, tasks: map<nat, TaskPc>,
                             loop: LoopPc) {
    && (forall i | 0 <= i < |requests| && requests[i].Ask? ::
          var id := requests[i].id;
          id in calls && calls[id].written && calls[id].kind == requests[i].kind && id !in taken)
    && (forall i, j | 0 <= i < j < |requests| && requests[i].Ask? && requests[j].Ask? :: requests[i].id != requests[j].id)
    && (forall id | id in taken :: id in calls && calls[id].written)
    && (forall id | id in tasks :: id in taken && calls[id].kind != Quick)
    && (loop.Answering? && loop.resp.id != 0 ==>
          loop.resp.id in taken && calls[loop.resp.id].kind == Quick && Terminal(loop.resp.kind))
    && (forall id | id in tasks && tasks[id].Writing? ::
          tasks[id].resp.id == id && (calls[id].kind != Stream ==> Terminal(tasks[id].resp.kind)))
  }

  /** The worker may still write a response for the request. */
  predicate Open(id: nat, tasks: map<nat, TaskPc>, loop: LoopPc) {
    (id in tasks && tasks[id] != Over) || (loop.Answering? && loop.resp.id == id)
  }

  /** One answer for a plain request; chunks and then at most one last message for a stream. */
  ghost predicate ShapeOf(kind: CallKind, w: seq<Response>, open: bool) {
    && (forall i | 0 <= i < |w| - 1 :: w[i].kind == Chunk)
    && (kind != Stream ==> |w| <= 1 && forall i | 0 <= i < |w| :: Terminal(w[i].kind))
    && (open ==> AllChunks(w))
  }

  ghost predicate WrittenOk(calls: map<nat, Call>, written: seq<Response>, taken: set<nat>, tasks: map<nat, TaskPc>,
                            loop: LoopPc) {
    && (forall k | 0 <= k < |written| :: written[k].id == 0 || written[k].id in taken)
    && (forall id | id in calls :: ShapeOf(calls[id].kind, For(written, id), Open(id, tasks, loop)))
  }

  /** The response the reader has taken for the request but not yet put into its channel. */
  function Held(reader: ReaderPc, id: nat): seq<Response> {
    if reader.Delivering? && reader.resp.id == id then [reader.resp] else []
  }

  /** `sent` is what was read for the request so far, or a first part of it, possibly closed by the connection error. */
  ghost predicate Routed(sent: seq<Response>, held: seq<Response>, read: seq<Response>, pending: bool) {
    && (pending ==> sent + held == read && AllChunks(read))
    && (!pending ==> sent + held <= read || EndsLost(sent, held, read))
  }

  ghost predicate EndsLost(sent: seq<Response>, held: seq<Response>, read: seq<Response>) {
    && sent != [] && sent[|sent| - 1] == CONNECTION_LOST && held == []
    && sent[..|sent| - 1] <= read && AllChunks(sent[..|sent| - 1])
  }

  ghost predicate RoutingOk(pending: set<nat>, sent: map<nat, seq<Response>>, reader: ReaderPc,
                            written: seq<Response>, consumed: nat) {
    && consumed <= |written|
    && (reader.Delivering? ==> reader.resp.id in sent && (Terminal(reader.resp.kind) ==> reader.resp.id !in pending))
    && (reader.Delivering? ==> exists k :: 0 <= k < |written| && written[k] == reader.resp)
    && (forall id | id in sent ::
          Routed(sent[id], Held(reader, id), For(written[..consumed], id), id in pending))
  }

  ghost predicate Inv(s: State) {
    && CallsOk(s.nextID, s.calls, s.pending, s.channel, s.sent, s.out, s.closedChannels)
    && RequestsOk(s.calls, s.requests, s.taken, s.tasks, s.loop)
    && WrittenOk(s.calls, s.written, s.taken, s.tasks, s.loop)
    && RoutingOk(s.pending, s.sent, s.reader, s.written, s.consumed)
  }

  lemma InitialInv()
    ensures Inv(Initial())
  {
  }

  // ----- What the steps do to the calls and their channels -----

  lemma CallsBegin(nextID: nat, calls: map<nat, Call>, pending: set<nat>, channel: map<nat, seq<Response>>,
                   sent: map<nat, seq<Response>>, out: map<nat, seq<Response>>, closed: set<nat>, c: Call)
    requires CallsOk(nextID, calls, pending, channel, sent, out, closed)
    requires c.pc == Assigned && !c.written
    ensures nextID + 1 !in calls
    ensures CallsOk(nextID + 1, calls[nextID + 1 := c], pending, channel, sent, out, closed)
  {
  }

  lemma CallsRegister(nextID: nat, calls: map<nat, Call>, pending: set<nat>, channel: map<nat, seq<Response>>,
                      sent: map<nat, seq<Response>>, out: map<nat, seq<Response>>, closed: set<nat>, id: nat, c: Call)
    requires CallsOk(nextID, calls, pending, channel, sent, out, closed)
    requires id in calls && calls[id].pc == Assigned && c.pc == Registered && !c.written
    ensures CallsOk(nextID, calls[id := c], pending + {id}, channel[id := []], sent[id := []], out[id := []], closed)
  {
  }

  /** A call with a channel moves on, possibly out of the pending map, possibly closing its unused channel. */
  lemma CallsAdvance(nextID: nat, calls: map<nat, Call>, pending: set<nat>, channel: map<nat, seq<Response>>,
                     sent: map<nat, seq<Response>>, out: map<nat, seq<Response>>, closed: set<nat>,
                     id: nat, c: Call, pending': set<nat>, closed': set<nat>)
    requires CallsOk(nextID, calls, pending, channel, sent, out, closed)
    requires id in calls && calls[id].pc != Assigned && calls[id].pc != Ended
    requires c.pc != Assigned && c.pc != Registered && (c.pc.Waiting? ==> c.written)
    requires pending' <= pending && (id in pending' ==> c.pc != Ended)
    requires closed <= closed' <= closed + {id} && (id in closed' ==> c.pc == Ended && !c.written)
    ensures CallsOk(nextID, calls[id := c], pending', channel, sent, out, closed')
  {
  }

  lemma CallsShrink(nextID: nat, calls: map<nat, Call>, pending: set<nat>, channel: map<nat, seq<Response>>,
                    sent: map<nat, seq<Response>>, out: map<nat, seq<Response>>, closed: set<nat>, pending': set<nat>)
    requires CallsOk(nextID, calls, pending, channel, sent, out, closed) && pending' <= pending
    ensures CallsOk(nextID, calls, pending', channel, sent, out, closed)
  {
  }

  /** A message moves from the channel to the caller: together they stay what was sent. */
  lemma CallsReceive(nextID: nat, calls: map<nat, Call>, pending: set<nat>, channel: map<nat, seq<Response>>,
                     sent: map<nat, seq<Response>>, out: map<nat, seq<Response>>, closed: set<nat>, id: nat)
    requires CallsOk(nextID, calls, pending, channel, sent, out, closed)
    requires id in channel && id in out && channel[id] != []
    ensures CallsOk(nextID, calls, pending, channel[id := channel[id][1..]], sent,
                    out[id := out[id] + [channel[id][0]]], closed)
  {
    assert out[id] + channel[id] == (out[id] + [channel[id][0]]) + channel[id][1..];
  }

  lemma CallsPut(nextID: nat, calls: map<nat, Call>, pending: set<nat>, channel: map<nat, seq<Response>>,
                 sent: map<nat, seq<Response>>, out: map<nat, seq<Response>>, closed: set<nat>, id: nat, m: Response)
    requires CallsOk(nextID, calls, pending, channel, sent, out, closed)
    requires id in channel && id in sent
    ensures CallsOk(nextID, calls, pending, channel[id := channel[id] + [m]], sent[id := sent[id] + [m]], out, closed)
  {
    assert out[id] + (channel[id] + [m]) == (out[id] + channel[id]) + [m];
  }

  // ----- What they do to the requests -----

  /** A call may advance, or appear, as long as its kind stays and nothing written is unwritten. */
  lemma RequestsFrame(calls: map<nat, Call>, requests: seq<Request>, taken: set<nat>, tasks: map<nat, TaskPc>,
                      loop: LoopPc, id: nat, c: Call)
    requires RequestsOk(calls, requests, taken, tasks, loop)
    requires id in calls ==> c.kind == calls[id].kind && (calls[id].written ==> c.written)
    ensures RequestsOk(calls[id := c], requests, taken, tasks, loop)
  {
  }

  lemma RequestsCancel(calls: map<nat, Call>, requests: seq<Request>, taken: set<nat>, tasks: map<nat, TaskPc>,
                       loop: LoopPc, id: nat)
    requires RequestsOk(calls, requests, taken, tasks, loop)
    ensures RequestsOk(calls, requests + [Cancel(id)], taken, tasks, loop)
  {
  }

  /** A call that has just been written was neither on its way nor taken. */
  lemma RequestsWrite(calls: map<nat, Call>, requests: seq<Request>, taken: set<nat>, tasks: map<nat, TaskPc>,
                      loop: LoopPc, id: nat, c: Call)
    requires RequestsOk(calls, requests, taken, tasks, loop)
    requires id in calls && !calls[id].written && c.written && c.kind == calls[id].kind
    ensures RequestsOk(calls[id := c], requests + [Ask(id, c.kind)], taken, tasks, loop)
  {
    hide RequestsOk;
    RequestsFrame(calls, requests, taken, tasks, loop, id, c);
    NotOnItsWay(calls, requests, taken, tasks, loop, id);
    RequestsAppend(calls[id := c], requests, taken, tasks, loop, id);
  }

  lemma NotOnItsWay(calls: map<nat, Call>, requests: seq<Request>, taken: set<nat>, tasks: map<nat, TaskPc>,
                    loop: LoopPc, id: nat)
    requires RequestsOk(calls, requests, taken, tasks, loop)
    requires id in calls && !calls[id].written
    ensures id !in taken && forall i | 0 <= i < |requests| && requests[i].Ask? :: requests[i].id != id
  {
  }

  lemma RequestsAppend(calls: map<nat, Call>, requests: seq<Request>, taken: set<nat>, tasks: map<nat, TaskPc>,
                       loop: LoopPc, id: nat)
    requires RequestsOk(calls, requests, taken, tasks, loop)
    requires id in calls && calls[id].written && id !in taken
    requires forall i | 0 <= i < |requests| && requests[i].Ask? :: requests[i].id != id
    ensures RequestsOk(calls, requests + [Ask(id, calls[id].kind)], taken, tasks, loop)
  {
  }

  /** The request at the head is taken for the first time. */
  lemma RequestsTake(calls: map<nat, Call>, requests: seq<Request>, taken: set<nat>, tasks: map<nat, TaskPc>, id: nat)
    requires RequestsOk(calls, requests, taken, tasks, Idle)
    requires requests != [] && requests[0].Ask? && requests[0].id == id
    ensures id in calls && calls[id].kind == requests[0].kind && id !in taken && id !in tasks
    ensures RequestsOk(calls, requests[1..], taken + {id}, tasks, Idle)
  {
    var rest := requests[1..];
    forall i | 0 <= i < |rest| && rest[i].Ask?
      ensures rest[i].id in calls && calls[rest[i].id].written && calls[rest[i].id].kind == rest[i].kind
      ensures rest[i].id !in taken + {id}
    {
      assert rest[i] == requests[i + 1] && requests[0].id != requests[i + 1].id;
    }
    assert forall i, j | 0 <= i < j < |rest| && rest[i].Ask? && rest[j].Ask? ::
        rest[i] == requests[i + 1] && rest[j] == requests[j + 1];
  }

  lemma RequestsDrop(calls: map<nat, Call>, requests: seq<Request>, taken: set<nat>, tasks: map<nat, TaskPc>)
    requires RequestsOk(calls, requests, taken, tasks, Idle)
    requires requests != []
    ensures RequestsOk(calls, requests[1..], taken, tasks, Idle)
  {
    var rest := requests[1..];
    assert forall i | 0 <= i < |rest| :: rest[i] == requests[i + 1];
  }

  lemma RequestsLoop(calls: map<nat, Call>, requests: seq<Request>, taken: set<nat>, tasks: map<nat, TaskPc>,
                     loop: LoopPc, loop': LoopPc)
    requires RequestsOk(calls, requests, taken, tasks, loop)
    requires loop'.Answering? && loop'.resp.id != 0 ==>
      loop'.resp.id in taken && calls[loop'.resp.id].kind == Quick && Terminal(loop'.resp.kind)
    ensures RequestsOk(calls, requests, taken, tasks, loop')
  {
  }

  lemma RequestsTask(calls: map<nat, Call>, requests: seq<Request>, taken: set<nat>, tasks: map<nat, TaskPc>,
                     loop: LoopPc, id: nat, t: TaskPc)
    requires RequestsOk(calls, requests, taken, tasks, loop)
    requires id in taken && id in calls && calls[id].kind != Quick
    requires t.Writing? ==> t.resp.id == id && (calls[id].kind != Stream ==> Terminal(t.resp.kind))
    ensures RequestsOk(calls, requests, taken, tasks[id := t], loop)
  {
  }

  // ----- What they do to the responses written -----

  lemma WrittenFrame(calls: map<nat, Call>, written: seq<Response>, taken: set<nat>, tasks: map<nat, TaskPc>,
                     loop: LoopPc, id: nat, c: Call)
    requires WrittenOk(calls, written, taken, tasks, loop)
    requires id in calls && c.kind == calls[id].kind
    ensures WrittenOk(calls[id := c], written, taken, tasks, loop)
  {
    hide ShapeOf, For, Open;
  }

  /** Nothing is written for a request that the worker has not taken. */
  lemma WrittenNothing(calls: map<nat, Call>, written: seq<Response>, taken: set<nat>, tasks: map<nat, TaskPc>,
                       loop: LoopPc, id: nat)
    requires WrittenOk(calls, written, taken, tasks, loop) && id != 0 && id !in taken
    ensures For(written, id) == []
  {
    hide ShapeOf, For, Open;
    ForOnly(written, id);
  }

  lemma WrittenBegin(calls: map<nat, Call>, written: seq<Response>, taken: set<nat>, tasks: map<nat, TaskPc>,
                     loop: LoopPc, id: nat, c: Call)
    requires WrittenOk(calls, written, taken, tasks, loop)
    requires id != 0 && id !in taken && id !in calls
    ensures WrittenOk(calls[id := c], written, taken, tasks, loop)
  {
    WrittenNothing(calls, written, taken, tasks, loop, id);
    hide For, Open;
  }

  /** The worker turns to a request it takes for the first time, or away from one. */
  lemma WrittenTurn(calls: map<nat, Call>, written: seq<Response>, taken: set<nat>, tasks: map<nat, TaskPc>,
                    loop: LoopPc, taken': set<nat>, tasks': map<nat, TaskPc>, loop': LoopPc)
    requires WrittenOk(calls, written, taken, tasks, loop) && taken <= taken'
    requires forall id | id in calls && Open(id, tasks', loop') :: Open(id, tasks, loop) || (id != 0 && id !in taken)
    ensures WrittenOk(calls, written, taken', tasks', loop')
  {
    hide For, Open;
    forall id | id in calls ensures ShapeOf(calls[id].kind, For(written, id), Open(id, tasks', loop')) {
      if Open(id, tasks', loop') && !Open(id, tasks, loop) {
        WrittenNothing(calls, written, taken, tasks, loop, id);
      }
    }
  }

  lemma WrittenTask(calls: map<nat, Call>, written: seq<Response>, taken: set<nat>, tasks: map<nat, TaskPc>,
                    loop: LoopPc, taken': set<nat>, id: nat, t: TaskPc)
    requires WrittenOk(calls, written, taken, tasks, loop) && taken <= taken'
    requires (id in tasks && tasks[id] != Over) || (id != 0 && id !in taken)
    ensures WrittenOk(calls, written, taken', tasks[id := t], loop)
  {
    hide WrittenOk;
    WrittenTurn(calls, written, taken, tasks, loop, taken', tasks[id := t], loop);
  }

  lemma WrittenLoop(calls: map<nat, Call>, written: seq<Response>, taken: set<nat>, tasks: map<nat, TaskPc>,
                    taken': set<nat>, r: Response)
    requires WrittenOk(calls, written, taken, tasks, Idle) && taken <= taken'
    requires r.id !in calls || (r.id != 0 && r.id !in taken)
    ensures WrittenOk(calls, written, taken', tasks, Answering(r))
  {
    hide WrittenOk;
    WrittenTurn(calls, written, taken, tasks, Idle, taken', tasks, Answering(r));
  }

  /** One more response for a request that was open, which stays open after a stream's chunk only. */
  lemma ShapeGrows(kind: CallKind, w: seq<Response>, r: Response, open: bool)
    requires ShapeOf(kind, w, true)
    requires kind != Stream ==> Terminal(r.kind)
    requires open ==> r.kind == Chunk
    ensures ShapeOf(kind, w + [r], open)
  {
    if w != [] {
      assert w[0] in w;
    }
    var v := w + [r];
    forall i | 0 <= i < |v| - 1 ensures v[i].kind == Chunk {
      assert v[i] == w[i] && w[i] in w;
    }
  }

  lemma WrittenAppend(calls: map<nat, Call>, written: seq<Response>, taken: set<nat>, tasks: map<nat, TaskPc>,
                      loop: LoopPc, tasks': map<nat, TaskPc>, loop': LoopPc, r: Response)
    requires WrittenOk(calls, written, taken, tasks, loop) && (r.id == 0 || r.id in taken)
    requires r.id in calls ==> Open(r.id, tasks, loop) && (calls[r.id].kind != Stream ==> Terminal(r.kind))
    requires r.id in calls && Open(r.id, tasks', loop') ==> r.kind == Chunk
    requires forall id | id in calls && id != r.id && Open(id, tasks', loop') :: Open(id, tasks, loop)
    ensures WrittenOk(calls, written + [r], taken, tasks', loop')
  {
    hide For, Open;
    forall id | id in calls ensures ShapeOf(calls[id].kind, For(written + [r], id), Open(id, tasks', loop')) {
      ForAppend(written, r, id);
      if id == r.id {
        ShapeGrows(calls[id].kind, For(written, id), r, Open(id, tasks', loop'));
      } else {
        assert For(written, id) + [] == For(written, id);
      }
    }
  }

  lemma WrittenAnswer(calls: map<nat, Call>, written: seq<Response>, taken: set<nat>, tasks: map<nat, TaskPc>,
                      r: Response)
    requires WrittenOk(calls, written, taken, tasks, Answering(r))
    requires r.id == 0 || r.id in taken
    requires r.id in calls ==> r.id !in tasks && Terminal(r.kind)
    ensures WrittenOk(calls, written + [r], taken, tasks, Idle)
  {
    hide WrittenOk, Terminal;
    WrittenAppend(calls, written, taken, tasks, Answering(r), tasks, Idle, r);
  }

  lemma WrittenEmit(calls: map<nat, Call>, written: seq<Response>, taken: set<nat>, tasks: map<nat, TaskPc>,
                    loop: LoopPc, r: Response, t: TaskPc)
    requires WrittenOk(calls, written, taken, tasks, loop)
    requires r.id in tasks && tasks[r.id].Writing? && r.id in taken && r.id in calls
    requires (calls[r.id].kind != Stream ==> Terminal(r.kind)) && (r.kind == Chunk || t == Over)
    requires loop.Answering? ==> loop.resp.id != r.id
    ensures WrittenOk(calls, written + [r], taken, tasks[r.id := t], loop)
  {
    hide WrittenOk, Terminal;
    WrittenAppend(calls, written, taken, tasks, loop, tasks[r.id := t], loop, r);
  }

  // ----- What they do to the routing -----

  lemma RoutingShrink(pending: set<nat>, sent: map<nat, seq<Response>>, reader: ReaderPc, written: seq<Response>,
                      consumed: nat, pending': set<nat>)
    requires RoutingOk(pending, sent, reader, written, consumed) && pending' <= pending
    ensures RoutingOk(pending', sent, reader, written, consumed)
  {
    hide For, Held, EndsLost;
  }

  lemma RoutingAppend(pending: set<nat>, sent: map<nat, seq<Response>>, reader: ReaderPc, written: seq<Response>,
                      consumed: nat, r: Response)
    requires RoutingOk(pending, sent, reader, written, consumed)
    ensures RoutingOk(pending, sent, reader, written + [r], consumed)
  {
    hide For, Held, EndsLost, Routed;
    assert (written + [r])[..consumed] == written[..consumed];
    if reader.Delivering? {
      var k :| 0 <= k < |written| && written[k] == reader.resp;
      assert (written + [r])[k] == reader.resp;
    }
  }

  /** Nothing has been read for a request that was never taken. */
  lemma RoutingRegister(pending: set<nat>, sent: map<nat, seq<Response>>, reader: ReaderPc, written: seq<Response>,
                        consumed: nat, id: nat)
    requires RoutingOk(pending, sent, reader, written, consumed)
    requires id !in sent && For(written, id) == []
    ensures RoutingOk(pending + {id}, sent[id := []], reader, written, consumed)
  {
    hide For, EndsLost;
    ForPrefix(written, consumed, id);
    assert Held(reader, id) == [];
  }

  /** The reader takes a response of a pending request. */
  lemma RoutingRead(pending: set<nat>, sent: map<nat, seq<Response>>, written: seq<Response>, consumed: nat,
                    pending': set<nat>)
    requires RoutingOk(pending, sent, Reading, written, consumed) && consumed < |written|
    requires pending <= sent.Keys && written[consumed].id in pending
    requires pending' == if Terminal(written[consumed].kind) then pending - {written[consumed].id} else pending
    ensures RoutingOk(pending', sent, Delivering(written[consumed]), written, consumed + 1)
  {
    var r := written[consumed];
    hide For, EndsLost;
    forall id | id in sent
      ensures Routed(sent[id], Held(Delivering(r), id), For(written[..consumed + 1], id), id in pending')
    {
      ForNext(written, consumed, id);
      assert Held(Reading, id) == [] && sent[id] + [] == sent[id];
      if id != r.id {
        assert For(written[..consumed], id) + [] == For(written[..consumed], id);
      }
    }
  }

  /** The reader drops a response whose request is not pending. */
  lemma RoutingSkip(pending: set<nat>, sent: map<nat, seq<Response>>, written: seq<Response>, consumed: nat)
    requires RoutingOk(pending, sent, Reading, written, consumed) && consumed < |written|
    requires written[consumed].id !in pending
    ensures RoutingOk(pending, sent, Reading, written, consumed + 1)
  {
    var r := written[consumed];
    hide For;
    forall id | id in sent ensures Routed(sent[id], Held(Reading, id), For(written[..consumed + 1], id), id in pending) {
      ForNext(written, consumed, id);
      if id != r.id {
        assert For(written[..consumed], id) + [] == For(written[..consumed], id);
      }
    }
  }

  lemma RoutingDeliver(pending: set<nat>, sent: map<nat, seq<Response>>, r: Response, written: seq<Response>,
                       consumed: nat)
    requires RoutingOk(pending, sent, Delivering(r), written, consumed) && r.id in sent
    ensures RoutingOk(pending, sent[r.id := sent[r.id] + [r]], Reading, written, consumed)
  {
    hide For;
    var sent' := sent[r.id := sent[r.id] + [r]];
    forall id | id in sent' ensures Routed(sent'[id], Held(Reading, id), For(written[..consumed], id), id in pending) {
      if id == r.id {
        assert Held(Delivering(r), id) == [r] && sent'[id] + [] == sent'[id];
      } else {
        assert Held(Delivering(r), id) == [];
      }
    }
  }

  lemma RoutingReader(pending: set<nat>, sent: map<nat, seq<Response>>, reader: ReaderPc, written: seq<Response>,
                      consumed: nat, reader': ReaderPc)
    requires RoutingOk(pending, sent, reader, written, consumed) && !reader.Delivering? && !reader'.Delivering?
    ensures RoutingOk(pending, sent, reader', written, consumed)
  {
    hide For, EndsLost, Routed;
    assert forall id: nat :: Held(reader, id) == Held(reader', id);
  }

  lemma RoutingFail(pending: set<nat>, sent: map<nat, seq<Response>>, written: seq<Response>, consumed: nat, id: nat)
    requires RoutingOk(pending, sent, Closing, written, consumed) && id in pending && id in sent
    ensures RoutingOk(pending - {id}, sent[id := sent[id] + [CONNECTION_LOST]], Closing, written, consumed)
  {
    hide For;
    RoutingShrink(pending, sent, Closing, written, consumed, pending - {id});
    var w := sent[id] + [CONNECTION_LOST];
    assert Held(Closing, id) == [] && sent[id] + [] == sent[id];
    assert w[..|w| - 1] == sent[id];
    assert Routed(w, [], For(written[..consumed], id), false);
  }

  // ----- Every step keeps the invariant -----

  lemma CallFacts(s: State, id: nat)
    requires Inv(s) && id in s.calls
    ensures 1 <= id <= s.nextID
    ensures id in s.channel <==> s.calls[id].pc != Assigned
    ensures s.calls[id].pc == Assigned || s.calls[id].pc == Registered ==> !s.calls[id].written
    ensures s.calls[id].pc.Waiting? ==> s.calls[id].written
    ensures id in s.channel <==> id in s.sent
    ensures id in s.channel <==> id in s.out
    ensures !s.calls[id].written ==> id !in s.taken
  {
    hide WrittenOk, RoutingOk;
  }

  /** A step that only moves a registered call on. */
  lemma AdvanceInv(s: State, id: nat, c: Call, pending': set<nat>, closed': set<nat>, requests': seq<Request>)
    requires Inv(s)
    requires id in s.calls && s.calls[id].pc != Assigned && s.calls[id].pc != Ended && c.kind == s.calls[id].kind
    requires c.pc != Assigned && c.pc != Registered && (c.pc.Waiting? ==> c.written)
    requires pending' <= s.pending && (id in pending' ==> c.pc != Ended)
    requires s.closedChannels <= closed' <= s.closedChannels + {id} && (id in closed' ==> c.pc == Ended && !c.written)
    requires RequestsOk(s.calls[id := c], requests', s.taken, s.tasks, s.loop)
    ensures Inv(s.(calls := s.calls[id := c], pending := pending', closedChannels := closed', requests := requests'))
  {
    hide CallsOk, RequestsOk, WrittenOk, RoutingOk;
    CallsAdvance(s.nextID, s.calls, s.pending, s.channel, s.sent, s.out, s.closedChannels, id, c, pending', closed');
    WrittenFrame(s.calls, s.written, s.taken, s.tasks, s.loop, id, c);
    RoutingShrink(s.pending, s.sent, s.reader, s.written, s.consumed, pending');
  }

  /** The same, when no request is written. */
  lemma MoveInv(s: State, id: nat, c: Call, pending': set<nat>, closed': set<nat>)
    requires Inv(s)
    requires id in s.calls && s.calls[id].pc != Assigned && s.calls[id].pc != Ended
    requires c.kind == s.calls[id].kind && c.written == s.calls[id].written
    requires c.pc != Assigned && c.pc != Registered && (c.pc.Waiting? ==> c.written)
    requires pending' <= s.pending && (id in pending' ==> c.pc != Ended)
    requires s.closedChannels <= closed' <= s.closedChannels + {id} && (id in closed' ==> c.pc == Ended && !c.written)
    ensures Inv(s.(calls := s.calls[id := c], pending := pending', closedChannels := closed'))
  {
    hide CallsOk, RequestsOk, WrittenOk, RoutingOk;
    RequestsFrame(s.calls, s.requests, s.taken, s.tasks, s.loop, id, c);
    AdvanceInv(s, id, c, pending', closed', s.requests);
    assert s.(calls := s.calls[id := c], pending := pending', closedChannels := closed') ==
      s.(calls := s.calls[id := c], pending := pending', closedChannels := closed', requests := s.requests);
  }

  lemma BeginInv(s: State, kind: CallKind, s': State)
    requires Inv(s) && StepBegin(s, kind) == Some(s')
    ensures Inv(s') && s'.nextID !in s.calls
  {
    hide CallsOk, RequestsOk, WrittenOk, RoutingOk;
    var id := s'.nextID;
    var c := Call(kind, Assigned, false);
    TakenBelow(s, id);
    CallsBegin(s.nextID, s.calls, s.pending, s.channel, s.sent, s.out, s.closedChannels, c);
    RequestsFrame(s.calls, s.requests, s.taken, s.tasks, s.loop, id, c);
    WrittenBegin(s.calls, s.written, s.taken, s.tasks, s.loop, id, c);
  }

  lemma TakenBelow(s: State, id: nat)
    requires Inv(s) && id > s.nextID
    ensures id !in s.calls && id !in s.taken
  {
    hide WrittenOk, RoutingOk;
  }

  lemma RegisterInv(s: State, id: nat, s': State)
    requires Inv(s) && StepRegister(s, id) == Some(s')
    ensures Inv(s')
  {
    hide CallsOk, RequestsOk, WrittenOk, RoutingOk;
    CallFacts(s, id);
    var c := s.calls[id].(pc := Registered);
    CallsRegister(s.nextID, s.calls, s.pending, s.channel, s.sent, s.out, s.closedChannels, id, c);
    RequestsFrame(s.calls, s.requests, s.taken, s.tasks, s.loop, id, c);
    WrittenFrame(s.calls, s.written, s.taken, s.tasks, s.loop, id, c);
    WrittenNothing(s.calls, s.written, s.taken, s.tasks, s.loop, id);
    RoutingRegister(s.pending, s.sent, s.reader, s.written, s.consumed, id);
  }

  lemma WriteInv(s: State, id: nat, s': State)
    requires Inv(s) && StepWrite(s, id) == Some(s')
    ensures Inv(s')
  {
    hide CallsOk, RequestsOk, WrittenOk, RoutingOk;
    CallFacts(s, id);
    NotClosed(s, id);
    var c := s.calls[id].(pc := Waiting(false), written := true);
    RequestsWrite(s.calls, s.requests, s.taken, s.tasks, s.loop, id, c);
    AdvanceInv(s, id, c, s.pending, s.closedChannels, s'.requests);
    assert s' == s.(calls := s.calls[id := c], pending := s.pending, closedChannels := s.closedChannels,
                    requests := s'.requests);
  }

  lemma NotClosed(s: State, id: nat)
    requires Inv(s) && id in s.calls && s.calls[id].pc != Ended
    ensures id !in s.closedChannels
  {
    hide RequestsOk, WrittenOk, RoutingOk;
  }

  lemma WriteFailsInv(s: State, id: nat, s': State)
    requires Inv(s) && StepWriteFails(s, id) == Some(s')
    ensures Inv(s')
  {
    CallFacts(s, id);
    NotClosed(s, id);
    hide Inv;
    MoveInv(s, id, s'.calls[id], s'.pending, s'.closedChannels);
    assert s' == s.(calls := s.calls[id := s'.calls[id]], pending := s'.pending, closedChannels := s'.closedChannels);
  }

  lemma GiveUpInv(s: State, id: nat, s': State)
    requires Inv(s) && StepGiveUp(s, id) == Some(s')
    ensures Inv(s')
  {
    CallFacts(s, id);
    NotClosed(s, id);
    hide Inv;
    MoveInv(s, id, s'.calls[id], s'.pending, s'.closedChannels);
    assert s' == s.(calls := s.calls[id := s'.calls[id]], pending := s'.pending, closedChannels := s'.closedChannels);
  }

  lemma LeaveInv(s: State, id: nat, s': State)
    requires Inv(s) && StepLeave(s, id) == Some(s')
    ensures Inv(s')
  {
    CallFacts(s, id);
    NotClosed(s, id);
    hide Inv;
    MoveInv(s, id, s'.calls[id], s'.pending, s'.closedChannels);
    assert s' == s.(calls := s.calls[id := s'.calls[id]], pending := s'.pending, closedChannels := s'.closedChannels);
  }

  lemma SendCancelInv(s: State, id: nat, s': State)
    requires Inv(s) && StepSendCancel(s, id) == Some(s')
    ensures Inv(s')
  {
    hide CallsOk, RequestsOk, WrittenOk, RoutingOk;
    CallFacts(s, id);
    NotClosed(s, id);
    var c := s'.calls[id];
    RequestsFrame(s.calls, s.requests, s.taken, s.tasks, s.loop, id, c);
    RequestsCancel(s.calls[id := c], s.requests, s.taken, s.tasks, s.loop, id);
    AdvanceInv(s, id, c, s.pending, s.closedChannels, s'.requests);
    assert s' == s.(calls := s.calls[id := c], pending := s.pending, closedChannels := s.closedChannels,
                    requests := s'.requests);
  }

  lemma ReceiveInv(s: State, id: nat, s': State)
    requires Inv(s) && StepReceive(s, id) == Some(s')
    ensures Inv(s')
  {
    hide CallsOk, RequestsOk, WrittenOk, RoutingOk;
    var t := s.(channel := s.channel[id := s.channel[id][1..]], out := s.out[id := s.out[id] + [s.channel[id][0]]]);
    CallFacts(s, id);
    NotClosed(s, id);
    CallsReceive(s.nextID, s.calls, s.pending, s.channel, s.sent, s.out, s.closedChannels, id);
    assert Inv(t);
    if s' != t {
      MoveInv(t, id, s'.calls[id], t.pending, t.closedChannels);
      assert s' == t.(calls := t.calls[id := s'.calls[id]], pending := t.pending, closedChannels := t.closedChannels);
    }
  }

  lemma ReadInv(s: State, s': State)
    requires Inv(s) && StepRead(s) == Some(s')
    ensures Inv(s')
  {
    hide CallsOk, RequestsOk, WrittenOk, RoutingOk;
    if s.written[s.consumed].id in s.pending {
      ReadPendingInv(s, s'.pending);
      assert s' == s.(consumed := s.consumed + 1, reader := Delivering(s.written[s.consumed]), pending := s'.pending);
    } else {
      RoutingSkip(s.pending, s.sent, s.written, s.consumed);
    }
  }

  lemma ReadPendingInv(s: State, pending': set<nat>)
    requires Inv(s) && s.reader == Reading && s.consumed < |s.written| && s.written[s.consumed].id in s.pending
    requires pending' == if Terminal(s.written[s.consumed].kind) then s.pending - {s.written[s.consumed].id} else s.pending
    ensures Inv(s.(consumed := s.consumed + 1, reader := Delivering(s.written[s.consumed]), pending := pending'))
  {
    hide CallsOk, RequestsOk, WrittenOk, RoutingOk;
    PendingSent(s);
    CallsShrink(s.nextID, s.calls, s.pending, s.channel, s.sent, s.out, s.closedChannels, pending');
    RoutingRead(s.pending, s.sent, s.written, s.consumed, pending');
  }

  lemma PendingSent(s: State)
    requires Inv(s)
    ensures s.pending <= s.sent.Keys && s.sent.Keys == s.channel.Keys && s.sent.Keys <= s.calls.Keys
  {
    hide RequestsOk, WrittenOk, RoutingOk;
  }

  lemma DeliverInv(s: State, s': State)
    requires Inv(s) && StepDeliver(s) == Some(s')
    ensures Inv(s')
  {
    hide CallsOk, RequestsOk, WrittenOk, RoutingOk;
    var r := s.reader.resp;
    CallsPut(s.nextID, s.calls, s.pending, s.channel, s.sent, s.out, s.closedChannels, r.id, r);
    RoutingDeliver(s.pending, s.sent, r, s.written, s.consumed);
  }

  lemma FailPendingInv(s: State, id: nat, s': State)
    requires Inv(s) && StepFailPending(s, id) == Some(s')
    ensures Inv(s')
  {
    hide CallsOk, RequestsOk, WrittenOk, RoutingOk;
    CallsShrink(s.nextID, s.calls, s.pending, s.channel, s.sent, s.out, s.closedChannels, s'.pending);
    CallsPut(s.nextID, s.calls, s'.pending, s.channel, s.sent, s.out, s.closedChannels, id, CONNECTION_LOST);
    RoutingFail(s.pending, s.sent, s.written, s.consumed, id);
  }

  lemma ReaderInv(s: State, a: Action, s': State)
    requires Inv(s) && Step(s, a) == Some(s') && (a.Lose? || a.StopReading?)
    ensures Inv(s')
  {
    hide CallsOk, RequestsOk, WrittenOk, RoutingOk;
    RoutingReader(s.pending, s.sent, s.reader, s.written, s.consumed, s'.reader);
  }

  lemma TakeRequestInv(s: State, kind: Kind, body: int, s': State)
    requires Inv(s) && StepTakeRequest(s, kind, body) == Some(s')
    ensures Inv(s')
  {
    hide CallsOk, RequestsOk, WrittenOk, RoutingOk;
    match s.requests[0]
    case Ask(id, k) =>
      CallFactsOfHead(s, id);
      RequestsTake(s.calls, s.requests, s.taken, s.tasks, id);
      if k == Quick {
        RequestsLoop(s.calls, s'.requests, s'.taken, s.tasks, s.loop, s'.loop);
        WrittenLoop(s.calls, s.written, s.taken, s.tasks, s'.taken, s'.loop.resp);
      } else {
        RequestsTask(s.calls, s'.requests, s'.taken, s.tasks, s.loop, id, Starting);
        WrittenTask(s.calls, s.written, s.taken, s.tasks, s.loop, s'.taken, id, Starting);
      }
    case Cancel(id) => TakeCancelInv(s, kind, body, s');
  }

  lemma TakeCancelInv(s: State, kind: Kind, body: int, s': State)
    requires Inv(s) && StepTakeRequest(s, kind, body) == Some(s') && s.requests[0].Cancel?
    ensures Inv(s')
  {
    hide CallsOk, RequestsOk, WrittenOk, RoutingOk;
    RequestsDrop(s.calls, s.requests, s.taken, s.tasks);
    RequestsLoop(s.calls, s'.requests, s.taken, s.tasks, s.loop, s'.loop);
    ZeroIsNoCall(s);
    WrittenLoop(s.calls, s.written, s.taken, s.tasks, s.taken, s'.loop.resp);
  }

  lemma ZeroIsNoCall(s: State)
    requires Inv(s)
    ensures 0 !in s.calls && 0 !in s.taken && 0 !in s.sent
  {
    hide WrittenOk, RoutingOk;
  }

  lemma CallFactsOfHead(s: State, id: nat)
    requires Inv(s) && s.requests != [] && s.requests[0].Ask? && s.requests[0].id == id
    ensures id != 0
  {
    hide WrittenOk, RoutingOk;
    assert s.requests[0].id in s.calls;
  }

  lemma AnswerInv(s: State, s': State)
    requires Inv(s) && StepAnswer(s) == Some(s')
    ensures Inv(s')
  {
    hide CallsOk, RequestsOk, WrittenOk, RoutingOk;
    var r := s.loop.resp;
    LoopFacts(s);
    RequestsLoop(s.calls, s.requests, s.taken, s.tasks, s.loop, Idle);
    WrittenAnswer(s.calls, s.written, s.taken, s.tasks, r);
    RoutingAppend(s.pending, s.sent, s.reader, s.written, s.consumed, r);
  }

  /** The request loop answers quick requests, which never become tasks. */
  lemma LoopFacts(s: State)
    requires Inv(s) && s.loop.Answering?
    ensures 0 !in s.calls
    ensures var id := s.loop.resp.id;
      id != 0 ==>
        id in s.taken && id in s.calls && id !in s.tasks && s.calls[id].kind == Quick && Terminal(s.loop.resp.kind)
  {
    hide WrittenOk, RoutingOk;
  }

  lemma TaskFacts(s: State, id: nat)
    requires Inv(s) && id in s.tasks
    ensures id != 0 && id in s.taken && id in s.calls && s.calls[id].kind != Quick
    ensures s.tasks[id].Writing? ==>
      s.tasks[id].resp.id == id && (s.calls[id].kind != Stream ==> Terminal(s.tasks[id].resp.kind))
    ensures s.loop.Answering? ==> s.loop.resp.id != id
  {
    hide WrittenOk, RoutingOk;
  }

  lemma TaskInv(s: State, a: Action, s': State)
    requires Inv(s) && Step(s, a) == Some(s')
    requires a.StartTask? || a.Decide? || a.FinishSilently?
    ensures Inv(s')
  {
    hide CallsOk, RequestsOk, WrittenOk, RoutingOk;
    TaskFacts(s, a.id);
    RequestsTask(s.calls, s.requests, s.taken, s.tasks, s.loop, a.id, s'.tasks[a.id]);
    assert s'.tasks == s.tasks[a.id := s'.tasks[a.id]];
    WrittenTask(s.calls, s.written, s.taken, s.tasks, s.loop, s.taken, a.id, s'.tasks[a.id]);
  }

  lemma EmitInv(s: State, id: nat, s': State)
    requires Inv(s) && StepEmit(s, id) == Some(s')
    ensures Inv(s')
  {
    hide CallsOk, RequestsOk, WrittenOk, RoutingOk;
    var r := s.tasks[id].resp;
    TaskFacts(s, id);
    RequestsTask(s.calls, s.requests, s.taken, s.tasks, s.loop, id, s'.tasks[id]);
    assert s'.tasks == s.tasks[id := s'.tasks[id]];
    WrittenEmit(s.calls, s.written, s.taken, s.tasks, s.loop, r, s'.tasks[id]);
    RoutingAppend(s.pending, s.sent, s.reader, s.written, s.consumed, r);
  }

  lemma StepInv(s: State, a: Action, s': State)
    requires Inv(s) && Step(s, a) == Some(s')
    ensures Inv(s')
  {
    hide Inv;
    match a
    case Begin(kind) => BeginInv(s, kind, s');
    case Register(id) => RegisterInv(s, id, s');
    case Write(id) => WriteInv(s, id, s');
    case WriteFails(id) => WriteFailsInv(s, id, s');
    case Receive(id) => ReceiveInv(s, id, s');
    case GiveUp(id) => GiveUpInv(s, id, s');
    case SendCancel(id) => SendCancelInv(s, id, s');
    case Leave(id) => LeaveInv(s, id, s');
    case Read => ReadInv(s, s');
    case Deliver => DeliverInv(s, s');
    case Lose => ReaderInv(s, a, s');
    case FailPending(id) => FailPendingInv(s, id, s');
    case StopReading => ReaderInv(s, a, s');
    case TakeRequest(kind, body) => TakeRequestInv(s, kind, body, s');
    case Answer => AnswerInv(s, s');
    case StartTask(id) => TaskInv(s, a, s');
    case Decide(id, kind, body) => TaskInv(s, a, s');
    case FinishSilently(id) => TaskInv(s, a, s');
    case Emit(id) => EmitInv(s, id, s');
  }

  /** The invariant holds in every state that any run reaches. */
  lemma {:induction false} RunInv(actions: seq<Action>)
    requires RunAll(actions).Some?
    ensures Inv(RunAll(actions).value)
  {
    hide Inv, Step;
    if actions == [] {
      InitialInv();
    } else {
      RunInv(actions[..|actions| - 1]);
      StepInv(RunAll(actions[..|actions| - 1]).value, actions[|actions| - 1], RunAll(actions).value);
    }
  }

  // ----- What every run guarantees -----

  ghost predicate Reaches(s: State) {
    exists actions :: RunAll(actions) == Some(s)
  }

  lemma ReachedInv(s: State)
    requires Reaches(s)
    ensures Inv(s)
  {
    hide Inv;
    var actions :| RunAll(actions) == Some(s);
    RunInv(actions);
  }

  /** A request number is never given out twice, and no call waits under the number of cancellation replies. */
  lemma NumbersAreFresh(s: State, kind: CallKind)
    requires Reaches(s)
    ensures Step(s, Begin(kind)).Some? && Step(s, Begin(kind)).value.nextID !in s.calls
    ensures 0 !in s.calls && 0 !in s.pending
  {
    ReachedInv(s);
    TakenBelow(s, s.nextID + 1);
    ZeroIsNoCall(s);
    PendingSent(s);
    hide Inv;
  }

  lemma SentOrLost(sent: seq<Response>, held: seq<Response>, read: seq<Response>, pending: bool)
    requires Routed(sent, held, read, pending)
    ensures sent <= read ||
      (sent != [] && sent[|sent| - 1] == CONNECTION_LOST && sent[..|sent| - 1] <= read)
  {
    if sent + held <= read {
      assert sent == (sent + held)[..|sent|];
    }
  }

  /** What a caller has got, and what still waits in its channel, is a first part of what the worker
      wrote for its request, in order and without gaps, closed by at most one connection error. */
  lemma OutputIsPrefix(s: State, id: nat)
    requires Reaches(s) && id in s.sent
    ensures id in s.out && s.out[id] <= s.sent[id]
    ensures s.sent[id] <= For(s.written, id) ||
      (s.sent[id] != [] && s.sent[id][|s.sent[id]| - 1] == CONNECTION_LOST &&
       s.sent[id][..|s.sent[id]| - 1] <= For(s.written, id))
  {
    ReachedInv(s);
    ChannelSplit(s, id);
    RoutedOf(s, id);
    hide Inv, For, Routed;
    var read := For(s.written[..s.consumed], id);
    ForPrefix(s.written, s.consumed, id);
    SentOrLost(s.sent[id], Held(s.reader, id), read, id in s.pending);
  }

  lemma ChannelSplit(s: State, id: nat)
    requires Inv(s) && id in s.sent
    ensures id in s.out && id in s.channel && id in s.calls && s.out[id] + s.channel[id] == s.sent[id]
  {
    hide RequestsOk, WrittenOk, RoutingOk;
  }

  lemma RoutedOf(s: State, id: nat)
    requires Inv(s) && id in s.sent
    ensures s.consumed <= |s.written|
    ensures Routed(s.sent[id], Held(s.reader, id), For(s.written[..s.consumed], id), id in s.pending)
  {
    hide CallsOk, RequestsOk, WrittenOk, Routed;
  }

  /** No response reaches the wrong request: whatever a caller gets carries its own number and was
      written by the worker, or is the connection error. */
  lemma NoMisrouting(s: State, id: nat, m: Response)
    requires Reaches(s) && id in s.sent && m in s.sent[id]
    ensures (m.id == id && m in s.written) || (m.id == 0 && m.kind == Error && m == CONNECTION_LOST)
  {
    hide Reaches, For;
    OutputIsPrefix(s, id);
    ForOnly(s.written, id);
    var sent := s.sent[id];
    var k :| 0 <= k < |sent| && sent[k] == m;
    if sent <= For(s.written, id) {
      assert For(s.written, id)[k] == m;
    } else if k < |sent| - 1 {
      assert For(s.written, id)[k] == sent[..|sent| - 1][k];
    }
  }

  /** A plain call is sent at most one message, counting the one the reader may be holding for it. */
  lemma OneReply(s: State, id: nat)
    requires Reaches(s) && id in s.sent && id in s.calls && s.calls[id].kind != Stream
    ensures |s.sent[id]| + |Held(s.reader, id)| <= 1
    ensures id in s.pending ==> s.sent[id] == []
  {
    hide Inv, Reaches, For, Routed, AllChunks, Open;
    ReachedInv(s);
    RoutedOf(s, id);
    ForPrefix(s.written, s.consumed, id);
    ShapeFor(s, id);
    OneOf(s.sent[id], Held(s.reader, id), For(s.written[..s.consumed], id), id in s.pending);
  }

  lemma ShapeFor(s: State, id: nat)
    requires Inv(s) && id in s.calls
    ensures ShapeOf(s.calls[id].kind, For(s.written, id), Open(id, s.tasks, s.loop))
  {
    hide CallsOk, RequestsOk, RoutingOk, For, ShapeOf;
  }

  lemma FirstIsChunk(w: seq<Response>)
    requires w != [] && AllChunks(w)
    ensures w[0].kind == Chunk
  {
    assert w[0] in w;
  }

  lemma OneOf(sent: seq<Response>, held: seq<Response>, read: seq<Response>, pending: bool)
    requires Routed(sent, held, read, pending)
    requires |read| <= 1 && forall i | 0 <= i < |read| :: Terminal(read[i].kind)
    ensures |sent| + |held| <= 1
    ensures pending ==> sent == []
  {
    if read != [] {
      assert read[0] in read;
    }
    if EndsLost(sent, held, read) {
      var most := sent[..|sent| - 1];
      if most != [] {
        FirstIsChunk(most);
      }
    }
  }

  /** Nothing follows the end of a reply: every message sent to a caller but the last is a chunk. */
  lemma EndsOnce(s: State, id: nat, i: nat)
    requires Reaches(s) && id in s.sent && id in s.calls && i + 1 < |s.sent[id]|
    ensures s.sent[id][i].kind == Chunk
  {
    hide Inv, Reaches, For, AllChunks, Open;
    ReachedInv(s);
    RoutedOf(s, id);
    ForPrefix(s.written, s.consumed, id);
    ShapeFor(s, id);
    var sent, held := s.sent[id], Held(s.reader, id);
    var read := For(s.written[..s.consumed], id);
    if EndsLost(sent, held, read) {
      FirstIsChunkAt(sent[..|sent| - 1], i);
    } else {
      assert sent[i] == (sent + held)[i] == read[i] == For(s.written, id)[i];
    }
  }

  lemma FirstIsChunkAt(w: seq<Response>, i: nat)
    requires i < |w| && AllChunks(w)
    ensures w[i].kind == Chunk
  {
    assert w[i] in w;
  }

  /** The reader never waits on a plain call: its one-place channel has room for the answer the reader
      holds, and for the connection error of `closePending`. */
  lemma PlainNeverBlocks(s: State, id: nat)
    requires Reaches(s) && id in s.calls && s.calls[id].kind != Stream
    ensures s.reader.Delivering? && s.reader.resp.id == id ==> Step(s, Deliver).Some?
    ensures s.reader == Closing && id in s.pending ==> Step(s, FailPending(id)).Some?
  {
    hide Reaches, HasRoom;
    if (s.reader.Delivering? && s.reader.resp.id == id) || id in s.pending {
      PlainHasRoom(s, id);
    }
  }

  lemma PlainHasRoom(s: State, id: nat)
    requires Reaches(s) && id in s.calls && s.calls[id].kind != Stream
    requires (s.reader.Delivering? && s.reader.resp.id == id) || id in s.pending
    ensures HasRoom(s, id) && id in s.sent
  {
    ReachedInv(s);
    PendingSent(s);
    if s.reader.Delivering? {
      HeldIsSent(s);
    }
    hide Inv, Reaches;
    OneReply(s, id);
    ChannelSplit(s, id);
  }

  lemma HeldIsSent(s: State)
    requires Inv(s) && s.reader.Delivering?
    ensures s.reader.resp.id in s.sent
  {
    hide CallsOk, RequestsOk, WrittenOk, Routed;
  }

  /** The reader never sends on a channel that a failed stream request has closed: it holds nothing
      for it, and neither a later response nor a lost connection finds it pending. */
  lemma ClosedGetsNothing(s: State, id: nat)
    requires Reaches(s) && id in s.closedChannels
    ensures id !in s.pending && Held(s.reader, id) == []
    ensures Step(s, FailPending(id)).None?
  {
    hide Reaches, For, CallsOk, RequestsOk, WrittenOk, RoutingOk;
    ReachedInv(s);
    ClosedFacts(s, id);
    WrittenNothing(s.calls, s.written, s.taken, s.tasks, s.loop, id);
    RoutedOf(s, id);
    ForPrefix(s.written, s.consumed, id);
    assert |Held(s.reader, id)| <= |For(s.written[..s.consumed], id)|;
  }

  lemma ClosedFacts(s: State, id: nat)
    requires Inv(s) && id in s.closedChannels
    ensures id !in s.pending && id in s.sent && id != 0 && id !in s.taken
  {
    hide WrittenOk, RoutingOk;
  }
}
