/**
 Goroutines of the worker that write responses to one connection under its write lock
 (cmd/worker_main.go and pkg/worker/frame.go) as a state machine.

 A call takes the lock, writes the header length, the header and the attachment, each a write of its
 own, and gives the lock back. Steps of different calls interleave freely. A write may fail part of
 the way; the connection is then broken, and no later write puts anything out.
 */
module Writers {
  import opened Options
  import opened Words
  import opened Framing

  /** What a call does next. */
  datatype Pc = TakeLock | WriteLength | WriteHeader | WriteAttachment | GiveLock | Ended

  /** A call of safeWriteResponse by a goroutine, the writer. */
  datatype Call = Call(writer: nat, m: Message, pc: Pc)

  /** A frame of which only the first bytes went out. */
  datatype Tear = Tear(m: Message, bytes: nat)

  /** The bytes written so far; who has the lock; all calls in the order they were made; and, as
      history, the calls whose frames are complete, in the order they were completed. */
  datatype State = State(stream: seq<byte>, holder: Option<nat>, calls: seq<Call>, log: seq<(nat, Message)>,
                         torn: Option<Tear>)

  datatype Action = Make(writer: nat, m: Message) | Go(c: nat) | Fail(c: nat, bytes: nat)

  function Initial(): State {
    State([], None, [], [], None)
  }

  function At(s: State, c: nat, pc: Pc): State
    requires c < |s.calls|
  {
    s.(calls := s.calls[c := s.calls[c].(pc := pc)])
  }

  function Header(codec: Codec, m: Message): seq<byte> {
    codec.enc(m.resp)
  }

  /** The bytes the next write of a call puts out. */
  function Piece(codec: Codec, call: Call): seq<byte> {
    match call.pc
    case WriteLength => BigEndian(|Header(codec, call.m)| % TWO32)
    case WriteHeader => Header(codec, call.m)
    case WriteAttachment => call.m.attachment
    case _ => []
  }

  /** What a call does after a successful write: an empty attachment is not written. */
  function After(call: Call): Pc {
    match call.pc
    case WriteLength => WriteHeader
    case WriteHeader => if |call.m.attachment| > 0 then WriteAttachment else GiveLock
    case _ => GiveLock
  }

  predicate Writing(pc: Pc) {
    pc in {WriteLength, WriteHeader, WriteAttachment}
  }

  /** A goroutine makes its calls one after another. */
  function StepMake(s: State, writer: nat, m: Message): Option<State> {
    if exists c | 0 <= c < |s.calls| :: s.calls[c].writer == writer && s.calls[c].pc != Ended then None
    else Some(s.(calls := s.calls + [Call(writer, m, TakeLock)]))
  }

  function StepWrite(codec: Codec, s: State, c: nat): Option<State>
    requires c < |s.calls|
  {
    if s.torn.Some? then None
    else
      var call := s.calls[c];
      var s' := At(s, c, After(call)).(stream := s.stream + Piece(codec, call));
      Some(if After(call) == GiveLock then s'.(log := s.log + [(call.writer, call.m)]) else s')
  }

  function StepGo(codec: Codec, s: State, c: nat): Option<State> {
    if c >= |s.calls| then None
    else
      match s.calls[c].pc
      case TakeLock => if s.holder.Some? then None else Some(At(s, c, WriteLength).(holder := Some(c)))
      case GiveLock => Some(At(s, c, Ended).(holder := None))
      case Ended => None
      case _ => StepWrite(codec, s, c)
  }

  /** A write fails after some of its bytes, none of them if the connection is broken already; the call
      gives the lock back. */
  function StepFail(codec: Codec, s: State, c: nat, bytes: nat): Option<State> {
    if c >= |s.calls| || !Writing(s.calls[c].pc) then None
    else if s.torn.Some? then Some(At(s, c, GiveLock))
    else
      var call := s.calls[c];
      var piece := Piece(codec, call);
      if bytes >= |piece| then None
      else
        Some(At(s, c, GiveLock).(stream := s.stream + piece[..bytes],
                                 torn := Some(Tear(call.m, |Begun(codec, call)| + bytes))))
  }

  /** What a call has written of its frame. */
  function Begun(codec: Codec, call: Call): seq<byte> {
    match call.pc
    case WriteHeader => BigEndian(|Header(codec, call.m)| % TWO32)
    case WriteAttachment => BigEndian(|Header(codec, call.m)| % TWO32) + Header(codec, call.m)
    case _ => []
  }

  function Step(codec: Codec, s: State, a: Action): Option<State> {
    match a
    case Make(writer, m) => StepMake(s, writer, m)
    case Go(c) => StepGo(codec, s, c)
    case Fail(c, bytes) => StepFail(codec, s, c, bytes)
  }

  function RunAll(codec: Codec, actions: seq<Action>): Option<State> {
    if actions == [] then Some(Initial())
    else
      var r := RunAll(codec, actions[..|actions| - 1]);
      if r.None? then None else Step(codec, r.value, actions[|actions| - 1])
  }

  // ----- The invariant -----

  /** A call is past the lock exactly while it has it. */
  ghost predicate LockOk(s: State) {
    forall c: nat :: s.holder == Some(c) <==> c < |s.calls| && s.calls[c].pc != TakeLock && s.calls[c].pc != Ended
  }

  /** The first part of a frame behind the complete ones: of the torn frame, or of the holder's. */
  function Rest(codec: Codec, s: State): seq<byte>
    requires s.torn.Some? ==> s.torn.value.bytes <= |Frame(codec, s.torn.value.m)|
    requires s.holder.Some? ==> s.holder.value < |s.calls|
  {
    if s.torn.Some? then Frame(codec, s.torn.value.m)[..s.torn.value.bytes]
    else if s.holder.Some? then Begun(codec, s.calls[s.holder.value])
    else []
  }

  ghost predicate StreamOk(codec: Codec, s: State) {
    && (s.torn.Some? ==> s.torn.value.bytes < |Frame(codec, s.torn.value.m)| && Made(s, s.torn.value.m))
    && (s.holder.Some? ==> s.holder.value < |s.calls|)
    && (forall c | 0 <= c < |s.calls| && s.calls[c].pc == WriteAttachment :: s.calls[c].m.attachment != [])
    && s.stream == Frames(codec, Messages(s.log)) + Rest(codec, s)
  }

  /** Some call was made with this message. */
  ghost predicate Made(s: State, m: Message) {
    exists c :: 0 <= c < |s.calls| && s.calls[c].m == m
  }

  /** The messages of the calls a writer has made, in order. */
  function CallsOf(calls: seq<Call>, writer: nat): seq<Message> {
    if calls == [] then []
    else
      var last := calls[|calls| - 1];
      CallsOf(calls[..|calls| - 1], writer) + (if last.writer == writer then [last.m] else [])
  }

  /** The messages a writer has tried to write, in order: all its calls but one that is still before the
      end of its frame. */
  function Tried(calls: seq<Call>, writer: nat): seq<Message> {
    if calls == [] then []
    else
      var last := calls[|calls| - 1];
      Tried(calls[..|calls| - 1], writer) +
      (if last.writer == writer && (last.pc == GiveLock || last.pc == Ended) then [last.m] else [])
  }

  /** Only the last call of a writer can be unfinished. */
  ghost predicate Sequential(calls: seq<Call>) {
    forall c, d | 0 <= c < d < |calls| && calls[c].writer == calls[d].writer :: calls[c].pc == Ended
  }

  /** A writer's complete frames are its calls in order; while nothing is torn, all that it has tried. */
  ghost predicate OrderOk(s: State) {
    && (s.torn.None? ==> forall w: nat :: WrittenBy(s.log, w) == Tried(s.calls, w))
    && (forall w: nat :: WrittenBy(s.log, w) <= CallsOf(s.calls, w))
    && (forall i | 0 <= i < |s.log| :: Made(s, s.log[i].1))
  }

  ghost predicate Inv(codec: Codec, s: State) {
    LockOk(s) && StreamOk(codec, s) && Sequential(s.calls) && OrderOk(s)
  }

  lemma InitialInv(codec: Codec)
    ensures Inv(codec, Initial())
  {
    hide Frame, Begun, CallsOf, Tried, WrittenBy, Messages, Frames;
    NothingSaid(codec);
  }

  lemma NothingSaid(codec: Codec)
    ensures Frames(codec, Messages([])) == []
    ensures forall w: nat :: WrittenBy([], w) == [] && Tried([], w) == [] && CallsOf([], w) == []
  {
  }

  // ----- The history of calls -----

  lemma CallsNext(calls: seq<Call>, call: Call, w: nat)
    ensures CallsOf(calls + [call], w) == CallsOf(calls, w) + (if call.writer == w then [call.m] else [])
    ensures Tried(calls + [call], w) == Tried(calls, w) +
      (if call.writer == w && (call.pc == GiveLock || call.pc == Ended) then [call.m] else [])
  {
    assert (calls + [call])[..|calls|] == calls;
  }

  predicate Done(pc: Pc) {
    pc == GiveLock || pc == Ended
  }

  /** A call moves on: the calls stay the same, and so does what was tried unless the call is done now. */
  lemma {:induction false} CallsMove(calls: seq<Call>, c: nat, pc: Pc, w: nat)
    requires c < |calls|
    ensures var calls' := calls[c := calls[c].(pc := pc)];
      && CallsOf(calls', w) == CallsOf(calls, w)
      && (Done(pc) == Done(calls[c].pc) ==> Tried(calls', w) == Tried(calls, w))
  {
    var n := |calls| - 1;
    var calls' := calls[c := calls[c].(pc := pc)];
    if c == n {
      assert calls'[..n] == calls[..n];
    } else {
      CallsMove(calls[..n], c, pc, w);
      assert calls'[..n] == calls[..n][c := calls[c].(pc := pc)];
    }
  }

  /** The call that a writer is in the middle of is its last one, so its message comes last when it is done. */
  lemma {:induction false} TriedFinish(calls: seq<Call>, c: nat, w: nat)
    requires c < |calls| && Sequential(calls) && !Done(calls[c].pc)
    ensures Tried(calls[c := calls[c].(pc := GiveLock)], w) ==
      Tried(calls, w) + (if calls[c].writer == w then [calls[c].m] else [])
  {
    var n := |calls| - 1;
    var calls' := calls[c := calls[c].(pc := GiveLock)];
    if c == n {
      assert calls'[..n] == calls[..n];
    } else {
      TriedFinish(calls[..n], c, w);
      assert calls'[..n] == calls[..n][c := calls[c].(pc := GiveLock)];
      assert calls[n].writer != calls[c].writer;
    }
  }

  /** What was tried is a first part of the calls. */
  lemma {:induction false} TriedIsPrefix(calls: seq<Call>, w: nat)
    requires Sequential(calls)
    ensures Tried(calls, w) <= CallsOf(calls, w)
    ensures (forall c | 0 <= c < |calls| && calls[c].writer == w :: Done(calls[c].pc)) ==>
      Tried(calls, w) == CallsOf(calls, w)
  {
    if calls != [] {
      var n := |calls| - 1;
      TriedIsPrefix(calls[..n], w);
      assert forall c | 0 <= c < n :: calls[..n][c] == calls[c];
    }
  }

  lemma WrittenNext(log: seq<(nat, Message)>, e: (nat, Message), w: nat)
    ensures WrittenBy(log + [e], w) == WrittenBy(log, w) + (if e.0 == w then [e.1] else [])
    ensures Messages(log + [e]) == Messages(log) + [e.1]
  {
    assert (log + [e])[..|log|] == log;
  }

  // ----- The bytes of a frame -----

  /** A write continues the frame, and the last one completes it. */
  lemma PieceContinues(codec: Codec, call: Call)
    requires Writing(call.pc) && (call.pc == WriteAttachment ==> call.m.attachment != [])
    ensures After(call) == GiveLock ==> Begun(codec, call) + Piece(codec, call) == Frame(codec, call.m)
    ensures After(call) != GiveLock ==>
      Begun(codec, call) + Piece(codec, call) == Begun(codec, call.(pc := After(call)))
    ensures Begun(codec, call) + Piece(codec, call) <= Frame(codec, call.m)
    ensures After(call) == WriteAttachment ==> call.m.attachment != []
  {
    hide BigEndian;
  }

  /** Breaking off inside a write leaves a first part of the frame. */
  lemma TearIsFirstPart(codec: Codec, call: Call, bytes: nat)
    requires Writing(call.pc) && (call.pc == WriteAttachment ==> call.m.attachment != [])
    requires bytes < |Piece(codec, call)|
    ensures var n := |Begun(codec, call)| + bytes;
      n < |Frame(codec, call.m)| && Begun(codec, call) + Piece(codec, call)[..bytes] == Frame(codec, call.m)[..n]
  {
    PieceContinues(codec, call);
    hide Piece, Begun, Frame;
    var b, p := Begun(codec, call), Piece(codec, call);
    assert (b + p)[..|b| + bytes] == b + p[..bytes];
    assert Frame(codec, call.m)[..|b| + bytes] == (b + p)[..|b| + bytes];
  }

  // ----- Every step keeps the invariant -----

  lemma MadeStays(s: State, s': State)
    requires |s.calls| <= |s'.calls| && forall c | 0 <= c < |s.calls| :: s'.calls[c].m == s.calls[c].m
    ensures forall m | Made(s, m) :: Made(s', m)
  {
    forall m | Made(s, m) ensures Made(s', m) {
      var c :| 0 <= c < |s.calls| && s.calls[c].m == m;
      assert s'.calls[c].m == m;
    }
  }

  lemma MakeInv(codec: Codec, s: State, writer: nat, m: Message, s': State)
    requires Inv(codec, s) && StepMake(s, writer, m) == Some(s')
    ensures Inv(codec, s')
  {
    hide Frames, Frame, Begun, Made, CallsOf, Tried, WrittenBy;
    MadeStays(s, s');
    var call := Call(writer, m, TakeLock);
    forall w: nat
      ensures CallsOf(s.calls, w) <= CallsOf(s'.calls, w) && Tried(s'.calls, w) == Tried(s.calls, w)
    {
      CallsNext(s.calls, call, w);
      assert Tried(s.calls, w) + [] == Tried(s.calls, w);
    }
    assert Rest(codec, s') == Rest(codec, s);
  }

  /** A call moves on without writing and without completing a frame. */
  lemma QuietInv(codec: Codec, s: State, c: nat, pc: Pc, s': State)
    requires Inv(codec, s) && c < |s.calls| && s.calls[c].pc != Ended
    requires s' == At(s, c, pc).(holder := s'.holder) && LockOk(s')
    requires Done(pc) == Done(s.calls[c].pc) || s.torn.Some?
    requires s.torn.Some? || (Begins(s.calls[c].pc) && Begins(pc))
    requires pc != WriteAttachment
    ensures Inv(codec, s')
  {
    hide Frames, Frame, Made, CallsOf, Tried, WrittenBy;
    MadeStays(s, s');
    forall w: nat
      ensures CallsOf(s'.calls, w) == CallsOf(s.calls, w)
      ensures s.torn.None? ==> Tried(s'.calls, w) == Tried(s.calls, w)
    {
      CallsMove(s.calls, c, pc, w);
    }
    assert s'.holder.Some? ==> s'.holder.value < |s'.calls|;
    QuietRest(codec, s, c, pc, s');
  }

  /** Nothing of the frame has been written, or all of it. */
  predicate Begins(pc: Pc) {
    !(pc == WriteHeader || pc == WriteAttachment)
  }

  lemma QuietRest(codec: Codec, s: State, c: nat, pc: Pc, s': State)
    requires LockOk(s) && LockOk(s') && c < |s.calls|
    requires s' == At(s, c, pc).(holder := s'.holder)
    requires s.torn.Some? || (Begins(s.calls[c].pc) && Begins(pc))
    requires s.torn.Some? ==> s.torn.value.bytes <= |Frame(codec, s.torn.value.m)|
    requires s.holder.Some? ==> s.holder.value < |s.calls|
    requires s'.holder.Some? ==> s'.holder.value < |s'.calls|
    ensures Rest(codec, s') == Rest(codec, s)
  {
    hide Frame, BigEndian;
    assert s.holder.Some? ==> s.calls[s.holder.value].pc != TakeLock;
    assert s'.holder.Some? ==> s'.calls[s'.holder.value].pc != TakeLock;
  }

  lemma LockMoves(s: State, c: nat, pc: Pc, s': State)
    requires LockOk(s) && c < |s.calls|
    requires s' == At(s, c, pc).(holder := s'.holder, stream := s'.stream, log := s'.log, torn := s'.torn)
    requires (s.calls[c].pc == TakeLock && s.holder.None? && pc == WriteLength && s'.holder == Some(c)) ||
      (s.calls[c].pc == GiveLock && pc == Ended && s'.holder == None) ||
      (Writing(s.calls[c].pc) && (Writing(pc) || pc == GiveLock) && s'.holder == s.holder)
    ensures LockOk(s') && (s.calls[c].pc != TakeLock ==> s.holder == Some(c))
  {
    forall d: nat
      ensures s'.holder == Some(d) <==> d < |s'.calls| && s'.calls[d].pc != TakeLock && s'.calls[d].pc != Ended
    {
      assert s.holder == Some(d) <==> d < |s.calls| && s.calls[d].pc != TakeLock && s.calls[d].pc != Ended;
      assert s.holder == Some(c) <==> s.calls[c].pc != TakeLock && s.calls[c].pc != Ended;
    }
    assert s.holder == Some(c) <==> s.calls[c].pc != TakeLock && s.calls[c].pc != Ended;
  }

  lemma WriteInv(codec: Codec, s: State, c: nat, s': State)
    requires Inv(codec, s) && c < |s.calls| && Writing(s.calls[c].pc) && StepWrite(codec, s, c) == Some(s')
    ensures Inv(codec, s')
  {
    hide StreamOk, OrderOk, LockOk, Sequential, Piece, Begun;
    LockMoves(s, c, After(s.calls[c]), s');
    SequentialMoves(s.calls, c, After(s.calls[c]));
    WriteStream(codec, s, c, s');
    WriteOrder(codec, s, c, s');
  }

  lemma SequentialMoves(calls: seq<Call>, c: nat, pc: Pc)
    requires Sequential(calls) && c < |calls| && calls[c].pc != Ended
    ensures Sequential(calls[c := calls[c].(pc := pc)])
  {
  }

  lemma WriteStream(codec: Codec, s: State, c: nat, s': State)
    requires StreamOk(codec, s) && s.holder == Some(c) && c < |s.calls| && Writing(s.calls[c].pc)
    requires StepWrite(codec, s, c) == Some(s')
    ensures StreamOk(codec, s')
  {
    hide Frames, Frame, Piece, Begun, Made, Messages;
    var call := s.calls[c];
    PieceContinues(codec, call);
    var done := Frames(codec, Messages(s.log));
    assert Rest(codec, s) == Begun(codec, call);
    Associate(done, Begun(codec, call), Piece(codec, call));
    AttachmentsStay(s.calls, c, After(call));
    if After(call) == GiveLock {
      WrittenNext(s.log, (call.writer, call.m), 0);
      FramesAppend(codec, Messages(s.log), call.m);
      NothingBegun(codec, s'.calls[c]);
      assert Rest(codec, s') == [];
      NothingBehind(s'.stream);
    } else {
      assert Rest(codec, s') == Begun(codec, s'.calls[c]);
    }
  }

  lemma Associate(a: seq<byte>, b: seq<byte>, c: seq<byte>)
    ensures (a + b) + c == a + (b + c)
  {
  }

  lemma NothingBehind(a: seq<byte>)
    ensures a + [] == a
  {
  }

  lemma AttachmentsStay(calls: seq<Call>, c: nat, pc: Pc)
    requires forall d | 0 <= d < |calls| && calls[d].pc == WriteAttachment :: calls[d].m.attachment != []
    requires c < |calls| && (pc == WriteAttachment ==> calls[c].m.attachment != [])
    ensures var calls' := calls[c := calls[c].(pc := pc)];
      forall d | 0 <= d < |calls'| && calls'[d].pc == WriteAttachment :: calls'[d].m.attachment != []
  {
  }

  lemma NothingBegun(codec: Codec, call: Call)
    requires Begins(call.pc)
    ensures Begun(codec, call) == []
  {
  }

  lemma WriteOrder(codec: Codec, s: State, c: nat, s': State)
    requires OrderOk(s) && Sequential(s.calls) && c < |s.calls| && Writing(s.calls[c].pc)
    requires StepWrite(codec, s, c) == Some(s')
    ensures OrderOk(s')
  {
    hide Piece, Sequential, CallsOf, Tried, WrittenBy, Made;
    var call := s.calls[c];
    MadeStays(s, s');
    SequentialMoves(s.calls, c, After(call));
    forall w: nat
      ensures WrittenBy(s'.log, w) == Tried(s'.calls, w) && Tried(s'.calls, w) <= CallsOf(s'.calls, w)
    {
      TriedIsPrefix(s'.calls, w);
      if After(call) == GiveLock {
        WrittenNext(s.log, (call.writer, call.m), w);
        TriedFinish(s.calls, c, w);
      } else {
        CallsMove(s.calls, c, After(call), w);
      }
    }
    MadeHere(s', c);
  }

  lemma MadeHere(s: State, c: nat)
    requires c < |s.calls|
    ensures Made(s, s.calls[c].m)
  {
  }

  lemma GoInv(codec: Codec, s: State, c: nat, s': State)
    requires Inv(codec, s) && StepGo(codec, s, c) == Some(s')
    ensures Inv(codec, s')
  {
    hide StreamOk, OrderOk, LockOk, Sequential, StepWrite;
    match s.calls[c].pc
    case TakeLock =>
      LockMoves(s, c, WriteLength, s');
      QuietInv(codec, s, c, WriteLength, s');
    case GiveLock =>
      LockMoves(s, c, Ended, s');
      QuietInv(codec, s, c, Ended, s');
    case _ => WriteInv(codec, s, c, s');
  }

  lemma FailInv(codec: Codec, s: State, c: nat, bytes: nat, s': State)
    requires Inv(codec, s) && StepFail(codec, s, c, bytes) == Some(s')
    ensures Inv(codec, s')
  {
    hide StreamOk, OrderOk, LockOk, Sequential, Begun, Piece;
    LockMoves(s, c, GiveLock, s');
    if s.torn.Some? {
      QuietInv(codec, s, c, GiveLock, s');
    } else {
      SequentialMoves(s.calls, c, GiveLock);
      TearStream(codec, s, c, bytes, s');
      TearOrder(codec, s, c, bytes, s');
    }
  }

  lemma TearStream(codec: Codec, s: State, c: nat, bytes: nat, s': State)
    requires StreamOk(codec, s) && s.holder == Some(c) && s.torn.None? && StepFail(codec, s, c, bytes) == Some(s')
    ensures StreamOk(codec, s')
  {
    hide Frames, Frame, Piece, Begun, Made;
    var call := s.calls[c];
    TearIsFirstPart(codec, call, bytes);
    MadeHere(s', c);
    assert s.stream + Piece(codec, call)[..bytes] ==
      Frames(codec, Messages(s.log)) + (Begun(codec, call) + Piece(codec, call)[..bytes]);
  }

  lemma TearOrder(codec: Codec, s: State, c: nat, bytes: nat, s': State)
    requires OrderOk(s) && s.torn.None? && StepFail(codec, s, c, bytes) == Some(s')
    ensures OrderOk(s')
  {
    hide Frame, Piece, Begun, CallsOf, Tried, WrittenBy, Made;
    MadeStays(s, s');
    forall w: nat ensures CallsOf(s'.calls, w) == CallsOf(s.calls, w) {
      CallsMove(s.calls, c, GiveLock, w);
    }
  }

  lemma StepInv(codec: Codec, s: State, a: Action, s': State)
    requires Inv(codec, s) && Step(codec, s, a) == Some(s')
    ensures Inv(codec, s')
  {
    hide Inv;
    match a
    case Make(writer, m) => MakeInv(codec, s, writer, m, s');
    case Go(c) => GoInv(codec, s, c, s');
    case Fail(c, bytes) => FailInv(codec, s, c, bytes, s');
  }

  /** The invariant holds in every state that any run reaches. */
  lemma {:induction false} RunInv(codec: Codec, actions: seq<Action>)
    requires RunAll(codec, actions).Some?
    ensures Inv(codec, RunAll(codec, actions).value)
  {
    hide Inv, Step;
    if actions == [] {
      InitialInv(codec);
    } else {
      var before := actions[..|actions| - 1];
      RunInv(codec, before);
      StepInv(codec, RunAll(codec, before).value, actions[|actions| - 1], RunAll(codec, actions).value);
    }
  }

  // ----- What every run guarantees -----

  /** No two calls are between taking and giving back the lock. */
  lemma OneWriterAtATime(codec: Codec, actions: seq<Action>, s: State, c: nat, d: nat)
    requires RunAll(codec, actions) == Some(s) && c < |s.calls| && d < |s.calls|
    requires Writing(s.calls[c].pc) && Writing(s.calls[d].pc)
    ensures c == d
  {
    RunInv(codec, actions);
    hide StreamOk, OrderOk, Sequential, RunAll;
    assert s.holder == Some(c) && s.holder == Some(d);
  }

  /** However the calls interleave, the bytes on the connection are the complete frames, in the order in
      which they were completed, and a first part of one more frame that some call has begun. */
  lemma StreamIsFrames(codec: Codec, actions: seq<Action>, s: State) returns (m: Message, n: nat)
    requires RunAll(codec, actions) == Some(s) && HasHeaders(codec)
    ensures n == 0 || (Made(s, m) && n < |Frame(codec, m)|)
    ensures n <= |Frame(codec, m)| && s.stream == Frames(codec, Messages(s.log)) + Frame(codec, m)[..n]
  {
    RunInv(codec, actions);
    hide RunAll, Inv, StreamOk, Frames, Frame, Made;
    m, n := RestOf(codec, s);
  }

  /** No header is encoded as nothing, as no JSON text is empty. */
  ghost predicate HasHeaders(codec: Codec) {
    forall r: Response :: codec.enc(r) != []
  }

  lemma RestOf(codec: Codec, s: State) returns (m: Message, n: nat)
    requires StreamOk(codec, s) && HasHeaders(codec)
    ensures n == 0 || (Made(s, m) && n < |Frame(codec, m)|)
    ensures n <= |Frame(codec, m)| && s.stream == Frames(codec, Messages(s.log)) + Frame(codec, m)[..n]
  {
    hide Frames, Frame, Made, Begun;
    if s.torn.Some? {
      m, n := s.torn.value.m, s.torn.value.bytes;
    } else if s.holder.Some? && !Begins(s.calls[s.holder.value].pc) {
      var call := s.calls[s.holder.value];
      m, n := call.m, |Begun(codec, call)|;
      BegunIsFirstPart(codec, call);
      MadeHere(s, s.holder.value);
    } else {
      m, n := Message(Response(0, "", false, 0, 0, ""), []), 0;
      if s.holder.Some? {
        NothingBegun(codec, s.calls[s.holder.value]);
      }
    }
  }

  lemma BegunIsFirstPart(codec: Codec, call: Call)
    requires codec.enc(call.m.resp) != []
    requires call.pc == WriteHeader || (call.pc == WriteAttachment && call.m.attachment != [])
    ensures |Begun(codec, call)| < |Frame(codec, call.m)|
    ensures Frame(codec, call.m)[..|Begun(codec, call)|] == Begun(codec, call)
  {
    hide BigEndian;
  }

  /** Each writer's complete frames are the messages of its calls, in order: the first ones of them, and
      all of them if no write has failed and none of its calls is unfinished. */
  lemma WriterOrderIsKept(codec: Codec, actions: seq<Action>, s: State, w: nat)
    requires RunAll(codec, actions) == Some(s)
    ensures WrittenBy(s.log, w) <= CallsOf(s.calls, w)
    ensures s.torn.None? && (forall c | 0 <= c < |s.calls| && s.calls[c].writer == w :: s.calls[c].pc == Ended) ==>
      WrittenBy(s.log, w) == CallsOf(s.calls, w)
  {
    RunInv(codec, actions);
    TriedIsPrefix(s.calls, w);
    hide RunAll, StreamOk, LockOk, Sequential;
  }

  /** The reader gets exactly the complete frames, whole and in order, in every state of every run. */
  lemma WritersInterleaveWholeFrames(codec: Codec, actions: seq<Action>, s: State)
    requires RunAll(codec, actions) == Some(s) && RoundTrips(codec) && HasHeaders(codec)
    requires forall c | 0 <= c < |s.calls| :: WellFramed(codec, s.calls[c].m)
    ensures ReadAll(codec, s.stream) == Messages(s.log)
  {
    var m, n := StreamIsFrames(codec, actions, s);
    RunInv(codec, actions);
    hide RunAll, StreamOk, LockOk, Sequential, Frames, Frame, WellFramed, ReadOne;
    forall x | x in Messages(s.log) ensures WellFramed(codec, x) {
      var i :| 0 <= i < |s.log| && s.log[i].1 == x;
      assert Made(s, s.log[i].1);
    }
    if n == 0 {
      NothingToRead(codec);
    } else {
      FirstPartIsUnreadable(codec, m, n);
    }
    FramesReadBack(codec, Messages(s.log), Frame(codec, m)[..n]);
  }
}
