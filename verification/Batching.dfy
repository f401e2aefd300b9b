/**
 The frame generation loop together with its callback, which hands frames to the streaming codec
 in batches (pkg/ortruntime/runtime.go and pkg/ttsruntime/ttsruntime.go).
 */
module Batching {
  import opened Options
  import opened Generation

  /** All frames of a list of batches. */
  function Flat(batches: seq<seq<Frame>>): seq<Frame> {
    if batches == [] then [] else Flat(batches[..|batches| - 1]) + batches[|batches| - 1]
  }

  lemma FlatNext(batches: seq<seq<Frame>>, b: seq<Frame>)
    ensures Flat(batches + [b]) == Flat(batches) + b
  {
    assert (batches + [b])[..|batches|] == batches;
  }

  function Max(x: int, y: int): int {
    if x > y then x else y
  }

  function Min(x: int, y: int): int {
    if x < y then x else y
  }

  /** How many frames to decode at once: few while the listener may run dry, more as the audio gets ahead. */
  function DecodeBudget(emittedSamples: int, sampleRate: int, firstAudioAt: real, hasEmitted: bool, now: real): (b: nat)
    ensures b in {4, 8, 16, 32}
  {
    if !hasEmitted || sampleRate <= 0 then 4
    else
      var elapsed := if now - firstAudioAt > 0.0 then now - firstAudioAt else 0.0;
      var lead := emittedSamples as real / sampleRate as real - elapsed;
      if lead < 0.10 then 4
      else if lead < 0.30 then 8
      else if lead < 0.80 then 16
      else 32
  }

  /** By how long the audio given out exceeds what the listener has heard: less than 0.1 s, 0.3 s, 0.8 s, or more. */
  lemma BudgetByLead(emitted: int, sampleRate: int, firstAudioAt: real, now: real, heard: real)
    requires sampleRate > 0 && heard >= 0.0 && heard >= now - firstAudioAt && (heard == 0.0 || heard == now - firstAudioAt)
    ensures var b, r := DecodeBudget(emitted, sampleRate, firstAudioAt, true, now), sampleRate as real;
      && (b == 4 <==> emitted as real < r * (heard + 0.1))
      && (b == 8 <==> r * (heard + 0.1) <= emitted as real < r * (heard + 0.3))
      && (b == 16 <==> r * (heard + 0.3) <= emitted as real < r * (heard + 0.8))
      && (b == 32 <==> r * (heard + 0.8) <= emitted as real)
    ensures DecodeBudget(emitted, sampleRate, firstAudioAt, false, now) == 4
  {
    var e, r := emitted as real, sampleRate as real;
    LeadBelow(e, r, heard, 0.1);
    LeadBelow(e, r, heard, 0.3);
    LeadBelow(e, r, heard, 0.8);
    var lead := e / r - heard;
    assert DecodeBudget(emitted, sampleRate, firstAudioAt, true, now) ==
      if lead < 0.1 then 4 else if lead < 0.3 then 8 else if lead < 0.8 then 16 else 32;
  }

  lemma LeadBelow(e: real, r: real, heard: real, x: real)
    requires r > 0.0
    ensures e / r - heard < x <==> e < r * (heard + x)
  {
    var q, y := e / r, heard + x;
    assert q * r == e;
    if q < y {
      assert (y - q) * r > 0.0;
      assert (y - q) * r == y * r - q * r;
    } else {
      assert (q - y) * r >= 0.0;
      assert (q - y) * r == q * r - y * r;
    }
  }

  /** The budget grows with the audio that is ahead of the listener. */
  lemma BudgetGrowsWithLead(e1: int, e2: int, sampleRate: int, firstAudioAt: real, now1: real, now2: real)
    requires e1 <= e2 && now2 <= now1 && sampleRate > 0
    ensures DecodeBudget(e1, sampleRate, firstAudioAt, true, now1) <= DecodeBudget(e2, sampleRate, firstAudioAt, true, now2)
  {
    var r := sampleRate as real;
    assert e1 as real / r <= e2 as real / r;
  }

  /** How many of the waiting frames one call decodes: everything when forced; otherwise a whole budget's worth, as soon
      as there is that much. */
  function BatchSize(force: bool, count: nat, budget: nat): (n: nat)
    ensures n <= count
    ensures force ==> n == count
    ensures !force && budget >= 1 ==> n == if count < budget then 0 else budget
    ensures !force && 1 <= budget <= 32 && count <= 32 ==> count - n < 32
    ensures !force && n > 0 ==> n == Max(1, budget)
  {
    if count == 0 then 0
    else if force then count
    else if count < Max(1, budget) then 0
    else Min(count, Max(1, budget))
  }

  /** The last eight frames, or all of them if they are fewer. */
  ghost predicate IsTail(tail: seq<Frame>, frames: seq<Frame>) {
    && |tail| <= |frames| && tail == frames[|frames| - |tail|..]
    && |tail| <= 8 && (|tail| < 8 ==> tail == frames)
  }

  /** The frames that the callback keeps as acoustic context for the next text chunk. */
  function LastFrames(frames: seq<Frame>): seq<Frame> {
    if |frames| >= CONTEXT_FRAMES then frames[|frames| - CONTEXT_FRAMES..] else frames
  }

  lemma LastFramesAreTail(frames: seq<Frame>)
    ensures IsTail(LastFrames(frames), frames)
  {
  }

  datatype StreamChunk = StreamChunk(samples: int, chunkIndex: nat, seedUsed: int)

  ghost predicate NoneEmpty(batches: seq<seq<Frame>>) {
    forall i | 0 <= i < |batches| :: batches[i] != []
  }

  /** Every chunk sent has sound, and none of them carries the seed. */
  ghost predicate SeedUnsaid(chunks: seq<StreamChunk>) {
    forall i | 0 <= i < |chunks| :: chunks[i].samples > 0 && chunks[i].seedUsed == 0
  }

  class Batcher {
    const chunkIndex: nat
    const sampleRate: int
    const seed: int
    var pending: seq<Frame>
    var emittedSamples: int
    var firstAudioAt: real
    var hasEmitted: bool
    var tail: seq<Frame>
    var chunks: seq<StreamChunk>
    /** What the codec has been given, call by call. */
    ghost var batches: seq<seq<Frame>>
    /** The frames of all callbacks. */
    ghost var received: seq<Frame>

    ghost predicate Valid()
      reads this
    {
      && Flat(batches) + pending == received
      && |pending| < 32
      && (received != [] ==> tail == LastFrames(received))
      && (hasEmitted ==> batches != [])
      && NoneEmpty(batches)
      && SeedUnsaid(chunks)
    }

    constructor (chunkIndex: nat, sampleRate: int, seed: int)
      ensures Valid() && received == [] && batches == [] && chunks == []
    {
      this.chunkIndex, this.sampleRate, this.seed := chunkIndex, sampleRate, seed;
      pending, emittedSamples, firstAudioAt, hasEmitted, tail, chunks := [], 0, 0.0, false, [], [];
      batches, received := [], [];
    }

    /** Decode waiting frames: all of them when forced, otherwise one budget's worth if there are that many. */
    method DecodePending(force: bool, tick: Tick)
      modifies this`pending, this`emittedSamples, this`firstAudioAt, this`hasEmitted, this`chunks, this`batches
      ensures var budget := DecodeBudget(old(emittedSamples), sampleRate, old(firstAudioAt), old(hasEmitted), tick.now);
        var n := BatchSize(force, |old(pending)|, budget);
        && pending == old(pending)[n..]
        && batches == (if n == 0 then old(batches) else old(batches) + [old(pending)[..n]])
        && (if n > 0 && tick.audioLength > 0 then
              && emittedSamples == old(emittedSamples) + tick.audioLength && hasEmitted
              && firstAudioAt == (if old(hasEmitted) then old(firstAudioAt) else tick.now)
              && chunks == (if tick.cancelled then old(chunks)
                            else old(chunks) + [StreamChunk(tick.audioLength, chunkIndex, 0)])
            else
              && emittedSamples == old(emittedSamples) && hasEmitted == old(hasEmitted)
              && firstAudioAt == old(firstAudioAt) && chunks == old(chunks))
    {
      var pendingCount := |pending|;
      if pendingCount <= 0 {
        return;
      }
      var decodeBudget := DecodeBudget(emittedSamples, sampleRate, firstAudioAt, hasEmitted, tick.now);
      if !force && pendingCount < Max(1, decodeBudget) {
        return;
      }
      var frameBudget := pendingCount;
      if !force {
        frameBudget := Min(pendingCount, Max(1, decodeBudget));
      }
      batches := batches + [pending[..frameBudget]];
      pending := pending[frameBudget..];
      var audioLength := tick.audioLength;
      if audioLength <= 0 {
        return;
      }
      if !hasEmitted {
        hasEmitted := true;
        firstAudioAt := tick.now;
      }
      emittedSamples := emittedSamples + audioLength;
      var isFirstChunk := chunkIndex == 0 && !hasEmitted;
      if tick.cancelled {
        return;
      }
      chunks := chunks + [StreamChunk(audioLength, chunkIndex, if isFirstChunk then seed else 0)];
    }

    /** The callback of the generation loop: `generated` are all frames so far, `frame` the last of them. */
    method OnFrame(generated: seq<Frame>, frame: Frame, tick: Tick)
      requires Valid() && generated == received + [frame]
      modifies this
      ensures Valid() && received == generated
    {
      hide DecodeBudget, BatchSize, LastFrames, Flat, NoneEmpty, SeedUnsaid;
      ghost var was, had := batches, pending;
      ghost var said := chunks;
      assert Flat(was) + (had + [frame]) == Flat(was) + had + [frame];
      pending := pending + [frame];
      received := generated;
      DecodePending(false, tick);
      BatchKeepsAll(was, had + [frame], batches, pending);
      ChunksStaySilent(said, chunks, tick.audioLength, chunkIndex);
      tail := LastFrames(generated);
    }

    /** At the end of the text chunk everything left is decoded. */
    method Finish(tick: Tick)
      requires Valid()
      modifies this
      ensures Valid() && received == old(received) && pending == [] && Flat(batches) == received
    {
      hide DecodeBudget, BatchSize, LastFrames, Flat, NoneEmpty, SeedUnsaid;
      ghost var was, had := batches, pending;
      ghost var said := chunks;
      DecodePending(true, tick);
      BatchKeepsAll(was, had, batches, pending);
      ChunksStaySilent(said, chunks, tick.audioLength, chunkIndex);
      assert Flat(batches) + [] == Flat(batches);
    }
  }

  /** Moving waiting frames into a batch loses none and keeps their order. */
  lemma BatchKeepsAll(batches: seq<seq<Frame>>, pending: seq<Frame>, batches': seq<seq<Frame>>, pending': seq<Frame>)
    requires NoneEmpty(batches)
    requires |pending'| <= |pending| && pending' == pending[|pending| - |pending'|..]
    requires batches' == if |pending'| == |pending| then batches else batches + [pending[..|pending| - |pending'|]]
    ensures Flat(batches') + pending' == Flat(batches) + pending
    ensures NoneEmpty(batches')
  {
    hide Flat, NoneEmpty;
    if |pending'| < |pending| {
      var n := |pending| - |pending'|;
      FlatNext(batches, pending[..n]);
      NoneEmptyNext(batches, pending[..n]);
      assert pending == pending[..n] + pending';
      Associate(Flat(batches), pending[..n], pending');
    } else {
      assert pending' == pending;
    }
  }

  lemma NoneEmptyNext(batches: seq<seq<Frame>>, batch: seq<Frame>)
    requires NoneEmpty(batches) && batch != []
    ensures NoneEmpty(batches + [batch])
  {
  }

  lemma Associate(a: seq<Frame>, b: seq<Frame>, c: seq<Frame>)
    ensures (a + b) + c == a + (b + c)
  {
  }

  lemma ChunksStaySilent(chunks: seq<StreamChunk>, chunks': seq<StreamChunk>, samples: int, chunkIndex: nat)
    requires SeedUnsaid(chunks)
    requires chunks' == chunks || (samples > 0 && chunks' == chunks + [StreamChunk(samples, chunkIndex, 0)])
    ensures SeedUnsaid(chunks')
  {
  }

  /** The generation loop. Its lists and sets of earlier tokens are returned for what is proved of them. */
  method Generate(producer: Producer, fixed: bool, script: seq<StepResult>, maxNewFrames: int, nvq: nat, batcher: Batcher)
    returns (result: Option<seq<Frame>>, lists: seq<seq<int>>, sets: seq<set<int>>)
    requires maxNewFrames <= |script| && forall k | 0 <= k < |script| :: |script[k].frame| <= nvq
    requires batcher.Valid() && batcher.received == []
    modifies batcher
    ensures batcher.Valid()
    ensures result.Some? ==>
      var n := |result.value|;
      && (n <= maxNewFrames || n == 0) && n <= |script|
      && result.value == FramesOf(script, n)
      && Runs(producer, fixed, script, n) && Ends(producer, fixed, script, maxNewFrames, n)
      && NoneAfterRebound(producer, fixed, script, n)
      && batcher.received == FramesOf(script, Announced(script, n))
      && Seen(producer, result.value, lists, sets, nvq)
    ensures result.None? ==>
      var n := |batcher.received|;
      && n <= |script| && Runs(producer, fixed, script, n) && IsCancelled(script, maxNewFrames, n)
      && batcher.received == FramesOf(script, n)
  {
    NothingDropped(producer, fixed, script);
    hide Stops, Frozen, Rebound, Valley, Dropped, Seen, Runs, FramesOf, Continue, Max, Flat, LastFrames, NoneAfterRebound;
    var frames: seq<Frame> := [];
    lists := seq(nvq, _ => []);
    sets := seq(nvq, _ => {});
    var valleySeen := false;
    NothingSeen(producer, lists, sets, nvq);
    RunsNot(producer, fixed, script);
    NoFrameAfterRebound(producer, fixed, script, 0);
    var step := 0;
    while step < maxNewFrames
      invariant 0 <= step && (step <= maxNewFrames || step == 0)
      invariant frames == FramesOf(script, step) && batcher.Valid() && batcher.received == frames && |lists| == nvq
      invariant Runs(producer, fixed, script, step) && Seen(producer, frames, lists, sets, nvq)
      invariant NoneAfterRebound(producer, fixed, script, step)
      invariant step > 0 ==> !Frozen(script, step - 1) && script[step - 1].decoded
      invariant valleySeen <==> Dropped(producer, fixed, script, step)
    {
      var r := script[step];
      if r.cancelled {
        return None, lists, sets;
      }
      if producer == NoModel || !r.goOn {
        StopsHere(producer, fixed, script, step);
        return Some(frames), lists, sets;
      }
      var rebound;
      valleySeen, rebound := Watch(producer, fixed, script, step, valleySeen);
      if rebound {
        return Some(frames), lists, sets;
      }
      lists, sets := TakeFrame(producer, frames, r.frame, lists, sets);
      frames := frames + [r.frame];
      RunsOn(producer, fixed, script, step);
      NoFrameAfterRebound(producer, fixed, script, step + 1);
      var frozen := AllSame(script, frames, step);
      if frozen {
        return Some(frames), lists, sets;
      }
      batcher.OnFrame(frames, r.frame, r.tick);
      if !r.decoded {
        return Some(frames), lists, sets;
      }
      step := step + 1;
    }
    return Some(frames), lists, sets;
  }

  lemma NothingSeen(producer: Producer, lists: seq<seq<int>>, sets: seq<set<int>>, nvq: nat)
    requires |lists| == nvq && |sets| == nvq
    requires forall c | 0 <= c < nvq :: lists[c] == [] && sets[c] == {}
    ensures Seen(producer, [], lists, sets, nvq)
  {
    forall c | 0 <= c < nvq ensures ColumnSeen(producer, [], c, lists[c], sets[c]) {
    }
  }

  lemma RunsNot(producer: Producer, fixed: bool, script: seq<StepResult>)
    ensures Runs(producer, fixed, script, 0)
  {
  }

  lemma RunsOn(producer: Producer, fixed: bool, script: seq<StepResult>, n: nat)
    requires n < |script| && Runs(producer, fixed, script, n)
    requires !script[n].cancelled && !Stops(producer, fixed, script, n)
    requires n > 0 ==> !Frozen(script, n - 1) && script[n - 1].decoded
    ensures Runs(producer, fixed, script, n + 1)
    ensures FramesOf(script, n + 1) == FramesOf(script, n) + [script[n].frame]
  {
    hide Stops, Frozen;
  }

  lemma StopsHere(producer: Producer, fixed: bool, script: seq<StepResult>, k: nat)
    requires k < |script| && (producer == NoModel || !script[k].goOn)
    ensures Stops(producer, fixed, script, k)
  {
  }

  /** An early drop among the first n steps. */
  ghost predicate Dropped(producer: Producer, fixed: bool, script: seq<StepResult>, n: nat)
    requires n <= |script|
  {
    exists j | 0 <= j < n :: Valley(producer, fixed, script, j)
  }

  lemma NothingDropped(producer: Producer, fixed: bool, script: seq<StepResult>)
    ensures !Dropped(producer, fixed, script, 0)
  {
  }

  /** Watch the probability of going on: note an early drop, stop when it comes back after one. */
  method Watch(producer: Producer, fixed: bool, script: seq<StepResult>, step: nat, valleySeen: bool)
    returns (seen: bool, rebound: bool)
    requires step < |script| && producer != NoModel && script[step].goOn
    requires valleySeen <==> Dropped(producer, fixed, script, step)
    ensures rebound <==> Stops(producer, fixed, script, step)
    ensures !rebound ==> (seen <==> Dropped(producer, fixed, script, step + 1))
  {
    seen, rebound := valleySeen, false;
    var p := Continue(producer, script[step]);
    if p > 0.0 && fixed {
      if step < VALLEY_WINDOW && p < VALLEY_THRESHOLD {
        seen := true;
        assert Valley(producer, fixed, script, step);
      } else if seen && p > REBOUND_THRESHOLD && step > 0 {
        rebound := true;
      }
    }
    assert Dropped(producer, fixed, script, step + 1) <==>
      valleySeen || Valley(producer, fixed, script, step);
  }

  /** The last eight frames are the same. */
  method AllSame(ghost script: seq<StepResult>, frames: seq<Frame>, ghost step: nat) returns (allSame: bool)
    requires step < |script| && frames == FramesOf(script, step + 1)
    ensures allSame <==> Frozen(script, step)
  {
    if |frames| < FIXED_POINT_RUN {
      return false;
    }
    allSame := true;
    var start := |frames| - FIXED_POINT_RUN;
    var k := 1;
    while k < FIXED_POINT_RUN && allSame
      invariant 1 <= k <= FIXED_POINT_RUN
      invariant allSame <==> forall i | start <= i < start + k :: frames[i] == frames[start]
    {
      allSame := frames[start + k] == frames[start];
      k := k + 1;
    }
    assert script[start].frame == frames[start] && script[step].frame == frames[step];
  }

  /** One text chunk of a stream: the batches given to the codec make up exactly the announced frames. */
  method StreamTextChunk(producer: Producer, fixed: bool, script: seq<StepResult>, maxNewFrames: int, nvq: nat,
                         chunkIndex: nat, sampleRate: int, seed: int, cancelledAfter: bool, last: Tick)
    returns (batcher: Batcher, ghost n: nat, finished: bool)
    requires maxNewFrames <= |script| && forall k | 0 <= k < |script| :: |script[k].frame| <= nvq
    ensures fresh(batcher) && batcher.Valid() && n <= |script|
    ensures Runs(producer, fixed, script, n)
    ensures finished ==> Ends(producer, fixed, script, maxNewFrames, n) && !cancelledAfter
    ensures finished ==> Flat(batcher.batches) == FramesOf(script, Announced(script, n)) && batcher.pending == []
    ensures !finished ==> Flat(batcher.batches) + batcher.pending <= FramesOf(script, n)
  {
    hide Stops, Frozen, Runs, Ends, Seen;
    batcher := new Batcher(chunkIndex, sampleRate, seed);
    var result, _, _ := Generate(producer, fixed, script, maxNewFrames, nvq, batcher);
    n := if result.Some? then |result.value| else |batcher.received|;
    finished := result.Some? && !cancelledAfter;
    if finished {
      batcher.Finish(last);
    }
  }

  // ----- Decoding finished frames in batches of eight -----

  const BATCH := 8

  /** What the codec gives for a batch: one waveform for each channel, and their length. */
  datatype Decoded = Decoded(channels: seq<seq<real>>, length: int)

  predicate Useful(d: Decoded): (b: bool)
    ensures b <==> d.length >= 1 && |d.channels| >= 1
  {
    d.length > 0 && d.channels != []
  }

  /** One channel's samples of the first k useful batches. */
  function Channel(outputs: seq<Decoded>, k: nat, ch: nat): seq<real>
    requires k <= |outputs|
  {
    if k == 0 then []
    else
      var d := outputs[k - 1];
      Channel(outputs, k - 1, ch) + (if Useful(d) && ch < |d.channels| then d.channels[ch] else [])
  }

  function TotalLength(outputs: seq<Decoded>, k: nat): nat
    requires k <= |outputs|
  {
    if k == 0 then 0 else TotalLength(outputs, k - 1) + (if Useful(outputs[k - 1]) then outputs[k - 1].length else 0)
  }

  /** A codec that always gives the same channels, each as long as it says, leaves every channel with the total length. */
  lemma {:induction false} ChannelsHaveTotalLength(outputs: seq<Decoded>, k: nat, channels: nat, ch: nat)
    requires k <= |outputs| && ch < channels
    requires forall i | 0 <= i < k :: |outputs[i].channels| == channels
    requires forall i | 0 <= i < k :: |outputs[i].channels[ch]| == outputs[i].length
    ensures |Channel(outputs, k, ch)| == TotalLength(outputs, k)
  {
    if k > 0 {
      ChannelsHaveTotalLength(outputs, k - 1, channels, ch);
    }
  }

  /** The waveforms of one channel, put after one another. */
  function ConcatWaveforms(waveforms: seq<seq<real>>): seq<real> {
    if waveforms == [] then [] else ConcatWaveforms(waveforms[..|waveforms| - 1]) + waveforms[|waveforms| - 1]
  }

  lemma ConcatNext(waveforms: seq<seq<real>>, w: seq<real>)
    ensures ConcatWaveforms(waveforms + [w]) == ConcatWaveforms(waveforms) + w
  {
    assert (waveforms + [w])[..|waveforms|] == waveforms;
  }

  /** Batches that cut all the frames put together are the frames. */
  lemma CutIsAll(batches: seq<seq<Frame>>, frames: seq<Frame>)
    requires Cut(batches, frames, |frames|)
    ensures Flat(batches) == frames
  {
    assert frames[..|frames|] == frames;
  }

  lemma FirstChannel(outputs: seq<Decoded>, ch: nat, w: seq<real>)
    requires outputs != [] && Useful(outputs[0]) && ch < |outputs[0].channels| && w == outputs[0].channels[ch]
    ensures ConcatWaveforms([w]) == Channel(outputs, 1, ch)
  {
    ConcatNext([], w);
    assert [] + [w] == [w];
  }

  lemma NextChannel(outputs: seq<Decoded>, k: nat, ch: nat, before: seq<seq<real>>, after: seq<seq<real>>)
    requires k < |outputs| && ConcatWaveforms(before) == Channel(outputs, k, ch)
    requires var d := outputs[k];
      after == if Useful(d) && ch < |d.channels| then before + [d.channels[ch]] else before
    ensures ConcatWaveforms(after) == Channel(outputs, k + 1, ch)
  {
    var d := outputs[k];
    if Useful(d) && ch < |d.channels| {
      ConcatNext(before, d.channels[ch]);
    } else {
      assert Channel(outputs, k, ch) + [] == Channel(outputs, k, ch);
    }
  }

  /** Add a batch's output to the waveforms of each channel. */
  method CollectChannels(collected: seq<seq<seq<real>>>, d: Decoded) returns (collected': seq<seq<seq<real>>>)
    ensures |collected'| == |collected|
    ensures forall ch | 0 <= ch < |collected| ::
      collected'[ch] == if ch < |d.channels| then collected[ch] + [d.channels[ch]] else collected[ch]
  {
    collected' := collected;
    var ch := 0;
    while ch < |collected| && ch < |d.channels|
      invariant 0 <= ch <= |collected| && ch <= |d.channels| && |collected'| == |collected|
      invariant forall c | 0 <= c < |collected| ::
        collected'[c] == if c < ch then collected[c] + [d.channels[c]] else collected[c]
    {
      collected' := collected'[ch := collected'[ch] + [d.channels[ch]]];
      ch := ch + 1;
    }
  }

  /** Batches of eight frames, the last one possibly smaller, that together are the first n frames. */
  ghost predicate Cut(batches: seq<seq<Frame>>, frames: seq<Frame>, n: nat) {
    && n <= |frames| && Flat(batches) == frames[..n]
    && (forall b | 0 <= b < |batches| - 1 :: |batches[b]| == 8)
    && (forall b | 0 <= b < |batches| :: 1 <= |batches[b]| <= 8)
  }

  lemma CutNext(batches: seq<seq<Frame>>, frames: seq<Frame>, i: nat, end: nat)
    requires Cut(batches, frames, i) && i < end <= |frames| && end <= i + BATCH
    requires batches != [] ==> |batches[|batches| - 1]| == BATCH
    ensures Cut(batches + [frames[i..end]], frames, end)
  {
    FlatNext(batches, frames[i..end]);
    assert frames[..i] + frames[i..end] == frames[..end];
  }

  lemma TotalNext(outputs: seq<Decoded>, k: nat)
    requires k < |outputs|
    ensures TotalLength(outputs, k + 1) == TotalLength(outputs, k) + (if Useful(outputs[k]) then outputs[k].length else 0)
  {
  }

  /** Decode all frames, eight at a time: no frame is left out or decoded twice, and each channel is the
      concatenation of what the batches gave for it. A first batch without audio gives up. */
  method DecodeFramesStreaming(frames: seq<Frame>, outputs: seq<Decoded>)
    returns (result: seq<seq<real>>, total: nat, ghost batches: seq<seq<Frame>>)
    requires |frames| <= BATCH * |outputs|
    ensures |batches| <= |outputs|
    ensures frames == [] || !Useful(outputs[0]) ==> result == [] && total == 0
    ensures frames != [] && Useful(outputs[0]) ==>
      && Flat(batches) == frames && Cut(batches, frames, |frames|)
      && |result| == |outputs[0].channels|
      && (forall ch | 0 <= ch < |result| :: result[ch] == Channel(outputs, |batches|, ch))
      && total == TotalLength(outputs, |batches|)
  {
    hide Cut, Flat, Channel, ConcatWaveforms, TotalLength;
    batches := [];
    if frames == [] {
      return [], 0, batches;
    }
    var end := Min(BATCH, |frames|);
    var first := outputs[0];
    batches := [frames[..end]];
    if !Useful(first) {
      return [], 0, batches;
    }
    CutFirst(frames, end);
    TotalFirst(outputs);
    var numChannels := |first.channels|;
    var collected := seq(numChannels, ch requires 0 <= ch < numChannels => [first.channels[ch]]);
    total := first.length;
    forall ch | 0 <= ch < numChannels ensures ConcatWaveforms(collected[ch]) == Channel(outputs, 1, ch) {
      FirstChannel(outputs, ch, first.channels[ch]);
    }
    var i := BATCH;
    while i < |frames|
      invariant i == BATCH * |batches| && 1 <= |batches| <= |outputs| && i < |frames| + BATCH
      invariant Cut(batches, frames, Min(i, |frames|))
      invariant i < |frames| ==> |batches[|batches| - 1]| == BATCH
      invariant |collected| == numChannels
      invariant forall ch | 0 <= ch < numChannels :: ConcatWaveforms(collected[ch]) == Channel(outputs, |batches|, ch)
      invariant total == TotalLength(outputs, |batches|)
    {
      end := i + BATCH;
      if end > |frames| {
        end := |frames|;
      }
      ghost var k := |batches|;
      var d := outputs[i / BATCH];
      CutNext(batches, frames, i, end);
      TotalNext(outputs, k);
      batches := batches + [frames[i..end]];
      ghost var before := collected;
      if Useful(d) {
        collected := CollectChannels(collected, d);
        total := total + d.length;
      }
      forall ch | 0 <= ch < numChannels ensures ConcatWaveforms(collected[ch]) == Channel(outputs, k + 1, ch) {
        NextChannel(outputs, k, ch, before[ch], collected[ch]);
      }
      i := i + BATCH;
    }
    CutIsAll(batches, frames);
    result := seq(numChannels, ch requires 0 <= ch < numChannels => ConcatWaveforms(collected[ch]));
  }

  lemma CutFirst(frames: seq<Frame>, end: nat)
    requires 1 <= end <= |frames| && end <= BATCH
    ensures Cut([frames[..end]], frames, end)
  {
    assert Flat([]) == frames[..0];
    CutNext([], frames, 0, end);
    assert [] + [frames[0..end]] == [frames[..end]];
  }

  lemma TotalFirst(outputs: seq<Decoded>)
    requires outputs != [] && Useful(outputs[0])
    ensures TotalLength(outputs, 1) == outputs[0].length
  {
    TotalNext(outputs, 0);
  }
}
