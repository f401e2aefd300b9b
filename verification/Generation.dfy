/**
 The frame generation loop of pkg/ortruntime/runtime.go and the batching of its frames for the
 codec in pkg/ttsruntime/ttsruntime.go.

 What the models produce is a script: for every step, what the frame producer and the decode
 session would answer if the loop got that far.
 */
module Generation {
  import opened Sequences

  /** A frame: one token for each of the first codebooks (for all of them, unless a model failed). */
  type Frame = seq<int>

  /** Which local model produces the frames. */
  datatype Producer = Greedy | FixedSampled | CachedStep | LocalDecoder | NoModel

  /** What happens around a callback: the clock, the codec's output length, and whether the stream is cancelled. */
  datatype Tick = Tick(now: real, audioLength: int, cancelled: bool)

  datatype StepResult = StepResult(cancelled: bool, goOn: bool, p: real, frame: Frame, tick: Tick, decoded: bool)

  const VALLEY_THRESHOLD := 0.8
  const REBOUND_THRESHOLD := 0.8
  const VALLEY_WINDOW := 20
  const FIXED_POINT_RUN := 8
  const CONTEXT_FRAMES := 8

  // ----- When the loop stops -----

  /** The probability of going on is known for the fixed sampled producer only. */
  function Continue(producer: Producer, r: StepResult): real {
    if producer == FixedSampled then r.p else 0.0
  }

  /** At an early step the model was nearly done. */
  predicate Valley(producer: Producer, fixed: bool, script: seq<StepResult>, k: nat)
    requires k < |script|
  {
    fixed && k < VALLEY_WINDOW && 0.0 < Continue(producer, script[k]) < VALLEY_THRESHOLD
  }

  /** The probability has come back up after such a step. */
  predicate Rebound(producer: Producer, fixed: bool, script: seq<StepResult>, k: nat)
    requires k < |script|
  {
    fixed && Continue(producer, script[k]) > REBOUND_THRESHOLD &&
    exists j | 0 <= j < k :: Valley(producer, fixed, script, j)
  }

  /** The loop stops at step k without taking its frame. */
  predicate Stops(producer: Producer, fixed: bool, script: seq<StepResult>, k: nat)
    requires k < |script|
  {
    producer == NoModel || !script[k].goOn || Rebound(producer, fixed, script, k)
  }

  /** The frames of the last eight steps are the same. */
  predicate Frozen(script: seq<StepResult>, k: nat)
    requires k < |script|
  {
    k + 1 >= FIXED_POINT_RUN && forall i | k + 1 - FIXED_POINT_RUN <= i <= k :: script[i].frame == script[k].frame
  }

  /** The loop stops without a frame exactly if there is no model, the model says so, or, in the fixed mode of the fixed
      sampled producer, its probability is above 0.8 after one of the first 20 steps had it between 0 and 0.8. */
  lemma StopsExactly(producer: Producer, fixed: bool, script: seq<StepResult>, k: nat)
    requires k < |script|
    ensures Stops(producer, fixed, script, k) <==>
      || producer == NoModel || !script[k].goOn
      || (producer == FixedSampled && fixed && script[k].p > 0.8 &&
          exists j | 0 <= j < k :: j < 20 && 0.0 < script[j].p < 0.8)
  {
    if producer == FixedSampled {
      assert forall j | 0 <= j < k :: Valley(producer, fixed, script, j) <==> fixed && j < 20 && 0.0 < script[j].p < 0.8;
    }
  }

  /** A run is frozen exactly if the last frame and the seven before it are the same. */
  lemma FrozenExactly(script: seq<StepResult>, k: nat)
    requires k < |script|
    ensures Frozen(script, k) <==> k >= 7 && forall i | k - 7 <= i < k :: script[i].frame == script[k].frame
  {
  }

  /** The first n steps all give their frame, and the loop survives all but possibly the last of them. */
  ghost predicate Runs(producer: Producer, fixed: bool, script: seq<StepResult>, n: nat)
    requires n <= |script|
  {
    && (forall k | 0 <= k < n :: !script[k].cancelled && !Stops(producer, fixed, script, k))
    && (forall k | 0 <= k < n - 1 :: !Frozen(script, k) && script[k].decoded)
  }

  /** After n frames the loop ends by itself. */
  ghost predicate Ends(producer: Producer, fixed: bool, script: seq<StepResult>, limit: int, n: nat)
    requires n <= |script| && limit <= |script|
  {
    || (n > 0 && (Frozen(script, n - 1) || !script[n - 1].decoded))
    || n >= limit
    || (!script[n].cancelled && Stops(producer, fixed, script, n))
  }

  /** After n frames the loop sees that it has been cancelled. */
  ghost predicate IsCancelled(script: seq<StepResult>, limit: int, n: nat)
    requires n <= |script| && limit <= |script|
  {
    n < limit && script[n].cancelled && (n > 0 ==> !Frozen(script, n - 1) && script[n - 1].decoded)
  }

  function FramesOf(script: seq<StepResult>, n: nat): (f: seq<Frame>)
    requires n <= |script|
    ensures |f| == n && forall k | 0 <= k < n :: f[k] == script[k].frame
  {
    seq(n, k requires 0 <= k < n => script[k].frame)
  }

  /** How many frames reach the callback: a frame that completes a frozen run is kept but not announced. */
  function Announced(script: seq<StepResult>, n: nat): (m: nat)
    requires n <= |script|
    ensures m <= n <= m + 1
  {
    if n > 0 && Frozen(script, n - 1) then n - 1 else n
  }

  /** The script decides how long the run is, and whether it is cancelled. */
  lemma LengthIsDecided(producer: Producer, fixed: bool, script: seq<StepResult>, limit: int, m: nat, n: nat)
    requires m <= |script| && n <= |script| && limit <= |script|
    requires m <= limit || m == 0
    requires n <= limit || n == 0
    requires Runs(producer, fixed, script, m) && Runs(producer, fixed, script, n)
    requires Ends(producer, fixed, script, limit, m) || IsCancelled(script, limit, m)
    requires Ends(producer, fixed, script, limit, n) || IsCancelled(script, limit, n)
    ensures m == n
    ensures !(Ends(producer, fixed, script, limit, n) && IsCancelled(script, limit, n))
  {
    hide Stops, Frozen;
    if m < n {
      LongerGoesOn(producer, fixed, script, limit, m, n);
    } else if n < m {
      LongerGoesOn(producer, fixed, script, limit, n, m);
    }
  }

  lemma LongerGoesOn(producer: Producer, fixed: bool, script: seq<StepResult>, limit: int, m: nat, n: nat)
    requires m < n <= |script| && limit <= |script| && n <= limit
    requires Runs(producer, fixed, script, n)
    ensures !Ends(producer, fixed, script, limit, m) && !IsCancelled(script, limit, m)
  {
    hide Stops, Frozen;
    assert !script[m].cancelled && !Stops(producer, fixed, script, m);
  }

  /** Eight equal frames in a row occur at the very end of the generated frames only. */
  lemma FrozenOnlyAtEnd(producer: Producer, fixed: bool, script: seq<StepResult>, n: nat, i: nat)
    requires n <= |script| && Runs(producer, fixed, script, n)
    requires i + 8 <= n && forall k | i <= k < i + 8 :: FramesOf(script, n)[k] == FramesOf(script, n)[i]
    ensures i + 8 == n
  {
    hide Stops;
    var last := i + FIXED_POINT_RUN - 1;
    forall k | last + 1 - FIXED_POINT_RUN <= k <= last ensures script[k].frame == script[last].frame {
      assert FramesOf(script, n)[k] == FramesOf(script, n)[last];
    }
    assert Frozen(script, last);
  }

  /** In the fixed mode no frame is taken whose probability of going on is above 0.8 after one of the first 20 steps
      had it below. */
  ghost predicate NoneAfterRebound(producer: Producer, fixed: bool, script: seq<StepResult>, n: nat)
    requires n <= |script|
  {
    producer == FixedSampled && fixed ==>
      forall j, k | 0 <= j < k < n && j < 20 && 0.0 < script[j].p < 0.8 :: script[k].p <= 0.8
  }

  lemma NoFrameAfterRebound(producer: Producer, fixed: bool, script: seq<StepResult>, n: nat)
    requires n <= |script| && Runs(producer, fixed, script, n)
    ensures NoneAfterRebound(producer, fixed, script, n)
  {
    hide Frozen;
    if producer == FixedSampled && fixed {
      forall j, k | 0 <= j < k < n && j < 20 && 0.0 < script[j].p < 0.8 ensures script[k].p <= 0.8 {
        assert !Stops(producer, fixed, script, k);
        assert Valley(producer, fixed, script, j);
      }
    }
  }

  // ----- The tokens seen so far -----

  /** The tokens that frames gave to a codebook. */
  function Column(frames: seq<Frame>, c: nat): seq<int> {
    if frames == [] then []
    else
      var f := frames[|frames| - 1];
      Column(frames[..|frames| - 1], c) + (if c < |f| then [f[c]] else [])
  }

  function Doubled(s: seq<int>): seq<int> {
    if s == [] then [] else Doubled(s[..|s| - 1]) + [s[|s| - 1], s[|s| - 1]]
  }

  lemma ColumnNext(frames: seq<Frame>, f: Frame, c: nat)
    ensures Column(frames + [f], c) == Column(frames, c) + (if c < |f| then [f[c]] else [])
  {
    assert (frames + [f])[..|frames|] == frames;
  }

  lemma DoubledNext(s: seq<int>, x: int)
    ensures Doubled(s + [x]) == Doubled(s) + [x, x]
  {
    assert (s + [x])[..|s|] == s;
  }

  predicate Gave(f: Frame, c: nat, x: int) {
    c < |f| && f[c] == x
  }

  /** A token is in a codebook's column exactly when some frame gave it to that codebook. */
  lemma {:induction false} ColumnHolds(frames: seq<Frame>, c: nat, x: int)
    ensures x in Column(frames, c) <==> exists k :: 0 <= k < |frames| && Gave(frames[k], c, x)
  {
    if frames != [] {
      var rest, last := frames[..|frames| - 1], frames[|frames| - 1];
      ColumnHolds(rest, c, x);
      assert Column(frames, c) == Column(rest, c) + (if c < |last| then [last[c]] else []);
      assert frames == rest + [last];
      hide Column;
    }
  }

  /** The token lists, which the local decoder fills a first time by itself, and the token sets. */
  ghost predicate Seen(producer: Producer, frames: seq<Frame>, lists: seq<seq<int>>, sets: seq<set<int>>, nvq: nat) {
    && |lists| == nvq && |sets| == nvq
    && forall c | 0 <= c < nvq :: ColumnSeen(producer, frames, c, lists[c], sets[c])
  }

  method AddTokens(frame: Frame, lists: seq<seq<int>>, sets: seq<set<int>>)
    returns (lists': seq<seq<int>>, sets': seq<set<int>>)
    requires |frame| <= |lists| == |sets|
    ensures |lists'| == |lists| && |sets'| == |sets|
    ensures forall c | 0 <= c < |lists| ::
      lists'[c] == (if c < |frame| then lists[c] + [frame[c]] else lists[c]) &&
      sets'[c] == (if c < |frame| then sets[c] + {frame[c]} else sets[c])
  {
    lists', sets' := lists, sets;
    var ci := 0;
    while ci < |frame|
      invariant 0 <= ci <= |frame| && |lists'| == |lists| && |sets'| == |sets|
      invariant forall c | 0 <= c < |lists| ::
        lists'[c] == (if c < ci then lists[c] + [frame[c]] else lists[c]) &&
        sets'[c] == (if c < ci then sets[c] + {frame[c]} else sets[c])
    {
      lists' := lists'[ci := lists'[ci] + [frame[ci]]];
      sets' := sets'[ci := sets'[ci] + {frame[ci]}];
      ci := ci + 1;
    }
  }

  ghost predicate ColumnSeen(producer: Producer, frames: seq<Frame>, c: nat, l: seq<int>, s: set<int>) {
    && l == (if producer == LocalDecoder then Doubled(Column(frames, c)) else Column(frames, c))
    && s == Elements(Column(frames, c))
  }

  lemma ColumnGrows(producer: Producer, frames: seq<Frame>, f: Frame, c: nat, l: seq<int>, s: set<int>)
    requires ColumnSeen(producer, frames, c, l, s)
    ensures c >= |f| ==> ColumnSeen(producer, frames + [f], c, l, s)
    ensures c < |f| ==> ColumnSeen(producer, frames + [f], c,
                                   if producer == LocalDecoder then l + [f[c]] + [f[c]] else l + [f[c]], s + {f[c]})
  {
    hide Column, Doubled;
    var column := Column(frames, c);
    ColumnNext(frames, f, c);
    if c < |f| {
      DoubledNext(column, f[c]);
      assert l + [f[c]] + [f[c]] == l + [f[c], f[c]];
      assert Elements(column + [f[c]]) == Elements(column) + {f[c]};
    } else {
      assert column + [] == column;
    }
  }

  /** Take a frame into the lists and sets: the local decoder has already done so when the loop does. */
  method TakeFrame(producer: Producer, ghost frames: seq<Frame>, frame: Frame, lists: seq<seq<int>>, sets: seq<set<int>>)
    returns (lists': seq<seq<int>>, sets': seq<set<int>>)
    requires |frame| <= |lists| && Seen(producer, frames, lists, sets, |lists|)
    ensures |lists'| == |lists|
    ensures Seen(producer, frames + [frame], lists', sets', |lists|)
  {
    hide ColumnSeen;
    lists', sets' := lists, sets;
    if producer == LocalDecoder {
      lists', sets' := AddTokens(frame, lists, sets);
    }
    lists', sets' := AddTokens(frame, lists', sets');
    forall c | 0 <= c < |lists| ensures ColumnSeen(producer, frames + [frame], c, lists'[c], sets'[c]) {
      ColumnGrows(producer, frames, frame, c, lists[c], sets[c]);
      if c < |frame| {
        assert sets[c] + {frame[c]} + {frame[c]} == sets[c] + {frame[c]};
      }
    }
  }
}
