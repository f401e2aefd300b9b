/**
 Trimming the silence at the end of a waveform (pkg/audio/audio.go). Samples are reals, and the
 level of a window is compared squared, so that no root is taken.
 */
module Silence {

  const THRESHOLD_SQUARED := 0.0001

  function SquareSum(w: seq<real>, low: nat, high: nat): real
    requires low <= high <= |w|
    decreases high
  {
    if low == high then 0.0 else SquareSum(w, low, high - 1) + w[high - 1] * w[high - 1]
  }

  /** The mean square of some samples is above the threshold. */
  predicate Loud(w: seq<real>, low: nat, high: nat) {
    low < high <= |w| && SquareSum(w, low, high) / (high - low) as real > THRESHOLD_SQUARED
  }

  /** A window of size frames, each of that many channels. */
  predicate Voiced(w: seq<real>, channels: nat, size: nat, k: nat) {
    Loud(w, k * size * channels, (k + 1) * size * channels)
  }

  lemma FiftiethOf(x: real, sampleRate: nat)
    requires x * 50.0 == sampleRate as real
    ensures x.Floor >= 0 && 50 * x.Floor <= sampleRate < 50 * x.Floor + 50
  {
    assert (50 * x.Floor) as real == 50.0 * x.Floor as real;
  }

  /** A window is a fiftieth of a second, rounded down, and at least one frame. */
  function WindowSize(sampleRate: nat): (n: nat)
    ensures n >= 1 && sampleRate < 50 * (n + 1) && (n > 1 ==> 50 * n <= sampleRate)
  {
    FiftiethOf(sampleRate as real * 0.02, sampleRate);
    var n := (sampleRate as real * 0.02).Floor;
    if n < 1 then 1 else n
  }

  function PaddingWindows(sampleRate: nat): int {
    (sampleRate as real * 0.15 / WindowSize(sampleRate) as real).Floor
  }

  lemma PaddingIsTime(sampleRate: nat)
    ensures var p, size := PaddingWindows(sampleRate), WindowSize(sampleRate);
      p >= 0 && 20 * (p * size) <= 3 * sampleRate < 20 * (p * size + size)
  {
    var p, size := PaddingWindows(sampleRate), WindowSize(sampleRate);
    hide WindowSize;
    FloorOfQuotient(sampleRate as real * 0.15, size as real, p);
    assert size as real * p as real == (p * size) as real;
  }

  lemma FloorOfQuotient(x: real, d: real, p: int)
    requires x >= 0.0 && d > 0.0 && p == (x / d).Floor
    ensures p >= 0 && d * p as real <= x < d * p as real + d
  {
    var q := x / d;
    assert q * d == x;
    if q < 0.0 {
      ScaledMore(0.0, q, d);
    }
    Between(p as real, q, d, x);
  }

  lemma Between(p: real, q: real, d: real, x: real)
    requires d > 0.0 && q * d == x && p <= q < p + 1.0
    ensures d * p <= x < d * p + d
  {
    Scaled(p, q, d);
    var r := p + 1.0;
    ScaledMore(r, q, d);
    assert x < r * d;
    assert r * d == p * d + d;
    assert p * d == d * p;
  }

  // ----- What a voiced window is -----

  ghost predicate AllWithin(w: seq<real>, low: nat, high: nat, bound: real) {
    low <= high <= |w| && forall i | low <= i < high :: -bound <= w[i] <= bound
  }

  ghost predicate AllBeyond(w: seq<real>, low: nat, high: nat, bound: real) {
    low <= high <= |w| && forall i | low <= i < high :: w[i] < -bound || w[i] > bound
  }

  lemma SquareWithin(v: real, b: real)
    requires b >= 0.0
    ensures v * v <= b * b <==> -b <= v <= b
  {
    if v > b {
      SquareGrows(b, v);
    } else if v < -b {
      SquareGrows(b, -v);
    } else if v >= 0.0 {
      Product(v, b);
    } else {
      Product(-v, b);
    }
  }

  lemma SquareGrows(a: real, b: real)
    requires 0.0 <= a < b
    ensures a * a < b * b
  {
    ScaledMore(b - a, 0.0, b + a);
    assert (b - a) * (b + a) == b * b - a * a;
  }

  lemma Product(a: real, b: real)
    requires 0.0 <= a <= b
    ensures a * a <= b * b
  {
    if a < b {
      SquareGrows(a, b);
    }
  }

  lemma {:induction false} SquaresWithin(w: seq<real>, low: nat, high: nat, b: real)
    requires b >= 0.0 && AllWithin(w, low, high, b)
    ensures SquareSum(w, low, high) <= (high - low) as real * (b * b)
    decreases high
  {
    if low < high {
      SquaresWithin(w, low, high - 1, b);
      SquareWithin(w[high - 1], b);
    }
  }

  lemma {:induction false} SquaresBeyond(w: seq<real>, low: nat, high: nat, b: real)
    requires b >= 0.0 && AllBeyond(w, low, high, b)
    ensures SquareSum(w, low, high) >= (high - low) as real * (b * b)
    ensures low < high ==> SquareSum(w, low, high) > (high - low) as real * (b * b)
    decreases high
  {
    if low < high {
      SquaresBeyond(w, low, high - 1, b);
      SquareWithin(w[high - 1], b);
    }
  }

  /** Samples within a hundredth of full scale are not voiced, samples that are all beyond it are. */
  lemma LoudByLevel(w: seq<real>, low: nat, high: nat)
    requires low < high <= |w|
    ensures AllWithin(w, low, high, 0.01) ==> !Loud(w, low, high)
    ensures AllBeyond(w, low, high, 0.01) ==> Loud(w, low, high)
  {
    var n, sum := (high - low) as real, SquareSum(w, low, high);
    Average(sum, n, 0.0001);
    if AllWithin(w, low, high, 0.01) {
      SquaresWithin(w, low, high, 0.01);
    }
    if AllBeyond(w, low, high, 0.01) {
      SquaresBeyond(w, low, high, 0.01);
    }
  }

  lemma Average(sum: real, n: real, t: real)
    requires n > 0.0
    ensures sum / n > t <==> sum > n * t
  {
    var q := sum / n;
    assert q * n == sum;
    if q > t {
      ScaledMore(q, t, n);
    } else {
      Scaled(q, t, n);
    }
  }

  /** A single sample in silence: its square counts once among all of the window's. */
  lemma {:induction false} SingleSquare(w: seq<real>, low: nat, high: nat, i: nat)
    requires low <= i < high <= |w| && forall j | low <= j < high && j != i :: w[j] == 0.0
    ensures SquareSum(w, low, high) == w[i] * w[i]
    decreases high
  {
    if i < high - 1 {
      SingleSquare(w, low, high - 1, i);
    } else {
      SquaresWithin(w, low, high - 1, 0.0);
      SumNotNegative(w, low, high - 1);
    }
  }

  lemma {:induction false} SumNotNegative(w: seq<real>, low: nat, high: nat)
    requires low <= high <= |w|
    ensures SquareSum(w, low, high) >= 0.0
    decreases high
  {
    if low < high {
      SumNotNegative(w, low, high - 1);
      SquareWithin(w[high - 1], 0.0);
    }
  }

  /** Sample `ch` of frame `i` lies in the window of that frame. */
  ghost predicate InWindow(channels: nat, size: nat, k: nat, i: nat, ch: nat) {
    k * size <= i < (k + 1) * size && ch < channels
  }

  lemma WindowSamples(channels: nat, size: nat, k: nat, j: nat)
    requires channels > 0 && k * size * channels <= j < (k + 1) * size * channels
    ensures InWindow(channels, size, k, j / channels, j % channels) && j / channels * channels + j % channels == j
  {
    var i := j / channels;
    if i < k * size {
      Ordered(i + 1, k * size, channels);
    } else if i >= (k + 1) * size {
      Ordered((k + 1) * size, i, channels);
    }
  }

  /** Window `k` is voiced when all channels of all its frames are beyond a hundredth, and not when they are within;
      a lone sample is voiced exactly when its square is beyond that of a hundredth for every sample of the window. */
  lemma VoicedByLevel(w: seq<real>, channels: nat, size: nat, k: nat)
    requires channels > 0 && size > 0 && (k + 1) * size * channels <= |w|
    ensures (forall i: nat, ch: nat | InWindow(channels, size, k, i, ch) && i * channels + ch < |w| ::
               -0.01 <= w[i * channels + ch] <= 0.01) ==> !Voiced(w, channels, size, k)
    ensures (forall i: nat, ch: nat | InWindow(channels, size, k, i, ch) && i * channels + ch < |w| ::
               w[i * channels + ch] < -0.01 || w[i * channels + ch] > 0.01) ==> Voiced(w, channels, size, k)
  {
    hide Loud, InWindow;
    var low, high := k * size * channels, (k + 1) * size * channels;
    Distance(k * size, size, channels);
    assert k * size + size == (k + 1) * size;
    LoudByLevel(w, low, high);
    if forall i: nat, ch: nat | InWindow(channels, size, k, i, ch) && i * channels + ch < |w| ::
         -0.01 <= w[i * channels + ch] <= 0.01 {
      forall j | low <= j < high ensures -0.01 <= w[j] <= 0.01 {
        WindowSamples(channels, size, k, j);
        assert w[j / channels * channels + j % channels] == w[j];
      }
    }
    if forall i: nat, ch: nat | InWindow(channels, size, k, i, ch) && i * channels + ch < |w| ::
         w[i * channels + ch] < -0.01 || w[i * channels + ch] > 0.01 {
      forall j | low <= j < high ensures w[j] < -0.01 || w[j] > 0.01 {
        WindowSamples(channels, size, k, j);
        assert w[j / channels * channels + j % channels] == w[j];
      }
    }
  }

  lemma LoneSampleIsVoiced(w: seq<real>, channels: nat, size: nat, k: nat, i: nat)
    requires channels > 0 && size > 0 && (k + 1) * size * channels <= |w|
    requires k * size * channels <= i < (k + 1) * size * channels
    requires forall j | k * size * channels <= j < (k + 1) * size * channels && j != i :: w[j] == 0.0
    ensures Voiced(w, channels, size, k) <==> w[i] * w[i] > (size * channels) as real * 0.0001
  {
    var low, high := k * size * channels, (k + 1) * size * channels;
    SingleSquare(w, low, high, i);
    Distance(k * size, size, channels);
    assert k * size + size == (k + 1) * size;
    Average(w[i] * w[i], (high - low) as real, 0.0001);
  }

  /** Add up the squares of a window, frame by frame and channel by channel. */
  method WindowIsVoiced(w: seq<real>, channels: nat, size: nat, k: nat) returns (voiced: bool)
    requires channels > 0 && size > 0 && (k + 1) * size * channels <= |w|
    ensures voiced <==> Voiced(w, channels, size, k)
  {
    var sumSq := 0.0;
    var start := k * size;
    var end := start + size;
    assert end == (k + 1) * size;
    ghost var low := start * channels;
    Ordered(start, end, channels);
    var i := start;
    while i < end
      invariant start <= i <= end && low <= i * channels <= |w|
      invariant sumSq == SquareSum(w, low, i * channels)
    {
      NextFrame(i, end, channels);
      var ch := 0;
      while ch < channels
        invariant 0 <= ch <= channels && low <= i * channels + ch <= |w|
        invariant sumSq == SquareSum(w, low, i * channels + ch)
      {
        var v := w[i * channels + ch];
        sumSq := sumSq + v * v;
        ch := ch + 1;
      }
      i := i + 1;
    }
    Distance(start, size, channels);
    voiced := sumSq / (size * channels) as real > THRESHOLD_SQUARED;
  }

  lemma NextFrame(i: nat, end: nat, channels: nat)
    requires i < end
    ensures (i + 1) * channels == i * channels + channels <= end * channels
  {
    Ordered(i + 1, end, channels);
  }

  lemma Ordered(a: nat, b: nat, c: nat)
    requires a <= b
    ensures a * c <= b * c
  {
  }

  lemma Distance(start: nat, size: nat, channels: nat)
    requires size > 0 && channels > 0
    ensures (start + size) * channels - start * channels == size * channels > 0
  {
  }

  /** Window k is the last voiced one. */
  ghost predicate IsLastVoiced(w: seq<real>, channels: nat, size: nat, k: nat)
    requires channels > 0 && size > 0
  {
    && k < |w| / channels / size && Voiced(w, channels, size, k)
    && forall j: nat | k < j < |w| / channels / size :: !Voiced(w, channels, size, j)
  }

  /** Search the windows from the end; -1 if none is voiced. */
  method LastVoicedWindow(w: seq<real>, channels: nat, size: nat, numWindows: nat) returns (last: int)
    requires channels > 0 && size > 0 && numWindows == |w| / channels / size
    ensures last == -1 || (0 <= last < numWindows && IsLastVoiced(w, channels, size, last))
    ensures last == -1 ==> forall k: nat :: !IsLastVoiced(w, channels, size, k)
  {
    hide Voiced;
    var k := numWindows - 1;
    while k >= 0
      invariant -1 <= k < numWindows
      invariant forall j: nat | k < j < numWindows :: !Voiced(w, channels, size, j)
      decreases k
    {
      WindowFits(|w|, channels, size, k);
      var voiced := WindowIsVoiced(w, channels, size, k);
      if voiced {
        return k;
      }
      k := k - 1;
    }
    return -1;
  }

  /** What stays behind the last voiced window: whole windows of altogether at most 0.15 seconds, and not a window
      less than that unless the waveform ends first. */
  ghost predicate IsPadded(sampleRate: nat, frames: nat, size: nat, end: nat, kept: int) {
    && kept <= frames && 20 * (kept - end) <= 3 * sampleRate
    && (kept < frames ==> 3 * sampleRate < 20 * (kept - end + size) && exists m :: IsMultiple(kept, m, size))
  }

  ghost predicate IsMultiple(n: int, m: int, size: nat) {
    n == m * size
  }

  lemma KeptIsPadded(sampleRate: nat, frames: nat, k: nat)
    ensures var size := WindowSize(sampleRate);
      IsPadded(sampleRate, frames, size, (k + 1) * size, KeptFrames(sampleRate, frames, k))
  {
    PaddingIsTime(sampleRate);
    var size, p := WindowSize(sampleRate), PaddingWindows(sampleRate);
    hide PaddingWindows, WindowSize;
    assert (k + 1 + p) * size == (k + 1) * size + p * size;
    assert IsMultiple((k + 1 + p) * size, k + 1 + p, size);
  }

  /** How many frames stay when window k is the last voiced one: up to the end of its padding. */
  function KeptFrames(sampleRate: nat, frames: nat, k: nat): (kept: int)
    ensures kept <= frames
  {
    var padded := (k + 1 + PaddingWindows(sampleRate)) * WindowSize(sampleRate);
    if padded > frames then frames else padded
  }

  /** Trim the end: exactly when there is a voiced window, the waveform has a quarter of a second, and at
      least two fifths of the frames stay, it is cut behind that window's padding; otherwise it stays as it is. */
  method TrimTrailingSilence(waveform: seq<real>, channels: int, sampleRate: nat) returns (result: seq<real>)
    ensures channels <= 0 ==> result == waveform
    ensures channels > 0 && |waveform| / channels < sampleRate / 4 ==> result == waveform
    ensures channels > 0 && (forall k: nat :: !IsLastVoiced(waveform, channels, WindowSize(sampleRate), k)) ==>
      result == waveform
    ensures channels > 0 && |waveform| / channels >= sampleRate / 4 ==>
      forall k: nat | IsLastVoiced(waveform, channels, WindowSize(sampleRate), k) ::
        var kept := KeptFrames(sampleRate, |waveform| / channels, k);
        0 <= kept * channels <= |waveform| &&
        IsPadded(sampleRate, |waveform| / channels, WindowSize(sampleRate), (k + 1) * WindowSize(sampleRate), kept) &&
        result == if 5 * kept >= 2 * (|waveform| / channels) then waveform[..kept * channels] else waveform
  {
    hide Voiced, IsLastVoiced, PaddingWindows, WindowSize, KeptFrames, IsPadded;
    if channels <= 0 {
      return waveform;
    }
    if |waveform| == 0 {
      NothingVoiced(waveform, channels, WindowSize(sampleRate));
      return waveform;
    }
    var numSamples := |waveform| / channels;
    if numSamples < sampleRate / 4 {
      return waveform;
    }
    var size := WindowSize(sampleRate);
    var numWindows := numSamples / size;
    var lastVoiced := LastVoicedWindow(waveform, channels, size, numWindows);
    if lastVoiced < 0 {
      return waveform;
    }
    OnlyLast(waveform, channels, size, lastVoiced);
    KeptIsPadded(sampleRate, numSamples, lastVoiced);
    result := CutBehind(waveform, channels, sampleRate, size, lastVoiced);
  }

  method CutBehind(w: seq<real>, channels: nat, sampleRate: nat, size: nat, last: nat) returns (result: seq<real>)
    requires channels > 0 && size == WindowSize(sampleRate) && last < |w| / channels / size
    ensures var kept := KeptFrames(sampleRate, |w| / channels, last);
      0 <= kept * channels <= |w| &&
      result == if 5 * kept >= 2 * (|w| / channels) then w[..kept * channels] else w
  {
    hide WindowSize, KeptFrames;
    WindowFits(|w|, channels, size, last);
    var cutSample, worthIt := CutPoint(last, sampleRate, size, |w| / channels);
    CutFits(|w|, channels, cutSample);
    result := if worthIt then w[..cutSample * channels] else w;
  }

  lemma NothingVoiced(w: seq<real>, channels: nat, size: nat)
    requires channels > 0 && size > 0 && w == []
    ensures forall k: nat :: !IsLastVoiced(w, channels, size, k)
  {
    assert |w| / channels == 0 && 0 / size == 0;
  }

  /** There is at most one last voiced window. */
  lemma OnlyLast(w: seq<real>, channels: nat, size: nat, k: nat)
    requires channels > 0 && size > 0 && IsLastVoiced(w, channels, size, k)
    ensures forall j: nat | IsLastVoiced(w, channels, size, j) :: j == k
  {
    hide Voiced;
  }

  /** Where to cut behind the last voiced window and its padding, and whether at least two fifths stay. */
  method CutPoint(last: nat, sampleRate: nat, size: nat, frames: nat) returns (cut: nat, worthIt: bool)
    requires size == WindowSize(sampleRate) && frames > 0 && (last + 1) * size <= frames
    ensures cut == KeptFrames(sampleRate, frames, last) && (last + 1) * size <= cut <= frames
    ensures worthIt <==> 5 * cut >= 2 * frames
  {
    hide PaddingWindows, WindowSize;
    PaddingIsNat(sampleRate);
    var windows := last + 1 + PaddingWindows(sampleRate);
    Ordered(last + 1, windows, size);
    cut := windows * size;
    if cut > frames {
      cut := frames;
    }
    var dropped := (frames - cut) as real / frames as real;
    worthIt := !(dropped > 0.6);
    TwoFifths(frames, cut, dropped);
  }

  /** No voiced window is cut: the kept frames of a trimmed waveform hold them all. */
  lemma VoicedStays(w: seq<real>, channels: nat, sampleRate: nat, last: nat, k: nat)
    requires channels > 0 && IsLastVoiced(w, channels, WindowSize(sampleRate), last)
    requires k < |w| / channels / WindowSize(sampleRate) && Voiced(w, channels, WindowSize(sampleRate), k)
    ensures (k + 1) * WindowSize(sampleRate) * channels <= KeptFrames(sampleRate, |w| / channels, last) * channels
  {
    hide Voiced, PaddingWindows, WindowSize;
    var size, frames := WindowSize(sampleRate), |w| / channels;
    assert k <= last;
    PaddingIsNat(sampleRate);
    WindowFits(|w|, channels, size, last);
    Ordered(k + 1, last + 1, size);
    Ordered(last + 1, last + 1 + PaddingWindows(sampleRate), size);
    Ordered((k + 1) * size, KeptFrames(sampleRate, frames, last), channels);
  }

  lemma WindowFits(n: nat, channels: nat, size: nat, k: nat)
    requires channels > 0 && size > 0 && k < n / channels / size
    ensures (k + 1) * size <= n / channels && (k + 1) * size * channels <= n && n / channels > 0
  {
    var frames := n / channels;
    Ordered(k + 1, frames / size, size);
    QuotientFits(frames, size);
    Ordered((k + 1) * size, frames, channels);
    QuotientFits(n, channels);
  }

  lemma QuotientFits(n: nat, d: nat)
    requires d > 0
    ensures n / d * d <= n
  {
  }

  lemma PaddingIsNat(sampleRate: nat)
    ensures PaddingWindows(sampleRate) >= 0
  {
    var x := sampleRate as real * 0.15;
    assert x / WindowSize(sampleRate) as real >= 0.0;
  }

  lemma CutFits(n: nat, channels: nat, cut: nat)
    requires channels > 0 && cut <= n / channels
    ensures cut * channels <= n
  {
    Ordered(cut, n / channels, channels);
    QuotientFits(n, channels);
  }

  lemma TwoFifths(frames: nat, cut: nat, dropped: real)
    requires cut <= frames && frames > 0 && dropped == (frames - cut) as real / frames as real
    ensures dropped <= 0.6 <==> 5 * cut >= 2 * frames
  {
    Share(frames as real, (frames - cut) as real, dropped);
  }

  lemma Share(whole: real, part: real, q: real)
    requires whole > 0.0 && q == part / whole
    ensures q <= 0.6 <==> part <= 0.6 * whole
  {
    assert q * whole == part;
    if q <= 0.6 {
      Scaled(q, 0.6, whole);
    } else {
      ScaledMore(q, 0.6, whole);
    }
  }

  lemma Scaled(a: real, b: real, c: real)
    requires a <= b && c > 0.0
    ensures a * c <= b * c
  {
  }

  lemma ScaledMore(a: real, b: real, c: real)
    requires a > b && c > 0.0
    ensures a * c > b * c
  {
  }
}
