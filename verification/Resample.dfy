/**
 The windowed-sinc resampler (pkg/audio/resample_torch.go).

 The program precomputes one kernel row per output phase and runs a strided convolution over
 a zero-padded channel. The main result is that each output sample is the plain convolution
 sum over the whole input at the exact time offset, for the rates as the caller gave them.

 Samples and times are reals; sine and cosine are parameters of which only their zeros at
 a quarter turn are used.
 */
module Resample {
  import opened Words

  const LOWPASS_WIDTH: real := 6.0
  const ROLLOFF: real := 0.99

  datatype Trig = Trig(sin: real -> real, cos: real -> real, pi: real)

  ghost predicate Lawful(g: Trig) {
    && g.pi > 0.0
    && g.cos(g.pi / 2.0) == 0.0
    && g.cos(-g.pi / 2.0) == 0.0
  }

  // ----- Greatest common divisor -----

  function Gcd(a: nat, b: nat): nat
    decreases b
  {
    if b == 0 then a else Gcd(b, a % b)
  }

  predicate Divides(d: nat, a: nat) {
    d > 0 && a % d == 0
  }

  lemma DividesMod(d: nat, a: nat, b: nat)
    requires b > 0 && Divides(d, b)
    ensures Divides(d, a) <==> Divides(d, a % b)
  {
    var q, k := a / b, b / d;
    assert q * b == q * k * d by {
      assert b == k * d;
      assert q * (k * d) == q * k * d;
    }
    var r := a % b;
    assert a == q * k * d + r;
    if Divides(d, a) {
      assert r == (a / d - q * k) * d by {
        assert (a / d - q * k) * d == a / d * d - q * k * d;
      }
      MultipleDivides(d, a / d - q * k, r);
    }
    if Divides(d, r) {
      assert a == (q * k + r / d) * d by {
        assert (q * k + r / d) * d == q * k * d + r / d * d;
      }
      MultipleDivides(d, q * k + r / d, a);
    }
  }

  lemma MultipleDivides(d: nat, q: int, a: nat)
    requires d > 0 && a == q * d
    ensures Divides(d, a)
  {
    DivModUnique(a, d, q, 0);
  }

  /** The common divisors of two numbers are exactly the divisors of their gcd. */
  lemma {:induction false} GcdIsGreatest(a: nat, b: nat, d: nat)
    requires a > 0 || b > 0
    ensures Gcd(a, b) > 0
    ensures Divides(d, a) && Divides(d, b) <==> Divides(d, Gcd(a, b))
    decreases b
  {
    if b == 0 {
    } else {
      GcdIsGreatest(b, a % b, d);
      if Divides(d, b) {
        DividesMod(d, a, b);
      }
    }
  }

  method GcdInt(a: nat, b: nat) returns (r: nat)
    ensures r == Gcd(a, b)
  {
    var x, y := a, b;
    while y != 0
      invariant Gcd(x, y) == Gcd(a, b)
      decreases y
    {
      x, y := y, x % y;
    }
    r := x;
  }

  // ----- Sums over integer intervals -----

  function Sum(f: int -> real, lo: int, hi: int): real
    decreases hi - lo
  {
    if lo >= hi then 0.0 else Sum(f, lo, hi - 1) + f(hi - 1)
  }

  lemma {:induction false} SumSplit(f: int -> real, lo: int, mid: int, hi: int)
    requires lo <= mid <= hi
    ensures Sum(f, lo, hi) == Sum(f, lo, mid) + Sum(f, mid, hi)
    decreases hi - mid
  {
    if mid < hi {
      SumSplit(f, lo, mid, hi - 1);
    }
  }

  lemma {:induction false} SumZero(f: int -> real, lo: int, hi: int)
    requires forall i | lo <= i < hi :: f(i) == 0.0
    ensures Sum(f, lo, hi) == 0.0
    decreases hi - lo
  {
    if lo < hi {
      SumZero(f, lo, hi - 1);
    }
  }

  /** Intervals that both cover the support of `f` give the same sum. */
  lemma SumSupport(f: int -> real, a: int, b: int, c: int, d: int)
    requires a <= b && c <= d
    requires forall i | !(a <= i < b) :: f(i) == 0.0
    requires forall i | !(c <= i < d) :: f(i) == 0.0
    ensures Sum(f, a, b) == Sum(f, c, d)
  {
    var lo, hi := if a < c then a else c, if b < d then d else b;
    SumWiden(f, lo, a, b, hi);
    SumWiden(f, lo, c, d, hi);
  }

  lemma SumWiden(f: int -> real, lo: int, a: int, b: int, hi: int)
    requires lo <= a <= b <= hi
    requires forall i | !(a <= i < b) :: f(i) == 0.0
    ensures Sum(f, lo, hi) == Sum(f, a, b)
  {
    SumSplit(f, lo, a, hi);
    SumSplit(f, a, b, hi);
    SumZero(f, lo, a);
    SumZero(f, b, hi);
  }

  // ----- The plain convolution -----

  function Ceil(x: real): int {
    -((-x).Floor)
  }

  function Min(a: nat, b: nat): nat {
    if a < b then a else b
  }

  function BaseFreq(src: nat, dest: nat): real {
    Min(src, dest) as real * ROLLOFF
  }

  /** The Hann-windowed sinc at `t`, without scaling. */
  function WindowedSinc(g: Trig, t: real): real {
    var window := g.cos(t * g.pi / LOWPASS_WIDTH / 2.0);
    var tPi := t * g.pi;
    (if tPi == 0.0 then 1.0 else g.sin(tPi) / tPi) * (window * window)
  }

  /** The kernel, cut off outside the low-pass width. */
  function CutKernel(g: Trig, t: real): real {
    if -LOWPASS_WIDTH < t < LOWPASS_WIDTH then WindowedSinc(g, t) else 0.0
  }

  /** The kernel argument for input frame `i` and output frame `n`. */
  function Time(src: nat, dest: nat, i: int, n: int): real
    requires src > 0 && dest > 0
  {
    (i as real / src as real - n as real / dest as real) * BaseFreq(src, dest)
  }

  function Scale(src: nat, dest: nat): real
    requires src > 0
  {
    BaseFreq(src, dest) / src as real
  }

  /** The kernel weight that input frame `i` has in output frame `n`. */
  function Weight(g: Trig, src: nat, dest: nat, i: int, n: int): real
    requires src > 0 && dest > 0
  {
    CutKernel(g, Time(src, dest, i, n)) * Scale(src, dest)
  }

  /** Frame `i` of channel `ch`, zero outside the waveform. */
  function Frame(w: seq<real>, channels: nat, ch: nat, i: int): real
    requires ch < channels
  {
    if 0 <= i < |w| / channels then
      FrameIndex(|w|, channels, ch, i);
      w[i * channels + ch]
    else 0.0
  }

  lemma FrameIndex(len: nat, channels: nat, ch: nat, i: nat)
    requires ch < channels && i < len / channels
    ensures 0 <= i * channels + ch < len
  {
    assert len / channels * channels <= len;
    assert (len / channels - 1 - i) * channels >= 0;
  }

  function Term(g: Trig, w: seq<real>, channels: nat, ch: nat, src: nat, dest: nat, n: int): int -> real
    requires ch < channels && src > 0 && dest > 0
  {
    i => Frame(w, channels, ch, i) * Weight(g, src, dest, i, n)
  }

  /** Output frame `n` of channel `ch`: the plain convolution sum over all input frames. */
  function Convolution(g: Trig, w: seq<real>, channels: nat, ch: nat, src: nat, dest: nat, n: int): real
    requires ch < channels && src > 0 && dest > 0
  {
    Sum(Term(g, w, channels, ch, src, dest, n), 0, |w| / channels)
  }

  function TargetLength(src: nat, dest: nat, frames: nat): int
    requires src > 0
  {
    Ceil((dest * frames) as real / src as real)
  }

  // ----- What a resampled sample is -----

  /** 0.99 times the lower of the two rates: what lies above it is filtered out, whichever rate is the lower one. */
  ghost predicate IsCutoff(f: real, src: nat, dest: nat) {
    && f <= 0.99 * src as real && f <= 0.99 * dest as real
    && (f == 0.99 * src as real || f == 0.99 * dest as real)
  }

  ghost function Sinc(g: Trig, t: real): real {
    if g.pi * t == 0.0 then 1.0 else g.sin(g.pi * t) / (g.pi * t)
  }

  /** The Hann window over the six zero crossings on either side. */
  ghost function Hann(g: Trig, t: real): real {
    if t <= -6.0 || t >= 6.0 then 0.0 else g.cos(g.pi * t / 12.0) * g.cos(g.pi * t / 12.0)
  }

  /** What input frame `i` contributes at the time `n / dest` of output frame `n`, through a low-pass filter at `f`. */
  ghost function Filtered(g: Trig, w: seq<real>, channels: nat, ch: nat, src: nat, dest: nat, f: real, n: int): int -> real
    requires ch < channels && src > 0 && dest > 0
  {
    i =>
      var t := At(f, src, dest, i, n);
      (if 0 <= i < |w| / channels then FrameIndex(|w|, channels, ch, i); w[i * channels + ch] else 0.0) *
      (Sinc(g, t) * Hann(g, t) * (f / src as real))
  }

  /** The least number of frames that lasts as long as the input: `n / dest >= frames / src`. */
  ghost predicate IsDuration(n: int, src: nat, dest: nat, frames: nat) {
    n >= 0 && n * src >= dest * frames && (n > 0 ==> (n - 1) * src < dest * frames)
  }

  lemma BaseFreqIsCutoff(src: nat, dest: nat)
    ensures IsCutoff(BaseFreq(src, dest), src, dest)
    ensures forall f: real | IsCutoff(f, src, dest) :: f == BaseFreq(src, dest)
  {
  }

  lemma KernelIsSincHann(g: Trig, t: real)
    ensures CutKernel(g, t) == Sinc(g, t) * Hann(g, t)
  {
    assert t * g.pi == g.pi * t && t * g.pi / LOWPASS_WIDTH / 2.0 == g.pi * t / 12.0;
  }

  /** The kernel argument, with the cutoff in front. */
  ghost function At(f: real, src: nat, dest: nat, i: int, n: int): real
    requires src > 0 && dest > 0
  {
    f * (i as real / src as real - n as real / dest as real)
  }

  lemma TimeIsAt(src: nat, dest: nat, i: int, n: int)
    requires src > 0 && dest > 0
    ensures Time(src, dest, i, n) == At(BaseFreq(src, dest), src, dest, i, n)
  {
    hide BaseFreq;
    Commute(BaseFreq(src, dest), i as real / src as real - n as real / dest as real);
  }

  lemma WeightIsFiltered(g: Trig, src: nat, dest: nat, i: int, n: int)
    requires src > 0 && dest > 0
    ensures var f := BaseFreq(src, dest);
            var t := At(f, src, dest, i, n);
            Weight(g, src, dest, i, n) == Sinc(g, t) * Hann(g, t) * (f / src as real)
  {
    hide CutKernel, Sinc, Hann, BaseFreq, At, Time;
    TimeIsAt(src, dest, i, n);
    KernelIsSincHann(g, At(BaseFreq(src, dest), src, dest, i, n));
  }

  lemma Commute(x: real, y: real)
    ensures x * y == y * x
  {
  }

  lemma TermIsFiltered(g: Trig, w: seq<real>, channels: nat, ch: nat, src: nat, dest: nat, f: real, n: int, i: int)
    requires ch < channels && src > 0 && dest > 0 && f == BaseFreq(src, dest)
    ensures Term(g, w, channels, ch, src, dest, n)(i) == Filtered(g, w, channels, ch, src, dest, f, n)(i)
  {
    hide Weight, Sinc, Hann, BaseFreq, At;
    WeightIsFiltered(g, src, dest, i, n);
  }

  /** A convolution sum is the input, filtered at the cutoff and read at the time of the output frame. */
  lemma ConvolutionIsFiltered(g: Trig, w: seq<real>, channels: nat, ch: nat, src: nat, dest: nat, f: real, n: int)
    requires ch < channels && src > 0 && dest > 0 && IsCutoff(f, src, dest)
    ensures Convolution(g, w, channels, ch, src, dest, n) ==
              Sum(Filtered(g, w, channels, ch, src, dest, f, n), 0, |w| / channels)
  {
    hide Term, Filtered, IsCutoff, BaseFreq;
    BaseFreqIsCutoff(src, dest);
    var a, b := Term(g, w, channels, ch, src, dest, n), Filtered(g, w, channels, ch, src, dest, f, n);
    forall i: int ensures a(i) == b(i) {
      TermIsFiltered(g, w, channels, ch, src, dest, f, n, i);
    }
    SumEqual(a, b, 0, |w| / channels);
  }

  lemma LengthIsDuration(src: nat, dest: nat, frames: nat)
    requires src > 0
    ensures IsDuration(TargetLength(src, dest, frames), src, dest, frames)
  {
    var x, n := dest * frames, TargetLength(src, dest, frames);
    assert x >= 0;
    var q := x as real / src as real;
    assert q * src as real == x as real;
    Surrounds((n - 1) as real, q, n as real, src as real, x as real);
    SignedProduct(n, src);
    SignedProduct(n - 1, src);
  }

  lemma Surrounds(m: real, q: real, n: real, d: real, x: real)
    requires d > 0.0 && q * d == x && m < q <= n
    ensures m * d < x <= n * d
  {
    StrictlyOrdered(m, q, d);
    if q < n {
      StrictlyOrdered(q, n, d);
    }
  }

  lemma StrictlyOrdered(x: real, y: real, d: real)
    requires d > 0.0 && x < y
    ensures x * d < y * d
  {
    PositiveProduct(y - x, d);
    Distribute(y, x, d);
  }

  lemma Distribute(x: real, y: real, d: real)
    ensures (x - y) * d == x * d - y * d
  {
  }

  lemma SignedProduct(a: int, b: int)
    ensures (a * b) as real == a as real * b as real
  {
  }

  // ----- Common factors of the rates do not matter -----

  lemma Cancel(x: real, d: real, q: real)
    requires d > 0.0 && q > 0.0
    ensures d * q > 0.0 && x / (d * q) * q == x / d
  {
    var r := x / (d * q);
    assert r * q * d == r * (d * q);
  }

  lemma MinScales(a: nat, b: nat, q: nat)
    requires q > 0
    ensures a * q >= 0 && b * q >= 0 && Min(a * q, b * q) == Min(a, b) * q
  {
    if a < b {
      MulAtLeast(b - a, q);
      assert (b - a) * q == b * q - a * q;
    } else {
      assert (a - b) * q >= 0;
      assert (a - b) * q == a * q - b * q;
    }
  }

  lemma ProductAsReal(a: nat, b: nat)
    ensures a * b >= 0 && (a * b) as real == a as real * b as real
  {
  }

  lemma BaseFreqScales(src: nat, dest: nat, q: nat)
    requires src > 0 && dest > 0 && q > 0
    ensures src * q > 0 && dest * q > 0
    ensures BaseFreq(src * q, dest * q) == BaseFreq(src, dest) * q as real
  {
    MulAtLeast(src, q);
    MulAtLeast(dest, q);
    MinScales(src, dest, q);
    ProductAsReal(Min(src, dest), q);
  }

  lemma TimeScales(x: real, y: real, d: real, e: real, b: real, q: real)
    requires d > 0.0 && e > 0.0 && q > 0.0
    ensures d * q > 0.0 && e * q > 0.0
    ensures (x / (d * q) - y / (e * q)) * (b * q) == (x / d - y / e) * b
  {
    Cancel(x, d, q);
    Cancel(y, e, q);
    var u, v := x / (d * q), y / (e * q);
    assert (u - v) * (b * q) == (u * q - v * q) * b;
  }

  lemma TimeCommonFactor(src: nat, dest: nat, q: nat, i: int, n: int)
    requires src > 0 && dest > 0 && q > 0
    ensures src * q > 0 && dest * q > 0
    ensures Time(src * q, dest * q, i, n) == Time(src, dest, i, n)
  {
    BaseFreqScales(src, dest, q);
    ProductAsReal(src, q);
    ProductAsReal(dest, q);
    TimeScales(i as real, n as real, src as real, dest as real, BaseFreq(src, dest), q as real);
  }

  lemma ScaleCommonFactor(src: nat, dest: nat, q: nat)
    requires src > 0 && dest > 0 && q > 0
    ensures src * q > 0 && dest * q > 0
    ensures Scale(src * q, dest * q) == Scale(src, dest)
  {
    BaseFreqScales(src, dest, q);
    ProductAsReal(src, q);
    var b := BaseFreq(src, dest);
    QuotientCancel(b, src as real, q as real);
  }

  lemma QuotientCancel(x: real, d: real, q: real)
    requires d > 0.0 && q > 0.0
    ensures d * q > 0.0 && x * q / (d * q) == x / d
  {
    assert d * q > 0.0;
    var r := x * q / (d * q);
    assert r * d * q == x * q by {
      assert r * (d * q) == x * q;
      assert r * d * q == r * (d * q);
    }
    CancelRight(r * d, x, q);
  }

  lemma CancelRight(x: real, y: real, q: real)
    requires q > 0.0 && x * q == y * q
    ensures x == y
  {
    assert (x - y) * q == 0.0;
  }

  /** Multiplying both rates by the same number changes no output sample. */
  lemma ConvolutionCommonFactor(g: Trig, w: seq<real>, channels: nat, ch: nat, src: nat, dest: nat, q: nat, n: int)
    requires ch < channels && src > 0 && dest > 0 && q > 0
    ensures src * q > 0 && dest * q > 0
    ensures Convolution(g, w, channels, ch, src * q, dest * q, n) == Convolution(g, w, channels, ch, src, dest, n)
  {
    hide CutKernel, Frame, Time, Scale;
    MulAtLeast(src, q);
    MulAtLeast(dest, q);
    ScaleCommonFactor(src, dest, q);
    var f, f' := Term(g, w, channels, ch, src, dest, n), Term(g, w, channels, ch, src * q, dest * q, n);
    forall i: int ensures f(i) == f'(i) {
      TimeCommonFactor(src, dest, q, i, n);
    }
    SumEqual(f, f', 0, |w| / channels);
  }

  lemma {:induction false} SumEqual(f: int -> real, f': int -> real, lo: int, hi: int)
    requires forall i | lo <= i < hi :: f(i) == f'(i)
    ensures Sum(f, lo, hi) == Sum(f', lo, hi)
    decreases hi - lo
  {
    if lo < hi {
      SumEqual(f, f', lo, hi - 1);
    }
  }

  /** Nor does it change the number of output frames. */
  lemma TargetLengthCommonFactor(src: nat, dest: nat, q: nat, frames: nat)
    requires src > 0 && dest > 0 && q > 0
    ensures src * q > 0 && dest * q >= 0 && TargetLength(src * q, dest * q, frames) == TargetLength(src, dest, frames)
  {
    MulAtLeast(src, q);
    var x := dest * frames;
    var y, d := dest * q * frames, src * q;
    assert x >= 0 && y == x * q;
    ProductAsReal(src, q);
    ProductAsReal(x, q);
    QuotientCancel(x as real, src as real, q as real);
    assert y as real / d as real == x as real / src as real;
    assert (dest * q * frames) as real == y as real;
    assert dest * q >= 0;
  }

  // ----- The kernel table -----

  function Clamp(t: real): real {
    if t > LOWPASS_WIDTH then LOWPASS_WIDTH else if t < -LOWPASS_WIDTH then -LOWPASS_WIDTH else t
  }

  /** Clamping the argument cuts the kernel off, because the window vanishes at both ends. */
  lemma ClampCuts(g: Trig, t: real)
    requires Lawful(g)
    ensures WindowedSinc(g, Clamp(t)) == CutKernel(g, t)
  {
    if t >= LOWPASS_WIDTH {
      assert LOWPASS_WIDTH * g.pi / LOWPASS_WIDTH / 2.0 == g.pi / 2.0;
    } else if t <= -LOWPASS_WIDTH {
      assert -LOWPASS_WIDTH * g.pi / LOWPASS_WIDTH / 2.0 == -g.pi / 2.0;
    }
  }

  function Width(src: nat, dest: nat): int
    requires src > 0 && dest > 0
  {
    Ceil(LOWPASS_WIDTH * src as real / BaseFreq(src, dest))
  }

  lemma WidthCovers(src: nat, dest: nat)
    requires src > 0 && dest > 0
    ensures Width(src, dest) > 0
    ensures Width(src, dest) as real * BaseFreq(src, dest) >= LOWPASS_WIDTH * src as real
  {
    var b := BaseFreq(src, dest);
    var q := LOWPASS_WIDTH * src as real / b;
    assert q * b == LOWPASS_WIDTH * src as real;
    assert (Width(src, dest) as real - q) * b >= 0.0;
    assert q > 0.0;
  }

  /** The kernel argument of tap `j` (counted from the start of the column) in a phase row. */
  function PhaseTime(src: nat, dest: nat, phase: nat, j: int): real
    requires src > 0 && dest > 0
  {
    (-(phase as real) / dest as real + j as real / src as real) * BaseFreq(src, dest)
  }

  /** Output frame `col * dest + phase` sees input frame `col * src + j` through tap `j` of its phase row. */
  lemma PhaseTimeIsTime(src: nat, dest: nat, col: nat, phase: nat, j: int)
    requires src > 0 && dest > 0
    ensures Time(src, dest, col * src + j, col * dest + phase) == PhaseTime(src, dest, phase, j)
  {
    WholeColumns(col, src, j);
    WholeColumns(col, dest, phase);
  }

  lemma WholeColumns(col: nat, d: nat, j: int)
    requires d > 0
    ensures (col * d + j) as real / d as real == col as real + j as real / d as real
  {
    ProductAsReal(col, d);
    var x := j as real / d as real;
    assert (col as real + x) * d as real == col as real * d as real + j as real;
  }

  /** Taps outside the row carry no weight. */
  lemma OutsideRow(src: nat, dest: nat, phase: nat, j: int)
    requires src > 0 && dest > 0 && phase < dest
    requires j < -Width(src, dest) || j >= Width(src, dest) + src
    ensures PhaseTime(src, dest, phase, j) <= -LOWPASS_WIDTH || PhaseTime(src, dest, phase, j) >= LOWPASS_WIDTH
  {
    hide Width, BaseFreq;
    WidthCovers(src, dest);
    BaseFreqPositive(src, dest);
    OutsideReal(Width(src, dest) as real, BaseFreq(src, dest), src as real, dest as real, phase as real, j as real);
  }

  lemma OutsideReal(w: real, b: real, d: real, e: real, p: real, j: real)
    requires b > 0.0 && d > 0.0 && e > 0.0 && 0.0 <= p < e && w * b >= LOWPASS_WIDTH * d
    requires j <= -w || j >= w + d
    ensures (-p / e + j / d) * b <= -LOWPASS_WIDTH || (-p / e + j / d) * b >= LOWPASS_WIDTH
  {
    var f := p / e;
    FractionBounds(p, e);
    assert -p / e == -f;
    if j <= -w {
      DivideOrdered(w, -j, d);
      assert -(j / d) == -j / d;
      Reach(w, b, d, f - j / d);
      assert (-f + j / d) * b == -((f - j / d) * b);
    } else {
      DivideOrdered(w + d, j, d);
      QuotientIs(w + d, d, w / d + 1.0);
      Reach(w, b, d, -f + j / d);
    }
  }

  lemma QuotientIs(x: real, d: real, q: real)
    requires d > 0.0 && q * d == x
    ensures x / d == q
  {
    CancelRight(x / d, q, d);
  }

  lemma FractionBounds(p: real, e: real)
    requires 0.0 <= p < e
    ensures 0.0 <= p / e < 1.0
  {
  }

  lemma PositiveProduct(x: real, y: real)
    requires x > 0.0 && y > 0.0
    ensures x * y > 0.0
  {
  }

  lemma DivideOrdered(x: real, y: real, d: real)
    requires d > 0.0 && x <= y
    ensures x / d <= y / d
  {
    var u, v := x / d, y / d;
    assert (u - v) * d == x - y;
    if v < u {
      PositiveProduct(u - v, d);
    }
  }

  lemma BaseFreqPositive(src: nat, dest: nat)
    requires src > 0 && dest > 0
    ensures BaseFreq(src, dest) > 0.0
  {
  }

  lemma Reach(w: real, b: real, d: real, x: real)
    requires b > 0.0 && d > 0.0 && w * b >= LOWPASS_WIDTH * d && x >= w / d
    ensures x * b >= LOWPASS_WIDTH
  {
    var q := w / d;
    assert q * b * d == w * b by {
      assert q * d == w;
      assert q * b * d == q * d * b;
    }
    assert (q * b - LOWPASS_WIDTH) * d >= 0.0;
    assert q * b >= LOWPASS_WIDTH;
    assert (x - q) * b >= 0.0;
  }

  /** Entry `k` of the row for `phase`, as the program computes it. */
  function KernelEntry(g: Trig, src: nat, dest: nat, width: nat, phase: nat, k: nat): real
    requires src > 0 && dest > 0
  {
    WindowedSinc(g, Clamp(PhaseTime(src, dest, phase, k - width))) * Scale(src, dest)
  }

  method BuildKernels(g: Trig, src: nat, dest: nat, width: nat) returns (kernels: array2<real>)
    requires src > 0 && dest > 0
    ensures fresh(kernels) && kernels.Length0 == dest && kernels.Length1 == 2 * width + src
    ensures forall p, k | 0 <= p < dest && 0 <= k < 2 * width + src ::
              kernels[p, k] == KernelEntry(g, src, dest, width, p, k)
  {
    hide KernelEntry;
    var idxLen := 2 * width + src;
    kernels := new real[dest, idxLen]((i, j) => 0.0);
    for phase := 0 to dest
      invariant forall p, k | 0 <= p < phase && 0 <= k < idxLen ::
        kernels[p, k] == KernelEntry(g, src, dest, width, p, k)
    {
      BuildRow(g, src, dest, width, kernels, phase);
    }
  }

  /** Fill the row of one phase, and no other. */
  method BuildRow(g: Trig, src: nat, dest: nat, width: nat, kernels: array2<real>, phase: nat)
    requires src > 0 && phase < dest && kernels.Length0 == dest && kernels.Length1 == 2 * width + src
    modifies kernels
    ensures forall k | 0 <= k < kernels.Length1 :: kernels[phase, k] == KernelEntry(g, src, dest, width, phase, k)
    ensures forall p, k | 0 <= p < dest && p != phase && 0 <= k < kernels.Length1 :: kernels[p, k] == old(kernels[p, k])
  {
    hide WindowedSinc;
    assert forall k | 0 <= k < kernels.Length1 ::
        KernelEntry(g, src, dest, width, phase, k)
        == WindowedSinc(g, Clamp(PhaseTime(src, dest, phase, k - width))) * Scale(src, dest);
    hide KernelEntry;
    var baseFreq := Min(src, dest) as real * ROLLOFF;
    var scale := baseFreq / src as real;
    var tBase := -(phase as real) / dest as real;
    for k := 0 to kernels.Length1
      invariant forall j | 0 <= j < k :: kernels[phase, j] == KernelEntry(g, src, dest, width, phase, j)
      invariant forall p, j | 0 <= p < dest && p != phase && 0 <= j < kernels.Length1 :: kernels[p, j] == old(kernels[p, j])
    {
      var idxVal := (k - width) as real / src as real;
      var t := (tBase + idxVal) * baseFreq;
      assert t == PhaseTime(src, dest, phase, k - width);
      if t > LOWPASS_WIDTH {
        t := LOWPASS_WIDTH;
      }
      if t < -LOWPASS_WIDTH {
        t := -LOWPASS_WIDTH;
      }
      assert t == Clamp(PhaseTime(src, dest, phase, k - width));
      kernels[phase, k] := WindowedSinc(g, t) * scale;
    }
  }

  // ----- The strided convolution -----

  /** Every tap of every output frame reads inside the padded channel. */
  lemma TapsInBounds(src: nat, dest: nat, frames: nat, n: nat)
    requires src > 0 && dest > 0 && n < TargetLength(src, dest, frames)
    ensures n / dest * src >= 0 && n / dest * src < frames
  {
    var x := dest * frames;
    assert x >= 0;
    var q := x as real / src as real;
    assert n as real < q;
    assert q * src as real == x as real;
    PositiveProduct(q - n as real, src as real);
    assert (q - n as real) * src as real == x as real - n as real * src as real;
    ProductAsReal(n, src);
    assert n * src < dest * frames;
    ColumnBelow(n, dest, src, frames);
  }

  lemma ColumnBelow(n: nat, dest: nat, src: nat, frames: nat)
    requires dest > 0 && n * src < dest * frames
    ensures n / dest * src >= 0 && n / dest * src < frames
  {
    var c := n / dest;
    assert n == c * dest + n % dest;
    assert n % dest * src >= 0;
    assert n * src == c * src * dest + n % dest * src by {
      assert (c * dest + n % dest) * src == c * dest * src + n % dest * src;
      assert c * dest * src == c * src * dest;
    }
    if c * src >= frames {
      MulMonotone(frames, c * src, dest, dest);
    }
  }

  /** The taps of one row add up to the plain convolution sum. */
  lemma RowIsConvolution(g: Trig, w: seq<real>, channels: nat, ch: nat, src: nat, dest: nat, col: nat, phase: nat)
    requires Lawful(g) && ch < channels && src > 0 && phase < dest
    ensures var n, start, width := col * dest + phase, col * src, Width(src, dest);
            Sum(Term(g, w, channels, ch, src, dest, n), start - width, start + width + src)
            == Convolution(g, w, channels, ch, src, dest, n)
  {
    hide Weight, Width, Frame, Term, Sum;
    var n, start, width := col * dest + phase, col * src, Width(src, dest);
    WidthCovers(src, dest);
    var f := Term(g, w, channels, ch, src, dest, n);
    forall i | !(start - width <= i < start + width + src) ensures f(i) == 0.0 {
      TermOutsideRow(g, w, channels, ch, src, dest, col, phase, i);
    }
    forall i | !(0 <= i < |w| / channels) ensures f(i) == 0.0 {
      TermOutsideInput(g, w, channels, ch, src, dest, n, i);
    }
    SumSupport(f, start - width, start + width + src, 0, |w| / channels);
  }

  /** An input frame that the row does not reach contributes nothing. */
  lemma TermOutsideRow(g: Trig, w: seq<real>, channels: nat, ch: nat, src: nat, dest: nat, col: nat, phase: nat, i: int)
    requires ch < channels && src > 0 && phase < dest
    requires i < col * src - Width(src, dest) || i >= col * src + Width(src, dest) + src
    ensures Term(g, w, channels, ch, src, dest, col * dest + phase)(i) == 0.0
  {
    hide Weight, Width, Frame;
    var j := i - col * src;
    OutsideWeight(g, src, dest, col, phase, j);
    assert col * src + j == i;
  }

  /** Nor does one outside the input. */
  lemma TermOutsideInput(g: Trig, w: seq<real>, channels: nat, ch: nat, src: nat, dest: nat, n: int, i: int)
    requires ch < channels && src > 0 && dest > 0 && !(0 <= i < |w| / channels)
    ensures Term(g, w, channels, ch, src, dest, n)(i) == 0.0
  {
    hide Weight, Frame;
    FrameOutside(w, channels, ch, i);
  }

  lemma FrameOutside(w: seq<real>, channels: nat, ch: nat, i: int)
    requires ch < channels && !(0 <= i < |w| / channels)
    ensures Frame(w, channels, ch, i) == 0.0
  {
  }

  lemma OutsideWeight(g: Trig, src: nat, dest: nat, col: nat, phase: nat, j: int)
    requires src > 0 && dest > 0 && phase < dest
    requires j < -Width(src, dest) || j >= Width(src, dest) + src
    ensures Weight(g, src, dest, col * src + j, col * dest + phase) == 0.0
  {
    hide Time, PhaseTime, Width, CutKernel;
    PhaseTimeIsTime(src, dest, col, phase, j);
    OutsideRow(src, dest, phase, j);
    CutsOutside(g, PhaseTime(src, dest, phase, j));
  }

  lemma CutsOutside(g: Trig, t: real)
    requires t <= -LOWPASS_WIDTH || t >= LOWPASS_WIDTH
    ensures CutKernel(g, t) == 0.0
  {
  }

  /** The program's table entry is the weight of the frame it is applied to. */
  lemma EntryIsWeight(g: Trig, src: nat, dest: nat, width: nat, col: nat, phase: nat, k: nat)
    requires Lawful(g) && src > 0 && phase < dest
    ensures KernelEntry(g, src, dest, width, phase, k) == Weight(g, src, dest, col * src - width + k, col * dest + phase)
  {
    hide Time, PhaseTime, CutKernel, WindowedSinc, Scale;
    PhaseTimeIsTime(src, dest, col, phase, k - width);
    ClampCuts(g, PhaseTime(src, dest, phase, k - width));
  }

  /** One channel, padded by `width` zeros on the left and `width + src` on the right. */
  method PadChannel(w: seq<real>, channels: nat, ch: nat, width: nat, src: nat) returns (padded: array<real>)
    requires ch < channels
    ensures fresh(padded) && padded.Length == |w| / channels + 2 * width + src
    ensures forall j | 0 <= j < padded.Length :: padded[j] == Frame(w, channels, ch, j - width)
  {
    var inFrames := |w| / channels;
    padded := new real[inFrames + 2 * width + src](_ => 0.0);
    for i := 0 to inFrames
      invariant forall j | 0 <= j < padded.Length ::
                  padded[j] == if width <= j < width + i then Frame(w, channels, ch, j - width) else 0.0
    {
      FrameIndex(|w|, channels, ch, i);
      padded[width + i] := w[i * channels + ch];
    }
  }

  /** The inner product of one kernel row with the padded channel. */
  method Convolve(padded: array<real>, kernels: array2<real>, phase: nat, start: nat, ghost f: int -> real, ghost lo: int)
    returns (acc: real)
    requires phase < kernels.Length0 && start + kernels.Length1 <= padded.Length
    requires forall k | 0 <= k < kernels.Length1 :: padded[start + k] * kernels[phase, k] == f(lo + k)
    ensures acc == Sum(f, lo, lo + kernels.Length1)
  {
    acc := 0.0;
    for k := 0 to kernels.Length1
      invariant acc == Sum(f, lo, lo + k)
    {
      acc := acc + padded[start + k] * kernels[phase, k];
    }
  }

  /** One output sample: a kernel row applied at the column's start. */
  method OutputSample(g: Trig, w: seq<real>, channels: nat, ch: nat, src: nat, dest: nat, width: nat, n: nat,
                      padded: array<real>, kernels: array2<real>) returns (acc: real)
    requires Lawful(g) && ch < channels && src > 0 && dest > 0 && width == Width(src, dest)
    requires n < TargetLength(src, dest, |w| / channels)
    requires padded.Length == |w| / channels + 2 * width + src
    requires forall j | 0 <= j < padded.Length :: padded[j] == Frame(w, channels, ch, j - width)
    requires kernels.Length0 == dest && kernels.Length1 == 2 * width + src
    requires forall p, k | 0 <= p < dest && 0 <= k < 2 * width + src ::
               kernels[p, k] == KernelEntry(g, src, dest, width, p, k)
    ensures acc == Convolution(g, w, channels, ch, src, dest, n)
  {
    hide Frame, Weight, KernelEntry, Width, Sum, Convolution, TargetLength;
    var phase := n % dest;
    var convCol := n / dest;
    var start := convCol * src;
    TapsInBounds(src, dest, |w| / channels, n);
    ghost var f := Term(g, w, channels, ch, src, dest, n);
    assert convCol * dest + phase == n;
    forall k | 0 <= k < kernels.Length1
      ensures padded[start + k] * kernels[phase, k] == f(start - width + k)
    {
      EntryIsWeight(g, src, dest, width, convCol, phase, k);
    }
    acc := Convolve(padded, kernels, phase, start, f, start - width);
    RowIsConvolution(g, w, channels, ch, src, dest, convCol, phase);
  }

  /** What the resampler promises of its output, sample by sample of the interleaved result. */
  ghost predicate IsResampled(g: Trig, w: seq<real>, channels: nat, src: nat, dest: nat, out: seq<real>)
    requires channels > 0 && src > 0 && dest > 0
  {
    && |out| == TargetLength(src, dest, |w| / channels) * channels
    && forall p | 0 <= p < |out| :: out[p] == Convolution(g, w, channels, p % channels, src, dest, p / channels)
  }

  /** The same in the caller's terms: as many frames as the input lasts, each one the input filtered at 0.99 times the
      lower rate and read at the time of the frame. */
  ghost predicate IsFiltered(g: Trig, w: seq<real>, channels: nat, src: nat, dest: nat, out: seq<real>)
    requires channels > 0 && src > 0 && dest > 0
  {
    && (exists n :: IsDuration(n, src, dest, |w| / channels) && |out| == n * channels)
    && forall f: real, p | IsCutoff(f, src, dest) && 0 <= p < |out| ::
         out[p] == Sum(Filtered(g, w, channels, p % channels, src, dest, f, p / channels), 0, |w| / channels)
  }

  lemma ResampledIsFiltered(g: Trig, w: seq<real>, channels: nat, src: nat, dest: nat, out: seq<real>)
    requires channels > 0 && src > 0 && dest > 0 && IsResampled(g, w, channels, src, dest, out)
    ensures IsFiltered(g, w, channels, src, dest, out)
  {
    hide Convolution, TargetLength, Filtered, Sum, IsCutoff;
    LengthIsDuration(src, dest, |w| / channels);
    forall f: real, p | IsCutoff(f, src, dest) && 0 <= p < |out|
      ensures out[p] == Sum(Filtered(g, w, channels, p % channels, src, dest, f, p / channels), 0, |w| / channels)
    {
      ConvolutionIsFiltered(g, w, channels, p % channels, src, dest, f, p / channels);
    }
  }

  lemma FlatIndex(channels: nat, ch: nat, n: nat, target: nat)
    requires ch < channels && n < target
    ensures 0 <= n * channels + ch < target * channels
    ensures (n * channels + ch) / channels == n && (n * channels + ch) % channels == ch
  {
    PartsBelow(n, ch, channels, target);
    DivModUnique(n * channels + ch, channels, n, ch);
  }

  lemma SameFlatIndex(p: nat, channels: nat, ch: nat, n: nat)
    requires channels > 0 && p / channels == n && p % channels == ch
    ensures p == n * channels + ch
  {
  }

  lemma FlatIndexBelow(p: nat, channels: nat, target: nat)
    requires channels > 0 && p < target * channels
    ensures p / channels < target
  {
    if p / channels >= target {
      MulMonotone(target, p / channels, channels, channels);
    }
  }

  /** Write every output sample of one channel, leaving the other channels alone. */
  method FillChannel(g: Trig, w: seq<real>, channels: nat, ch: nat, src: nat, dest: nat, width: nat, target: nat,
                     kernels: array2<real>, output: array<real>)
    requires Lawful(g) && ch < channels && src > 0 && dest > 0 && width == Width(src, dest)
    requires target == TargetLength(src, dest, |w| / channels) && output.Length == target * channels
    requires kernels.Length0 == dest && kernels.Length1 == 2 * width + src
    requires forall p, k | 0 <= p < dest && 0 <= k < 2 * width + src ::
               kernels[p, k] == KernelEntry(g, src, dest, width, p, k)
    modifies output
    ensures forall p | 0 <= p < output.Length ::
              output[p] == if p % channels == ch then Convolution(g, w, channels, ch, src, dest, p / channels)
                           else old(output[p])
  {
    hide KernelEntry, Convolution, TargetLength, Width, Frame;
    var padded := PadChannel(w, channels, ch, width, src);
    for outIdx := 0 to target
      invariant forall j | 0 <= j < padded.Length :: padded[j] == Frame(w, channels, ch, j - width)
      invariant forall p | 0 <= p < output.Length ::
                  output[p] == if p % channels == ch && p / channels < outIdx
                               then Convolution(g, w, channels, ch, src, dest, p / channels)
                               else old(output[p])
    {
      var acc := OutputSample(g, w, channels, ch, src, dest, width, outIdx, padded, kernels);
      FlatIndex(channels, ch, outIdx, target);
      ghost var before := output[..];
      output[outIdx * channels + ch] := acc;
      forall p | 0 <= p < output.Length
        ensures output[p] == if p % channels == ch && p / channels < outIdx + 1
                             then Convolution(g, w, channels, ch, src, dest, p / channels)
                             else old(output[p])
      {
        assert before[p] == if p % channels == ch && p / channels < outIdx
                            then Convolution(g, w, channels, ch, src, dest, p / channels)
                            else old(output[p]);
        if p % channels == ch && p / channels == outIdx {
          SameFlatIndex(p, channels, ch, outIdx);
        }
      }
    }
    forall p | 0 <= p < output.Length ensures p / channels < target {
      FlatIndexBelow(p, channels, target);
    }
  }

  /** The rates are divided by their gcd, which changes neither the length nor any sample. */
  lemma ReducedRates(g: Trig, w: seq<real>, channels: nat, src: nat, dest: nat, q: nat, out: seq<real>)
    requires channels > 0 && q > 0 && Divides(q, src) && Divides(q, dest) && src > 0 && dest > 0
    requires src / q > 0 && dest / q > 0 && IsResampled(g, w, channels, src / q, dest / q, out)
    ensures IsResampled(g, w, channels, src, dest, out)
  {
    hide Convolution, TargetLength;
    var s, d := src / q, dest / q;
    assert src == s * q && dest == d * q;
    TargetLengthCommonFactor(s, d, q, |w| / channels);
    forall p | 0 <= p < |out| ensures out[p] == Convolution(g, w, channels, p % channels, src, dest, p / channels) {
      ConvolutionCommonFactor(g, w, channels, p % channels, s, d, q, p / channels);
    }
  }

  lemma DivisorQuotient(d: nat, a: nat)
    requires a > 0 && Divides(d, a)
    ensures a / d > 0
  {
    assert a == a / d * d;
  }

  lemma TargetNonnegative(src: nat, dest: nat, frames: nat)
    requires src > 0
    ensures TargetLength(src, dest, frames) >= 0
  {
    assert dest * frames >= 0;
    var q := (dest * frames) as real / src as real;
    assert q >= 0.0;
  }

  /** The whole resampler. Equal rates return the waveform as it is. */
  method TorchSincResample(g: Trig, waveform: seq<real>, channels: nat, origFreq: nat, newFreq: nat)
    returns (resampled: seq<real>)
    requires Lawful(g) && channels > 0 && origFreq > 0 && newFreq > 0
    ensures if origFreq == newFreq then resampled == waveform
            else IsResampled(g, waveform, channels, origFreq, newFreq, resampled)
    ensures origFreq != newFreq ==> IsFiltered(g, waveform, channels, origFreq, newFreq, resampled)
  {
    hide KernelEntry, Convolution, TargetLength, Width, BaseFreq, IsFiltered;
    if origFreq == newFreq {
      return waveform;
    }
    var q := GcdInt(origFreq, newFreq);
    GcdIsGreatest(origFreq, newFreq, q);
    assert Divides(q, q);
    DivisorQuotient(q, origFreq);
    DivisorQuotient(q, newFreq);
    var src, dest := origFreq / q, newFreq / q;

    var inFrames := |waveform| / channels;
    TargetNonnegative(src, dest, inFrames);
    var targetLength := TargetLength(src, dest, inFrames);
    WidthCovers(src, dest);
    var width := Width(src, dest);
    var kernels := BuildKernels(g, src, dest, width);

    assert targetLength * channels >= 0;
    var output := new real[targetLength * channels](_ => 0.0);
    for ch := 0 to channels
      invariant forall p, k | 0 <= p < dest && 0 <= k < 2 * width + src ::
                  kernels[p, k] == KernelEntry(g, src, dest, width, p, k)
      invariant forall p | 0 <= p < output.Length && p % channels < ch ::
                  output[p] == Convolution(g, waveform, channels, p % channels, src, dest, p / channels)
    {
      FillChannel(g, waveform, channels, ch, src, dest, width, targetLength, kernels, output);
    }
    resampled := output[..];
    ReducedRates(g, waveform, channels, origFreq, newFreq, q, resampled);
    ResampledIsFiltered(g, waveform, channels, origFreq, newFreq, resampled);
  }
}
