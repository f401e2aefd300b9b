/**
 The PCG64 generator object (pkg/sampler/pcg64.go) and what its whole runs promise: every seed
 gives a different generator, each one has period exactly 2^128, and over one period every
 64-bit output occurs exactly 2^64 times.
 */
module PcgGenerator {
  import opened Words
  import opened Lcg
  import opened Pcg64
  import opened PcgSeed

  /** The 64-bit word that holds a signed seed. */
  function SeedWord(seed: int): uint64
    requires -0x8000_0000_0000_0000 <= seed < 0x8000_0000_0000_0000
  {
    if seed < 0 then seed + TWO64 else seed
  }

  ghost function SeededInc(seed: uint64): nat {
    var p := MixedPool(seed);
    2 * Val(StateWord64(p, 2), StateWord64(p, 3)) % TWO128 + 1
  }

  ghost function SeededStart(seed: uint64): nat {
    var p := MixedPool(seed);
    Val(StateWord64(p, 0), StateWord64(p, 1))
  }

  /** The state before the first draw, from the increment and the start value. */
  ghost function FirstState(inc: nat, start: nat): nat {
    Next((Next(0, inc) + start) % TWO128, inc)
  }

  ghost function SeededState(seed: uint64): nat {
    FirstState(SeededInc(seed), SeededStart(seed))
  }

  /** The increment and the state that the words drawn from the pool give: with `w0` to `w3` drawn in this order, the
      increment is the odd number 2 (w2, w3) + 1, and the state is one multiplication of it with (w0, w1) added. */
  ghost predicate SeededFrom(pool: Pool, inc: nat, state: nat) {
    var w := seq(4, i requires 0 <= i < 4 => StateWord64(pool, i));
    && inc == (2 * (w[2] * TWO64 + w[3]) + 1) % TWO128
    && state == (0x2360ED051FC65DA44385DF649FCCF645 * (inc + w[0] * TWO64 + w[1]) + inc) % TWO128
  }

  lemma SeedWordIs(seed: int)
    requires -0x8000_0000_0000_0000 <= seed < 0x8000_0000_0000_0000
    ensures SeedWord(seed) == seed % TWO64
  {
  }

  /** Step, add, step: one multiplication in all, since the first step starts from zero. */
  lemma StateInClosedForm(inc: nat, start: nat)
    requires inc < TWO128
    ensures FirstState(inc, start) == (0x2360ED051FC65DA44385DF649FCCF645 * (inc + start) + inc) % TWO128
  {
    var x := inc + start;
    assert Next(0, inc) == inc;
    WrapTimes(MULT, x, TWO128);
    WrapSum(MULT * (x % TWO128), MULT * (x % TWO128) % TWO128, inc, TWO128);
    WrapSum(MULT * x, MULT * x % TWO128, inc, TWO128);
  }

  /** Reducing a factor first changes no product modulo m. */
  lemma WrapTimes(a: nat, x: nat, m: nat)
    requires m > 0
    ensures a * (x % m) >= 0 && a * x >= 0 && a * (x % m) % m == a * x % m
  {
    var q, r := x / m, x % m;
    var q', r' := a * r / m, a * r % m;
    MulMonotone(0, a, 0, r);
    MulMonotone(0, a, 0, x);
    MulMonotone(0, a, 0, q);
    assert a * x == a * (q * m + r) == a * q * m + a * r;
    assert a * r == q' * m + r';
    assert (a * q + q') * m == a * q * m + q' * m;
    DivModUnique(a * x, m, a * q + q', r');
  }

  lemma SeededInClosedForm(seed: uint64)
    ensures SeededFrom(MixedPool(seed), SeededInc(seed), SeededState(seed))
  {
    hide MixedPool, StateWord64;
    var p := MixedPool(seed);
    SeededIncOdd(seed);
    StateInClosedForm(SeededInc(seed), SeededStart(seed));
    DoubledPlusOne(Val(StateWord64(p, 2), StateWord64(p, 3)), TWO128);
  }

  lemma DoubledPlusOne(v: nat, m: nat)
    requires m > 0 && m % 2 == 0
    ensures 2 * v % m + 1 == (2 * v + 1) % m
  {
    OddBelow(v, m);
    DivModUnique(2 * v + 1, m, 2 * v / m, 2 * v % m + 1);
  }

  ghost function Next(state: nat, inc: nat): (s: nat)
    ensures s < TWO128
  {
    assert MULT * state >= 0;
    (MULT * state + inc) % TWO128
  }

  class PCG64 {
    var stateHi: uint64
    var stateLo: uint64
    var incHi: uint64
    var incLo: uint64

    ghost function State(): nat
      reads this
    {
      Val(stateHi, stateLo)
    }

    ghost function Inc(): nat
      reads this
    {
      Val(incHi, incLo)
    }

    constructor (seed: int)
      requires -0x8000_0000_0000_0000 <= seed < 0x8000_0000_0000_0000
      ensures State() == SeededState(SeedWord(seed)) && Inc() == SeededInc(SeedWord(seed))
      ensures SeededFrom(MixedPool(seed % TWO64), Inc(), State())
    {
      stateHi, stateLo, incHi, incLo := 0, 0, 0, 0;
      new;
      SeedWordIs(seed);
      InitSeedSequence(SeedWord(seed));
    }

    method InitSeedSequence(seed: uint64)
      modifies this
      ensures State() == SeededState(seed) && Inc() == SeededInc(seed)
      ensures SeededFrom(MixedPool(seed), Inc(), State())
    {
      SeededInClosedForm(seed);
      var entropy := SplitSeed(seed);
      var pool := MixEntropy(seed, entropy);
      var state32 := GenerateState(pool);

      var w0, w1 := JoinWords(pool, state32, 0), JoinWords(pool, state32, 1);
      var w2, w3 := JoinWords(pool, state32, 2), JoinWords(pool, state32, 3);
      SetIncrement(w2, w3);
      SetStart(w0, w1);
    }

    /** Zero stepped, the start value added, and stepped again. */
    method SetStart(startHi: uint64, startLo: uint64)
      modifies `stateHi, `stateLo
      ensures State() == FirstState(Inc(), Val(startHi, startLo))
      ensures State() == (0x2360ED051FC65DA44385DF649FCCF645 * (Inc() + startHi * TWO64 + startLo) + Inc()) % TWO128
    {
      hide Next;
      ValBounds(incHi, incLo);
      StateInClosedForm(Inc(), Val(startHi, startLo));
      stateHi, stateLo := 0, 0;
      Step();
      var s := Add128Mod(stateHi, stateLo, startHi, startLo);
      stateHi, stateLo := s.0, s.1;
      Step();
    }

    /** The sequence number doubled, with the lowest bit set so that the increment is odd. */
    method SetIncrement(seqHi: uint64, seqLo: uint64)
      modifies `incHi, `incLo
      ensures Inc() == 2 * Val(seqHi, seqLo) % TWO128 + 1
    {
      var (hi, lo) := ShiftLeft1(seqHi, seqLo);
      EvenLow(hi, lo, Val(seqHi, seqLo));
      OrCarry(lo, 1);
      incHi, incLo := hi, Or(lo, 1);
    }

    /** Advance the state: multiply by the constant and add the increment, modulo 2^128. */
    method Step()
      modifies `stateHi, `stateLo
      ensures State() == Next(old(State()), Inc())
    {
      var p := Mul128Mod(stateHi, stateLo, MULT_HI, MULT_LO);
      var s := Add128Mod(p.0, p.1, incHi, incLo);
      WrapTwice(Val(stateHi, stateLo), Val(p.0, p.1), Inc());
      stateHi, stateLo := s.0, s.1;
    }

    method NextUint64() returns (r: uint64)
      modifies `stateHi, `stateLo
      ensures State() == Next(old(State()), Inc())
      ensures r == Output(stateHi, stateLo)
    {
      Step();
      var xorred := Xor64(stateHi, stateLo);
      var rot := Shr(stateHi, 58);
      OutputIsRotation(stateHi, stateLo);
      r := Rotr64(xorred, rot);
    }

    /** The top 53 bits of the next output as a fraction. */
    method Float64() returns (x: real)
      modifies `stateHi, `stateLo
      ensures State() == Next(old(State()), Inc())
      ensures 0.0 <= x < 1.0
      ensures exists r: uint64 :: r == Output(stateHi, stateLo) && x * Pow2(53) as real == (r / 2048) as real
    {
      var r := NextUint64();
      ShrIsDivision(r, 11);
      Pow2Values();
      x := Shr(r, 11) as real / 9007199254740992.0;
    }
  }

  /** The seed cut into 32-bit words, least significant first. */
  method SplitSeed(seed: uint64) returns (entropy: seq<uint32>)
    ensures entropy == Entropy(seed)
  {
    if seed == 0 {
      return [0];
    }
    entropy := [];
    var s := seed;
    while s > 0
      invariant 0 <= s < TWO64
      invariant entropy + EntropyWords(s) == EntropyWords(seed)
    {
      entropy := entropy + [s % TWO32];
      s := s / TWO32;
    }
  }

  /** Hash the entropy into a pool and cross-mix it. A seed never has more words than the pool. */
  method MixEntropy(seed: uint64, entropy: seq<uint32>) returns (pool: Pool)
    requires entropy == Entropy(seed)
    ensures pool == MixedPool(seed)
  {
    var a := new uint32[4](_ => 0);
    var hashConst := FillPool(a, entropy);
    hashConst := CrossMixPool(a, hashConst);
    EntropyOfSeed(seed);
    assert |entropy| <= POOL_SIZE;
    pool := a[..];
  }

  method FillPool(a: array<uint32>, entropy: seq<uint32>) returns (hashConst: uint32)
    requires a.Length == POOL_SIZE
    modifies a
    ensures a[..] == FilledPool(entropy) && hashConst == HashConst(INIT_A, MULT_A, POOL_SIZE)
  {
    hashConst := INIT_A;
    for i := 0 to POOL_SIZE
      invariant hashConst == HashConst(INIT_A, MULT_A, i)
      invariant forall j | 0 <= j < i :: a[j] == FilledPool(entropy)[j]
    {
      var val: uint32 := 0;
      if i < |entropy| {
        val := entropy[i];
      }
      var (mixed, next) := HashMix(val, hashConst);
      a[i], hashConst := mixed, next;
    }
  }

  method CrossMixPool(a: array<uint32>, c: uint32) returns (hashConst: uint32)
    requires a.Length == POOL_SIZE
    modifies a
    ensures (a[..], hashConst) == CrossMix(old(a[..]), c, POOL_SIZE * POOL_SIZE)
  {
    hide CrossStep;
    hashConst := c;
    ghost var p: Pool := a[..];
    for iSrc := 0 to POOL_SIZE
      invariant (a[..], hashConst) == CrossMix(p, c, POOL_SIZE * iSrc)
    {
      for iDst := 0 to POOL_SIZE
        invariant (a[..], hashConst) == CrossMix(p, c, POOL_SIZE * iSrc + iDst)
      {
        CrossMixStep(p, c, iSrc, iDst);
        hashConst := CrossPair(a, hashConst, iSrc, iDst);
      }
    }
  }

  method CrossPair(a: array<uint32>, c: uint32, src: nat, dst: nat) returns (hashConst: uint32)
    requires a.Length == POOL_SIZE && src < POOL_SIZE && dst < POOL_SIZE
    modifies a
    ensures (a[..], hashConst) == CrossStep(old(a[..]), c, src, dst)
  {
    hashConst := c;
    if src != dst {
      var (mixed, next) := HashMix(a[src], c);
      a[dst], hashConst := Mix(a[dst], mixed), next;
    }
  }

  lemma CrossMixStep(p: Pool, c: uint32, src: nat, dst: nat)
    requires src < POOL_SIZE && dst < POOL_SIZE
    ensures var (q, d) := CrossMix(p, c, POOL_SIZE * src + dst);
            CrossMix(p, c, POOL_SIZE * src + dst + 1) == CrossStep(q, d, src, dst)
  {
    assert (POOL_SIZE * src + dst) / POOL_SIZE == src && (POOL_SIZE * src + dst) % POOL_SIZE == dst;
  }

  /** Draw eight words from the pool, going round it twice. */
  method GenerateState(pool: Pool) returns (state32: seq<uint32>)
    ensures |state32| == 8 && forall i | 0 <= i < 8 :: state32[i] == StateWord(pool, i)
  {
    var a := new uint32[8](_ => 0);
    var hashConst := INIT_B;
    var poolIdx := 0;
    for iDst := 0 to 8
      invariant poolIdx == iDst && hashConst == HashConst(INIT_B, MULT_B, iDst)
      invariant forall j | 0 <= j < iDst :: a[j] == StateWord(pool, j)
    {
      var dataVal := pool[poolIdx % POOL_SIZE];
      poolIdx := poolIdx + 1;
      dataVal := Xor32(dataVal, hashConst);
      hashConst := Mul32(hashConst, MULT_B);
      dataVal := Mul32(dataVal, hashConst);
      dataVal := XorShift(dataVal);
      a[iDst] := dataVal;
    }
    state32 := a[..];
  }

  function JoinWords(ghost pool: Pool, state32: seq<uint32>, i: nat): (w: uint64)
    requires |state32| == 8 && i < 4
    requires state32[2 * i] == StateWord(pool, 2 * i) && state32[2 * i + 1] == StateWord(pool, 2 * i + 1)
    ensures w == StateWord64(pool, i)
  {
    JoinedWords(state32[2 * i], state32[2 * i + 1]);
    Or(state32[2 * i], state32[2 * i + 1] * TWO32)
  }

  lemma JoinedWords(lo: uint32, hi: uint32)
    ensures Or(lo, hi * TWO32) == lo + hi * TWO32
  {
    Pow2Values();
    OrDisjoint(lo, hi, 32);
  }

  lemma EvenLow(hi: uint64, lo: uint64, v: nat)
    requires Val(hi, lo) == 2 * v % TWO128
    ensures lo % 2 == 0
  {
    OddBelow(v, TWO128);
    LowParity(hi, lo, TWO64);
  }

  lemma LowParity(h: nat, l: nat, w: nat)
    requires w % 2 == 0 && h * w + l >= 0 && (h * w + l) % 2 == 0
    ensures l % 2 == 0
  {
    var u := w / 2;
    assert h * (2 * u) == 2 * (h * u);
  }

  lemma WrapTwice(state: nat, p: nat, inc: nat)
    requires state * MULT >= 0 && p == state * MULT % TWO128
    ensures (p + inc) % TWO128 == Next(state, inc)
  {
    hide Val;
    Commutes(state, MULT);
    WrapSum(state * MULT, p, inc, TWO128);
  }

  lemma Commutes(x: nat, y: nat)
    ensures x * y == y * x
  {
  }

  /** Reducing a summand first changes no sum modulo m. */
  lemma WrapSum(x: nat, p: nat, inc: nat, m: nat)
    requires m > 0 && p == x % m
    ensures (p + inc) % m == (x + inc) % m
  {
    var q, q', r := x / m, (p + inc) / m, (p + inc) % m;
    assert x == q * m + p && p + inc == q' * m + r;
    assert (q + q') * m == q * m + q' * m;
    DivModUnique(x + inc, m, q + q', r);
  }

  // ----- What whole runs promise -----

  /** The state after `n` steps. */
  ghost function After(state: nat, inc: nat, n: nat): (s: nat)
    requires state < TWO128
    ensures s < TWO128
  {
    Iterate(MULT, inc, TWO128, state, n)
  }

  lemma AfterOneIsNext(state: nat, inc: nat)
    requires state < TWO128
    ensures After(state, inc, 1) == Next(state, inc)
  {
    assert Iterate(MULT, inc, TWO128, state, 0) == state;
  }

  /** Every seeded increment is odd. */
  lemma SeededIncOdd(seed: uint64)
    ensures SeededInc(seed) % 2 == 1 && SeededInc(seed) < TWO128
  {
    hide MixedPool, StateWord64, Val;
    var p := MixedPool(seed);
    OddBelow(Val(StateWord64(p, 2), StateWord64(p, 3)), TWO128);
  }

  /** Twice a number, reduced by an even modulus, is even; so one more is odd and still below the modulus. */
  lemma OddBelow(v: nat, m: nat)
    requires m > 0 && m % 2 == 0
    ensures 2 * v % m % 2 == 0 && (2 * v % m + 1) % 2 == 1 && 2 * v % m + 1 < m
  {
    var q, r, h := 2 * v / m, 2 * v % m, m / 2;
    assert 2 * v == q * m + r;
    assert q * (2 * h) == 2 * (q * h);
    assert r == 2 * (v - q * h);
  }

  lemma MultiplierFacts()
    ensures MULT % 4 == 1 && MULT % 2 == 1 && Pow2(128) == TWO128
  {
    Pow2Values();
  }

  /** Full period: a run is back at its start exactly after multiples of 2^128 steps. */
  lemma FullPeriod128(state: nat, inc: nat, n: nat)
    requires state < TWO128 && inc % 2 == 1
    ensures After(state, inc, n) == state <==> n % TWO128 == 0
  {
    MultiplierFacts();
    FullPeriod(MULT, inc, 128, state, n);
  }

  /** Whatever the seed, the seeded generator is back at its first state exactly after multiples of 2^128 steps. */
  lemma SeededFullPeriod(seed: uint64, n: nat)
    ensures SeededState(seed) < TWO128
    ensures After(SeededState(seed), SeededInc(seed), n) == SeededState(seed) <==> n % TWO128 == 0
  {
    hide SeededInc, SeededStart, Next, After;
    SeededIncOdd(seed);
    FullPeriod128(SeededState(seed), SeededInc(seed), n);
  }

  /** Stepping is a bijection of the 128-bit states: every state has exactly one predecessor. */
  lemma StepBijective(t: nat, inc: nat) returns (s: nat)
    requires t < TWO128 && inc % 2 == 1
    ensures s < TWO128 && Next(s, inc) == t
    ensures forall s' | 0 <= s' < TWO128 && Next(s', inc) == t :: s' == s
  {
    s := After(t, inc, TWO128 - 1);
    FullPeriod128(t, inc, TWO128);
    IterateAdd(MULT, inc, TWO128, t, TWO128 - 1, 1);
    AfterOneIsNext(s, inc);
    forall s' | 0 <= s' < TWO128 && Next(s', inc) == t ensures s' == s {
      NextInjective(s', s, inc);
    }
  }

  lemma NextInjective(s: nat, s': nat, inc: nat)
    requires s < TWO128 && s' < TWO128 && Next(s, inc) == Next(s', inc)
    ensures s == s'
  {
    MultiplierFacts();
    AffineInjective(MULT, inc, 128, s, s');
  }

  /** Two different seeds never produce the same generator. */
  lemma SeedsDistinct(s: uint64, t: uint64)
    requires SeededState(s) == SeededState(t) && SeededInc(s) == SeededInc(t)
    ensures s == t
  {
    var inc := SeededInc(s);
    StartDetermined(inc, SeededStart(s), SeededStart(t));
    var p, q := MixedPool(s), MixedPool(t);
    ValInjective(StateWord64(p, 0), StateWord64(p, 1), StateWord64(q, 0), StateWord64(q, 1));
    StateWordsDetermineSeed(s, t);
  }

  lemma StartDetermined(inc: nat, a: nat, b: nat)
    requires a < TWO128 && b < TWO128 && FirstState(inc, a) == FirstState(inc, b)
    ensures a == b
  {
    var x := Next(0, inc);
    NextInjective((x + a) % TWO128, (x + b) % TWO128, inc);
    OffsetInjective(x, a, b);
  }

  lemma OffsetInjective(x: nat, a: nat, b: nat)
    requires a < TWO128 && b < TWO128 && (x + a) % TWO128 == (x + b) % TWO128
    ensures a == b
  {
  }

  /** Signed seeds are told apart by their words. */
  lemma SignedSeedsDistinct(s: int, t: int)
    requires -0x8000_0000_0000_0000 <= s < 0x8000_0000_0000_0000
    requires -0x8000_0000_0000_0000 <= t < 0x8000_0000_0000_0000
    requires SeededState(SeedWord(s)) == SeededState(SeedWord(t)) && SeededInc(SeedWord(s)) == SeededInc(SeedWord(t))
    ensures s == t
  {
    SeedsDistinct(SeedWord(s), SeedWord(t));
  }
}
