/**
 Seeding of the PCG64 generator with NumPy's SeedSequence algorithm
 (pkg/sampler/pcg64.go, initSeedSequence): entropy words are hashed into a pool of four
 words, the pool is cross-mixed, and eight output words are drawn from it.

 Every stage is a bijection of the pool, so no two seeds are ever merged.
 */
module PcgSeed {
  import opened Words
  import opened Lcg
  import opened Pcg64

  // ----- The hash steps -----

  function XorShift(x: uint32): uint32 {
    ShrBound(x, X_SHIFT);
    Xor32(x, Shr(x, X_SHIFT))
  }

  lemma {:induction false} ShrBound(a: nat, k: nat)
    ensures Shr(a, k) <= a
  {
    if k != 0 {
      ShrBound(a / 2, k - 1);
    }
  }

  /** 32-bit multiplication, wrapping. */
  function Mul32(a: uint32, b: uint32): uint32 {
    assert a * b >= 0;
    a * b % TWO32
  }

  /** 32-bit subtraction, wrapping. */
  function Sub32(a: uint32, b: uint32): uint32 {
    (a - b) % TWO32
  }

  /** The value half of `hashmix`, with the constant before and after its update. */
  function HashValue(value: uint32, c: uint32, next: uint32): uint32 {
    XorShift(Mul32(Xor32(value, c), next))
  }

  /** hashmix: the mixed value and the updated constant. */
  function HashMix(value: uint32, c: uint32): (uint32, uint32) {
    var next := Mul32(c, MULT_A);
    (HashValue(value, c, next), next)
  }

  function Mix(x: uint32, y: uint32): uint32 {
    XorShift(Sub32(Mul32(MIX_MULT_L, x), Mul32(MIX_MULT_R, y)))
  }

  // ----- Each hash step loses nothing -----

  lemma XorShiftInjective(x: uint32, y: uint32)
    requires XorShift(x) == XorShift(y)
    ensures x == y
  {
    UndoXorShift(x);
    UndoXorShift(y);
  }

  lemma UndoXorShift(x: uint32)
    ensures Xor(XorShift(x), Shr(XorShift(x), X_SHIFT)) == x
  {
    var s := Shr(x, X_SHIFT);
    XorShr(x, s, X_SHIFT);
    ShrTwice(x);
    XorZero(s);
    XorCancel(x, s);
  }

  lemma ShrTwice(x: uint32)
    ensures Shr(Shr(x, X_SHIFT), X_SHIFT) == 0
  {
    Pow2Values();
    ShrIsDivision(x, X_SHIFT);
    ShrIsDivision(Shr(x, X_SHIFT), X_SHIFT);
  }

  /** Multiplying by an odd number is injective modulo 2^32. */
  lemma Mul32Injective(x: uint32, y: uint32, n: uint32)
    requires n % 2 == 1 && Mul32(x, n) == Mul32(y, n)
    ensures x == y
  {
    Pow2Values();
    AffineInjective(n, 0, 32, x, y);
  }

  lemma Mul32Comm(x: uint32, y: uint32)
    ensures Mul32(x, y) == Mul32(y, x)
  {
    assert x * y == y * x;
  }

  lemma Mul32Odd(x: uint32, y: uint32)
    requires x % 2 == 1 && y % 2 == 1
    ensures Mul32(x, y) % 2 == 1
  {
    OddTimes(x, y);
    WrapParity(x * y);
  }

  lemma WrapParity(x: nat)
    ensures x % TWO32 % 2 == x % 2
  {
  }

  lemma HashValueInjective(v: uint32, w: uint32, c: uint32, next: uint32)
    requires next % 2 == 1 && HashValue(v, c, next) == HashValue(w, c, next)
    ensures v == w
  {
    XorShiftInjective(Mul32(Xor32(v, c), next), Mul32(Xor32(w, c), next));
    Mul32Injective(Xor32(v, c), Xor32(w, c), next);
    XorInjective(v, w, c);
  }

  lemma MixInjective(x: uint32, x': uint32, y: uint32)
    requires Mix(x, y) == Mix(x', y)
    ensures x == x'
  {
    hide Mul32, Sub32, XorShift;
    var u, u', k := Mul32(MIX_MULT_L, x), Mul32(MIX_MULT_L, x'), Mul32(MIX_MULT_R, y);
    XorShiftInjective(Sub32(u, k), Sub32(u', k));
    Sub32Injective(u, u', k);
    Mul32Comm(MIX_MULT_L, x);
    Mul32Comm(MIX_MULT_L, x');
    Mul32Injective(x, x', MIX_MULT_L);
  }

  lemma Sub32Injective(u: uint32, u': uint32, k: uint32)
    requires Sub32(u, k) == Sub32(u', k)
    ensures u == u'
  {
  }

  // ----- The pool -----

  type Pool = p: seq<uint32> | |p| == 4 witness [0, 0, 0, 0]

  /** The seed as 32-bit words, least significant first; zero is one word. */
  function EntropyWords(s: uint64): (e: seq<uint32>) {
    if s == 0 then [] else [s % TWO32] + EntropyWords(s / TWO32)
  }

  function Entropy(seed: uint64): seq<uint32> {
    if seed == 0 then [0] else EntropyWords(seed)
  }

  function Padded(e: seq<uint32>, i: nat): uint32 {
    if i < |e| then e[i] else 0
  }

  /** A 64-bit seed is at most two words, so it always fits into the pool, and the padded words give it back. */
  lemma EntropyOfSeed(seed: uint64)
    ensures |Entropy(seed)| <= 2
    ensures Padded(Entropy(seed), 0) + Padded(Entropy(seed), 1) * TWO32 == seed
  {
    var hi := seed / TWO32;
    assert EntropyWords(hi) == if hi == 0 then [] else [hi] by {
      assert hi / TWO32 == 0;
      assert EntropyWords(0) == [];
    }
  }

  /** The hash constant after `k` updates. */
  function HashConst(c: uint32, mult: uint32, k: nat): uint32 {
    if k == 0 then c else Mul32(HashConst(c, mult, k - 1), mult)
  }

  lemma {:induction false} HashConstOdd(c: uint32, mult: uint32, k: nat)
    requires c % 2 == 1 && mult % 2 == 1
    ensures HashConst(c, mult, k) % 2 == 1
  {
    if k != 0 {
      HashConstOdd(c, mult, k - 1);
      Mul32Odd(HashConst(c, mult, k - 1), mult);
    }
  }

  /** The pool after hashing in the entropy words. */
  function FilledPool(e: seq<uint32>): Pool {
    seq(POOL_SIZE, i requires 0 <= i < POOL_SIZE =>
      HashValue(Padded(e, i), HashConst(INIT_A, MULT_A, i), HashConst(INIT_A, MULT_A, i + 1)))
  }

  /** One (source, target) pair of the cross mix; a word is not mixed into itself. */
  function CrossStep(p: Pool, c: uint32, src: nat, dst: nat): (Pool, uint32)
    requires src < POOL_SIZE && dst < POOL_SIZE
  {
    if src == dst then (p, c)
    else
      var (mixed, c') := HashMix(p[src], c);
      (p[dst := Mix(p[dst], mixed)], c')
  }

  /** The pool and constant after the first `k` of the sixteen pairs, targets running fastest. */
  function CrossMix(p: Pool, c: uint32, k: nat): (Pool, uint32)
    requires k <= POOL_SIZE * POOL_SIZE
  {
    if k == 0 then (p, c)
    else
      var (q, d) := CrossMix(p, c, k - 1);
      CrossStep(q, d, (k - 1) / POOL_SIZE, (k - 1) % POOL_SIZE)
  }

  /** Cross mixing merges no two pools, whatever the constants. */
  lemma {:induction false} CrossMixInjective(p: Pool, q: Pool, c: uint32, k: nat)
    requires k <= POOL_SIZE * POOL_SIZE
    ensures CrossMix(p, c, k).1 == CrossMix(q, c, k).1
    ensures CrossMix(p, c, k).0 == CrossMix(q, c, k).0 ==> p == q
  {
    if k == 0 {
    } else {
      CrossMixInjective(p, q, c, k - 1);
      var (p', d) := CrossMix(p, c, k - 1);
      var q' := CrossMix(q, c, k - 1).0;
      CrossStepInjective(p', q', d, (k - 1) / POOL_SIZE, (k - 1) % POOL_SIZE);
    }
  }

  lemma CrossStepInjective(p: Pool, q: Pool, c: uint32, src: nat, dst: nat)
    requires src < POOL_SIZE && dst < POOL_SIZE
    ensures CrossStep(p, c, src, dst).1 == CrossStep(q, c, src, dst).1
    ensures CrossStep(p, c, src, dst).0 == CrossStep(q, c, src, dst).0 ==> p == q
  {
    var p', q' := CrossStep(p, c, src, dst).0, CrossStep(q, c, src, dst).0;
    if src != dst && p' == q' {
      assert forall i | 0 <= i < POOL_SIZE && i != dst :: p[i] == p'[i] == q'[i] == q[i];
      assert p'[dst] == q'[dst];
      MixInjective(p[dst], q[dst], HashMix(p[src], c).0);
    }
  }

  function MixedPool(seed: uint64): Pool {
    CrossMix(FilledPool(Entropy(seed)), HashConst(INIT_A, MULT_A, POOL_SIZE), POOL_SIZE * POOL_SIZE).0
  }

  /** Word `i` of the generated state. */
  function StateWord(p: Pool, i: nat): uint32 {
    HashValue(p[i % POOL_SIZE], HashConst(INIT_B, MULT_B, i), HashConst(INIT_B, MULT_B, i + 1))
  }

  /** Two generated words joined with the later one on top. */
  function StateWord64(p: Pool, i: nat): uint64 {
    StateWord(p, 2 * i) + StateWord(p, 2 * i + 1) * TWO32
  }

  lemma FilledPoolInjective(e: seq<uint32>, f: seq<uint32>, i: nat)
    requires FilledPool(e) == FilledPool(f) && i < POOL_SIZE
    ensures Padded(e, i) == Padded(f, i)
  {
    hide HashValue, HashConst;
    assert FilledPool(e)[i] == FilledPool(f)[i];
    HashConstOdd(INIT_A, MULT_A, i + 1);
    HashValueInjective(Padded(e, i), Padded(f, i), HashConst(INIT_A, MULT_A, i), HashConst(INIT_A, MULT_A, i + 1));
  }

  lemma StateWordInjective(p: Pool, q: Pool, i: nat)
    requires i < POOL_SIZE && StateWord(p, i) == StateWord(q, i)
    ensures p[i] == q[i]
  {
    hide HashValue, HashConst;
    HashConstOdd(INIT_B, MULT_B, i + 1);
    assert i % POOL_SIZE == i;
    HashValueInjective(p[i], q[i], HashConst(INIT_B, MULT_B, i), HashConst(INIT_B, MULT_B, i + 1));
  }

  lemma StateWord64Injective(p: Pool, q: Pool, i: nat)
    requires i < 2 && StateWord64(p, i) == StateWord64(q, i)
    ensures p[2 * i] == q[2 * i] && p[2 * i + 1] == q[2 * i + 1]
  {
    hide StateWord;
    JoinInjective(StateWord(p, 2 * i), StateWord(p, 2 * i + 1), StateWord(q, 2 * i), StateWord(q, 2 * i + 1));
    StateWordInjective(p, q, 2 * i);
    StateWordInjective(p, q, 2 * i + 1);
  }

  lemma JoinInjective(lo: uint32, hi: uint32, lo': uint32, hi': uint32)
    requires lo + hi * TWO32 == lo' + hi' * TWO32
    ensures lo == lo' && hi == hi'
  {
  }

  lemma StateWordsDeterminePool(p: Pool, q: Pool)
    requires StateWord64(p, 0) == StateWord64(q, 0) && StateWord64(p, 1) == StateWord64(q, 1)
    ensures p == q
  {
    hide StateWord64;
    StateWord64Injective(p, q, 0);
    StateWord64Injective(p, q, 1);
    assert p == [p[0], p[1], p[2], p[3]] && q == [q[0], q[1], q[2], q[3]];
  }

  lemma MixedPoolInjective(s: uint64, t: uint64)
    requires MixedPool(s) == MixedPool(t)
    ensures s == t
  {
    var e, f := Entropy(s), Entropy(t);
    CrossMixInjective(FilledPool(e), FilledPool(f), HashConst(INIT_A, MULT_A, POOL_SIZE), POOL_SIZE * POOL_SIZE);
    FilledPoolInjective(e, f, 0);
    FilledPoolInjective(e, f, 1);
    EntropyOfSeed(s);
    EntropyOfSeed(t);
  }

  /** The first two 64-bit output words already determine the seed. */
  lemma StateWordsDetermineSeed(s: uint64, t: uint64)
    requires StateWord64(MixedPool(s), 0) == StateWord64(MixedPool(t), 0)
    requires StateWord64(MixedPool(s), 1) == StateWord64(MixedPool(t), 1)
    ensures s == t
  {
    StateWordsDeterminePool(MixedPool(s), MixedPool(t));
    MixedPoolInjective(s, t);
  }
}
