/**
 One seed followed through the whole generator: for seed 42 the state, the increment and the first
 output are those of NumPy's default generator, with which the program promises to agree.
 */
module PcgNumPy {
  import opened Words
  import opened Pcg64
  import opened PcgSeed
  import opened PcgGenerator

  // ----- Exclusive or, as the bit-vector theory computes it -----

  function Num(x: bv64): nat {
    x as nat
  }

  function LowBit(x: bv64): nat {
    if x & 1 == 0 then 0 else 1
  }

  /** A word is twice its upper bits plus its lowest. */
  lemma Halves(x: bv64)
    ensures Num(x) == 2 * Num(x >> 1) + LowBit(x)
  {
    var y := x >> 1;
    if x & 1 == 0 {
      Doubled(x, y);
    } else {
      DoubledPlusOne(x, y);
    }
  }

  lemma Doubled(x: bv64, y: bv64)
    requires y < 0x8000_0000_0000_0000 && x == y << 1
    ensures Num(x) == 2 * Num(y)
  {
  }

  lemma DoubledPlusOne(x: bv64, y: bv64)
    requires y < 0x8000_0000_0000_0000 && x == (y << 1) | 1
    ensures Num(x) == 2 * Num(y) + 1
  {
  }

  lemma HalfOf(x: bv64) returns (u: bv64, i: nat)
    ensures Num(x) == 2 * Num(u) + i && i == LowBit(x) && u == x >> 1
  {
    u, i := x >> 1, LowBit(x);
    Halves(x);
  }

  /** Halving the exclusive or of two words. */
  lemma XorHalves(x: bv64, y: bv64, u: bv64, v: bv64)
    requires u == x >> 1 && v == y >> 1
    ensures Num(x ^ y) == 2 * Num(u ^ v) + if LowBit(x) == LowBit(y) then 0 else 1
  {
    var z, w := x ^ y, u ^ v;
    assert z >> 1 == w && LowBit(z) == if LowBit(x) == LowBit(y) then 0 else 1;
    Halves(z);
  }

  lemma XorStep(a: nat, b: nat, a': nat, b': nat, i: nat, j: nat)
    requires a == 2 * a' + i && b == 2 * b' + j && i < 2 && j < 2
    ensures Xor(a, b) == 2 * Xor(a', b') + (if i == j then 0 else 1)
  {
  }

  lemma ZeroWord(x: bv64)
    requires Num(x) == 0
    ensures x == 0
  {
  }

  lemma Split(x: bv64, y: bv64) returns (u: bv64, v: bv64, i: nat, j: nat)
    ensures Num(x) == 2 * Num(u) + i && Num(y) == 2 * Num(v) + j && i < 2 && j < 2
    ensures Num(x ^ y) == 2 * Num(u ^ v) + if i == j then 0 else 1
  {
    hide Num, LowBit;
    u, i := HalfOf(x);
    v, j := HalfOf(y);
    XorHalves(x, y, u, v);
    LowBits(x, y);
  }

  lemma ZeroXor(x: bv64, y: bv64)
    requires Num(x) == 0 && Num(y) == 0
    ensures Num(x ^ y) == 0 && Xor(0, 0) == 0
  {
    ZeroWord(x);
    ZeroWord(y);
    assert x ^ y == 0;
  }

  lemma {:induction false} XorIsBitwise(x: bv64, y: bv64, k: nat)
    requires Num(x) < Pow2(k) && Num(y) < Pow2(k)
    ensures Xor(Num(x), Num(y)) == Num(x ^ y)
    decreases k
  {
    hide Xor, Num, LowBit;
    if k == 0 {
      assert Pow2(0) == 1;
      ZeroXor(x, y);
    } else {
      var u, v, i, j := Split(x, y);
      assert Pow2(k) == 2 * Pow2(k - 1);
      XorIsBitwise(u, v, k - 1);
      XorStep(Num(x), Num(y), Num(u), Num(v), i, j);
    }
  }

  lemma LowBits(x: bv64, y: bv64)
    ensures LowBit(x) < 2 && LowBit(y) < 2
  {
  }

  lemma XorIs(x: bv64, y: bv64)
    ensures Xor(x as int, y as int) == (x ^ y) as int
  {
    hide Xor;
    Pow2Values();
    XorIsBitwise(x, y, 64);
  }

  // ----- Single steps with known values -----

  lemma Hashed(v: uint32, c: uint32, next: uint32, x: uint32, p: uint32, r: uint32)
    requires Xor(v, c) == x && x * next >= 0 && x * next % TWO32 == p && Xor(p, p / TWO16) == r
    ensures HashValue(v, c, next) == r
  {
    hide Xor;
    Pow2Values();
    ShrIsDivision(p, X_SHIFT);
  }

  lemma Mixed(x: uint32, y: uint32, s: uint32, t: uint32, q: uint32, r: uint32)
    requires MIX_MULT_L * x >= 0 && MIX_MULT_L * x % TWO32 == s && MIX_MULT_R * y >= 0 && MIX_MULT_R * y % TWO32 == t
    requires (s - t) % TWO32 == q && Xor(q, q / TWO16) == r
    ensures Mix(x, y) == r
  {
    hide Xor;
    Pow2Values();
    ShrIsDivision(q, X_SHIFT);
  }

  /** Pair `k` of the cross mix, which mixes `m` into the word `y`. */
  lemma PairMixed(p: Pool, c: uint32, k: nat, q: Pool, d: uint32, next: uint32, m: uint32, q': Pool)
    requires k < 16 && k / 4 != k % 4 && CrossMix(p, c, k) == (q, d) && d * MULT_A >= 0 && d * MULT_A % TWO32 == next
    requires HashValue(q[k / 4], d, next) == m && q' == q[k % 4 := Mix(q[k % 4], m)]
    ensures CrossMix(p, c, k + 1) == (q', next)
  {
    hide HashValue, Mix;
  }

  lemma PairSkipped(p: Pool, c: uint32, k: nat)
    requires k < 16 && k / 4 == k % 4
    ensures CrossMix(p, c, k + 1) == CrossMix(p, c, k)
  {
  }

  // ----- Seed 42 -----
  const FILLED: Pool := [0x967c02db, 0x8a9c19d9, 0x894cfdd1, 0x30409f75]
  const FILLED_CONST: uint32 := 0x9205b1d5

  lemma PoolFilled()
    ensures FilledPool(Entropy(42)) == FILLED && HashConst(INIT_A, MULT_A, POOL_SIZE) == FILLED_CONST
  {
    hide Xor, HashValue;
    assert EntropyWords(0) == [] && EntropyWords(42) == [42];
    assert HashConst(INIT_A, MULT_A, 0) == 0x43b0d7e5;
    assert HashConst(INIT_A, MULT_A, 1) == 0xae5a53a9;
    assert HashConst(INIT_A, MULT_A, 2) == 0x8488043d;
    assert HashConst(INIT_A, MULT_A, 3) == 0x5a9057e1;
    assert HashConst(INIT_A, MULT_A, 4) == 0x9205b1d5;
    XorIs(0x0000002a, 0x43b0d7e5);
    XorIs(0x967c94a7, 0x0000967c);
    Hashed(0x0000002a, 0x43b0d7e5, 0xae5a53a9, 0x43b0d7cf, 0x967c94a7, 0x967c02db);
    XorIs(0x00000000, 0xae5a53a9);
    XorIs(0x8a9c9345, 0x00008a9c);
    Hashed(0x00000000, 0xae5a53a9, 0x8488043d, 0xae5a53a9, 0x8a9c9345, 0x8a9c19d9);
    XorIs(0x00000000, 0x8488043d);
    XorIs(0x894c749d, 0x0000894c);
    Hashed(0x00000000, 0x8488043d, 0x5a9057e1, 0x8488043d, 0x894c749d, 0x894cfdd1);
    XorIs(0x00000000, 0x5a9057e1);
    XorIs(0x3040af35, 0x00003040);
    Hashed(0x00000000, 0x5a9057e1, 0x9205b1d5, 0x5a9057e1, 0x3040af35, 0x30409f75);
  }

  lemma PairsMixed2()
    ensures CrossMix(FILLED, FILLED_CONST, 2) == ([0x967c02db, 0x87011837, 0x894cfdd1, 0x30409f75], 0xe9096e59)
  {
    hide Xor, HashValue, Mix, CrossMix, Mul32, Sub32;
    NothingMixed();
    PairSkipped(FILLED, FILLED_CONST, 0);
    XorIs(0x967c02db, 0x9205b1d5);
    XorIs(0xe2bd43de, 0x0000e2bd);
    Hashed(0x967c02db, 0x9205b1d5, 0xe9096e59, 0x0479b30e, 0xe2bd43de, 0xe2bda163);
    XorIs(0x87019f36, 0x00008701);
    Mixed(0x8a9c19d9, 0xe2bda163, 0xd1bf6155, 0x4abdc21f, 0x87019f36, 0x87011837);
    PairMixed(FILLED, FILLED_CONST, 1, [0x967c02db, 0x8a9c19d9, 0x894cfdd1, 0x30409f75], 0x9205b1d5, 0xe9096e59, 0xe2bda163,
              [0x967c02db, 0x87011837, 0x894cfdd1, 0x30409f75]);
  }

  lemma PairsMixed4()
    ensures CrossMix(FILLED, FILLED_CONST, 4) == ([0x967c02db, 0x87011837, 0xff989d89, 0x87561d61], 0x9bb16511)
  {
    hide Xor, HashValue, Mix, CrossMix, Mul32, Sub32;
    PairsMixed2();
    XorIs(0x967c02db, 0xe9096e59);
    XorIs(0x3636bfda, 0x00003636);
    Hashed(0x967c02db, 0xe9096e59, 0x8d5cb6ad, 0x7f756c82, 0x3636bfda, 0x363689ec);
    XorIs(0xff986211, 0x0000ff98);
    Mixed(0x894cfdd1, 0x363689ec, 0x5228666d, 0x5290045c, 0xff986211, 0xff989d89);
    PairMixed(FILLED, FILLED_CONST, 2, [0x967c02db, 0x87011837, 0x894cfdd1, 0x30409f75], 0xe9096e59, 0x8d5cb6ad, 0x363689ec,
              [0x967c02db, 0x87011837, 0xff989d89, 0x30409f75]);
    XorIs(0x967c02db, 0x8d5cb6ad);
    XorIs(0xebf489d6, 0x0000ebf4);
    Hashed(0x967c02db, 0x8d5cb6ad, 0x9bb16511, 0x1b20b476, 0xebf489d6, 0xebf46222);
    XorIs(0x87569a37, 0x00008756);
    Mixed(0x30409f75, 0xebf46222, 0x74577501, 0xed00daca, 0x87569a37, 0x87561d61);
    PairMixed(FILLED, FILLED_CONST, 3, [0x967c02db, 0x87011837, 0xff989d89, 0x30409f75], 0x8d5cb6ad, 0x9bb16511, 0xebf46222,
              [0x967c02db, 0x87011837, 0xff989d89, 0x87561d61]);
  }

  lemma PairsMixed6()
    ensures CrossMix(FILLED, FILLED_CONST, 6) == ([0x52145731, 0x87011837, 0xff989d89, 0x87561d61], 0x00c238c5)
  {
    hide Xor, HashValue, Mix, CrossMix, Mul32, Sub32;
    PairsMixed4();
    XorIs(0x87011837, 0x9bb16511);
    XorIs(0x85fc9e3e, 0x000085fc);
    Hashed(0x87011837, 0x9bb16511, 0x00c238c5, 0x1cb07d26, 0x85fc9e3e, 0x85fc1bc2);
    XorIs(0x52140525, 0x00005214);
    Mixed(0x967c02db, 0x85fc1bc2, 0x58b07a0f, 0x069c74ea, 0x52140525, 0x52145731);
    PairMixed(FILLED, FILLED_CONST, 4, [0x967c02db, 0x87011837, 0xff989d89, 0x87561d61], 0x9bb16511, 0x00c238c5, 0x85fc1bc2,
              [0x52145731, 0x87011837, 0xff989d89, 0x87561d61]);
    PairSkipped(FILLED, FILLED_CONST, 5);
  }

  lemma PairsMixed8()
    ensures CrossMix(FILLED, FILLED_CONST, 8) == ([0x52145731, 0x87011837, 0x72fe5c48, 0xdb7245af], 0xcc132e1d)
  {
    hide Xor, HashValue, Mix, CrossMix, Mul32, Sub32;
    PairsMixed6();
    XorIs(0x87011837, 0x00c238c5);
    XorIs(0x3391bc82, 0x00003391);
    Hashed(0x87011837, 0x00c238c5, 0x4d029a09, 0x87c320f2, 0x3391bc82, 0x33918f13);
    XorIs(0x72fe2eb6, 0x000072fe);
    Mixed(0xff989d89, 0x33918f13, 0xcf834045, 0x5c85118f, 0x72fe2eb6, 0x72fe5c48);
    PairMixed(FILLED, FILLED_CONST, 6, [0x52145731, 0x87011837, 0xff989d89, 0x87561d61], 0x00c238c5, 0x4d029a09, 0x33918f13,
              [0x52145731, 0x87011837, 0x72fe5c48, 0x87561d61]);
    XorIs(0x87011837, 0x4d029a09);
    XorIs(0x9666e506, 0x00009666);
    Hashed(0x87011837, 0x4d029a09, 0xcc132e1d, 0xca03823e, 0x9666e506, 0x96667360);
    XorIs(0xdb729edd, 0x0000db72);
    Mixed(0x87561d61, 0x96667360, 0x3f4bb5bd, 0x63d916e0, 0xdb729edd, 0xdb7245af);
    PairMixed(FILLED, FILLED_CONST, 7, [0x52145731, 0x87011837, 0x72fe5c48, 0x87561d61], 0x4d029a09, 0xcc132e1d, 0x96667360,
              [0x52145731, 0x87011837, 0x72fe5c48, 0xdb7245af]);
  }

  lemma PairsMixed10()
    ensures CrossMix(FILLED, FILLED_CONST, 10) == ([0xdea4a529, 0xddf97de8, 0x72fe5c48, 0xdb7245af], 0xfa8ddcb5)
  {
    hide Xor, HashValue, Mix, CrossMix, Mul32, Sub32;
    PairsMixed8();
    XorIs(0x72fe5c48, 0xcc132e1d);
    XorIs(0x8955de95, 0x00008955);
    Hashed(0x72fe5c48, 0xcc132e1d, 0x83a97b41, 0xbeed7255, 0x8955de95, 0x895557c0);
    XorIs(0xdea47b8d, 0x0000dea4);
    Mixed(0x52145731, 0x895557c0, 0xa58eee4d, 0xc6ea72c0, 0xdea47b8d, 0xdea4a529);
    PairMixed(FILLED, FILLED_CONST, 8, [0x52145731, 0x87011837, 0x72fe5c48, 0xdb7245af], 0xcc132e1d, 0x83a97b41, 0x895557c0,
              [0xdea4a529, 0x87011837, 0x72fe5c48, 0xdb7245af]);
    XorIs(0x72fe5c48, 0x83a97b41);
    XorIs(0xd21f555d, 0x0000d21f);
    Hashed(0x72fe5c48, 0x83a97b41, 0xfa8ddcb5, 0xf1572709, 0xd21f555d, 0xd21f8742);
    XorIs(0xddf9a011, 0x0000ddf9);
    Mixed(0x87011837, 0xd21f8742, 0x1ab6667b, 0x3cbcc66a, 0xddf9a011, 0xddf97de8);
    PairMixed(FILLED, FILLED_CONST, 9, [0xdea4a529, 0x87011837, 0x72fe5c48, 0xdb7245af], 0x83a97b41, 0xfa8ddcb5, 0xd21f8742,
              [0xdea4a529, 0xddf97de8, 0x72fe5c48, 0xdb7245af]);
  }

  lemma PairsMixed12()
    ensures CrossMix(FILLED, FILLED_CONST, 12) == ([0xdea4a529, 0xddf97de8, 0x72fe5c48, 0x2ced5c75], 0xac4c06b9)
  {
    hide Xor, HashValue, Mix, CrossMix, Mul32, Sub32;
    PairsMixed10();
    PairSkipped(FILLED, FILLED_CONST, 10);
    XorIs(0x72fe5c48, 0xfa8ddcb5);
    XorIs(0x979a24d5, 0x0000979a);
    Hashed(0x72fe5c48, 0xfa8ddcb5, 0xac4c06b9, 0x887380fd, 0x979a24d5, 0x979ab34f);
    XorIs(0x2ced7098, 0x00002ced);
    Mixed(0xdb7245af, 0x979ab34f, 0xf31c5f13, 0xc62eee7b, 0x2ced7098, 0x2ced5c75);
    PairMixed(FILLED, FILLED_CONST, 11, [0xdea4a529, 0xddf97de8, 0x72fe5c48, 0xdb7245af], 0xfa8ddcb5, 0xac4c06b9, 0x979ab34f,
              [0xdea4a529, 0xddf97de8, 0x72fe5c48, 0x2ced5c75]);
  }

  lemma PairsMixed14()
    ensures CrossMix(FILLED, FILLED_CONST, 14) == ([0x631d3606, 0x07ae90ae, 0x72fe5c48, 0x2ced5c75], 0x0e554a71)
  {
    hide Xor, HashValue, Mix, CrossMix, Mul32, Sub32;
    PairsMixed12();
    XorIs(0x2ced5c75, 0xac4c06b9);
    XorIs(0x4bfeba5c, 0x00004bfe);
    Hashed(0x2ced5c75, 0xac4c06b9, 0x26ff5a8d, 0x80a15acc, 0x4bfeba5c, 0x4bfef1a2);
    XorIs(0x631d551b, 0x0000631d);
    Mixed(0xdea4a529, 0x4bfef1a2, 0x57f07565, 0xf4d3204a, 0x631d551b, 0x631d3606);
    PairMixed(FILLED, FILLED_CONST, 12, [0xdea4a529, 0xddf97de8, 0x72fe5c48, 0x2ced5c75], 0xac4c06b9, 0x26ff5a8d, 0x4bfef1a2,
              [0x631d3606, 0xddf97de8, 0x72fe5c48, 0x2ced5c75]);
    XorIs(0x2ced5c75, 0x26ff5a8d);
    XorIs(0x8850c378, 0x00008850);
    Hashed(0x2ced5c75, 0x26ff5a8d, 0x0e554a71, 0x0a1206f8, 0x8850c378, 0x88504b28);
    XorIs(0x07ae9700, 0x000007ae);
    Mixed(0xddf97de8, 0x88504b28, 0xd9c05948, 0xd211c248, 0x07ae9700, 0x07ae90ae);
    PairMixed(FILLED, FILLED_CONST, 13, [0x631d3606, 0xddf97de8, 0x72fe5c48, 0x2ced5c75], 0x26ff5a8d, 0x0e554a71, 0x88504b28,
              [0x631d3606, 0x07ae90ae, 0x72fe5c48, 0x2ced5c75]);
  }

  lemma PairsMixed16()
    ensures CrossMix(FILLED, FILLED_CONST, 16) == ([0x631d3606, 0x07ae90ae, 0x6fc4be28, 0x2ced5c75], 0x78c50da5)
  {
    hide Xor, HashValue, Mix, CrossMix, Mul32, Sub32;
    PairsMixed14();
    XorIs(0x2ced5c75, 0x0e554a71);
    XorIs(0x8ad86494, 0x00008ad8);
    Hashed(0x2ced5c75, 0x0e554a71, 0x78c50da5, 0x22b81604, 0x8ad86494, 0x8ad8ee4c);
    XorIs(0x6fc4d1ec, 0x00006fc4);
    Mixed(0x72fe5c48, 0x8ad8ee4c, 0xd99fb228, 0x69dae03c, 0x6fc4d1ec, 0x6fc4be28);
    PairMixed(FILLED, FILLED_CONST, 14, [0x631d3606, 0x07ae90ae, 0x72fe5c48, 0x2ced5c75], 0x0e554a71, 0x78c50da5, 0x8ad8ee4c,
              [0x631d3606, 0x07ae90ae, 0x6fc4be28, 0x2ced5c75]);
    PairSkipped(FILLED, FILLED_CONST, 15);
  }

  lemma NothingMixed()
    ensures CrossMix(FILLED, FILLED_CONST, 0) == (FILLED, FILLED_CONST)
  {
  }

  const MIXED: Pool := [0x631d3606, 0x07ae90ae, 0x6fc4be28, 0x2ced5c75]

  lemma PoolMixed()
    ensures MixedPool(42) == MIXED
  {
    hide CrossMix, FilledPool;
    PoolFilled();
    PairsMixed16();
  }

  lemma ConstUpdated(k: nat, c: uint32, next: uint32)
    requires HashConst(INIT_B, MULT_B, k) == c && c * MULT_B >= 0 && c * MULT_B % TWO32 == next
    ensures HashConst(INIT_B, MULT_B, k + 1) == next
  {
  }

  lemma ConstStart()
    ensures HashConst(INIT_B, MULT_B, 0) == INIT_B
  {
  }

  lemma WordsDrawn0()
    ensures StateWord(MIXED, 0) == 0xcd540ab7
    ensures StateWord(MIXED, 1) == 0x9f1e2e6d
    ensures StateWord(MIXED, 2) == 0x79fb94b6
    ensures StateWord(MIXED, 3) == 0xd57873dc
    ensures HashConst(INIT_B, MULT_B, 4) == 0x501638ad
  {
    hide Xor, HashValue, HashConst, Mul32;
    ConstStart();
    ConstUpdated(0, 0x8b51f9dd, 0x464a0a99);
    XorIs(0x631d3606, 0x8b51f9dd);
    XorIs(0xcd54c7e3, 0x0000cd54);
    Hashed(0x631d3606, 0x8b51f9dd, 0x464a0a99, 0xe84ccfdb, 0xcd54c7e3, 0xcd540ab7);
    ConstUpdated(1, 0x464a0a99, 0x819d14a5);
    XorIs(0x07ae90ae, 0x464a0a99);
    XorIs(0x9f1eb173, 0x00009f1e);
    Hashed(0x07ae90ae, 0x464a0a99, 0x819d14a5, 0x41e49a37, 0x9f1eb173, 0x9f1e2e6d);
    ConstUpdated(2, 0x819d14a5, 0xd369fdc1);
    XorIs(0x6fc4be28, 0x819d14a5);
    XorIs(0x79fbed4d, 0x000079fb);
    Hashed(0x6fc4be28, 0x819d14a5, 0xd369fdc1, 0xee59aa8d, 0x79fbed4d, 0x79fb94b6);
    ConstUpdated(3, 0xd369fdc1, 0x501638ad);
    XorIs(0x2ced5c75, 0xd369fdc1);
    XorIs(0xd578a6a4, 0x0000d578);
    Hashed(0x2ced5c75, 0xd369fdc1, 0x501638ad, 0xff84a1b4, 0xd578a6a4, 0xd57873dc);
  }

  lemma WordsDrawn1()
    ensures StateWord(MIXED, 4) == 0x64d420b7
    ensures StateWord(MIXED, 5) == 0x7d282a1b
    ensures StateWord(MIXED, 6) == 0x4692d5ff
    ensures StateWord(MIXED, 7) == 0x33657971
  {
    hide Xor, HashValue, HashConst, Mul32;
    WordsDrawn0();
    ConstUpdated(4, 0x501638ad, 0xa600c129);
    XorIs(0x631d3606, 0x501638ad);
    XorIs(0x64d44463, 0x000064d4);
    Hashed(0x631d3606, 0x501638ad, 0xa600c129, 0x330b0eab, 0x64d44463, 0x64d420b7);
    ConstUpdated(5, 0xa600c129, 0x8b0167f5);
    XorIs(0x07ae90ae, 0xa600c129);
    XorIs(0x7d285733, 0x00007d28);
    Hashed(0x07ae90ae, 0xa600c129, 0x8b0167f5, 0xa1ae5187, 0x7d285733, 0x7d282a1b);
    ConstUpdated(6, 0x8b0167f5, 0x5c1e2ed1);
    XorIs(0x6fc4be28, 0x8b0167f5);
    XorIs(0x4692936d, 0x00004692);
    Hashed(0x6fc4be28, 0x8b0167f5, 0x5c1e2ed1, 0xe4c5d9dd, 0x4692936d, 0x4692d5ff);
    ConstUpdated(7, 0x5c1e2ed1, 0x301d747d);
    XorIs(0x2ced5c75, 0x5c1e2ed1);
    XorIs(0x33654a14, 0x00003365);
    Hashed(0x2ced5c75, 0x5c1e2ed1, 0x301d747d, 0x70f372a4, 0x33654a14, 0x33657971);
  }

  lemma WordsJoined()
    ensures StateWord64(MixedPool(42), 0) == 0x9f1e2e6dcd540ab7 && StateWord64(MixedPool(42), 1) == 0xd57873dc79fb94b6
    ensures StateWord64(MixedPool(42), 2) == 0x7d282a1b64d420b7 && StateWord64(MixedPool(42), 3) == 0x336579714692d5ff
  {
    hide StateWord, MixedPool;
    PoolMixed();
    WordsDrawn0();
    WordsDrawn1();
  }

  /** The seeded generator of NumPy for seed 42. */
  lemma SeededAsInNumPy()
    ensures SeededInc(42) == 332724090758049132448979897138935081983
    ensures SeededState(42) == 274674114334540486603088602300644985544
  {
    hide StateWord64, MixedPool, SeededState, SeededInc;
    WordsJoined();
    SeededInClosedForm(42);
  }

  /** Its first output, whose top 53 bits make the fraction 0.77395604855596…: the folded words rotated by 17 places. */
  lemma FirstOutputAsInNumPy()
    ensures Next(SeededState(42), SeededInc(42)) == Val(0x47c0e8d11a134fa4, 0xb05ac5635702c3e7)
    ensures Output(0x47c0e8d11a134fa4, 0xb05ac5635702c3e7) == 14276969152011380360
  {
    hide SeededState, SeededInc, Xor, Rotr64, Shr;
    SeededAsInNumPy();
    XorIs(0x47c0e8d11a134fa4, 0xb05ac5635702c3e7);
    PowersForOutput();
    ShrIsDivision(0x47c0e8d11a134fa4, 58);
    RotrSwapsParts(0xf79a2db24d118c43, 17);
  }

  lemma PowersForOutput()
    ensures Pow2(58) == 0x400_0000_0000_0000 && Pow2(17) == 0x20000 && Pow2(47) == 0x800000000000
  {
    Pow2Values();
    assert Pow2(6) == 64 && Pow2(5) == 32;
    Pow2Add(53, 5);
    Pow2Add(16, 1);
    Pow2Add(17, 47);
  }
}
