/**
 The PCG64 random generator (pkg/sampler/pcg64.go): a 128-bit linear congruential generator
 held in two 64-bit words, the XSL-RR output function, and NumPy-compatible seeding.
 */
module Pcg64 {
  import opened Words

  const MULT_HI: uint64 := 0x2360ED051FC65DA4
  const MULT_LO: uint64 := 0x4385DF649FCCF645

  const INIT_A: uint32 := 0x43b0d7e5
  const MULT_A: uint32 := 0x931e8875
  const INIT_B: uint32 := 0x8b51f9dd
  const MULT_B: uint32 := 0x58f38ded
  const MIX_MULT_L: uint32 := 0xca01f9dd
  const MIX_MULT_R: uint32 := 0x4973f715
  const X_SHIFT: nat := 16
  const POOL_SIZE: nat := 4

  /** The 128-bit number held by a high and a low word. */
  function Val(hi: uint64, lo: uint64): (v: nat) {
    hi * TWO64 + lo
  }

  lemma ValBounds(hi: uint64, lo: uint64)
    ensures Val(hi, lo) < TWO128 && Val(hi, lo) / TWO64 == hi && Val(hi, lo) % TWO64 == lo
  {
  }

  lemma ValInjective(hi: uint64, lo: uint64, hi': uint64, lo': uint64)
    requires Val(hi, lo) == Val(hi', lo')
    ensures hi == hi' && lo == lo'
  {
  }

  ghost const MULT: nat := Val(MULT_HI, MULT_LO)

  // ----- 128-bit arithmetic on word pairs -----

  /** bits.Mul64: the full product as a high and a low word. */
  function Mul64(a: uint64, b: uint64): (r: (uint64, uint64))
    ensures Val(r.0, r.1) == a * b
  {
    assert 0 <= a * b <= (TWO64 - 1) * (TWO64 - 1) by {
      MulMonotone(a, TWO64 - 1, b, TWO64 - 1);
    }
    (a * b / TWO64, a * b % TWO64)
  }

  /** Multiplication modulo 2^128 from three 64-bit products. */
  function Mul128Mod(aHi: uint64, aLo: uint64, bHi: uint64, bLo: uint64): (r: (uint64, uint64))
    ensures Val(aHi, aLo) * Val(bHi, bLo) >= 0
    ensures Val(r.0, r.1) == (Val(aHi, aLo) * Val(bHi, bLo)) % TWO128
  {
    var (hi0, lo) := Mul64(aLo, bLo);
    assert aHi * bLo >= 0 && aLo * bHi >= 0;
    var hi1 := (hi0 + aHi * bLo % TWO64) % TWO64;
    var hi2 := (hi1 + aLo * bHi % TWO64) % TWO64;
    MulMonotone(0, Val(aHi, aLo), 0, Val(bHi, bLo));
    CrossTerms(aHi, aLo, bHi, bLo, TWO64, hi0, lo, aHi * bLo, aLo * bHi, hi1, hi2);
    (hi2, lo)
  }

  /** Adding the low word of `x` to `h`, wrapping at `w`, drops a multiple of `w`. */
  lemma WrapStep(h: nat, x: nat, w: nat, h': nat) returns (q: nat)
    requires w > 0 && h' == (h + x % w) % w
    ensures h + x == q * w + h'
  {
    var s := h + x % w;
    q := x / w + s / w;
    assert q * w == x / w * w + s / w * w;
  }

  lemma CrossTerms(aH: nat, aL: nat, bH: nat, bL: nat, w: nat, h: nat, l: nat, x: nat, y: nat, h1: nat, h2: nat)
    requires w > 0 && l < w && w * w > 0
    requires aL * bL == h * w + l && x == aH * bL && y == aL * bH
    requires h1 == (h + x % w) % w && h2 == (h1 + y % w) % w
    ensures (aH * w + aL) * (bH * w + bL) >= 0
    ensures h2 * w + l == ((aH * w + aL) * (bH * w + bL)) % (w * w)
  {
    var q1 := WrapStep(h, x, w, h1);
    var q2 := WrapStep(h1, y, w, h2);
    Expand(aH, aL, bH, bL, w);
    MulMonotone(0, aH * w + aL, 0, bH * w + bL);
    Collect((aH * w + aL) * (bH * w + bL), aH * bH, x + y, h, l, w, q1 + q2, h2);
  }

  lemma Collect(p: nat, a: nat, z: nat, h: nat, l: nat, w: nat, q: nat, h2: nat)
    requires w > 0 && l < w && h2 < w && w * w > 0
    requires p == a * (w * w) + z * w + (h * w + l)
    requires h + z == q * w + h2
    ensures h2 * w + l == p % (w * w)
  {
    assert z * w + h * w == q * (w * w) + h2 * w by {
      assert (h + z) * w == (q * w + h2) * w;
      assert (q * w + h2) * w == q * w * w + h2 * w;
      assert q * w * w == q * (w * w);
    }
    PartsBelow(h2, l, w, w);
    assert (a + q) * (w * w) == a * (w * w) + q * (w * w);
    DivModUnique(p, w * w, a + q, h2 * w + l);
  }

  lemma Expand(aH: nat, aL: nat, bH: nat, bL: nat, w: nat)
    ensures (aH * w + aL) * (bH * w + bL) == aH * bH * (w * w) + (aH * bL + aL * bH) * w + aL * bL
  {
    assert (aH * w + aL) * (bH * w + bL) == aH * w * (bH * w) + aH * w * bL + aL * (bH * w) + aL * bL;
    assert aH * w * (bH * w) == aH * bH * (w * w);
  }

  /** Addition modulo 2^128 with an explicit carry. */
  function Add128Mod(aHi: uint64, aLo: uint64, bHi: uint64, bLo: uint64): (r: (uint64, uint64))
    ensures Val(r.0, r.1) == (Val(aHi, aLo) + Val(bHi, bLo)) % TWO128
  {
    var lo := (aLo + bLo) % TWO64;
    var hi := (aHi + bHi) % TWO64;
    var hi' := if lo < aLo then (hi + 1) % TWO64 else hi;
    CarryStep(aHi, aLo, bHi, bLo, lo, hi, hi');
    (hi', lo)
  }

  lemma CarryStep(aHi: uint64, aLo: uint64, bHi: uint64, bLo: uint64, lo: uint64, hi: uint64, hi': uint64)
    requires lo == (aLo + bLo) % TWO64 && hi == (aHi + bHi) % TWO64
    requires hi' == if lo < aLo then (hi + 1) % TWO64 else hi
    ensures Val(hi', lo) == (Val(aHi, aLo) + Val(bHi, bLo)) % TWO128
  {
    var carry := if lo < aLo then 1 else 0;
    assert aLo + bLo == lo + carry * TWO64;
    var top := if aHi + bHi + carry >= TWO64 then 1 else 0;
    assert hi' == aHi + bHi + carry - top * TWO64;
    assert Val(aHi, aLo) + Val(bHi, bLo) == top * TWO128 + Val(hi', lo);
    DivModUnique(Val(aHi, aLo) + Val(bHi, bLo), TWO128, top, Val(hi', lo));
  }

  lemma TopBit(lo: uint64)
    ensures Shr(lo, 63) == if lo < 0x8000_0000_0000_0000 then 0 else 1
  {
    ShrIsDivision(lo, 63);
    assert Pow2(63) == 0x8000_0000_0000_0000 by {
      Pow2Values();
      assert Pow2(64) == 2 * Pow2(63);
    }
    DivModUnique(lo, 0x8000_0000_0000_0000, if lo < 0x8000_0000_0000_0000 then 0 else 1,
                 if lo < 0x8000_0000_0000_0000 then lo else lo - 0x8000_0000_0000_0000);
  }

  /** Or-ing the carried bit into an even word adds it. */
  lemma OrCarry(h: nat, t: nat)
    requires h % 2 == 0 && t < 2
    ensures Or(h, t) == h + t
  {
    assert Pow2(1) == 2;
    OrDisjoint(t, h / 2, 1);
    OrComm(h, t);
  }

  lemma DoubleStep(hi: uint64, lo: uint64, h: nat, t: nat, l: nat)
    requires h == hi * 2 % TWO64 && l == lo * 2 % TWO64
    requires t == if lo < 0x8000_0000_0000_0000 then 0 else 1
    ensures h % 2 == 0 && h + t < TWO64 && l < TWO64
    ensures Val(h + t, l) == (2 * Val(hi, lo)) % TWO128
  {
    var top := if hi < 0x8000_0000_0000_0000 then 0 else 1;
    DivModUnique(2 * hi, TWO64, top, 2 * hi - top * TWO64);
    DivModUnique(2 * lo, TWO64, t, 2 * lo - t * TWO64);
    DivModUnique(2 * Val(hi, lo), TWO128, top, Val(h + t, l));
  }

  /** Doubling modulo 2^128: the top bit of the low word moves to the high word. */
  function ShiftLeft1(hi: uint64, lo: uint64): (r: (uint64, uint64))
    ensures Val(r.0, r.1) == (2 * Val(hi, lo)) % TWO128
  {
    TopBit(lo);
    DoubleStep(hi, lo, hi * 2 % TWO64, Shr(lo, 63), lo * 2 % TWO64);
    OrCarry(hi * 2 % TWO64, Shr(lo, 63));
    (Or(hi * 2 % TWO64, Shr(lo, 63)), lo * 2 % TWO64)
  }

  // ----- The XSL-RR output function -----

  function Rotr64(value: uint64, rot: nat): (r: nat) {
    var rot' := rot % 64;
    if rot' == 0 then value
    else Or(Shr(value, rot'), value * Pow2(64 - rot') % TWO64)
  }

  /** A word below p * q splits into a quotient below q and a remainder below p. */
  lemma Split(value: nat, p: nat, q: nat, w: nat) returns (h: nat, l: nat)
    requires p > 0 && q > 0 && p * q == w && value < w
    ensures h == value / p && l == value % p
    ensures h < q && l < p && value == h * p + l
  {
    h, l := value / p, value % p;
    if h >= q {
      MulMonotone(q, h, p, p);
    }
  }

  lemma ShiftOut(h: nat, l: nat, p: nat, q: nat, w: nat)
    requires p * q == w
    ensures (h * p + l) * q == h * w + l * q
  {
    assert (h * p + l) * q == h * (p * q) + l * q;
  }

  /** Exchanging the two parts keeps the size and is what shifting left by q leaves modulo w. */
  lemma Exchange(h: nat, l: nat, p: nat, q: nat, w: nat)
    requires h < q && l < p && p * q == w
    ensures 0 <= h + l * q < w && 0 <= h * p + l < w
    ensures l * q < w && w > 0 && (h * p + l) * q >= 0 && (h * p + l) * q % w == l * q
    ensures (h + l * q) / q == l && (h + l * q) % q == h
  {
    PartsBelow(h, l, p, q);
    PartsBelow(l, h, q, p);
    ShiftOut(h, l, p, q, w);
    DivModUnique((h * p + l) * q, w, h, l * q);
    DivModUnique(h + l * q, q, l, h);
  }

  lemma SplitBounds(value: nat, p: nat, q: nat, w: nat)
    requires p > 0 && q > 0 && p * q == w && value < w
    ensures value / p < q && value % p * q >= 0
    ensures value / p + value % p * q < w
    ensures value * q >= 0 && value * q % w == value % p * q
  {
    var h, l := Split(value, p, q, w);
    Exchange(h, l, p, q, w);
  }

  /** Rotation swaps the parts of `value` above and below position `rot`. */
  lemma RotrSwapsParts(value: uint64, rot: nat)
    requires rot < 64
    ensures value % Pow2(rot) * Pow2(64 - rot) >= 0
    ensures Rotr64(value, rot) == value / Pow2(rot) + value % Pow2(rot) * Pow2(64 - rot)
    ensures Rotr64(value, rot) < TWO64
  {
    hide Shr, Or;
    WordParts(rot);
    SplitBounds(value, Pow2(rot), Pow2(64 - rot), TWO64);
    if rot == 0 {
      assert value / 1 == value && value % 1 == 0;
    } else {
      ShrIsDivision(value, rot);
      OrDisjoint(value / Pow2(rot), value % Pow2(rot), 64 - rot);
    }
  }

  lemma WordParts(rot: nat)
    requires rot < 64
    ensures Pow2(rot) * Pow2(64 - rot) == TWO64
  {
    Pow2Add(rot, 64 - rot);
    Pow2Values();
  }

  /** Rotation back: the inverse of `Rotr64`. */
  function Unrotr64(r: uint64, rot: nat): int
    requires rot < 64
  {
    r % Pow2(64 - rot) * Pow2(rot) + r / Pow2(64 - rot)
  }

  lemma UnrotrRotr(value: uint64, rot: nat)
    requires rot < 64
    ensures Rotr64(value, rot) < TWO64 && Unrotr64(Rotr64(value, rot), rot) == value
  {
    WordParts(rot);
    var h, l := Split(value, Pow2(rot), Pow2(64 - rot), TWO64);
    RotrSwapsParts(value, rot);
    Exchange(h, l, Pow2(rot), Pow2(64 - rot), TWO64);
  }

  lemma RotrUnrotr(r: uint64, rot: nat)
    requires rot < 64
    ensures 0 <= Unrotr64(r, rot) < TWO64 && Rotr64(Unrotr64(r, rot), rot) == r
  {
    WordParts(rot);
    var l, h := Split(r, Pow2(64 - rot), Pow2(rot), TWO64);
    Exchange(h, l, Pow2(rot), Pow2(64 - rot), TWO64);
    DivModUnique(h * Pow2(rot) + l, Pow2(rot), h, l);
    RotrSwapsParts(Unrotr64(r, rot), rot);
  }

  /** XSL-RR: fold the two words together and rotate by the six top bits of the high one. */
  function Output(hi: uint64, lo: uint64): (r: uint64) {
    var rot := Shr(hi, 58);
    RotationAmount(hi);
    RotrSwapsParts(Xor64(hi, lo), rot);
    Rotr64(Xor64(hi, lo), rot)
  }

  lemma OutputIsRotation(hi: uint64, lo: uint64)
    ensures Rotr64(Xor64(hi, lo), Shr(hi, 58)) == Output(hi, lo)
  {
  }

  lemma RotationAmount(hi: uint64)
    ensures Shr(hi, 58) < 64
  {
    ShrIsDivision(hi, 58);
    Pow2Add(6, 58);
    Pow2Values();
    assert Pow2(6) == 64;
    SplitBounds(hi, Pow2(58), 64, TWO64);
  }

  /** The low word that makes a given high word produce `r`. */
  function LowFor(hi: uint64, r: uint64): (lo: uint64) {
    RotationAmount(hi);
    RotrUnrotr(r, Shr(hi, 58));
    Xor64(Unrotr64(r, Shr(hi, 58)), hi)
  }

  /** For each high word, the output is a bijection of the low word. */
  lemma OutputBijective(hi: uint64, lo: uint64, r: uint64)
    ensures Output(hi, lo) == r <==> lo == LowFor(hi, r)
  {
    RotationAmount(hi);
    var rot := Shr(hi, 58);
    RotrUnrotr(r, rot);
    var v := Unrotr64(r, rot);
    UnrotrRotr(Xor64(hi, lo), rot);
    XorComm(hi, lo);
    XorCancel(lo, hi);
    XorCancel(v, hi);
    XorComm(hi, Xor(v, hi));
  }
}
