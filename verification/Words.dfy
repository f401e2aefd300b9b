/**
 Machine words as bounded naturals.

 Bitwise operators are defined bit by bit on naturals, so that word arithmetic and
 bit manipulation can be reasoned about in one theory, without bit-vectors.
 */
module Words {

  const TWO16: nat := 0x1_0000
  const TWO32: nat := 0x1_0000_0000
  const TWO64: nat := 0x1_0000_0000_0000_0000
  const TWO128: nat := 0x1_0000_0000_0000_0000_0000_0000_0000_0000

  type byte = x: int | 0 <= x < 256
  type uint32 = x: int | 0 <= x < 0x1_0000_0000
  type uint64 = x: int | 0 <= x < 0x1_0000_0000_0000_0000

  function Pow2(n: nat): (p: nat)
    ensures p > 0
  {
    if n == 0 then 1 else 2 * Pow2(n - 1)
  }

  lemma {:induction false} Pow2Add(a: nat, b: nat)
    ensures Pow2(a + b) == Pow2(a) * Pow2(b)
  {
    if a == 0 {
    } else {
      Pow2Add(a - 1, b);
      assert Pow2(a + b) == 2 * Pow2(a - 1 + b);
    }
  }

  /** The word sizes used in the program are powers of two. */
  lemma Pow2Values()
    ensures Pow2(11) == 2048 && Pow2(16) == TWO16 && Pow2(32) == TWO32
    ensures Pow2(53) == 0x20_0000_0000_0000
    ensures Pow2(64) == TWO64 && Pow2(128) == TWO128
  {
    assert Pow2(5) == 32;
    Pow2Add(5, 5);
    Pow2Add(1, 10);
    Pow2Add(5, 11);
    Pow2Add(16, 16);
    Pow2Add(5, 16);
    Pow2Add(21, 32);
    Pow2Add(32, 32);
    Pow2Add(64, 64);
  }

  // ----- Division facts -----

  lemma MulAtLeast(k: int, d: int)
    requires k >= 1 && d > 0
    ensures k * d >= d
  {
    assert (k - 1) * d >= 0;
  }

  lemma MulMonotone(a: nat, a': nat, b: nat, b': nat)
    requires a <= a' && b <= b'
    ensures 0 <= a * b <= a' * b'
  {
    assert a * b <= a' * b;
    assert a' * b <= a' * b';
  }

  /** The only multiple of `d` strictly between `-d` and `d` is zero. */
  lemma SmallMultiple(k: int, d: int)
    requires d > 0 && -d < k * d < d
    ensures k == 0
  {
    if k > 0 {
      MulAtLeast(k, d);
    } else if k < 0 {
      MulAtLeast(-k, d);
    }
  }

  lemma DivModUnique(x: int, d: int, q: int, r: int)
    requires d > 0 && 0 <= r < d && x == q * d + r
    ensures x / d == q && x % d == r
  {
    var k := q - x / d;
    assert k * d == q * d - x / d * d;
    assert x == x / d * d + x % d;
    SmallMultiple(k, d);
  }

  /** A quotient below q and a remainder below p stay below the product. */
  lemma PartsBelow(h: nat, l: nat, p: nat, q: nat)
    requires h < q && l < p
    ensures 0 <= h * p && h * p + l < p * q
  {
    MulAtLeast(q - h, p);
    assert (q - h) * p == q * p - h * p;
  }

  lemma DivDivParts(x: nat, a: nat, b: nat, ab: nat, h: nat, s: nat, q: nat, r: nat)
    requires ab == a * b && x == h * a + s && s < a && h == q * b + r && r < b
    ensures r * a >= 0 && x == q * ab + (r * a + s) && r * a + s < ab
  {
    PartsBelow(r, s, a, b);
    assert (q * b + r) * a == q * b * a + r * a;
    assert q * b * a == q * (a * b);
  }

  lemma DivDiv(x: nat, a: nat, b: nat, ab: nat)
    requires a > 0 && b > 0 && ab == a * b
    ensures ab > 0 && x / a / b == x / ab
  {
    var h, s := x / a, x % a;
    var q, r := h / b, h % b;
    DivDivParts(x, a, b, ab, h, s, q, r);
    DivModUnique(x, ab, q, r * a + s);
  }

  // ----- Exclusive or -----

  function Xor(a: nat, b: nat): nat
    decreases a + b
  {
    if a == 0 && b == 0 then 0
    else 2 * Xor(a / 2, b / 2) + (if a % 2 == b % 2 then 0 else 1)
  }

  lemma {:induction false} XorCancel(a: nat, b: nat)
    ensures Xor(Xor(a, b), b) == a
    decreases a + b
  {
    if a == 0 && b == 0 {
    } else {
      XorCancel(a / 2, b / 2);
      var x := Xor(a, b);
      assert x / 2 == Xor(a / 2, b / 2);
    }
  }

  lemma {:induction false} XorComm(a: nat, b: nat)
    ensures Xor(a, b) == Xor(b, a)
    decreases a + b
  {
    if a == 0 && b == 0 {
    } else {
      XorComm(a / 2, b / 2);
    }
  }

  lemma {:induction false} XorZero(a: nat)
    ensures Xor(a, 0) == a
  {
    if a != 0 {
      XorZero(a / 2);
    }
  }

  lemma {:induction false} XorBound(a: nat, b: nat, k: nat)
    requires a < Pow2(k) && b < Pow2(k)
    ensures Xor(a, b) < Pow2(k)
  {
    if k == 0 {
      assert Xor(0, 0) == 0;
    } else if a == 0 && b == 0 {
    } else {
      XorBound(a / 2, b / 2, k - 1);
    }
  }

  /** `a >> k`, one position at a time. */
  function Shr(a: nat, k: nat): nat {
    if k == 0 then a else Shr(a / 2, k - 1)
  }

  lemma {:induction false} ShrIsDivision(a: nat, k: nat)
    ensures Shr(a, k) == a / Pow2(k)
  {
    if k == 0 {
    } else {
      ShrIsDivision(a / 2, k - 1);
      DivDiv(a, 2, Pow2(k - 1), Pow2(k));
    }
  }

  lemma {:induction false} XorShr(a: nat, b: nat, k: nat)
    ensures Shr(Xor(a, b), k) == Xor(Shr(a, k), Shr(b, k))
  {
    if k == 0 {
    } else {
      XorHalf(a, b);
      XorShr(a / 2, b / 2, k - 1);
    }
  }

  lemma XorHalf(a: nat, b: nat)
    ensures Xor(a, b) / 2 == Xor(a / 2, b / 2)
  {
  }

  /** Two words with equal exclusive or against a third are equal. */
  lemma XorInjective(a: nat, b: nat, c: nat)
    requires Xor(a, c) == Xor(b, c)
    ensures a == b
  {
    XorCancel(a, c);
    XorCancel(b, c);
  }

  function Xor32(a: uint32, b: uint32): uint32 {
    Pow2Values();
    XorBound(a, b, 32);
    Xor(a, b)
  }

  function Xor64(a: uint64, b: uint64): uint64 {
    Pow2Values();
    XorBound(a, b, 64);
    Xor(a, b)
  }

  // ----- Inclusive or -----

  function Or(a: nat, b: nat): nat
    decreases a + b
  {
    if a == 0 && b == 0 then 0
    else 2 * Or(a / 2, b / 2) + (if a % 2 == 0 && b % 2 == 0 then 0 else 1)
  }

  /** When `b` has only bits at position `k` and above, and `a` only bits below, or-ing adds. */
  lemma {:induction false} OrDisjoint(a: nat, b: nat, k: nat)
    requires a < Pow2(k)
    ensures b * Pow2(k) >= 0 && Or(a, b * Pow2(k)) == a + b * Pow2(k)
  {
    var c := b * Pow2(k);
    if k == 0 {
      OrZero(c);
    } else if a == 0 && c == 0 {
    } else {
      var p := Pow2(k - 1);
      assert c == 2 * (b * p) by {
        assert b * (2 * p) == 2 * (b * p);
      }
      OrDisjoint(a / 2, b, k - 1);
    }
  }

  lemma {:induction false} OrComm(a: nat, b: nat)
    ensures Or(a, b) == Or(b, a)
    decreases a + b
  {
    if a == 0 && b == 0 {
    } else {
      OrComm(a / 2, b / 2);
    }
  }

  lemma {:induction false} OrBound(a: nat, b: nat, k: nat)
    requires a < Pow2(k) && b < Pow2(k)
    ensures Or(a, b) < Pow2(k)
  {
    if k == 0 {
      assert Or(0, 0) == 0;
    } else if a == 0 && b == 0 {
    } else {
      OrBound(a / 2, b / 2, k - 1);
    }
  }

  lemma {:induction false} OrZero(a: nat)
    ensures Or(0, a) == a
  {
    if a != 0 {
      OrZero(a / 2);
    }
  }

  // ----- Text as bytes -----

  /** A text of ASCII characters as bytes. */
  function Ascii(t: string): (s: seq<byte>)
    requires forall i | 0 <= i < |t| :: t[i] < '\U{80}'
    ensures |s| == |t| && forall i | 0 <= i < |t| :: s[i] == t[i] as int
  {
    if t == "" then [] else Ascii(t[..|t| - 1]) + [t[|t| - 1] as int]
  }
}
