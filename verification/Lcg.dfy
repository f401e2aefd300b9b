/**
 Linear congruential generators modulo a power of two: `s` goes to `(a * s + c) % 2^k`.

 The main result is the exact period: when `a % 4 == 1` and `c` is odd, `n` steps lead back
 to the start if and only if `2^k` divides `n`.
 */
module Lcg {
  import opened Words

  function Pow(a: nat, n: nat): nat {
    if n == 0 then 1 else a * Pow(a, n - 1)
  }

  /** The geometric sum 1 + a + ... + a^(n-1). */
  function Geo(a: nat, n: nat): nat {
    if n == 0 then 0 else a * Geo(a, n - 1) + 1
  }

  /** The state after `n` steps from `s`. */
  function Iterate(a: nat, c: nat, m: nat, s: nat, n: nat): (t: nat)
    requires m > 0 && s < m
    ensures t < m
  {
    if n == 0 then s else (a * Iterate(a, c, m, s, n - 1) + c) % m
  }

  lemma {:induction false} IterateAdd(a: nat, c: nat, m: nat, s: nat, n: nat, d: nat)
    requires m > 0 && s < m
    ensures Iterate(a, c, m, s, n + d) == Iterate(a, c, m, Iterate(a, c, m, s, n), d)
  {
    if d != 0 {
      IterateAdd(a, c, m, s, n, d - 1);
    }
  }

  // ----- Closed form -----

  lemma {:induction false} PowIsGeo(a: nat, n: nat)
    requires a > 0
    ensures Pow(a, n) == (a - 1) * Geo(a, n) + 1
  {
    if n == 0 {
    } else {
      PowIsGeo(a, n - 1);
      var g := Geo(a, n - 1);
      calc {
        Pow(a, n);
        a * ((a - 1) * g + 1);
        (a - 1) * (a * g) + a;
        (a - 1) * (a * g + 1) + 1;
      }
    }
  }

  lemma ClosedFormStep(a: nat, c: nat, m: nat, s: nat, t: nat, k: nat, p: nat, g: nat, q: nat, r: nat)
    requires t + k * m == p * s + c * g
    requires a * t + c == q * m + r
    ensures r + (a * k + q) * m == a * p * s + c * (a * g + 1)
  {
    assert (a * k + q) * m == a * (k * m) + q * m;
    assert a * (t + k * m) == a * t + a * (k * m);
    assert a * (p * s + c * g) == a * p * s + c * (a * g);
  }

  lemma StepQuotient(a: nat, c: nat, m: nat, s: nat, n: nat) returns (q: nat)
    requires m > 0 && s < m && n > 0
    ensures a * Iterate(a, c, m, s, n - 1) + c == q * m + Iterate(a, c, m, s, n)
  {
    var x := a * Iterate(a, c, m, s, n - 1) + c;
    assert x >= 0;
    q := x / m;
  }

  lemma {:induction false} ClosedForm(a: nat, c: nat, m: nat, s: nat, n: nat) returns (k: nat)
    requires m > 0 && s < m
    ensures Iterate(a, c, m, s, n) + k * m == Pow(a, n) * s + c * Geo(a, n)
  {
    if n == 0 {
      k := 0;
    } else {
      var k' := ClosedForm(a, c, m, s, n - 1);
      var q := StepQuotient(a, c, m, s, n);
      k := a * k' + q;
      ClosedFormStep(a, c, m, s, Iterate(a, c, m, s, n - 1), k', Pow(a, n - 1), Geo(a, n - 1), q,
                     Iterate(a, c, m, s, n));
    }
  }

  /** Returning to the start is divisibility of one product. */
  lemma ReturnsIffProduct(a: nat, c: nat, m: nat, s: nat, n: nat)
    requires m > 0 && s < m && a > 0
    ensures ((a - 1) * s + c) * Geo(a, n) >= 0
    ensures Iterate(a, c, m, s, n) == s <==> (((a - 1) * s + c) * Geo(a, n)) % m == 0
  {
    hide Pow, Geo, Iterate;
    var k := ClosedForm(a, c, m, s, n);
    PowIsGeo(a, n);
    ReturnsIf(a, c, m, s, Iterate(a, c, m, s, n), k, Pow(a, n), Geo(a, n));
  }

  lemma ReturnsIf(a: nat, c: nat, m: nat, s: nat, t: nat, k: nat, p: nat, g: nat)
    requires m > 0 && s < m && t < m && a > 0
    requires t + k * m == p * s + c * g && p == (a - 1) * g + 1
    ensures ((a - 1) * s + c) * g >= 0
    ensures t == s <==> (((a - 1) * s + c) * g) % m == 0
  {
    ProductForm(a, c, s, p, g);
    ProductIsNat(a - 1, s);
    var q: nat := (a - 1) * s + c;
    ProductIsNat(q, g);
    NearMultiple(t, s, k, m, q * g);
  }

  lemma ProductIsNat(x: nat, y: nat)
    ensures x * y >= 0
  {
  }

  lemma ProductForm(a: nat, c: nat, s: nat, p: nat, g: nat)
    requires a > 0 && p == (a - 1) * g + 1
    ensures p * s + c * g == ((a - 1) * s + c) * g + s
  {
    assert ((a - 1) * g + 1) * s == (a - 1) * g * s + s;
    assert ((a - 1) * s + c) * g == (a - 1) * s * g + c * g;
    assert (a - 1) * g * s == (a - 1) * s * g;
  }

  /** Two residues below m differ by a multiple of m only when they are equal. */
  lemma NearMultiple(t: nat, s: nat, k: nat, m: nat, x: int)
    requires m > 0 && t < m && s < m && t + k * m == x + s
    ensures x >= 0 ==> (t == s <==> x % m == 0)
  {
    if x >= 0 {
      if t == s {
        DivModUnique(x, m, k, 0);
      } else if x % m == 0 {
        var j := x / m;
        assert (j - k) * m == j * m - k * m;
        SmallMultiple(j - k, m);
      }
    }
  }

  // ----- Divisibility by powers of two -----

  /** 2^k divides x. */
  predicate TwoPowDivides(k: nat, x: nat) {
    k == 0 || (x % 2 == 0 && TwoPowDivides(k - 1, x / 2))
  }

  lemma {:induction false} TwoPowDividesIsMod(k: nat, x: nat)
    ensures TwoPowDivides(k, x) <==> x % Pow2(k) == 0
  {
    if k == 0 {
    } else {
      var p := Pow2(k - 1);
      TwoPowDividesIsMod(k - 1, x / 2);
      HalfMod(x, p);
    }
  }

  lemma HalfMod(x: nat, p: nat)
    requires p > 0
    ensures x % (2 * p) == 0 <==> x % 2 == 0 && (x / 2) % p == 0
  {
    var y := x / 2;
    assert y == y / p * p + y % p;
    assert y / p * (2 * p) == 2 * (y / p * p);
    DivModUnique(x, 2 * p, y / p, 2 * (y % p) + x % 2);
  }

  lemma HalfTimes(q: nat, y: nat)
    ensures q * (2 * y) >= 0 && q * (2 * y) / 2 == q * y
  {
    assert q * (2 * y) == 2 * (q * y);
  }

  /** An odd factor is irrelevant to divisibility by a power of two. */
  lemma {:induction false} OddFactor(q: nat, x: nat, k: nat)
    requires q % 2 == 1
    ensures q * x >= 0 && (TwoPowDivides(k, q * x) <==> TwoPowDivides(k, x))
  {
    ProductIsNat(q, x);
    if k == 0 {
    } else {
      OddTimes(q, x);
      if x % 2 == 0 {
        var y := x / 2;
        HalfTimes(q, y);
        OddFactor(q, y, k - 1);
      }
    }
  }

  // ----- The 2-adic valuation of the geometric sum -----

  lemma OddTimes(a: nat, x: nat)
    requires a % 2 == 1
    ensures a * x >= 0 && (a * x) % 2 == x % 2
  {
    var u := a / 2;
    assert (2 * u + 1) * x == 2 * (u * x) + x;
  }

  lemma OneMod4Times(a: nat, x: nat)
    requires a % 4 == 1
    ensures a * x >= 0 && (a * x) % 4 == x % 4
  {
    var u := a / 4;
    assert (4 * u + 1) * x == 4 * (u * x) + x;
  }

  lemma NextParity(g: nat, h: nat, n: nat)
    requires n > 0 && g % 2 == (n - 1) % 2 && h % 2 == g % 2
    ensures (h + 1) % 2 == n % 2
  {
  }

  lemma {:induction false} GeoParity(a: nat, n: nat)
    requires a % 2 == 1
    ensures Geo(a, n) % 2 == n % 2
  {
    if n != 0 {
      GeoParity(a, n - 1);
      var g := Geo(a, n - 1);
      assert (a * g + 1) % 2 == n % 2 by {
        OddTimes(a, g);
        NextParity(g, a * g, n);
      }
    }
  }

  lemma {:induction false} PowMod4(a: nat, n: nat)
    requires a % 4 == 1
    ensures Pow(a, n) % 4 == 1
  {
    if n != 0 {
      PowMod4(a, n - 1);
      OneMod4Times(a, Pow(a, n - 1));
    }
  }

  lemma {:induction false} GeoSplit(a: nat, m: nat, n: nat)
    ensures Geo(a, m + n) == Geo(a, m) * Pow(a, n) + Geo(a, n)
  {
    if n != 0 {
      GeoSplit(a, m, n - 1);
      var g, p, h := Geo(a, m), Pow(a, n - 1), Geo(a, n - 1);
      assert a * (g * p + h) + 1 == g * (a * p) + (a * h + 1);
    }
  }

  /** The sum of twice as many terms is the sum times twice an odd number. */
  lemma GeoDouble(a: nat, h: nat) returns (w: nat)
    requires a % 4 == 1
    ensures w % 2 == 1 && w * Geo(a, h) >= 0 && Geo(a, h + h) == 2 * (w * Geo(a, h))
  {
    GeoSplit(a, h, h);
    PowMod4(a, h);
    w := HalfNext(Pow(a, h), Geo(a, h));
  }

  lemma HalfNext(p: nat, g: nat) returns (w: nat)
    requires p % 4 == 1
    ensures w % 2 == 1 && w * g >= 0 && g * p + g == 2 * (w * g)
  {
    var u := p / 4;
    w := 2 * u + 1;
    assert g * (4 * u + 1) == 4 * (g * u) + g;
    assert (2 * u + 1) * g == 2 * (g * u) + g;
  }

  /** 2^k divides 1 + a + ... + a^(n-1) exactly when it divides n. */
  lemma {:induction false} GeoValuation(a: nat, n: nat, k: nat)
    requires a % 4 == 1
    ensures TwoPowDivides(k, Geo(a, n)) <==> TwoPowDivides(k, n)
    decreases n
  {
    if n == 0 || k == 0 {
    } else if n % 2 == 1 {
      GeoParity(a, n);
    } else {
      var h := n / 2;
      var w := GeoDouble(a, h);
      OddFactor(w, Geo(a, h), k - 1);
      GeoValuation(a, h, k - 1);
    }
  }

  lemma EvenTimes(b: nat, s: nat)
    requires b % 2 == 0
    ensures b * s >= 0 && b * s % 2 == 0
  {
    var h := b / 2;
    assert 2 * h * s == 2 * (h * s);
  }

  lemma OddMultiplier(a: nat, s: nat, c: nat) returns (q: nat)
    requires a % 2 == 1 && c % 2 == 1
    ensures q == (a - 1) * s + c && q % 2 == 1
  {
    EvenTimes(a - 1, s);
    q := (a - 1) * s + c;
  }

  lemma ProductValuation(q: nat, a: nat, n: nat, k: nat)
    requires a % 4 == 1 && q % 2 == 1
    ensures (q * Geo(a, n)) % Pow2(k) == 0 <==> n % Pow2(k) == 0
  {
    OddFactor(q, Geo(a, n), k);
    GeoValuation(a, n, k);
    TwoPowDividesIsMod(k, q * Geo(a, n));
    TwoPowDividesIsMod(k, n);
  }

  /** The exact period of the generator, from every start. */
  lemma FullPeriod(a: nat, c: nat, k: nat, s: nat, n: nat)
    requires a % 4 == 1 && c % 2 == 1 && s < Pow2(k)
    ensures Iterate(a, c, Pow2(k), s, n) == s <==> n % Pow2(k) == 0
  {
    var q := OddMultiplier(a, s, c);
    ReturnsIffProduct(a, c, Pow2(k), s, n);
    ProductValuation(q, a, n, k);
  }

  /** Two positions of the same run hold the same state only when they differ by a multiple of the period. */
  lemma Distinct(a: nat, c: nat, k: nat, s: nat, i: nat, j: nat)
    requires a % 4 == 1 && c % 2 == 1 && s < Pow2(k) && i <= j
    ensures Iterate(a, c, Pow2(k), s, i) == Iterate(a, c, Pow2(k), s, j) <==> (j - i) % Pow2(k) == 0
  {
    IterateAdd(a, c, Pow2(k), s, i, j - i);
    FullPeriod(a, c, k, Iterate(a, c, Pow2(k), s, i), j - i);
  }

  // ----- One step -----

  /** A step with an odd multiplier never merges two states. */
  lemma AffineInjective(a: nat, c: nat, k: nat, x: nat, y: nat)
    requires a % 2 == 1 && x < Pow2(k) && y < Pow2(k)
    requires (a * x + c) % Pow2(k) == (a * y + c) % Pow2(k)
    ensures x == y
  {
    if x >= y {
      AffineOrdered(a, c, k, x, y);
    } else {
      AffineOrdered(a, c, k, y, x);
    }
  }

  lemma AffineOrdered(a: nat, c: nat, k: nat, x: nat, y: nat)
    requires a % 2 == 1 && y <= x < Pow2(k)
    requires (a * x + c) % Pow2(k) == (a * y + c) % Pow2(k)
    ensures x == y
  {
    var d := x - y;
    OddFactor(a, d, k);
    SameRemainder(a * x + c, a * y + c, Pow2(k), a * d);
    TwoPowDividesIsMod(k, a * d);
    TwoPowDividesIsMod(k, d);
    SmallRemainder(d, Pow2(k));
  }

  lemma SmallRemainder(d: nat, m: nat)
    requires d < m && d % m == 0
    ensures d == 0
  {
    DivModUnique(d, m, 0, d);
  }

  lemma SameRemainder(a: int, b: int, m: nat, d: nat)
    requires m > 0 && a % m == b % m && d == a - b
    ensures d % m == 0
  {
    var q := a / m - b / m;
    assert q * m == a / m * m - b / m * m;
    DivModUnique(d, m, q, 0);
  }
}
