/**
 Equidistribution of PCG64: over one full period every 128-bit state occurs exactly once, and
 every 64-bit output occurs exactly 2^64 times.
 */
module PcgDistribution {
  import opened Words
  import opened Lcg
  import opened Pcg64
  import opened PcgGenerator

  // ----- Counting -----

  /** The naturals below `n`. */
  ghost function Range(n: nat): (s: set<nat>)
    ensures forall i: nat :: i in s <==> i < n
    ensures |s| == n
  {
    if n == 0 then {} else Range(n - 1) + {n - 1}
  }

  /** A one-to-one image has as many elements as the set. */
  lemma {:induction false} ImageSize(s: set<nat>, f: nat -> nat, t: set<nat>)
    requires t == set x | x in s :: f(x)
    requires forall x, y | x in s && y in s && f(x) == f(y) :: x == y
    ensures |t| == |s|
  {
    if s == {} {
      assert t == {};
    } else {
      var x :| x in s;
      var s', t' := s - {x}, t - {f(x)};
      assert t' == set y | y in s' :: f(y) by {
        forall z | z in t' ensures exists y :: y in s' && f(y) == z {
          var y :| y in s && f(y) == z;
          assert y in s';
        }
      }
      ImageSize(s', f, t');
    }
  }

  lemma FullSubset(s: set<nat>, t: set<nat>)
    requires s <= t && |s| == |t|
    ensures s == t
  {
    assert |t - s| == |t| - |s|;
  }

  /** The map takes the naturals below `m` to different ones of them. */
  ghost predicate Permutes(f: nat -> nat, m: nat) {
    && (forall x: nat | x < m :: f(x) < m)
    && (forall x: nat, y: nat | x < m && y < m && f(x) == f(y) :: x == y)
  }

  /** A one-to-one map of the naturals below `m` to themselves reaches each of them, once. */
  lemma InjectiveIsOnto(f: nat -> nat, m: nat, t: nat) returns (n: nat)
    requires t < m && Permutes(f, m)
    ensures n < m && f(n) == t
    ensures forall i: nat | i < m && f(i) == t :: i == n
  {
    hide Range, Permutes;
    var dom := Range(m);
    var img := set x | x in dom :: f(x);
    ImageOfRange(f, m, dom, img);
    n := Preimage(dom, f, img, t);
    PreimageUnique(f, m, n);
  }

  lemma ImageOfRange(f: nat -> nat, m: nat, dom: set<nat>, img: set<nat>)
    requires Permutes(f, m) && dom == Range(m) && img == set x | x in dom :: f(x)
    ensures img == dom
  {
    hide Range;
    ImageSize(dom, f, img);
    ImageInside(dom, f, img, dom);
    hide Permutes;
    FullSubset(img, dom);
  }

  lemma PreimageUnique(f: nat -> nat, m: nat, n: nat)
    requires Permutes(f, m) && n < m
    ensures forall i: nat | i < m && f(i) == f(n) :: i == n
  {
  }

  lemma ImageInside(s: set<nat>, f: nat -> nat, img: set<nat>, t: set<nat>)
    requires img == (set x | x in s :: f(x)) && forall x | x in s :: f(x) in t
    ensures img <= t
  {
  }

  lemma Preimage(s: set<nat>, f: nat -> nat, img: set<nat>, t: nat) returns (n: nat)
    requires img == (set x | x in s :: f(x)) && t in img
    ensures n in s && f(n) == t
  {
    n :| n in s && f(n) == t;
  }

  // ----- The orbit -----

  ghost function PositionOf(state: nat, inc: nat): nat -> nat
    requires state < TWO128
  {
    n => After(state, inc, n)
  }

  lemma PositionsDistinct(state: nat, inc: nat, i: nat, j: nat)
    requires state < TWO128 && inc % 2 == 1 && i < TWO128 && j < TWO128
    requires After(state, inc, i) == After(state, inc, j)
    ensures i == j
  {
    MultiplierFacts();
    if i <= j {
      Distinct(MULT, inc, 128, state, i, j);
      SmallRemainder(j - i, TWO128);
    } else {
      Distinct(MULT, inc, 128, state, j, i);
      SmallRemainder(i - j, TWO128);
    }
  }

  /** Every state is visited at exactly one position of a period. */
  lemma EveryStateOnce(state: nat, inc: nat, t: nat) returns (n: nat)
    requires state < TWO128 && inc % 2 == 1 && t < TWO128
    ensures n < TWO128 && After(state, inc, n) == t
    ensures forall i: nat | i < TWO128 && After(state, inc, i) == t :: i == n
  {
    hide After;
    var f := PositionOf(state, inc);
    forall x: nat, y: nat | x < TWO128 && y < TWO128 && f(x) == f(y) ensures x == y {
      PositionsDistinct(state, inc, x, y);
    }
    n := InjectiveIsOnto(f, TWO128, t);
    forall i: nat | i < TWO128 && After(state, inc, i) == t ensures i == n {
      assert f(i) == t;
    }
  }

  // ----- The outputs -----

  ghost function OutputOf(s: nat): uint64
    requires s < TWO128
  {
    Output(s / TWO64, s % TWO64)
  }

  /** The positions in one period at which the generator outputs `r`. */
  ghost function PositionsOfOutput(state: nat, inc: nat, r: uint64): set<nat>
    requires state < TWO128
  {
    set n: nat | n < TWO128 && OutputOf(After(state, inc, n)) == r
  }

  ghost function HighWord(state: nat, inc: nat): nat -> nat
    requires state < TWO128
  {
    n => After(state, inc, n) / TWO64
  }

  lemma SameHighSamePosition(state: nat, inc: nat, r: uint64, i: nat, j: nat)
    requires state < TWO128 && inc % 2 == 1
    requires i in PositionsOfOutput(state, inc, r) && j in PositionsOfOutput(state, inc, r)
    requires After(state, inc, i) / TWO64 == After(state, inc, j) / TWO64
    ensures i == j
  {
    hide Output, LowFor, After;
    var s, t := After(state, inc, i), After(state, inc, j);
    OutputBijective(s / TWO64, s % TWO64, r);
    OutputBijective(t / TWO64, t % TWO64, r);
    assert s == t;
    PositionsDistinct(state, inc, i, j);
  }

  lemma HighWordReached(state: nat, inc: nat, r: uint64, hi: uint64) returns (n: nat)
    requires state < TWO128 && inc % 2 == 1
    ensures n in PositionsOfOutput(state, inc, r) && After(state, inc, n) / TWO64 == hi
  {
    hide Output, LowFor, After;
    var lo := LowFor(hi, r);
    ValBounds(hi, lo);
    n := EveryStateOnce(state, inc, Val(hi, lo));
    OutputBijective(hi, lo, r);
  }

  /** Over one period, every 64-bit value is output exactly 2^64 times. */
  lemma Equidistribution(state: nat, inc: nat, r: uint64)
    requires state < TWO128 && inc % 2 == 1
    ensures |PositionsOfOutput(state, inc, r)| == TWO64
  {
    hide After, OutputOf, Range;
    var dom := PositionsOfOutput(state, inc, r);
    var f := HighWord(state, inc);
    var img := set x | x in dom :: f(x);
    forall x, y | x in dom && y in dom && f(x) == f(y) ensures x == y {
      SameHighSamePosition(state, inc, r, x, y);
    }
    ImageSize(dom, f, img);
    forall hi: nat | hi < TWO64 ensures hi in img {
      var n := HighWordReached(state, inc, r, hi);
      assert f(n) == hi;
    }
    assert img == Range(TWO64);
  }
}
