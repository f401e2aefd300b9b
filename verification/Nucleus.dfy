/**
 Softmax, nucleus (top-p) filtering and the inverse-CDF draw (pkg/sampler/sampler.go), and the
 whole of SampleFromScores.
 */
module Nucleus {
  import opened Options
  import opened Permutations
  import opened Sampler

  type Exp = real -> real

  ghost predicate Positive(exp: Exp) {
    forall x: real :: exp(x) > 0.0
  }

  ghost predicate Increasing(exp: Exp) {
    forall x: real, y: real :: x <= y ==> exp(x) <= exp(y)
  }

  // ----- Softmax -----

  function Top(s: seq<Score>): Score
    requires s != []
  {
    if |s| == 1 then s[0]
    else
      var t := Top(s[..|s| - 1]);
      if Greater(s[|s| - 1], t) then s[|s| - 1] else t
  }

  lemma {:induction false} TopIsGreatest(s: seq<Score>)
    requires s != []
    ensures Top(s) in s && forall x | x in s :: AtLeast(Top(s), x)
  {
    if |s| > 1 {
      TopIsGreatest(s[..|s| - 1]);
      assert s == s[..|s| - 1] + [s[|s| - 1]];
    }
  }

  /** The exponential of a score relative to the greatest one; nothing for minus infinity. */
  function Weight(exp: Exp, top: Score, x: Score): real {
    if x.Fin? && top.Fin? then exp(x.v - top.v) else 0.0
  }

  function Total(exp: Exp, top: Score, s: seq<Score>): real {
    if s == [] then 0.0 else Total(exp, top, s[..|s| - 1]) + Weight(exp, top, s[|s| - 1])
  }

  predicate HasFinite(s: seq<Score>) {
    exists x | x in s :: x.Fin?
  }

  lemma {:induction false} TotalPositive(exp: Exp, top: Score, s: seq<Score>)
    requires Positive(exp)
    ensures Total(exp, top, s) >= 0.0
    ensures top.Fin? && HasFinite(s) ==> Total(exp, top, s) > 0.0
  {
    if s != [] {
      TotalPositive(exp, top, s[..|s| - 1]);
      assert s == s[..|s| - 1] + [s[|s| - 1]];
    }
  }

  lemma SoftmaxDefined(exp: Exp, s: seq<Score>)
    requires Positive(exp) && HasFinite(s)
    ensures s != [] && Top(s).Fin? && Total(exp, Top(s), s) > 0.0
  {
    TopIsGreatest(s);
    TotalPositive(exp, Top(s), s);
  }

  /** The probability of position `i`. */
  ghost function Prob(exp: Exp, s: seq<Score>, i: nat): real
    requires Positive(exp) && HasFinite(s) && i < |s|
  {
    SoftmaxDefined(exp, s);
    Weight(exp, Top(s), s[i]) / Total(exp, Top(s), s)
  }

  ghost predicate IsSoftmax(exp: Exp, s: seq<Score>, p: seq<real>)
    requires Positive(exp) && HasFinite(s)
  {
    |p| == |s| && forall i | 0 <= i < |s| :: p[i] == Prob(exp, s, i)
  }

  /** With nothing but minus infinities, no result is a number: None. */
  method Softmax(exp: Exp, values: seq<Score>) returns (result: Option<seq<real>>)
    requires Positive(exp)
    ensures values == [] ==> result == Some([])
    ensures values != [] ==> (result.Some? <==> HasFinite(values))
    ensures HasFinite(values) ==> IsSoftmax(exp, values, result.value)
  {
    hide Total, Weight;
    if values == [] {
      return Some([]);
    }
    var maxVal := Greatest(values);
    TopIsGreatest(values);
    if maxVal.NegInf? {
      return None;
    }
    SoftmaxDefined(exp, values);
    hide HasFinite;
    var exps, sum := Exponentials(exp, maxVal, values);
    for i := 0 to |values|
      invariant exps.Length == |values|
      invariant forall j | 0 <= j < i :: exps[j] == Prob(exp, values, j)
      invariant forall j | i <= j < |values| :: exps[j] == Weight(exp, maxVal, values[j])
    {
      exps[i] := exps[i] / sum;
    }
    result := Some(exps[..]);
  }

  method Greatest(values: seq<Score>) returns (maxVal: Score)
    requires values != []
    ensures maxVal == Top(values)
  {
    maxVal := values[0];
    for i := 0 to |values|
      invariant maxVal == if i == 0 then values[0] else Top(values[..i])
    {
      assert i > 0 ==> values[..i + 1][..i] == values[..i];
      if Greater(values[i], maxVal) {
        maxVal := values[i];
      }
    }
    assert values[..|values|] == values;
  }

  method Exponentials(exp: Exp, top: Score, values: seq<Score>) returns (exps: array<real>, sum: real)
    ensures fresh(exps) && exps.Length == |values|
    ensures forall j | 0 <= j < |values| :: exps[j] == Weight(exp, top, values[j])
    ensures sum == Total(exp, top, values)
  {
    hide Weight;
    exps := new real[|values|](_ => 0.0);
    sum := 0.0;
    for i := 0 to |values|
      invariant forall j | 0 <= j < i :: exps[j] == Weight(exp, top, values[j])
      invariant sum == Total(exp, top, values[..i])
    {
      assert values[..i + 1][..i] == values[..i];
      exps[i] := Weight(exp, top, values[i]);
      sum := sum + exps[i];
    }
    assert values[..|values|] == values;
  }

  // ----- Cumulative mass -----

  function Mass(p: seq<real>, k: nat): real
    requires k <= |p|
  {
    if k == 0 then 0.0 else Mass(p, k - 1) + p[k - 1]
  }

  lemma {:induction false} MassIsShare(exp: Exp, s: seq<Score>, p: seq<real>, k: nat)
    requires Positive(exp) && HasFinite(s) && IsSoftmax(exp, s, p) && k <= |s|
    ensures s != [] && Total(exp, Top(s), s) > 0.0
    ensures Mass(p, k) == Total(exp, Top(s), s[..k]) / Total(exp, Top(s), s)
  {
    SoftmaxDefined(exp, s);
    var top := Top(s);
    var c := Total(exp, top, s);
    if k == 0 {
      assert 0.0 / c == 0.0;
    } else {
      MassIsShare(exp, s, p, k - 1);
      assert s[..k][..k - 1] == s[..k - 1];
      AddShares(Total(exp, top, s[..k - 1]), Weight(exp, top, s[k - 1]), c);
    }
  }

  lemma AddShares(x: real, y: real, c: real)
    requires c > 0.0
    ensures x / c + y / c == (x + y) / c
  {
  }

  /** All probability is distributed, every finite score gets some, and minus infinity gets none. */
  lemma SoftmaxIsDistribution(exp: Exp, s: seq<Score>, p: seq<real>)
    requires Positive(exp) && HasFinite(s) && IsSoftmax(exp, s, p)
    ensures Mass(p, |p|) == 1.0
    ensures forall i | 0 <= i < |p| :: p[i] >= 0.0 && (p[i] > 0.0 <==> s[i].Fin?)
  {
    SoftmaxDefined(exp, s);
    MassIsShare(exp, s, p, |s|);
    assert s[..|s|] == s;
    var c := Total(exp, Top(s), s);
    SelfShare(c);
    forall i | 0 <= i < |p| ensures p[i] >= 0.0 && (p[i] > 0.0 <==> s[i].Fin?) {
      ShareSign(Weight(exp, Top(s), s[i]), c);
    }
  }

  ghost predicate Multiplicative(exp: Exp) {
    forall x: real, y: real :: exp(x + y) == exp(x) * exp(y)
  }

  /** The sum of the exponentials of the finite scores themselves. */
  ghost function ExpSum(exp: Exp, s: seq<Score>): real {
    if s == [] then 0.0 else ExpSum(exp, s[..|s| - 1]) + (if s[|s| - 1].Fin? then exp(s[|s| - 1].v) else 0.0)
  }

  lemma {:induction false} TotalIsScaledSum(exp: Exp, top: Score, s: seq<Score>)
    requires Multiplicative(exp) && top.Fin?
    ensures Total(exp, top, s) * exp(top.v) == ExpSum(exp, s)
  {
    hide Multiplicative, Weight;
    if s != [] {
      TotalIsScaledSum(exp, top, s[..|s| - 1]);
      var x := s[|s| - 1];
      WeightIsScaled(exp, top, x);
      Distributes(Total(exp, top, s[..|s| - 1]), Weight(exp, top, x), exp(top.v));
    }
  }

  lemma Distributes(a: real, b: real, c: real)
    ensures (a + b) * c == a * c + b * c
  {
  }

  lemma WeightIsScaled(exp: Exp, top: Score, x: Score)
    requires Multiplicative(exp) && top.Fin?
    ensures Weight(exp, top, x) * exp(top.v) == if x.Fin? then exp(x.v) else 0.0
  {
    if x.Fin? {
      assert x.v - top.v + top.v == x.v;
    }
  }

  /** Taking the greatest score off first changes nothing: each probability is a share of the sum of exponentials. */
  lemma SoftmaxIsShare(exp: Exp, s: seq<Score>, p: seq<real>, i: nat)
    requires Positive(exp) && Multiplicative(exp) && HasFinite(s) && IsSoftmax(exp, s, p) && i < |s| && s[i].Fin?
    ensures p[i] * ExpSum(exp, s) == exp(s[i].v)
  {
    hide Multiplicative, Weight, Total, ExpSum, Top, HasFinite, Positive;
    SoftmaxDefined(exp, s);
    var top := Top(s);
    TotalIsScaledSum(exp, top, s);
    WeightIsScaled(exp, top, s[i]);
    CrossShare(Weight(exp, top, s[i]), Total(exp, top, s), exp(top.v), p[i]);
  }

  lemma CrossShare(w: real, c: real, e: real, p: real)
    requires c > 0.0 && p == w / c
    ensures p * (c * e) == w * e
  {
    assert p * c == w;
    assert p * (c * e) == (p * c) * e;
  }

  lemma SelfShare(c: real)
    requires c > 0.0
    ensures c / c == 1.0
  {
  }

  lemma ShareSign(w: real, c: real)
    requires w >= 0.0 && c > 0.0
    ensures w / c >= 0.0 && (w / c > 0.0 <==> w > 0.0)
  {
    assert w / c * c == w;
  }

  lemma {:induction false} MassMonotone(p: seq<real>, i: nat, j: nat)
    requires i <= j <= |p| && forall k | 0 <= k < |p| :: p[k] >= 0.0
    ensures Mass(p, i) <= Mass(p, j)
  {
    if i < j {
      MassMonotone(p, i, j - 1);
    }
  }

  // ----- Sorting -----

  datatype Indexed = Indexed(idx: nat, val: Score)

  ghost predicate SortedDesc(s: seq<Indexed>) {
    forall a, b | 0 <= a < b < |s| :: AtLeast(s[a].val, s[b].val)
  }

  /** Sorted up to `i`, except that the element at `j` may belong further to the front. */
  ghost predicate SortedExcept(s: seq<Indexed>, i: nat, j: nat)
    requires j <= i < |s|
  {
    forall a, b | 0 <= a < b <= i && b != j :: AtLeast(s[a].val, s[b].val)
  }

  lemma SinkStep(s: seq<Indexed>, i: nat, j: nat)
    requires 0 < j <= i < |s| && SortedExcept(s, i, j) && Greater(s[j].val, s[j - 1].val)
    ensures SortedExcept(s[j := s[j - 1]][j - 1 := s[j]], i, j - 1)
  {
    var t := s[j := s[j - 1]][j - 1 := s[j]];
    forall a, b | 0 <= a < b <= i && b != j - 1 ensures AtLeast(t[a].val, t[b].val) {
      if b == j {
        if a < j - 1 {
          assert AtLeast(s[a].val, s[j - 1].val);
        }
      } else if b > j {
        assert AtLeast(s[j].val, s[b].val) && AtLeast(s[j - 1].val, s[b].val) && AtLeast(s[a].val, s[b].val);
      } else {
        assert AtLeast(s[a].val, s[b].val);
      }
    }
  }

  lemma SinkDone(s: seq<Indexed>, i: nat, j: nat)
    requires j <= i < |s| && SortedExcept(s, i, j)
    requires j == 0 || !Greater(s[j].val, s[j - 1].val)
    ensures SortedDesc(s[..i + 1])
  {
    forall a, b | 0 <= a < b <= i ensures AtLeast(s[a].val, s[b].val) {
      if b == j && a < j - 1 {
        assert AtLeast(s[a].val, s[j - 1].val);
      }
    }
  }

  /** Insertion sort by descending value. */
  method SortDescIndexed(items: array<Indexed>)
    modifies items
    ensures SortedDesc(items[..]) && multiset(items[..]) == old(multiset(items[..]))
  {
    var i := 1;
    while i < items.Length
      invariant 1 <= i
      invariant SortedDesc(items[..if i <= items.Length then i else items.Length])
      invariant multiset(items[..]) == old(multiset(items[..]))
    {
      Insert(items, i);
      i := i + 1;
    }
    assert items[..] == items[..if i <= items.Length then i else items.Length];
  }

  method Insert(items: array<Indexed>, i: nat)
    requires 1 <= i < items.Length && SortedDesc(items[..i])
    modifies items
    ensures SortedDesc(items[..i + 1])
    ensures multiset(items[..]) == old(multiset(items[..]))
  {
    var j := i;
    assert SortedExcept(items[..], i, i) by {
      assert forall a | 0 <= a < i :: items[..i][a] == items[..][a];
    }
    while j > 0 && Greater(items[j].val, items[j - 1].val)
      invariant 0 <= j <= i
      invariant SortedExcept(items[..], i, j)
      invariant multiset(items[..]) == old(multiset(items[..]))
    {
      SinkStep(items[..], i, j);
      Swap(items, j, j - 1);
      j := j - 1;
    }
    SinkDone(items[..], i, j);
    assert items[..][..i + 1] == items[..i + 1];
  }

  // ----- Permutations -----

  function Map<A, B>(f: A -> B, s: seq<A>): (r: seq<B>)
    ensures |r| == |s| && forall i | 0 <= i < |s| :: r[i] == f(s[i])
  {
    seq(|s|, i requires 0 <= i < |s| => f(s[i]))
  }

  lemma MapWithoutOne<A, B>(f: A -> B, b: seq<A>, k: nat)
    requires k < |b|
    ensures multiset(Map(f, b)) == multiset(Map(f, b[..k] + b[k + 1..])) + multiset{f(b[k])}
  {
    RemoveOne(Map(f, b), k);
    assert Map(f, b)[..k] + Map(f, b)[k + 1..] == Map(f, b[..k] + b[k + 1..]);
  }

  lemma {:induction false} MapPermutation<A, B>(f: A -> B, a: seq<A>, b: seq<A>)
    requires multiset(a) == multiset(b)
    ensures multiset(Map(f, a)) == multiset(Map(f, b))
    decreases |a|
  {
    hide Map;
    if a == [] {
      EmptyPermutation(a, b);
    } else {
      var k := Counterpart(a, b);
      MapPermutation(f, a[..0] + a[1..], b[..k] + b[k + 1..]);
      MapWithoutOne(f, a, 0);
      MapWithoutOne(f, b, k);
    }
  }

  lemma {:induction false} TotalOfConcat(exp: Exp, top: Score, a: seq<Score>, b: seq<Score>)
    ensures Total(exp, top, a + b) == Total(exp, top, a) + Total(exp, top, b)
  {
    if b == [] {
      assert a + b == a;
    } else {
      assert (a + b)[..|a + b| - 1] == a + b[..|b| - 1];
      TotalOfConcat(exp, top, a, b[..|b| - 1]);
    }
  }

  lemma TotalWithoutOne(exp: Exp, top: Score, b: seq<Score>, k: nat)
    requires k < |b|
    ensures Total(exp, top, b) == Total(exp, top, b[..k] + b[k + 1..]) + Total(exp, top, [b[k]])
  {
    hide Total;
    var p, q := b[..k], b[k + 1..];
    TotalOfConcat(exp, top, p, [b[k]]);
    TotalOfConcat(exp, top, p + [b[k]], q);
    TotalOfConcat(exp, top, p, q);
    assert b == p + [b[k]] + q;
  }

  lemma {:induction false} TotalOfPermutation(exp: Exp, top: Score, a: seq<Score>, b: seq<Score>)
    requires multiset(a) == multiset(b)
    ensures Total(exp, top, a) == Total(exp, top, b)
    decreases |a|
  {
    hide Total;
    if a == [] {
      EmptyPermutation(a, b);
    } else {
      var k := Counterpart(a, b);
      TotalOfPermutation(exp, top, a[..0] + a[1..], b[..k] + b[k + 1..]);
      TotalWithoutOne(exp, top, a, 0);
      TotalWithoutOne(exp, top, b, k);
    }
  }

  lemma TopOfPermutation(a: seq<Score>, b: seq<Score>)
    requires a != [] && b != [] && multiset(a) == multiset(b)
    ensures Top(a) == Top(b)
  {
    TopIsGreatest(a);
    TopIsGreatest(b);
    assert Top(a) in multiset(b) && Top(b) in multiset(a);
    assert Top(a) in b && Top(b) in a;
    assert AtLeast(Top(a), Top(b)) && AtLeast(Top(b), Top(a));
  }

  /** Reordering scores reorders their probabilities. */
  lemma ProbOfPermutation(exp: Exp, a: seq<Score>, b: seq<Score>, i: nat, j: nat)
    requires Positive(exp) && HasFinite(a) && multiset(a) == multiset(b)
    requires i < |a| && j < |b| && a[i] == b[j]
    ensures HasFinite(b) && Prob(exp, a, i) == Prob(exp, b, j)
  {
    var x :| x in a && x.Fin?;
    assert x in multiset(b);
    TopOfPermutation(a, b);
    TotalOfPermutation(exp, Top(a), a, b);
  }

  // ----- The nucleus -----

  /** Cumulative probability along an order of the positions. */
  ghost function OrderedMass(exp: Exp, s: seq<Score>, order: seq<nat>, k: nat): real
    requires Positive(exp) && HasFinite(s) && k <= |order| && forall j | 0 <= j < |order| :: order[j] < |s|
  {
    if k == 0 then 0.0 else OrderedMass(exp, s, order, k - 1) + Prob(exp, s, order[k - 1])
  }

  ghost predicate IsOrder(s: seq<Score>, order: seq<nat>) {
    && |order| == |s|
    && (forall j | 0 <= j < |order| :: order[j] < |s|)
    && (forall i: nat | i < |s| :: i in order)
    && (forall a, b | 0 <= a < b < |order| :: order[a] != order[b])
    && (forall a, b | 0 <= a < b < |order| :: AtLeast(s[order[a]], s[order[b]]))
  }

  /** `kept` keeps the shortest prefix of the descending order whose mass exceeds `topP`. */
  ghost predicate IsNucleus(exp: Exp, s: seq<Score>, topP: real, order: seq<nat>, m: nat, kept: seq<Score>)
    requires Positive(exp) && HasFinite(s)
  {
    && IsOrder(s, order) && 1 <= m <= |order|
    && OrderedMass(exp, s, order, m - 1) <= topP < OrderedMass(exp, s, order, m)
    && |kept| == |s|
    && (forall i | 0 <= i < |s| :: kept[i] == if i in order[..m] then s[i] else NegInf)
  }

  function Identity(n: nat): (r: seq<nat>)
    ensures |r| == n && forall i | 0 <= i < n :: r[i] == i
  {
    seq(n, i requires 0 <= i < n => i)
  }

  lemma IdentityOnce(n: nat, x: nat)
    requires x < n
    ensures multiset(Identity(n))[x] == 1
  {
    var s := Identity(n);
    assert s == s[..x] + [x] + s[x + 1..];
    assert x !in s[..x] && x !in s[x + 1..];
  }

  lemma DistinctByPermutation(order: seq<nat>, n: nat, a: nat, b: nat)
    requires multiset(order) == multiset(Identity(n)) && a < b < |order|
    ensures order[a] != order[b]
  {
    if order[a] == order[b] {
      var x := order[a];
      assert order == order[..b] + [order[b]] + order[b + 1..];
      assert order[..b][a] == x;
      assert multiset(order)[x] >= 2;
      assert x in multiset(Identity(n));
      IdentityOnce(n, x);
    }
  }

  function ItemsOf(s: seq<Score>): (r: seq<Indexed>)
    ensures |r| == |s| && forall i | 0 <= i < |s| :: r[i] == Indexed(i, s[i])
  {
    seq(|s|, i requires 0 <= i < |s| => Indexed(i, s[i]))
  }

  function Idx(x: Indexed): nat { x.idx }

  function Val(x: Indexed): Score { x.val }

  /** A descending rearrangement of the indexed scores gives a descending order of the positions. */
  lemma SortedGivesOrder(s: seq<Score>, items: seq<Indexed>)
    requires multiset(items) == multiset(ItemsOf(s)) && SortedDesc(items)
    ensures IsOrder(s, Map(Idx, items))
    ensures multiset(Map(Val, items)) == multiset(s)
    ensures forall k | 0 <= k < |items| :: items[k].idx < |s| && items[k].val == s[items[k].idx]
  {
    var order := Map(Idx, items);
    assert |items| == |multiset(items)| == |s|;
    MapPermutation(Idx, items, ItemsOf(s));
    MapPermutation(Val, items, ItemsOf(s));
    assert Map(Idx, ItemsOf(s)) == Identity(|s|);
    assert Map(Val, ItemsOf(s)) == s;
    forall k | 0 <= k < |items| ensures items[k].idx < |s| && items[k].val == s[items[k].idx] {
      assert items[k] in multiset(ItemsOf(s));
    }
    forall i: nat | i < |s| ensures i in order {
      assert Identity(|s|)[i] == i;
      assert i in multiset(Identity(|s|));
      assert i in multiset(order);
    }
    forall a, b | 0 <= a < b < |order| ensures order[a] != order[b] {
      DistinctByPermutation(order, |s|, a, b);
    }
  }

  /** The mass of sorted probabilities is the mass of the scores along the order. */
  lemma {:induction false} MassAlongOrder(exp: Exp, s: seq<Score>, order: seq<nat>, t: seq<Score>, p: seq<real>, k: nat)
    requires Positive(exp) && HasFinite(s) && IsOrder(s, order) && multiset(t) == multiset(s)
    requires |t| == |s| && forall j | 0 <= j < |t| :: t[j] == s[order[j]]
    requires HasFinite(t) && IsSoftmax(exp, t, p) && k <= |s|
    ensures Mass(p, k) == OrderedMass(exp, s, order, k)
  {
    hide Prob, HasFinite, IsOrder;
    OrderInRange(s, order);
    if k != 0 {
      MassAlongOrder(exp, s, order, t, p, k - 1);
      ProbOfPermutation(exp, t, s, k - 1, order[k - 1]);
    }
  }

  lemma OrderInRange(s: seq<Score>, order: seq<nat>)
    requires IsOrder(s, order)
    ensures |order| == |s| && forall j | 0 <= j < |order| :: order[j] < |s|
  {
  }

  /** Where the cumulative mass first exceeds the limit. */
  lemma {:induction false} FirstAbove(p: seq<real>, limit: real, k: nat) returns (m: nat)
    requires k <= |p| && 0.0 <= limit < Mass(p, k)
    ensures 1 <= m <= k && Mass(p, m - 1) <= limit < Mass(p, m)
  {
    if Mass(p, k - 1) > limit {
      m := FirstAbove(p, limit, k - 1);
    } else {
      m := k;
    }
  }

  /** The removal flags: set where the mass before the position already exceeds the limit, never at the front. */
  method RemoveMask(probs: seq<real>, topP: real) returns (mask: array<bool>)
    requires probs != []
    ensures fresh(mask) && mask.Length == |probs|
    ensures forall i | 0 <= i < |probs| :: mask[i] == (i > 0 && Mass(probs, i) > topP)
  {
    var n := |probs|;
    mask := new bool[n](_ => false);
    var cumulative := 0.0;
    for i := 0 to n
      invariant cumulative == Mass(probs, i)
      invariant forall j | 0 <= j < n :: mask[j] == (j < i && Mass(probs, j + 1) > topP)
    {
      cumulative := cumulative + probs[i];
      if cumulative > topP {
        mask[i] := true;
      }
    }
    var i := n - 1;
    while i > 0
      invariant 0 <= i < n
      invariant forall j | 0 <= j <= i :: mask[j] == (Mass(probs, j + 1) > topP)
      invariant forall j | i < j < n :: mask[j] == (Mass(probs, j) > topP)
    {
      mask[i] := mask[i - 1];
      i := i - 1;
    }
    mask[0] := false;
  }

  /** Put minus infinity wherever the flag of a position in the order is set. */
  method MaskOut(s: seq<Score>, items: array<Indexed>, mask: array<bool>, ghost order: seq<nat>)
    returns (scores: seq<Score>)
    requires IsOrder(s, order) && items.Length == |s| && mask.Length == |s|
    requires forall k | 0 <= k < |s| :: items[k].idx == order[k]
    ensures |scores| == |s|
    ensures forall k | 0 <= k < |s| :: scores[order[k]] == if mask[k] then NegInf else s[order[k]]
  {
    scores := s;
    for i := 0 to mask.Length
      invariant |scores| == |s|
      invariant forall k | 0 <= k < |s| :: scores[order[k]] == if k < i && mask[k] then NegInf else s[order[k]]
    {
      if mask[i] {
        scores := scores[items[i].idx := NegInf];
      }
    }
  }

  /** The scores with their positions, sorted. */
  method SortScores(s: seq<Score>) returns (items: array<Indexed>, sortedScores: seq<Score>, ghost order: seq<nat>)
    ensures fresh(items) && items.Length == |s| && IsOrder(s, order)
    ensures forall k | 0 <= k < |s| :: items[k].idx == order[k]
    ensures |sortedScores| == |s| && multiset(sortedScores) == multiset(s)
    ensures forall k | 0 <= k < |s| :: sortedScores[k] == s[order[k]]
  {
    hide SortedDesc, IsOrder;
    items := new Indexed[|s|](i requires 0 <= i < |s| => Indexed(i, s[i]));
    assert items[..] == ItemsOf(s);
    SortDescIndexed(items);
    order := Map(Idx, items[..]);
    SortedGivesOrder(s, items[..]);
    sortedScores := Map(Val, items[..]);
  }

  /** Nucleus filtering: sort, accumulate, flag and mask. */
  method KeepNucleus(exp: Exp, s: seq<Score>, topP: real) returns (kept: seq<Score>, ghost order: seq<nat>, ghost m: nat)
    requires Positive(exp) && HasFinite(s) && 0.0 < topP < 1.0
    ensures |kept| == |s| && forall i | 0 <= i < |s| :: kept[i] == s[i] || kept[i] == NegInf
    ensures IsNucleus(exp, s, topP, order, m, kept)
  {
    hide Prob, IsSoftmax, HasFinite, IsOrder, OrderedMass;
    SoftmaxDefined(exp, s);
    var items, sortedScores;
    items, sortedScores, order := SortScores(s);
    SoftmaxOfPermutation(s, sortedScores);
    var shares := Softmax(exp, sortedScores);
    var probs := shares.value;
    SoftmaxLength(exp, sortedScores, probs);
    var mask := RemoveMask(probs, topP);
    kept := MaskOut(s, items, mask, order);
    m := NucleusSize(exp, s, topP, order, sortedScores, probs);
    forall k | 0 <= k < |s| ensures mask[k] == (k >= m) {
      FlagIsPosition(exp, sortedScores, probs, topP, m, k);
    }
    KeptByOrder(s, order, m, kept);
  }

  lemma SoftmaxOfPermutation(s: seq<Score>, t: seq<Score>)
    requires HasFinite(s) && multiset(t) == multiset(s)
    ensures HasFinite(t)
  {
    var x :| x in s && x.Fin?;
    assert x in multiset(t);
  }

  lemma SoftmaxLength(exp: Exp, s: seq<Score>, p: seq<real>)
    requires Positive(exp) && HasFinite(s) && IsSoftmax(exp, s, p)
    ensures |p| == |s| > 0
  {
  }

  lemma NucleusSize(exp: Exp, s: seq<Score>, topP: real, order: seq<nat>, t: seq<Score>, p: seq<real>) returns (m: nat)
    requires Positive(exp) && HasFinite(s) && IsOrder(s, order) && multiset(t) == multiset(s) && 0.0 < topP < 1.0
    requires |t| == |s| && forall j | 0 <= j < |t| :: t[j] == s[order[j]]
    requires HasFinite(t) && IsSoftmax(exp, t, p)
    ensures 1 <= m <= |s| == |p| == |order| && (forall j | 0 <= j < |order| :: order[j] < |s|)
    ensures OrderedMass(exp, s, order, m - 1) <= topP < OrderedMass(exp, s, order, m)
    ensures Mass(p, m - 1) <= topP < Mass(p, m)
  {
    hide Prob, HasFinite;
    SoftmaxIsDistribution(exp, t, p);
    m := FirstAbove(p, topP, |p|);
    MassAlongOrder(exp, s, order, t, p, m - 1);
    MassAlongOrder(exp, s, order, t, p, m);
  }

  lemma FlagIsPosition(exp: Exp, t: seq<Score>, p: seq<real>, topP: real, m: nat, k: nat)
    requires Positive(exp) && HasFinite(t) && IsSoftmax(exp, t, p)
    requires 1 <= m <= |p| && k < |p| && Mass(p, m - 1) <= topP < Mass(p, m)
    ensures (k > 0 && Mass(p, k) > topP) == (k >= m)
  {
    hide Prob, HasFinite;
    SoftmaxIsDistribution(exp, t, p);
    if k >= m {
      MassMonotone(p, m, k);
    } else {
      MassMonotone(p, k, m - 1);
    }
  }

  lemma KeptByOrder(s: seq<Score>, order: seq<nat>, m: nat, kept: seq<Score>)
    requires IsOrder(s, order) && m <= |s| && |kept| == |s|
    requires forall k | 0 <= k < |s| :: kept[order[k]] == if k >= m then NegInf else s[order[k]]
    ensures forall i | 0 <= i < |s| :: kept[i] == if i in order[..m] then s[i] else NegInf
  {
    forall i | 0 <= i < |s| ensures kept[i] == if i in order[..m] then s[i] else NegInf {
      assert i in order;
      var k :| 0 <= k < |order| && order[k] == i;
      if k < m {
        assert order[..m][k] == i;
      } else {
        assert forall j | 0 <= j < m :: order[j] != order[k];
      }
    }
  }

  // ----- The nucleus is the smallest set of its mass -----

  /** The probability of the positions of `set` among the first `n` of the order. */
  ghost function SetMass(exp: Exp, s: seq<Score>, order: seq<nat>, chosen: set<nat>, n: nat): real
    requires Positive(exp) && HasFinite(s) && n <= |order| && forall j | 0 <= j < |order| :: order[j] < |s|
  {
    if n == 0 then 0.0
    else SetMass(exp, s, order, chosen, n - 1) + (if order[n - 1] in chosen then Prob(exp, s, order[n - 1]) else 0.0)
  }

  ghost function CountIn(order: seq<nat>, chosen: set<nat>, n: nat): (c: nat)
    requires n <= |order|
    ensures c <= n
  {
    if n == 0 then 0 else CountIn(order, chosen, n - 1) + (if order[n - 1] in chosen then 1 else 0)
  }

  lemma ProbMonotone(exp: Exp, s: seq<Score>, i: nat, j: nat)
    requires Positive(exp) && Increasing(exp) && HasFinite(s) && i < |s| && j < |s| && AtLeast(s[i], s[j])
    ensures Prob(exp, s, i) >= Prob(exp, s, j) >= 0.0
  {
    SoftmaxDefined(exp, s);
    var c := Total(exp, Top(s), s);
    var x, y := Weight(exp, Top(s), s[i]), Weight(exp, Top(s), s[j]);
    assert x >= y >= 0.0;
    DivideMonotone(x, y, c);
    ShareSign(y, c);
  }

  lemma DivideMonotone(x: real, y: real, c: real)
    requires c > 0.0 && x >= y
    ensures x / c >= y / c
  {
    ShareSign(x - y, c);
    assert x / c == y / c + (x - y) / c;
  }

  /** No choice of positions beats the front of the order of the same size. */
  lemma {:induction false} FrontIsHeaviest(exp: Exp, s: seq<Score>, order: seq<nat>, chosen: set<nat>, n: nat)
    requires Positive(exp) && Increasing(exp) && HasFinite(s) && IsOrder(s, order) && n <= |order|
    ensures SetMass(exp, s, order, chosen, n) <= OrderedMass(exp, s, order, CountIn(order, chosen, n))
  {
    hide Prob, HasFinite;
    if n != 0 {
      FrontIsHeaviest(exp, s, order, chosen, n - 1);
      if order[n - 1] in chosen {
        var c := CountIn(order, chosen, n - 1);
        if c < n - 1 {
          assert AtLeast(s[order[c]], s[order[n - 1]]);
        } else {
          assert AtLeast(s[order[n - 1]], s[order[n - 1]]);
        }
        ProbMonotone(exp, s, order[c], order[n - 1]);
      }
    }
  }

  lemma {:induction false} OrderedMassMonotone(exp: Exp, s: seq<Score>, order: seq<nat>, i: nat, j: nat)
    requires Positive(exp) && Increasing(exp) && HasFinite(s) && IsOrder(s, order) && i <= j <= |order|
    ensures OrderedMass(exp, s, order, i) <= OrderedMass(exp, s, order, j)
  {
    hide Prob, HasFinite;
    if i < j {
      OrderedMassMonotone(exp, s, order, i, j - 1);
      assert AtLeast(s[order[j - 1]], s[order[j - 1]]);
      ProbMonotone(exp, s, order[j - 1], order[j - 1]);
    }
  }

  /** Any set of positions whose probability exceeds the limit has at least as many positions as the nucleus. */
  lemma NucleusIsSmallest(exp: Exp, s: seq<Score>, topP: real, order: seq<nat>, m: nat, kept: seq<Score>, chosen: set<nat>)
    requires Positive(exp) && Increasing(exp) && HasFinite(s) && IsNucleus(exp, s, topP, order, m, kept)
    requires SetMass(exp, s, order, chosen, |order|) > topP
    ensures CountIn(order, chosen, |order|) >= m
  {
    hide Prob, HasFinite, IsOrder, SetMass;
    OrderInRange(s, order);
    FrontIsHeaviest(exp, s, order, chosen, |order|);
    var c := CountIn(order, chosen, |order|);
    if c < m {
      OrderedMassMonotone(exp, s, order, c, m - 1);
    }
  }

  // ----- Drawing -----

  /** Position `r` is where the cumulative distribution first reaches `u`. */
  ghost predicate Reaches(p: seq<real>, u: real, r: nat) {
    r < |p| && Mass(p, r) < u <= Mass(p, r + 1)
  }

  /** Subtract probabilities until the draw is used up. */
  method Draw(p: seq<real>, u: real) returns (r: nat, found: bool)
    ensures u > 0.0 && found ==> Reaches(p, u, r)
    ensures u > 0.0 && !found ==> Mass(p, |p|) < u
    ensures u <= 0.0 && p != [] && p[0] >= 0.0 ==> found && r == 0
  {
    var randomValue := u;
    for i := 0 to |p|
      invariant randomValue == u - Mass(p, i)
      invariant u > 0.0 ==> randomValue > 0.0
      invariant u <= 0.0 && p != [] && p[0] >= 0.0 ==> i == 0
    {
      randomValue := randomValue - p[i];
      if randomValue <= 0.0 {
        return i, true;
      }
    }
    return 0, false;
  }

  /** Each draw reaches one position only, so position `r` is returned on an interval of length `p[r]`. */
  lemma ReachesUnique(p: seq<real>, u: real, r: nat, r': nat)
    requires forall k | 0 <= k < |p| :: p[k] >= 0.0
    requires Reaches(p, u, r) && Reaches(p, u, r')
    ensures r == r'
  {
    if r < r' {
      MassMonotone(p, r + 1, r');
    } else if r' < r {
      MassMonotone(p, r' + 1, r);
    }
  }

  // ----- SampleFromScores -----

  /** Top-k filtering: scores below the k-th largest become minus infinity. */
  ghost predicate IsTopK(scaled: seq<real>, topK: int, kept: seq<Score>) {
    && |kept| == |scaled|
    && if 0 < topK < |scaled| then
         exists x :: IsKthLargest(scaled, topK, x) && forall i | 0 <= i < |scaled| ::
           kept[i] == if scaled[i] < x then NegInf else Fin(scaled[i])
       else forall i | 0 <= i < |scaled| :: kept[i] == Fin(scaled[i])
  }

  function FiniteCount(s: seq<Score>): nat {
    if s == [] then 0 else FiniteCount(s[..|s| - 1]) + (if s[|s| - 1].Fin? then 1 else 0)
  }

  lemma {:induction false} FiniteIsNotBelow(scaled: seq<real>, x: real, kept: seq<Score>)
    requires |kept| == |scaled|
    requires forall i | 0 <= i < |scaled| :: kept[i] == if scaled[i] < x then NegInf else Fin(scaled[i])
    ensures FiniteCount(kept) == NotBelow(scaled, x)
  {
    if scaled != [] {
      FiniteIsNotBelow(scaled[..|scaled| - 1], x, kept[..|kept| - 1]);
    }
  }

  /** Top-k keeps at least `k` scores, and only ties with the k-th largest can make it more. */
  lemma TopKKeepsK(scaled: seq<real>, topK: int, kept: seq<Score>)
    requires 0 < topK < |scaled| && IsTopK(scaled, topK, kept)
    ensures exists x :: IsKthLargest(scaled, topK, x) &&
              Above(scaled, x) < topK <= FiniteCount(kept) == NotBelow(scaled, x)
  {
    var x :| IsKthLargest(scaled, topK, x) && forall i | 0 <= i < |scaled| ::
           kept[i] == if scaled[i] < x then NegInf else Fin(scaled[i]);
    FiniteIsNotBelow(scaled, x, kept);
  }

  method KeepTopK(scaled: seq<real>, topK: int) returns (kept: seq<Score>)
    ensures IsTopK(scaled, topK, kept)
    ensures scaled != [] ==> HasFinite(kept)
  {
    kept := seq(|scaled|, i requires 0 <= i < |scaled| => Fin(scaled[i]));
    if scaled != [] {
      assert kept[0] in kept;
    }
    if 0 < topK < |scaled| {
      var threshold := NthLargest(scaled, topK);
      for i := 0 to |kept|
        invariant |kept| == |scaled|
        invariant forall j | 0 <= j < |scaled| ::
                    kept[j] == if j < i && scaled[j] < threshold.v then NegInf else Fin(scaled[j])
      {
        if scaled[i] < threshold.v {
          kept := kept[i := NegInf];
        }
      }
      var j :| 0 <= j < |scaled| && scaled[j] == threshold.v;
      assert kept[j] in kept && kept[j].Fin?;
    }
  }

  /** What sampling promises: the filters applied in turn, and a position that survived both. */
  ghost predicate IsSample(exp: Exp, scaled: seq<real>, topK: int, topP: real, u: real,
                           afterK: seq<Score>, afterP: seq<Score>, order: seq<nat>, m: nat, r: nat)
    requires Positive(exp)
  {
    && IsTopK(scaled, topK, afterK) && HasFinite(afterK)
    && (if 0.0 < topP < 1.0 then IsNucleus(exp, afterK, topP, order, m, afterP) else afterP == afterK)
    && HasFinite(afterP)
    && (u > 0.0 ==> r < |afterP| && afterP[r].Fin?)
    && (u > 0.0 ==> exists p :: IsSoftmax(exp, afterP, p) && Reaches(p, u, r))
    && (u == 0.0 ==> r == 0)
  }

  lemma NucleusHasFinite(exp: Exp, s: seq<Score>, topP: real, order: seq<nat>, m: nat, kept: seq<Score>)
    requires Positive(exp) && HasFinite(s) && IsNucleus(exp, s, topP, order, m, kept)
    ensures HasFinite(kept)
  {
    var x :| x in s && x.Fin?;
    var i :| 0 <= i < |s| && s[i] == x;
    assert i in order;
    var k :| 0 <= k < |order| && order[k] == i;
    var f := order[0];
    assert AtLeast(s[f], s[i]) by {
      if k > 0 {
        assert AtLeast(s[order[0]], s[order[k]]);
      }
    }
    assert order[..m][0] == f;
    assert kept[f] == s[f];
  }

  /** A position with a share of the distribution is a finite score. */
  lemma ReachedIsFinite(exp: Exp, s: seq<Score>, p: seq<real>, u: real, r: nat)
    requires Positive(exp) && HasFinite(s) && IsSoftmax(exp, s, p) && Reaches(p, u, r)
    ensures s[r].Fin?
  {
    hide Prob, HasFinite;
    SoftmaxIsDistribution(exp, s, p);
  }

  method SampleFromScores(exp: Exp, values: seq<real>, doSample: bool, temperature: real, topK: int, topP: real, u: real)
    returns (r: nat, ghost scaled: seq<real>, ghost afterK: seq<Score>, ghost afterP: seq<Score>,
             ghost order: seq<nat>, ghost m: nat)
    requires Positive(exp) && 0.0 <= u < 1.0
    requires doSample && 0.0 < topP < 1.0 ==> values != []
    ensures !doSample || values == [] ==> IsArgmax(values, r)
    ensures doSample && values != [] ==>
              && |scaled| == |values|
              && (forall i | 0 <= i < |values| ::
                    scaled[i] == values[i] / (if temperature <= 0.0 then 1.0 else temperature))
              && IsSample(exp, scaled, topK, topP, u, afterK, afterP, order, m, r)
              && r < |afterP| && (afterP[r].Fin? <==> u > 0.0 || afterP[0].Fin?)
  {
    hide IsTopK, IsNucleus, Prob, HasFinite, IsSoftmax;
    scaled, afterK, afterP, order, m := [], [], [], [], 0;
    if !doSample || values == [] {
      r := Argmax(values);
      return;
    }
    var t := if temperature <= 0.0 then 1.0 else temperature;
    var scores := seq(|values|, i requires 0 <= i < |values| => values[i] / t);
    scaled := scores;
    var kept := KeepTopK(scores, topK);
    afterK := kept;
    if 0.0 < topP < 1.0 {
      kept, order, m := KeepNucleus(exp, kept, topP);
      NucleusHasFinite(exp, afterK, topP, order, m, kept);
    }
    afterP := kept;
    var shares := Softmax(exp, kept);
    var probabilities := shares.value;
    SoftmaxLength(exp, kept, probabilities);
    SoftmaxIsDistribution(exp, kept, probabilities);
    var found;
    r, found := Draw(probabilities, u);
    if u > 0.0 {
      ReachedIsFinite(exp, kept, probabilities, u, r);
    }
  }
}
