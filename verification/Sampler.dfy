/**
 Token sampling (pkg/sampler/sampler.go): repetition penalty, top-k selection, nucleus (top-p)
 filtering and the inverse-CDF draw.

 Scores are reals with an explicit minus infinity; the exponential is a parameter of which
 only positivity (and, where stated, monotonicity) is used; the random draw is a parameter.
 */
module Sampler {
  import opened Permutations

  datatype Score = NegInf | Fin(v: real)

  predicate Greater(a: Score, b: Score) {
    a.Fin? && (b.NegInf? || a.v > b.v)
  }

  predicate AtLeast(a: Score, b: Score) {
    !Greater(b, a)
  }

  // ----- Argmax and repetition penalty -----

  /** The first position of the greatest value; 0 for no values. */
  ghost predicate IsArgmax(values: seq<real>, r: nat) {
    if values == [] then r == 0
    else
      && r < |values|
      && (forall j | 0 <= j < |values| :: values[j] <= values[r])
      && (forall j | 0 <= j < r :: values[j] < values[r])
  }

  method Argmax(values: seq<real>) returns (r: nat)
    ensures IsArgmax(values, r)
  {
    r := 0;
    var bestValue := NegInf;
    for i := 0 to |values|
      invariant i == 0 ==> bestValue == NegInf && r == 0
      invariant i > 0 ==> r < i && bestValue == Fin(values[r])
      invariant forall j | 0 <= j < i :: values[j] <= values[r]
      invariant forall j | 0 <= j < r :: values[j] < values[r]
    {
      if Greater(Fin(values[i]), bestValue) {
        bestValue, r := Fin(values[i]), i;
      }
    }
  }

  /** What dividing by a penalty can give: a penalty of 0 makes infinities, and of 0 itself no number at all. */
  datatype Float = MinusInf | Number(v: real) | PlusInf | NaN

  function Quotient(x: real, penalty: real): Float
    requires x >= 0.0
  {
    if penalty != 0.0 then Number(x / penalty) else if x > 0.0 then PlusInf else NaN
  }

  /** The comparison of floating-point numbers: nothing exceeds, or is exceeded by, what is no number. */
  predicate Exceeds(a: Float, b: Float) {
    !a.NaN? && !b.NaN? && a != b &&
    (b.MinusInf? || a.PlusInf? || (a.Number? && b.Number? && a.v > b.v))
  }

  /** The first position of the greatest value that is a number; 0 if there is none. */
  ghost predicate IsFirstGreatest(q: seq<Float>, r: nat) {
    if forall j | 0 <= j < |q| :: !Exceeds(q[j], MinusInf) then r == 0
    else
      && r < |q| && Exceeds(q[r], MinusInf)
      && (forall j | 0 <= j < |q| :: !Exceeds(q[j], q[r]))
      && (forall j | 0 <= j < r && Exceeds(q[j], MinusInf) :: Exceeds(q[r], q[j]))
  }

  /** A score penalized on the greedy path, which divides scores of 0, and on the sampling path, which multiplies them. */
  function PenalizedInSet(v: real, penalty: real): Float {
    if v < 0.0 then Number(v * penalty) else Quotient(v, penalty)
  }

  function PenalizedInList(v: real, penalty: real): Float {
    if v > 0.0 then Quotient(v, penalty) else Number(v * penalty)
  }

  function SetScores(values: seq<real>, ids: set<int>, penalty: real): seq<Float> {
    seq(|values|, i requires 0 <= i < |values| =>
      if i in ids then PenalizedInSet(values[i], penalty) else Number(values[i]))
  }

  function ListScores(values: seq<real>, ids: set<int>, penalty: real): seq<Float> {
    seq(|values|, i requires 0 <= i < |values| =>
      if i in ids then PenalizedInList(values[i], penalty) else Number(values[i]))
  }

  /** What a penalty other than 0 makes of a score: a positive score is the penalty times the new one, any other one
      is multiplied by the penalty; scores that are not listed stay. */
  ghost predicate IsPenalized(v: real, listed: bool, penalty: real, f: Float) {
    && f.Number?
    && (!listed ==> f.v == v)
    && (listed && v > 0.0 ==> f.v * penalty == v)
    && (listed && v <= 0.0 ==> f.v == v * penalty)
  }

  ghost predicate AllPenalized(values: seq<real>, ids: set<int>, penalty: real, s: seq<Float>) {
    |s| == |values| && forall i | 0 <= i < |values| :: IsPenalized(values[i], i in ids, penalty, s[i])
  }

  lemma ScoresArePenalized(values: seq<real>, ids: set<int>, penalty: real)
    requires penalty != 0.0
    ensures AllPenalized(values, ids, penalty, SetScores(values, ids, penalty))
    ensures AllPenalized(values, ids, penalty, ListScores(values, ids, penalty))
  {
    forall i | 0 <= i < |values|
      ensures IsPenalized(values[i], i in ids, penalty, SetScores(values, ids, penalty)[i])
      ensures IsPenalized(values[i], i in ids, penalty, ListScores(values, ids, penalty)[i])
    {
      QuotientTimes(values[i], penalty);
    }
  }

  lemma QuotientTimes(v: real, penalty: real)
    requires penalty != 0.0
    ensures v / penalty * penalty == v && 0.0 / penalty == 0.0
  {
  }

  /** A penalty above 1 takes every listed score other than 0 strictly down, and keeps listed scores in their order. */
  lemma PenaltyLowers(v: real, w: real, penalty: real, f: Float, g: Float)
    requires penalty > 1.0 && IsPenalized(v, true, penalty, f) && IsPenalized(w, true, penalty, g)
    ensures f.v <= v && (v != 0.0 ==> f.v < v)
    ensures v < w ==> f.v < g.v
    ensures v == w ==> f.v == g.v
  {
    Lowers(v, penalty, f.v);
    Lowers(w, penalty, g.v);
    if v < w && w <= 0.0 {
      BothDown(v, w, penalty, f.v, g.v);
    } else if v < w && v > 0.0 {
      OrderBack(f.v, g.v, penalty);
    } else if v == w && v > 0.0 {
      SameFactor(f.v, g.v, penalty);
    }
  }

  lemma BothDown(v: real, w: real, k: real, f: real, g: real)
    requires k > 0.0 && v < w && f == v * k && g == w * k
    ensures f < g
  {
    Ordered(v, w, k);
  }

  lemma OrderBack(x: real, y: real, k: real)
    requires k > 0.0 && x * k < y * k
    ensures x < y
  {
    if y <= x {
      OrderedOrEqual(y, x, k);
    }
  }

  lemma Ordered(x: real, y: real, k: real)
    requires k > 0.0 && x < y
    ensures x * k < y * k
  {
    PositiveTimes(y - x, k);
    assert (y - x) * k == y * k - x * k;
  }

  lemma PositiveTimes(x: real, y: real)
    requires x > 0.0 && y > 0.0
    ensures x * y > 0.0
  {
  }

  lemma OrderedOrEqual(x: real, y: real, k: real)
    requires k > 0.0 && x <= y
    ensures x * k <= y * k
  {
    if x < y {
      Ordered(x, y, k);
    }
  }

  lemma SameFactor(x: real, y: real, k: real)
    requires k > 0.0 && x * k == y * k
    ensures x == y
  {
    if x < y {
      Ordered(x, y, k);
    } else if y < x {
      Ordered(y, x, k);
    }
  }

  lemma Lowers(v: real, penalty: real, f: real)
    requires penalty > 1.0 && (v > 0.0 ==> f * penalty == v) && (v <= 0.0 ==> f == v * penalty)
    ensures v > 0.0 ==> 0.0 < f < v
    ensures v <= 0.0 ==> f <= v && (v < 0.0 ==> f < v)
  {
    if v > 0.0 {
      if f <= 0.0 {
        OrderedOrEqual(f, 0.0, penalty);
      } else {
        Ordered(1.0, penalty, f);
      }
    } else if v < 0.0 {
      Ordered(1.0, penalty, -v);
    }
  }

  /** A listed token that is chosen under a penalty above 1 is also the choice without it. */
  lemma PenaltyOnlyDemotes(values: seq<real>, ids: set<int>, penalty: real, s: seq<Float>, r: nat)
    requires penalty > 1.0 && AllPenalized(values, ids, penalty, s) && IsFirstGreatest(s, r) && r in ids
    ensures r < |values| ==> IsArgmax(values, r)
  {
    if r < |values| {
      assert Exceeds(s[r], MinusInf);
      forall j | 0 <= j < |values| ensures values[j] <= values[r] && (j < r ==> values[j] < values[r]) {
        assert Exceeds(s[j], MinusInf) && !Exceeds(s[j], s[r]) && (j < r ==> Exceeds(s[r], s[j]));
        if j in ids {
          PenaltyLowers(values[r], values[j], penalty, s[r], s[j]);
        } else {
          PenaltyLowers(values[r], values[r], penalty, s[r], s[r]);
        }
      }
    }
  }

  function Ids(tokens: seq<int>): set<int> {
    set id | id in tokens
  }

  lemma NoPenalty(v: real)
    ensures PenalizedInSet(v, 1.0) == PenalizedInList(v, 1.0) == Number(v)
  {
  }

  lemma GreedyIsPenalized(values: seq<real>, ids: set<int>, penalty: real)
    ensures penalty != 0.0 ==> AllPenalized(values, ids, penalty, SetScores(values, ids, penalty))
    ensures forall r: nat | penalty > 1.0 && values != [] && r in ids
                            && IsFirstGreatest(SetScores(values, ids, penalty), r) :: IsArgmax(values, r)
  {
    if penalty != 0.0 {
      ScoresArePenalized(values, ids, penalty);
      var s := SetScores(values, ids, penalty);
      forall r: nat | penalty > 1.0 && values != [] && r in ids && IsFirstGreatest(s, r) ensures IsArgmax(values, r) {
        assert Exceeds(s[0], MinusInf);
        PenaltyOnlyDemotes(values, ids, penalty, s, r);
      }
    }
  }

  /** A penalty of 1, or none listed, changes no score. */
  lemma UnpenalizedIsArgmax(values: seq<real>, ids: set<int>, penalty: real, r: nat)
    requires penalty == 1.0 || ids == {}
    requires IsFirstGreatest(SetScores(values, ids, penalty), r)
    ensures IsArgmax(values, r)
  {
    var s := SetScores(values, ids, penalty);
    forall i | 0 <= i < |values| ensures s[i] == Number(values[i]) && Exceeds(s[i], MinusInf) {
      NoPenalty(values[i]);
    }
    if values != [] {
      assert Exceeds(s[0], MinusInf);
      forall j | 0 <= j < |values| ensures values[j] <= values[r] && (j < r ==> values[j] < values[r]) {
        assert !Exceeds(s[j], s[r]) && (j < r ==> Exceeds(s[r], s[j]));
      }
    }
  }

  /** A penalty of 0 makes infinities of the listed positive scores: the first of them is chosen. */
  ghost predicate IsFirstListed(values: seq<real>, ids: set<int>, r: nat) {
    (exists i | 0 <= i < |values| :: i in ids && values[i] > 0.0) ==>
      r < |values| && r in ids && values[r] > 0.0 && forall i | 0 <= i < r && i in ids :: values[i] <= 0.0
  }

  lemma ZeroPenaltyTakesListed(values: seq<real>, ids: set<int>, r: nat)
    requires IsFirstGreatest(SetScores(values, ids, 0.0), r)
    ensures IsFirstListed(values, ids, r)
  {
    var s := SetScores(values, ids, 0.0);
    if i :| 0 <= i < |values| && i in ids && values[i] > 0.0 {
      assert s[i] == PlusInf && Exceeds(s[i], MinusInf) && !Exceeds(s[i], s[r]);
      assert s[r] == PlusInf;
      forall j | 0 <= j < r && j in ids ensures values[j] <= 0.0 {
        assert Exceeds(s[j], MinusInf) ==> Exceeds(s[r], s[j]);
      }
    }
  }

  lemma SpecialPenalties(values: seq<real>, ids: set<int>, penalty: real)
    ensures forall r: nat | (penalty == 1.0 || ids == {}) && IsFirstGreatest(SetScores(values, ids, penalty), r) ::
              IsArgmax(values, r)
    ensures forall r: nat | penalty == 0.0 && IsFirstGreatest(SetScores(values, ids, penalty), r) ::
              IsFirstListed(values, ids, r)
  {
    hide IsFirstGreatest, IsArgmax, IsFirstListed;
    var s := SetScores(values, ids, penalty);
    forall r: nat | (penalty == 1.0 || ids == {}) && IsFirstGreatest(s, r) ensures IsArgmax(values, r) {
      UnpenalizedIsArgmax(values, ids, penalty, r);
    }
    forall r: nat | penalty == 0.0 && IsFirstGreatest(s, r) ensures IsFirstListed(values, ids, r) {
      ZeroPenaltyTakesListed(values, ids, r);
    }
  }

  method ArgmaxWithRepetitionPenalty(values: seq<real>, previousTokenSet: set<int>, penalty: real) returns (r: nat)
    ensures IsFirstGreatest(SetScores(values, previousTokenSet, penalty), r)
    ensures penalty != 0.0 ==> exists s :: AllPenalized(values, previousTokenSet, penalty, s) && IsFirstGreatest(s, r)
    ensures penalty > 1.0 && values != [] && r in previousTokenSet ==> IsArgmax(values, r)
    ensures penalty == 1.0 || previousTokenSet == {} ==> IsArgmax(values, r)
    ensures penalty == 0.0 ==> IsFirstListed(values, previousTokenSet, r)
  {
    GreedyIsPenalized(values, previousTokenSet, penalty);
    SpecialPenalties(values, previousTokenSet, penalty);
    hide Exceeds, Quotient, AllPenalized, IsArgmax, IsFirstListed;
    ghost var s := SetScores(values, previousTokenSet, penalty);
    r := 0;
    var bestValue := MinusInf;
    var applyPenalty := previousTokenSet != {} && penalty != 1.0;
    for i := 0 to |values|
      invariant bestValue == MinusInf ==> r == 0 && forall j | 0 <= j < i :: !Exceeds(s[j], MinusInf)
      invariant bestValue != MinusInf ==> r < i && bestValue == s[r] && Exceeds(s[r], MinusInf)
      invariant bestValue != MinusInf ==> forall j | 0 <= j < i :: !Exceeds(s[j], s[r])
      invariant bestValue != MinusInf ==> forall j | 0 <= j < r && Exceeds(s[j], MinusInf) :: Exceeds(s[r], s[j])
    {
      var score := Number(values[i]);
      if applyPenalty && i in previousTokenSet {
        if values[i] < 0.0 {
          score := Number(values[i] * penalty);
        } else {
          score := Quotient(values[i], penalty);
        }
      }
      NoPenalty(values[i]);
      assert score == s[i];
      ExceedsItself(score);
      if Exceeds(score, bestValue) {
        BetterValue(s, i, bestValue, r);
        bestValue, r := score, i;
      }
    }
  }

  lemma ExceedsItself(a: Float)
    ensures !Exceeds(a, a) && !Exceeds(MinusInf, a)
  {
  }

  /** A value that exceeds the best so far exceeds everything before it that is a number. */
  lemma BetterValue(s: seq<Float>, i: nat, best: Float, r: nat)
    requires i < |s| && Exceeds(s[i], best)
    requires best == MinusInf ==> forall j | 0 <= j < i :: !Exceeds(s[j], MinusInf)
    requires best != MinusInf ==> r < i && best == s[r] && Exceeds(s[r], MinusInf)
    requires best != MinusInf ==> forall j | 0 <= j < i :: !Exceeds(s[j], s[r])
    ensures Exceeds(s[i], MinusInf)
    ensures forall j | 0 <= j < i :: !Exceeds(s[j], s[i])
    ensures forall j | 0 <= j < i && Exceeds(s[j], MinusInf) :: Exceeds(s[i], s[j])
  {
  }

  /** Penalize every listed token once, ignoring repeated and out-of-range ids. */
  method ApplyRepetitionPenalty(values: seq<real>, previousTokenIDs: seq<int>, penalty: real) returns (result: seq<Float>)
    ensures result == ListScores(values, Ids(previousTokenIDs), penalty)
    ensures penalty != 0.0 ==> AllPenalized(values, Ids(previousTokenIDs), penalty, result)
    ensures penalty == 0.0 ==> forall i | 0 <= i < |values| && i in previousTokenIDs ::
              result[i] == if values[i] > 0.0 then PlusInf else Number(0.0)
  {
    if penalty != 0.0 {
      ScoresArePenalized(values, Ids(previousTokenIDs), penalty);
    }
    hide Quotient, AllPenalized;
    result := seq(|values|, i requires 0 <= i < |values| => Number(values[i]));
    if previousTokenIDs == [] || penalty == 1.0 {
      forall i | 0 <= i < |values| ensures result[i] == ListScores(values, Ids(previousTokenIDs), penalty)[i] {
        NoPenalty(values[i]);
      }
      return;
    }
    var seen: set<int> := {};
    for k := 0 to |previousTokenIDs|
      invariant |result| == |values|
      invariant seen == (set id | id in previousTokenIDs[..k] && 0 <= id < |values|)
      invariant forall i | 0 <= i < |values| ::
                  result[i] == if i in seen then PenalizedInList(values[i], penalty) else Number(values[i])
    {
      assert previousTokenIDs[..k + 1] == previousTokenIDs[..k] + [previousTokenIDs[k]];
      var id := previousTokenIDs[k];
      if id < 0 || id >= |result| || id in seen {
        continue;
      }
      seen := seen + {id};
      if values[id] > 0.0 {
        result := result[id := Quotient(values[id], penalty)];
      } else {
        result := result[id := Number(values[id] * penalty)];
      }
    }
    assert previousTokenIDs[..|previousTokenIDs|] == previousTokenIDs;
  }

  /** The greedy path gives a listed score of 0 no number when the penalty is 0. */
  predicate Lost(values: seq<real>, ids: set<int>, penalty: real, i: nat)
    requires i < |values|
  {
    penalty == 0.0 && i in ids && values[i] == 0.0
  }

  /** The greedy path, which takes a token set, and the sampling path, which takes a token list, choose the same
      greatest score when set and list agree on the ids in range: always if the penalty is not 0, and otherwise
      exactly if the score that the sampling path chooses is not lost on the greedy path, or all of them are. */
  lemma PenaltyPathsAgree(values: seq<real>, tokenSet: set<int>, tokenList: seq<int>, penalty: real, r: nat, r': nat)
    requires forall id | 0 <= id < |values| :: id in tokenSet <==> id in tokenList
    requires IsFirstGreatest(SetScores(values, tokenSet, penalty), r)
    requires IsFirstGreatest(ListScores(values, Ids(tokenList), penalty), r')
    ensures penalty != 0.0 ==> r == r'
    ensures values != [] ==> r' < |values|
    ensures values != [] ==>
      (r == r' <==>
       !Lost(values, tokenSet, penalty, r') || forall i | 0 <= i < |values| :: Lost(values, tokenSet, penalty, i))
  {
    var s, l := SetScores(values, tokenSet, penalty), ListScores(values, Ids(tokenList), penalty);
    forall i | 0 <= i < |values|
      ensures s[i] == if Lost(values, tokenSet, penalty, i) then NaN else l[i]
      ensures Exceeds(l[i], MinusInf)
    {
    }
    hide SetScores, ListScores, Ids;
    if values != [] {
      assert Exceeds(l[0], MinusInf);
      hide Lost;
      FirstGreatestWithout(s, l, r, r');
    }
  }

  /** Taking numbers out of a list moves its first greatest exactly if it is taken out and some number stays. */
  lemma FirstGreatestWithout(s: seq<Float>, l: seq<Float>, r: nat, r': nat)
    requires |s| == |l| && l != [] && forall i | 0 <= i < |l| :: Exceeds(l[i], MinusInf) && (s[i] == NaN || s[i] == l[i])
    requires IsFirstGreatest(s, r) && IsFirstGreatest(l, r')
    ensures r' < |l|
    ensures r == r' <==> s[r'] != NaN || (r' == 0 && forall i | 0 <= i < |s| :: s[i] == NaN)
  {
  }

  // ----- The k-th largest score -----

  /** How many scores exceed `x`. */
  function Above(s: seq<real>, x: real): nat {
    if s == [] then 0 else Above(s[..|s| - 1], x) + (if s[|s| - 1] > x then 1 else 0)
  }

  /** How many scores are at least `x`. */
  function NotBelow(s: seq<real>, x: real): nat {
    if s == [] then 0 else NotBelow(s[..|s| - 1], x) + (if s[|s| - 1] >= x then 1 else 0)
  }

  ghost predicate IsKthLargest(s: seq<real>, k: nat, x: real) {
    x in s && Above(s, x) < k <= NotBelow(s, x)
  }

  lemma {:induction false} CountsOfConcat(a: seq<real>, b: seq<real>, x: real)
    ensures Above(a + b, x) == Above(a, x) + Above(b, x)
    ensures NotBelow(a + b, x) == NotBelow(a, x) + NotBelow(b, x)
  {
    if b == [] {
      assert a + b == a;
    } else {
      assert (a + b)[..|a + b| - 1] == a + b[..|b| - 1];
      CountsOfConcat(a, b[..|b| - 1], x);
    }
  }

  lemma CountsWithoutOne(b: seq<real>, k: nat, x: real)
    requires k < |b|
    ensures Above(b, x) == Above(b[..k] + b[k + 1..], x) + Above([b[k]], x)
    ensures NotBelow(b, x) == NotBelow(b[..k] + b[k + 1..], x) + NotBelow([b[k]], x)
  {
    hide Above, NotBelow;
    var p, q := b[..k], b[k + 1..];
    CountsOfConcat(p, [b[k]] + q, x);
    CountsOfConcat([b[k]], q, x);
    CountsOfConcat(p, q, x);
    assert b == p + ([b[k]] + q);
  }

  lemma {:induction false} CountsOfPermutation(a: seq<real>, b: seq<real>, x: real)
    requires multiset(a) == multiset(b)
    ensures Above(a, x) == Above(b, x) && NotBelow(a, x) == NotBelow(b, x)
    decreases |a|
  {
    hide Above, NotBelow;
    if a == [] {
      EmptyPermutation(a, b);
    } else {
      var k := Counterpart(a, b);
      CountsOfPermutation(a[..0] + a[1..], b[..k] + b[k + 1..], x);
      CountsWithoutOne(a, 0, x);
      CountsWithoutOne(b, k, x);
    }
  }

  /** The first `n` positions hold the `n` greatest elements in descending order. */
  ghost predicate TopSorted(s: seq<real>, n: nat)
    requires n <= |s|
  {
    forall a, b | 0 <= a < n && a < b < |s| :: s[a] >= s[b]
  }

  lemma {:induction false} CountsAtMost(s: seq<real>, x: real)
    ensures Above(s, x) <= |s| && NotBelow(s, x) <= |s|
    ensures (forall i | 0 <= i < |s| :: s[i] <= x) ==> Above(s, x) == 0
    ensures (forall i | 0 <= i < |s| :: s[i] >= x) ==> NotBelow(s, x) == |s|
  {
    if s != [] {
      CountsAtMost(s[..|s| - 1], x);
    }
  }

  lemma TopSortedGivesKth(s: seq<real>, k: nat)
    requires 0 < k <= |s| && TopSorted(s, k)
    ensures IsKthLargest(s, k, s[k - 1])
  {
    hide Above, NotBelow;
    var x := s[k - 1];
    var p, q, r, t := s[..k - 1], s[..k], s[k - 1..], s[k..];
    assert s == p + r && s == q + t;
    CountsOfConcat(p, r, x);
    CountsOfConcat(q, t, x);
    CountsAtMost(p, x);
    CountsAtMost(r, x);
    CountsAtMost(q, x);
    assert forall i | 0 <= i < |r| :: r[i] == s[k - 1 + i];
    assert forall i | 0 <= i < |q| :: q[i] == s[i];
  }

  /** Partial selection sort: swap greater elements forward for the first `n` positions. */
  method NthLargest(scores: seq<real>, n: int) returns (r: Score)
    ensures n <= 0 || n > |scores| ==> r == NegInf
    ensures 0 < n <= |scores| ==> r.Fin? && IsKthLargest(scores, n, r.v)
  {
    if n <= 0 || n > |scores| {
      return NegInf;
    }
    var sorted := new real[|scores|](i requires 0 <= i < |scores| => scores[i]);
    assert sorted[..] == scores;
    var i := 0;
    while i < n && i < sorted.Length
      invariant 0 <= i <= n
      invariant multiset(sorted[..]) == multiset(scores)
      invariant TopSorted(sorted[..], i)
    {
      BringGreatest(sorted, i);
      i := i + 1;
    }
    TopSortedGivesKth(sorted[..], n);
    CountsOfPermutation(sorted[..], scores, sorted[n - 1]);
    assert sorted[n - 1] in multiset(sorted[..]);
    r := Fin(sorted[n - 1]);
  }

  /** One round of the selection: position `i` receives the greatest of the rest. */
  method BringGreatest(a: array<real>, i: nat)
    requires i < a.Length && TopSorted(a[..], i)
    modifies a
    ensures multiset(a[..]) == old(multiset(a[..]))
    ensures TopSorted(a[..], i + 1)
  {
    hide TopSorted;
    for j := i + 1 to a.Length
      invariant multiset(a[..]) == old(multiset(a[..]))
      invariant TopSorted(a[..], i)
      invariant forall q | i < q < j :: a[i] >= a[q]
    {
      if a[j] > a[i] {
        ghost var s := a[..];
        Swap(a, i, j);
        TopSortedSwap(s, i, j);
      }
    }
    TopSortedExtend(a[..], i);
  }

  lemma TopSortedExtend(s: seq<real>, i: nat)
    requires i < |s| && TopSorted(s, i) && forall q | i < q < |s| :: s[i] >= s[q]
    ensures TopSorted(s, i + 1)
  {
  }

  /** Swapping two positions behind the sorted part keeps it sorted. */
  lemma TopSortedSwap(s: seq<real>, i: nat, j: nat)
    requires i < j < |s| && TopSorted(s, i)
    ensures TopSorted(s[i := s[j]][j := s[i]], i)
  {
    var t := s[i := s[j]][j := s[i]];
    forall p, q | 0 <= p < i && p < q < |t| ensures t[p] >= t[q] {
      assert s[p] >= s[if q == i then j else if q == j then i else q];
    }
  }
}
