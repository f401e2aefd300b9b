/**
 Vocabularies under which the text splitter keeps the token budget: no piece goes over a place where
 the splitter may cut.
 */
module CleanPieces {
  import opened Options
  import opened Text
  import opened Chunker
  import opened ChunkBudget
  import opened TokenBudget
  import T = Tokenizer

  /** A text may be cut behind such a character, which is no white space. */
  predicate Mark(c: char) {
    EndsSentence(c) || EndsClause(c)
  }

  /** And in front of such a one; spaces are meta symbols by the time pieces are looked up. */
  predicate Parts(c: char) {
    c == META || IsSpace(c)
  }

  /** A place inside a text that belongs to such a character. */
  predicate Between(p: string, k: nat) {
    0 < k < |p| && (Parts(p[k]) || Mark(p[k - 1]))
  }

  /** No usable piece has such a place inside: no white space or meta symbol behind its first rune, and no mark
      in front of its last. */
  ghost predicate Clean(v: T.Vocabulary)
    requires T.Valid(v)
  {
    forall s: string, k: nat | T.Usable(v, s) :: !Between(s, k)
  }

  lemma BetweenInside(p: string, i: nat, j: nat, k: nat)
    requires Between(p, k) && i < k < j <= |p|
    ensures Between(p[i..j], k - i)
  {
  }

  lemma NoStepOver(v: T.Vocabulary, p: string, i: nat, j: nat, k: nat)
    requires T.Valid(v) && Clean(v) && Between(p, k) && i < k < j
    ensures T.Step(v, p, i, j).None? && !T.Matches(v, p, i, j)
  {
    hide T.Usable, T.HasMatch, Between;
    if T.Matches(v, p, i, j) {
      BetweenInside(p, i, j, k);
    }
  }

  // ----- The part in front of such a place -----

  lemma StepInFront(v: T.Vocabulary, p: string, i: nat, j: nat, k: nat)
    requires T.Valid(v) && Clean(v) && Between(p, k) && j <= k
    ensures T.Step(v, p[..k], i, j) == T.Step(v, p, i, j)
  {
    hide T.Usable, Clean, Parts, Mark, T.HasMatch;
    if i < j {
      assert p[..k][i..j] == p[i..j];
      SameMatches(v, p, i, k);
    }
  }

  lemma SameMatches(v: T.Vocabulary, p: string, i: nat, k: nat)
    requires T.Valid(v) && Clean(v) && Between(p, k) && i < k
    ensures T.HasMatch(v, p[..k], i) == T.HasMatch(v, p, i)
  {
    hide T.Usable, Clean, Parts, Mark;
    forall j | i < j <= k ensures T.Matches(v, p[..k], i, j) == T.Matches(v, p, i, j) {
      assert p[..k][i..j] == p[i..j];
    }
    forall j | k < j ensures !T.Matches(v, p, i, j) {
      NoStepOver(v, p, i, j, k);
    }
  }

  lemma {:induction false} BestInFront(v: T.Vocabulary, p: string, i: nat, j: nat, k: nat)
    requires T.Valid(v) && Clean(v) && Between(p, k) && j <= k
    ensures T.Best(v, p[..k], i, j) == T.Best(v, p, i, j) && T.Last(v, p[..k], i, j) == T.Last(v, p, i, j)
    decreases i
  {
    hide Clean, Parts, Mark, T.Step;
    if i > 0 {
      BestInFront(v, p, i - 1, j, k);
      StepInFront(v, p, i - 1, j, k);
      if i - 1 < j {
        BestInFront(v, p, i - 1, i - 1, k);
      } else {
        NoStepBack(v, p, i - 1, j);
        NoStepBack(v, p[..k], i - 1, j);
      }
    }
  }

  lemma NoStepBack(v: T.Vocabulary, p: string, i: nat, j: nat)
    requires T.Valid(v) && j <= i
    ensures T.Step(v, p, i, j).None?
  {
  }

  lemma {:induction false} PathInFront(v: T.Vocabulary, p: string, j: nat, k: nat)
    requires T.Valid(v) && Clean(v) && Between(p, k) && j <= k && T.Best(v, p, j, j).Some?
    ensures T.Best(v, p[..k], j, j).Some? && T.BestPath(v, p[..k], j) == T.BestPath(v, p, j)
  {
    hide Clean, Parts, Mark, T.Step, T.Best, T.Last;
    BestInFront(v, p, j, j, k);
    if j > 0 {
      T.LastIsStep(v, p, j, j);
      PathInFront(v, p, T.Last(v, p, j, j).value.start, k);
    }
  }

  /** The segmentation of the whole passes such a place. */
  lemma {:induction false} PlaceIsReached(v: T.Vocabulary, p: string, y: nat, k: nat)
    requires T.Valid(v) && Clean(v) && Between(p, k) && k <= y && T.Best(v, p, y, y).Some?
    ensures T.Best(v, p, k, k).Some? && |T.BestPath(v, p, k)| <= |T.BestPath(v, p, y)|
  {
    hide Clean, Parts, Mark, T.Step, T.Best, T.Last;
    if y > k {
      T.LastIsStep(v, p, y, y);
      var e := T.Last(v, p, y, y).value;
      if e.start < k {
        NoStepOver(v, p, e.start, y, k);
      } else {
        PlaceIsReached(v, p, e.start, k);
      }
    }
  }

  // ----- The part behind it -----

  function Shifted(e: Option<T.Edge>, k: nat): Option<T.Edge> {
    match e
    case None => None
    case Some(d) => Some(T.Edge(d.start + k, d.end + k, d.id, d.score))
  }

  function Plus(a: Option<real>, x: real): Option<real> {
    if a.None? then None else Some(a.value + x)
  }

  lemma StepBehind(v: T.Vocabulary, p: string, i: nat, j: nat, k: nat)
    requires T.Valid(v) && k <= |p|
    ensures T.Step(v, p, k + i, k + j) == Shifted(T.Step(v, p[k..], i, j), k)
  {
    hide T.Usable;
    if i < j && k + j <= |p| {
      assert p[k..][i..j] == p[k + i..k + j];
      MatchesBehind(v, p, i, k);
    }
  }

  lemma MatchesBehind(v: T.Vocabulary, p: string, i: nat, k: nat)
    requires T.Valid(v) && k <= |p|
    ensures T.HasMatch(v, p[k..], i) == T.HasMatch(v, p, k + i)
  {
    hide T.Usable;
    var q := p[k..];
    forall j: nat | i < j <= |q| ensures T.Matches(v, q, i, j) == T.Matches(v, p, k + i, k + j) {
      assert q[i..j] == p[k + i..k + j];
    }
    if T.HasMatch(v, p, k + i) {
      var m :| k + i < m <= |p| && T.Matches(v, p, k + i, m);
      assert T.Matches(v, q, i, m - k);
    }
  }

  lemma BestUnfolds(v: T.Vocabulary, p: string, i: nat, j: nat)
    requires T.Valid(v)
    ensures var t := T.Improve(T.Best(v, p, i, j), T.Best(v, p, i, i), T.Step(v, p, i, j));
      && T.Best(v, p, i + 1, j) == t.0
      && T.Last(v, p, i + 1, j) == if t.1 then T.Step(v, p, i, j) else T.Last(v, p, i, j)
  {
    hide T.Step, T.Improve;
  }

  lemma ImproveShifted(known: Option<real>, from: Option<real>, step: Option<T.Edge>, x: real, k: nat)
    ensures T.Improve(Plus(known, x), Plus(from, x), Shifted(step, k)) ==
              (Plus(T.Improve(known, from, step).0, x), T.Improve(known, from, step).1)
  {
  }

  lemma NothingYet(v: T.Vocabulary, p: string, j: nat)
    requires T.Valid(v)
    ensures T.Best(v, p, 0, j) == (if j == 0 then Some(0.0) else None) && T.Last(v, p, 0, j) == None
  {
  }

  /** Behind such a place the dynamic program does what it does for that part alone, with the score so far added. */
  lemma {:induction false} BestBehind(v: T.Vocabulary, p: string, i: nat, j: nat, k: nat)
    requires T.Valid(v) && Clean(v) && Between(p, k) && T.Best(v, p, k, k).Some?
    ensures T.Best(v, p, k + i, k + j) == Plus(T.Best(v, p[k..], i, j), T.Best(v, p, k, k).value)
    ensures j > 0 ==> T.Last(v, p, k + i, k + j) == Shifted(T.Last(v, p[k..], i, j), k)
    decreases i
  {
    hide Clean, Parts, Mark, T.Step, T.Best, T.Last, T.Improve, T.Valid;
    var x, q := T.Best(v, p, k, k).value, p[k..];
    if i == 0 {
      NothingYet(v, q, j);
      if j > 0 {
        NothingOver(v, p, k, k + j, k);
      }
    } else {
      BestBehind(v, p, i - 1, j, k);
      BestBehind(v, p, i - 1, i - 1, k);
      StepBehind(v, p, i - 1, j, k);
      BestUnfolds(v, p, k + (i - 1), k + j);
      BestUnfolds(v, q, i - 1, j);
      ImproveShifted(T.Best(v, q, i - 1, j), T.Best(v, q, i - 1, i - 1), T.Step(v, q, i - 1, j), x, k);
    }
  }

  lemma {:induction false} NothingOver(v: T.Vocabulary, p: string, i: nat, j: nat, k: nat)
    requires T.Valid(v) && Clean(v) && Between(p, k) && i <= k < j
    ensures T.Best(v, p, i, j).None? && T.Last(v, p, i, j).None?
  {
    hide Clean, Parts, Mark, T.Step;
    if i > 0 {
      NothingOver(v, p, i - 1, j, k);
      NoStepOver(v, p, i - 1, j, k);
    }
  }

  lemma {:induction false} PathBehind(v: T.Vocabulary, p: string, j: nat, k: nat)
    requires T.Valid(v) && Clean(v) && Between(p, k) && T.Best(v, p, k, k).Some? && T.Best(v, p[k..], j, j).Some?
    ensures T.Best(v, p, k + j, k + j).Some?
    ensures |T.BestPath(v, p, k + j)| == |T.BestPath(v, p, k)| + |T.BestPath(v, p[k..], j)|
  {
    hide Clean, Parts, Mark, T.Step, T.Best, T.Last;
    BestBehind(v, p, j, j, k);
    if j > 0 {
      T.LastIsStep(v, p[k..], j, j);
      PathBehind(v, p, T.Last(v, p[k..], j, j).value.start, k);
    }
  }

  // ----- Token counts -----

  /** The count is the number of steps of the best segmentation. */
  lemma CountIsSteps(v: T.Vocabulary, text: string, p: string)
    requires T.Valid(v) && v.unkID >= 0 && text != "" && p == T.Prepared(text)
    ensures T.Best(v, p, |p|, |p|).Some? && TokenCount(v, text) == |T.BestPath(v, p, |p|)|
  {
    hide T.Best, T.BestPath, T.IsPath, T.Prepared;
    T.EndReached(v, p);
    T.BestPathIsPath(v, p, |p|);
    T.AllIdsComeBack(v, p, T.BestPath(v, p, |p|), |p|);
    T.TrailingIdsComplete(T.BestPath(v, p, |p|));
  }

  lemma MarkStays(c: char)
    ensures Mark(c) ==> Mark(T.NormalizeRune(c)) && c != ' ' && T.NormalizeRune(c) != ' '
  {
  }

  lemma PreparedAt(text: string, i: nat)
    requires i < |text|
    ensures |T.Prepared(text)| == |text| + 1 && T.Prepared(text)[0] == META
    ensures T.Prepared(text)[i + 1] == (if T.NormalizeRune(text[i]) == ' ' then META else T.NormalizeRune(text[i]))
    ensures Parts(text[i]) ==> Parts(T.Prepared(text)[i + 1])
    ensures Mark(text[i]) ==> Mark(T.Prepared(text)[i + 1])
  {
    hide T.Normalize, Replace, Mark;
    MarkStays(text[i]);
  }

  lemma PreparedFront(a: string, b: string)
    requires a <= b
    ensures T.Prepared(a) == T.Prepared(b)[..|a| + 1]
  {
    hide T.Normalize, Replace, T.NormalizeRune;
    forall i | 0 <= i < |a| + 1 ensures T.Prepared(a)[i] == T.Prepared(b)[i] {
      assert i > 0 ==> a[i - 1] == b[i - 1];
    }
  }

  /** A text that ends at a mark, or before white space, has no more tokens than a longer one. */
  lemma FrontCountsLess(v: T.Vocabulary, a: string, b: string)
    requires T.Valid(v) && Clean(v) && v.unkID >= 0 && a != "" && a <= b
    requires |a| < |b| ==> Mark(a[|a| - 1]) || IsSpace(b[|a|])
    ensures TokenCount(v, a) <= TokenCount(v, b)
  {
    hide T.Best, T.BestPath, T.Prepared, T.NormalizeRune, TokenCount, Clean, Mark, IsSpace;
    if |a| < |b| {
      var p, k := T.Prepared(b), |a| + 1;
      PreparedFront(a, b);
      PreparedAt(b, |a|);
      PreparedAt(b, |a| - 1);
      assert Between(p, k);
      CountIsSteps(v, a, p[..k]);
      CountIsSteps(v, b, p);
      PlaceIsReached(v, p, |p|, k);
      PathInFront(v, p, k, k);
    } else {
      assert a == b;
    }
  }

  /** What trimming leaves of a prefix that ends at a preferred boundary, and of a longer prefix. */
  lemma TrimmedFront(s: string, i: nat, j: nat)
    requires 0 < i <= j <= |s| && PreferredBoundary(s[i - 1])
    ensures var a, b := Trim(s[..i]), Trim(s[..j]);
      a == "" || (a <= b && (|a| < |b| ==> Mark(a[|a| - 1]) || IsSpace(b[|a|])))
  {
    hide Trim, IsSpace, EndsSentence, EndsClause;
    var a, b := Trim(s[..i]), Trim(s[..j]);
    var x, y := TrimParts(s[..i]);
    var z, w := TrimParts(s[..j]);
    if a != "" {
      SameStart(s, i, j, x, a, y, z, b, w);
      assert s[..j] == z + b + w && s[..i] == x + a + y;
      forall m | 0 <= m < |a| ensures m < |b| && a[m] == b[m] {
        EndInside(s, i, j, x, a, y, z, b, w);
        assert a[m] == s[|x| + m];
      }
      if |a| < |b| {
        assert b[|a|] == s[|x| + |a|];
        if y != "" {
          assert s[|x| + |a|] == y[0] && y[0] in y;
        } else {
          assert a[|a| - 1] == s[i - 1];
          SpaceIsSpace();
        }
      }
    }
  }

  lemma SpaceIsSpace()
    ensures IsSpace(' ')
  {
  }

  lemma SameStart(s: string, i: nat, j: nat, x: string, a: string, y: string, z: string, b: string, w: string)
    requires i <= j <= |s| && s[..i] == x + a + y && s[..j] == z + b + w
    requires AllSpace(x) && AllSpace(z) && AllSpace(w) && a != "" && !IsSpace(a[0]) && (b != "" ==> !IsSpace(b[0]))
    ensures |x| == |z| && b != ""
  {
    hide IsSpace;
    SpacesAt(x, s[..i], 0);
    SpacesAt(z, s[..j], 0);
    SpacesAt(w, s[..j], |z| + |b|);
    assert s[..j][|x|] == a[0];
    assert b != "" ==> s[..j][|z|] == b[0];
  }

  lemma SpacesAt(x: string, s: string, k: nat)
    requires AllSpace(x) && k + |x| <= |s| && s[k..k + |x|] == x
    ensures forall m | k <= m < k + |x| :: IsSpace(s[m])
  {
    hide IsSpace;
    forall m | k <= m < k + |x| ensures IsSpace(s[m]) {
      assert s[m] == x[m - k] && x[m - k] in x;
    }
  }

  lemma EndInside(s: string, i: nat, j: nat, x: string, a: string, y: string, z: string, b: string, w: string)
    requires i <= j <= |s| && s[..i] == x + a + y && s[..j] == z + b + w && |x| == |z|
    requires AllSpace(w) && a != "" && !IsSpace(a[|a| - 1])
    ensures |a| <= |b|
  {
    hide IsSpace;
    SpacesAt(w, s[..j], |z| + |b|);
    assert s[..j][|x| + |a| - 1] == a[|a| - 1];
  }

  /** A clean vocabulary with an unknown token keeps every budget of at least two tokens in cutting clauses. */
  lemma CleanKeepsBudget(v: T.Vocabulary, max: nat)
    requires T.Valid(v) && Clean(v) && v.unkID >= 0 && max >= 2
    ensures StepBackFits(CounterOf(v), max) && NeverOversteps(CounterOf(v), max) && KeepsBudget(CounterOf(v), max)
  {
    hide Trim, TokenCount, Clean, NeverOversteps, KeepsBudget, PreferredBoundary, OneFits;
    var count := CounterOf(v);
    forall s: string, i, j | 0 < i <= j <= |s| && j < i + 24 && PreferredBoundary(s[i - 1])
      ensures count(Trim(s[..j])) <= max ==> count(Trim(s[..i])) <= max
    {
      TrimmedFront(s, i, j);
      EmptyCounts(v);
      if Trim(s[..i]) != "" {
        FrontCountsLess(v, Trim(s[..i]), Trim(s[..j]));
      }
    }
    OneSymbolCounts(v, max);
    StepBackSuffices(count, max);
    TokenBudgetExactly(v, max);
  }

  lemma EmptyCounts(v: T.Vocabulary)
    requires T.Valid(v)
    ensures TokenCount(v, "") == 0
  {
  }

  lemma OneSymbolCounts(v: T.Vocabulary, max: nat)
    requires T.Valid(v) && max >= 2
    ensures OneFits(CounterOf(v), max)
  {
    hide TokenCount;
    forall c: char | !IsSpace(c) ensures CounterOf(v)([c]) <= max {
      TokensAreBounded(v, [c]);
    }
  }

  // ----- Joins -----

  lemma JoinPrepared(l: string, r: string)
    ensures T.Prepared(l + " " + r) == T.Prepared(l) + T.Prepared(r)
  {
    hide T.Normalize, Replace, T.NormalizeRune;
    var j := l + " " + r;
    PreparedFront(l, j);
    SpaceStays();
    forall m: nat | m <= |r| ensures T.Prepared(j)[|l| + 1 + m] == T.Prepared(r)[m] {
      assert j[|l|] == ' ' && (m > 0 ==> j[|l| + m] == r[m - 1]);
    }
    assert T.Prepared(j) == T.Prepared(j)[..|l| + 1] + T.Prepared(r);
  }

  lemma SpaceStays()
    ensures T.NormalizeRune(' ') == ' '
  {
  }

  /** Under a clean vocabulary two texts joined by a space have as many tokens as the two together. */
  lemma JoinCountsAdd(v: T.Vocabulary, l: string, r: string)
    requires T.Valid(v) && Clean(v) && v.unkID >= 0 && l != "" && r != ""
    ensures TokenCount(v, l + " " + r) == TokenCount(v, l) + TokenCount(v, r)
  {
    hide T.Best, T.BestPath, TokenCount, Clean, Mark, IsSpace;
    JoinPrepared(l, r);
    var p, a, b := T.Prepared(l + " " + r), T.Prepared(l), T.Prepared(r);
    var k := |a|;
    assert p[k] == META && p[..k] == a && p[k..] == b;
    assert Between(p, k);
    hide T.Prepared, Between;
    CountIsSteps(v, l + " " + r, p);
    CountIsSteps(v, l, a);
    CountIsSteps(v, r, b);
    PlaceIsReached(v, p, |p|, k);
    PathInFront(v, p, k, k);
    PathBehind(v, p, |b|, k);
  }

  ghost predicate NoneHasCJK(parts: seq<string>) {
    forall p | p in parts :: !ContainsCJK(p)
  }

  ghost predicate SpacesAdd(count: Counter) {
    forall l: string, r: string | l != "" && r != "" :: count(l + " " + r) == count(l) + count(r)
  }

  /** Without characters that are written without spaces, every join is within the budget. */
  lemma {:induction false} SpaceJoinsFit(count: Counter, slices: seq<string>, current: string, max: nat)
    requires SpacesAdd(count) && NoneHasCJK(slices) && !ContainsCJK(current) && forall p | p in slices :: p != ""
    ensures AllFit(count, Joins(count, slices, current, max), max)
    decreases |slices|
  {
    hide ContainsCJK;
    if slices != [] {
      var s, rest := slices[0], slices[1..];
      assert s in slices && forall p | p in rest :: p in slices;
      if current == "" || count(current) + count(s) > max {
        SpaceJoinsFit(count, rest, s, max);
      } else {
        var j := current + " " + s;
        SpaceJoinFree(current, s);
        SpaceJoinsFit(count, rest, j, max);
        FitAppend(count, [j], Joins(count, rest, j, max), max);
      }
    }
  }

  lemma SpaceJoinFree(l: string, r: string)
    requires !ContainsCJK(l) && !ContainsCJK(r)
    ensures !ContainsCJK(l + " " + r)
  {
    assert forall c | c in l + " " + r :: c in l || c in r || c == ' ';
  }

  lemma {:induction false} InStrip(s: string, c: char)
    requires !IsSpace(c)
    ensures c in Strip(s) <==> c in s
  {
    if s != "" {
      InStrip(s[1..], c);
      assert s == [s[0]] + s[1..];
    }
  }

  lemma {:induction false} InConcat(parts: seq<string>, p: string, c: char)
    requires p in parts && c in p
    ensures c in Concat(parts)
  {
    if p != parts[0] {
      InConcat(parts[1..], p, c);
    }
  }

  lemma CJKIsNoSpace(c: char)
    requires IsCJK(c)
    ensures !IsSpace(c) && Upper(c) == c && c != '.' && c != IDEOGRAPHIC_STOP
  {
  }

  lemma PartsWithoutCJK(parts: seq<string>, text: string)
    requires Carries(parts, Strip(text)) && !ContainsCJK(text)
    ensures NoneHasCJK(parts)
  {
    hide Strip, Concat, IsCJK, IsSpace;
    forall p, c | p in parts && c in p ensures !IsCJK(c) {
      if IsCJK(c) {
        CJKIsNoSpace(c);
        InConcat(parts, p, c);
        InStrip(Concat(parts), c);
        InStrip(text, c);
      }
    }
  }

  lemma PreparedWithoutCJK(text: string)
    requires Trim(text) != "" && !ContainsCJK(text)
    ensures !ContainsCJK(Prepare(text))
  {
    hide Trim, Strip, Prepare, Spaced, IsCJK, IsSpace, Upper;
    PrepareKeeps(text);
    forall c | c in Prepare(text) ensures !IsCJK(c) {
      if IsCJK(c) {
        CJKIsNoSpace(c);
        InStrip(Prepare(text), c);
        InStrip(text, c);
        InCapitalized(Strip(text), c);
      }
    }
  }

  lemma InCapitalized(s: string, c: char)
    requires IsCJK(c)
    ensures c in Capitalized(s) ==> c in s
  {
    if s != "" {
      assert s == [s[0]] + s[1..];
    }
  }

  lemma SlicesWithoutCJK(count: Counter, prepared: string, max: nat)
    requires CutsLawfully(count, max) && SpacesAdd(count) && !ContainsCJK(prepared)
    ensures AllFit(count, Packed(count, prepared, max), max)
  {
    hide AllFit, SentencesSlices, Candidates, Pack, Joins, Strip, Concat, ContainsCJK, CutsLawfully, SpacesAdd, Trim;
    var slices := SentencesSlices(count, Candidates(prepared), max);
    CandidatesKeepAll(prepared);
    SentencesCarry(count, Candidates(prepared), max);
    PartsWithoutCJK(slices, prepared);
    NothingHasCJK();
    SpaceJoinsFit(count, slices, "", max);
    PackFitsExactly(count, slices, "", max);
  }

  lemma NothingHasCJK()
    ensures !ContainsCJK("")
  {
  }

  /** Under a clean vocabulary with an unknown token, every text without such characters that is split into
      chunks is split within the budget, if the budget is at least two tokens. */
  lemma CleanChunksFit(v: T.Vocabulary, text: string, maxTokens: int)
    requires T.Valid(v) && Clean(v) && v.unkID >= 0 && maxTokens >= 2 && !ContainsCJK(text)
    requires |Chunks(CounterOf(v), text, maxTokens)| > 1
    ensures AllFit(CounterOf(v), Chunks(CounterOf(v), text, maxTokens), maxTokens)
  {
    hide T.Valid, Clean, TokenCount, AllFit, Packed, Prepare, ContainsCJK, OneFits, NeverOversteps, KeepsBudget,
         StepBackFits, Trim;
    var count, t := CounterOf(v), Trim(text);
    CleanKeepsBudget(v, maxTokens);
    OneSymbolCounts(v, maxTokens);
    forall l: string, r: string | l != "" && r != "" ensures count(l + " " + r) == count(l) + count(r) {
      JoinCountsAdd(v, l, r);
    }
    TrimHasNone(text);
    PreparedWithoutCJK(t);
    SlicesWithoutCJK(count, Prepare(t), maxTokens);
  }

  lemma TrimHasNone(text: string)
    requires !ContainsCJK(text)
    ensures !ContainsCJK(Trim(text)) && Trim(Trim(text)) == Trim(text)
  {
    hide Trim, IsCJK;
    var a, b := TrimParts(text);
    assert forall c | c in Trim(text) :: c in text;
    TrimIsTrimmed(text);
    TrimOfTrimmed(Trim(text));
  }

  // ----- Pieces of one rune -----

  ghost predicate RuneByRune(v: T.Vocabulary)
    requires T.Valid(v)
  {
    forall s: string | T.Usable(v, s) :: |s| <= 1
  }

  lemma {:induction false} OneStepARune(v: T.Vocabulary, p: string, path: seq<T.Edge>, n: nat)
    requires T.Valid(v) && RuneByRune(v) && T.IsPath(v, p, path, n)
    ensures |path| == n
  {
    hide T.Usable, T.HasMatch, T.FallbackID;
    if path != [] {
      OneStepARune(v, p, path[..|path| - 1], path[|path| - 1].start);
    }
  }

  lemma RunesCount(v: T.Vocabulary, text: string)
    requires T.Valid(v) && RuneByRune(v) && v.unkID >= 0 && text != ""
    ensures TokenCount(v, text) == |text| + 1
  {
    hide T.Best, T.BestPath, T.IsPath, T.Prepared, TokenCount, RuneByRune;
    var p := T.Prepared(text);
    PreparedAt(text, 0);
    CountIsSteps(v, text, p);
    T.BestPathIsPath(v, p, |p|);
    OneStepARune(v, p, T.BestPath(v, p, |p|), |p|);
  }

  /** A vocabulary of single runes with an unknown token keeps every budget of at least two tokens, for all texts. */
  lemma RuneByRuneIsLawful(v: T.Vocabulary, max: nat)
    requires T.Valid(v) && RuneByRune(v) && v.unkID >= 0 && max >= 2
    ensures Clean(v) && Lawful(CounterOf(v), max)
  {
    hide T.Usable, Parts, Mark, TokenCount, NeverOversteps, KeepsBudget, StepBackFits, OneFits, Trimmed, ContainsCJK;
    CleanKeepsBudget(v, max);
    OneSymbolCounts(v, max);
    var count := CounterOf(v);
    forall l: string, r: string | l != "" && r != "" && Trimmed(l) && Trimmed(r) && count(l) + count(r) <= max
      ensures count(Join(l, r)) <= max
    {
      RunesCount(v, l);
      RunesCount(v, r);
      RunesCount(v, Join(l, r));
    }
  }
}
