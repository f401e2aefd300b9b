/**
 Splitting a text into chunks for synthesis (pkg/ttsruntime/ttsruntime.go): preparation, splitting
 at punctuation, splitting by token budget with a binary search, and greedy packing.

 One element of a string stands for one symbol of the text. The token counter is a parameter.
 */
module Chunker {
  import opened Text

  type Counter = string -> nat

  const IDEOGRAPHIC_STOP: char := '\U{3002}'

  predicate EndsSentence(c: char) {
    c in {'.', '!', '?', ';', IDEOGRAPHIC_STOP, '\U{FF01}', '\U{FF1F}', '\U{FF1B}'}
  }

  predicate EndsClause(c: char) {
    c in {',', ';', ':', '\U{FF0C}', '\U{3001}', '\U{FF1B}', '\U{FF1A}'}
  }

  predicate Closes(c: char) {
    c in {'"', '\'', '\U{201D}', '\U{2019}', ')', ']', '}', '\U{FF09}', '\U{3011}', '\U{300B}', '\U{300D}', '\U{300F}'}
  }

  predicate IsCJK(c: char) {
    var x := c as int;
    0x3400 <= x <= 0x4DBF || 0x4E00 <= x <= 0x9FFF || 0x3040 <= x <= 0x30FF || 0xAC00 <= x <= 0xD7AF
  }

  predicate ContainsCJK(s: string) {
    exists c | c in s :: IsCJK(c)
  }

  // ----- What is kept: the text without white space -----

  function Strip(s: string): string {
    if s == [] then [] else StripChar(s[0]) + Strip(s[1..])
  }

  function Concat(parts: seq<string>): string {
    if parts == [] then [] else parts[0] + Concat(parts[1..])
  }

  function StripChar(c: char): string {
    if IsSpace(c) then [] else [c]
  }

  lemma {:induction false} StripConcat(a: string, b: string)
    ensures Strip(a + b) == Strip(a) + Strip(b)
  {
    hide StripChar;
    if a == [] {
      assert a + b == b;
    } else {
      var s := a + b;
      StripConcat(a[1..], b);
      assert s[1..] == a[1..] + b && s[0] == a[0];
      assert Strip(s) == StripChar(a[0]) + (Strip(a[1..]) + Strip(b));
    }
  }

  lemma {:induction false} StripSpaces(s: string)
    requires AllSpace(s)
    ensures Strip(s) == []
  {
    if s != [] {
      assert s[0] in s;
      StripSpaces(s[1..]);
    }
  }

  lemma StripTrim(s: string)
    ensures Strip(Trim(s)) == Strip(s)
  {
    hide Strip, Trim;
    var a, b := TrimParts(s);
    StripConcat(a + Trim(s), b);
    StripConcat(a, Trim(s));
    StripSpaces(a);
    StripSpaces(b);
  }

  lemma {:induction false} ConcatAppend(parts: seq<string>, last: string)
    ensures Concat(parts + [last]) == Concat(parts) + last
  {
    if parts == [] {
      assert parts + [last] == [last];
      assert Concat([last]) == last + Concat([]);
    } else {
      ConcatAppend(parts[1..], last);
      assert (parts + [last])[1..] == parts[1..] + [last];
    }
  }

  lemma {:induction false} StripOfConcat(a: seq<string>, b: seq<string>)
    ensures Strip(Concat(a + b)) == Strip(Concat(a)) + Strip(Concat(b))
  {
    hide Strip;
    if a == [] {
      assert a + b == b;
      StripSpaces([]);
    } else {
      StripOfConcat(a[1..], b);
      assert (a + b)[1..] == a[1..] + b;
      StripConcat(a[0], Concat((a + b)[1..]));
      StripConcat(a[0], Concat(a[1..]));
    }
  }

  // ----- Splitting at punctuation -----

  predicate Blank(c: char) {
    c == ' ' || c == '\t'
  }

  /** The first position from `i` on whose character satisfies `p`. */
  function Find(text: string, i: nat, p: char -> bool): (k: nat)
    requires i <= |text|
    ensures i <= k <= |text| && (k < |text| ==> p(text[k]))
    ensures forall j | i <= j < k :: !p(text[j])
    decreases |text| - i
  {
    if i == |text| || p(text[i]) then i else Find(text, i + 1, p)
  }

  function SkipWhile(text: string, i: nat, p: char -> bool): (k: nat)
    requires i <= |text|
    ensures i <= k <= |text| && (k < |text| ==> !p(text[k]))
    ensures forall j | i <= j < k :: p(text[j])
    decreases |text| - i
  {
    if i == |text| || !p(text[i]) then i else SkipWhile(text, i + 1, p)
  }

  function Part(s: string): seq<string> {
    if Trim(s) == "" then [] else [Trim(s)]
  }

  /** The sentences from position `i` on: each ends with a punctuation mark and the closing marks after it. */
  function Sentences(text: string, punctuation: char -> bool, i: nat): seq<string>
    requires i <= |text|
    decreases |text| - i
  {
    var k := Find(text, i, punctuation);
    if k == |text| then Part(text[i..])
    else
      var e := SkipWhile(text, k + 1, Closes);
      Part(text[i..e]) + Sentences(text, punctuation, SkipWhile(text, e, Blank))
  }

  lemma StripPart(s: string)
    ensures Strip(Concat(Part(s))) == Strip(s)
    ensures forall p | p in Part(s) :: p != "" && Trimmed(p)
  {
    StripTrim(s);
    if Trim(s) != "" {
      assert Concat([Trim(s)]) == Trim(s) + Concat([]) == Trim(s);
    }
  }

  /** Splitting at punctuation loses white space only. */
  lemma {:induction false} SentencesKeepAll(text: string, punctuation: char -> bool, i: nat)
    requires i <= |text|
    ensures Strip(Concat(Sentences(text, punctuation, i))) == Strip(text[i..])
    ensures forall p | p in Sentences(text, punctuation, i) :: p != "" && Trimmed(p)
    decreases |text| - i
  {
    hide Strip, Concat, Part, Trim, Trimmed;
    var k := Find(text, i, punctuation);
    if k == |text| {
      StripPart(text[i..]);
    } else {
      var e := SkipWhile(text, k + 1, Closes);
      var b := SkipWhile(text, e, Blank);
      SentencesKeepAll(text, punctuation, b);
      StripPart(text[i..e]);
      StripOfConcat(Part(text[i..e]), Sentences(text, punctuation, b));
      StripBlanks(text, i, e, b);
    }
  }

  lemma StripBlanks(text: string, i: nat, e: nat, b: nat)
    requires i <= e <= b <= |text| && forall j | e <= j < b :: Blank(text[j])
    ensures Strip(text[i..]) == Strip(text[i..e]) + Strip(text[b..])
  {
    hide Strip;
    assert text[i..] == text[i..e] + (text[e..b] + text[b..]);
    StripConcat(text[i..e], text[e..b] + text[b..]);
    StripConcat(text[e..b], text[b..]);
    StripSpaces(text[e..b]);
  }

  lemma SentencesStep(text: string, punctuation: char -> bool, i: nat, k: nat)
    requires i <= k < |text| && Find(text, i, punctuation) == k
    ensures var e := SkipWhile(text, k + 1, Closes);
            Sentences(text, punctuation, i) == Part(text[i..e]) + Sentences(text, punctuation, SkipWhile(text, e, Blank))
  {
    hide Part, Find, SkipWhile;
  }

  lemma SentencesTail(text: string, punctuation: char -> bool, i: nat)
    requires i <= |text| && Find(text, i, punctuation) == |text|
    ensures Sentences(text, punctuation, i) == Part(text[i..])
  {
  }

  method SkipBlanks(text: string, e: nat) returns (lookahead: nat)
    requires e <= |text|
    ensures lookahead == SkipWhile(text, e, Blank)
  {
    lookahead := e;
    while lookahead < |text| && (text[lookahead] == ' ' || text[lookahead] == '\t')
      invariant e <= lookahead <= |text|
      invariant SkipWhile(text, e, Blank) == SkipWhile(text, lookahead, Blank)
    {
      lookahead := lookahead + 1;
    }
  }

  method TakeClosing(text: string, chars: string, k: nat, ghost start: nat) returns (currentChars: string, lookahead: nat)
    requires start <= k <= |text| && chars == text[start..k]
    ensures lookahead == SkipWhile(text, k, Closes) && currentChars == text[start..lookahead]
  {
    currentChars, lookahead := chars, k;
    while lookahead < |text| && Closes(text[lookahead])
      invariant k <= lookahead <= |text|
      invariant currentChars == text[start..lookahead]
      invariant SkipWhile(text, k, Closes) == SkipWhile(text, lookahead, Closes)
    {
      currentChars := currentChars + [text[lookahead]];
      lookahead := lookahead + 1;
    }
  }

  /** Add a sentence unless it is blank. */
  method AddPart(sentences: seq<string>, chars: string) returns (r: seq<string>)
    ensures r == sentences + Part(chars)
  {
    var sentence := Trim(chars);
    r := if sentence != "" then sentences + [sentence] else sentences;
  }

  lemma Regroup(a: seq<string>, b: seq<string>, c: seq<string>)
    ensures a + (b + c) == (a + b) + c
  {
  }

  lemma FindHere(text: string, i: nat, p: char -> bool)
    requires i < |text|
    ensures Find(text, i, p) == if p(text[i]) then i else Find(text, i + 1, p)
  {
  }

  lemma FindAtEnd(text: string, p: char -> bool)
    ensures Find(text, |text|, p) == |text|
  {
  }

  method SplitTextByPunctuation(text: string, punctuation: char -> bool) returns (sentences: seq<string>)
    ensures sentences == Sentences(text, punctuation, 0)
  {
    hide Part, Sentences, SkipWhile, Closes, Blank, Find;
    sentences := [];
    var currentChars := "";
    var index := 0;
    ghost var start := 0;
    ghost var all := Sentences(text, punctuation, 0);
    while index < |text|
      invariant 0 <= start <= index <= |text|
      invariant currentChars == text[start..index]
      invariant Find(text, start, punctuation) == Find(text, index, punctuation)
      invariant sentences + Sentences(text, punctuation, start) == all
      decreases |text| - index
    {
      var ch := text[index];
      currentChars := currentChars + [ch];
      assert currentChars == text[start..index + 1];
      FindHere(text, index, punctuation);
      if punctuation(ch) {
        SentencesStep(text, punctuation, start, index);
        var lookahead;
        currentChars, lookahead := TakeClosing(text, currentChars, index + 1, start);
        ghost var before, part := sentences, Part(currentChars);
        sentences := AddPart(sentences, currentChars);
        currentChars := "";
        index := SkipBlanks(text, lookahead);
        Regroup(before, part, Sentences(text, punctuation, index));
        start := index;
      } else {
        index := index + 1;
      }
    }
    assert text[start..index] == text[start..];
    FindAtEnd(text, punctuation);
    SentencesTail(text, punctuation, start);
    sentences := AddPart(sentences, currentChars);
  }

  // ----- Splitting by token budget -----

  /** The scan for a boundary looks at bytes, so that it finds the ASCII ones only. */
  predicate PreferredBoundary(c: char) {
    c < '\U{80}' && (EndsSentence(c) || EndsClause(c) || c == ' ')
  }

  predicate Fits(count: Counter, rem: string, max: nat, m: nat)
    requires m <= |rem|
  {
    count(Trim(rem[..m])) <= max
  }

  /** The binary search for a prefix length, from the bounds `low` and `high` and the best length so far. */
  function Search(count: Counter, rem: string, max: nat, low: nat, high: nat, best: nat): (r: nat)
    requires 1 <= low && high <= |rem| && 1 <= best <= |rem|
    ensures 1 <= r <= |rem|
    decreases high + 1 - low
  {
    if low > high then best
    else
      var middle := (low + high) / 2;
      if Trim(rem[..middle]) == "" then Search(count, rem, max, middle + 1, high, best)
      else if Fits(count, rem, max, middle) then Search(count, rem, max, middle + 1, high, middle)
      else Search(count, rem, max, low, middle - 1, best)
  }

  /** The position behind the last preferred boundary among `prefix[scanMin + 1..scanIndex + 1]`; -1 if there is none. */
  function Boundary(prefix: string, scanIndex: int, scanMin: int): (r: int)
    requires -1 <= scanMin && scanIndex < |prefix|
    ensures r == -1 || scanMin + 1 < r <= scanIndex + 1
    decreases scanIndex - scanMin
  {
    if scanIndex <= scanMin then -1
    else if PreferredBoundary(prefix[scanIndex]) then scanIndex + 1
    else Boundary(prefix, scanIndex - 1, scanMin)
  }

  function ScanMin(n: nat): int {
    if n < 24 then -1 else n - 25
  }

  /** Where to cut: behind a preferred boundary among the last 24 symbols of the best prefix, or behind the prefix. */
  function Cut(count: Counter, rem: string, max: nat): (cut: nat)
    requires rem != ""
    ensures 1 <= cut <= Search(count, rem, max, 1, |rem|, 1) <= |rem|
  {
    var best := Search(count, rem, max, 1, |rem|, 1);
    var preferred := Boundary(rem[..best], best - 1, ScanMin(best));
    var cut := if preferred > 0 then preferred else best;
    if Trim(rem[..cut]) == "" then best else cut
  }

  function BudgetPieces(count: Counter, rem: string, max: nat): seq<string>
    decreases |rem|
  {
    if rem == "" then []
    else if count(rem) <= max then [rem]
    else
      var cut := Cut(count, rem, max);
      [Trim(rem[..cut])] + BudgetPieces(count, Trim(rem[cut..]), max)
  }

  lemma TrimmedHead(s: string, m: nat)
    requires s != "" && Trimmed(s) && 1 <= m <= |s|
    ensures Trim(s[..m]) != ""
  {
    hide Trim;
    var t := s[..m];
    var a, b := TrimParts(t);
    if a != [] {
      HeadIsSpace(a);
    } else if Trim(t) == "" {
      HeadIsSpace(b);
    }
  }

  lemma HeadIsSpace(a: string)
    requires a != [] && AllSpace(a)
    ensures IsSpace(a[0])
  {
    assert a[0] in a;
  }

  lemma TrimIsTrimmed(s: string)
    ensures Trimmed(Trim(s)) && |Trim(s)| <= |s|
  {
  }

  /** The budget splitter loses white space only, and every piece is a non-empty trimmed text. */
  lemma {:induction false} BudgetKeepsAll(count: Counter, rem: string, max: nat)
    requires Trimmed(rem)
    ensures Strip(Concat(BudgetPieces(count, rem, max))) == Strip(rem)
    ensures forall p | p in BudgetPieces(count, rem, max) :: p != "" && Trimmed(p)
    decreases |rem|
  {
    hide Strip, Concat, Trim, Cut, Trimmed;
    if rem == "" {
      ConcatOne(rem);
      ConcatNone();
    } else if count(rem) <= max {
      ConcatOne(rem);
    } else {
      var cut := Cut(count, rem, max);
      var piece, rest := Trim(rem[..cut]), Trim(rem[cut..]);
      TrimmedHead(rem, cut);
      TrimIsTrimmed(rem[..cut]);
      TrimIsTrimmed(rem[cut..]);
      BudgetKeepsAll(count, rest, max);
      StripOfConcat([piece], BudgetPieces(count, rest, max));
      ConcatOne(piece);
      StripTrim(rem[..cut]);
      StripTrim(rem[cut..]);
      StripConcat(rem[..cut], rem[cut..]);
      assert rem == rem[..cut] + rem[cut..];
    }
  }

  lemma ConcatOne(s: string)
    ensures Concat([s]) == s
  {
    assert Concat([s]) == s + Concat([]);
  }

  lemma ConcatNone()
    ensures Concat([]) == "" && Strip("") == ""
  {
  }

  // ----- What the budget needs of the counter -----

  /** A longer prefix never has fewer tokens. */
  ghost predicate Monotone(count: Counter) {
    forall s: string, i, j | 0 <= i <= j <= |s| :: count(Trim(s[..i])) <= count(Trim(s[..j]))
  }

  /** Joining two trimmed texts that are within the budget together gives a text within the budget. */
  ghost predicate JoinFits(count: Counter, max: nat) {
    forall l: string, r: string | l != "" && r != "" && Trimmed(l) && Trimmed(r) && count(l) + count(r) <= max ::
      count(Join(l, r)) <= max
  }

  /** One symbol alone is within the budget. */
  ghost predicate OneFits(count: Counter, max: nat) {
    forall c: char | !IsSpace(c) :: count([c]) <= max
  }

  lemma LongerFitsLess(count: Counter, rem: string, max: nat, i: nat, j: nat)
    requires Monotone(count) && i <= j <= |rem| && Fits(count, rem, max, j)
    ensures Fits(count, rem, max, i)
  {
    assert count(Trim(rem[..i])) <= count(Trim(rem[..j]));
  }

  /** The binary search finds the longest prefix within the budget. */
  lemma {:induction false} SearchIsLongest(count: Counter, rem: string, max: nat, low: nat, high: nat, best: nat)
    requires Monotone(count) && rem != "" && Trimmed(rem)
    requires 1 <= low <= high + 1 && high <= |rem| && 1 <= best <= |rem| && Fits(count, rem, max, best)
    requires best == low - 1 || (low == 1 && best == 1)
    requires forall m | high < m <= |rem| :: !Fits(count, rem, max, m)
    ensures var r := Search(count, rem, max, low, high, best);
            Fits(count, rem, max, r) && forall m | r < m <= |rem| :: !Fits(count, rem, max, m)
    decreases high + 1 - low
  {
    hide Trim, Trimmed, Monotone, Search;
    if low > high {
      SearchEnds(count, rem, max, low, high, best);
    } else {
      var middle := (low + high) / 2;
      TrimmedHead(rem, middle);
      SearchStep(count, rem, max, low, high, best);
      hide Fits;
      if Fits(count, rem, max, middle) {
        SearchIsLongest(count, rem, max, middle + 1, high, middle);
      } else {
        forall m | middle <= m <= |rem| ensures !Fits(count, rem, max, m) {
          if Fits(count, rem, max, m) {
            LongerFitsLess(count, rem, max, middle, m);
          }
        }
        SearchIsLongest(count, rem, max, low, middle - 1, best);
      }
    }
  }

  lemma OneSymbolFits(count: Counter, rem: string, max: nat)
    requires OneFits(count, max) && rem != "" && Trimmed(rem)
    ensures Fits(count, rem, max, 1)
  {
    hide Trim;
    assert rem[..1] == [rem[0]];
    TrimOfTrimmed([rem[0]]);
  }

  lemma LongestPrefix(count: Counter, rem: string, max: nat)
    requires Monotone(count) && OneFits(count, max) && rem != "" && Trimmed(rem)
    ensures var r := Search(count, rem, max, 1, |rem|, 1);
            Fits(count, rem, max, r) && forall m | r < m <= |rem| :: !Fits(count, rem, max, m)
  {
    hide Search, Fits, Trimmed, OneFits, Monotone;
    OneSymbolFits(count, rem, max);
    SearchIsLongest(count, rem, max, 1, |rem|, 1);
  }

  /** The search returns a fitting prefix if the first symbol alone fits, whatever the counter. */
  lemma {:induction false} SearchFits(count: Counter, rem: string, max: nat, low: nat, high: nat, best: nat)
    requires 1 <= low && high <= |rem| && 1 <= best <= |rem| && Fits(count, rem, max, best)
    ensures Fits(count, rem, max, Search(count, rem, max, low, high, best))
    decreases high + 1 - low
  {
    hide Trim, Fits;
    if low <= high {
      var middle := (low + high) / 2;
      if Trim(rem[..middle]) == "" {
        SearchFits(count, rem, max, middle + 1, high, best);
      } else if Fits(count, rem, max, middle) {
        SearchFits(count, rem, max, middle + 1, high, middle);
      } else {
        SearchFits(count, rem, max, low, middle - 1, best);
      }
    }
  }

  /** In the first round the cut steps back from the best prefix to a boundary, and what is left of
      the prefix is over the budget. */
  predicate Oversteps(count: Counter, rem: string, max: nat) {
    rem != "" && count(rem) > max &&
    Cut(count, rem, max) < Search(count, rem, max, 1, |rem|, 1) && !Fits(count, rem, max, Cut(count, rem, max))
  }

  /** No text makes the first round overstep. */
  ghost predicate NeverOversteps(count: Counter, max: nat) {
    forall rem: string | Trimmed(rem) :: !Oversteps(count, rem, max)
  }

  /** Every text is split within the budget. */
  ghost predicate KeepsBudget(count: Counter, max: nat) {
    forall rem: string | Trimmed(rem) :: AllFit(count, BudgetPieces(count, rem, max), max)
  }

  /** A text is split within the budget if every single symbol fits and no round oversteps. */
  lemma {:induction false} BudgetHolds(count: Counter, rem: string, max: nat)
    requires OneFits(count, max) && NeverOversteps(count, max) && Trimmed(rem)
    ensures AllFit(count, BudgetPieces(count, rem, max), max)
    decreases |rem|
  {
    hide Trim, Cut, Trimmed, Search, OneFits, Fits, NeverOversteps;
    if rem != "" && count(rem) > max {
      var cut := Cut(count, rem, max);
      FirstCutFits(count, rem, max);
      TrimIsTrimmed(rem[cut..]);
      BudgetHolds(count, Trim(rem[cut..]), max);
    }
  }

  lemma FirstCutFits(count: Counter, rem: string, max: nat)
    requires OneFits(count, max) && NeverOversteps(count, max) && Trimmed(rem) && rem != "" && count(rem) > max
    ensures count(Trim(rem[..Cut(count, rem, max)])) <= max
  {
    hide Trim, Cut, Trimmed, Search, OneFits;
    OneSymbolFits(count, rem, max);
    SearchFits(count, rem, max, 1, |rem|, 1);
    assert !Oversteps(count, rem, max);
  }

  /** Exactly when every text is split within the budget: each symbol alone fits, and no text over the
      budget makes the cut step back to a boundary behind a prefix that is over the budget. */
  lemma BudgetExactly(count: Counter, max: nat)
    ensures KeepsBudget(count, max) <==> OneFits(count, max) && NeverOversteps(count, max)
  {
    hide Trim, Cut, Trimmed, Search, OneFits, NeverOversteps, BudgetPieces, AllFit, Oversteps;
    if OneFits(count, max) && NeverOversteps(count, max) {
      forall rem: string | Trimmed(rem) ensures AllFit(count, BudgetPieces(count, rem, max), max) {
        BudgetHolds(count, rem, max);
      }
    }
    if KeepsBudget(count, max) {
      OneFitsOf(count, max);
      NeverOverstepsOf(count, max);
    }
  }

  lemma OneFitsOf(count: Counter, max: nat)
    requires KeepsBudget(count, max)
    ensures OneFits(count, max)
  {
    hide Trim, BudgetPieces;
    forall c: char | !IsSpace(c) ensures count([c]) <= max {
      TrimOfTrimmed([c]);
      SingleStays(count, c, max);
      assert Trimmed([c]) && AllFit(count, BudgetPieces(count, [c], max), max);
      assert [c] in BudgetPieces(count, [c], max);
    }
  }

  /** A text of one symbol is not split. */
  lemma SingleStays(count: Counter, c: char, max: nat)
    requires Trim([c]) == [c]
    ensures [c] in BudgetPieces(count, [c], max)
  {
    hide Trim, Search;
    var rem := [c];
    assert 1 <= Cut(count, rem, max) <= 1;
    assert rem[..1] == rem;
    var rest := BudgetPieces(count, Trim(rem[1..]), max);
    assert BudgetPieces(count, rem, max) == [rem] || BudgetPieces(count, rem, max) == [rem] + rest;
  }

  lemma NeverOverstepsOf(count: Counter, max: nat)
    requires KeepsBudget(count, max)
    ensures NeverOversteps(count, max)
  {
    hide Trim, Search, Cut, Trimmed;
    forall rem: string | Trimmed(rem) ensures !Oversteps(count, rem, max) {
      var pieces := BudgetPieces(count, rem, max);
      assert AllFit(count, pieces, max);
      if rem != "" && count(rem) > max {
        assert pieces[0] == Trim(rem[..Cut(count, rem, max)]) && pieces[0] in pieces;
      }
    }
  }

  /** Stepping back from a fitting prefix to a boundary among its last 24 symbols leaves a fitting prefix. */
  ghost predicate StepBackFits(count: Counter, max: nat) {
    forall s: string, i, j | 0 < i <= j <= |s| && j < i + 24 && PreferredBoundary(s[i - 1]) ::
      count(Trim(s[..j])) <= max ==> count(Trim(s[..i])) <= max
  }

  /** That law of the counter alone is enough, and it follows from monotonicity. */
  lemma StepBackSuffices(count: Counter, max: nat)
    requires OneFits(count, max)
    ensures StepBackFits(count, max) ==> NeverOversteps(count, max)
    ensures Monotone(count) ==> StepBackFits(count, max)
  {
    hide Trim, Search, Trimmed, OneFits, Cut, Fits, Monotone, StepBackFits;
    if StepBackFits(count, max) {
      forall rem: string | Trimmed(rem) ensures !Oversteps(count, rem, max) {
        if rem != "" {
          StepBackKeepsCut(count, rem, max);
        }
      }
    }
    if Monotone(count) {
      MonotoneStepsBack(count, max);
    }
  }

  lemma MonotoneStepsBack(count: Counter, max: nat)
    requires Monotone(count)
    ensures StepBackFits(count, max)
  {
    hide Trim;
    forall s: string, i, j | 0 < i <= j <= |s| && j < i + 24 && PreferredBoundary(s[i - 1])
      ensures count(Trim(s[..j])) <= max ==> count(Trim(s[..i])) <= max
    {
      assert count(Trim(s[..i])) <= count(Trim(s[..j]));
    }
  }

  lemma StepBackKeepsCut(count: Counter, rem: string, max: nat)
    requires OneFits(count, max) && StepBackFits(count, max) && Trimmed(rem) && rem != ""
    ensures !Oversteps(count, rem, max)
  {
    hide Trim, Search, Trimmed, OneFits, Boundary;
    OneSymbolFits(count, rem, max);
    SearchFits(count, rem, max, 1, |rem|, 1);
    var best := Search(count, rem, max, 1, |rem|, 1);
    var preferred := Boundary(rem[..best], best - 1, ScanMin(best));
    BoundaryIsPreferred(rem[..best], best - 1, ScanMin(best));
    if 0 < preferred < best {
      assert PreferredBoundary(rem[preferred - 1]) && best < preferred + 24;
    }
  }

  lemma {:induction false} BoundaryIsPreferred(prefix: string, scanIndex: int, scanMin: int)
    requires -1 <= scanMin && scanIndex < |prefix|
    ensures var r := Boundary(prefix, scanIndex, scanMin); r > 0 ==> r <= |prefix| && PreferredBoundary(prefix[r - 1])
    decreases scanIndex - scanMin
  {
    hide PreferredBoundary;
    if scanIndex > scanMin && !PreferredBoundary(prefix[scanIndex]) {
      BoundaryIsPreferred(prefix, scanIndex - 1, scanMin);
    }
  }

  lemma SearchStep(count: Counter, rem: string, max: nat, low: nat, high: nat, best: nat)
    requires 1 <= low <= high <= |rem| && 1 <= best <= |rem|
    ensures var middle := (low + high) / 2;
            var candidate := Trim(rem[..middle]);
            Search(count, rem, max, low, high, best) ==
            if candidate == "" then Search(count, rem, max, middle + 1, high, best)
            else if count(candidate) <= max then Search(count, rem, max, middle + 1, high, middle)
            else Search(count, rem, max, low, middle - 1, best)
  {
    hide Trim;
  }

  lemma SearchEnds(count: Counter, rem: string, max: nat, low: nat, high: nat, best: nat)
    requires 1 <= low && high < low && high <= |rem| && 1 <= best <= |rem|
    ensures Search(count, rem, max, low, high, best) == best
  {
  }

  method SearchPrefix(count: Counter, rem: string, max: nat) returns (bestPrefixLength: nat)
    requires rem != ""
    ensures bestPrefixLength == Search(count, rem, max, 1, |rem|, 1)
  {
    hide Trim, Search;
    var low: nat, high: nat := 1, |rem|;
    bestPrefixLength := 1;
    while low <= high
      invariant 1 <= low && high <= |rem| && 1 <= bestPrefixLength <= |rem|
      invariant Search(count, rem, max, low, high, bestPrefixLength) == Search(count, rem, max, 1, |rem|, 1)
      decreases high + 1 - low
    {
      SearchStep(count, rem, max, low, high, bestPrefixLength);
      var middle := (low + high) / 2;
      var candidate := Trim(rem[..middle]);
      if candidate == "" {
        low := middle + 1;
        continue;
      }
      if count(candidate) <= max {
        bestPrefixLength := middle;
        low := middle + 1;
      } else {
        high := middle - 1;
      }
    }
    SearchEnds(count, rem, max, low, high, bestPrefixLength);
  }

  method ScanBoundary(prefix: string) returns (preferredIndex: int)
    requires prefix != ""
    ensures preferredIndex == Boundary(prefix, |prefix| - 1, ScanMin(|prefix|))
  {
    preferredIndex := -1;
    var scanMin := |prefix| - 25;
    if scanMin < -1 {
      scanMin := -1;
    }
    var scanIndex := |prefix| - 1;
    while scanIndex > scanMin
      invariant scanMin <= scanIndex < |prefix| && preferredIndex == -1
      invariant Boundary(prefix, scanIndex, scanMin) == Boundary(prefix, |prefix| - 1, ScanMin(|prefix|))
      decreases scanIndex
    {
      if PreferredBoundary(prefix[scanIndex]) {
        preferredIndex := scanIndex + 1;
        break;
      }
      scanIndex := scanIndex - 1;
    }
  }

  /** One round: the piece to cut off and where the rest begins. */
  method CutPiece(count: Counter, remainingText: string, max: nat) returns (piece: string, cutIndex: nat)
    requires remainingText != ""
    ensures cutIndex == Cut(count, remainingText, max) && piece == Trim(remainingText[..cutIndex])
  {
    hide Trim, Search, Boundary;
    var bestPrefixLength := SearchPrefix(count, remainingText, max);
    cutIndex := bestPrefixLength;
    var prefix := remainingText[..bestPrefixLength];
    var preferredIndex := ScanBoundary(prefix);
    if preferredIndex > 0 {
      cutIndex := preferredIndex;
    }
    piece := Trim(remainingText[..cutIndex]);
    if piece == "" {
      piece := Trim(remainingText[..bestPrefixLength]);
      cutIndex := bestPrefixLength;
    }
  }

  /** Each round takes at least one symbol, so the loop ends. */
  method SplitTextByTokenBudget(count: Counter, text: string, max: nat) returns (pieces: seq<string>)
    ensures pieces == BudgetPieces(count, Trim(text), max)
  {
    hide Trim, Cut;
    var remainingText := Trim(text);
    if remainingText == "" {
      return [];
    }
    pieces := [];
    while remainingText != ""
      invariant pieces + BudgetPieces(count, remainingText, max) == BudgetPieces(count, Trim(text), max)
      decreases |remainingText|
    {
      if count(remainingText) <= max {
        pieces := pieces + [remainingText];
        break;
      }
      var piece, cutIndex := CutPiece(count, remainingText, max);
      var rest := Trim(remainingText[cutIndex..]);
      Regroup(pieces, [piece], BudgetPieces(count, rest, max));
      pieces := pieces + [piece];
      remainingText := rest;
    }
  }

  // ----- Slices -----

  function NonBlank(parts: seq<string>): seq<string> {
    if parts == [] then [] else Part(parts[0]) + NonBlank(parts[1..])
  }

  function ClauseSlices(count: Counter, clause: string, max: nat): seq<string> {
    var c := Trim(clause);
    if c == "" then [] else if count(c) <= max then [c] else NonBlank(BudgetPieces(count, c, max))
  }

  function ClausesSlices(count: Counter, clauses: seq<string>, max: nat): seq<string> {
    if clauses == [] then [] else ClauseSlices(count, clauses[0], max) + ClausesSlices(count, clauses[1..], max)
  }

  function SentenceSlices(count: Counter, sentence: string, max: nat): seq<string> {
    var n := Trim(sentence);
    if n == "" then [] else if count(n) <= max then [n]
    else
      var clauses := Sentences(n, EndsClause, 0);
      ClausesSlices(count, if |clauses| <= 1 then [n] else clauses, max)
  }

  function SentencesSlices(count: Counter, sentences: seq<string>, max: nat): seq<string> {
    if sentences == [] then []
    else SentenceSlices(count, sentences[0], max) + SentencesSlices(count, sentences[1..], max)
  }

  /** A slice list that carries the given text: non-empty trimmed parts whose symbols are the text's. */
  ghost predicate Carries(parts: seq<string>, symbols: string) {
    Strip(Concat(parts)) == symbols && forall p | p in parts :: p != "" && Trimmed(p)
  }

  ghost predicate AllFit(count: Counter, parts: seq<string>, max: nat) {
    forall p | p in parts :: count(p) <= max
  }

  lemma CarriesAppend(a: seq<string>, b: seq<string>, x: string, y: string)
    requires Carries(a, x) && Carries(b, y)
    ensures Carries(a + b, x + y)
  {
    hide Strip, Concat;
    StripOfConcat(a, b);
  }

  lemma CarriesOne(s: string)
    ensures Trim(s) != "" ==> Carries([Trim(s)], Strip(s))
    ensures Trim(s) == "" ==> Strip(s) == ""
  {
    hide Strip, Concat, Trim;
    StripTrim(s);
    TrimIsTrimmed(s);
    ConcatOne(Trim(s));
    ConcatNone();
  }

  lemma CarriesNone()
    ensures Carries([], "")
  {
  }

  lemma {:induction false} NonBlankCarries(parts: seq<string>, count: Counter, max: nat)
    ensures Carries(NonBlank(parts), Strip(Concat(parts)))
    ensures (forall p | p in parts :: Trimmed(p)) && AllFit(count, parts, max) ==> AllFit(count, NonBlank(parts), max)
  {
    hide Strip, Trim, Carries;
    if parts == [] {
      CarriesNone();
      ConcatNone();
    } else {
      NonBlankCarries(parts[1..], count, max);
      CarriesOne(parts[0]);
      CarriesNone();
      StripConcat(parts[0], Concat(parts[1..]));
      CarriesAppend(Part(parts[0]), NonBlank(parts[1..]), Strip(parts[0]), Strip(Concat(parts[1..])));
      if (forall p | p in parts :: Trimmed(p)) && AllFit(count, parts, max) {
        TrimOfTrimmed(parts[0]);
      }
    }
  }

  /** What the counter must be for the budget to hold in cutting clauses. */
  ghost predicate CutsLawfully(count: Counter, max: nat) {
    OneFits(count, max) && NeverOversteps(count, max)
  }

  /** And in packing the slices. */
  ghost predicate Lawful(count: Counter, max: nat) {
    CutsLawfully(count, max) && JoinFits(count, max)
  }

  lemma ClauseCarries(count: Counter, clause: string, max: nat)
    ensures Carries(ClauseSlices(count, clause, max), Strip(clause))
    ensures CutsLawfully(count, max) ==> AllFit(count, ClauseSlices(count, clause, max), max)
  {
    hide Strip, Concat, Trim, Carries, BudgetPieces, NonBlank, NeverOversteps, OneFits;
    var c := Trim(clause);
    CarriesOne(clause);
    CarriesNone();
    if c != "" && count(c) > max {
      TrimIsTrimmed(clause);
      BudgetKeepsAll(count, c, max);
      NonBlankCarries(BudgetPieces(count, c, max), count, max);
      StripTrim(clause);
      if CutsLawfully(count, max) {
        BudgetHolds(count, c, max);
      }
    }
  }

  lemma {:induction false} ClausesCarry(count: Counter, clauses: seq<string>, max: nat)
    ensures Carries(ClausesSlices(count, clauses, max), Strip(Concat(clauses)))
    ensures CutsLawfully(count, max) ==> AllFit(count, ClausesSlices(count, clauses, max), max)
  {
    hide Strip, Carries, ClauseSlices, CutsLawfully;
    if clauses == [] {
      CarriesNone();
      ConcatNone();
    } else {
      ClausesCarry(count, clauses[1..], max);
      ClauseCarries(count, clauses[0], max);
      StripConcat(clauses[0], Concat(clauses[1..]));
      CarriesAppend(ClauseSlices(count, clauses[0], max), ClausesSlices(count, clauses[1..], max),
                    Strip(clauses[0]), Strip(Concat(clauses[1..])));
    }
  }

  lemma SentenceCarries(count: Counter, sentence: string, max: nat)
    ensures Carries(SentenceSlices(count, sentence, max), Strip(sentence))
    ensures CutsLawfully(count, max) ==> AllFit(count, SentenceSlices(count, sentence, max), max)
  {
    hide Strip, Concat, Trim, Carries, Sentences, ClausesSlices, CutsLawfully;
    var n := Trim(sentence);
    CarriesOne(sentence);
    CarriesNone();
    if n != "" && count(n) > max {
      var clauses := Sentences(n, EndsClause, 0);
      var used := if |clauses| <= 1 then [n] else clauses;
      ClausesCarry(count, used, max);
      SentencesKeepAll(n, EndsClause, 0);
      ConcatOne(n);
      StripTrim(sentence);
      assert n[0..] == n;
    }
  }

  lemma {:induction false} SentencesCarry(count: Counter, sentences: seq<string>, max: nat)
    ensures Carries(SentencesSlices(count, sentences, max), Strip(Concat(sentences)))
    ensures CutsLawfully(count, max) ==> AllFit(count, SentencesSlices(count, sentences, max), max)
  {
    hide Strip, Carries, SentenceSlices, CutsLawfully;
    if sentences == [] {
      CarriesNone();
      ConcatNone();
    } else {
      SentencesCarry(count, sentences[1..], max);
      SentenceCarries(count, sentences[0], max);
      StripConcat(sentences[0], Concat(sentences[1..]));
      CarriesAppend(SentenceSlices(count, sentences[0], max), SentencesSlices(count, sentences[1..], max),
                    Strip(sentences[0]), Strip(Concat(sentences[1..])));
    }
  }

  // ----- Packing -----

  function Join(left: string, right: string): string {
    if left == "" then right
    else if right == "" then left
    else if ContainsCJK(left) || ContainsCJK(right) then left + right
    else left + " " + right
  }

  /** Greedy packing of the slices after the open chunk `current`. */
  function Pack(count: Counter, slices: seq<string>, current: string, max: nat): seq<string> {
    if slices == [] then (if current == "" then [] else [Trim(current)])
    else if current == "" then Pack(count, slices[1..], slices[0], max)
    else if count(current) + count(slices[0]) > max then [Trim(current)] + Pack(count, slices[1..], slices[0], max)
    else Pack(count, slices[1..], Join(current, slices[0]), max)
  }

  lemma JoinKeepsAll(left: string, right: string)
    requires left != "" && right != "" && Trimmed(left) && Trimmed(right)
    ensures Strip(Join(left, right)) == Strip(left) + Strip(right)
    ensures Join(left, right) != "" && Trimmed(Join(left, right))
  {
    hide Strip;
    StripConcat(left, right);
    StripConcat(left + " ", right);
    StripConcat(left, " ");
    StripSpaces(" ");
  }

  lemma {:induction false} PackCarries(count: Counter, slices: seq<string>, current: string, max: nat)
    requires Trimmed(current) && forall p | p in slices :: p != "" && Trimmed(p)
    ensures Carries(Pack(count, slices, current, max), Strip(current) + Strip(Concat(slices)))
    decreases |slices|
  {
    hide Strip, Carries, Join, Trim, Trimmed;
    TrimOfTrimmed(current);
    CarriesOne(current);
    CarriesNone();
    ConcatNone();
    if slices == [] {
      assert Strip(current) + "" == Strip(current);
    } else {
      var s, rest := slices[0], slices[1..];
      assert s in slices && forall p | p in rest :: p in slices;
      StripConcat(s, Concat(rest));
      var tail := Strip(s) + Strip(Concat(rest));
      if current == "" {
        PackCarries(count, rest, s, max);
        assert Strip(current) + tail == tail;
      } else if count(current) + count(s) > max {
        PackCarries(count, rest, s, max);
        CarriesAppend([Trim(current)], Pack(count, rest, s, max), Strip(current), tail);
      } else {
        JoinKeepsAll(current, s);
        PackCarries(count, rest, Join(current, s), max);
        assert Strip(current) + Strip(s) + Strip(Concat(rest)) == Strip(current) + tail;
      }
    }
  }

  lemma {:induction false} PackFits(count: Counter, slices: seq<string>, current: string, max: nat)
    requires JoinFits(count, max) && AllFit(count, slices, max) && (current != "" ==> count(current) <= max)
    requires Trimmed(current) && forall p | p in slices :: p != "" && Trimmed(p)
    ensures AllFit(count, Pack(count, slices, current, max), max)
    decreases |slices|
  {
    hide Join, Trim, Trimmed;
    TrimOfTrimmed(current);
    if slices != [] {
      var s, rest := slices[0], slices[1..];
      assert s in slices && forall p | p in rest :: p in slices;
      if current == "" || count(current) + count(s) > max {
        PackFits(count, rest, s, max);
      } else {
        JoinKeepsAll(current, s);
        assert count(Join(current, s)) <= max;
        PackFits(count, rest, Join(current, s), max);
      }
    }
  }

  /** Every list of fitting slices is packed into fitting chunks. */
  ghost predicate PacksFit(count: Counter, max: nat) {
    forall slices: seq<string> | AllFit(count, slices, max) && (forall p | p in slices :: p != "" && Trimmed(p)) ::
      AllFit(count, Pack(count, slices, "", max), max)
  }

  /** Packing keeps the budget for all slices exactly when joining two texts within it does. */
  lemma PackExactly(count: Counter, max: nat)
    ensures PacksFit(count, max) <==> JoinFits(count, max)
  {
    assert Trimmed("");
    hide Trim, Trimmed, Join, Pack;
    if JoinFits(count, max) {
      forall slices: seq<string> | AllFit(count, slices, max) && (forall p | p in slices :: p != "" && Trimmed(p))
        ensures AllFit(count, Pack(count, slices, "", max), max)
      {
        PackFits(count, slices, "", max);
      }
    }
    if PacksFit(count, max) {
      forall l: string, r: string | l != "" && r != "" && Trimmed(l) && Trimmed(r) && count(l) + count(r) <= max
        ensures count(Join(l, r)) <= max
      {
        PackOfTwo(count, l, r, max);
        assert Join(l, r) in Pack(count, [l, r], "", max);
      }
    }
  }

  lemma PackOfTwo(count: Counter, l: string, r: string, max: nat)
    requires l != "" && r != "" && Trimmed(l) && Trimmed(r) && count(l) + count(r) <= max
    ensures Pack(count, [l, r], "", max) == [Join(l, r)]
  {
    hide Trim, Trimmed;
    JoinKeepsAll(l, r);
    TrimOfTrimmed(Join(l, r));
    assert [l, r][1..] == [r] && [r][1..] == [];
    hide Join;
    var j := Join(l, r);
    assert Pack(count, [], j, max) == [j];
    assert Pack(count, [r], l, max) == Pack(count, [], j, max);
  }

  // ----- Preparation -----

  predicate HasDoubleSpace(s: string) {
    exists i | 0 <= i < |s| - 1 :: s[i] == ' ' && s[i + 1] == ' '
  }

  /** strings.ReplaceAll(s, "  ", " "), once. */
  function HalveSpaces(s: string): string {
    if |s| < 2 then s
    else if s[0] == ' ' && s[1] == ' ' then " " + HalveSpaces(s[2..])
    else [s[0]] + HalveSpaces(s[1..])
  }

  lemma {:induction false} HalveSpacesShrinks(s: string)
    ensures |HalveSpaces(s)| <= |s| && (HasDoubleSpace(s) ==> |HalveSpaces(s)| < |s|)
    ensures s != "" ==> HalveSpaces(s) != "" && HalveSpaces(s)[0] == s[0]
    ensures Strip(HalveSpaces(s)) == Strip(s)
  {
    if |s| >= 2 {
      if s[0] == ' ' && s[1] == ' ' {
        HalveSpacesShrinks(s[2..]);
        StripConcat(" ", HalveSpaces(s[2..]));
        StripConcat("  ", s[2..]);
        StripSpaces(" ");
        StripSpaces("  ");
        assert s == "  " + s[2..];
      } else {
        HalveSpacesShrinks(s[1..]);
        StripConcat([s[0]], HalveSpaces(s[1..]));
        StripConcat([s[0]], s[1..]);
        assert s == [s[0]] + s[1..];
        assert forall i | 1 <= i < |s| - 1 && s[i] == ' ' && s[i + 1] == ' ' :: s[1..][i - 1] == ' ' && s[1..][i] == ' ';
      }
    }
  }

  /** Runs of spaces become single spaces. */
  function CollapseSpaces(s: string): string
    decreases |s|
  {
    HalveSpacesShrinks(s);
    if HasDoubleSpace(s) then CollapseSpaces(HalveSpaces(s)) else s
  }

  lemma {:induction false} CollapseKeeps(s: string)
    ensures Strip(CollapseSpaces(s)) == Strip(s)
    ensures s != "" ==> CollapseSpaces(s) != "" && CollapseSpaces(s)[0] == s[0]
    decreases |s|
  {
    HalveSpacesShrinks(s);
    if HasDoubleSpace(s) {
      CollapseKeeps(HalveSpaces(s));
    }
  }

  lemma {:induction false} StripReplaced(s: string, c: char)
    requires IsSpace(c)
    ensures Strip(Replace(s, c, ' ')) == Strip(s)
  {
    if s != "" {
      StripReplaced(s[1..], c);
    }
  }

  function Upper(c: char): char {
    if 'a' <= c <= 'z' then (c as int - 32) as char else c
  }

  function Capitalized(s: string): string {
    if s == "" then "" else [Upper(s[0])] + s[1..]
  }

  predicate IsAlnum(c: char) {
    'a' <= c <= 'z' || 'A' <= c <= 'Z' || '0' <= c <= '9'
  }

  function WordCount(s: string): nat {
    if s == "" then 0
    else WordCount(s[..|s| - 1]) +
         (if !IsSpace(s[|s| - 1]) && (|s| == 1 || IsSpace(s[|s| - 2])) then 1 else 0)
  }

  const INDENT := "        "

  function Spaced(text: string): string {
    CollapseSpaces(Replace(Replace(Trim(text), '\r', ' '), '\n', ' '))
  }

  /** prepareTextForSentenceChunking */
  function Prepare(text: string): string {
    if Trim(text) == "" then ""
    else
      var s := Spaced(text);
      if ContainsCJK(s) then
        if s != "" && !EndsSentence(s[|s| - 1]) then s + [IDEOGRAPHIC_STOP] else s
      else
        var u := Capitalized(s);
        var v := if u != "" && IsAlnum(u[|u| - 1]) then u + "." else u;
        if WordCount(v) < 5 then INDENT + v else v
  }

  lemma SpacedKeeps(text: string)
    requires Trim(text) != ""
    ensures Strip(Spaced(text)) == Strip(text)
    ensures Spaced(text) != "" && !IsSpace(Spaced(text)[0])
  {
    hide Strip, Trim, CollapseSpaces;
    TrimIsTrimmed(text);
    var t := Trim(text);
    var r := Replace(t, '\r', ' ');
    StripTrim(text);
    StripReplaced(t, '\r');
    StripReplaced(r, '\n');
    CollapseKeeps(Replace(r, '\n', ' '));
  }

  predicate FinalMark(mark: string) {
    mark == "" || mark == "." || mark == [IDEOGRAPHIC_STOP]
  }

  /** Preparation keeps all symbols of the text, up to capitalizing the first and adding one final mark. */
  lemma PrepareKeeps(text: string)
    requires Trim(text) != ""
    ensures exists mark :: FinalMark(mark) &&
              Strip(Prepare(text)) == (if ContainsCJK(Spaced(text)) then Strip(text) else Capitalized(Strip(text))) + mark
  {
    hide Strip, Trim, Spaced, ContainsCJK, Prepare;
    if ContainsCJK(Spaced(text)) {
      PrepareKeepsCJK(text);
    } else {
      PrepareKeepsOther(text);
    }
  }

  lemma PrepareKeepsCJK(text: string)
    requires Trim(text) != "" && ContainsCJK(Spaced(text))
    ensures exists mark :: FinalMark(mark) && Strip(Prepare(text)) == Strip(text) + mark
  {
    hide Strip, Trim, Spaced, ContainsCJK, EndsSentence;
    SpacedKeeps(text);
    var s := Spaced(text);
    StripConcat(s, [IDEOGRAPHIC_STOP]);
    StripSymbol(IDEOGRAPHIC_STOP);
    var mark := if !EndsSentence(s[|s| - 1]) then [IDEOGRAPHIC_STOP] else "";
    assert FinalMark(mark) && Strip(Prepare(text)) == Strip(text) + mark;
  }

  lemma PrepareKeepsOther(text: string)
    requires Trim(text) != "" && !ContainsCJK(Spaced(text))
    ensures exists mark :: FinalMark(mark) && Strip(Prepare(text)) == Capitalized(Strip(text)) + mark
  {
    hide Strip, Trim, Spaced, ContainsCJK, WordCount, IsAlnum;
    SpacedKeeps(text);
    var s := Spaced(text);
    var u := Capitalized(s);
    var mark := if IsAlnum(u[|u| - 1]) then "." else "";
    StripConcat(u, mark);
    StripSymbol('.');
    CapitalizedStrip(s);
    IndentIsSpace(u + mark);
    assert u + "" == u && Strip("") == "" by { ConcatNone(); }
    assert FinalMark(mark) && Strip(Prepare(text)) == Capitalized(Strip(text)) + mark;
  }

  lemma IndentIsSpace(s: string)
    ensures Strip(INDENT + s) == Strip(s)
  {
    hide Strip;
    StripConcat(INDENT, s);
    StripSpaces(INDENT);
  }

  lemma StripSymbol(c: char)
    requires !IsSpace(c)
    ensures Strip([c]) == [c]
  {
    assert Strip([c]) == StripChar(c) + Strip([]);
  }

  lemma CapitalizedStrip(s: string)
    requires s != "" && !IsSpace(s[0])
    ensures Strip(Capitalized(s)) == Capitalized(Strip(s))
  {
    assert Strip(s) == [s[0]] + Strip(s[1..]);
    assert Capitalized(s)[1..] == s[1..];
    assert Strip(Capitalized(s)) == [Upper(s[0])] + Strip(s[1..]);
  }

  // ----- The whole splitter -----

  function Candidates(prepared: string): seq<string> {
    var c := Sentences(prepared, EndsSentence, 0);
    if c == [] then [Trim(prepared)] else c
  }

  function Packed(count: Counter, prepared: string, max: nat): seq<string> {
    Pack(count, SentencesSlices(count, Candidates(prepared), max), "", max)
  }

  function SafeMax(maxTokens: int): nat {
    if maxTokens < 1 then 1 else maxTokens
  }

  /** SplitVoiceCloneText: the packed chunks when there are several, otherwise the trimmed text itself. */
  function Chunks(count: Counter, text: string, maxTokens: int): seq<string> {
    if Trim(text) == "" then []
    else
      var packed := Packed(count, Prepare(Trim(text)), SafeMax(maxTokens));
      if |packed| > 1 then packed else [Trim(text)]
  }

  lemma CandidatesKeepAll(prepared: string)
    ensures Strip(Concat(Candidates(prepared))) == Strip(prepared)
  {
    hide Strip, Concat, Trim, Sentences;
    SentencesKeepAll(prepared, EndsSentence, 0);
    assert prepared[0..] == prepared;
    ConcatOne(Trim(prepared));
    StripTrim(prepared);
    ConcatNone();
  }

  lemma PackedCarries(count: Counter, prepared: string, max: nat)
    ensures Carries(Packed(count, prepared, max), Strip(prepared))
    ensures Lawful(count, max) ==> AllFit(count, Packed(count, prepared, max), max)
  {
    hide Strip, Concat, Trim, Candidates, SentencesSlices, Pack, CutsLawfully, JoinFits;
    var c := Candidates(prepared);
    CandidatesKeepAll(prepared);
    ConcatNone();
    SentencesCarry(count, c, max);
    var slices := SentencesSlices(count, c, max);
    PackCarries(count, slices, "", max);
    assert "" + Strip(Concat(slices)) == Strip(Concat(slices));
    if Lawful(count, max) {
      PackFits(count, slices, "", max);
    }
  }

  /** When the text is split, the chunks in order carry exactly the prepared text's symbols, none lost,
      none added, none moved; and every chunk is a non-empty trimmed text. */
  lemma ChunksLoseNothing(count: Counter, text: string, maxTokens: int)
    requires |Chunks(count, text, maxTokens)| > 1
    ensures Strip(Concat(Chunks(count, text, maxTokens))) == Strip(Prepare(Trim(text)))
    ensures forall p | p in Chunks(count, text, maxTokens) :: p != "" && Trimmed(p)
  {
    hide Strip, Concat, Trim, Packed, Prepare;
    PackedCarries(count, Prepare(Trim(text)), SafeMax(maxTokens));
  }

  /** For a lawful counter, every chunk of a split text is within the budget. */
  lemma ChunksFit(count: Counter, text: string, maxTokens: int)
    requires Lawful(count, SafeMax(maxTokens)) && |Chunks(count, text, maxTokens)| > 1
    ensures AllFit(count, Chunks(count, text, maxTokens), SafeMax(maxTokens))
  {
    hide Trim, Packed, Prepare, Lawful;
    PackedCarries(count, Prepare(Trim(text)), SafeMax(maxTokens));
  }

  // ----- The program -----

  lemma {:induction false} NonBlankAppend(a: seq<string>, p: string)
    ensures NonBlank(a + [p]) == NonBlank(a) + Part(p)
  {
    hide Part;
    if a == [] {
      assert a + [p] == [p];
      assert NonBlank([p]) == Part(p) + NonBlank([]);
    } else {
      NonBlankAppend(a[1..], p);
      assert (a + [p])[1..] == a[1..] + [p];
    }
  }

  method SliceClause(count: Counter, clause: string, max: nat) returns (slices: seq<string>)
    ensures slices == ClauseSlices(count, clause, max)
  {
    hide Trim, Part, BudgetPieces;
    slices := [];
    var normalizedClause := Trim(clause);
    if normalizedClause == "" {
      return;
    }
    if count(normalizedClause) <= max {
      return [normalizedClause];
    }
    var pieces := SplitTextByTokenBudget(count, normalizedClause, max);
    TrimIsTrimmed(clause);
    TrimOfTrimmed(normalizedClause);
    for k := 0 to |pieces|
      invariant slices == NonBlank(pieces[..k])
    {
      NonBlankAppend(pieces[..k], pieces[k]);
      assert pieces[..k + 1] == pieces[..k] + [pieces[k]];
      slices := AddPart(slices, pieces[k]);
    }
    assert pieces[..|pieces|] == pieces;
  }

  lemma {:induction false} ClausesAppend(count: Counter, a: seq<string>, c: string, max: nat)
    ensures ClausesSlices(count, a + [c], max) == ClausesSlices(count, a, max) + ClauseSlices(count, c, max)
  {
    hide ClauseSlices;
    if a == [] {
      assert a + [c] == [c];
      assert ClausesSlices(count, [c], max) == ClauseSlices(count, c, max) + ClausesSlices(count, [], max);
    } else {
      ClausesAppend(count, a[1..], c, max);
      assert (a + [c])[1..] == a[1..] + [c];
    }
  }

  method SliceSentence(count: Counter, sentence: string, max: nat) returns (slices: seq<string>)
    ensures slices == SentenceSlices(count, sentence, max)
  {
    hide Trim, ClauseSlices, Sentences;
    slices := [];
    var normalizedSentence := Trim(sentence);
    if normalizedSentence == "" {
      return;
    }
    if count(normalizedSentence) <= max {
      return [normalizedSentence];
    }
    var clauses := SplitTextByPunctuation(normalizedSentence, EndsClause);
    if |clauses| <= 1 {
      clauses := [normalizedSentence];
    }
    for k := 0 to |clauses|
      invariant slices == ClausesSlices(count, clauses[..k], max)
    {
      ClausesAppend(count, clauses[..k], clauses[k], max);
      assert clauses[..k + 1] == clauses[..k] + [clauses[k]];
      var more := SliceClause(count, clauses[k], max);
      slices := slices + more;
    }
    assert clauses[..|clauses|] == clauses;
  }

  lemma {:induction false} SentencesAppend(count: Counter, a: seq<string>, c: string, max: nat)
    ensures SentencesSlices(count, a + [c], max) == SentencesSlices(count, a, max) + SentenceSlices(count, c, max)
  {
    hide SentenceSlices;
    if a == [] {
      assert a + [c] == [c];
      assert SentencesSlices(count, [c], max) == SentenceSlices(count, c, max) + SentencesSlices(count, [], max);
    } else {
      SentencesAppend(count, a[1..], c, max);
      assert (a + [c])[1..] == a[1..] + [c];
    }
  }

  method PackSlices(count: Counter, slices: seq<string>, max: nat) returns (chunks: seq<string>)
    ensures chunks == Pack(count, slices, "", max)
  {
    hide Trim, Join;
    chunks := [];
    var currentChunk := "";
    var currentChunkTokenCount := 0;
    for k := 0 to |slices|
      invariant currentChunk != "" ==> currentChunkTokenCount == count(currentChunk)
      invariant chunks + Pack(count, slices[k..], currentChunk, max) == Pack(count, slices, "", max)
    {
      var s := slices[k];
      assert slices[k..][1..] == slices[k + 1..];
      if currentChunk == "" {
        currentChunk, currentChunkTokenCount := s, count(s);
      } else if currentChunkTokenCount + count(s) > max {
        chunks := chunks + [Trim(currentChunk)];
        currentChunk, currentChunkTokenCount := s, count(s);
      } else {
        currentChunk := Join(currentChunk, s);
        currentChunkTokenCount := count(currentChunk);
      }
    }
    if currentChunk != "" {
      chunks := chunks + [Trim(currentChunk)];
    }
  }

  method SplitVoiceCloneText(count: Counter, text: string, maxTokens: int) returns (chunks: seq<string>)
    ensures chunks == Chunks(count, text, maxTokens)
  {
    hide Trim, Prepare, Sentences, SentenceSlices, Pack;
    var normalizedText := Trim(text);
    if normalizedText == "" {
      return [];
    }
    var safeMaxTokens := if maxTokens < 1 then 1 else maxTokens;
    var preparedText := Prepare(normalizedText);
    var candidates := SplitTextByPunctuation(preparedText, EndsSentence);
    if |candidates| == 0 {
      candidates := [Trim(preparedText)];
    }
    var slices: seq<string> := [];
    for k := 0 to |candidates|
      invariant slices == SentencesSlices(count, candidates[..k], safeMaxTokens)
    {
      SentencesAppend(count, candidates[..k], candidates[k], safeMaxTokens);
      assert candidates[..k + 1] == candidates[..k] + [candidates[k]];
      var more := SliceSentence(count, candidates[k], safeMaxTokens);
      slices := slices + more;
    }
    assert candidates[..|candidates|] == candidates;
    chunks := PackSlices(count, slices, safeMaxTokens);
    if |chunks| <= 1 {
      chunks := [normalizedText];
    }
  }
}
