/**
 The rules of the text splitter, stated on positions of the text (pkg/ttsruntime/ttsruntime.go): where a sentence ends,
 where a text over the budget is cut, what preparation adds, what stays whole, and how slices are packed.
 */
module SplitRules {
  import opened Chunker
  import opened Text

  // ----- Characters -----

  /** The characters that the program lists. */
  lemma CharactersAre(c: char)
    ensures EndsSentence(c) <==> c in ".!?;\U{3002}\U{FF01}\U{FF1F}\U{FF1B}"
    ensures EndsClause(c) <==> c in ",;:\U{FF0C}\U{3001}\U{FF1B}\U{FF1A}"
    ensures Closes(c) <==> c in "\"')]}\U{201D}\U{2019}\U{FF09}\U{3011}\U{300B}\U{300D}\U{300F}"
    ensures PreferredBoundary(c) <==> c in ".!?;,: "
    ensures Blank(c) <==> c in " \t"
    ensures IsCJK(c) <==> InCJKBlock(c)
  {
  }

  /** Unified ideographs and their extension A, kana, and Hangul syllables. */
  ghost predicate InCJKBlock(c: char) {
    || '\U{4E00}' <= c <= '\U{9FFF}' || '\U{3400}' <= c <= '\U{4DBF}'
    || '\U{3040}' <= c <= '\U{30FF}' || '\U{AC00}' <= c <= '\U{D7AF}'
  }

  ghost predicate HasCJK(s: string) {
    exists i | 0 <= i < |s| :: InCJKBlock(s[i])
  }

  lemma ContainsIsHas(s: string)
    ensures ContainsCJK(s) <==> HasCJK(s)
  {
    hide IsCJK, InCJKBlock;
    forall c | c in s ensures IsCJK(c) <==> InCJKBlock(c) {
      CharactersAre(c);
    }
    if i :| 0 <= i < |s| && InCJKBlock(s[i]) {
      assert s[i] in s;
    }
    if c :| c in s && IsCJK(c) {
      var i :| 0 <= i < |s| && s[i] == c;
      assert InCJKBlock(s[i]);
    }
  }

  // ----- Sentences -----

  /** A sentence in the text: where it starts, its punctuation mark, and the position behind its closing marks. */
  datatype Span = Span(start: nat, mark: nat, end: nat)

  /** The first mark ends the sentence, together with all the closing marks behind it; blanks separate it from the
      next one. */
  ghost predicate IsSentence(text: string, punctuation: char -> bool, s: Span, next: nat) {
    && s.start <= s.mark < s.end <= next <= |text|
    && punctuation(text[s.mark]) && (forall x | s.start <= x < s.mark :: !punctuation(text[x]))
    && (forall x | s.mark < x < s.end :: text[x] in "\"')]}\U{201D}\U{2019}\U{FF09}\U{3011}\U{300B}\U{300D}\U{300F}")
    && (s.end < |text| ==> text[s.end] !in "\"')]}\U{201D}\U{2019}\U{FF09}\U{3011}\U{300B}\U{300D}\U{300F}")
    && (forall x | s.end <= x < next :: text[x] in " \t") && (next < |text| ==> text[next] !in " \t")
  }

  /** Sentences one behind the other, and a rest without a mark from `tail` on. */
  ghost predicate IsSplit(text: string, punctuation: char -> bool, i: nat, spans: seq<Span>, tail: nat) {
    && tail <= |text| && (forall x | tail <= x < |text| :: !punctuation(text[x]))
    && (if spans == [] then tail == i else spans[0].start == i)
    && (forall j | 0 <= j < |spans| ::
          IsSentence(text, punctuation, spans[j], Behind(spans, j, tail)))
  }

  /** Where the next sentence, or the rest, starts. */
  ghost function Behind(spans: seq<Span>, j: nat, tail: nat): nat {
    if j + 1 < |spans| then spans[j + 1].start else tail
  }

  ghost function TextsOf(text: string, spans: seq<Span>, tail: nat): (r: seq<string>)
    requires tail <= |text| && forall s | s in spans :: s.start <= s.end <= |text|
    ensures |r| == |spans| + 1 && r[|spans|] == text[tail..]
    ensures forall j | 0 <= j < |spans| :: r[j] == text[spans[j].start..spans[j].end]
  {
    if spans == [] then [text[tail..]]
    else [text[spans[0].start..spans[0].end]] + TextsOf(text, spans[1..], tail)
  }

  lemma SentenceAt(text: string, punctuation: char -> bool, i: nat) returns (s: Span, next: nat)
    requires i <= |text| && Find(text, i, punctuation) < |text|
    ensures s.start == i && IsSentence(text, punctuation, s, next)
    ensures Sentences(text, punctuation, i) == Part(text[s.start..s.end]) + Sentences(text, punctuation, next)
  {
    hide Part, Closes, Blank, Find, SkipWhile;
    var k := Find(text, i, punctuation);
    var e := SkipWhile(text, k + 1, Closes);
    next := SkipWhile(text, e, Blank);
    s := Span(i, k, e);
    SentencesStep(text, punctuation, i, k);
    hide Sentences;
    forall x | 0 <= x < |text|
      ensures Closes(text[x]) <==> text[x] in "\"')]}\U{201D}\U{2019}\U{FF09}\U{3011}\U{300B}\U{300D}\U{300F}"
      ensures Blank(text[x]) <==> text[x] in " \t"
    {
      CharactersAre(text[x]);
    }
  }

  /** Splitting at punctuation: the trimmed sentences that are not blank, and what is left behind the last mark. */
  lemma {:induction false} SentencesAre(text: string, punctuation: char -> bool, i: nat)
    returns (spans: seq<Span>, tail: nat)
    requires i <= |text|
    ensures IsSplit(text, punctuation, i, spans, tail)
    ensures tail <= |text| && forall s | s in spans :: s.start <= s.end <= |text|
    ensures Sentences(text, punctuation, i) == NonBlank(TextsOf(text, spans, tail))
    decreases |text| - i
  {
    hide Part, Find, Closes, SkipWhile, Blank, IsSentence, IsSplit, NonBlank, TextsOf;
    if Find(text, i, punctuation) == |text| {
      spans, tail := [], i;
      NoSpans(text, punctuation, i);
      SentencesTail(text, punctuation, i);
      NonBlankOne(text[i..]);
    } else {
      var s, next := SentenceAt(text, punctuation, i);
      SentenceBounds(text, punctuation, s, next);
      var rest;
      rest, tail := SentencesAre(text, punctuation, next);
      spans := [s] + rest;
      SplitMore(text, punctuation, s, next, rest, tail);
      NonBlankMore(text[s.start..s.end], TextsOf(text, rest, tail));
    }
  }

  lemma NoSpans(text: string, punctuation: char -> bool, i: nat)
    requires i <= |text| && Find(text, i, punctuation) == |text|
    ensures IsSplit(text, punctuation, i, [], i) && TextsOf(text, [], i) == [text[i..]]
  {
  }

  lemma SplitMore(text: string, punctuation: char -> bool, s: Span, next: nat, rest: seq<Span>, tail: nat)
    requires IsSentence(text, punctuation, s, next) && s.start <= s.end <= |text|
    requires IsSplit(text, punctuation, next, rest, tail) && forall r | r in rest :: r.start <= r.end <= |text|
    ensures IsSplit(text, punctuation, s.start, [s] + rest, tail)
    ensures forall r | r in [s] + rest :: r.start <= r.end <= |text|
    ensures TextsOf(text, [s] + rest, tail) == [text[s.start..s.end]] + TextsOf(text, rest, tail)
  {
    hide IsSentence;
    var spans := [s] + rest;
    assert spans[1..] == rest;
    forall j | 0 <= j < |spans|
      ensures IsSentence(text, punctuation, spans[j], Behind(spans, j, tail))
    {
      if j > 0 {
        assert spans[j] == rest[j - 1] && Behind(spans, j, tail) == Behind(rest, j - 1, tail);
      } else if rest != [] {
        assert spans[1] == rest[0];
      }
    }
  }

  lemma NonBlankMore(s: string, rest: seq<string>)
    ensures NonBlank([s] + rest) == Part(s) + NonBlank(rest)
  {
    hide Part;
    assert ([s] + rest)[1..] == rest;
  }

  lemma SentenceBounds(text: string, punctuation: char -> bool, s: Span, next: nat)
    requires IsSentence(text, punctuation, s, next)
    ensures s.start <= s.end <= |text| && s.start < next <= |text|
  {
  }

  lemma NonBlankOne(s: string)
    ensures NonBlank([s]) == Part(s)
  {
    hide Part;
    assert NonBlank([s]) == Part(s) + NonBlank([]);
  }

  // ----- Cutting by the token budget -----

  /** Behind an ASCII mark or a space among the last 24 symbols of the best prefix. */
  ghost predicate IsBoundary(rem: string, best: nat, c: nat) {
    0 < c <= best <= |rem| && best < c + 24 && rem[c - 1] in ".!?;,: "
  }

  ghost predicate IsLastBoundary(rem: string, best: nat, c: nat) {
    IsBoundary(rem, best, c) && forall d: nat | c < d :: !IsBoundary(rem, best, d)
  }

  /** The cut is behind the last boundary, or behind the best prefix where there is none or only space before it. */
  ghost predicate IsCut(rem: string, best: nat, cut: nat)
    requires best <= |rem|
  {
    if exists c: nat :: IsLastBoundary(rem, best, c) && Trim(rem[..c]) != ""
    then IsLastBoundary(rem, best, cut) && Trim(rem[..cut]) != ""
    else cut == best
  }

  lemma {:induction false} BoundaryIsLast(rem: string, best: nat, scanIndex: int)
    requires best <= |rem| && -1 <= scanIndex < best
    requires forall d: nat | scanIndex + 1 < d :: !IsBoundary(rem, best, d)
    ensures var r := Boundary(rem[..best], scanIndex, ScanMin(best));
      if r > 0 then IsLastBoundary(rem, best, r) else forall d: nat :: !IsBoundary(rem, best, d)
    decreases scanIndex + 1
  {
    hide PreferredBoundary;
    if scanIndex > ScanMin(best) {
      CharactersAre(rem[scanIndex]);
      assert rem[..best][scanIndex] == rem[scanIndex];
      if !PreferredBoundary(rem[scanIndex]) {
        BoundaryIsLast(rem, best, scanIndex - 1);
      }
    }
  }

  lemma CutIsBehindBoundary(count: Counter, rem: string, max: nat)
    requires rem != ""
    ensures IsCut(rem, Search(count, rem, max, 1, |rem|, 1), Cut(count, rem, max))
  {
    hide Trim, Search, Boundary, IsBoundary;
    var best := Search(count, rem, max, 1, |rem|, 1);
    BoundaryIsLast(rem, best, best - 1) by {
      forall d: nat | best < d ensures !IsBoundary(rem, best, d) {
        BoundaryBounds(rem, best, d);
      }
    }
    forall c: nat, d: nat | IsLastBoundary(rem, best, c) && IsLastBoundary(rem, best, d) ensures c == d {
    }
  }

  lemma BoundaryBounds(rem: string, best: nat, d: nat)
    requires d > best
    ensures !IsBoundary(rem, best, d)
  {
  }

  /** One round takes the whole text, if that fits, or cuts a piece off. */
  ghost predicate IsRound(count: Counter, max: nat, rem: string, piece: string, rest: string) {
    && rem != ""
    && if count(rem) <= max then piece == rem && rest == ""
       else
         var best := Search(count, rem, max, 1, |rem|, 1);
         exists cut | 1 <= cut <= |rem| :: IsCut(rem, best, cut) && piece == Trim(rem[..cut]) && rest == Trim(rem[cut..])
  }

  /** Each piece is cut off what the pieces before it leave, until nothing is left. */
  lemma {:induction false} PiecesAreCut(count: Counter, rem: string, max: nat) returns (rests: seq<string>)
    ensures var pieces := BudgetPieces(count, rem, max);
      && |rests| == |pieces| + 1 && rests[0] == rem && rests[|pieces|] == ""
      && forall j | 0 <= j < |pieces| :: IsRound(count, max, rests[j], pieces[j], rests[j + 1])
    decreases |rem|
  {
    hide Trim, Cut, Search, IsCut, IsRound;
    if rem == "" {
      rests := [rem];
    } else if count(rem) <= max {
      WholeRound(count, max, rem);
      rests := [rem, ""];
    } else {
      var cut := Cut(count, rem, max);
      CutRound(count, max, rem);
      var more := PiecesAreCut(count, Trim(rem[cut..]), max);
      rests := [rem] + more;
    }
  }

  lemma WholeRound(count: Counter, max: nat, rem: string)
    requires rem != "" && count(rem) <= max
    ensures IsRound(count, max, rem, rem, "")
  {
  }

  lemma CutRound(count: Counter, max: nat, rem: string)
    requires rem != "" && count(rem) > max
    ensures var cut := Cut(count, rem, max); IsRound(count, max, rem, Trim(rem[..cut]), Trim(rem[cut..]))
  {
    hide Trim, Cut, Search, IsCut;
    CutIsBehindBoundary(count, rem, max);
  }

  // ----- What stays whole -----

  /** A sentence within the budget is one slice. Of one over the budget, every clause within it is, and a slice that is
      no whole clause is a piece of a clause over it. */
  lemma SlicesAreWhole(count: Counter, sentence: string, max: nat)
    ensures var s := Trim(sentence); s != "" && count(s) <= max ==> SentenceSlices(count, sentence, max) == [s]
    ensures var s := Trim(sentence); s != "" && count(s) > max ==>
      var clauses := Sentences(s, EndsClause, 0);
      && (forall c | c in clauses && count(c) <= max :: c in SentenceSlices(count, sentence, max))
      && (forall p | p in SentenceSlices(count, sentence, max) ::
            (p in clauses && count(p) <= max) ||
            exists c | c in clauses || c == s :: count(c) > max && p in BudgetPieces(count, c, max))
  {
    hide Trim, Sentences, BudgetPieces;
    var s := Trim(sentence);
    if s != "" && count(s) > max {
      var clauses := Sentences(s, EndsClause, 0);
      SentencesKeepAll(s, EndsClause, 0);
      assert s[0..] == s;
      TrimIsTrimmed(sentence);
      if |clauses| <= 1 {
        ClauseSlicesAre(count, [s], max);
        OneClause(s, clauses);
      } else {
        ClauseSlicesAre(count, clauses, max);
      }
    }
  }

  lemma OneClause(s: string, clauses: seq<string>)
    requires clauses == Sentences(s, EndsClause, 0) && |clauses| <= 1 && Trimmed(s) && s != ""
    ensures clauses == [s]
  {
    hide Trim, Find, SkipWhile, Closes, Blank, Part, Sentences, Trimmed, EndsClause;
    var k := Find(s, 0, EndsClause);
    assert s[0..] == s[0..|s|];
    FirstPart(s, |s|);
    if k < |s| {
      var e := SkipWhile(s, k + 1, Closes);
      SentencesStep(s, EndsClause, 0, k);
      FirstPart(s, e);
      if e < |s| {
        SomethingBehind(s, e);
      } else {
        AtEnd(s);
      }
    } else {
      SentencesTail(s, EndsClause, 0);
    }
  }

  lemma AtEnd(s: string)
    ensures Sentences(s, EndsClause, SkipWhile(s, |s|, Blank)) == []
  {
    hide Blank, EndsClause;
    assert Trim("") == "" && s[|s|..] == "";
  }

  /** Behind a part of a trimmed text there is another part. */
  lemma SomethingBehind(s: string, e: nat)
    requires Trimmed(s) && e < |s|
    ensures Sentences(s, EndsClause, SkipWhile(s, e, Blank)) != []
  {
    hide Sentences, Strip, Concat, Trim, Trimmed, SkipWhile, EndsClause, Blank;
    var b := SkipWhile(s, e, Blank);
    NotBlankBehind(s, e, b);
    SentencesKeepAll(s, EndsClause, b);
    NotBlankStrip(s[b..]);
    ConcatNone();
  }

  lemma FirstPart(s: string, e: nat)
    requires Trimmed(s) && 0 < e <= |s|
    ensures |Part(s[..e])| == 1 && (e == |s| ==> Part(s[0..e]) == [s])
  {
    TrimmedHead(s, e);
    assert s[0..e] == s[..e];
    if e == |s| {
      assert s[..e] == s;
      TrimOfTrimmed(s);
    }
  }

  lemma NotBlankBehind(s: string, e: nat, b: nat)
    requires Trimmed(s) && e < |s| && b == SkipWhile(s, e, Blank)
    ensures b < |s| && !IsSpace(s[b..][|s[b..]| - 1])
  {
    hide SkipWhile, IsSpace;
    TrimmedEnd(s);
    if b == |s| {
      BlankIsSpace(s[|s| - 1]);
    }
  }

  lemma BlankIsSpace(c: char)
    ensures Blank(c) ==> IsSpace(c)
  {
  }

  lemma TrimmedEnd(s: string)
    requires Trimmed(s) && s != ""
    ensures !IsSpace(s[|s| - 1])
  {
  }

  lemma NotBlankStrip(s: string)
    requires s != "" && !IsSpace(s[|s| - 1])
    ensures Strip(s) != ""
  {
    hide Strip, IsSpace;
    var front, last := s[..|s| - 1], s[|s| - 1];
    StripConcat(front, [last]);
    assert s == front + [last];
    StripSymbol(last);
  }

  lemma {:induction false} ClauseSlicesAre(count: Counter, clauses: seq<string>, max: nat)
    requires forall c | c in clauses :: c != "" && Trimmed(c)
    ensures forall c | c in clauses && count(c) <= max :: c in ClausesSlices(count, clauses, max)
    ensures forall p | p in ClausesSlices(count, clauses, max) ::
              || (p in clauses && count(p) <= max)
              || exists c | c in clauses :: count(c) > max && p in BudgetPieces(count, c, max)
  {
    hide Trim, BudgetPieces, NonBlank, Trimmed;
    if clauses != [] {
      var c := clauses[0];
      assert c in clauses && forall x | x in clauses[1..] :: x in clauses;
      ClauseSlicesAre(count, clauses[1..], max);
      TrimOfTrimmed(c);
      BudgetKeepsAll(count, c, max);
      NonBlankIn(BudgetPieces(count, c, max));
      forall p | p in ClauseSlices(count, c, max)
        ensures (p == c && count(p) <= max) || (count(c) > max && p in BudgetPieces(count, c, max))
      {
      }
    }
  }

  lemma {:induction false} NonBlankIn(parts: seq<string>)
    requires forall p | p in parts :: Trimmed(p)
    ensures forall p | p in NonBlank(parts) :: p in parts
  {
    hide Trim, Trimmed;
    if parts != [] {
      assert parts[0] in parts && forall p | p in parts[1..] :: p in parts;
      TrimOfTrimmed(parts[0]);
      NonBlankIn(parts[1..]);
    }
  }

  // ----- Packing -----

  /** Slices joined in order: a space between two of them unless Chinese, Japanese or Korean text meets it. */
  ghost function Joined(slices: seq<string>): string
    requires slices != []
  {
    if |slices| == 1 then slices[0]
    else
      var left, right := Joined(slices[..|slices| - 1]), slices[|slices| - 1];
      if HasCJK(left) || HasCJK(right) then left + right else left + " " + right
  }

  /** Every chunk joins some slices in a row: each fits behind the ones before it, and the one behind them no more. */
  ghost predicate IsPacking(count: Counter, max: nat, slices: seq<string>, ends: seq<nat>, chunks: seq<string>) {
    && |ends| == |chunks| + 1 && ends[0] == 0 && ends[|chunks|] == |slices|
    && forall i | 0 <= i < |chunks| :: IsChunk(count, max, slices, ends[i], ends[i + 1], chunks[i])
  }

  ghost predicate IsChunk(count: Counter, max: nat, slices: seq<string>, from: nat, to: nat, chunk: string) {
    && from < to <= |slices| && chunk == Joined(slices[from..to])
    && (forall j | from < j < to :: count(Joined(slices[from..j])) + count(slices[j]) <= max)
    && (to < |slices| ==> count(Joined(slices[from..to])) + count(slices[to]) > max)
  }

  lemma JoinedNext(slices: seq<string>, from: nat, to: nat)
    requires from < to < |slices| && slices[to] != "" && Joined(slices[from..to]) != ""
    ensures Joined(slices[from..to + 1]) == Join(Joined(slices[from..to]), slices[to])
  {
    hide ContainsCJK, HasCJK;
    var s := slices[from..to + 1];
    assert s[..|s| - 1] == slices[from..to] && s[|s| - 1] == slices[to];
    ContainsIsHas(Joined(slices[from..to]));
    ContainsIsHas(slices[to]);
  }

  /** From an open chunk of the slices `from..to` on, the rest is packed. */
  lemma {:induction false} PackIsGreedy(count: Counter, max: nat, slices: seq<string>, from: nat, to: nat)
    returns (ends: seq<nat>)
    requires from < to <= |slices| && forall p | p in slices :: p != "" && Trimmed(p)
    requires Joined(slices[from..to]) != "" && Trimmed(Joined(slices[from..to]))
    requires forall j | from < j < to :: count(Joined(slices[from..j])) + count(slices[j]) <= max
    ensures var chunks := Pack(count, slices[to..], Joined(slices[from..to]), max);
      && |ends| == |chunks| + 1 && ends[0] == from && ends[|chunks|] == |slices|
      && forall i | 0 <= i < |chunks| :: IsChunk(count, max, slices, ends[i], ends[i + 1], chunks[i])
    decreases |slices| - to
  {
    hide Trim, Trimmed, Join, Joined, IsChunk;
    var current := Joined(slices[from..to]);
    TrimOfTrimmed(current);
    if to == |slices| {
      ends := [from, to];
      ChunkIs(count, max, slices, from, to);
    } else {
      var s := slices[to];
      assert slices[to..][0] == s && slices[to..][1..] == slices[to + 1..] && s in slices;
      if count(current) + count(s) > max {
        JoinedOne(slices, to);
        var more := PackIsGreedy(count, max, slices, to, to + 1);
        ends := [from] + more;
        ChunkIs(count, max, slices, from, to);
      } else {
        JoinedNext(slices, from, to);
        JoinKeepsAll(current, s);
        ends := PackIsGreedy(count, max, slices, from, to + 1);
      }
    }
  }

  lemma JoinedOne(slices: seq<string>, k: nat)
    requires k < |slices|
    ensures Joined(slices[k..k + 1]) == slices[k]
  {
  }

  lemma ChunkIs(count: Counter, max: nat, slices: seq<string>, from: nat, to: nat)
    requires from < to <= |slices|
    requires forall j | from < j < to :: count(Joined(slices[from..j])) + count(slices[j]) <= max
    requires to < |slices| ==> count(Joined(slices[from..to])) + count(slices[to]) > max
    ensures IsChunk(count, max, slices, from, to, Joined(slices[from..to]))
  {
    hide Joined;
  }

  /** The chunks are the greedy packing of the slices. */
  lemma PacksGreedily(count: Counter, max: nat, slices: seq<string>) returns (ends: seq<nat>)
    requires forall p | p in slices :: p != "" && Trimmed(p)
    ensures IsPacking(count, max, slices, ends, Pack(count, slices, "", max))
  {
    hide Trimmed, Joined, IsChunk;
    if slices == [] {
      ends := [0];
    } else {
      assert slices[0] in slices;
      JoinedOne(slices, 0);
      ends := PackIsGreedy(count, max, slices, 0, 1);
    }
  }

  // ----- Preparation -----

  /** Runs of spaces as single spaces, in one pass. */
  ghost function SingleSpaces(s: string): string {
    if |s| < 2 then s
    else if s[0] == ' ' && s[1] == ' ' then SingleSpaces(s[1..])
    else [s[0]] + SingleSpaces(s[1..])
  }

  lemma {:induction false} SingleHasNoDouble(s: string)
    requires !HasDoubleSpace(s)
    ensures SingleSpaces(s) == s
  {
    if |s| >= 2 {
      assert s[0] != ' ' || s[1] != ' ';
      forall i | 0 <= i < |s[1..]| - 1 ensures s[1..][i] != ' ' || s[1..][i + 1] != ' ' {
        assert s[1..][i] == s[i + 1] && s[1..][i + 1] == s[i + 2];
      }
      SingleHasNoDouble(s[1..]);
    }
  }

  lemma {:induction false} SingleFront(c: char, s: string)
    ensures SingleSpaces([c] + s) ==
      if c == ' ' && s != "" && s[0] == ' ' then SingleSpaces(s) else [c] + SingleSpaces(s)
  {
    assert ([c] + s)[1..] == s;
    if s == "" {
      assert [c] + s == [c] && [c] + SingleSpaces(s) == [c];
    }
  }

  /** One round of halving leaves the single spaces as they are. */
  lemma {:induction false} HalvedSingle(s: string)
    ensures SingleSpaces(HalveSpaces(s)) == SingleSpaces(s)
    ensures s != "" ==> HalveSpaces(s) != "" && HalveSpaces(s)[0] == s[0]
    decreases |s|
  {
    if |s| >= 2 {
      if s[0] == ' ' && s[1] == ' ' {
        var rest := s[2..];
        HalvedSingle(rest);
        SingleFront(' ', HalveSpaces(rest));
        SingleFront(' ', rest);
        assert s[1..] == [' '] + rest;
      } else {
        var rest := s[1..];
        HalvedSingle(rest);
        SingleFront(s[0], HalveSpaces(rest));
        SingleFront(s[0], rest);
        assert s == [s[0]] + rest;
      }
    }
  }

  lemma {:induction false} CollapseIsSingle(s: string)
    ensures CollapseSpaces(s) == SingleSpaces(s)
    decreases |s|
  {
    if HasDoubleSpace(s) {
      HalveSpacesShrinks(s);
      HalvedSingle(s);
      CollapseIsSingle(HalveSpaces(s));
    } else {
      SingleHasNoDouble(s);
    }
  }

  /** Where the words of a text start. */
  ghost function WordStarts(s: string): set<nat> {
    set i: nat | i < |s| && StartsWord(s, i)
  }

  ghost predicate StartsWord(s: string, i: nat)
    requires i < |s|
  {
    !IsSpace(s[i]) && (i == 0 || IsSpace(s[i - 1]))
  }

  lemma {:induction false} WordCountIsWords(s: string)
    ensures WordCount(s) == |WordStarts(s)|
  {
    hide IsSpace;
    if s != "" {
      var t, n := s[..|s| - 1], |s| - 1;
      WordCountIsWords(t);
      assert forall i | 0 <= i < n :: s[i] == t[i];
      if !IsSpace(s[n]) && (n == 0 || IsSpace(s[n - 1])) {
        assert WordStarts(s) == WordStarts(t) + {n};
      } else {
        assert WordStarts(s) == WordStarts(t);
      }
    }
  }

  /** Line breaks are spaces. */
  ghost predicate OneLine(s: string, t: string) {
    |s| == |t| && forall i | 0 <= i < |t| :: s[i] == if t[i] == '\r' || t[i] == '\n' then ' ' else t[i]
  }

  /** Text with Chinese, Japanese or Korean characters gets an ideographic full stop unless it ends with a mark. */
  ghost function Stopped(s: string): string
    requires s != ""
  {
    s + if s[|s| - 1] in ".!?;\U{3002}\U{FF01}\U{FF1F}\U{FF1B}" then "" else "\U{3002}"
  }

  /** Other text gets a capital, a full stop behind a letter or digit, and eight spaces in front of fewer than five
      words. */
  ghost function Polished(s: string): string
    requires s != ""
  {
    var first := if 'a' <= s[0] <= 'z' then ['A' + (s[0] - 'a')] + s[1..] else s;
    var end := first[|s| - 1];
    var v := first + if 'a' <= end <= 'z' || 'A' <= end <= 'Z' || '0' <= end <= '9' then "." else "";
    (if |WordStarts(v)| < 5 then "        " else "") + v
  }

  lemma PolishedIs(s: string)
    requires s != ""
    ensures var u := Capitalized(s); var v := if u != "" && IsAlnum(u[|u| - 1]) then u + "." else u;
      Polished(s) == if WordCount(v) < 5 then INDENT + v else v
  {
    hide WordCount, WordStarts;
    CapitalIs(s);
    var u := Capitalized(s);
    var v := if u != "" && IsAlnum(u[|u| - 1]) then u + "." else u;
    WordCountIsWords(v);
    assert u + "" == u && "" + v == v;
  }

  lemma CapitalIs(s: string)
    requires s != ""
    ensures Capitalized(s) == if 'a' <= s[0] <= 'z' then ['A' + (s[0] - 'a')] + s[1..] else s
  {
    assert [s[0]] + s[1..] == s;
  }

  lemma StoppedIs(s: string)
    requires s != ""
    ensures Stopped(s) == if !EndsSentence(s[|s| - 1]) then s + [IDEOGRAPHIC_STOP] else s
  {
    CharactersAre(s[|s| - 1]);
    assert s + "" == s;
  }

  /** Preparation in full: line breaks are spaces, runs of spaces single ones, and then what the script asks for. */
  lemma PrepareIs(text: string) returns (line: string)
    ensures Trim(text) == "" ==> Prepare(text) == ""
    ensures Trim(text) != "" ==>
      && OneLine(line, Trim(text)) && SingleSpaces(line) != ""
      && Prepare(text) == if HasCJK(SingleSpaces(line)) then Stopped(SingleSpaces(line)) else Polished(SingleSpaces(line))
  {
    hide Trim, ContainsCJK, HasCJK, EndsSentence, WordCount, CollapseSpaces, Stopped, Polished, SingleSpaces;
    line := Replace(Replace(Trim(text), '\r', ' '), '\n', ' ');
    if Trim(text) != "" {
      CollapseIsSingle(line);
      SpacedKeeps(text);
      var s := Spaced(text);
      ContainsIsHas(s);
      StoppedIs(s);
      PolishedIs(s);
    }
  }

  // ----- The whole splitter -----

  /** A blank text has no chunks; a text that is not split is one chunk, trimmed but not prepared; and a text that is
      split is packed greedily from the slices of its prepared sentences. */
  lemma ChunksAre(count: Counter, text: string, maxTokens: int)
    ensures var chunks := Chunks(count, text, maxTokens); var max := if maxTokens < 1 then 1 else maxTokens;
      && (chunks == [] <==> Trim(text) == "") && (|chunks| == 1 ==> chunks == [Trim(text)])
      && (|chunks| > 1 ==>
            chunks == Pack(count, SentencesSlices(count, Sentences(Prepare(Trim(text)), EndsSentence, 0), max), "", max))
      && (Trim(text) != "" && |chunks| == 1 ==> |Packed(count, Prepare(Trim(text)), max)| <= 1)
  {
    hide Trim, Prepare, Sentences, SentencesSlices, Pack;
    if |Chunks(count, text, maxTokens)| > 1 {
      var prepared := Prepare(Trim(text));
      BlankHasNoSlices(count, prepared, SafeMax(maxTokens));
    }
  }

  lemma BlankHasNoSlices(count: Counter, prepared: string, max: nat)
    ensures |Packed(count, prepared, max)| > 1 ==> Sentences(prepared, EndsSentence, 0) == Candidates(prepared)
  {
    hide Trim, Pack, SentencesSlices, SentenceSlices, Sentences;
    if Sentences(prepared, EndsSentence, 0) == [] {
      SentencesKeepAll(prepared, EndsSentence, 0);
      ConcatNone();
      assert prepared[0..] == prepared;
      PackedCarries(count, prepared, max);
      NothingCarried(Packed(count, prepared, max));
    }
  }

  lemma NothingCarried(parts: seq<string>)
    requires Carries(parts, "")
    ensures parts == []
  {
    hide Strip, Trim;
    if parts != [] {
      var p := parts[0];
      assert p in parts;
      StripConcat(p, Concat(parts[1..]));
      TrimmedEnd(p);
      NotBlankStrip(p);
    }
  }
}
