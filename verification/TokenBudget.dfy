/**
 The text splitter with the counter it is used with: the number of tokens the tokenizer makes of a
 text (pkg/ttsruntime/ttsruntime.go and pkg/tokenizer/tokenizer.go).
 */
module TokenBudget {
  import opened Options
  import opened Text
  import opened Chunker
  import opened ChunkBudget
  import Tokenizer

  /** CountTokens: how many tokens the text is encoded to. */
  ghost function TokenCount(v: Tokenizer.Vocabulary, text: string): nat
    requires Tokenizer.Valid(v)
  {
    if text == "" then 0
    else
      var p := Tokenizer.Prepared(text);
      Tokenizer.EndReached(v, p);
      |Tokenizer.TrailingIds(Tokenizer.BestPath(v, p, |p|))|
  }

  ghost function CounterOf(v: Tokenizer.Vocabulary): Counter
    requires Tokenizer.Valid(v)
  {
    text => TokenCount(v, text)
  }

  /** A segmentation has at most one step for each rune. */
  lemma {:induction false} PathIsShort(v: Tokenizer.Vocabulary, text: string, path: seq<Tokenizer.Edge>, to: nat)
    requires Tokenizer.Valid(v) && Tokenizer.IsPath(v, text, path, to)
    ensures |path| <= to
  {
    hide Tokenizer.Step;
    if path != [] {
      var e := path[|path| - 1];
      PathIsShort(v, text, path[..|path| - 1], e.start);
      Tokenizer.StepIsKnown(v, text, e.start, to);
    }
  }

  /** A text has at most one token more than it has runes, so two tokens are always enough for one symbol. */
  lemma TokensAreBounded(v: Tokenizer.Vocabulary, text: string)
    requires Tokenizer.Valid(v)
    ensures TokenCount(v, text) <= |text| + 1
  {
    hide Tokenizer.Best, Tokenizer.BestPath, Tokenizer.IsPath;
    if text != "" {
      var p := Tokenizer.Prepared(text);
      Tokenizer.EndReached(v, p);
      Tokenizer.BestPathIsPath(v, p, |p|);
      var path := Tokenizer.BestPath(v, p, |p|);
      PathIsShort(v, p, path, |p|);
      Tokenizer.TrailingIdsComplete(path);
    }
  }

  /** With the tokenizer as the counter and a budget of at least two, the budget is kept for all texts
      exactly when no text makes the cut step back behind a prefix that is over the budget. */
  lemma TokenBudgetExactly(v: Tokenizer.Vocabulary, max: nat)
    requires Tokenizer.Valid(v) && max >= 2
    ensures KeepsBudget(CounterOf(v), max) <==> NeverOversteps(CounterOf(v), max)
  {
    hide KeepsBudget, NeverOversteps, TokenCount;
    BudgetExactly(CounterOf(v), max);
    forall c: char | !IsSpace(c) ensures CounterOf(v)([c]) <= max {
      TokensAreBounded(v, [c]);
    }
  }

  // ----- A vocabulary and a text for which the budget fails -----

  const META := Tokenizer.META
  const LONG: string := [META, 'a', 'b', META, 'c']

  function Single(c: char): Tokenizer.Piece {
    Tokenizer.Piece([c], -1.0, Tokenizer.NORMAL)
  }

  const MIDDLE: char := '\U{4E2D}'
  const ALPHABET: string := [META, 'a', 'b', 'c', 'd', 'e', 'f', ',', MIDDLE, IDEOGRAPHIC_STOP]

  /** Ten one-rune pieces, and one long piece that scores better than they do. */
  function LongPiece(): Tokenizer.Vocabulary {
    Tokenizer.Vocabulary(
      [Single(META), Single('a'), Single('b'), Single('c'), Single('d'), Single('e'), Single('f'),
       Single(','), Single(MIDDLE), Single(IDEOGRAPHIC_STOP), Tokenizer.Piece(LONG, 0.0, Tokenizer.NORMAL)],
      map[[META] := 0, ['a'] := 1, ['b'] := 2, ['c'] := 3, ['d'] := 4, ['e'] := 5, ['f'] := 6,
          [','] := 7, [MIDDLE] := 8, [IDEOGRAPHIC_STOP] := 9, LONG := 10],
      0)
  }

  predicate Spelled(text: string) {
    forall i | 0 <= i < |text| :: text[i] in ALPHABET
  }

  lemma LongPieceValid()
    ensures Tokenizer.Valid(LongPiece())
  {
  }

  /** The steps of a spelled text: single runes, and the long piece where it stands. */
  lemma StepsOf(text: string, i: nat, j: nat)
    requires Tokenizer.Valid(LongPiece()) && Spelled(text) && i < |text|
    ensures var s := Tokenizer.Step(LongPiece(), text, i, j);
      && (j == i + 1 ==> s.Some? && s.value.score == -1.0 && s.value.id >= 0)
      && (i + 5 <= |text| && j == i + 5 && text[i..j] == LONG ==> s == Some(Tokenizer.Edge(i, j, 10, 0.0)))
      && (j == i + 5 && s.Some? ==> s.value.id == 10 && s.value.score == 0.0)
      && (j != i + 1 && j != i + 5 ==> s.None?)
  {
    assert text[i..i + 1] == [text[i]];
    assert Tokenizer.Matches(LongPiece(), text, i, i + 1);
  }

  /** Every segmentation: u long steps leave |path| = to - 4u steps, all known, with score 5u - to. */
  lemma {:induction false} PathShape(text: string, path: seq<Tokenizer.Edge>, to: nat) returns (u: nat)
    requires Tokenizer.Valid(LongPiece()) && Spelled(text) && Tokenizer.IsPath(LongPiece(), text, path, to)
    ensures 5 * u <= to && |path| == to - 4 * u && Tokenizer.Score(path) == (5 * u - to) as real
    ensures |Tokenizer.TrailingIds(path)| == |path|
  {
    hide Tokenizer.Step, Spelled;
    if path == [] {
      u := 0;
    } else {
      var e, prefix := path[|path| - 1], path[..|path| - 1];
      u := PathShape(text, prefix, e.start);
      Tokenizer.StepIsKnown(LongPiece(), text, e.start, to);
      StepsOf(text, e.start, to);
      if to == e.start + 5 {
        u := u + 1;
      }
    }
  }

  /** A text that starts with the long piece has a segmentation that uses it. */
  lemma {:induction false} LongPath(text: string, n: nat) returns (path: seq<Tokenizer.Edge>)
    requires Tokenizer.Valid(LongPiece()) && Spelled(text) && 5 <= n <= |text| && text[..5] == LONG
    ensures Tokenizer.IsPath(LongPiece(), text, path, n) && Tokenizer.Score(path) == (5 - n) as real
  {
    hide Tokenizer.Step, Spelled;
    if n == 5 {
      StepsOf(text, 0, 5);
      assert text[0..5] == LONG;
      path := [Tokenizer.Edge(0, 5, 10, 0.0)];
      assert path[..0] == [];
    } else {
      var prefix := LongPath(text, n - 1);
      StepsOf(text, n - 1, n);
      var e := Tokenizer.Step(LongPiece(), text, n - 1, n).value;
      StepEnds(text, n - 1, n);
      path := prefix + [e];
      assert path[..|path| - 1] == prefix;
    }
  }

  lemma StepEnds(text: string, i: nat, j: nat)
    requires Tokenizer.Valid(LongPiece()) && Tokenizer.Step(LongPiece(), text, i, j).Some?
    ensures Tokenizer.Step(LongPiece(), text, i, j).value.start == i
  {
  }

  /** At most every fifth rune of a spelled text starts a long step. */
  lemma TokensAtLeast(text: string, p: string)
    requires Tokenizer.Valid(LongPiece()) && text != "" && p == Tokenizer.Prepared(text) && Spelled(p)
    ensures TokenCount(LongPiece(), text) >= |p| - 4 * (|p| / 5)
  {
    hide Tokenizer.Best, Tokenizer.BestPath, Tokenizer.IsPath, Tokenizer.Prepared, Tokenizer.Score, Spelled,
         Tokenizer.TrailingIds;
    Tokenizer.EndReached(LongPiece(), p);
    Tokenizer.BestPathIsPath(LongPiece(), p, |p|);
    var u := PathShape(p, Tokenizer.BestPath(LongPiece(), p, |p|), |p|);
  }

  /** The number of tokens of a spelled text of fewer than ten runes with its leading meta symbol. */
  lemma TokensOf(text: string, p: string)
    requires Tokenizer.Valid(LongPiece()) && text != "" && p == Tokenizer.Prepared(text) && Spelled(p) && |p| < 10
    ensures |p| < 5 ==> TokenCount(LongPiece(), text) == |p|
    ensures |p| >= 5 && p[..5] == LONG ==> TokenCount(LongPiece(), text) == |p| - 4
  {
    hide Tokenizer.Best, Tokenizer.BestPath, Tokenizer.IsPath, Tokenizer.Prepared, Tokenizer.Score, Spelled,
         Tokenizer.TrailingIds;
    Tokenizer.EndReached(LongPiece(), p);
    Tokenizer.BestPathIsPath(LongPiece(), p, |p|);
    var u := PathShape(p, Tokenizer.BestPath(LongPiece(), p, |p|), |p|);
    if |p| >= 5 && p[..5] == LONG {
      var path := LongPath(p, |p|);
      Tokenizer.BestPathIsOptimal(LongPiece(), p, path);
      assert (5 - |p|) as real <= (5 * u - |p|) as real;
    }
  }

  lemma PreparedIs(text: string, p: string)
    requires |p| == |text| + 1 && p[0] == META
    requires forall i | 0 <= i < |text| ::
        !Tokenizer.IsFullWidth(text[i]) && p[i + 1] == if text[i] == ' ' then META else text[i]
    ensures Tokenizer.Prepared(text) == p
  {
    hide Tokenizer.Normalize, Replace;
  }

  const CLAUSE := "ab cdef,"
  const EXAMPLE: string := CLAUSE + [MIDDLE, IDEOGRAPHIC_STOP]

  lemma CountsOfExample()
    ensures Tokenizer.Valid(LongPiece())
    ensures TokenCount(LongPiece(), "ab") == 3 && TokenCount(LongPiece(), "ab c") == 1
    ensures TokenCount(LongPiece(), "ab cd") == 2 && TokenCount(LongPiece(), "ab cde") == 3
    ensures TokenCount(LongPiece(), CLAUSE) > 2 && TokenCount(LongPiece(), EXAMPLE) > 2
  {
    hide TokenCount, Tokenizer.Prepared, Tokenizer.Valid;
    LongPieceValid();
    PreparedIs("ab", [META, 'a', 'b']);
    TokensOf("ab", [META, 'a', 'b']);
    PreparedIs("ab c", LONG);
    TokensOf("ab c", LONG);
    PreparedIs("ab cd", LONG + ['d']);
    TokensOf("ab cd", LONG + ['d']);
    PreparedIs("ab cde", LONG + ['d', 'e']);
    TokensOf("ab cde", LONG + ['d', 'e']);
    PreparedIs(CLAUSE, LONG + ['d', 'e', 'f', ',']);
    TokensAtLeast(CLAUSE, LONG + ['d', 'e', 'f', ',']);
    PreparedIs(EXAMPLE, LONG + ['d', 'e', 'f', ',', MIDDLE, IDEOGRAPHIC_STOP]);
    TokensAtLeast(EXAMPLE, LONG + ['d', 'e', 'f', ',', MIDDLE, IDEOGRAPHIC_STOP]);
  }

  lemma SearchOfExample(count: Counter, rem: string)
    requires rem == CLAUSE && count("ab c") == 1 && count("ab cd") == 2 && count("ab cde") == 3
    ensures Search(count, rem, 2, 1, 8, 1) == 5
  {
    hide Trim, Search;
    assert rem[..4] == "ab c" && rem[..5] == "ab cd" && rem[..6] == "ab cde";
    TrimOfTrimmed("ab c");
    TrimOfTrimmed("ab cd");
    TrimOfTrimmed("ab cde");
    SearchStep(count, rem, 2, 1, 8, 1);
    SearchStep(count, rem, 2, 5, 8, 4);
    SearchStep(count, rem, 2, 5, 5, 4);
    SearchEnds(count, rem, 2, 6, 5, 5);
  }

  lemma CutOfExample(count: Counter, rem: string)
    requires rem == CLAUSE && count("ab c") == 1 && count("ab cd") == 2 && count("ab cde") == 3
    ensures Cut(count, rem, 2) == 3 && Trim(rem[..3]) == "ab"
  {
    hide Trim, Search;
    SearchOfExample(count, rem);
    var prefix := rem[..5];
    assert prefix == "ab cd";
    assert Boundary(prefix, 4, -1) == Boundary(prefix, 3, -1) == Boundary(prefix, 2, -1) == 3;
    assert rem[..3] == "ab ";
    TrimUnique([], "ab", " ");
    assert [] + "ab" + " " == "ab ";
  }

  /** The first slice of the clause is "ab", and there are more. */
  lemma ClauseOfExample(count: Counter)
    requires count("ab c") == 1 && count("ab cd") == 2 && count("ab cde") == 3 && count(CLAUSE) > 2
    ensures var s := ClauseSlices(count, CLAUSE, 2); |s| > 1 && s[0] == "ab"
    ensures Trimmed(CLAUSE) && (count("ab") > 2 ==> Oversteps(count, CLAUSE, 2))
  {
    hide Trim, Search, Cut, NonBlank, BudgetPieces;
    TrimOfTrimmed(CLAUSE);
    SearchOfExample(count, CLAUSE);
    CutOfExample(count, CLAUSE);
    BudgetKeepsAll(count, CLAUSE, 2);
    PiecesOfExample(count);
    NonBlankSame(BudgetPieces(count, CLAUSE, 2));
  }

  lemma PiecesOfExample(count: Counter)
    requires count(CLAUSE) > 2 && Cut(count, CLAUSE, 2) == 3 && Trim(CLAUSE[..3]) == "ab"
    ensures var s := BudgetPieces(count, CLAUSE, 2); |s| > 1 && s[0] == "ab"
  {
    hide Trim, Cut;
    assert CLAUSE[3..] == "cdef,";
    TrimOfTrimmed("cdef,");
  }

  lemma FindIs(text: string, i: nat, p: char -> bool, k: nat)
    requires i <= k <= |text| && (k < |text| ==> p(text[k])) && forall j | i <= j < k :: !p(text[j])
    ensures Find(text, i, p) == k
  {
    hide Find;
  }

  lemma SkipNone(text: string, i: nat, p: char -> bool)
    requires i <= |text| && (i == |text| || !p(text[i]))
    ensures SkipWhile(text, i, p) == i
  {
  }

  lemma MarksOfExample()
    ensures |EXAMPLE| == 10 && |CLAUSE| == 8
    ensures EndsSentence(EXAMPLE[9]) && forall i | 0 <= i < 9 :: !EndsSentence(EXAMPLE[i])
    ensures EndsClause(EXAMPLE[7]) && forall i | 0 <= i < 10 && i != 7 :: !EndsClause(EXAMPLE[i])
    ensures !Closes(EXAMPLE[8]) && !Blank(EXAMPLE[8])
    ensures Trimmed(EXAMPLE) && Trimmed(CLAUSE) && Trimmed(EXAMPLE[8..])
  {
  }

  /** The text is one sentence. */
  lemma SentenceOfExample()
    ensures Sentences(EXAMPLE, EndsSentence, 0) == [EXAMPLE]
  {
    hide Trim, Sentences, Find, SkipWhile, EndsSentence, Closes, Blank, Trimmed;
    MarksOfExample();
    TrimOfTrimmed(EXAMPLE);
    assert EXAMPLE[0..10] == EXAMPLE && EXAMPLE[10..] == "";
    FindIs(EXAMPLE, 0, EndsSentence, 9);
    SkipNone(EXAMPLE, 10, Closes);
    SkipNone(EXAMPLE, 10, Blank);
    SentencesStep(EXAMPLE, EndsSentence, 0, 9);
    FindIs(EXAMPLE, 10, EndsSentence, 10);
    SentencesTail(EXAMPLE, EndsSentence, 10);
    TrimOfTrimmed("");
  }

  /** And has two clauses. */
  lemma ClausesOfExample()
    ensures Sentences(EXAMPLE, EndsClause, 0) == [CLAUSE, EXAMPLE[8..]]
  {
    hide Trim, Sentences, Find, SkipWhile, EndsClause, Closes, Blank, Trimmed;
    MarksOfExample();
    TrimOfTrimmed(CLAUSE);
    TrimOfTrimmed(EXAMPLE[8..]);
    assert EXAMPLE[0..8] == CLAUSE;
    FindIs(EXAMPLE, 0, EndsClause, 7);
    SkipNone(EXAMPLE, 8, Closes);
    SkipNone(EXAMPLE, 8, Blank);
    SentencesStep(EXAMPLE, EndsClause, 0, 7);
    FindIs(EXAMPLE, 8, EndsClause, 10);
    SentencesTail(EXAMPLE, EndsClause, 8);
  }

  /** Preparation leaves the text as it is. */
  lemma PrepareOfExample()
    ensures Trim(EXAMPLE) == EXAMPLE && Prepare(EXAMPLE) == EXAMPLE
  {
    hide Trim, Replace, WordCount;
    TrimOfTrimmed(EXAMPLE);
    assert Replace(EXAMPLE, '\r', ' ') == EXAMPLE && Replace(EXAMPLE, '\n', ' ') == EXAMPLE;
    assert !HasDoubleSpace(EXAMPLE);
    assert EXAMPLE[8] == MIDDLE && MIDDLE in EXAMPLE && IsCJK(MIDDLE);
  }

  /** A slice that is over the budget at the front becomes the first chunk. */
  lemma FirstSliceStays(count: Counter, slices: seq<string>, max: nat)
    requires |slices| > 1 && slices[0] != "" && Trimmed(slices[0]) && count(slices[0]) > max
    requires forall p | p in slices :: p != ""
    ensures var c := Pack(count, slices, "", max); |c| > 1 && c[0] == slices[0]
  {
    hide Trim, Join, Trimmed;
    TrimOfTrimmed(slices[0]);
    assert slices[1..][0] == slices[1] && slices[1] in slices;
    assert forall p | p in slices[1..][1..] :: p in slices[1..] && p in slices;
    assert Pack(count, slices, "", max) == Pack(count, slices[1..], slices[0], max);
    assert Pack(count, slices[1..], slices[0], max) == [slices[0]] + Pack(count, slices[1..][1..], slices[1], max);
    PackIsSome(count, slices[1..][1..], slices[1], max);
  }

  lemma {:induction false} PackIsSome(count: Counter, slices: seq<string>, current: string, max: nat)
    requires current != "" && forall p | p in slices :: p != ""
    ensures Pack(count, slices, current, max) != []
    decreases |slices|
  {
    hide Trim;
    if slices != [] {
      assert slices[0] in slices && forall p | p in slices[1..] :: p in slices;
      if count(current) + count(slices[0]) <= max {
        PackIsSome(count, slices[1..], Join(current, slices[0]), max);
      }
    }
  }

  lemma SlicesOfExample(count: Counter)
    requires count("ab c") == 1 && count("ab cd") == 2 && count("ab cde") == 3 && count(CLAUSE) > 2
    requires count(EXAMPLE) > 2
    ensures Candidates(EXAMPLE) == [EXAMPLE]
    ensures var s := SentencesSlices(count, [EXAMPLE], 2); |s| > 1 && s[0] == "ab"
  {
    hide Trim, Sentences, ClauseSlices;
    SentenceOfExample();
    ClausesOfExample();
    PrepareOfExample();
    ClauseOfExample(count);
    var clauses := [CLAUSE, EXAMPLE[8..]];
    assert ClausesSlices(count, clauses, 2) == ClauseSlices(count, CLAUSE, 2) + ClausesSlices(count, clauses[1..], 2);
    assert SentenceSlices(count, EXAMPLE, 2) == ClausesSlices(count, clauses, 2);
    assert SentencesSlices(count, [EXAMPLE], 2) == SentenceSlices(count, EXAMPLE, 2) + SentencesSlices(count, [], 2);
  }

  /** The budget can fail: of the first clause five symbols fit, as one long piece and one more, but the cut steps
      back to the space, and the two letters in front of it, which become a chunk, are three tokens. */
  lemma BudgetCanFail()
    ensures Tokenizer.Valid(LongPiece())
    ensures var c := Chunks(CounterOf(LongPiece()), EXAMPLE, 2);
      |c| > 1 && c[0] == "ab" && CounterOf(LongPiece())("ab") == 3 && !AllFit(CounterOf(LongPiece()), c, 2)
    ensures Trimmed(CLAUSE) && Oversteps(CounterOf(LongPiece()), CLAUSE, 2)
  {
    hide Trim, Search, TokenCount, Cut, Prepare, Candidates, SentencesSlices, Pack, Oversteps, Strip, Concat, CutsLawfully;
    CountsOfExample();
    var count := CounterOf(LongPiece());
    ClauseOfExample(count);
    PrepareOfExample();
    SlicesOfExample(count);
    var slices := SentencesSlices(count, [EXAMPLE], 2);
    SentencesCarry(count, [EXAMPLE], 2);
    FirstSliceStays(count, slices, 2);
    assert Chunks(count, EXAMPLE, 2) == Pack(count, slices, "", 2);
  }
}
