/**
 A clean vocabulary and a text for which joining slices breaks the token budget: characters written
 without spaces are joined without one, and a piece that needs the space in front is lost.
 */
module JoinOverrun {
  import opened Options
  import opened Text
  import opened Chunker
  import opened ChunkBudget
  import opened TokenBudget
  import opened CleanPieces
  import T = Tokenizer

  const LAND: char := '\U{56FD}'
  const STOP: char := IDEOGRAPHIC_STOP
  const PAIR: string := [META, LAND, LAND]
  const RUNES: string := [META, MIDDLE, LAND, STOP]

  /** Four one-rune pieces, and one of three runes that scores better than they do. */
  function PairPiece(): T.Vocabulary {
    T.Vocabulary([Single(META), Single(MIDDLE), Single(LAND), Single(STOP), T.Piece(PAIR, 0.0, T.NORMAL)],
                 map[[META] := 0, [MIDDLE] := 1, [LAND] := 2, [STOP] := 3, PAIR := 4], 0)
  }

  lemma PairPieceClean()
    ensures T.Valid(PairPiece()) && Clean(PairPiece())
  {
    forall s: string, k: nat | T.Usable(PairPiece(), s) ensures !Between(s, k) {
      assert |s| == 1 || s == PAIR;
    }
  }

  /** A prepared text of these runes, with its only meta symbol in front. */
  predicate InRunes(p: string) {
    p != "" && p[0] == META && forall i | 0 < i < |p| :: p[i] in RUNES && p[i] != META
  }

  lemma StepsOfRunes(p: string, i: nat, j: nat)
    requires T.Valid(PairPiece()) && InRunes(p) && i < |p|
    ensures var s := T.Step(PairPiece(), p, i, j);
      && (j == i + 1 ==> s.Some? && s.value.score == -1.0 && s.value.id >= 0)
      && (j != i + 1 && s.Some? ==> i == 0 && j == 3 && p[..3] == PAIR && s.value.score == 0.0 && s.value.id == 4)
      && (i == 0 && j == 3 <= |p| && p[..3] == PAIR ==> s == Some(T.Edge(0, 3, 4, 0.0)))
  {
    assert p[i..i + 1] == [p[i]];
    assert T.Matches(PairPiece(), p, i, i + 1);
    assert i < j <= |p| ==> p[i..j][0] == p[i];
  }

  /** Every segmentation takes single runes, but for the long piece at the start. */
  lemma {:induction false} RunesPath(p: string, path: seq<T.Edge>, n: nat)
    requires T.Valid(PairPiece()) && InRunes(p) && T.IsPath(PairPiece(), p, path, n)
    ensures (|path| == n && T.Score(path) == -(n as real)) ||
            (n >= 3 && p[..3] == PAIR && |path| == n - 2 && T.Score(path) == 3.0 - n as real)
    ensures |T.TrailingIds(path)| == |path|
  {
    hide T.Step, InRunes;
    if path != [] {
      var e, prefix := path[|path| - 1], path[..|path| - 1];
      T.StepIsKnown(PairPiece(), p, e.start, n);
      RunesPath(p, prefix, e.start);
      StepsOfRunes(p, e.start, n);
    }
  }

  /** Without the long piece at the start every rune is a token. */
  lemma CountOfRunes(text: string, p: string)
    requires T.Valid(PairPiece()) && text != "" && p == T.Prepared(text) && InRunes(p) && |p| >= 2 && p[1] != LAND
    ensures TokenCount(PairPiece(), text) == |p|
  {
    hide T.Best, T.BestPath, T.IsPath, T.Prepared, T.Score, InRunes, T.TrailingIds;
    T.EndReached(PairPiece(), p);
    T.BestPathIsPath(PairPiece(), p, |p|);
    RunesPath(p, T.BestPath(PairPiece(), p, |p|), |p|);
    assert |p| >= 3 ==> p[..3][1] == p[1];
  }

  /** With it, and one rune more, there are two tokens. */
  lemma CountOfPair(text: string, p: string)
    requires T.Valid(PairPiece()) && text != "" && p == T.Prepared(text) && p == PAIR + [STOP]
    ensures TokenCount(PairPiece(), text) == 2
  {
    hide T.Best, T.BestPath, T.Prepared, T.Step, T.TrailingIds;
    T.EndReached(PairPiece(), p);
    T.BestPathIsPath(PairPiece(), p, 4);
    var path := PairPath(p);
    T.BestPathIsOptimal(PairPiece(), p, path);
    hide T.IsPath;
    RunesPath(p, T.BestPath(PairPiece(), p, 4), 4);
  }

  lemma PairPath(p: string) returns (path: seq<T.Edge>)
    requires T.Valid(PairPiece()) && p == PAIR + [STOP]
    ensures T.IsPath(PairPiece(), p, path, 4) && T.Score(path) == -1.0
  {
    hide T.Step;
    StepsOfRunes(p, 0, 3);
    StepsOfRunes(p, 3, 4);
    var d, e := T.Edge(0, 3, 4, 0.0), T.Step(PairPiece(), p, 3, 4).value;
    StepStarts(p, 3, 4);
    assert [d][..0] == [] && T.IsPath(PairPiece(), p, [d], 3);
    path := [d, e];
    assert path[..1] == [d];
    assert T.Score([d]) == 0.0;
  }

  lemma StepStarts(p: string, i: nat, j: nat)
    requires T.Valid(PairPiece()) && T.Step(PairPiece(), p, i, j).Some?
    ensures T.Step(PairPiece(), p, i, j).value.start == i
  {
  }

  // ----- The text -----

  const FIRST: string := [MIDDLE, STOP]
  const SECOND: string := [LAND, LAND, STOP]
  const THREE: string := FIRST + SECOND + SECOND

  lemma CountsOfThree()
    ensures T.Valid(PairPiece())
    ensures TokenCount(PairPiece(), FIRST) == 3 && TokenCount(PairPiece(), SECOND) == 2
    ensures TokenCount(PairPiece(), FIRST + SECOND) == 6
  {
    hide TokenCount, T.Prepared, T.Valid;
    PairPieceClean();
    PreparedIs(FIRST, [META] + FIRST);
    CountOfRunes(FIRST, [META] + FIRST);
    PreparedIs(SECOND, PAIR + [STOP]);
    CountOfPair(SECOND, PAIR + [STOP]);
    PreparedIs(FIRST + SECOND, [META] + FIRST + SECOND);
    CountOfRunes(FIRST + SECOND, [META] + FIRST + SECOND);
  }

  lemma MarksOfThree()
    ensures THREE[1] == THREE[4] == THREE[7] == STOP && EndsSentence(STOP) && |THREE| == 8
    ensures forall i | 0 <= i < 8 && i !in {1, 4, 7} :: !EndsSentence(THREE[i])
    ensures forall i | 0 <= i < 8 :: !Closes(THREE[i]) && !Blank(THREE[i]) && !IsSpace(THREE[i])
  {
  }

  /** The sentence that starts at `i` and ends at the mark at `k`. */
  lemma SentenceIs(i: nat, k: nat)
    requires i <= k < 8 && THREE[k] == STOP && forall j | i <= j < k :: !EndsSentence(THREE[j])
    ensures Sentences(THREE, EndsSentence, i) == [THREE[i..k + 1]] + Sentences(THREE, EndsSentence, k + 1)
  {
    MarksOfThree();
    hide Trim, Sentences, Find, SkipWhile, EndsSentence, Closes, Blank, IsSpace;
    FindIs(THREE, i, EndsSentence, k);
    SkipNone(THREE, k + 1, Closes);
    SkipNone(THREE, k + 1, Blank);
    SentencesStep(THREE, EndsSentence, i, k);
    TrimOfTrimmed(THREE[i..k + 1]);
  }

  lemma SentencesOfThree()
    ensures Sentences(THREE, EndsSentence, 0) == [FIRST, SECOND, SECOND]
  {
    MarksOfThree();
    hide Sentences, Trim, EndsSentence, Find;
    SentenceIs(0, 1);
    SentenceIs(2, 4);
    SentenceIs(5, 7);
    assert THREE[0..2] == FIRST && THREE[2..5] == SECOND && THREE[5..8] == SECOND && THREE[8..] == "";
    FindIs(THREE, 8, EndsSentence, 8);
    SentencesTail(THREE, EndsSentence, 8);
    TrimOfTrimmed("");
  }

  lemma PrepareOfThree()
    ensures Trim(THREE) == THREE && Prepare(THREE) == THREE
  {
    hide Trim, Replace, WordCount;
    TrimOfTrimmed(THREE);
    assert Replace(THREE, '\r', ' ') == THREE && Replace(THREE, '\n', ' ') == THREE;
    assert !HasDoubleSpace(THREE);
    assert THREE[0] == MIDDLE && MIDDLE in THREE && IsCJK(MIDDLE);
  }

  lemma SlicesOfThree(count: Counter)
    requires count(FIRST) == 3 && count(SECOND) == 2
    ensures SentencesSlices(count, [FIRST, SECOND, SECOND], 5) == [FIRST, SECOND, SECOND]
  {
    hide Trim, Sentences;
    TrimOfTrimmed(FIRST);
    TrimOfTrimmed(SECOND);
    var l := [FIRST, SECOND, SECOND];
    assert l[1..] == [SECOND, SECOND] && l[1..][1..] == [SECOND] && [SECOND][1..] == [];
    assert SentenceSlices(count, FIRST, 5) == [FIRST] && SentenceSlices(count, SECOND, 5) == [SECOND];
    assert SentencesSlices(count, [SECOND], 5) == [SECOND] + SentencesSlices(count, [], 5);
    assert SentencesSlices(count, [SECOND, SECOND], 5) == [SECOND] + SentencesSlices(count, [SECOND], 5);
  }

  lemma PackOfThree(count: Counter)
    requires count(FIRST) == 3 && count(SECOND) == 2 && count(FIRST + SECOND) == 6
    ensures Pack(count, [FIRST, SECOND, SECOND], "", 5) == [FIRST + SECOND, SECOND]
  {
    hide Trim;
    var l, j := [FIRST, SECOND, SECOND], FIRST + SECOND;
    TrimOfTrimmed(j);
    TrimOfTrimmed(SECOND);
    assert l[1..] == [SECOND, SECOND] && l[1..][1..] == [SECOND] && [SECOND][1..] == [];
    assert FIRST[0] == MIDDLE && MIDDLE in FIRST && IsCJK(MIDDLE);
    assert Join(FIRST, SECOND) == j;
    hide Join, ContainsCJK;
    assert Pack(count, [SECOND], j, 5) == [j] + Pack(count, [], SECOND, 5);
    assert Pack(count, l[1..], FIRST, 5) == Pack(count, [SECOND], j, 5);
  }

  /** The budget can fail in packing, for a clean vocabulary: three tokens and two make a chunk of six. */
  lemma JoinCanFail()
    ensures T.Valid(PairPiece()) && Clean(PairPiece()) && PairPiece().unkID >= 0
    ensures var c := Chunks(CounterOf(PairPiece()), THREE, 5);
      c == [FIRST + SECOND, SECOND] && CounterOf(PairPiece())(c[0]) == 6 && !AllFit(CounterOf(PairPiece()), c, 5)
  {
    hide Trim, TokenCount, Prepare, Sentences, SentencesSlices, Pack, Clean, T.Valid;
    PairPieceClean();
    CountsOfThree();
    var count := CounterOf(PairPiece());
    PrepareOfThree();
    SentencesOfThree();
    SlicesOfThree(count);
    PackOfThree(count);
    assert Chunks(count, THREE, 5)[0] in Chunks(count, THREE, 5);
  }
}
