/**
 When the whole text splitter keeps the token budget, for one text and one counter: exactly when no
 round of cutting leaves a prefix over the budget and no join of slices gives a text over it.
 */
module ChunkBudget {
  import opened Text
  import opened Chunker

  // ----- Cutting one clause -----

  /** The texts that the rounds of the budget splitter cut, from `rem` on. */
  function Rounds(count: Counter, rem: string, max: nat): seq<string>
    decreases |rem|
  {
    if rem == "" || count(rem) <= max then []
    else [rem] + Rounds(count, Trim(rem[Cut(count, rem, max)..]), max)
  }

  /** The search found no prefix within the budget, and the first symbol alone is over it. */
  predicate Stuck(count: Counter, rem: string, max: nat) {
    rem != "" && Search(count, rem, max, 1, |rem|, 1) == 1 && count([rem[0]]) > max
  }

  predicate CutFails(count: Counter, rem: string, max: nat) {
    Oversteps(count, rem, max) || Stuck(count, rem, max)
  }

  /** The search returns 1 or the length of a prefix within the budget. */
  lemma {:induction false} SearchFound(count: Counter, rem: string, max: nat, low: nat, high: nat, best: nat)
    requires 1 <= low && high <= |rem| && 1 <= best <= |rem| && (best == 1 || Fits(count, rem, max, best))
    ensures var r := Search(count, rem, max, low, high, best); r == 1 || Fits(count, rem, max, r)
    decreases high + 1 - low
  {
    hide Trim, Fits;
    if low <= high {
      var middle := (low + high) / 2;
      if Trim(rem[..middle]) == "" {
        SearchFound(count, rem, max, middle + 1, high, best);
      } else if Fits(count, rem, max, middle) {
        SearchFound(count, rem, max, middle + 1, high, middle);
      } else {
        SearchFound(count, rem, max, low, middle - 1, best);
      }
    }
  }

  /** The piece that a round cuts off is over the budget exactly when the round oversteps or is stuck. */
  lemma PieceFitsExactly(count: Counter, rem: string, max: nat)
    requires Trimmed(rem) && rem != "" && count(rem) > max
    ensures count(Trim(rem[..Cut(count, rem, max)])) <= max <==> !CutFails(count, rem, max)
  {
    hide Trim, Cut, Search;
    SearchFound(count, rem, max, 1, |rem|, 1);
    assert rem[..1] == [rem[0]];
    TrimOfTrimmed([rem[0]]);
  }

  lemma {:induction false} PiecesFitExactly(count: Counter, rem: string, max: nat)
    requires Trimmed(rem)
    ensures AllFit(count, BudgetPieces(count, rem, max), max) <==> NoneFails(count, Rounds(count, rem, max), max)
    decreases |rem|
  {
    hide Trim, Cut, CutFails, Trimmed;
    if rem != "" && count(rem) > max {
      var cut := Cut(count, rem, max);
      var piece, rest := Trim(rem[..cut]), Trim(rem[cut..]);
      PieceFitsExactly(count, rem, max);
      TrimIsTrimmed(rem[cut..]);
      PiecesFitExactly(count, rest, max);
      FitAppend(count, [piece], BudgetPieces(count, rest, max), max);
      FitOne(count, piece, max);
      assert Rounds(count, rem, max) == [rem] + Rounds(count, rest, max);
      NoneAppend(count, [rem], Rounds(count, rest, max), max);
    }
  }

  lemma FitAppend(count: Counter, a: seq<string>, b: seq<string>, max: nat)
    ensures AllFit(count, a + b, max) <==> AllFit(count, a, max) && AllFit(count, b, max)
  {
  }

  lemma FitOne(count: Counter, s: string, max: nat)
    ensures AllFit(count, [s], max) <==> count(s) <= max
  {
    assert s in [s];
  }

  /** No round of the list fails. */
  ghost predicate NoneFails(count: Counter, rounds: seq<string>, max: nat) {
    forall r | r in rounds :: !CutFails(count, r, max)
  }

  lemma NoneAppend(count: Counter, a: seq<string>, b: seq<string>, max: nat)
    ensures NoneFails(count, a + b, max) <==> NoneFails(count, a, max) && NoneFails(count, b, max)
    ensures |a| == 1 ==> (NoneFails(count, a, max) <==> !CutFails(count, a[0], max))
  {
    hide CutFails;
  }

  // ----- Slicing the sentences -----

  /** The rounds of cutting that a clause, a list of clauses, a sentence and a list of sentences give rise to. */
  function ClauseRounds(count: Counter, clause: string, max: nat): seq<string> {
    Rounds(count, Trim(clause), max)
  }

  function ClausesRounds(count: Counter, clauses: seq<string>, max: nat): seq<string> {
    if clauses == [] then [] else ClauseRounds(count, clauses[0], max) + ClausesRounds(count, clauses[1..], max)
  }

  function SentenceRounds(count: Counter, sentence: string, max: nat): seq<string> {
    var n := Trim(sentence);
    if n == "" || count(n) <= max then []
    else
      var clauses := Sentences(n, EndsClause, 0);
      ClausesRounds(count, if |clauses| <= 1 then [n] else clauses, max)
  }

  function SentencesRounds(count: Counter, sentences: seq<string>, max: nat): seq<string> {
    if sentences == [] then []
    else SentenceRounds(count, sentences[0], max) + SentencesRounds(count, sentences[1..], max)
  }

  lemma {:induction false} NonBlankSame(parts: seq<string>)
    requires forall p | p in parts :: p != "" && Trimmed(p)
    ensures NonBlank(parts) == parts
  {
    hide Trim;
    if parts != [] {
      assert parts[0] in parts && forall p | p in parts[1..] :: p in parts;
      NonBlankSame(parts[1..]);
      TrimOfTrimmed(parts[0]);
    }
  }

  lemma ClauseFitsExactly(count: Counter, clause: string, max: nat)
    ensures AllFit(count, ClauseSlices(count, clause, max), max) <==>
              NoneFails(count, ClauseRounds(count, clause, max), max)
  {
    hide Trim, Trimmed, BudgetPieces, NonBlank, CutFails;
    var c := Trim(clause);
    if c != "" && count(c) > max {
      TrimIsTrimmed(clause);
      BudgetKeepsAll(count, c, max);
      NonBlankSame(BudgetPieces(count, c, max));
      hide Rounds;
      PiecesFitExactly(count, c, max);
    } else if c != "" {
      FitOne(count, c, max);
    }
  }

  lemma {:induction false} ClausesFitExactly(count: Counter, clauses: seq<string>, max: nat)
    ensures AllFit(count, ClausesSlices(count, clauses, max), max) <==>
              NoneFails(count, ClausesRounds(count, clauses, max), max)
  {
    hide ClauseSlices, ClauseRounds;
    if clauses != [] {
      ClausesFitExactly(count, clauses[1..], max);
      ClauseFitsExactly(count, clauses[0], max);
      hide AllFit, NoneFails;
      FitAppend(count, ClauseSlices(count, clauses[0], max), ClausesSlices(count, clauses[1..], max), max);
      NoneAppend(count, ClauseRounds(count, clauses[0], max), ClausesRounds(count, clauses[1..], max), max);
    }
  }

  lemma SentenceFitsExactly(count: Counter, sentence: string, max: nat)
    ensures AllFit(count, SentenceSlices(count, sentence, max), max) <==>
              NoneFails(count, SentenceRounds(count, sentence, max), max)
  {
    hide Trim, Sentences, ClausesSlices, ClausesRounds, CutFails;
    var n := Trim(sentence);
    if n != "" && count(n) > max {
      hide AllFit, NoneFails;
      var clauses := Sentences(n, EndsClause, 0);
      ClausesFitExactly(count, if |clauses| <= 1 then [n] else clauses, max);
    } else if n != "" {
      FitOne(count, n, max);
    }
  }

  /** Every slice is within the budget exactly when no round of cutting fails. */
  lemma {:induction false} SlicesFitExactly(count: Counter, sentences: seq<string>, max: nat)
    ensures AllFit(count, SentencesSlices(count, sentences, max), max) <==>
              NoneFails(count, SentencesRounds(count, sentences, max), max)
  {
    hide SentenceSlices, SentenceRounds;
    if sentences != [] {
      SlicesFitExactly(count, sentences[1..], max);
      SentenceFitsExactly(count, sentences[0], max);
      hide AllFit, NoneFails;
      FitAppend(count, SentenceSlices(count, sentences[0], max), SentencesSlices(count, sentences[1..], max), max);
      NoneAppend(count, SentenceRounds(count, sentences[0], max), SentencesRounds(count, sentences[1..], max), max);
    }
  }

  // ----- Packing -----

  /** The texts that packing makes by joining a slice to the open chunk. */
  function Joins(count: Counter, slices: seq<string>, current: string, max: nat): seq<string> {
    if slices == [] then []
    else if current == "" || count(current) + count(slices[0]) > max then Joins(count, slices[1..], slices[0], max)
    else [Join(current, slices[0])] + Joins(count, slices[1..], Join(current, slices[0]), max)
  }

  /** The chunks are within the budget exactly when the slices and the joins are: what is over the budget
      is never joined to anything, and becomes a chunk of its own. */
  lemma {:induction false} PackFitsExactly(count: Counter, slices: seq<string>, current: string, max: nat)
    requires Trimmed(current) && forall p | p in slices :: p != "" && Trimmed(p)
    ensures AllFit(count, Pack(count, slices, current, max), max) <==>
              (current == "" || count(current) <= max) && AllFit(count, slices, max) &&
              AllFit(count, Joins(count, slices, current, max), max)
    decreases |slices|
  {
    hide Join, Trim, Trimmed, AllFit;
    TrimOfTrimmed(current);
    FitOne(count, current, max);
    FitNone(count, max);
    if slices != [] {
      var s, rest := slices[0], slices[1..];
      assert s in slices && forall p | p in rest :: p in slices;
      assert slices == [s] + rest;
      FitAppend(count, [s], rest, max);
      FitOne(count, s, max);
      if current == "" {
        PackFitsExactly(count, rest, s, max);
      } else if count(current) + count(s) > max {
        PackFitsExactly(count, rest, s, max);
        FitAppend(count, [current], Pack(count, rest, s, max), max);
      } else {
        var j := Join(current, s);
        JoinKeepsAll(current, s);
        PackFitsExactly(count, rest, j, max);
        FitOne(count, j, max);
        FitAppend(count, [j], Joins(count, rest, j, max), max);
      }
    }
  }

  lemma FitNone(count: Counter, max: nat)
    ensures AllFit(count, [], max)
  {
  }

  // ----- The whole splitter -----

  /** The rounds of cutting for the prepared text, and the joins of its slices. */
  function TextRounds(count: Counter, text: string, max: nat): seq<string> {
    SentencesRounds(count, Candidates(Prepare(Trim(text))), max)
  }

  function TextJoins(count: Counter, text: string, max: nat): seq<string> {
    Joins(count, SentencesSlices(count, Candidates(Prepare(Trim(text))), max), "", max)
  }

  lemma PackedFitsExactly(count: Counter, sentences: seq<string>, max: nat)
    ensures AllFit(count, Pack(count, SentencesSlices(count, sentences, max), "", max), max) <==>
      NoneFails(count, SentencesRounds(count, sentences, max), max) &&
      AllFit(count, Joins(count, SentencesSlices(count, sentences, max), "", max), max)
  {
    hide Trim, SentencesSlices, SentencesRounds, Pack, Joins, AllFit, NoneFails, Strip, Concat, Lawful;
    SentencesCarry(count, sentences, max);
    SlicesFitExactly(count, sentences, max);
    PackFitsExactly(count, SentencesSlices(count, sentences, max), "", max);
  }

  /** A text that is split into several chunks is split within the budget exactly when no round of cutting
      oversteps or is stuck, and no join of slices is over the budget. */
  lemma ChunksFitExactly(count: Counter, text: string, maxTokens: int)
    requires |Chunks(count, text, maxTokens)| > 1
    ensures var max := SafeMax(maxTokens);
      AllFit(count, Chunks(count, text, maxTokens), max) <==>
      NoneFails(count, TextRounds(count, text, max), max) && AllFit(count, TextJoins(count, text, max), max)
  {
    hide Prepare, Trim, Candidates, SentencesSlices, SentencesRounds, Pack, Joins, AllFit, NoneFails;
    PackedFitsExactly(count, Candidates(Prepare(Trim(text))), SafeMax(maxTokens));
  }
}
