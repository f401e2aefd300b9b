/**
 The unigram tokenizer (pkg/tokenizer/tokenizer.go): `Encode` finds the best segmentation of
 the prepared text with a Viterbi dynamic program over arrays and back-pointers, `Decode`
 concatenates the pieces again.
 */
module Tokenizer {
  import opened Options
  import opened Text

  const NORMAL := 1
  const CONTROL := 3
  const USER_DEFINED := 4
  const BYTE := 6

  const META: char := '\U{2581}'
  const MAX_PIECE: nat := 64

  datatype Piece = Piece(text: string, score: real, kind: int)

  datatype Vocabulary = Vocabulary(pieces: seq<Piece>, pieceToID: map<string, nat>, unkID: int)

  ghost predicate Valid(v: Vocabulary) {
    forall t :: t in v.pieceToID ==> v.pieceToID[t] < |v.pieces| && v.pieces[v.pieceToID[t]].text == t
  }

  /** A string that may be used as a piece of a segmentation. */
  predicate Usable(v: Vocabulary, s: string)
    requires Valid(v)
  {
    s in v.pieceToID && v.pieces[v.pieceToID[s]].kind in {NORMAL, USER_DEFINED, BYTE}
  }

  // ----- Segmentations -----

  /** One step of a segmentation: the runes from `start` to `end` as token `id`. */
  datatype Edge = Edge(start: nat, end: nat, id: int, score: real)

  function HexDigit(d: nat): char
    requires d < 16
  {
    "0123456789ABCDEF"[d]
  }

  /** The name of the byte piece for a rune below 0x100. */
  function ByteName(b: nat): string
    requires b < 0x100
  {
    "<0x" + [HexDigit(b / 16), HexDigit(b % 16)] + ">"
  }

  function FallbackID(v: Vocabulary, ch: char): int {
    if ch as int < 0x100 && ByteName(ch as int) in v.pieceToID then v.pieceToID[ByteName(ch as int)] else v.unkID
  }

  predicate Matches(v: Vocabulary, text: string, i: nat, j: nat)
    requires Valid(v)
  {
    i < j <= |text| && j <= i + MAX_PIECE && Usable(v, text[i..j])
  }

  predicate HasMatch(v: Vocabulary, text: string, i: nat)
    requires Valid(v)
  {
    exists j | i < j <= |text| :: Matches(v, text, i, j)
  }

  /** The step from `i` to `j`, if segmentations may take it: a usable piece, or, where no piece
      matches at all, a single rune for free. */
  function Step(v: Vocabulary, text: string, i: nat, j: nat): Option<Edge>
    requires Valid(v)
  {
    if Matches(v, text, i, j) then
      var id := v.pieceToID[text[i..j]];
      Some(Edge(i, j, id, v.pieces[id].score))
    else if j == i + 1 <= |text| && !HasMatch(v, text, i) then
      Some(Edge(i, j, FallbackID(v, text[i]), 0.0))
    else None
  }

  /** A segmentation of the first `to` runes. */
  ghost predicate IsPath(v: Vocabulary, text: string, path: seq<Edge>, to: nat)
    requires Valid(v)
  {
    if path == [] then to == 0
    else
      var e := path[|path| - 1];
      && Step(v, text, e.start, to) == Some(e)
      && IsPath(v, text, path[..|path| - 1], e.start)
  }

  function Score(path: seq<Edge>): real {
    if path == [] then 0.0 else Score(path[..|path| - 1]) + path[|path| - 1].score
  }

  function Ids(path: seq<Edge>): seq<int> {
    if path == [] then [] else Ids(path[..|path| - 1]) + [path[|path| - 1].id]
  }

  // ----- The dynamic program -----

  /** The best score of a segmentation of `j` runes whose last step starts before `i`. */
  function Best(v: Vocabulary, text: string, i: nat, j: nat): Option<real>
    requires Valid(v)
  {
    if i == 0 then (if j == 0 then Some(0.0) else None)
    else Improve(Best(v, text, i - 1, j), Best(v, text, i - 1, i - 1), Step(v, text, i - 1, j)).0
  }

  /** The last step of the segmentation kept for `Best(i, j)`. */
  function Last(v: Vocabulary, text: string, i: nat, j: nat): Option<Edge>
    requires Valid(v)
  {
    if i == 0 then None
    else if Improve(Best(v, text, i - 1, j), Best(v, text, i - 1, i - 1), Step(v, text, i - 1, j)).1
      then Step(v, text, i - 1, j)
    else Last(v, text, i - 1, j)
  }

  /** A step replaces what is known about its end only when it scores strictly more. */
  function Improve(known: Option<real>, from: Option<real>, step: Option<Edge>): (Option<real>, bool) {
    if from.Some? && step.Some? && (known.None? || from.value + step.value.score > known.value) then
      (Some(from.value + step.value.score), true)
    else (known, false)
  }

  /** No step ends at or before its start, so later starts change nothing for earlier positions. */
  lemma {:induction false} BestSettles(v: Vocabulary, text: string, i: nat, j: nat)
    requires Valid(v) && i >= j
    ensures Best(v, text, i, j) == Best(v, text, j, j) && Last(v, text, i, j) == Last(v, text, j, j)
    decreases i
  {
    if i > j {
      BestSettles(v, text, i - 1, j);
      assert Step(v, text, i - 1, j) == None;
    }
  }

  /** No segmentation scores more than the dynamic program says. */
  lemma {:induction false} BestIsUpperBound(v: Vocabulary, text: string, path: seq<Edge>, i: nat, j: nat)
    requires Valid(v) && IsPath(v, text, path, j)
    requires path == [] || path[|path| - 1].start < i
    ensures Best(v, text, i, j).Some? && Score(path) <= Best(v, text, i, j).value
    decreases |path|, i
  {
    if path == [] {
      BestSettles(v, text, i, 0);
    } else {
      var e := path[|path| - 1];
      if e.start < i - 1 {
        BestIsUpperBound(v, text, path, i - 1, j);
      } else {
        var prefix := path[..|path| - 1];
        PathStepsForward(v, text, prefix, e.start);
        BestIsUpperBound(v, text, prefix, e.start, e.start);
      }
    }
  }

  lemma PathStepsForward(v: Vocabulary, text: string, path: seq<Edge>, to: nat)
    requires Valid(v) && IsPath(v, text, path, to)
    ensures path == [] || path[|path| - 1].start < to <= |text|
  {
  }

  /** What the kept step of a reached position promises. */
  lemma {:induction false} LastIsStep(v: Vocabulary, text: string, i: nat, j: nat)
    requires Valid(v) && j > 0 && Best(v, text, i, j).Some?
    ensures var e := Last(v, text, i, j);
            && e.Some? && e.value.start < i && e.value.start < j && e.value.end == j
            && Step(v, text, e.value.start, j) == e
            && Best(v, text, e.value.start, e.value.start).Some?
            && Best(v, text, i, j).value == Best(v, text, e.value.start, e.value.start).value + e.value.score
  {
    if i == 0 {
    } else if !Improve(Best(v, text, i - 1, j), Best(v, text, i - 1, i - 1), Step(v, text, i - 1, j)).1 {
      LastIsStep(v, text, i - 1, j);
    }
  }

  /** The segmentation that following the kept steps back from `j` spells. */
  ghost function BestPath(v: Vocabulary, text: string, j: nat): seq<Edge>
    requires Valid(v) && Best(v, text, j, j).Some?
  {
    if j == 0 then []
    else
      LastIsStep(v, text, j, j);
      var e := Last(v, text, j, j).value;
      BestPath(v, text, e.start) + [e]
  }

  lemma {:induction false} BestPathIsPath(v: Vocabulary, text: string, j: nat)
    requires Valid(v) && Best(v, text, j, j).Some?
    ensures IsPath(v, text, BestPath(v, text, j), j)
    ensures Score(BestPath(v, text, j)) == Best(v, text, j, j).value
  {
    if j != 0 {
      LastIsStep(v, text, j, j);
      var e := Last(v, text, j, j).value;
      BestPathIsPath(v, text, e.start);
      assert BestPath(v, text, j)[..|BestPath(v, text, j)| - 1] == BestPath(v, text, e.start);
    }
  }

  /** Every position that is reached and is not the end has a step onwards. */
  lemma StepOnwards(v: Vocabulary, text: string, i: nat) returns (j: nat)
    requires Valid(v) && i < |text|
    ensures i < j <= |text| && Step(v, text, i, j).Some?
  {
    if HasMatch(v, text, i) {
      j :| i < j <= |text| && Matches(v, text, i, j);
    } else {
      j := i + 1;
    }
  }

  /** The whole text always has a segmentation. */
  lemma {:induction false} Segmentable(v: Vocabulary, text: string, path: seq<Edge>, i: nat) returns (full: seq<Edge>)
    requires Valid(v) && IsPath(v, text, path, i) && i <= |text|
    ensures IsPath(v, text, full, |text|)
    decreases |text| - i
  {
    if i == |text| {
      full := path;
    } else {
      var j := StepOnwards(v, text, i);
      var e := Step(v, text, i, j).value;
      assert (path + [e])[..|path|] == path;
      full := Segmentable(v, text, path + [e], j);
    }
  }

  /** The end of the text is always reached. */
  lemma EndReached(v: Vocabulary, text: string)
    requires Valid(v)
    ensures Best(v, text, |text|, |text|).Some?
  {
    var path := Segmentable(v, text, [], 0);
    PathStepsForward(v, text, path, |text|);
    BestIsUpperBound(v, text, path, |text|, |text|);
  }

  /** The segmentation of the program has the greatest score of all. */
  lemma BestPathIsOptimal(v: Vocabulary, text: string, path: seq<Edge>)
    requires Valid(v) && IsPath(v, text, path, |text|)
    ensures Best(v, text, |text|, |text|).Some?
    ensures IsPath(v, text, BestPath(v, text, |text|), |text|)
    ensures Score(path) <= Score(BestPath(v, text, |text|))
  {
    EndReached(v, text);
    PathStepsForward(v, text, path, |text|);
    BestIsUpperBound(v, text, path, |text|, |text|);
    BestPathIsPath(v, text, |text|);
  }

  // ----- Reading the tokens off -----

  /** The ids that back-tracking collects: it stops at the first negative id it meets. */
  function TrailingIds(path: seq<Edge>): seq<int> {
    if path == [] || path[|path| - 1].id < 0 then []
    else TrailingIds(path[..|path| - 1]) + [path[|path| - 1].id]
  }

  /** Back-tracking returns the whole segmentation exactly when no step of it has a negative id. */
  lemma {:induction false} TrailingIdsComplete(path: seq<Edge>)
    ensures |TrailingIds(path)| <= |Ids(path)| == |path|
    ensures TrailingIds(path) == Ids(path) <==> forall k | 0 <= k < |path| :: path[k].id >= 0
  {
    if path == [] {
    } else {
      var prefix := path[..|path| - 1];
      TrailingIdsComplete(prefix);
      if path[|path| - 1].id >= 0 {
        assert Ids(path)[..|prefix|] == Ids(prefix);
        if TrailingIds(path) == Ids(path) {
          assert TrailingIds(prefix) == Ids(prefix) by {
            assert |TrailingIds(path)| == |path|;
            assert TrailingIds(path)[..|prefix|] == TrailingIds(prefix);
          }
        }
        assert forall k | 0 <= k < |prefix| :: prefix[k] == path[k];
      } else {
        assert |TrailingIds(path)| == 0 && |Ids(path)| > 0;
      }
    }
  }

  /** A rune that only the unknown token can stand for: no piece starts here, and no byte piece names the rune. */
  predicate NeedsUnknown(v: Vocabulary, text: string, i: nat)
    requires Valid(v) && i < |text|
  {
    !HasMatch(v, text, i) && !(text[i] as int < 0x100 && ByteName(text[i] as int) in v.pieceToID)
  }

  /** A step has a negative id exactly when it stands for such a rune and the unknown id is negative. */
  lemma StepIsKnown(v: Vocabulary, text: string, i: nat, j: nat)
    requires Valid(v) && Step(v, text, i, j).Some?
    ensures i < j <= |text|
    ensures Step(v, text, i, j).value.id < 0 <==> v.unkID < 0 && NeedsUnknown(v, text, i)
  {
  }

  /** All ids of a segmentation come back exactly when the unknown id is not negative, or no step of it
      stands for a rune that needs the unknown token. */
  lemma {:induction false} AllIdsComeBack(v: Vocabulary, text: string, path: seq<Edge>, to: nat)
    requires Valid(v) && IsPath(v, text, path, to)
    ensures forall e | e in path :: e.start < |text|
    ensures TrailingIds(path) == Ids(path) <==>
      v.unkID >= 0 || forall e | e in path :: !NeedsUnknown(v, text, e.start)
  {
    hide NeedsUnknown, Step;
    PathIsKnown(v, text, path, to);
    TrailingIdsComplete(path);
    assert forall e | e in path :: exists k | 0 <= k < |path| :: path[k] == e;
  }

  lemma {:induction false} PathIsKnown(v: Vocabulary, text: string, path: seq<Edge>, to: nat)
    requires Valid(v) && IsPath(v, text, path, to)
    ensures forall k | 0 <= k < |path| :: path[k].start < |text|
    ensures forall k | 0 <= k < |path| :: path[k].id < 0 <==> v.unkID < 0 && NeedsUnknown(v, text, path[k].start)
  {
    hide NeedsUnknown, Step;
    if path != [] {
      var e, prefix := path[|path| - 1], path[..|path| - 1];
      PathIsKnown(v, text, prefix, e.start);
      StepIsKnown(v, text, e.start, to);
      assert forall k | 0 <= k < |prefix| :: path[k] == prefix[k];
    }
  }

  /** A vocabulary without an unknown token, as a trainer specification with the unknown id -1 leaves it. */
  function MetaOnly(): Vocabulary {
    Vocabulary([Piece([META], 0.0, NORMAL)], map[[META] := 0], -1)
  }

  /** Under it the one-letter text comes back without any token, though its segmentation has two. */
  lemma NegativeUnknownTruncates()
    ensures Valid(MetaOnly())
    ensures Prepared("x") == [META, 'x'] && Best(MetaOnly(), Prepared("x"), 2, 2).Some?
    ensures |BestPath(MetaOnly(), Prepared("x"), 2)| == 2
    ensures TrailingIds(BestPath(MetaOnly(), Prepared("x"), 2)) == []
  {
    MetaOnlyValid();
    PreparedX();
    hide Prepared, MetaOnly, Best, BestPath, IsPath, Valid;
    var v, t := MetaOnly(), Prepared("x");
    EndReached(v, t);
    BestPathIsPath(v, t, 2);
    PathOfX(v, t, BestPath(v, t, 2));
  }

  lemma MetaOnlyValid()
    ensures Valid(MetaOnly())
  {
  }

  lemma PreparedX()
    ensures Prepared("x") == [META, 'x']
  {
    assert Replace(Normalize("x"), ' ', META) == "x";
  }

  lemma PathOfX(v: Vocabulary, t: string, path: seq<Edge>)
    requires v == MetaOnly() && t == [META, 'x'] && Valid(v) && IsPath(v, t, path, 2)
    ensures |path| == 2 && TrailingIds(path) == []
  {
    NothingAtX(v, t);
    hide Step, MetaOnly, Valid;
    var e, f := path[|path| - 1], path[..|path| - 1];
    assert e.start == 1 && e.id == -1;
    assert IsPath(v, t, f, 1) && f != [];
    assert f[|f| - 1].start == 0;
    PathStepsForward(v, t, f[..|f| - 1], 0);
  }

  lemma NothingAtX(v: Vocabulary, t: string)
    requires v == MetaOnly() && t == [META, 'x']
    ensures Step(v, t, 0, 2).None? && Step(v, t, 1, 2) == Some(Edge(1, 2, -1, 0.0)) && Step(v, t, 0, 1).Some?
    ensures forall i | Step(v, t, i, 2).Some? :: i == 1
    ensures forall i | Step(v, t, i, 1).Some? :: i == 0
  {
    assert t[0..1] == [META] && t[1..2] == ['x'] && t[0..2] == t;
    assert !HasMatch(v, t, 1);
    assert |ByteName('x' as int)| != 1;
  }

  // ----- The program -----

  /** What the three arrays hold for position `j` once all steps that start before `i` are tried. */
  ghost predicate Entry(v: Vocabulary, text: string, i: nat, j: nat, d: Option<real>, b: int, id: int)
    requires Valid(v)
  {
    && d == Best(v, text, i, j)
    && (j > 0 ==> b == (if Last(v, text, i, j).Some? then Last(v, text, i, j).value.start else -1))
    && (j > 0 ==> id == (if Last(v, text, i, j).Some? then Last(v, text, i, j).value.id else -1))
  }

  lemma StartEntry(v: Vocabulary, text: string, j: nat, b: int, id: int)
    requires Valid(v) && (j > 0 ==> b == -1 && id == -1)
    ensures Entry(v, text, 0, j, if j == 0 then Some(0.0) else None, b, id)
  {
  }

  /** An entry without a step from `i`, or without a way to `i`, stays as it is. */
  lemma EntryKept(v: Vocabulary, text: string, i: nat, j: nat, d: Option<real>, b: int, id: int)
    requires Valid(v) && Entry(v, text, i, j, d, b, id)
    requires Step(v, text, i, j).None? || Best(v, text, i, i).None?
    ensures Entry(v, text, i + 1, j, d, b, id)
  {
  }

  /** The effect of trying the step from `i` to `j`. */
  lemma EntryTried(v: Vocabulary, text: string, i: nat, j: nat, e: Edge, di: real, d: Option<real>, b: int, id: int)
    requires Valid(v) && Entry(v, text, i, j, d, b, id)
    requires Step(v, text, i, j) == Some(e) && Best(v, text, i, i) == Some(di)
    ensures e.start == i
    ensures if d.None? || di + e.score > d.value then Entry(v, text, i + 1, j, Some(di + e.score), i, e.id)
            else Entry(v, text, i + 1, j, d, b, id)
  {
  }

  /** Try every step that starts at `i`: usable pieces of at most 64 runes, or the fallback when there is none. */
  method Relax(v: Vocabulary, text: string, i: nat, dp: array<Option<real>>, back: array<int>, pieceID: array<int>)
    requires Valid(v) && i < |text|
    requires dp.Length == |text| + 1 && back.Length == |text| + 1 && pieceID.Length == |text| + 1 && back != pieceID
    requires forall j: nat | j <= |text| :: Entry(v, text, i, j, dp[j], back[j], pieceID[j])
    requires dp[i].Some?
    modifies dp, back, pieceID
    ensures forall j: nat | j <= |text| :: Entry(v, text, i + 1, j, dp[j], back[j], pieceID[j])
  {
    hide Entry, Best, Last, Usable;
    var di := dp[i].value;
    assert Best(v, text, i, i) == Some(di) by { EntryBest(v, text, i, i, dp[i], back[i], pieceID[i]); }
    var matched := false;
    var maxLen := if i + MAX_PIECE > |text| then |text| else i + MAX_PIECE;
    for end := i + 1 to maxLen + 1
      invariant dp[i] == Some(di)
      invariant matched == exists j | i < j < end :: Matches(v, text, i, j)
      invariant forall j: nat | j <= |text| ::
                  Entry(v, text, if i < j < end && Matches(v, text, i, j) then i + 1 else i, j, dp[j], back[j], pieceID[j])
    {
      var candidate := text[i..end];
      if candidate in v.pieceToID {
        var id := v.pieceToID[candidate];
        var t := v.pieces[id].kind;
        if t == NORMAL || t == USER_DEFINED || t == BYTE {
          assert Matches(v, text, i, end) by { UsableKind(v, candidate); }
          var score := di + v.pieces[id].score;
          EntryTried(v, text, i, end, Edge(i, end, id, v.pieces[id].score), di, dp[end], back[end], pieceID[end]);
          if dp[end].None? || score > dp[end].value {
            dp[end], back[end], pieceID[end] := Some(score), i, id;
          }
          matched := true;
        }
      }
      NotUsableKind(v, candidate);
    }
    assert matched <==> HasMatch(v, text, i);
    if !matched {
      var id := FallbackID(v, text[i]);
      EntryTried(v, text, i, i + 1, Edge(i, i + 1, id, 0.0), di, dp[i + 1], back[i + 1], pieceID[i + 1]);
      if dp[i + 1].None? || di > dp[i + 1].value {
        dp[i + 1], back[i + 1], pieceID[i + 1] := Some(di), i, id;
      }
    }
    forall j: nat | j <= |text| ensures Entry(v, text, i + 1, j, dp[j], back[j], pieceID[j]) {
      if !Matches(v, text, i, j) && (matched || j != i + 1) {
        EntryKept(v, text, i, j, dp[j], back[j], pieceID[j]);
      }
    }
  }

  lemma EntryBest(v: Vocabulary, text: string, i: nat, j: nat, d: Option<real>, b: int, id: int)
    requires Valid(v) && Entry(v, text, i, j, d, b, id)
    ensures d == Best(v, text, i, j)
  {
  }

  lemma UsableKind(v: Vocabulary, s: string)
    requires Valid(v) && s in v.pieceToID
    requires var t := v.pieces[v.pieceToID[s]].kind; t == NORMAL || t == USER_DEFINED || t == BYTE
    ensures Usable(v, s)
  {
  }

  lemma NotUsableKind(v: Vocabulary, s: string)
    requires Valid(v)
    ensures Usable(v, s) ==> s in v.pieceToID
    ensures Usable(v, s) ==> v.pieces[v.pieceToID[s]].kind in {NORMAL, USER_DEFINED, BYTE}
  {
  }

  function Reversed(s: seq<int>): (r: seq<int>)
    ensures |r| == |s|
  {
    if s == [] then [] else [s[|s| - 1]] + Reversed(s[..|s| - 1])
  }

  lemma {:induction false} ReversedAt(s: seq<int>, k: nat)
    requires k < |s|
    ensures Reversed(s)[|s| - 1 - k] == s[k]
  {
    if k < |s| - 1 {
      ReversedAt(s[..|s| - 1], k);
    }
  }

  method ReverseTokens(rev: seq<int>) returns (tokens: seq<int>)
    ensures tokens == Reversed(rev)
  {
    var a := new int[|rev|](_ => 0);
    for i := 0 to |rev|
      invariant forall k | 0 <= k < i :: a[|rev| - 1 - k] == rev[k]
    {
      a[|rev| - 1 - i] := rev[i];
    }
    tokens := a[..];
    forall k | 0 <= k < |rev| ensures tokens[k] == Reversed(rev)[k] {
      ReversedAt(rev, |rev| - 1 - k);
      assert a[|rev| - 1 - (|rev| - 1 - k)] == rev[|rev| - 1 - k];
    }
  }

  /** The back-pointer and id stored for a reached position describe the last step of its segmentation. */
  lemma BackEntry(v: Vocabulary, text: string, n: nat, j: nat, d: Option<real>, b: int, id: int)
    requires Valid(v) && 0 < j <= n && Entry(v, text, n, j, d, b, id) && Best(v, text, j, j).Some?
    ensures 0 <= b < j && Best(v, text, b, b).Some?
    ensures var path := BestPath(v, text, j);
            && |path| > 0 && path[|path| - 1].id == id
            && path[..|path| - 1] == BestPath(v, text, b)
  {
    BestSettles(v, text, n, j);
    LastIsStep(v, text, j, j);
    var e := Last(v, text, j, j).value;
    assert BestPath(v, text, j) == BestPath(v, text, e.start) + [e];
  }

  /** The tokens are those of the whole best segmentation. */
  ghost predicate IsWhole(v: Vocabulary, text: string, tokens: seq<int>)
    requires Valid(v) && Best(v, text, |text|, |text|).Some?
  {
    tokens == Ids(BestPath(v, text, |text|))
  }

  /** No step of the best segmentation stands for a rune that needs the unknown token. */
  ghost predicate IsKnown(v: Vocabulary, text: string)
    requires Valid(v) && Best(v, text, |text|, |text|).Some?
  {
    forall e | e in BestPath(v, text, |text|) && e.start < |text| :: !NeedsUnknown(v, text, e.start)
  }

  /** The Viterbi search over the prepared text, and the read-off of its tokens. */
  method Viterbi(v: Vocabulary, text: string) returns (tokens: seq<int>)
    requires Valid(v)
    ensures Best(v, text, |text|, |text|).Some?
    ensures tokens == TrailingIds(BestPath(v, text, |text|))
    ensures IsWhole(v, text, tokens) <==> v.unkID >= 0 || IsKnown(v, text)
  {
    hide Entry, Best, Last, BestPath, IsPath;
    var n := |text|;
    var dp := new Option<real>[n + 1](_ => None);
    var back := new int[n + 1](_ => 0);
    var pieceID := new int[n + 1](_ => 0);
    for i := 1 to n + 1
      invariant forall j | 0 <= j <= n :: dp[j] == None
      invariant forall j | 1 <= j < i :: back[j] == -1 && pieceID[j] == -1
    {
      dp[i], back[i], pieceID[i] := None, -1, -1;
    }
    dp[0] := Some(0.0);
    forall j: nat | j <= n ensures Entry(v, text, 0, j, dp[j], back[j], pieceID[j]) {
      StartEntry(v, text, j, back[j], pieceID[j]);
    }

    for i := 0 to n
      invariant forall j: nat | j <= n :: Entry(v, text, i, j, dp[j], back[j], pieceID[j])
    {
      if dp[i] == None {
        forall j: nat | j <= n ensures Entry(v, text, i + 1, j, dp[j], back[j], pieceID[j]) {
          EntryBest(v, text, i, i, dp[i], back[i], pieceID[i]);
          EntryKept(v, text, i, j, dp[j], back[j], pieceID[j]);
        }
      } else {
        Relax(v, text, i, dp, back, pieceID);
      }
    }

    EndReached(v, text);
    tokens := BackTrack(v, text, back, pieceID, dp);
    BestPathIsPath(v, text, n);
    AllIdsComeBack(v, text, BestPath(v, text, n), n);
  }

  /** Follow the back-pointers from the end of the text and turn the ids round. */
  method BackTrack(v: Vocabulary, text: string, back: array<int>, pieceID: array<int>, ghost dp: array<Option<real>>)
    returns (tokens: seq<int>)
    requires Valid(v) && Best(v, text, |text|, |text|).Some?
    requires dp.Length == |text| + 1 && back.Length == |text| + 1 && pieceID.Length == |text| + 1
    requires forall j: nat | j <= |text| :: Entry(v, text, |text|, j, dp[j], back[j], pieceID[j])
    ensures tokens == TrailingIds(BestPath(v, text, |text|))
  {
    hide Entry, Best, Last, BestPath;
    var n := |text|;
    var rev: seq<int> := [];
    var pos := n;
    ghost var goal := TrailingIds(BestPath(v, text, n));
    while pos > 0
      invariant 0 <= pos <= n && Best(v, text, pos, pos).Some?
      invariant TrailingIds(BestPath(v, text, pos)) + Reversed(rev) == goal
      decreases pos
    {
      BackEntry(v, text, n, pos, dp[pos], back[pos], pieceID[pos]);
      if pieceID[pos] < 0 {
        assert TrailingIds(BestPath(v, text, pos)) == [];
        break;
      }
      assert (rev + [pieceID[pos]])[..|rev|] == rev;
      rev := rev + [pieceID[pos]];
      pos := back[pos];
    }
    assert TrailingIds(BestPath(v, text, pos)) == [] by {
      EmptyPath(v, text);
    }
    tokens := ReverseTokens(rev);
  }

  lemma EmptyPath(v: Vocabulary, text: string)
    requires Valid(v)
    ensures Best(v, text, 0, 0).Some? && BestPath(v, text, 0) == []
  {
  }

  // ----- Encode and decode -----

  predicate IsFullWidth(c: char) {
    0xFF01 <= c as int <= 0xFF5E
  }

  /** normalizeNFKC: full-width forms become ASCII, everything else stays. */
  function NormalizeRune(c: char): (r: char)
    ensures !IsFullWidth(r) && (r == META <==> c == META) && (IsSpace(r) <==> IsSpace(c))
  {
    if IsFullWidth(c) then (c as int - 0xFEE0) as char else c
  }

  function Normalize(text: string): (r: string)
    ensures |r| == |text| && forall i | 0 <= i < |text| :: r[i] == NormalizeRune(text[i])
  {
    if text == [] then [] else [NormalizeRune(text[0])] + Normalize(text[1..])
  }

  /** The text the search runs on: a leading meta symbol, and meta symbols for spaces. */
  function Prepared(text: string): string {
    [META] + Replace(Normalize(text), ' ', META)
  }

  method Encode(v: Vocabulary, text: string) returns (tokens: seq<int>)
    requires Valid(v)
    ensures text == "" ==> tokens == []
    ensures text != "" ==> Best(v, Prepared(text), |Prepared(text)|, |Prepared(text)|).Some?
    ensures text != "" ==> tokens == TrailingIds(BestPath(v, Prepared(text), |Prepared(text)|))
    ensures text != "" ==> (IsWhole(v, Prepared(text), tokens) <==> v.unkID >= 0 || IsKnown(v, Prepared(text)))
  {
    if text == "" {
      return [];
    }
    tokens := Viterbi(v, Prepared(text));
  }

  /** The test the decoder makes before it writes the byte a byte piece stands for. */
  predicate NamesByte(piece: string) {
    |piece| >= 5 && piece[|piece| - 1] == '>' && piece[..4] == "<0x"
  }

  /** It compares four characters with three, so it never succeeds. */
  lemma ByteNeverNamed(piece: string)
    ensures !NamesByte(piece)
  {
  }

  /** What one token contributes to the decoded text. Byte pieces contribute nothing, see `ByteNeverNamed`. */
  function Surface(v: Vocabulary, id: int): string {
    if !(0 <= id < |v.pieces|) || v.pieces[id].kind == CONTROL || v.pieces[id].kind == BYTE then ""
    else v.pieces[id].text
  }

  function Surfaces(v: Vocabulary, tokens: seq<int>): string {
    if tokens == [] then "" else Surfaces(v, tokens[..|tokens| - 1]) + Surface(v, tokens[|tokens| - 1])
  }

  function Decoded(v: Vocabulary, tokens: seq<int>): string {
    Trim(Replace(Surfaces(v, tokens), META, ' '))
  }

  method Decode(v: Vocabulary, tokens: seq<int>) returns (text: string)
    ensures text == Decoded(v, tokens)
  {
    var sb := "";
    for k := 0 to |tokens|
      invariant sb == Surfaces(v, tokens[..k])
    {
      assert tokens[..k + 1][..k] == tokens[..k];
      var id := tokens[k];
      if id < 0 || id >= |v.pieces| {
        continue;
      }
      var piece := v.pieces[id].text;
      if v.pieces[id].kind == CONTROL {
        continue;
      }
      if v.pieces[id].kind == BYTE {
        ByteNeverNamed(piece);
        continue;
      }
      sb := sb + piece;
    }
    assert tokens[..|tokens|] == tokens;
    text := Trim(Replace(sb, META, ' '));
  }

  /** Every step uses a normal or user-defined piece. */
  ghost predicate Plain(v: Vocabulary, text: string, path: seq<Edge>)
    requires Valid(v)
  {
    forall e | e in path :: Matches(v, text, e.start, e.end) && v.pieces[v.pieceToID[text[e.start..e.end]]].kind != BYTE
  }

  /** The pieces of a plain segmentation spell the text it covers. */
  lemma {:induction false} PlainSpells(v: Vocabulary, text: string, path: seq<Edge>, to: nat)
    requires Valid(v) && IsPath(v, text, path, to) && Plain(v, text, path)
    ensures to <= |text| && Surfaces(v, Ids(path)) == text[..to]
    ensures TrailingIds(path) == Ids(path)
  {
    hide Surface, Step, Matches, Plain;
    if path != [] {
      var e, prefix := path[|path| - 1], path[..|path| - 1];
      PlainParts(v, text, path);
      PlainSpells(v, text, prefix, e.start);
      PlainStep(v, text, e, to);
      assert Ids(path)[..|Ids(path)| - 1] == Ids(prefix);
      SliceJoins(text, e.start, to);
    }
  }

  lemma PlainParts(v: Vocabulary, text: string, path: seq<Edge>)
    requires Valid(v) && path != [] && Plain(v, text, path)
    ensures Plain(v, text, path[..|path| - 1])
    ensures var e := path[|path| - 1];
      Matches(v, text, e.start, e.end) && v.pieces[v.pieceToID[text[e.start..e.end]]].kind != BYTE
  {
    hide Matches;
    assert forall d | d in path[..|path| - 1] :: d in path;
    assert path[|path| - 1] in path;
  }

  lemma SliceJoins(text: string, i: nat, j: nat)
    requires i <= j <= |text|
    ensures text[..j] == text[..i] + text[i..j]
  {
  }

  lemma PlainStep(v: Vocabulary, text: string, e: Edge, to: nat)
    requires Valid(v) && Step(v, text, e.start, to) == Some(e)
    requires Matches(v, text, e.start, e.end) && v.pieces[v.pieceToID[text[e.start..e.end]]].kind != BYTE
    ensures e.start < e.end == to <= |text| && e.id >= 0 && Surface(v, e.id) == text[e.start..to]
  {
    hide HasMatch, FallbackID;
  }

  lemma PreparedBack(text: string)
    ensures Replace(Prepared(text), META, ' ') == [' '] + Replace(Normalize(text), META, ' ')
  {
    hide Replace, Normalize;
    assert forall i | 0 <= i < |text| :: Prepared(text)[i + 1] == Replace(Normalize(text), ' ', META)[i];
  }

  /** Encoding and decoding keeps the text, up to normalization, meta symbols and outer white space. */
  lemma RoundTrip(v: Vocabulary, text: string, path: seq<Edge>)
    requires Valid(v) && IsPath(v, Prepared(text), path, |Prepared(text)|) && Plain(v, Prepared(text), path)
    ensures Decoded(v, TrailingIds(path)) == Trim(Replace(Normalize(text), META, ' '))
  {
    hide Replace, Normalize, Trim, Surfaces, Prepared;
    var p := Prepared(text);
    PlainSpells(v, p, path, |p|);
    assert p[..|p|] == p;
    PreparedBack(text);
    TrimLeadingSpace(' ', Replace(Normalize(text), META, ' '));
  }

  predicate HasSpecial(t: string) {
    exists c | c in t :: c == META || IsFullWidth(c)
  }

  /** The text with full-width forms and meta symbols resolved. */
  function Resolved(text: string): (m: string)
    ensures |m| == |text|
    ensures forall i | 0 <= i < |text| :: m[i] == if text[i] == META then ' ' else NormalizeRune(text[i])
  {
    Replace(Normalize(text), META, ' ')
  }

  lemma SpecialIsLost(text: string)
    requires HasSpecial(Trim(text))
    ensures Trim(Resolved(text)) != Trim(text)
  {
    hide Resolved, Trim;
    var m := Resolved(text);
    var x, y := TrimParts(m);
    var c :| c in Trim(text) && (c == META || IsFullWidth(c));
    assert c !in m;
    assert forall d | d in Trim(m) :: d in m;
  }

  lemma OrdinaryIsKept(text: string)
    requires !HasSpecial(Trim(text))
    ensures Trim(Resolved(text)) == Trim(text)
  {
    hide Resolved, Trim;
    var m, t := Resolved(text), Trim(text);
    var a, b := TrimParts(text);
    var k := |a|;
    var n := |a| + |t|;
    forall i | 0 <= i < |m| ensures i < k || i >= n ==> IsSpace(m[i]) ensures k <= i < n ==> m[i] == text[i] {
      if i < k {
        assert text[i] == a[i] && a[i] in a;
      } else if i >= n {
        assert text[i] == b[i - n] && b[i - n] in b;
      } else {
        assert text[i] == t[i - k] && t[i - k] in t;
      }
    }
    assert m == m[..k] + t + m[n..];
    TrimUnique(m[..k], t, m[n..]);
  }

  /** The trimmed text comes back unchanged exactly when it has no meta symbol and no full-width form. */
  lemma RoundTripExact(v: Vocabulary, text: string, path: seq<Edge>)
    requires Valid(v) && IsPath(v, Prepared(text), path, |Prepared(text)|) && Plain(v, Prepared(text), path)
    ensures Decoded(v, TrailingIds(path)) == Trim(text) <==> !HasSpecial(Trim(text))
  {
    hide Trim, Prepared, Decoded;
    RoundTrip(v, text, path);
    if HasSpecial(Trim(text)) {
      SpecialIsLost(text);
    } else {
      OrdinaryIsKept(text);
    }
  }
}
