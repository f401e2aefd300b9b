/**
 The rules of the tokenizer in full (pkg/tokenizer/tokenizer.go): which steps a segmentation may take and what they are
 worth, which of two equally good segmentations is kept, and what happens to the characters of a text.
 */
module TokenizerRules {
  import opened Options
  import opened Text
  import opened Tokenizer

  // ----- Steps -----

  /** A normal, user-defined or byte piece of at most 64 runes. */
  ghost predicate IsPiece(v: Vocabulary, text: string, i: nat, j: nat)
    requires Valid(v)
  {
    && i < j <= |text| && j - i <= 64 && text[i..j] in v.pieceToID
    && v.pieces[v.pieceToID[text[i..j]]].kind in {1, 4, 6}
  }

  ghost function HexValue(c: char): int {
    if '0' <= c <= '9' then c as int - '0' as int
    else if 'A' <= c <= 'F' then c as int - 'A' as int + 10
    else -1000
  }

  /** A byte in angle brackets, as two upper-case hexadecimal digits behind 0x. */
  ghost predicate Names(name: string, b: nat) {
    |name| == 6 && name[..3] == "<0x" && 16 * HexValue(name[3]) + HexValue(name[4]) == b && name[5] == '>'
  }

  lemma DigitValue(d: nat)
    requires d < 16
    ensures HexValue(HexDigit(d)) == d
    ensures forall c: char | HexValue(c) == d :: c == HexDigit(d)
  {
  }

  lemma ByteNameIs(b: nat, name: string)
    requires b < 0x100
    ensures Names(name, b) <==> name == ByteName(b)
  {
    hide HexDigit;
    DigitValue(b / 16);
    DigitValue(b % 16);
    if Names(name, b) {
      assert HexValue(name[3]) >= 0 && HexValue(name[4]) >= 0;
      TwoDigits(HexValue(name[3]), HexValue(name[4]), b);
      assert name == name[..3] + [name[3], name[4], name[5]];
    }
  }

  lemma TwoDigits(h: int, l: int, b: nat)
    requires 0 <= h < 16 && 0 <= l < 16 && 16 * h + l == b
    ensures h == b / 16 && l == b % 16
  {
  }

  /** A rune that no piece matches is the piece that names it as a byte, or else unknown. */
  ghost predicate IsFallback(v: Vocabulary, c: char, id: int) {
    if exists name :: name in v.pieceToID && c < '\U{100}' && Names(name, c as int)
    then exists name :: name in v.pieceToID && Names(name, c as int) && id == v.pieceToID[name]
    else id == v.unkID
  }

  lemma FallbackIs(v: Vocabulary, c: char)
    ensures IsFallback(v, c, FallbackID(v, c))
  {
    hide ByteName, Names;
    if c < '\U{100}' {
      var b := c as int;
      ByteNameIs(b, ByteName(b));
      forall name | Names(name, b) ensures name == ByteName(b) {
        ByteNameIs(b, name);
      }
    }
  }

  /** The steps from a position: every piece that matches there, for its score; a single rune for nothing where none
      does; and no other. */
  lemma StepIs(v: Vocabulary, text: string, i: nat, j: nat)
    requires Valid(v)
    ensures IsPiece(v, text, i, j) ==>
      var id := v.pieceToID[text[i..j]]; Step(v, text, i, j) == Some(Edge(i, j, id, v.pieces[id].score))
    ensures !IsPiece(v, text, i, j) ==>
      if j == i + 1 && i < |text| && forall k: nat :: !IsPiece(v, text, i, k)
      then exists id :: IsFallback(v, text[i], id) && Step(v, text, i, j) == Some(Edge(i, j, id, 0.0))
      else Step(v, text, i, j) == None
  {
    hide IsFallback, FallbackID;
    forall k: nat ensures IsPiece(v, text, i, k) <==> Matches(v, text, i, k) {
    }
    if i < |text| {
      FallbackIs(v, text[i]);
    }
  }

  // ----- Ties -----

  lemma BestGrows(v: Vocabulary, text: string, i: nat, k: nat, j: nat)
    requires Valid(v) && i <= k && Best(v, text, i, j).Some?
    ensures Best(v, text, k, j).Some? && Best(v, text, i, j).value <= Best(v, text, k, j).value
    decreases k - i
  {
    if i < k {
      BestGrows(v, text, i, k - 1, j);
    }
  }

  /** A position keeps the step that first gave it its score. */
  lemma {:induction false} KeptWhenReached(v: Vocabulary, text: string, i: nat, k: nat, j: nat)
    requires Valid(v) && i <= k && Best(v, text, i, j).Some? && Best(v, text, i, j) == Best(v, text, k, j)
    ensures Last(v, text, i, j) == Last(v, text, k, j)
    decreases k - i
  {
    if i < k {
      BestGrows(v, text, i, k - 1, j);
      BestGrows(v, text, k - 1, k, j);
      KeptWhenReached(v, text, i, k - 1, j);
    }
  }

  /** Of all last steps that make the best score of a position, the one that starts first is kept. */
  lemma FirstOfEqualsIsKept(v: Vocabulary, text: string, i: nat, j: nat)
    requires Valid(v) && i < j && Best(v, text, i, i).Some? && Step(v, text, i, j).Some?
    requires Best(v, text, j, j).Some?
    requires Best(v, text, i, i).value + Step(v, text, i, j).value.score == Best(v, text, j, j).value
    ensures Last(v, text, j, j).Some? && Last(v, text, j, j).value.start <= i
  {
    hide Step;
    assert Best(v, text, i + 1, j).Some?;
    BestGrows(v, text, i + 1, j, j);
    assert Best(v, text, i + 1, j) == Best(v, text, j, j);
    KeptWhenReached(v, text, i + 1, j, j);
    LastIsStep(v, text, i + 1, j);
  }

  // ----- Characters -----

  /** A meta symbol in front and for each space, ASCII for full-width forms, and every other character as it is. */
  lemma PreparedIs(text: string, i: nat)
    requires i < |text|
    ensures |Prepared(text)| == |text| + 1 && Prepared(text)[0] == '\U{2581}'
    ensures Prepared(text)[i + 1] ==
      if text[i] == ' ' then '\U{2581}'
      else if '\U{FF01}' <= text[i] <= '\U{FF5E}' then '!' + (text[i] - '\U{FF01}')
      else text[i]
  {
    hide Normalize, Replace;
  }

  /** Decoding joins what the tokens stand for: nothing for control and byte pieces and for ids outside the vocabulary,
      and the text of every other piece. */
  lemma {:induction false} SurfacesJoin(v: Vocabulary, tokens: seq<int>, id: int)
    ensures Surfaces(v, []) == ""
    ensures Surfaces(v, tokens + [id]) ==
      Surfaces(v, tokens) + if 0 <= id < |v.pieces| && v.pieces[id].kind !in {3, 6} then v.pieces[id].text else ""
  {
    assert (tokens + [id])[..|tokens|] == tokens;
  }
}
