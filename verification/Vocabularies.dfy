/**
 The vocabulary that the tokenizer works with is the one the model parser has read
 (pkg/tokenizer/tokenizer.go): pieces are byte strings in the file and strings of runes in the search.
 */
module Vocabularies {
  import opened Words
  import M = ModelFile
  import T = Tokenizer

  /** UTF-8: how runes are encoded, and how bytes are decoded, invalid ones to some replacement. */
  datatype Utf8 = Utf8(enc: string -> seq<byte>, dec: seq<byte> -> string)

  ghost predicate RoundTrips(utf8: Utf8) {
    forall s: string :: utf8.dec(utf8.enc(s)) == s
  }

  function PieceOf(utf8: Utf8, score: M.Score -> real, p: M.Piece): T.Piece {
    T.Piece(utf8.dec(p.text), score(p.score), p.kind)
  }

  function PiecesOf(utf8: Utf8, score: M.Score -> real, pieces: seq<M.Piece>): (r: seq<T.Piece>)
    ensures |r| == |pieces| && forall i | 0 <= i < |pieces| :: r[i] == PieceOf(utf8, score, pieces[i])
  {
    seq(|pieces|, i requires 0 <= i < |pieces| => PieceOf(utf8, score, pieces[i]))
  }

  /** The texts of the index that are valid UTF-8: only these can be looked up by a string of runes. */
  ghost function Texts(utf8: Utf8, ids: map<seq<byte>, nat>): set<string> {
    set b | b in ids && utf8.enc(utf8.dec(b)) == b :: utf8.dec(b)
  }

  /** The parsed model as the tokenizer sees it. */
  ghost function VocabularyOf(utf8: Utf8, score: M.Score -> real, p: M.Processor): T.Vocabulary {
    T.Vocabulary(PiecesOf(utf8, score, p.pieces),
                 map t | t in Texts(utf8, p.pieceToID) && utf8.enc(t) in p.pieceToID :: p.pieceToID[utf8.enc(t)], p.unk)
  }

  /** A text is found in the vocabulary exactly when its bytes are found in the index, with the same id. */
  lemma LookupIsTheSame(utf8: Utf8, score: M.Score -> real, p: M.Processor, s: string)
    requires RoundTrips(utf8)
    ensures var v := VocabularyOf(utf8, score, p);
      (s in v.pieceToID <==> utf8.enc(s) in p.pieceToID) &&
      (s in v.pieceToID ==> v.pieceToID[s] == p.pieceToID[utf8.enc(s)])
  {
    var b := utf8.enc(s);
    assert utf8.dec(b) == s;
    if b in p.pieceToID {
      assert utf8.enc(utf8.dec(b)) == b;
    }
  }

  /** Whatever model is parsed, its vocabulary is one that every theorem about the tokenizer is for. */
  lemma ParsedIsValid(utf8: Utf8, score: M.Score -> real, m: M.Model)
    requires RoundTrips(utf8)
    ensures T.Valid(VocabularyOf(utf8, score, M.Indexed(m, |m.pieces|)))
  {
    var p := M.Indexed(m, |m.pieces|);
    var v := VocabularyOf(utf8, score, p);
    M.IndexPointsToPieces(m, |m.pieces|);
    M.ControlIDs(m, |m.pieces|);
    hide M.Indexed;
    forall t | t in v.pieceToID ensures v.pieceToID[t] < |v.pieces| && v.pieces[v.pieceToID[t]].text == t {
      LookupIsTheSame(utf8, score, p, t);
      assert m.pieces[p.pieceToID[utf8.enc(t)]].text == utf8.enc(t);
    }
  }
}
