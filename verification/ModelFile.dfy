/**
 The SentencePiece model reader (pkg/tokenizer/tokenizer.go): a Protocol Buffers wire reader
 over a byte slice, the piece and model parsers, and the vocabulary index.

 The main result is that the parser undoes the encoder. Lengths that make the reader's
 position overflow a 64-bit signed integer are reported as `Wrapped` and not followed further.
 */
module ModelFile {
  import opened Options
  import opened Words

  const TWO63: nat := 0x8000_0000_0000_0000

  /** The outcome of a read: a value, a failure the caller can skip over, or a position overflow. */
  datatype Read<+T> = Got(value: T, pos: nat) | Failed(pos: nat) | Wrapped

  /** A piece's score as the bits of a 32-bit or a 64-bit float. */
  datatype Score = F32(bits: nat) | F64(bits: nat)

  const NORMAL := 1
  const UNKNOWN := 2
  const CONTROL := 3

  datatype Piece = Piece(text: seq<byte>, score: Score, kind: int)

  const EMPTY_PIECE := Piece([], F32(0), NORMAL)

  /** The Go conversion int(v) of an unsigned 64-bit value. */
  function ToInt(v: uint64): (i: int)
    ensures 0 - TWO63 <= i < TWO63 && i % TWO64 == v
  {
    if v < TWO63 then v else v - TWO64
  }

  // ----- Primitive reads, as functions of the data and the position -----

  /** The rest of a base-128 varint whose first `shift` bits are in `result`. */
  function VarintFrom(data: seq<byte>, pos: nat, result: nat, shift: nat): (nat, nat, bool)
    decreases if pos <= |data| then |data| - pos else 0
  {
    if pos >= |data| then (result, pos, false)
    else
      var b := data[pos];
      var result' := AddGroup(result, b, shift);
      if b < 128 then (result', pos + 1, true) else VarintFrom(data, pos + 1, result', shift + 7)
  }

  /** result | uint64(b & 0x7F) << shift */
  function AddGroup(result: nat, b: byte, shift: nat): nat {
    assert b % 128 * Pow2(shift) >= 0;
    Or(result, b % 128 * Pow2(shift) % TWO64)
  }

  lemma {:induction false} VarintAdvances(data: seq<byte>, pos: nat, result: nat, shift: nat)
    ensures var (_, p, ok) := VarintFrom(data, pos, result, shift);
            p >= pos && (ok ==> pos < p <= |data|) && (!ok ==> p >= |data|)
    decreases if pos <= |data| then |data| - pos else 0
  {
    if pos < |data| && data[pos] >= 128 {
      VarintAdvances(data, pos + 1, AddGroup(result, data[pos], shift), shift + 7);
    }
  }

  lemma {:induction false} VarintFits(data: seq<byte>, pos: nat, result: nat, shift: nat)
    requires result < TWO64
    ensures VarintFrom(data, pos, result, shift).0 < TWO64
    decreases if pos <= |data| then |data| - pos else 0
  {
    if pos < |data| {
      AddGroupFits(result, data[pos], shift);
      if data[pos] >= 128 {
        VarintFits(data, pos + 1, AddGroup(result, data[pos], shift), shift + 7);
      }
    }
  }

  lemma AddGroupFits(result: nat, b: byte, shift: nat)
    requires result < TWO64
    ensures AddGroup(result, b, shift) < TWO64
  {
    hide Or, Pow2;
    assert Pow2(64) == TWO64 by { Pow2Values(); }
    var x := b % 128 * Pow2(shift);
    assert x >= 0;
    OrBound(result, x % TWO64, 64);
  }

  function RawVarint(data: seq<byte>, pos: nat): (r: (uint64, nat, bool))
    ensures r.1 >= pos && (r.2 ==> pos < r.1 <= |data|)
  {
    VarintAdvances(data, pos, 0, 0);
    VarintFits(data, pos, 0, 0);
    VarintFrom(data, pos, 0, 0)
  }

  datatype Tag = Tag(field: nat, wire: nat)

  function TagAt(data: seq<byte>, pos: nat): (r: Read<Tag>)
    ensures r.Got? ==> pos < r.pos <= |data|
    ensures !r.Wrapped?
  {
    var (v, p, ok) := RawVarint(data, pos);
    if ok then Got(Tag(v / 8, v % 8), p) else Failed(p)
  }

  function VarintAt(data: seq<byte>, pos: nat, wire: nat): (r: Read<uint64>)
    ensures !r.Wrapped? ==> r.pos >= pos
    ensures !r.Wrapped?
  {
    if wire != 0 then Failed(pos)
    else
      var (v, p, ok) := RawVarint(data, pos);
      if ok then Got(v, p) else Failed(p)
  }

  function BytesAt(data: seq<byte>, pos: nat, wire: nat): (r: Read<seq<byte>>)
    ensures !r.Wrapped? ==> r.pos >= pos
  {
    if wire != 2 then Failed(pos)
    else
      var (length, p, ok) := RawVarint(data, pos);
      if !ok then Failed(p)
      else if p + length >= TWO63 then Wrapped
      else if p + length > |data| then Failed(p)
      else Got(data[p..p + length], p + length)
  }

  /** A little-endian number. */
  function LittleEndian(bytes: seq<byte>): nat {
    if bytes == [] then 0 else bytes[0] + 256 * LittleEndian(bytes[1..])
  }

  function FloatAt(data: seq<byte>, pos: nat, wire: nat): (r: Read<Score>)
    ensures !r.Wrapped? && r.pos >= pos
  {
    if wire == 5 then
      if pos + 4 > |data| then Failed(pos) else Got(F32(LittleEndian(data[pos..pos + 4])), pos + 4)
    else if wire == 1 then
      if pos + 8 > |data| then Failed(pos) else Got(F64(LittleEndian(data[pos..pos + 8])), pos + 8)
    else Failed(pos)
  }

  /** Step over a field; the position may end up behind the data. */
  function SkipAt(data: seq<byte>, pos: nat, wire: nat): (r: Read<()>)
    ensures !r.Wrapped? ==> r.pos >= pos
  {
    if wire == 0 then Got((), RawVarint(data, pos).1)
    else if wire == 1 then Got((), pos + 8)
    else if wire == 2 then
      var (length, p, _) := RawVarint(data, pos);
      if p + length >= TWO63 then Wrapped else Got((), p + length)
    else if wire == 5 then Got((), pos + 4)
    else Got((), pos)
  }

  // ----- Messages -----

  /** The fields of a piece message from `pos` on, added to `p`. A field that cannot be read is
      passed over; the flag says whether a text was seen. */
  function ParsePiece(data: seq<byte>, pos: nat, p: Piece, hasText: bool): Read<(Piece, bool)>
    decreases if pos <= |data| then |data| - pos else 0
  {
    if pos >= |data| then Got((p, hasText), pos)
    else
      match TagAt(data, pos)
      case Failed(q) => Got((p, hasText), q)
      case Wrapped => Wrapped
      case Got(tag, q) =>
        if tag.field == 1 then
          match BytesAt(data, q, tag.wire)
          case Got(text, r) => ParsePiece(data, r, p.(text := text), true)
          case Failed(r) => ParsePiece(data, r, p, hasText)
          case Wrapped => Wrapped
        else if tag.field == 2 then
          match FloatAt(data, q, tag.wire)
          case Got(score, r) => ParsePiece(data, r, p.(score := score), hasText)
          case Failed(r) => ParsePiece(data, r, p, hasText)
          case Wrapped => Wrapped
        else if tag.field == 3 then
          match VarintAt(data, q, tag.wire)
          case Got(kind, r) => ParsePiece(data, r, p.(kind := ToInt(kind)), hasText)
          case Failed(r) => ParsePiece(data, r, p, hasText)
          case Wrapped => Wrapped
        else
          match SkipAt(data, q, tag.wire)
          case Got(_, r) => ParsePiece(data, r, p, hasText)
          case Failed(r) => ParsePiece(data, r, p, hasText)
          case Wrapped => Wrapped
  }

  /** What the model parser collects: the pieces in order and the special ids. */
  datatype Model = Model(pieces: seq<Piece>, unk: int, bos: int, eos: int, pad: int)

  const EMPTY_MODEL := Model([], 0, -1, -1, -1)

  function SetSpecial(m: Model, field: nat, id: int): Model {
    if field == 9 then m.(unk := id)
    else if field == 7 then m.(bos := id)
    else if field == 8 then m.(eos := id)
    else m.(pad := id)
  }

  /** A field-1 message without a text is taken for the trainer specification. */
  function ParseTrainer(data: seq<byte>, pos: nat, m: Model): Read<Model>
    decreases if pos <= |data| then |data| - pos else 0
  {
    if pos >= |data| then Got(m, pos)
    else
      match TagAt(data, pos)
      case Failed(q) => Got(m, q)
      case Wrapped => Wrapped
      case Got(tag, q) =>
        if tag.field in {7, 8, 9, 17} then
          match VarintAt(data, q, tag.wire)
          case Got(v, r) => ParseTrainer(data, r, SetSpecial(m, tag.field, ToInt(v)))
          case Failed(r) => ParseTrainer(data, r, m)
          case Wrapped => Wrapped
        else
          match SkipAt(data, q, tag.wire)
          case Got(_, r) => ParseTrainer(data, r, m)
          case Failed(r) => ParseTrainer(data, r, m)
          case Wrapped => Wrapped
  }

  /** The effect of one length-delimited field 1, 4 or 5 on the model. */
  function AddMessage(val: seq<byte>, field: nat, m: Model): Read<Model> {
    match ParsePiece(val, 0, EMPTY_PIECE, false)
    case Got((p, hasText), q) =>
      if hasText || field != 1 then Got(m.(pieces := m.pieces + [p]), q) else ParseTrainer(val, 0, m)
    case Failed(q) => Failed(q)
    case Wrapped => Wrapped
  }

  function ParseFields(data: seq<byte>, pos: nat, m: Model): Read<Model>
    decreases if pos <= |data| then |data| - pos else 0
  {
    if pos >= |data| then Got(m, pos)
    else
      match TagAt(data, pos)
      case Failed(q) => Got(m, q)
      case Wrapped => Wrapped
      case Got(tag, q) =>
        if tag.field in {1, 4, 5} then
          match BytesAt(data, q, tag.wire)
          case Got(val, r) =>
            (match AddMessage(val, tag.field, m)
             case Got(m', _) => ParseFields(data, r, m')
             case Failed(_) => ParseFields(data, r, m)
             case Wrapped => Wrapped)
          case Failed(r) => ParseFields(data, r, m)
          case Wrapped => Wrapped
        else
          match SkipAt(data, q, tag.wire)
          case Got(_, r) => ParseFields(data, r, m)
          case Failed(r) => ParseFields(data, r, m)
          case Wrapped => Wrapped
  }

  // ----- The encoder: Protocol Buffers, sections "Base 128 Varints" and "Message Structure" -----

  function EncodeVarint(n: nat): (e: seq<byte>)
    ensures |e| > 0
  {
    if n < 128 then [n] else [n % 128 + 128] + EncodeVarint(n / 128)
  }

  function EncodeTag(field: nat, wire: nat): (e: seq<byte>)
    ensures |e| > 0
  {
    EncodeVarint(field * 8 + wire)
  }

  /** `n` as `k` little-endian bytes. */
  function EncodeFixed(n: nat, k: nat): (e: seq<byte>)
    ensures |e| == k
  {
    if k == 0 then [] else [n % 256] + EncodeFixed(n / 256, k - 1)
  }

  /** One field of a message: its number and what stands behind the tag. */
  datatype Content = Varint(v: uint64) | Fixed64(bits: nat) | Bytes(val: seq<byte>) | Fixed32(bits: nat)

  datatype Entry = Entry(field: nat, content: Content)

  function Wire(c: Content): nat {
    match c
    case Varint(_) => 0
    case Fixed64(_) => 1
    case Bytes(_) => 2
    case Fixed32(_) => 5
  }

  function EncodeContent(c: Content): seq<byte> {
    match c
    case Varint(v) => EncodeVarint(v)
    case Fixed64(bits) => EncodeFixed(bits, 8)
    case Bytes(val) => EncodeVarint(|val|) + val
    case Fixed32(bits) => EncodeFixed(bits, 4)
  }

  function EncodeEntry(e: Entry): (r: seq<byte>)
    ensures |r| > 0
  {
    EncodeTag(e.field, Wire(e.content)) + EncodeContent(e.content)
  }

  function EncodeEntries(es: seq<Entry>): seq<byte> {
    if es == [] then [] else EncodeEntry(es[0]) + EncodeEntries(es[1..])
  }

  ghost predicate Encodable(e: Entry) {
    && e.field < TWO63 / 8
    && (e.content.Fixed32? ==> e.content.bits < TWO32)
    && (e.content.Fixed64? ==> e.content.bits < TWO64)
  }

  // ----- What a message says -----

  /** The last field with this number: a later one replaces an earlier one. */
  function Last(es: seq<Entry>, field: nat): Option<Content> {
    if es == [] then None
    else if es[|es| - 1].field == field then Some(es[|es| - 1].content)
    else Last(es[..|es| - 1], field)
  }

  ghost predicate IsLast(es: seq<Entry>, field: nat, k: nat) {
    k < |es| && es[k].field == field && forall j | k < j < |es| :: es[j].field != field
  }

  lemma {:induction false} LastIsLast(es: seq<Entry>, field: nat)
    ensures Last(es, field).None? <==> forall j | 0 <= j < |es| :: es[j].field != field
    ensures Last(es, field).Some? ==> exists k: nat :: IsLast(es, field, k) && es[k].content == Last(es, field).value
  {
    if es != [] {
      var n := |es| - 1;
      if es[n].field == field {
        assert IsLast(es, field, n);
      } else {
        LastIsLast(es[..n], field);
        if Last(es[..n], field).Some? {
          var k: nat :| IsLast(es[..n], field, k) && es[..n][k].content == Last(es[..n], field).value;
          assert IsLast(es, field, k);
        }
      }
    }
  }

  /** A piece message in any order of fields, with others between them: the fields it knows have their types. */
  ghost predicate PieceTyped(e: Entry) {
    && (e.field == 1 ==> e.content.Bytes?)
    && (e.field == 2 ==> e.content.Fixed32? || e.content.Fixed64?)
    && (e.field == 3 ==> e.content.Varint?)
  }

  ghost predicate IsPieceMessage(es: seq<Entry>) {
    forall e | e in es :: Encodable(e) && PieceTyped(e)
  }

  /** The piece a message stands for. Absent fields have their default values: no text, a score of 0, and
      kind 1, which is a normal piece. */
  ghost predicate Says(es: seq<Entry>, p: Piece) {
    && p.text == (match Last(es, 1) case Some(Bytes(val)) => val case _ => [])
    && p.score == (match Last(es, 2) case Some(Fixed32(bits)) => F32(bits) case Some(Fixed64(bits)) => F64(bits)
                   case _ => F32(0))
    && p.kind == (match Last(es, 3) case Some(Varint(v)) => ToInt(v) case _ => 1)
  }

  /** In the trainer specification the special ids have their types. */
  ghost predicate TrainerTyped(e: Entry) {
    e.field in {7, 8, 9, 17} ==> e.content.Varint?
  }

  function Special(es: seq<Entry>, field: nat, absent: int): int {
    match Last(es, field) case Some(Varint(v)) => ToInt(v) case _ => absent
  }

  /** A model file is a list of messages, in any of the three fields the parser accepts, and other fields. */
  datatype Item = Message(field: nat, entries: seq<Entry>) | Other(entry: Entry)

  predicate IsPieceItem(it: Item) {
    it.Message? && (it.field != 1 || Last(it.entries, 1).Some?)
  }

  /** A field-1 message without a text is the trainer specification. */
  predicate IsTrainerItem(it: Item) {
    it.Message? && it.field == 1 && Last(it.entries, 1).None?
  }

  ghost predicate WellFormed(it: Item) {
    match it
    case Message(field, es) =>
      field in {1, 4, 5} && IsPieceMessage(es) && (IsTrainerItem(it) ==> forall e | e in es :: TrainerTyped(e))
    case Other(entry) => entry.field !in {1, 4, 5} && Encodable(entry)
  }

  function EncodeItem(it: Item): (r: seq<byte>)
    ensures |r| > 0
  {
    match it
    case Message(field, es) => EncodeEntry(Entry(field, Bytes(EncodeEntries(es))))
    case Other(entry) => EncodeEntry(entry)
  }

  function EncodeItems(items: seq<Item>): seq<byte> {
    if items == [] then [] else EncodeItem(items[0]) + EncodeItems(items[1..])
  }

  /** The messages that are pieces, and all fields of the trainer specifications, in order. */
  function PieceMessages(items: seq<Item>): seq<seq<Entry>> {
    if items == [] then []
    else (if IsPieceItem(items[0]) then [items[0].entries] else []) + PieceMessages(items[1..])
  }

  function TrainerEntries(items: seq<Item>): seq<Entry> {
    if items == [] then []
    else (if IsTrainerItem(items[0]) then items[0].entries else []) + TrainerEntries(items[1..])
  }

  /** The model that a file stands for: its pieces, and the special ids that its trainer specifications set last. */
  ghost predicate Describes(items: seq<Item>, m: Model) {
    var t := TrainerEntries(items);
    && |m.pieces| == |PieceMessages(items)|
    && (forall k | 0 <= k < |m.pieces| :: Says(PieceMessages(items)[k], m.pieces[k]))
    && m.unk == Special(t, 9, 0) && m.bos == Special(t, 7, -1) && m.eos == Special(t, 8, -1) && m.pad == Special(t, 17, -1)
  }

  // ----- Reading back what was encoded -----

  /** The bytes at `pos` start with `enc`. */
  ghost predicate At(data: seq<byte>, pos: nat, enc: seq<byte>) {
    pos + |enc| <= |data| && data[pos..pos + |enc|] == enc
  }

  lemma AtSplit(data: seq<byte>, pos: nat, a: seq<byte>, b: seq<byte>)
    requires At(data, pos, a + b)
    ensures At(data, pos, a) && At(data, pos + |a|, b)
  {
    assert data[pos..pos + |a|] == data[pos..pos + |a + b|][..|a|];
    assert data[pos + |a|..pos + |a| + |b|] == data[pos..pos + |a + b|][|a|..];
  }

  lemma GroupStep(n: nat, result: nat, shift: nat, b: byte)
    requires result < Pow2(shift) && n * Pow2(shift) + result < TWO64 && b % 128 == n % 128
    ensures AddGroup(result, b, shift) == n % 128 * Pow2(shift) + result
    ensures AddGroup(result, b, shift) < Pow2(shift + 7)
    ensures n / 128 * Pow2(shift + 7) + AddGroup(result, b, shift) == n * Pow2(shift) + result
  {
    hide Or;
    var p := Pow2(shift);
    Pow2Add(shift, 7);
    assert Pow2(7) == 128;
    GroupArithmetic(n, result, p);
    OrDisjoint(result, n % 128, shift);
    SmallMod(n % 128 * p, TWO64);
  }

  lemma GroupArithmetic(n: nat, result: nat, p: nat)
    requires result < p
    ensures n % 128 * p >= 0 && n % 128 * p + result < p * 128
    ensures n / 128 * (p * 128) + (n % 128 * p + result) == n * p + result
    ensures n % 128 * p <= n * p
  {
    var q, r := n / 128, n % 128;
    assert n == q * 128 + r;
    PartsBelow(r, result, p, 128);
    assert (q * 128 + r) * p == q * (p * 128) + r * p;
    assert q * (p * 128) >= 0;
  }

  lemma SmallMod(x: nat, m: nat)
    requires x < m
    ensures x % m == x
  {
    DivModUnique(x, m, 0, x);
  }

  lemma {:induction false} VarintReadsBack(data: seq<byte>, pos: nat, n: nat, result: nat, shift: nat)
    requires At(data, pos, EncodeVarint(n))
    requires result < Pow2(shift) && n * Pow2(shift) + result < TWO64
    ensures VarintFrom(data, pos, result, shift) == (n * Pow2(shift) + result, pos + |EncodeVarint(n)|, true)
    decreases n
  {
    hide AddGroup;
    var b := data[pos];
    assert b == data[pos..pos + |EncodeVarint(n)|][0];
    GroupStep(n, result, shift, b);
    if n >= 128 {
      AtSplit(data, pos, [n % 128 + 128], EncodeVarint(n / 128));
      VarintReadsBack(data, pos + 1, n / 128, AddGroup(result, b, shift), shift + 7);
    }
  }

  lemma RawVarintReadsBack(data: seq<byte>, pos: nat, n: nat)
    requires At(data, pos, EncodeVarint(n)) && n < TWO64
    ensures RawVarint(data, pos) == (n, pos + |EncodeVarint(n)|, true)
  {
    hide EncodeVarint;
    assert Pow2(0) == 1;
    VarintReadsBack(data, pos, n, 0, 0);
  }

  lemma TagReadsBack(data: seq<byte>, pos: nat, field: nat, wire: nat)
    requires At(data, pos, EncodeTag(field, wire)) && wire < 8 && field < TWO63 / 8
    ensures TagAt(data, pos) == Got(Tag(field, wire), pos + |EncodeTag(field, wire)|)
  {
    hide RawVarint, EncodeVarint;
    RawVarintReadsBack(data, pos, field * 8 + wire);
    assert (field * 8 + wire) / 8 == field && (field * 8 + wire) % 8 == wire;
  }

  lemma {:induction false} FixedReadsBack(n: nat, k: nat)
    requires n < Pow2(8 * k)
    ensures LittleEndian(EncodeFixed(n, k)) == n
  {
    if k == 0 {
      assert Pow2(0) == 1;
    } else {
      Pow2Add(8, 8 * (k - 1));
      assert Pow2(8) == 256;
      assert n / 256 < Pow2(8 * (k - 1));
      FixedReadsBack(n / 256, k - 1);
      assert EncodeFixed(n, k)[1..] == EncodeFixed(n / 256, k - 1);
    }
  }

  lemma ContentReadsBack(data: seq<byte>, pos: nat, e: Entry)
    requires At(data, pos, EncodeContent(e.content)) && Encodable(e) && |data| < TWO63
    ensures var c, r := e.content, pos + |EncodeContent(e.content)|;
      && SkipAt(data, pos, Wire(c)) == Got((), r)
      && (c.Varint? ==> VarintAt(data, pos, 0) == Got(c.v, r))
      && (c.Bytes? ==> BytesAt(data, pos, 2) == Got(c.val, r))
      && (c.Fixed32? ==> FloatAt(data, pos, 5) == Got(F32(c.bits), r))
      && (c.Fixed64? ==> FloatAt(data, pos, 1) == Got(F64(c.bits), r))
  {
    hide EncodeVarint, RawVarint, EncodeFixed, LittleEndian, Pow2;
    assert Pow2(32) == TWO32 && Pow2(64) == TWO64 by { Pow2Values(); }
    match e.content
    case Varint(v) => RawVarintReadsBack(data, pos, v);
    case Bytes(val) =>
      AtSplit(data, pos, EncodeVarint(|val|), val);
      RawVarintReadsBack(data, pos, |val|);
    case Fixed32(bits) => FixedReadsBack(bits, 4);
    case Fixed64(bits) => FixedReadsBack(bits, 8);
  }

  /** One field is read back, or stepped over, exactly. */
  lemma EntryReadsBack(data: seq<byte>, pos: nat, e: Entry)
    requires At(data, pos, EncodeEntry(e)) && Encodable(e) && |data| < TWO63
    ensures var c, q, r := e.content, pos + |EncodeTag(e.field, Wire(e.content))|, pos + |EncodeEntry(e)|;
      && TagAt(data, pos) == Got(Tag(e.field, Wire(c)), q)
      && SkipAt(data, q, Wire(c)) == Got((), r)
      && (c.Varint? ==> VarintAt(data, q, 0) == Got(c.v, r))
      && (c.Bytes? ==> BytesAt(data, q, 2) == Got(c.val, r))
      && (c.Fixed32? ==> FloatAt(data, q, 5) == Got(F32(c.bits), r))
      && (c.Fixed64? ==> FloatAt(data, q, 1) == Got(F64(c.bits), r))
  {
    hide EncodeContent, EncodeTag, TagAt, SkipAt, VarintAt, BytesAt, FloatAt;
    var t := EncodeTag(e.field, Wire(e.content));
    AtSplit(data, pos, t, EncodeContent(e.content));
    TagReadsBack(data, pos, e.field, Wire(e.content));
    ContentReadsBack(data, pos + |t|, e);
  }

  /** The encodings that the description of the format gives as examples, and the bytes of a float of 1. */
  lemma KnownEncodings()
    ensures EncodeEntry(Entry(1, Varint(150))) == [0x08, 0x96, 0x01]
    ensures EncodeEntry(Entry(2, Bytes(Ascii("testing")))) == [0x12, 0x07] + Ascii("testing")
    ensures EncodeEntry(Entry(2, Fixed32(0x3F80_0000))) == [0x15, 0x00, 0x00, 0x80, 0x3F]
  {
    assert EncodeVarint(150) == [0x96, 0x01] && EncodeVarint(1) == [1];
    assert EncodeFixed(0x3F80, 2) == [0x80, 0x3F];
    assert EncodeFixed(0x3F_8000, 3) == [0x00, 0x80, 0x3F];
    assert EncodeFixed(0x3F80_0000, 4) == [0x00, 0x00, 0x80, 0x3F];
  }

  /** A byte string that announces more than is left is not read; the position stands behind its length, unless it
      cannot hold the announced end. */
  lemma TruncatedBytesFail(data: seq<byte>, pos: nat, n: nat)
    requires n < TWO64 && |data| < TWO63 && At(data, pos, EncodeVarint(n))
    requires pos + |EncodeVarint(n)| + n > |data|
    ensures var p := pos + |EncodeVarint(n)|;
      BytesAt(data, pos, 2) == if p + n < 0x8000_0000_0000_0000 then Failed(p) else Wrapped
  {
    hide EncodeVarint, RawVarint;
    RawVarintReadsBack(data, pos, n);
  }

  // ----- Pieces -----

  /** What one more field makes of a piece. */
  function Taken(p: Piece, e: Entry): Piece {
    if e.field == 1 && e.content.Bytes? then p.(text := e.content.val)
    else if e.field == 2 && e.content.Fixed32? then p.(score := F32(e.content.bits))
    else if e.field == 2 && e.content.Fixed64? then p.(score := F64(e.content.bits))
    else if e.field == 3 && e.content.Varint? then p.(kind := ToInt(e.content.v))
    else p
  }

  lemma SaysMore(es: seq<Entry>, e: Entry, p: Piece)
    requires Says(es, p) && PieceTyped(e)
    ensures Says(es + [e], Taken(p, e))
    ensures Last(es + [e], 1).Some? <==> Last(es, 1).Some? || e.field == 1
  {
    assert (es + [e])[..|es|] == es;
  }

  lemma EntryIsTaken(data: seq<byte>, pos: nat, e: Entry, p: Piece, hasText: bool)
    requires At(data, pos, EncodeEntry(e)) && Encodable(e) && PieceTyped(e) && |data| < TWO63
    ensures ParsePiece(data, pos, p, hasText) ==
              ParsePiece(data, pos + |EncodeEntry(e)|, Taken(p, e), hasText || e.field == 1)
  {
    hide EncodeEntry, EncodeTag, TagAt, SkipAt, VarintAt, BytesAt, FloatAt;
    EntryReadsBack(data, pos, e);
  }

  lemma PieceAtEnd(data: seq<byte>, p: Piece, hasText: bool)
    ensures ParsePiece(data, |data|, p, hasText) == Got((p, hasText), |data|)
  {
  }

  /** From a position behind the fields `done`, with the piece they make, the rest is read. */
  lemma {:induction false} RestOfPiece(data: seq<byte>, pos: nat, done: seq<Entry>, rest: seq<Entry>, p: Piece)
    returns (r: Piece)
    requires At(data, pos, EncodeEntries(rest)) && pos + |EncodeEntries(rest)| == |data| < TWO63
    requires IsPieceMessage(rest) && Says(done, p)
    ensures ParsePiece(data, pos, p, Last(done, 1).Some?) == Got((r, Last(done + rest, 1).Some?), |data|)
    ensures Says(done + rest, r)
    decreases |rest|
  {
    hide ParsePiece, EncodeEntry, Says, Last, Encodable, PieceTyped, Taken;
    if rest == [] {
      r := p;
      PieceAtEnd(data, p, Last(done, 1).Some?);
      assert done + rest == done;
    } else {
      var e := rest[0];
      assert e in rest && forall x | x in rest[1..] :: x in rest;
      AtSplit(data, pos, EncodeEntry(e), EncodeEntries(rest[1..]));
      EntryIsTaken(data, pos, e, p, Last(done, 1).Some?);
      SaysMore(done, e, p);
      r := RestOfPiece(data, pos + |EncodeEntry(e)|, done + [e], rest[1..], Taken(p, e));
      assert done + [e] + rest[1..] == done + rest;
    }
  }

  lemma NothingSaid()
    ensures Says([], EMPTY_PIECE) && Last([], 1).None?
  {
  }

  /** A piece message reads back, whatever the order of its fields, however often they stand in it and whatever
      stands between them; fields that are absent get their defaults, the kind of a normal piece among them. */
  lemma PieceReadsBack(es: seq<Entry>) returns (p: Piece)
    requires IsPieceMessage(es) && |EncodeEntries(es)| < TWO63
    ensures Says(es, p)
    ensures ParsePiece(EncodeEntries(es), 0, EMPTY_PIECE, false) == Got((p, Last(es, 1).Some?), |EncodeEntries(es)|)
  {
    hide Says, ParsePiece;
    NothingSaid();
    var data := EncodeEntries(es);
    assert data[0..|data|] == data;
    p := RestOfPiece(data, 0, [], es, EMPTY_PIECE);
    assert [] + es == es;
  }

  /** A message of a text and a score alone is a normal piece. */
  lemma DefaultKindIsNormal(text: seq<byte>, score: nat)
    requires score < TWO32 && |EncodeEntries([Entry(1, Bytes(text)), Entry(2, Fixed32(score))])| < TWO63
    ensures ParsePiece(EncodeEntries([Entry(1, Bytes(text)), Entry(2, Fixed32(score))]), 0, EMPTY_PIECE, false) ==
              Got((Piece(text, F32(score), 1), true), |EncodeEntries([Entry(1, Bytes(text)), Entry(2, Fixed32(score))])|)
  {
    hide ParsePiece, EncodeEntries;
    var es := [Entry(1, Bytes(text)), Entry(2, Fixed32(score))];
    var p := PieceReadsBack(es);
    assert es[..1] == [Entry(1, Bytes(text))] && es[..1][..0] == [];
    assert Last(es[..1], 1) == Some(Bytes(text)) && Last(es[..1], 3).None? && Last(es[..1], 2).None?;
  }

  // ----- The trainer specification -----

  /** The special ids that the fields `es` leave. */
  ghost predicate SpecialsAre(es: seq<Entry>, m: Model) {
    m.unk == Special(es, 9, 0) && m.bos == Special(es, 7, -1) && m.eos == Special(es, 8, -1) && m.pad == Special(es, 17, -1)
  }

  function SpecialTaken(m: Model, e: Entry): Model {
    if e.field in {7, 8, 9, 17} && e.content.Varint? then SetSpecial(m, e.field, ToInt(e.content.v)) else m
  }

  lemma SpecialsMore(es: seq<Entry>, e: Entry, m: Model)
    requires SpecialsAre(es, m) && TrainerTyped(e)
    ensures SpecialsAre(es + [e], SpecialTaken(m, e)) && SpecialTaken(m, e).pieces == m.pieces
  {
    assert (es + [e])[..|es|] == es;
  }

  lemma SpecialIsTaken(data: seq<byte>, pos: nat, e: Entry, m: Model)
    requires At(data, pos, EncodeEntry(e)) && Encodable(e) && TrainerTyped(e) && |data| < TWO63
    ensures ParseTrainer(data, pos, m) == ParseTrainer(data, pos + |EncodeEntry(e)|, SpecialTaken(m, e))
  {
    hide EncodeEntry, EncodeTag, TagAt, SkipAt, VarintAt, BytesAt, FloatAt, SetSpecial;
    EntryReadsBack(data, pos, e);
  }

  lemma TrainerAtEnd(data: seq<byte>, m: Model)
    ensures ParseTrainer(data, |data|, m) == Got(m, |data|)
  {
  }

  ghost predicate IsTrainerMessage(es: seq<Entry>) {
    forall e | e in es :: Encodable(e) && TrainerTyped(e)
  }

  lemma {:induction false} TrainerReadsBack(data: seq<byte>, pos: nat, done: seq<Entry>, rest: seq<Entry>, m: Model)
    returns (r: Model)
    requires At(data, pos, EncodeEntries(rest)) && pos + |EncodeEntries(rest)| == |data| < TWO63
    requires IsTrainerMessage(rest) && SpecialsAre(done, m)
    ensures ParseTrainer(data, pos, m) == Got(r, |data|)
    ensures SpecialsAre(done + rest, r) && r.pieces == m.pieces
    decreases |rest|
  {
    hide ParseTrainer, EncodeEntry, SpecialsAre, Encodable, TrainerTyped, SpecialTaken;
    if rest == [] {
      r := m;
      TrainerAtEnd(data, m);
      assert done + rest == done;
    } else {
      var e := rest[0];
      assert e in rest && forall x | x in rest[1..] :: x in rest;
      AtSplit(data, pos, EncodeEntry(e), EncodeEntries(rest[1..]));
      SpecialIsTaken(data, pos, e, m);
      SpecialsMore(done, e, m);
      r := TrainerReadsBack(data, pos + |EncodeEntry(e)|, done + [e], rest[1..], SpecialTaken(m, e));
      assert done + [e] + rest[1..] == done + rest;
    }
  }

  // ----- The model -----

  lemma {:induction false} PiecesMore(items: seq<Item>, it: Item)
    ensures PieceMessages(items + [it]) == PieceMessages(items) + (if IsPieceItem(it) then [it.entries] else [])
  {
    hide IsPieceItem;
    if items == [] {
      assert [] + [it] == [it] && [it][1..] == [];
    } else {
      PiecesMore(items[1..], it);
      assert (items + [it])[1..] == items[1..] + [it];
    }
  }

  lemma {:induction false} TrainersMore(items: seq<Item>, it: Item)
    ensures TrainerEntries(items + [it]) == TrainerEntries(items) + (if IsTrainerItem(it) then it.entries else [])
  {
    hide IsTrainerItem;
    if items == [] {
      assert [] + [it] == [it] && [it][1..] == [];
    } else {
      TrainersMore(items[1..], it);
      assert (items + [it])[1..] == items[1..] + [it];
    }
  }

  /** One item moves the parser over its bytes and makes its model describe one item more. */
  lemma ItemIsParsed(data: seq<byte>, pos: nat, done: seq<Item>, it: Item, m: Model) returns (m': Model)
    requires WellFormed(it) && At(data, pos, EncodeItem(it)) && |data| < TWO63 && Describes(done, m)
    ensures ParseFields(data, pos, m) == ParseFields(data, pos + |EncodeItem(it)|, m')
    ensures Describes(done + [it], m')
  {
    hide EncodeEntry, EncodeEntries, TagAt, BytesAt, SkipAt, VarintAt, FloatAt, ParsePiece, ParseTrainer, Says, Special,
         IsPieceMessage, ParseFields;
    PiecesMore(done, it);
    TrainersMore(done, it);
    match it
    case Message(field, es) =>
      MessageFits(data, pos, it);
      m' := MessageIsAdded(done, it, m);
      MessageIsParsed(data, pos, it, m, m');
    case Other(entry) =>
      m' := m;
      OtherIsSkipped(data, pos, it, m);
      assert PieceMessages(done) + [] == PieceMessages(done) && TrainerEntries(done) + [] == TrainerEntries(done);
  }

  lemma MessageFits(data: seq<byte>, pos: nat, it: Item)
    requires it.Message? && At(data, pos, EncodeItem(it))
    ensures |EncodeEntries(it.entries)| <= |data|
  {
    hide EncodeEntries, EncodeTag, EncodeVarint;
    assert |EncodeItem(it)| >= |EncodeEntries(it.entries)|;
  }

  lemma MessageIsAdded(done: seq<Item>, it: Item, m: Model) returns (m': Model)
    requires it.Message? && WellFormed(it) && Describes(done, m) && |EncodeEntries(it.entries)| < TWO63
    requires PieceMessages(done + [it]) == PieceMessages(done) + (if IsPieceItem(it) then [it.entries] else [])
    requires TrainerEntries(done + [it]) == TrainerEntries(done) + (if IsTrainerItem(it) then it.entries else [])
    ensures exists q :: AddMessage(EncodeEntries(it.entries), it.field, m) == Got(m', q)
    ensures Describes(done + [it], m')
  {
    hide EncodeEntries, ParsePiece, ParseTrainer, Says, Special, Last;
    var es := it.entries;
    var p := PieceReadsBack(es);
    assert PieceMessages(done) + [] == PieceMessages(done) && TrainerEntries(done) + [] == TrainerEntries(done);
    if IsPieceItem(it) {
      m' := m.(pieces := m.pieces + [p]);
      assert TrainerEntries(done + [it]) == TrainerEntries(done);
      assert forall k | 0 <= k < |m.pieces| :: Says(PieceMessages(done)[k], m.pieces[k]);
    } else {
      assert PieceMessages(done + [it]) == PieceMessages(done);
      var data := EncodeEntries(es);
      assert data[0..|data|] == data;
      m' := TrainerReadsBack(data, 0, TrainerEntries(done), es, m);
    }
  }

  lemma MessageIsParsed(data: seq<byte>, pos: nat, it: Item, m: Model, m': Model)
    requires it.Message? && WellFormed(it) && At(data, pos, EncodeItem(it)) && |data| < TWO63
    requires exists q :: AddMessage(EncodeEntries(it.entries), it.field, m) == Got(m', q)
    ensures ParseFields(data, pos, m) == ParseFields(data, pos + |EncodeItem(it)|, m')
  {
    hide EncodeEntry, EncodeEntries, EncodeTag, TagAt, BytesAt, SkipAt, VarintAt, FloatAt, AddMessage, IsPieceMessage;
    EntryReadsBack(data, pos, Entry(it.field, Bytes(EncodeEntries(it.entries))));
  }

  lemma OtherIsSkipped(data: seq<byte>, pos: nat, it: Item, m: Model)
    requires it.Other? && WellFormed(it) && At(data, pos, EncodeItem(it)) && |data| < TWO63
    ensures ParseFields(data, pos, m) == ParseFields(data, pos + |EncodeItem(it)|, m)
  {
    hide EncodeEntry, EncodeTag, TagAt, BytesAt, SkipAt, VarintAt, FloatAt, AddMessage;
    EntryReadsBack(data, pos, it.entry);
  }

  lemma ParsedAtEnd(data: seq<byte>, m: Model)
    ensures ParseFields(data, |data|, m) == Got(m, |data|)
  {
  }

  lemma {:induction false} ItemsAreParsed(data: seq<byte>, pos: nat, done: seq<Item>, rest: seq<Item>, m: Model)
    returns (r: Model)
    requires forall it | it in rest :: WellFormed(it)
    requires At(data, pos, EncodeItems(rest)) && pos + |EncodeItems(rest)| == |data| < TWO63 && Describes(done, m)
    ensures ParseFields(data, pos, m) == Got(r, |data|) && Describes(done + rest, r)
    decreases |rest|
  {
    hide EncodeItem, WellFormed, ParseFields, At, Describes;
    if rest == [] {
      r := m;
      ParsedAtEnd(data, m);
      assert done + rest == done;
    } else {
      var it := rest[0];
      AtSplit(data, pos, EncodeItem(it), EncodeItems(rest[1..]));
      var m' := ItemIsParsed(data, pos, done, it, m);
      r := ItemsAreParsed(data, pos + |EncodeItem(it)|, done + [it], rest[1..], m');
      assert done + [it] + rest[1..] == done + rest;
    }
  }

  lemma NothingDescribed()
    ensures Describes([], EMPTY_MODEL)
  {
  }

  /** The parser undoes the encoder: all pieces come back in order, fields that were left out with their defaults, and
      the special ids are those of the trainer specifications. */
  lemma ParserUndoesEncoder(items: seq<Item>) returns (m: Model)
    requires forall it | it in items :: WellFormed(it)
    requires |EncodeItems(items)| < TWO63
    ensures ParseFields(EncodeItems(items), 0, EMPTY_MODEL) == Got(m, |EncodeItems(items)|) && Describes(items, m)
  {
    hide Describes, ParseFields;
    NothingDescribed();
    var data := EncodeItems(items);
    assert data[0..|data|] == data;
    m := ItemsAreParsed(data, 0, [], items, EMPTY_MODEL);
    assert [] + items == items;
  }

  // ----- The vocabulary index -----

  datatype Processor = Processor(pieces: seq<Piece>, pieceToID: map<seq<byte>, nat>,
                                 unk: int, bos: int, eos: int, pad: int)

  const BOS_TEXT: seq<byte> := [0x3C, 0x73, 0x3E]
  const EOS_TEXT: seq<byte> := [0x3C, 0x2F, 0x73, 0x3E]
  const PAD_TEXT: seq<byte> := [0x3C, 0x70, 0x61, 0x64, 0x3E]

  /** The index and special ids after the first `k` pieces. */
  function Indexed(m: Model, k: nat): Processor
    requires k <= |m.pieces|
  {
    if k == 0 then Processor(m.pieces, map[], m.unk, m.bos, m.eos, m.pad)
    else AddToIndex(Indexed(m, k - 1), k - 1, m.pieces[k - 1])
  }

  function AddToIndex(p: Processor, i: nat, piece: Piece): Processor {
    var q := p.(pieceToID := p.pieceToID[piece.text := i]);
    if piece.kind == UNKNOWN then (if q.unk == 0 || q.unk > i then q.(unk := i) else q)
    else if piece.kind == CONTROL then
      if piece.text == BOS_TEXT then q.(bos := i)
      else if piece.text == EOS_TEXT then q.(eos := i)
      else if piece.text == PAD_TEXT then q.(pad := i)
      else q
    else q
  }

  lemma IndexStep(m: Model, k: nat)
    requires 0 < k <= |m.pieces|
    ensures Indexed(m, k).pieceToID == Indexed(m, k - 1).pieceToID[m.pieces[k - 1].text := k - 1]
  {
  }

  /** Every entry of the index points to the last piece with that text, and every piece has an entry. */
  lemma {:induction false} IndexPointsToPieces(m: Model, k: nat)
    requires k <= |m.pieces|
    ensures var ids := Indexed(m, k).pieceToID;
            && (forall i | 0 <= i < k :: m.pieces[i].text in ids && ids[m.pieces[i].text] >= i)
            && (forall t | t in ids :: ids[t] < k && m.pieces[ids[t]].text == t)
  {
    hide AddToIndex;
    if k != 0 {
      IndexPointsToPieces(m, k - 1);
      IndexStep(m, k);
    }
  }

  /** The number of unknown pieces among the first `k`. */
  function Unknowns(m: Model, k: nat): nat
    requires k <= |m.pieces|
  {
    if k == 0 then 0 else Unknowns(m, k - 1) + (if m.pieces[k - 1].kind == 2 then 1 else 0)
  }

  /** An unknown id from the trainer specification that the first `k` pieces leave alone: a negative one,
      or a positive one with no unknown piece before it. */
  predicate TrainerDecides(m: Model, k: nat)
    requires k <= |m.pieces|
  {
    m.unk < 0 || (m.unk > 0 && Unknowns(m, if m.unk < k then m.unk else k) == 0)
  }

  /** The unknown id after the first `k` pieces: the trainer's, if that decides; otherwise zero if there
      is no unknown piece, and the first one, unless that is piece 0 and another one follows, when it is the second. */
  lemma {:induction false} UnknownID(m: Model, k: nat)
    requires k <= |m.pieces|
    ensures var u := Indexed(m, k).unk;
            if TrainerDecides(m, k) then u == m.unk
            else if Unknowns(m, k) == 0 then u == 0
            else 0 <= u < k && m.pieces[u].kind == 2 &&
                 Unknowns(m, u) == (if m.pieces[0].kind == 2 && Unknowns(m, k) > 1 then 1 else 0)
  {
    if k != 0 {
      UnknownID(m, k - 1);
      UnkStep(m, k);
      hide Indexed;
      var u := Indexed(m, k - 1).unk;
      if 0 < m.unk <= k {
        UnknownsGrow(m, m.unk, k);
      }
      if m.pieces[0].kind == UNKNOWN && 1 <= u < k {
        UnknownsGrow(m, 1, u);
      }
      if m.pieces[0].kind == UNKNOWN {
        UnknownsGrow(m, 1, k);
      }
    }
  }

  lemma UnkStep(m: Model, k: nat)
    requires 0 < k <= |m.pieces|
    ensures var u := Indexed(m, k - 1).unk;
      Indexed(m, k).unk == if m.pieces[k - 1].kind == UNKNOWN && (u == 0 || u > k - 1) then k - 1 else u
  {
  }

  /** The last control piece with a text among the first `k`, or else what the trainer specification says. */
  ghost predicate IsControlID(m: Model, k: nat, text: seq<byte>, trainer: int, id: int)
    requires k <= |m.pieces|
  {
    if exists i | 0 <= i < k :: IsControl(m.pieces[i], text)
    then 0 <= id < k && IsControl(m.pieces[id], text) && forall i | id < i < k :: !IsControl(m.pieces[i], text)
    else id == trainer
  }

  ghost predicate IsControl(p: Piece, text: seq<byte>) {
    p.kind == 3 && p.text == text
  }

  lemma ControlIDNext(m: Model, k: nat, text: seq<byte>, trainer: int, id: int)
    requires k < |m.pieces| && IsControlID(m, k, text, trainer, id)
    ensures IsControlID(m, k + 1, text, trainer, if IsControl(m.pieces[k], text) then k else id)
  {
  }

  lemma ControlTexts()
    ensures BOS_TEXT == Ascii("<s>") && EOS_TEXT == Ascii("</s>") && PAD_TEXT == Ascii("<pad>")
    ensures Ascii("<s>") != Ascii("</s>") && |Ascii("<pad>")| == 5 && |Ascii("<s>")| == 3 && |Ascii("</s>")| == 4
  {
  }

  lemma IDsStep(m: Model, k: nat)
    requires 0 < k <= |m.pieces|
    ensures var p, q, x := Indexed(m, k - 1), Indexed(m, k), m.pieces[k - 1];
      && q.bos == (if IsControl(x, Ascii("<s>")) then k - 1 else p.bos)
      && q.eos == (if IsControl(x, Ascii("</s>")) then k - 1 else p.eos)
      && q.pad == (if IsControl(x, Ascii("<pad>")) then k - 1 else p.pad)
      && q.pieces == p.pieces
  {
    ControlTexts();
  }

  /** The other special ids: a control piece overrides the trainer specification, the last one of them. */
  lemma {:induction false} ControlIDs(m: Model, k: nat)
    requires k <= |m.pieces|
    ensures IsControlID(m, k, Ascii("<s>"), m.bos, Indexed(m, k).bos)
    ensures IsControlID(m, k, Ascii("</s>"), m.eos, Indexed(m, k).eos)
    ensures IsControlID(m, k, Ascii("<pad>"), m.pad, Indexed(m, k).pad)
    ensures Indexed(m, k).pieces == m.pieces
  {
    hide IsControl, AddToIndex;
    if k != 0 {
      ControlIDs(m, k - 1);
      IDsStep(m, k);
      hide IsControlID, Indexed;
      var p := Indexed(m, k - 1);
      ControlIDNext(m, k - 1, Ascii("<s>"), m.bos, p.bos);
      ControlIDNext(m, k - 1, Ascii("</s>"), m.eos, p.eos);
      ControlIDNext(m, k - 1, Ascii("<pad>"), m.pad, p.pad);
    }
  }

  lemma {:induction false} UnknownsGrow(m: Model, i: nat, k: nat)
    requires i <= k <= |m.pieces|
    ensures Unknowns(m, i) <= Unknowns(m, k)
  {
    if i < k {
      UnknownsGrow(m, i, k - 1);
    }
  }

  // ----- The program -----

  /** sliceReader: a byte slice and a position that every read moves. */
  class SliceReader {
    const data: seq<byte>
    var pos: nat

    constructor (data: seq<byte>)
      ensures this.data == data && pos == 0
    {
      this.data := data;
      pos := 0;
    }

    method ReadVarintRaw() returns (value: uint64, ok: bool)
      modifies this
      ensures (value, pos, ok) == RawVarint(data, old(pos))
    {
      var result: nat, shift: nat := 0, 0;
      VarintFits(data, pos, 0, 0);
      while pos < |data|
        invariant VarintFrom(data, pos, result, shift) == VarintFrom(data, old(pos), 0, 0)
        invariant result < TWO64
        decreases |data| - pos
      {
        var b := data[pos];
        pos := pos + 1;
        AddGroupFits(result, b, shift);
        result := AddGroup(result, b, shift);
        if b < 128 {
          return result, true;
        }
        shift := shift + 7;
      }
      return result, false;
    }

    method ReadTag() returns (r: Read<Tag>)
      modifies this
      ensures r == TagAt(data, old(pos)) && pos == r.pos
    {
      var v, ok := ReadVarintRaw();
      r := if ok then Got(Tag(v / 8, v % 8), pos) else Failed(pos);
    }

    method ReadVarint(wire: nat) returns (r: Read<uint64>)
      modifies this
      ensures r == VarintAt(data, old(pos), wire) && pos == r.pos
    {
      if wire != 0 {
        return Failed(pos);
      }
      var v, ok := ReadVarintRaw();
      r := if ok then Got(v, pos) else Failed(pos);
    }

    method ReadBytes(wire: nat) returns (r: Read<seq<byte>>)
      modifies this
      ensures r == BytesAt(data, old(pos), wire) && (!r.Wrapped? ==> pos == r.pos)
    {
      if wire != 2 {
        return Failed(pos);
      }
      var length, ok := ReadVarintRaw();
      if !ok {
        return Failed(pos);
      }
      if pos + length >= TWO63 {
        return Wrapped;
      }
      if pos + length > |data| {
        return Failed(pos);
      }
      var result := data[pos..pos + length];
      pos := pos + length;
      r := Got(result, pos);
    }

    method ReadFloat32(wire: nat) returns (r: Read<Score>)
      modifies this
      ensures r == FloatAt(data, old(pos), wire) && pos == r.pos
    {
      if wire == 5 {
        if pos + 4 > |data| {
          return Failed(pos);
        }
        var bits := LittleEndian(data[pos..pos + 4]);
        pos := pos + 4;
        return Got(F32(bits), pos);
      } else if wire == 1 {
        if pos + 8 > |data| {
          return Failed(pos);
        }
        var bits := LittleEndian(data[pos..pos + 8]);
        pos := pos + 8;
        return Got(F64(bits), pos);
      }
      return Failed(pos);
    }

    method SkipField(wire: nat) returns (r: Read<()>)
      modifies this
      ensures r == SkipAt(data, old(pos), wire) && (!r.Wrapped? ==> pos == r.pos)
    {
      if wire == 0 {
        var _, _ := ReadVarintRaw();
      } else if wire == 1 {
        pos := pos + 8;
      } else if wire == 2 {
        var length, _ := ReadVarintRaw();
        if pos + length >= TWO63 {
          return Wrapped;
        }
        pos := pos + length;
      } else if wire == 5 {
        pos := pos + 4;
      }
      r := Got((), pos);
    }
  }

  method TryParsePiece(data: seq<byte>) returns (r: Read<(Piece, bool)>)
    ensures r == ParsePiece(data, 0, EMPTY_PIECE, false)
  {
    hide RawVarint, TagAt, BytesAt, FloatAt, VarintAt, SkipAt;
    var sr := new SliceReader(data);
    var p, hasText := EMPTY_PIECE, false;
    while sr.pos < |data|
      invariant sr.data == data
      invariant ParsePiece(data, sr.pos, p, hasText) == ParsePiece(data, 0, EMPTY_PIECE, false)
      decreases if sr.pos <= |data| then |data| - sr.pos else 0
    {
      var tag := sr.ReadTag();
      if tag.Failed? {
        return Got((p, hasText), tag.pos);
      }
      var wire := tag.value.wire;
      if tag.value.field == 1 {
        var val := sr.ReadBytes(wire);
        if val.Wrapped? {
          return Wrapped;
        } else if val.Got? {
          p, hasText := p.(text := val.value), true;
        }
      } else if tag.value.field == 2 {
        var val := sr.ReadFloat32(wire);
        if val.Got? {
          p := p.(score := val.value);
        }
      } else if tag.value.field == 3 {
        var val := sr.ReadVarint(wire);
        if val.Got? {
          p := p.(kind := ToInt(val.value));
        }
      } else {
        var skipped := sr.SkipField(wire);
        if skipped.Wrapped? {
          return Wrapped;
        }
      }
    }
    r := Got((p, hasText), sr.pos);
  }

  method ParseTrainerSpec(data: seq<byte>, m0: Model) returns (r: Read<Model>)
    ensures r == ParseTrainer(data, 0, m0)
  {
    hide RawVarint, TagAt, VarintAt, SkipAt, SetSpecial;
    var sr := new SliceReader(data);
    var m := m0;
    while sr.pos < |data|
      invariant sr.data == data
      invariant ParseTrainer(data, sr.pos, m) == ParseTrainer(data, 0, m0)
      decreases if sr.pos <= |data| then |data| - sr.pos else 0
    {
      var tag := sr.ReadTag();
      if tag.Failed? {
        return Got(m, tag.pos);
      }
      var field := tag.value.field;
      if field in {7, 8, 9, 17} {
        var val := sr.ReadVarint(tag.value.wire);
        if val.Got? {
          m := SetSpecial(m, field, ToInt(val.value));
        }
      } else {
        var skipped := sr.SkipField(tag.value.wire);
        if skipped.Wrapped? {
          return Wrapped;
        }
      }
    }
    r := Got(m, sr.pos);
  }

  /** A field-1, 4 or 5 message: a piece, or for field 1 without a text the trainer specification. */
  method TakeMessage(val: seq<byte>, field: nat, m: Model) returns (r: Read<Model>)
    ensures r == AddMessage(val, field, m)
  {
    hide ParsePiece, ParseTrainer;
    var piece := TryParsePiece(val);
    if piece.Wrapped? {
      return Wrapped;
    }
    if piece.Failed? {
      return Failed(piece.pos);
    }
    if piece.value.1 || field != 1 {
      r := Got(m.(pieces := m.pieces + [piece.value.0]), piece.pos);
    } else {
      r := ParseTrainerSpec(val, m);
    }
  }

  method ParseModel(data: seq<byte>) returns (r: Read<Processor>)
    ensures match ParseFields(data, 0, EMPTY_MODEL)
            case Got(m, pos) => r == Got(Indexed(m, |m.pieces|), pos)
            case Failed(pos) => r == Failed(pos)
            case Wrapped => r == Wrapped
  {
    hide RawVarint, TagAt, BytesAt, SkipAt, AddMessage, AddToIndex;
    var sr := new SliceReader(data);
    var m := EMPTY_MODEL;
    while sr.pos < |data|
      invariant sr.data == data
      invariant ParseFields(data, sr.pos, m) == ParseFields(data, 0, EMPTY_MODEL)
      decreases if sr.pos <= |data| then |data| - sr.pos else 0
    {
      var tag := sr.ReadTag();
      if tag.Failed? {
        break;
      }
      var field := tag.value.field;
      if field in {1, 4, 5} {
        var val := sr.ReadBytes(tag.value.wire);
        if val.Wrapped? {
          return Wrapped;
        } else if val.Got? {
          var m' := TakeMessage(val.value, field, m);
          if m'.Wrapped? {
            return Wrapped;
          } else if m'.Got? {
            m := m'.value;
          }
        }
      } else {
        var skipped := sr.SkipField(tag.value.wire);
        if skipped.Wrapped? {
          return Wrapped;
        }
      }
    }
    assert ParseFields(data, 0, EMPTY_MODEL) == Got(m, sr.pos);
    var p := Processor(m.pieces, map[], m.unk, m.bos, m.eos, m.pad);
    for i := 0 to |m.pieces|
      invariant p == Indexed(m, i)
    {
      p := AddToIndex(p, i, m.pieces[i]);
    }
    r := Got(p, sr.pos);
  }
}
