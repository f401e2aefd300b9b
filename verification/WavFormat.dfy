/**
 The WAVE file format as pkg/audio/audio.go writes and reads it: what the bytes of a file are, what a
 reader makes of them, and how the two fit together (Multimedia Programming Interface and Data
 Specifications 1.0, section 'Waveform Audio File Format (WAVE)').
 */
module WavFormat {
  import opened Words

  // ----- Numbers as bytes, least significant first -----

  function Le16(x: int): (s: seq<byte>)
    ensures |s| == 2
  {
    var v := x % 0x1_0000;
    [v % 256, v / 256]
  }

  function Le32(x: int): (s: seq<byte>)
    ensures |s| == 4
  {
    var v := x % 0x1_0000_0000;
    Le16(v % 0x1_0000) + Le16(v / 0x1_0000)
  }

  function Read16(s: seq<byte>, at: nat): (v: nat)
    requires at + 2 <= |s|
    ensures v < 0x1_0000
  {
    var low: nat, high: nat := s[at], s[at + 1];
    low + 256 * high
  }

  function Read32(s: seq<byte>, at: nat): (v: nat)
    requires at + 4 <= |s|
    ensures v < 0x1_0000_0000
  {
    Read16(s, at) + 0x1_0000 * Read16(s, at + 2)
  }

  lemma Le16ReadsBack(x: int)
    ensures Read16(Le16(x), 0) == x % 0x1_0000
  {
  }

  lemma Le32ReadsBack(x: int)
    ensures Read32(Le32(x), 0) == x % 0x1_0000_0000
  {
    var v := x % 0x1_0000_0000;
    Le16ReadsBack(v % 0x1_0000);
    Le16ReadsBack(v / 0x1_0000);
    assert Read16(Le32(x), 0) == Read16(Le16(v % 0x1_0000), 0);
    assert Read16(Le32(x), 2) == Read16(Le16(v / 0x1_0000), 0);
  }

  lemma Read16Within(a: seq<byte>, s: seq<byte>, b: seq<byte>, at: nat)
    requires at + 2 <= |s|
    ensures Read16(a + s + b, |a| + at) == Read16(s, at)
  {
    assert (a + s + b)[|a| + at] == s[at] && (a + s + b)[|a| + at + 1] == s[at + 1];
  }

  lemma Read32Within(a: seq<byte>, s: seq<byte>, b: seq<byte>, at: nat)
    requires at + 4 <= |s|
    ensures Read32(a + s + b, |a| + at) == Read32(s, at)
  {
    Read16Within(a, s, b, at);
    Read16Within(a, s, b, at + 2);
  }

  // ----- Samples -----

  function Clip(s: real): (c: real)
    ensures -1.0 <= c <= 1.0
    ensures -1.0 <= s <= 1.0 ==> c == s
  {
    if s > 1.0 then 1.0 else if s < -1.0 then -1.0 else s
  }

  /** Round to the nearest integer, halves away from zero. */
  function Round(x: real): (r: int)
    ensures x - 0.5 <= r as real <= x + 0.5
    ensures (r as real == x + 0.5 ==> x > 0.0) && (r as real == x - 0.5 ==> x < 0.0)
  {
    if x >= 0.0 then (x + 0.5).Floor else -((-x + 0.5).Floor)
  }

  /** The 16-bit value written for a sample. */
  function Quantize(s: real): (v: int)
    ensures -32767 <= v <= 32767
  {
    Round(Clip(s) * 32767.0)
  }

  /** A 16-bit pattern as a signed number. */
  function Signed(u: nat): (v: int)
    requires u < 0x1_0000
    ensures -0x8000 <= v < 0x8000
    ensures v % 0x1_0000 == u
  {
    if u < 0x8000 then u else u - 0x1_0000
  }

  function Dequantize(v: int): real {
    v as real / 32768.0
  }

  lemma SignedReadsBack(v: int)
    requires -0x8000 <= v < 0x8000
    ensures Signed(v % 0x1_0000) == v
  {
  }

  /** Writing a sample and reading it back moves it by at most 1.5 steps of the 16-bit scale. */
  lemma SampleBound(s: real)
    ensures var back := Dequantize(Quantize(s));
      -1.5 / 32768.0 <= back - Clip(s) <= 1.5 / 32768.0
  {
    var c := Clip(s);
    var v := Quantize(s) as real;
    assert c * 32767.0 - 0.5 <= v <= c * 32767.0 + 0.5;
    assert c * 32767.0 == c * 32768.0 - c;
  }

  /** Quantizing respects the order of samples. */
  lemma QuantizeIsMonotone(s: real, t: real)
    requires s <= t
    ensures Quantize(s) <= Quantize(t)
  {
    var a, b := Clip(s) * 32767.0, Clip(t) * 32767.0;
    assert a <= b;
    if a >= 0.0 {
      FloorIsMonotone(a + 0.5, b + 0.5);
    } else if b < 0.0 {
      FloorIsMonotone(-b + 0.5, -a + 0.5);
    }
  }

  lemma FloorIsMonotone(x: real, y: real)
    requires x <= y
    ensures x.Floor <= y.Floor
  {
  }

  function PcmBytes(waveform: seq<real>): (s: seq<byte>)
    ensures |s| == 2 * |waveform|
  {
    if waveform == [] then []
    else PcmBytes(waveform[..|waveform| - 1]) + Le16(Quantize(waveform[|waveform| - 1]))
  }

  lemma PcmBytesNext(waveform: seq<real>, i: nat)
    requires i < |waveform|
    ensures PcmBytes(waveform[..i + 1]) == PcmBytes(waveform[..i]) + Le16(Quantize(waveform[i]))
  {
    assert waveform[..i + 1][..i] == waveform[..i];
  }

  lemma {:induction false} PcmBytesAt(waveform: seq<real>, i: nat)
    requires i < |waveform|
    ensures Read16(PcmBytes(waveform), 2 * i) == Quantize(waveform[i]) % 0x1_0000
  {
    var n := |waveform| - 1;
    var front, last := PcmBytes(waveform[..n]), Le16(Quantize(waveform[n]));
    if i == n {
      Le16ReadsBack(Quantize(waveform[n]));
      Read16Within(front, last, [], 0);
      assert front + last + [] == PcmBytes(waveform);
    } else {
      PcmBytesAt(waveform[..n], i);
      Read16Within([], front, last, 2 * i);
      assert [] + front + last == PcmBytes(waveform);
    }
  }

  // ----- Chunks -----

  const RIFF: seq<byte> := [0x52, 0x49, 0x46, 0x46]
  const WAVE: seq<byte> := [0x57, 0x41, 0x56, 0x45]
  const FMT: seq<byte> := [0x66, 0x6D, 0x74, 0x20]
  const DATA: seq<byte> := [0x64, 0x61, 0x74, 0x61]

  function FmtBody(channels: int, sampleRate: int): (s: seq<byte>)
    ensures |s| == 16
  {
    Le16(1) + Le16(channels) + Le32(sampleRate) + Le32(sampleRate * channels * 2) + Le16(channels * 2) + Le16(16)
  }

  function Chunk(id: seq<byte>, size: int, body: seq<byte>): seq<byte> {
    id + Le32(size) + body
  }

  /** The file of a waveform: header, format chunk and data chunk. */
  function FileOf(waveform: seq<real>, channels: int, sampleRate: int): seq<byte> {
    var dataSize := 2 * |waveform|;
    RIFF + Le32(36 + dataSize) + WAVE + Chunk(FMT, 16, FmtBody(channels, sampleRate)) +
    Chunk(DATA, dataSize, PcmBytes(waveform))
  }

  // ----- What a reader makes of a file -----

  /** 16-bit samples as numbers; 32-bit samples as their IEEE patterns. */
  datatype Samples = Pcm(values: seq<real>) | FloatBits(patterns: seq<nat>)

  /** What the format chunk said; all zero before there has been one. */
  datatype Format = Format(audioFormat: nat, channels: nat, sampleRate: nat, bitsPerSample: nat)

  const NO_FORMAT := Format(0, 0, 0, 0)

  datatype Outcome = Wave(samples: Samples, channels: nat, sampleRate: nat) | Failed | Panics

  function Drop(s: seq<byte>, n: nat): (r: seq<byte>)
    ensures |r| <= |s| && (n > 0 && s != [] ==> |r| < |s|)
  {
    if n <= |s| then s[n..] else []
  }

  /** What one read of n bytes puts into a zeroed buffer when fewer bytes may be left. */
  function Filled(s: seq<byte>, n: nat): (r: seq<byte>)
    ensures |r| == n
    ensures |s| >= n ==> r == s[..n]
  {
    if n <= |s| then s[..n] else s + seq(n - |s|, _ => 0)
  }

  /** A read fails at the end of the file, unless it asks for nothing. */
  predicate ReadFails(s: seq<byte>, n: nat) {
    s == [] && n > 0
  }

  function FormatOf(body: seq<byte>): Format
    requires |body| >= 16
  {
    var tag := Read16(body, 0);
    Format(if tag == 0xFFFE && |body| >= 40 && Read16(body, 24) == 3 then 3 else tag,
           Read16(body, 2), Read32(body, 4), Read16(body, 14))
  }

  function PcmValues(data: seq<byte>): (v: seq<real>)
    ensures |v| == |data| / 2
    ensures forall i | 0 <= i < |v| :: v[i] == Dequantize(Signed(Read16(data, 2 * i)))
  {
    seq(|data| / 2, i requires 0 <= i < |data| / 2 => Dequantize(Signed(Read16(data, 2 * i))))
  }

  function FloatPatterns(data: seq<byte>): (v: seq<nat>)
    ensures |v| == |data| / 4
    ensures forall i | 0 <= i < |v| :: v[i] == Read32(data, 4 * i)
  {
    seq(|data| / 4, i requires 0 <= i < |data| / 4 => Read32(data, 4 * i))
  }

  function SamplesOf(data: seq<byte>, format: Format): Samples {
    if format.audioFormat == 3 && format.bitsPerSample == 32 then FloatBits(FloatPatterns(data)) else Pcm(PcmValues(data))
  }

  /** The rest of a file from a chunk boundary on. */
  function ParseChunks(s: seq<byte>, format: Format): Outcome
    decreases |s|
  {
    if ReadFails(s, 8) then Failed
    else
      var header := Filled(s, 8);
      var id, size := header[..4], Read32(header, 4);
      var rest := Drop(s, 8);
      if id == FMT then
        if ReadFails(rest, size) then Failed
        else if size < 16 then Panics
        else ParseChunks(Drop(rest, size + size % 2), FormatOf(Filled(rest, size)))
      else if id == DATA then
        if ReadFails(rest, size) then Failed
        else Wave(SamplesOf(Filled(rest, size), format), format.channels, format.sampleRate)
      else ParseChunks(Drop(rest, size + size % 2), format)
  }

  function ParseFile(s: seq<byte>): Outcome {
    if ReadFails(s, 12) then Failed
    else
      var header := Filled(s, 12);
      if header[..4] != RIFF || header[8..12] != WAVE then Failed else ParseChunks(Drop(s, 12), NO_FORMAT)
  }

  lemma ChunkParts(id: seq<byte>, size: int, body: seq<byte>, rest: seq<byte>)
    requires |id| == 4 && 0 <= size < 0x1_0000_0000
    ensures var s := Chunk(id, size, body) + rest;
      !ReadFails(s, 8) && Filled(s, 8)[..4] == id && Read32(Filled(s, 8), 4) == size && Drop(s, 8) == body + rest
  {
    var s := Chunk(id, size, body) + rest;
    assert s[..8] == id + Le32(size);
    Le32ReadsBack(size);
    Read32Within(id, Le32(size), [], 0);
    assert id + Le32(size) + [] == s[..8];
    assert s == (id + Le32(size)) + (body + rest);
  }

  // ----- Unknown chunks -----

  /** One step of the reader over a format chunk, and over a data chunk. */
  lemma ParseFmt(body: seq<byte>, rest: seq<byte>, format: Format)
    requires 16 <= |body| < 0x1_0000_0000 && |body| % 2 == 0
    ensures ParseChunks(Chunk(FMT, |body|, body) + rest, format) == ParseChunks(rest, FormatOf(body))
  {
    var s := Chunk(FMT, |body|, body) + rest;
    ChunkParts(FMT, |body|, body, rest);
    hide Chunk, Read32, FormatOf, Le32;
    assert Filled(body + rest, |body|) == body && Drop(body + rest, |body|) == rest;
    assert ParseChunks(s, format) ==
           ParseChunks(Drop(Drop(s, 8), |body| + |body| % 2), FormatOf(Filled(Drop(s, 8), |body|)));
  }

  lemma ParseData(body: seq<byte>, format: Format)
    requires |body| < 0x1_0000_0000
    ensures ParseChunks(Chunk(DATA, |body|, body), format) ==
      Wave(SamplesOf(body, format), format.channels, format.sampleRate)
  {
    var s := Chunk(DATA, |body|, body);
    ChunkParts(DATA, |body|, body, []);
    hide Chunk, Read32, SamplesOf, Le32;
    assert s + [] == s && body + [] == body;
    assert Filled(body, |body|) == body;
  }

  /** A chunk of some other kind, as it stands in a file: padded to an even size. */
  datatype Extra = Extra(id: seq<byte>, body: seq<byte>, pad: byte)

  predicate IsUnknown(x: Extra) {
    |x.id| == 4 && x.id != FMT && x.id != DATA && |x.body| < 0x1_0000_0000
  }

  function ExtraBytes(x: Extra): seq<byte> {
    Chunk(x.id, |x.body|, x.body + if |x.body| % 2 == 1 then [x.pad] else [])
  }

  function ExtrasBytes(xs: seq<Extra>): seq<byte> {
    if xs == [] then [] else ExtraBytes(xs[0]) + ExtrasBytes(xs[1..])
  }

  /** The reader steps over unknown chunks as if they were not there. */
  lemma {:induction false} ExtrasAreSkipped(xs: seq<Extra>, rest: seq<byte>, format: Format)
    requires forall x | x in xs :: IsUnknown(x)
    ensures ParseChunks(ExtrasBytes(xs) + rest, format) == ParseChunks(rest, format)
    decreases |xs|
  {
    if xs == [] {
      assert ExtrasBytes(xs) + rest == rest;
    } else {
      var tail := ExtrasBytes(xs[1..]) + rest;
      assert ExtrasBytes(xs) + rest == ExtraBytes(xs[0]) + tail;
      ExtraIsSkipped(xs[0], tail, format);
      ExtrasAreSkipped(xs[1..], rest, format);
    }
  }

  lemma ExtraIsSkipped(x: Extra, rest: seq<byte>, format: Format)
    requires IsUnknown(x)
    ensures ParseChunks(ExtraBytes(x) + rest, format) == ParseChunks(rest, format)
  {
    var padded := x.body + if |x.body| % 2 == 1 then [x.pad] else [];
    ChunkParts(x.id, |x.body|, padded, rest);
    hide ReadFails, Filled, Read32, Chunk;
    assert Drop(padded + rest, |padded|) == rest;
  }

  // ----- Reading back what was written -----

  /** The file of a waveform with other chunks before the format chunk and between it and the data. */
  function FileWith(waveform: seq<real>, channels: int, sampleRate: int, riffSize: int, xs: seq<Extra>, ys: seq<Extra>)
    : seq<byte>
  {
    RIFF + Le32(riffSize) + WAVE +
    (ExtrasBytes(xs) +
     (Chunk(FMT, 16, FmtBody(channels, sampleRate)) +
      (ExtrasBytes(ys) + Chunk(DATA, 2 * |waveform|, PcmBytes(waveform)))))
  }

  lemma FileIsPlain(waveform: seq<real>, channels: int, sampleRate: int)
    ensures FileOf(waveform, channels, sampleRate) ==
      FileWith(waveform, channels, sampleRate, 36 + 2 * |waveform|, [], [])
  {
    var head := RIFF + Le32(36 + 2 * |waveform|) + WAVE;
    var fmt, data := Chunk(FMT, 16, FmtBody(channels, sampleRate)), Chunk(DATA, 2 * |waveform|, PcmBytes(waveform));
    hide Chunk, Le32, PcmBytes;
    assert [] + data == data && [] + (fmt + data) == fmt + data;
    assert head + fmt + data == head + (fmt + data);
  }

  lemma FormatReadsBack(channels: int, sampleRate: int)
    ensures FormatOf(FmtBody(channels, sampleRate)) == Format(1, channels % 0x1_0000, sampleRate % 0x1_0000_0000, 16)
  {
    var body := FmtBody(channels, sampleRate);
    var a, b, c := Le16(1), Le16(channels), Le32(sampleRate);
    var d := Le32(sampleRate * channels * 2);
    var e, f := Le16(channels * 2), Le16(16);
    Le16ReadsBack(1);
    Le16ReadsBack(channels);
    Le32ReadsBack(sampleRate);
    Le16ReadsBack(16);
    hide Le16, Le32;
    assert body == [] + a + (b + c + d + e + f);
    assert body == a + b + (c + d + e + f);
    assert body == (a + b) + c + (d + e + f);
    assert body == (a + b + c + d + e) + f + [];
    Read16Within([], a, b + c + d + e + f, 0);
    Read16Within(a, b, c + d + e + f, 0);
    Read32Within(a + b, c, d + e + f, 0);
    Read16Within(a + b + c + d + e, f, [], 0);
  }

  function ReadBack(waveform: seq<real>): (v: seq<real>)
    ensures |v| == |waveform|
  {
    seq(|waveform|, i requires 0 <= i < |waveform| => Dequantize(Quantize(waveform[i])))
  }

  lemma SamplesReadBack(waveform: seq<real>)
    ensures PcmValues(PcmBytes(waveform)) == ReadBack(waveform)
  {
    forall i | 0 <= i < |waveform|
      ensures PcmValues(PcmBytes(waveform))[i] == Dequantize(Quantize(waveform[i]))
    {
      PcmBytesAt(waveform, i);
      SignedReadsBack(Quantize(waveform[i]));
    }
  }

  /** Reading a written file back gives its channels, its rate and its quantized samples, whatever
      unknown chunks stand before the data. */
  lemma FileReadsBack(waveform: seq<real>, channels: nat, sampleRate: nat, riffSize: int, xs: seq<Extra>, ys: seq<Extra>)
    requires channels < 0x1_0000 && sampleRate < 0x1_0000_0000 && 2 * |waveform| < 0x1_0000_0000
    requires forall x | x in xs + ys :: IsUnknown(x)
    ensures ParseFile(FileWith(waveform, channels, sampleRate, riffSize, xs, ys)) ==
      Wave(Pcm(ReadBack(waveform)), channels, sampleRate)
  {
    var head := RIFF + Le32(riffSize) + WAVE;
    var data := Chunk(DATA, 2 * |waveform|, PcmBytes(waveform));
    var fmt := Chunk(FMT, 16, FmtBody(channels, sampleRate));
    var tail := ExtrasBytes(ys) + data;
    var file := FileWith(waveform, channels, sampleRate, riffSize, xs, ys);
    HeaderIsSkipped(riffSize, ExtrasBytes(xs) + (fmt + tail));
    ExtrasAreSkipped(xs, fmt + tail, NO_FORMAT);
    FmtIsTaken(channels, sampleRate, tail);
    ExtrasAreSkipped(ys, data, Format(1, channels, sampleRate, 16));
    DataIsTaken(waveform, channels, sampleRate);
    hide ParseChunks, ParseFile, Chunk, ExtrasBytes, ReadBack, PcmBytes, Le32;
  }

  lemma HeaderIsSkipped(riffSize: int, rest: seq<byte>)
    ensures ParseFile(RIFF + Le32(riffSize) + WAVE + rest) == ParseChunks(rest, NO_FORMAT)
  {
    hide ParseChunks, Le32;
    var head := RIFF + Le32(riffSize) + WAVE;
    assert (head + rest)[..12] == head;
    assert Drop(head + rest, 12) == rest;
    assert head[..4] == RIFF && head[8..12] == WAVE;
  }

  lemma FmtIsTaken(channels: nat, sampleRate: nat, rest: seq<byte>)
    requires channels < 0x1_0000 && sampleRate < 0x1_0000_0000
    ensures ParseChunks(Chunk(FMT, 16, FmtBody(channels, sampleRate)) + rest, NO_FORMAT) ==
      ParseChunks(rest, Format(1, channels, sampleRate, 16))
  {
    var body := FmtBody(channels, sampleRate);
    hide Chunk, FmtBody, FormatOf, ParseChunks;
    ParseFmt(body, rest, NO_FORMAT);
    FormatReadsBack(channels, sampleRate);
  }

  lemma DataIsTaken(waveform: seq<real>, channels: nat, sampleRate: nat)
    requires 2 * |waveform| < 0x1_0000_0000
    ensures ParseChunks(Chunk(DATA, 2 * |waveform|, PcmBytes(waveform)), Format(1, channels, sampleRate, 16)) ==
      Wave(Pcm(ReadBack(waveform)), channels, sampleRate)
  {
    var body := PcmBytes(waveform);
    hide Chunk, PcmBytes, PcmValues, ReadBack, ParseChunks;
    ParseData(body, Format(1, channels, sampleRate, 16));
    SamplesReadBack(waveform);
  }

  // ----- The fields of a written file -----

  lemma ChunkNames()
    ensures RIFF == Ascii("RIFF") && WAVE == Ascii("WAVE") && FMT == Ascii("fmt ") && DATA == Ascii("data")
  {
  }

  function ByteAt(s: seq<byte>, i: nat): int {
    if i < |s| then s[i] else 0
  }

  /** The number in `k` bytes from `at` on, least significant first. */
  predicate Holds(s: seq<byte>, at: nat, k: nat, v: int) {
    at + k <= |s| &&
    (k == 2 ==> ByteAt(s, at) + 256 * ByteAt(s, at + 1) == v % 0x1_0000) &&
    (k == 4 ==> ByteAt(s, at) + 256 * ByteAt(s, at + 1) + 0x1_0000 * ByteAt(s, at + 2) + 0x100_0000 * ByteAt(s, at + 3)
                  == v % 0x1_0000_0000)
  }

  lemma Le16Holds(x: int)
    ensures Holds(Le16(x), 0, 2, x)
  {
  }

  lemma Le32Holds(x: int)
    ensures Holds(Le32(x), 0, 4, x)
  {
    Le32ReadsBack(x);
    hide Le32;
    var s := Le32(x);
    assert Read32(s, 0) == Read16(s, 0) + 0x1_0000 * Read16(s, 2);
    assert Read16(s, 0) == ByteAt(s, 0) + 256 * ByteAt(s, 1) && Read16(s, 2) == ByteAt(s, 2) + 256 * ByteAt(s, 3);
  }

  lemma HoldsInside(a: seq<byte>, s: seq<byte>, b: seq<byte>, at: nat, k: nat, v: int)
    requires Holds(s, at, k, v) && (k == 2 || k == 4)
    ensures Holds(a + s + b, |a| + at, k, v)
  {
    var f := a + s + b;
    assert forall i | at <= i < at + k :: ByteAt(f, |a| + i) == ByteAt(s, i);
  }

  lemma FmtBodyFields(channels: int, sampleRate: int)
    ensures var b := FmtBody(channels, sampleRate);
      && Holds(b, 0, 2, 1) && Holds(b, 2, 2, channels) && Holds(b, 4, 4, sampleRate)
      && Holds(b, 8, 4, sampleRate * channels * 2) && Holds(b, 12, 2, channels * 2) && Holds(b, 14, 2, 16)
  {
    hide Le16, Le32, Holds;
    var c, r, p, q, w := Le16(channels), Le32(sampleRate), Le32(sampleRate * channels * 2), Le16(channels * 2), Le16(16);
    Le16Holds(1);
    Le16Holds(channels);
    Le32Holds(sampleRate);
    Le32Holds(sampleRate * channels * 2);
    Le16Holds(channels * 2);
    Le16Holds(16);
    var b := FmtBody(channels, sampleRate);
    assert b == [] + Le16(1) + (c + r + p + q + w) && b == Le16(1) + c + (r + p + q + w);
    assert b == (Le16(1) + c) + r + (p + q + w) && b == (Le16(1) + c + r) + p + (q + w);
    assert b == (Le16(1) + c + r + p) + q + w && b == (Le16(1) + c + r + p + q) + w + [];
    HoldsInside([], Le16(1), c + r + p + q + w, 0, 2, 1);
    HoldsInside(Le16(1), c, r + p + q + w, 0, 2, channels);
    HoldsInside(Le16(1) + c, r, p + q + w, 0, 4, sampleRate);
    HoldsInside(Le16(1) + c + r, p, q + w, 0, 4, sampleRate * channels * 2);
    HoldsInside(Le16(1) + c + r + p, q, w, 0, 2, channels * 2);
    HoldsInside(Le16(1) + c + r + p + q, w, [], 0, 2, 16);
  }

  lemma {:induction false} PcmFields(waveform: seq<real>, i: nat)
    requires i < |waveform|
    ensures Holds(PcmBytes(waveform), 2 * i, 2, Quantize(waveform[i]))
  {
    hide Holds, Quantize, Le16;
    var n := |waveform| - 1;
    var front, last := PcmBytes(waveform[..n]), Le16(Quantize(waveform[n]));
    assert PcmBytes(waveform) == front + last + [] && PcmBytes(waveform) == [] + front + last;
    if i == n {
      Le16Holds(Quantize(waveform[n]));
      HoldsInside(front, last, [], 0, 2, Quantize(waveform[n]));
    } else {
      PcmFields(waveform[..n], i);
      HoldsInside([], front, last, 2 * i, 2, Quantize(waveform[i]));
    }
  }

  /** A written file is a RIFF header over all that follows, a format chunk of 16-bit PCM, and the samples. */
  ghost predicate IsPcmFile(f: seq<byte>, waveform: seq<real>, channels: int, sampleRate: int) {
    && |f| == 44 + 2 * |waveform|
    && f[..4] == Ascii("RIFF") && Holds(f, 4, 4, |f| - 8) && f[8..12] == Ascii("WAVE")
    && f[12..16] == Ascii("fmt ") && Holds(f, 16, 4, 16) && Holds(f, 20, 2, 1) && Holds(f, 22, 2, channels)
    && Holds(f, 24, 4, sampleRate) && Holds(f, 28, 4, sampleRate * channels * 2) && Holds(f, 32, 2, channels * 2)
    && Holds(f, 34, 2, 16)
    && f[36..40] == Ascii("data") && Holds(f, 40, 4, 2 * |waveform|)
    && forall i | 0 <= i < |waveform| :: Holds(f, 44 + 2 * i, 2, Quantize(waveform[i]))
  }

  lemma FileIsPcmFile(waveform: seq<real>, channels: int, sampleRate: int)
    ensures IsPcmFile(FileOf(waveform, channels, sampleRate), waveform, channels, sampleRate)
  {
    var f, n, b := FileOf(waveform, channels, sampleRate), 2 * |waveform|, FmtBody(channels, sampleRate);
    ChunkNames();
    Le32Holds(36 + n);
    Le32Holds(16);
    Le32Holds(n);
    FmtBodyFields(channels, sampleRate);
    hide Le32, FmtBody, Holds, Ascii, PcmBytes, Quantize;
    var head, p := RIFF + Le32(36 + n) + WAVE, PcmBytes(waveform);
    var fmt, data := FMT + Le32(16), DATA + Le32(n);
    assert f == head + fmt + b + data + p;
    HoldsIn(f, RIFF, Le32(36 + n), 0, 4, 36 + n);
    HoldsIn(f, head + FMT, Le32(16), 0, 4, 16);
    HoldsIn(f, head + fmt, b, 0, 2, 1);
    HoldsIn(f, head + fmt, b, 2, 2, channels);
    HoldsIn(f, head + fmt, b, 4, 4, sampleRate);
    HoldsIn(f, head + fmt, b, 8, 4, sampleRate * channels * 2);
    HoldsIn(f, head + fmt, b, 12, 2, channels * 2);
    HoldsIn(f, head + fmt, b, 14, 2, 16);
    HoldsIn(f, head + fmt + b + DATA, Le32(n), 0, 4, n);
    forall i | 0 <= i < |waveform| ensures Holds(f, 44 + 2 * i, 2, Quantize(waveform[i])) {
      PcmFields(waveform, i);
      HoldsIn(f, head + fmt + b + data, p, 2 * i, 2, Quantize(waveform[i]));
    }
  }

  /** The number at `at` of `s` in a file that starts with `a` and then `s`. */
  lemma HoldsIn(f: seq<byte>, a: seq<byte>, s: seq<byte>, at: nat, k: nat, v: int)
    requires a + s <= f && Holds(s, at, k, v) && (k == 2 || k == 4)
    ensures Holds(f, |a| + at, k, v)
  {
    hide Holds;
    assert f == a + s + f[|a + s|..];
    HoldsInside(a, s, f[|a + s|..], at, k, v);
  }

  // ----- Reading files in any format -----

  /** The format chunk announces 32-bit floating-point samples, directly or in its extension. */
  ghost predicate IsFloatFormat(body: seq<byte>) {
    && Holds(body, 14, 2, 32)
    && (Holds(body, 0, 2, 3) || (Holds(body, 0, 2, 0xFFFE) && |body| >= 40 && Holds(body, 24, 2, 3)))
  }

  /** The samples that a data chunk of `n` bytes holds, of which the file has the first ones. */
  ghost predicate AreSamples(samples: Samples, isFloat: bool, data: seq<byte>, n: nat) {
    match samples
    case FloatBits(p) => isFloat && |p| == n / 4 && forall i | 0 <= i < |p| ::
      p[i] == ByteAt(data, 4 * i) + 256 * ByteAt(data, 4 * i + 1) + 0x1_0000 * ByteAt(data, 4 * i + 2)
              + 0x100_0000 * ByteAt(data, 4 * i + 3)
    case Pcm(v) => !isFloat && |v| == n / 2 && forall i | 0 <= i < |v| ::
      var u := ByteAt(data, 2 * i) + 256 * ByteAt(data, 2 * i + 1);
      v[i] * 32768.0 == (if u < 0x8000 then u else u - 0x1_0000) as real
  }

  lemma WordAt(s: seq<byte>, at: nat, v: nat)
    requires at + 2 <= |s| && v < 0x1_0000
    ensures Read16(s, at) == v <==> Holds(s, at, 2, v)
  {
  }

  lemma FloatFormatIs(body: seq<byte>)
    requires |body| >= 16
    ensures var f := FormatOf(body);
      && (f.audioFormat == 3 && f.bitsPerSample == 32 <==> IsFloatFormat(body))
      && Holds(body, 2, 2, f.channels) && Holds(body, 4, 4, f.sampleRate)
  {
    WordAt(body, 14, 32);
    WordAt(body, 0, 3);
    WordAt(body, 0, 0xFFFE);
    if |body| >= 40 {
      WordAt(body, 24, 3);
    }
  }

  lemma SamplesAre(data: seq<byte>, body: seq<byte>, n: nat)
    requires |body| >= 16
    ensures AreSamples(SamplesOf(Filled(data, n), FormatOf(body)), IsFloatFormat(body), data, n)
  {
    FloatFormatIs(body);
    var d := Filled(data, n);
    assert forall i | 0 <= i < n :: d[i] == ByteAt(data, i);
    hide FormatOf, IsFloatFormat, Filled;
    forall i | 0 <= i < n / 4
      ensures Read32(d, 4 * i) == ByteAt(data, 4 * i) + 256 * ByteAt(data, 4 * i + 1) +
                0x1_0000 * ByteAt(data, 4 * i + 2) + 0x100_0000 * ByteAt(data, 4 * i + 3)
    {
    }
  }

  /** A file of a format chunk and a data chunk of `n` bytes, some of which may be missing, among other chunks. */
  function AnyFile(riffSize: int, xs: seq<Extra>, body: seq<byte>, ys: seq<Extra>, n: nat, data: seq<byte>): seq<byte> {
    RIFF + Le32(riffSize) + WAVE +
    (ExtrasBytes(xs) + (Chunk(FMT, |body|, body) + (ExtrasBytes(ys) + Chunk(DATA, n, data))))
  }

  /** Whatever the format chunk says, the reader takes the samples as 32-bit floats exactly if it announces them, and as
      16-bit numbers otherwise, with the channels and the rate it gives; missing bytes at the end count as zero. */
  lemma AnyFormatReadsBack(riffSize: int, xs: seq<Extra>, body: seq<byte>, ys: seq<Extra>, n: nat, data: seq<byte>)
    requires forall x | x in xs + ys :: IsUnknown(x)
    requires 16 <= |body| < 0x1_0000_0000 && |body| % 2 == 0
    requires n < 0x1_0000_0000 && |data| <= n && (data == [] ==> n == 0)
    ensures var r := ParseFile(AnyFile(riffSize, xs, body, ys, n, data));
      && r.Wave? && AreSamples(r.samples, IsFloatFormat(body), data, n)
      && Holds(body, 2, 2, r.channels) && Holds(body, 4, 4, r.sampleRate)
  {
    var c := Chunk(DATA, n, data);
    var fmt := Chunk(FMT, |body|, body);
    hide ParseChunks, ParseFile, Chunk, ExtrasBytes, Le32, FormatOf, AreSamples, IsFloatFormat, SamplesOf, Holds;
    HeaderIsSkipped(riffSize, ExtrasBytes(xs) + (fmt + (ExtrasBytes(ys) + c)));
    ExtrasAreSkipped(xs, fmt + (ExtrasBytes(ys) + c), NO_FORMAT);
    ParseFmt(body, ExtrasBytes(ys) + c, NO_FORMAT);
    ExtrasAreSkipped(ys, c, FormatOf(body));
    ParseSomeData(n, data, FormatOf(body));
    SamplesAre(data, body, n);
    FloatFormatIs(body);
  }

  lemma ParseSomeData(n: nat, data: seq<byte>, format: Format)
    requires n < 0x1_0000_0000 && |data| <= n && (data == [] ==> n == 0)
    ensures ParseChunks(Chunk(DATA, n, data), format) ==
      Wave(SamplesOf(Filled(data, n), format), format.channels, format.sampleRate)
  {
    var s := Chunk(DATA, n, data);
    ChunkParts(DATA, n, data, []);
    hide Chunk, Read32, SamplesOf, Le32;
    assert s + [] == s && data + [] == data;
  }

  /** A file that is too short for the header, or does not start with it, is refused. */
  lemma OtherFilesFail(s: seq<byte>)
    requires |s| < 12 || s[..4] != Ascii("RIFF") || s[8..12] != Ascii("WAVE")
    ensures ParseFile(s) == Failed
  {
    ChunkNames();
    hide ParseChunks, Ascii;
    if 0 < |s| < 12 {
      assert Filled(s, 12)[11] == 0 && WAVE[3] == 0x45;
      assert Filled(s, 12)[8..12][3] == Filled(s, 12)[11];
    }
  }

  /** Without a format chunk the samples are taken as 16-bit numbers of no channels. */
  lemma NoFormatReadsBack(riffSize: int, xs: seq<Extra>, data: seq<byte>)
    requires (forall x | x in xs :: IsUnknown(x)) && |data| < 0x1_0000_0000
    ensures var r := ParseFile(RIFF + Le32(riffSize) + WAVE + (ExtrasBytes(xs) + Chunk(DATA, |data|, data)));
      r.Wave? && r.samples.Pcm? && r.channels == 0 && r.sampleRate == 0
  {
    hide ParseChunks, ParseFile, Chunk, ExtrasBytes, Le32, PcmValues;
    HeaderIsSkipped(riffSize, ExtrasBytes(xs) + Chunk(DATA, |data|, data));
    ExtrasAreSkipped(xs, Chunk(DATA, |data|, data), NO_FORMAT);
    ParseData(data, NO_FORMAT);
  }
}
