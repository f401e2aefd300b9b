/**
 Writing and reading WAVE files, interleaving channels and trimming silence (pkg/audio/audio.go).
 Samples are reals; the 16-bit values they are written as are exact.
 */
module Wav {
  import opened Words
  import opened WavFormat

  /** With fewer samples than channels, everything goes into one channel. */
  function WrittenChannels(n: nat, channels: nat): (c: nat)
    requires channels > 0
    ensures c == if n < channels then 1 else channels
  {
    if n / channels == 0 then 1 else channels
  }

  /** Put bytes behind those already written. */
  method PutBytes(buf: array<byte>, at: nat, s: seq<byte>)
    requires at + |s| <= buf.Length
    modifies buf
    ensures buf[..at + |s|] == old(buf[..at]) + s
  {
    var i := 0;
    while i < |s|
      invariant 0 <= i <= |s|
      invariant buf[..at + i] == old(buf[..at]) + s[..i]
    {
      buf[at + i] := s[i];
      i := i + 1;
    }
  }

  method PutHeader(buf: array<byte>, channels: nat, sampleRate: int, dataSize: nat)
    requires buf.Length >= 44
    modifies buf
    ensures buf[..44] ==
      RIFF + Le32(36 + dataSize) + WAVE + Chunk(FMT, 16, FmtBody(channels, sampleRate)) + (DATA + Le32(dataSize))
  {
    hide Le16, Le32;
    PutBytes(buf, 0, RIFF);
    PutBytes(buf, 4, Le32(36 + dataSize));
    PutBytes(buf, 8, WAVE);
    ghost var head := buf[..12];
    assert head == RIFF + Le32(36 + dataSize) + WAVE;
    PutBytes(buf, 12, FMT);
    PutBytes(buf, 16, Le32(16));
    assert buf[..20] == head + (FMT + Le32(16));
    PutFormat(buf, channels, sampleRate);
    assert buf[..36] == head + (FMT + Le32(16) + FmtBody(channels, sampleRate));
    PutBytes(buf, 36, DATA);
    PutBytes(buf, 40, Le32(dataSize));
  }

  method PutFormat(buf: array<byte>, channels: nat, sampleRate: int)
    requires buf.Length >= 44
    modifies buf
    ensures buf[..36] == old(buf[..20]) + FmtBody(channels, sampleRate)
  {
    hide Le16, Le32;
    PutBytes(buf, 20, Le16(1));
    PutBytes(buf, 22, Le16(channels));
    PutBytes(buf, 24, Le32(sampleRate));
    assert buf[..28] == old(buf[..20]) + (Le16(1) + Le16(channels) + Le32(sampleRate));
    PutBytes(buf, 28, Le32(sampleRate * channels * 2));
    PutBytes(buf, 32, Le16(channels * 2));
    PutBytes(buf, 34, Le16(16));
  }

  /** Encode a waveform. It panics exactly when the channels do not divide a waveform that is long enough for them. */
  method EncodeWAV(waveform: seq<real>, channels: nat, sampleRate: int) returns (buf: array<byte>, panics: bool)
    requires channels >= 1
    ensures fresh(buf)
    ensures panics <==> |waveform| >= channels && |waveform| % channels != 0
    ensures !panics ==> buf[..] == FileOf(waveform, WrittenChannels(|waveform|, channels), sampleRate)
    ensures !panics ==> IsPcmFile(buf[..], waveform, if |waveform| < channels then 1 else channels, sampleRate)
  {
    hide FileOf, IsPcmFile, WrittenChannels;
    var numSamples := |waveform| / channels;
    var chs := channels;
    if numSamples == 0 {
      numSamples := |waveform|;
      chs := 1;
    }
    Division(|waveform|, channels);
    var dataSize := numSamples * chs * 2;
    assert dataSize == 2 * (if |waveform| < channels then |waveform| else |waveform| - |waveform| % channels);
    buf, panics := Encoded(waveform, chs, sampleRate, dataSize);
  }

  /** Header and samples in the space reserved for them. */
  method Encoded(waveform: seq<real>, channels: nat, sampleRate: int, dataSize: nat)
    returns (buf: array<byte>, panics: bool)
    requires dataSize <= 2 * |waveform|
    ensures fresh(buf) && (panics <==> dataSize < 2 * |waveform|)
    ensures !panics ==> buf[..] == FileOf(waveform, channels, sampleRate)
    ensures !panics ==> IsPcmFile(buf[..], waveform, channels, sampleRate)
  {
    FileIsPcmFile(waveform, channels, sampleRate);
    hide FmtBody, Le32, Le16, PcmBytes, FileOf, IsPcmFile;
    buf := new byte[44 + dataSize];
    PutHeader(buf, channels, sampleRate, dataSize);
    ghost var header := buf[..44];
    panics := PutSamples(buf, waveform);
    if !panics {
      HeaderAndSamples(header, waveform, channels, sampleRate, dataSize);
      assert buf[..buf.Length] == buf[..];
    }
  }

  lemma HeaderAndSamples(header: seq<byte>, waveform: seq<real>, channels: nat, sampleRate: int, dataSize: nat)
    requires dataSize == 2 * |waveform|
    requires header ==
      RIFF + Le32(36 + dataSize) + WAVE + Chunk(FMT, 16, FmtBody(channels, sampleRate)) + (DATA + Le32(dataSize))
    ensures header + PcmBytes(waveform) == FileOf(waveform, channels, sampleRate)
  {
    hide FmtBody, Le32, PcmBytes;
    var front := RIFF + Le32(36 + dataSize) + WAVE + Chunk(FMT, 16, FmtBody(channels, sampleRate));
    assert front + (DATA + Le32(dataSize)) + PcmBytes(waveform) == front + (DATA + Le32(dataSize) + PcmBytes(waveform));
  }

  /** Write the samples behind the header; it panics at the first one that the buffer has no room for. */
  method PutSamples(buf: array<byte>, waveform: seq<real>) returns (panics: bool)
    requires buf.Length >= 44
    modifies buf
    ensures panics <==> 44 + 2 * |waveform| > buf.Length
    ensures !panics ==> buf[..44 + 2 * |waveform|] == old(buf[..44]) + PcmBytes(waveform)
  {
    hide PcmBytes, Le16, Quantize, Round;
    ghost var header := buf[..44];
    var i := 0;
    assert PcmBytes(waveform[..0]) == [];
    while i < |waveform|
      invariant 0 <= i <= |waveform| && 44 + 2 * i <= buf.Length
      invariant buf[..44 + 2 * i] == header + PcmBytes(waveform[..i])
    {
      if 44 + i * 2 + 2 > buf.Length {
        return true;
      }
      var s := waveform[i];
      if s > 1.0 {
        s := 1.0;
      } else if s < -1.0 {
        s := -1.0;
      }
      var val := Round(s * 32767.0);
      PcmBytesNext(waveform, i);
      ClippedIs(waveform[i], s);
      PutBytes(buf, 44 + i * 2, Le16(val));
      assert header + PcmBytes(waveform[..i]) + Le16(val) == header + (PcmBytes(waveform[..i]) + Le16(val));
      i := i + 1;
    }
    assert waveform[..|waveform|] == waveform;
    return false;
  }

  lemma ClippedIs(x: real, s: real)
    requires s == if x > 1.0 then 1.0 else if x < -1.0 then -1.0 else x
    ensures Round(s * 32767.0) == Quantize(x)
  {
    hide Round;
  }

  /** The space reserved is that of all samples exactly when the channels divide them, or outnumber them. */
  lemma Division(n: nat, channels: nat)
    requires channels >= 1
    ensures n / channels == 0 <==> n < channels
    ensures n / channels * channels == n - n % channels
  {
  }

  /** What a caller gets back who writes a waveform and reads it: the same samples up to one and a half
      steps of the 16-bit scale, under the same rate and channels. */
  lemma EncodedReadsBack(waveform: seq<real>, channels: nat, sampleRate: nat, i: nat)
    requires 1 <= channels < 0x1_0000 && sampleRate < 0x1_0000_0000 && 2 * |waveform| < 0x1_0000_0000
    requires |waveform| >= channels && i < |waveform|
    ensures var r := ParseFile(FileOf(waveform, WrittenChannels(|waveform|, channels), sampleRate));
      && r.Wave? && r.samples.Pcm? && r.channels == channels && r.sampleRate == sampleRate
      && |r.samples.values| == |waveform|
      && -1.5 / 32768.0 <= r.samples.values[i] - Clip(waveform[i]) <= 1.5 / 32768.0
  {
    hide ParseFile, FileOf, FileWith, Quantize, Dequantize, Clip;
    Division(|waveform|, channels);
    FileIsPlain(waveform, channels, sampleRate);
    FileReadsBack(waveform, channels, sampleRate, 36 + 2 * |waveform|, [], []);
    SampleBound(waveform[i]);
  }

  // ----- Reading -----

  /** An open file: its bytes, and how far it has been read. */
  class File {
    const bytes: seq<byte>
    var pos: nat

    function Rest(): seq<byte>
      reads this
    {
      Drop(bytes, pos)
    }

    constructor (bytes: seq<byte>)
      ensures this.bytes == bytes && pos == 0 && Rest() == bytes
    {
      this.bytes, pos := bytes, 0;
    }

    /** Read into a new buffer of n bytes; what the file does not have stays zero. */
    method Read(n: nat) returns (buf: seq<byte>, ok: bool)
      modifies this
      ensures ok <==> !ReadFails(old(Rest()), n)
      ensures buf == Filled(old(Rest()), n)
      ensures Rest() == Drop(old(Rest()), n)
      ensures pos >= old(pos)
    {
      var left := if pos <= |bytes| then |bytes| - pos else 0;
      var got := if n <= left then n else left;
      ok := !(left == 0 && n > 0);
      buf := if pos <= |bytes| then bytes[pos..pos + got] + seq(n - got, _ => 0) else seq(n, _ => 0);
      pos := pos + got;
    }

    method Skip(n: nat)
      modifies this
      ensures Rest() == Drop(old(Rest()), n)
    {
      pos := pos + n;
    }
  }

  /** Read a file: its format chunk, stepping over unknown chunks, and the data. */
  method ReadRIFFWAV(bytes: seq<byte>) returns (result: Outcome)
    ensures result == ParseFile(bytes)
  {
    hide FormatOf, SamplesOf, Read32, Read16, Filled, Drop;
    var f := new File(bytes);
    var header, ok := f.Read(12);
    if !ok {
      return Failed;
    }
    if header[..4] != RIFF || header[8..12] != WAVE {
      return Failed;
    }
    var format := NO_FORMAT;
    var dataSize := 0;
    while true
      invariant ParseFile(bytes) == ParseChunks(f.Rest(), format)
      decreases |f.Rest()|
    {
      ghost var before := f.Rest();
      var chunkHeader;
      chunkHeader, ok := f.Read(8);
      if !ok {
        return Failed;
      }
      var chunkID, chunkSize := chunkHeader[..4], Read32(chunkHeader, 4);
      ghost var rest := f.Rest();
      if chunkID == FMT {
        var fmtData;
        fmtData, ok := f.Read(chunkSize);
        if !ok {
          return Failed;
        }
        if chunkSize < 16 {
          return Panics;
        }
        format := FormatOf(fmtData);
        if chunkSize % 2 == 1 {
          f.Skip(1);
        }
        DropTwice(rest, chunkSize, chunkSize % 2);
      } else if chunkID == DATA {
        var data;
        data, ok := f.Read(chunkSize);
        if !ok {
          return Failed;
        }
        return Wave(SamplesOf(data, format), format.channels, format.sampleRate);
      } else {
        var pad := chunkSize % 2;
        f.Skip(chunkSize + pad);
      }
    }
  }

  lemma DropTwice(s: seq<byte>, m: nat, n: nat)
    ensures Drop(Drop(s, m), n) == Drop(s, m + n)
  {
  }

  // ----- Channels -----

  /** Interleave channels, as far as the shortest goes: sample i of channel c stands at i * channels + c. */
  method MergeAudioChannels(channelArrays: seq<seq<real>>) returns (result: seq<real>, ghost minLen: nat)
    ensures channelArrays == [] ==> result == []
    ensures channelArrays != [] ==>
      && (forall c | 0 <= c < |channelArrays| :: minLen <= |channelArrays[c]|)
      && (exists c | 0 <= c < |channelArrays| :: minLen == |channelArrays[c]|)
      && IsInterleaved(channelArrays, result, minLen)
  {
    if |channelArrays| == 0 {
      return [], 0;
    }
    if |channelArrays| == 1 {
      minLen := |channelArrays[0]|;
      result := channelArrays[0];
      OneChannel(channelArrays, result);
      return;
    }
    var n := |channelArrays|;
    var len := ShortestLength(channelArrays);
    minLen := len;
    var merged := new real[len * n];
    var c := 0;
    while c < n
      invariant 0 <= c <= n
      invariant forall d, j | 0 <= d < c && 0 <= j < len :: At(merged[..], j, n, d, channelArrays[d][j])
    {
      ghost var was := merged[..];
      PutChannel(merged, len, n, c, channelArrays[c]);
      forall d, j | 0 <= d < c && 0 <= j < len ensures At(merged[..], j, n, d, channelArrays[d][j]) {
        assert At(was, j, n, d, channelArrays[d][j]);
        IndexOfChannel(j, n, d);
      }
      c := c + 1;
    }
    result := merged[..];
  }

  method ShortestLength(channelArrays: seq<seq<real>>) returns (len: nat)
    requires channelArrays != []
    ensures forall c | 0 <= c < |channelArrays| :: len <= |channelArrays[c]|
    ensures exists c | 0 <= c < |channelArrays| :: len == |channelArrays[c]|
  {
    len := |channelArrays[0]|;
    var k := 1;
    while k < |channelArrays|
      invariant 1 <= k <= |channelArrays|
      invariant forall c | 0 <= c < k :: len <= |channelArrays[c]|
      invariant exists c | 0 <= c < k :: len == |channelArrays[c]|
    {
      if |channelArrays[k]| < len {
        len := |channelArrays[k]|;
      }
      k := k + 1;
    }
  }

  /** Write one channel to its places, and to no others. */
  method PutChannel(merged: array<real>, len: nat, n: nat, c: nat, channel: seq<real>)
    requires c < n && len <= |channel| && merged.Length == len * n
    modifies merged
    ensures forall j | 0 <= j < len :: At(merged[..], j, n, c, channel[j])
    ensures forall p | 0 <= p < merged.Length && p % n != c :: merged[p] == old(merged[p])
  {
    var i := 0;
    while i < len
      invariant 0 <= i <= len
      invariant forall j | 0 <= j < i :: At(merged[..], j, n, c, channel[j])
      invariant forall p | 0 <= p < merged.Length && p % n != c :: merged[p] == old(merged[p])
    {
      IndexBelow(i, len, n, c);
      IndexOfChannel(i, n, c);
      ghost var was := merged[..];
      merged[i * n + c] := channel[i];
      forall j | 0 <= j < i ensures At(merged[..], j, n, c, channel[j]) {
        IndexApart(i, c, j, c, n);
        assert At(was, j, n, c, channel[j]);
      }
      i := i + 1;
    }
  }

  lemma IndexOfChannel(i: nat, n: nat, c: nat)
    requires c < n
    ensures i * n + c >= 0 && (i * n + c) % n == c
  {
    DivModUnique(i * n + c, n, i, c);
  }

  predicate At(s: seq<real>, j: nat, n: nat, c: nat, x: real) {
    j * n + c < |s| && s[j * n + c] == x
  }

  ghost predicate IsInterleaved(channels: seq<seq<real>>, s: seq<real>, len: nat)
    requires forall c | 0 <= c < |channels| :: len <= |channels[c]|
  {
    |s| == len * |channels| &&
    forall c, j | 0 <= c < |channels| && 0 <= j < len :: At(s, j, |channels|, c, channels[c][j])
  }

  /** The interleaved samples determine the channels: nothing is lost up to the shortest length. */
  lemma InterleavingIsInjective(a: seq<seq<real>>, b: seq<seq<real>>, s: seq<real>, len: nat)
    requires |a| == |b| && (forall c | 0 <= c < |a| :: len == |a[c]| == |b[c]|)
    requires IsInterleaved(a, s, len) && IsInterleaved(b, s, len)
    ensures a == b
  {
    forall c | 0 <= c < |a| ensures a[c] == b[c] {
      forall j | 0 <= j < len ensures a[c][j] == b[c][j] {
        assert At(s, j, |a|, c, a[c][j]) && At(s, j, |b|, c, b[c][j]);
      }
    }
  }

  lemma OneChannel(channels: seq<seq<real>>, s: seq<real>)
    requires |channels| == 1 && s == channels[0]
    ensures IsInterleaved(channels, s, |s|)
  {
  }

  lemma IndexBelow(i: nat, len: nat, n: nat, c: nat)
    requires i < len && c < n
    ensures 0 <= i * n + c < len * n
  {
    assert (i + 1) * n <= len * n;
  }

  lemma IndexApart(i: nat, c: nat, j: nat, d: nat, n: nat)
    requires c < n && d < n && (i != j || c != d)
    ensures i * n + c != j * n + d
  {
    if i < j {
      assert (i + 1) * n <= j * n;
    } else if j < i {
      assert (j + 1) * n <= i * n;
    }
  }
}
