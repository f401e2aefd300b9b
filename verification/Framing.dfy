/**
 The frame format between the main process and its workers (pkg/worker/frame.go): a four-byte
 big-endian header length, the header, and the raw audio the header announces.

 The header codec (JSON in the program) is a parameter that is only required to round-trip.
 */
module Framing {
  import opened Options
  import opened Words

  /** A response header: its routing fields, the audio it announces, and everything else. */
  datatype Response = Response(id: int, kind: string, hasAudio: bool, audioSamples: int, channels: int, other: string)

  datatype Codec = Codec(enc: Response -> seq<byte>, dec: seq<byte> -> Option<Response>)

  ghost predicate RoundTrips(codec: Codec) {
    forall r: Response :: codec.dec(codec.enc(r)) == Some(r)
  }

  datatype Message = Message(resp: Response, attachment: seq<byte>)

  const MAX_HEADER: nat := 10 * 1024 * 1024

  // ----- Length prefix -----

  function BigEndian(n: uint32): (b: seq<byte>)
    ensures |b| == 4
  {
    var q1: nat := n / 256;
    var q2: nat := q1 / 256;
    var q3: nat := q2 / 256;
    [q3, q2 % 256, q1 % 256, n % 256]
  }

  function FromBigEndian(b: seq<byte>): nat
    requires |b| == 4
  {
    var b3: nat, b2: nat, b1: nat, b0: nat := b[0], b[1], b[2], b[3];
    ((b3 * 256 + b2) * 256 + b1) * 256 + b0
  }

  lemma BigEndianReadsBack(n: uint32)
    ensures FromBigEndian(BigEndian(n)) == n
    ensures var b := BigEndian(n); n == b[0] as int * 16777216 + b[1] as int * 65536 + b[2] as int * 256 + b[3] as int
  {
    var q1 := n / 256;
    var q2 := q1 / 256;
    assert n == q1 * 256 + n % 256;
    assert q1 == q2 * 256 + q1 % 256;
    assert q2 == q2 / 256 * 256 + q2 % 256;
  }

  // ----- Writing and reading one frame -----

  /** WriteFrame: the length is converted to 32 bits, the attachment follows without a length of its own. */
  function Frame(codec: Codec, m: Message): seq<byte> {
    var header := codec.enc(m.resp);
    BigEndian(|header| % TWO32) + header + m.attachment
  }

  /** The attachment length the reader derives from the header. */
  function AudioBytes(r: Response): nat {
    if r.hasAudio && r.audioSamples * r.channels * 4 > 0 then r.audioSamples * r.channels * 4 else 0
  }

  /** ReadResponse on the unread bytes: a message and the bytes behind it, or an error. */
  function ReadOne(codec: Codec, s: seq<byte>): Option<(Message, seq<byte>)> {
    if |s| < 4 then None
    else
      var n := FromBigEndian(s[..4]);
      if n > MAX_HEADER || |s| < 4 + n then None
      else
        match codec.dec(s[4..4 + n])
        case None => None
        case Some(r) =>
          var k := AudioBytes(r);
          if |s| < 4 + n + k then None
          else Some((Message(r, s[4 + n..4 + n + k]), s[4 + n + k..]))
  }

  /** The frame is readable: the header is within the limit and announces exactly the attachment. */
  predicate WellFramed(codec: Codec, m: Message) {
    |codec.enc(m.resp)| <= MAX_HEADER && |m.attachment| == AudioBytes(m.resp)
  }

  /** A header announces four bytes for each sample of each channel, and none where that is not positive. */
  ghost predicate Announces(r: Response, k: nat) {
    if r.hasAudio && r.audioSamples * r.channels > 0 then k == r.audioSamples * r.channels * 4 else k == 0
  }

  lemma AudioBytesAnnounced(r: Response, k: nat)
    ensures Announces(r, k) <==> k == AudioBytes(r)
  {
    var samples := r.audioSamples * r.channels;
    assert samples * 4 > 0 <==> samples > 0;
  }

  /** Reading gives back what was written, with the following bytes untouched, exactly when the
      header is at most 10 MB long and announces the attachment's length. */
  lemma FrameReadsBack(codec: Codec, m: Message, rest: seq<byte>)
    requires RoundTrips(codec)
    ensures ReadOne(codec, Frame(codec, m) + rest) == Some((m, rest)) <==> WellFramed(codec, m)
    ensures WellFramed(codec, m) <==> |codec.enc(m.resp)| <= 10485760 && Announces(m.resp, |m.attachment|)
  {
    hide BigEndian, FromBigEndian, AudioBytes, Announces;
    AudioBytesAnnounced(m.resp, |m.attachment|);
    var header := codec.enc(m.resp);
    var n: uint32 := |header| % TWO32;
    var s := Frame(codec, m) + rest;
    BigEndianReadsBack(n);
    assert s[..4] == BigEndian(n);
    if WellFramed(codec, m) {
      var k := |m.attachment|;
      assert n == |header|;
      assert s[4..4 + n] == header;
      assert s[4 + n..4 + n + k] == m.attachment;
      assert s[4 + n + k..] == rest;
    }
    ReadOneLengths(codec, s);
    assert |s| == 4 + |header| + |m.attachment| + |rest|;
  }

  /** The bytes that a read leaves, also when it fails: what it waited for in vain is gone. */
  function Left(codec: Codec, s: seq<byte>): seq<byte> {
    if |s| < 4 then []
    else
      var n := FromBigEndian(s[..4]);
      if n > MAX_HEADER then s[4..]
      else if |s| < 4 + n then []
      else
        match codec.dec(s[4..4 + n])
        case None => s[4 + n..]
        case Some(r) => if |s| < 4 + n + AudioBytes(r) then [] else s[4 + n + AudioBytes(r)..]
  }

  /** A failed read leaves what is behind the length of a header that is too long, or behind a header that cannot be
      decoded; a header or an attachment that never becomes complete is used up. */
  lemma FailedReadLeaves(codec: Codec, n: uint32, rest: seq<byte>)
    ensures n > 10485760 ==> ReadOne(codec, BigEndian(n) + rest) == None && Left(codec, BigEndian(n) + rest) == rest
    ensures |rest| < n <= 10485760 ==> ReadOne(codec, BigEndian(n) + rest) == None && Left(codec, BigEndian(n) + rest) == []
    ensures n <= 10485760 && n <= |rest| && codec.dec(rest[..n]) == None ==>
      ReadOne(codec, BigEndian(n) + rest) == None && Left(codec, BigEndian(n) + rest) == rest[n..]
    ensures n <= 10485760 && n <= |rest| && codec.dec(rest[..n]).Some? ==>
      var r := codec.dec(rest[..n]).value;
      forall k: nat | Announces(r, k) ::
        if |rest| < n + k then
          ReadOne(codec, BigEndian(n) + rest) == None && Left(codec, BigEndian(n) + rest) == []
        else
          && ReadOne(codec, BigEndian(n) + rest) == Some((Message(r, rest[n..n + k]), rest[n + k..]))
          && Left(codec, BigEndian(n) + rest) == rest[n + k..]
  {
    hide BigEndian, FromBigEndian, AudioBytes, Announces;
    var s := BigEndian(n) + rest;
    BigEndianReadsBack(n);
    assert s[..4] == BigEndian(n) && s[4..] == rest && |s| == 4 + |rest|;
    if n <= 10485760 && n <= |rest| {
      assert s[4..4 + n] == rest[..n] && s[4 + n..] == rest[n..];
      if codec.dec(rest[..n]).Some? {
        var r := codec.dec(rest[..n]).value;
        forall k: nat | Announces(r, k) && n + k <= |rest|
          ensures k == AudioBytes(r) && s[4 + n..4 + n + k] == rest[n..n + k] && s[4 + n + k..] == rest[n + k..]
        {
          AudioBytesAnnounced(r, k);
        }
        forall k: nat | Announces(r, k) ensures k == AudioBytes(r) {
          AudioBytesAnnounced(r, k);
        }
      }
    }
  }

  /** What a successful read says about lengths. */
  lemma ReadOneLengths(codec: Codec, s: seq<byte>)
    requires |s| >= 4
    ensures match ReadOne(codec, s)
            case None => true
            case Some((m, rest)) =>
              var n := FromBigEndian(s[..4]);
              && n <= MAX_HEADER && |m.attachment| == AudioBytes(m.resp)
              && |s| == 4 + n + |m.attachment| + |rest|
  {
  }

  // ----- A stream of frames -----

  function Frames(codec: Codec, ms: seq<Message>): seq<byte> {
    if ms == [] then [] else Frame(codec, ms[0]) + Frames(codec, ms[1..])
  }

  /** Everything the reader gets out of the bytes before the first error. */
  function ReadAll(codec: Codec, s: seq<byte>): seq<Message>
    decreases |s|
  {
    match ReadOne(codec, s)
    case None => []
    case Some((m, rest)) =>
      ReadOneConsumes(codec, s);
      [m] + ReadAll(codec, rest)
  }

  lemma ReadOneConsumes(codec: Codec, s: seq<byte>)
    ensures ReadOne(codec, s).Some? ==> |ReadOne(codec, s).value.1| < |s|
  {
  }

  /** Frames written back to back are read back as the same messages, in order, also when something
      unreadable follows them. */
  lemma {:induction false} FramesReadBack(codec: Codec, ms: seq<Message>, tail: seq<byte>)
    requires RoundTrips(codec) && forall m | m in ms :: WellFramed(codec, m)
    requires ReadOne(codec, tail) == None
    ensures ReadAll(codec, Frames(codec, ms) + tail) == ms
  {
    hide ReadOne, Frame, WellFramed;
    if ms == [] {
      assert Frames(codec, ms) + tail == tail;
    } else {
      FramesReadBack(codec, ms[1..], tail);
      FrameReadsBack(codec, ms[0], Frames(codec, ms[1..]) + tail);
      assert Frames(codec, ms) + tail == Frame(codec, ms[0]) + (Frames(codec, ms[1..]) + tail);
    }
  }

  /** A first part of a readable frame is not readable: the reader waits for the rest of it. */
  lemma FirstPartIsUnreadable(codec: Codec, m: Message, n: nat)
    requires RoundTrips(codec) && WellFramed(codec, m) && n < |Frame(codec, m)|
    ensures ReadOne(codec, Frame(codec, m)[..n]) == None
  {
    hide BigEndian, FromBigEndian, AudioBytes;
    var header := codec.enc(m.resp);
    var s := Frame(codec, m)[..n];
    if n >= 4 {
      BigEndianReadsBack(|header|);
      assert s[..4] == BigEndian(|header| % TWO32);
      if n >= 4 + |header| {
        assert s[4..4 + |header|] == header;
      }
    }
  }

  lemma NothingToRead(codec: Codec)
    ensures ReadOne(codec, []) == None
  {
  }

  // ----- The worker's audio frames -----

  /** The message a worker sends for a waveform of `len` interleaved samples: the attachment is the raw
      32-bit samples, the header counts samples per channel. */
  function AudioMessage(id: int, kind: string, channels: nat, bytes: seq<byte>, other: string): Message
    requires channels > 0 && |bytes| % 4 == 0
  {
    Message(Response(id, kind, |bytes| > 0, |bytes| / 4 / channels, channels, other), bytes)
  }

  /** Such a frame announces its attachment exactly when the channels divide the number of samples. */
  lemma AudioMessageWellFramed(codec: Codec, id: int, kind: string, channels: nat, bytes: seq<byte>, other: string)
    requires channels > 0 && |bytes| % 4 == 0
    requires |codec.enc(AudioMessage(id, kind, channels, bytes, other).resp)| <= MAX_HEADER
    ensures WellFramed(codec, AudioMessage(id, kind, channels, bytes, other)) <==> |bytes| / 4 % channels == 0
    ensures var m := AudioMessage(id, kind, channels, bytes, other);
      && m.attachment == bytes && m.resp.id == id && m.resp.kind == kind && m.resp.other == other
      && (m.resp.hasAudio <==> bytes != []) && m.resp.channels == channels
      && 0 <= |bytes| - m.resp.audioSamples * channels * 4 < channels * 4
  {
    var n := |bytes| / 4;
    assert n == n / channels * channels + n % channels;
    assert n / channels * channels >= 0;
  }

  // ----- A connection -----

  /** The messages of one writer, in order, out of a log of all writes. */
  function WrittenBy(log: seq<(nat, Message)>, writer: nat): seq<Message> {
    if log == [] then []
    else WrittenBy(log[..|log| - 1], writer) + (if log[|log| - 1].0 == writer then [log[|log| - 1].1] else [])
  }

  function Messages(log: seq<(nat, Message)>): (ms: seq<Message>)
    ensures |ms| == |log| && forall i | 0 <= i < |log| :: ms[i] == log[i].1
  {
    if log == [] then [] else Messages(log[..|log| - 1]) + [log[|log| - 1].1]
  }

  lemma {:induction false} FramesAppend(codec: Codec, ms: seq<Message>, m: Message)
    ensures Frames(codec, ms + [m]) == Frames(codec, ms) + Frame(codec, m)
  {
    hide Frame;
    if ms == [] {
      assert ms + [m] == [m];
      assert Frames(codec, [m]) == Frame(codec, m) + Frames(codec, []);
    } else {
      FramesAppend(codec, ms[1..], m);
      assert (ms + [m])[1..] == ms[1..] + [m];
    }
  }

  /** One end of a connection: whole writes and reads, one after another. `Writers` has the steps of
      several goroutines that write under a lock. */
  class Connection {
    const codec: Codec
    var stream: seq<byte>
    ghost var log: seq<(nat, Message)>

    ghost predicate Valid()
      reads this
    {
      stream == Frames(codec, Messages(log))
    }

    constructor (codec: Codec)
      ensures Valid() && this.codec == codec && log == []
    {
      this.codec := codec;
      stream := [];
      log := [];
    }

    /** WriteResponse: length, header and attachment make up one frame. */
    method WriteResponse(m: Message, ghost writer: nat)
      requires Valid()
      modifies this
      ensures Valid() && log == old(log) + [(writer, m)]
      ensures stream == old(stream) + Frame(codec, m)
      ensures forall w: nat :: WrittenBy(log, w) == WrittenBy(old(log), w) + (if w == writer then [m] else [])
    {
      hide BigEndian, Frames;
      var header := codec.enc(m.resp);
      stream := stream + BigEndian(|header| % TWO32);
      stream := stream + header;
      if |m.attachment| > 0 {
        stream := stream + m.attachment;
      }
      log := log + [(writer, m)];
      assert log[..|log| - 1] == old(log);
      assert Messages(log) == Messages(old(log)) + [m];
      FramesAppend(codec, Messages(old(log)), m);
    }

    /** ReadResponse: take one message off the front of the stream. */
    method ReadResponse() returns (r: Option<Message>)
      modifies `stream
      ensures match ReadOne(codec, old(stream))
              case Some((m, rest)) => r == Some(m) && stream == rest
              case None => r == None
      ensures stream == Left(codec, old(stream))
    {
      if |stream| < 4 {
        stream := [];
        return None;
      }
      var headerLen := FromBigEndian(stream[..4]);
      if headerLen > MAX_HEADER {
        stream := stream[4..];
        return None;
      }
      if |stream| < 4 + headerLen {
        stream := [];
        return None;
      }
      var resp := codec.dec(stream[4..4 + headerLen]);
      if resp.None? {
        stream := stream[4 + headerLen..];
        return None;
      }
      var attachment: seq<byte> := [];
      var taken := 4 + headerLen;
      if resp.value.hasAudio {
        var audioBytes := resp.value.audioSamples * resp.value.channels * 4;
        if audioBytes > 0 {
          if |stream| < taken + audioBytes {
            stream := [];
            return None;
          }
          attachment := stream[taken..taken + audioBytes];
          taken := taken + audioBytes;
        }
      }
      assert attachment == stream[4 + headerLen..taken];
      stream := stream[taken..];
      return Some(Message(resp.value, attachment));
    }
  }
}
