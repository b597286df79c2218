/** Protocol frames (crates/moonlight-bridge-protocol/src/lib.rs): the 24-byte header, and a
    stream of bytes read back as frames. */
module Frames {
  import opened Common
  import opened Wire

  const MAGIC: nat := 0x4D4C_4252
  const VERSION: byte := 2
  const HEADER_LEN: nat := 24
  const FLAG_HAS_METADATA: nat := 1
  const U32_MAX: nat := 0xFFFF_FFFF

  datatype Kind =
    | Request | Response | Error | Hello | Welcome | Cancel | Ping | Pong | Goodbye | Health
    | HealthStatus | Event | StreamItem | StreamEnd | StreamCredit | GoAway

  function KindCode(kind: Kind): byte {
    match kind
    case Request => 1
    case Response => 2
    case Error => 3
    case Hello => 16
    case Welcome => 17
    case Cancel => 18
    case Ping => 19
    case Pong => 20
    case Goodbye => 21
    case Health => 22
    case HealthStatus => 23
    case Event => 24
    case StreamItem => 25
    case StreamEnd => 26
    case StreamCredit => 27
    case GoAway => 28
  }

  function KindOf(code: byte): Option<Kind> {
    match code
    case 1 => Some(Request)
    case 2 => Some(Response)
    case 3 => Some(Error)
    case 16 => Some(Hello)
    case 17 => Some(Welcome)
    case 18 => Some(Cancel)
    case 19 => Some(Ping)
    case 20 => Some(Pong)
    case 21 => Some(Goodbye)
    case 22 => Some(Health)
    case 23 => Some(HealthStatus)
    case 24 => Some(Event)
    case 25 => Some(StreamItem)
    case 26 => Some(StreamEnd)
    case 27 => Some(StreamCredit)
    case 28 => Some(GoAway)
    case _ => None
  }

  /** flags is an unsigned 16-bit, methodId a 32-bit and requestId a 64-bit number. */
  datatype Frame = Frame(kind: Kind, flags: nat, methodId: nat, requestId: nat, body: bytes)

  /** The field ranges, and no flag bit but the known one. */
  predicate Sound(f: Frame) {
    && (f.flags == 0 || f.flags == FLAG_HAS_METADATA)
    && f.methodId < 0x1_0000_0000 && f.requestId < 0x1_0000_0000_0000_0000
  }

  datatype FrameError = InvalidMagic | UnsupportedVersion | UnknownKind | UnsupportedFlags | BodyTooLarge

  datatype Header = Header(kind: Kind, flags: nat, bodyLen: nat, methodId: nat, requestId: nat)

  function HeaderOf(f: Frame): Header {
    Header(f.kind, f.flags, |f.body|, f.methodId, f.requestId)
  }

  function HeaderBytes(h: Header): (s: bytes)
    ensures |s| == HEADER_LEN
  {
    BigEndian(MAGIC, 4) + [VERSION] + [KindCode(h.kind)] + BigEndian(h.flags, 2) + BigEndian(h.bodyLen, 4)
    + BigEndian(h.methodId, 4) + BigEndian(h.requestId, 8)
  }

  function FrameBytes(f: Frame): bytes {
    HeaderBytes(HeaderOf(f)) + f.body
  }

  /** `Frame::encode_into`, as the bytes it appends. */
  function EncodeFrame(f: Frame): Result<bytes, FrameError> {
    if f.flags != 0 && f.flags != FLAG_HAS_METADATA then Err(UnsupportedFlags)
    else if |f.body| > U32_MAX then Err(BodyTooLarge)
    else Ok(FrameBytes(f))
  }

  function DecodeHeader(header: bytes, maxBody: nat): Result<Header, FrameError>
    requires |header| == HEADER_LEN
  {
    if Number(header[0..4]) != MAGIC then Err(InvalidMagic)
    else if header[4] != VERSION then Err(UnsupportedVersion)
    else if KindOf(header[5]).None? then Err(UnknownKind)
    else
      var flags := Number(header[6..8]);
      if flags != 0 && flags != FLAG_HAS_METADATA then Err(UnsupportedFlags)
      else
        var bodyLen := Number(header[8..12]);
        if bodyLen > maxBody then Err(BodyTooLarge)
        else Ok(Header(KindOf(header[5]).value, flags, bodyLen, Number(header[12..16]), Number(header[16..24])))
  }

  lemma HeaderParts(h: Header)
    ensures var s := HeaderBytes(h);
      && s[0..4] == BigEndian(MAGIC, 4) && s[4] == VERSION && s[5] == KindCode(h.kind)
      && s[6..8] == BigEndian(h.flags, 2)
      && s[8..12] == BigEndian(h.bodyLen, 4) && s[12..16] == BigEndian(h.methodId, 4)
      && s[16..24] == BigEndian(h.requestId, 8)
  {
  }

  /** A written header reads back, unless the body is over the reader's limit. */
  lemma HeaderReadsBack(f: Frame, maxBody: nat)
    requires Sound(f) && |f.body| <= U32_MAX
    ensures DecodeHeader(HeaderBytes(HeaderOf(f)), maxBody) ==
      if |f.body| > maxBody then Err(BodyTooLarge) else Ok(HeaderOf(f))
  {
    HeaderParts(HeaderOf(f));
    HeaderNumbers(HeaderOf(f));
    DecodeParts(HeaderBytes(HeaderOf(f)), HeaderOf(f), maxBody);
  }

  lemma DecodeParts(s: bytes, h: Header, maxBody: nat)
    requires |s| == HEADER_LEN && Number(s[0..4]) == MAGIC && s[4] == VERSION && s[5] == KindCode(h.kind)
    requires Number(s[6..8]) == h.flags && Number(s[8..12]) == h.bodyLen && h.flags <= FLAG_HAS_METADATA
    requires Number(s[12..16]) == h.methodId && Number(s[16..24]) == h.requestId
    ensures DecodeHeader(s, maxBody) == if h.bodyLen > maxBody then Err(BodyTooLarge) else Ok(h)
  {
  }

  lemma HeaderNumbers(h: Header)
    requires h.flags <= FLAG_HAS_METADATA && h.bodyLen <= U32_MAX
    requires h.methodId < 0x1_0000_0000 && h.requestId < 0x1_0000_0000_0000_0000
    ensures Number(BigEndian(MAGIC, 4)) == MAGIC && Number(BigEndian(h.flags, 2)) == h.flags
    ensures Number(BigEndian(h.bodyLen, 4)) == h.bodyLen
    ensures Number(BigEndian(h.methodId, 4)) == h.methodId && Number(BigEndian(h.requestId, 8)) == h.requestId
  {
    Capacities();
    NumberOfBigEndian(MAGIC, 4);
    NumberOfBigEndian(h.flags, 2);
    NumberOfBigEndian(h.bodyLen, 4);
    NumberOfBigEndian(h.methodId, 4);
    NumberOfBigEndian(h.requestId, 8);
  }

  lemma KindsAgree(code: byte)
    ensures KindOf(code).Some? ==> KindCode(KindOf(code).value) == code
  {
  }

  lemma SmallNumbers(header: bytes)
    requires |header| == HEADER_LEN
    ensures Number(header[8..12]) <= U32_MAX && Number(header[12..16]) < 0x1_0000_0000
    ensures Number(header[16..24]) < 0x1_0000_0000_0000_0000
  {
    Capacities();
    NumberBound(header[8..12]);
    NumberBound(header[12..16]);
    NumberBound(header[16..24]);
  }

  /** And every header that reads is a written one. */
  lemma HeaderWasWritten(header: bytes, maxBody: nat)
    requires |header| == HEADER_LEN && DecodeHeader(header, maxBody).Ok?
    ensures var h := DecodeHeader(header, maxBody).value;
      && header == HeaderBytes(h) && h.bodyLen <= maxBody && h.bodyLen <= U32_MAX
      && (h.flags == 0 || h.flags == FLAG_HAS_METADATA)
      && h.methodId < 0x1_0000_0000 && h.requestId < 0x1_0000_0000_0000_0000
  {
    SmallNumbers(header);
    KindsAgree(header[5]);
    HeaderPieces(header);
  }

  lemma HeaderPieces(header: bytes)
    requires |header| == HEADER_LEN
    ensures header ==
      BigEndian(Number(header[0..4]), 4) + [header[4]] + [header[5]] + BigEndian(Number(header[6..8]), 2)
      + BigEndian(Number(header[8..12]), 4) + BigEndian(Number(header[12..16]), 4)
        + BigEndian(Number(header[16..24]), 8)
  {
    BigEndianOfNumber(header[0..4]);
    BigEndianOfNumber(header[6..8]);
    BigEndianOfNumber(header[8..12]);
    BigEndianOfNumber(header[12..16]);
    BigEndianOfNumber(header[16..24]);
    assert [header[4]] == header[4..5] && [header[5]] == header[5..6];
    SliceJoin(header, 0, 4, 5);
    SliceJoin(header, 0, 5, 6);
    SliceJoin(header, 0, 6, 8);
    SliceJoin(header, 0, 8, 12);
    SliceJoin(header, 0, 12, 16);
    SliceJoin(header, 0, 16, 24);
    assert header[0..24] == header;
  }

  // ---------------------------------------------------------------------------
  // Streams of frames

  /** `read_frame` at a position of a byte stream. */
  function ReadFrame(stream: bytes, position: nat, maxBody: nat): Option<(Frame, nat)>
    requires position <= |stream|
  {
    if |stream| - position < HEADER_LEN then None
    else
      var start := position + HEADER_LEN;
      var h := DecodeHeader(stream[position..start], maxBody);
      if h.Err? || start + h.value.bodyLen > |stream| then None
      else
        var end := start + h.value.bodyLen;
        Some((Frame(h.value.kind, h.value.flags, h.value.methodId, h.value.requestId, stream[start..end]), end))
  }

  function ReadFrames(stream: bytes, position: nat, maxBody: nat): Option<seq<Frame>>
    requires position <= |stream|
    decreases |stream| - position
  {
    if position == |stream| then Some([])
    else if ReadFrame(stream, position, maxBody).None? then None
    else
      var (f, end) := ReadFrame(stream, position, maxBody).value;
      var rest := ReadFrames(stream, end, maxBody);
      if rest.None? then None else Some([f] + rest.value)
  }

  predicate Readable(f: Frame, maxBody: nat) {
    Sound(f) && |f.body| <= maxBody && |f.body| <= U32_MAX
  }

  predicate AllReadable(fs: seq<Frame>, maxBody: nat) {
    forall i :: 0 <= i < |fs| ==> Readable(fs[i], maxBody)
  }

  lemma ReadFrameComplete(stream: bytes, position: nat, f: Frame, end: nat, maxBody: nat)
    requires position <= end <= |stream| && Readable(f, maxBody) && stream[position..end] == FrameBytes(f)
    ensures ReadFrame(stream, position, maxBody) == Some((f, end))
  {
    HeaderReadsBack(f, maxBody);
    FrameParts(stream, position, f, end);
  }

  lemma FrameParts(stream: bytes, position: nat, f: Frame, end: nat)
    requires position <= end <= |stream| && stream[position..end] == FrameBytes(f)
    ensures end == position + HEADER_LEN + |f.body|
    ensures stream[position..position + HEADER_LEN] == HeaderBytes(HeaderOf(f))
    ensures stream[position + HEADER_LEN..end] == f.body
  {
    SliceOfSlice(stream, position, end, 0, HEADER_LEN);
    SliceOfSlice(stream, position, end, HEADER_LEN, end - position);
    assert FrameBytes(f)[0..HEADER_LEN] == HeaderBytes(HeaderOf(f));
    assert FrameBytes(f)[HEADER_LEN..end - position] == f.body;
  }

  lemma ReadFrameSound(stream: bytes, position: nat, maxBody: nat)
    requires position <= |stream| && ReadFrame(stream, position, maxBody).Some?
    ensures var (f, end) := ReadFrame(stream, position, maxBody).value;
      position < end <= |stream| && Readable(f, maxBody) && stream[position..end] == FrameBytes(f)
  {
    var (f, end) := ReadFrame(stream, position, maxBody).value;
    var start := position + HEADER_LEN;
    HeaderWasWritten(stream[position..start], maxBody);
    SliceJoin(stream, position, start, end);
  }

  lemma {:induction false} StreamSound(stream: bytes, position: nat, maxBody: nat)
    requires position <= |stream| && ReadFrames(stream, position, maxBody).Some?
    ensures var fs := ReadFrames(stream, position, maxBody).value;
      AllReadable(fs, maxBody) && FlatMap(fs, FrameBytes) == stream[position..]
    decreases |stream| - position
  {
    if position < |stream| {
      ReadFrameSound(stream, position, maxBody);
      var (f, end) := ReadFrame(stream, position, maxBody).value;
      StreamSound(stream, end, maxBody);
      var rest := ReadFrames(stream, end, maxBody).value;
      assert ([f] + rest)[1..] == rest;
      SliceJoin(stream, position, end, |stream|);
    }
  }

  lemma {:induction false} StreamComplete(stream: bytes, position: nat, maxBody: nat, fs: seq<Frame>)
    requires position <= |stream| && AllReadable(fs, maxBody) && FlatMap(fs, FrameBytes) == stream[position..]
    ensures ReadFrames(stream, position, maxBody) == Some(fs)
    decreases |fs|
  {
    if fs != [] {
      var end := position + |FrameBytes(fs[0])|;
      FirstFrame(stream, position, fs, end);
      StreamComplete(stream, end, maxBody, fs[1..]);
      OneMoreFrame(stream, position, maxBody, fs[0], end, fs[1..]);
      assert fs == [fs[0]] + fs[1..];
    }
  }

  lemma OneMoreFrame(stream: bytes, position: nat, maxBody: nat, f: Frame, end: nat, rest: seq<Frame>)
    requires position < end <= |stream| && Readable(f, maxBody) && stream[position..end] == FrameBytes(f)
    requires ReadFrames(stream, end, maxBody) == Some(rest)
    ensures ReadFrames(stream, position, maxBody) == Some([f] + rest)
  {
    ReadFrameComplete(stream, position, f, end, maxBody);
  }

  /** The frames a stream of bytes reads as are the only ones it is the encoding of. */
  lemma StreamReadsIff(stream: bytes, maxBody: nat, fs: seq<Frame>)
    ensures ReadFrames(stream, 0, maxBody) == Some(fs) <==>
      AllReadable(fs, maxBody) && FlatMap(fs, FrameBytes) == stream
  {
    assert stream[0..] == stream;
    if ReadFrames(stream, 0, maxBody) == Some(fs) {
      StreamSound(stream, 0, maxBody);
    }
    if AllReadable(fs, maxBody) && FlatMap(fs, FrameBytes) == stream {
      StreamComplete(stream, 0, maxBody, fs);
    }
  }

  lemma FirstFrame(stream: bytes, position: nat, fs: seq<Frame>, end: nat)
    requires position <= |stream| && fs != [] && FlatMap(fs, FrameBytes) == stream[position..]
    requires end == position + |FrameBytes(fs[0])|
    ensures position < end <= |stream| && stream[position..end] == FrameBytes(fs[0])
    ensures FlatMap(fs[1..], FrameBytes) == stream[end..]
  {
    var first, rest := FrameBytes(fs[0]), FlatMap(fs[1..], FrameBytes);
    assert stream[position..] == first + rest;
    assert stream[position..end] == stream[position..][..|first|] == first;
    assert stream[end..] == stream[position..][|first|..] == rest;
  }
}
