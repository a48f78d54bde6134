/** The frame format of `src/transport/protocol.rs`: type, big-endian length, payload. */
module Protocol {
  import opened Wrappers
  import opened Bytes
  import opened Streams

  const MAX_FRAME_SIZE: nat := 1024 * 1024 + 4096
  const MAX_FILE_NAME_LEN: nat := 255
  const MAX_MIME_TYPE_LEN: nat := 127

  datatype FrameType = Hello | Session | Offer | Accept | Reject | Chunk | Complete | Cancel | Verified

  /** The enum's discriminant. */
  function Code(t: FrameType): byte {
    match t
    case Hello => 1
    case Session => 2
    case Offer => 3
    case Accept => 4
    case Reject => 5
    case Chunk => 6
    case Complete => 7
    case Cancel => 8
    case Verified => 9
  }

  function TryFrom(value: byte): (r: Result<FrameType>)
    ensures forall t :: r == Ok(t) <==> value == Code(t)
    ensures r.Ok? <==> 1 <= value <= 9
  {
    match value
    case 1 => Ok(Hello)
    case 2 => Ok(Session)
    case 3 => Ok(Offer)
    case 4 => Ok(Accept)
    case 5 => Ok(Reject)
    case 6 => Ok(Chunk)
    case 7 => Ok(Complete)
    case 8 => Ok(Cancel)
    case 9 => Ok(Verified)
    case _ => Err("unknown frame type")
  }

  datatype Frame = Frame(frameType: FrameType, payload: seq<byte>)

  predicate Sendable(f: Frame) {
    |f.payload| <= MAX_FRAME_SIZE
  }

  function NewFrame(t: FrameType, payload: seq<byte>): Result<Frame> {
    if |payload| > MAX_FRAME_SIZE then Err("frame payload exceeds maximum size") else Ok(Frame(t, payload))
  }

  /** The bytes of a frame that fits. */
  function Wire(f: Frame): (w: seq<byte>)
    requires Sendable(f)
    ensures |w| == 5 + |f.payload|
  {
    WordLimits();
    [Code(f.frameType)] + BigEndian(|f.payload|, 4) + f.payload
  }

  function Encode(f: Frame): Result<seq<byte>> {
    if Sendable(f) then Ok(Wire(f)) else Err("frame payload exceeds maximum size")
  }

  function Decode(data: seq<byte>): Result<Frame> {
    if |data| < 1 then Err("truncated frame type")
    else
      var t :- TryFrom(data[0]);
      if |data| < 5 then Err("truncated frame length")
      else
        var length := FromBigEndian(data[1..5]);
        if length > MAX_FRAME_SIZE then Err("frame payload exceeds maximum size")
        else if |data| != 5 + length then Err("frame length does not match payload")
        else Ok(Frame(t, data[5..]))
  }

  /** `Frame::encode`, pushing onto its output. */
  method EncodeFrame(f: Frame) returns (r: Result<seq<byte>>)
    ensures r == Encode(f)
  {
    if |f.payload| > MAX_FRAME_SIZE {
      return Err("frame payload exceeds maximum size");
    }
    WordLimits();
    var output := [Code(f.frameType)];
    output := output + BigEndian(|f.payload|, 4);
    output := output + f.payload;
    r := Ok(output);
  }

  /** `Frame::decode`, moving a cursor over the data. */
  method DecodeFrame(data: seq<byte>) returns (r: Result<Frame>)
    ensures r == Decode(data)
  {
    var reader := new Cursor(data);
    var kind :- reader.ReadExact(1, "truncated frame type");
    var frameType :- TryFrom(kind[0]);
    var length :- reader.ReadExact(4, "truncated frame length");
    var payloadLen := FromBigEndian(length);
    assert length == data[1..5];
    if payloadLen > MAX_FRAME_SIZE {
      return Err("frame payload exceeds maximum size");
    }
    if |data| != 5 + payloadLen {
      return Err("frame length does not match payload");
    }
    assert data[5..5 + payloadLen] == data[5..];
    var payload := reader.ReadExact(payloadLen, "truncated frame payload");
    r := match payload
      case Ok(bytes) => Ok(Frame(frameType, bytes))
      case Err(e) => Err(e);
  }

  /** Decoding accepts exactly the encodings, each for its own frame only. */
  lemma DecodeExact(data: seq<byte>, f: Frame)
    ensures Decode(data) == Ok(f) <==> Encode(f) == Ok(data)
  {
    if Decode(data) == Ok(f) {
      FromBigEndianRoundTrip(data[1..5]);
      assert data == [data[0]] + data[1..5] + data[5..];
    }
    if Encode(f) == Ok(data) {
      WordLimits();
      BigEndianRoundTrip(|f.payload|, 4);
      assert data[1..5] == BigEndian(|f.payload|, 4);
    }
  }

  /** What reading one frame off the front of a stream finds. */
  datatype FrameRead =
    | Got(frame: Frame, rest: seq<byte>)
    | NeedMore
    | TooLarge
    | Malformed(error: string)

  /** The reading discipline of `read_frame` and `read_offer`: five bytes, then as many as they announce. */
  function TakeFrame(stream: seq<byte>): FrameRead {
    if |stream| < 5 then NeedMore
    else
      var length := FromBigEndian(stream[1..5]);
      if length > MAX_FRAME_SIZE then TooLarge
      else if |stream| < 5 + length then NeedMore
      else match Decode(stream[..5 + length])
        case Ok(f) => Got(f, stream[5 + length..])
        case Err(e) => Malformed(e)
  }

  /** A frame is read off a stream exactly when the stream starts with its encoding; what
      follows is left untouched, whatever it is. */
  lemma TakeFrameExact(stream: seq<byte>, f: Frame, rest: seq<byte>)
    ensures TakeFrame(stream) == Got(f, rest) <==> Sendable(f) && stream == Wire(f) + rest
  {
    if TakeFrame(stream) == Got(f, rest) {
      var length := FromBigEndian(stream[1..5]);
      DecodeExact(stream[..5 + length], f);
      assert stream == stream[..5 + length] + stream[5 + length..];
    }
    if Sendable(f) && stream == Wire(f) + rest {
      WordLimits();
      BigEndianRoundTrip(|f.payload|, 4);
      assert stream[1..5] == BigEndian(|f.payload|, 4);
      assert stream[..5 + |f.payload|] == Wire(f);
      DecodeExact(Wire(f), f);
      assert stream[5 + |f.payload|..] == rest;
    }
  }

  /** The other three outcomes: a length beyond the limit is noticed at once, a code that is none only
      when the whole frame is there, and everything else needs more bytes. */
  lemma TakeFrameFailures(stream: seq<byte>)
    ensures var r, n := TakeFrame(stream), |stream|;
      && (r == TooLarge <==> n >= 5 && FromBigEndian(stream[1..5]) > 1_052_672)
      && (r == NeedMore <==> n < 5 || (FromBigEndian(stream[1..5]) <= 1_052_672 && n < 5 + FromBigEndian(stream[1..5])))
      && (r.Malformed? ==> r.error == "unknown frame type")
      && (r.Malformed? || r.Got? ==> (r.Got? <==> 1 <= stream[0] <= 9))
  {
    hide FromBigEndian;
    if |stream| >= 5 && |stream| >= 5 + FromBigEndian(stream[1..5]) {
      assert stream[..5 + FromBigEndian(stream[1..5])][1..5] == stream[1..5];
    }
  }

  /** No encoding is a prefix of another, so file bytes after a frame are never taken for part of it. */
  lemma PrefixFree(f: Frame, g: Frame, x: seq<byte>, y: seq<byte>)
    requires Sendable(f) && Sendable(g)
    requires Wire(f) + x == Wire(g) + y
    ensures f == g && x == y
  {
    TakeFrameExact(Wire(f) + x, f, x);
    TakeFrameExact(Wire(g) + y, g, y);
  }

  /** A stream that stops inside a frame is never read as a frame. */
  lemma TruncatedNeedsMore(stream: seq<byte>, f: Frame)
    requires Sendable(f) && stream < Wire(f)
    ensures TakeFrame(stream) == NeedMore
  {
    if |stream| >= 5 {
      WordLimits();
      BigEndianRoundTrip(|f.payload|, 4);
      assert stream[1..5] == Wire(f)[1..5] == BigEndian(|f.payload|, 4);
    }
  }

  function WireAll(frames: seq<Frame>): seq<byte>
    requires forall f | f in frames :: Sendable(f)
  {
    if frames == [] then [] else Wire(frames[0]) + WireAll(frames[1..])
  }

  /** Reads `n` frames off a stream; `None` as soon as one of them cannot be read. */
  function TakeFrames(stream: seq<byte>, n: nat): Option<(seq<Frame>, seq<byte>)> {
    if n == 0 then Some(([], stream))
    else match TakeFrame(stream)
      case Got(f, rest) =>
        (match TakeFrames(rest, n - 1)
         case Some((fs, left)) => Some(([f] + fs, left))
         case None => None)
      case _ => None
  }

  lemma {:induction false} TakeFramesOfWireAll(frames: seq<Frame>, rest: seq<byte>)
    requires forall f | f in frames :: Sendable(f)
    ensures TakeFrames(WireAll(frames) + rest, |frames|) == Some((frames, rest))
  {
    hide Wire, TakeFrame;
    if frames == [] {
      assert WireAll(frames) + rest == rest;
    } else {
      var f, tail := frames[0], frames[1..];
      assert WireAll(frames) + rest == Wire(f) + (WireAll(tail) + rest);
      TakeFrameExact(WireAll(frames) + rest, f, WireAll(tail) + rest);
      TakeFramesOfWireAll(tail, rest);
      assert frames == [f] + tail;
    }
  }

  lemma {:induction false} WireAllOfTakeFrames(stream: seq<byte>, n: nat)
    decreases n
    requires TakeFrames(stream, n).Some?
    ensures var (frames, rest) := TakeFrames(stream, n).value;
      |frames| == n && (forall f | f in frames :: Sendable(f)) && stream == WireAll(frames) + rest
  {
    hide Wire, TakeFrame;
    var (frames, rest) := TakeFrames(stream, n).value;
    if n == 0 {
      assert WireAll(frames) + rest == stream;
    } else {
      var Got(f, left) := TakeFrame(stream);
      TakeFrameExact(stream, f, left);
      WireAllOfTakeFrames(left, n - 1);
      var tail := TakeFrames(left, n - 1).value.0;
      assert frames == [f] + tail && frames[1..] == tail;
      assert Wire(f) + (WireAll(tail) + rest) == WireAll(frames) + rest;
    }
  }

  /** Frame streams are uniquely decodable: `n` frames come off a stream exactly when it is
      their concatenated encodings followed by what is left. */
  lemma TakeFramesExact(stream: seq<byte>, frames: seq<Frame>, rest: seq<byte>)
    ensures TakeFrames(stream, |frames|) == Some((frames, rest))
       <==> (forall f | f in frames :: Sendable(f)) && stream == WireAll(frames) + rest
  {
    if TakeFrames(stream, |frames|).Some? {
      WireAllOfTakeFrames(stream, |frames|);
    }
    if (forall f | f in frames :: Sendable(f)) && stream == WireAll(frames) + rest {
      TakeFramesOfWireAll(frames, rest);
    }
  }

  // ---- The bytes written out

  /** The nine codes, and no others. */
  lemma CodesWrittenOut()
    ensures [Code(Hello), Code(Session), Code(Offer), Code(Accept), Code(Reject), Code(Chunk), Code(Complete),
             Code(Cancel), Code(Verified)] == [1, 2, 3, 4, 5, 6, 7, 8, 9]
    ensures forall b: byte | 1 <= b <= 9 ::
      TryFrom(b) == Ok([Hello, Session, Offer, Accept, Reject, Chunk, Complete, Cancel, Verified][b as int - 1])
  {
  }

  /** A frame is sendable up to 1,052,672 bytes of payload; its length goes out most significant byte first. */
  lemma FrameWrittenOut(f: Frame)
    ensures Sendable(f) <==> |f.payload| <= 1_052_672
    ensures NewFrame(f.frameType, f.payload) == Ok(f) <==> |f.payload| <= 1_052_672
    ensures Encode(f).Ok? <==> |f.payload| <= 1_052_672
    ensures var n := |f.payload|;
      Sendable(f) ==>
        Encode(f) == Ok([Code(f.frameType), (n / 0x100_0000) as byte, (n / 0x1_0000 % 256) as byte,
                         (n / 256 % 256) as byte, (n % 256) as byte] + f.payload)
  {
    if Sendable(f) {
      WordLimits();
      BigEndianFour(|f.payload|);
      hide BigEndian, Pow256;
      var code, length := Code(f.frameType), BigEndian(|f.payload|, 4);
      assert [code] + length == [code, length[0], length[1], length[2], length[3]];
    }
  }
}
