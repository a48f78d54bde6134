/** Transfer offers and their payload, after `src/transfer/offer.rs`. */
module Offers {
  import opened Wrappers
  import opened Bytes
  import opened Streams
  import opened Protocol
  import Utf8

  datatype TransferOffer = TransferOffer(transferId: Id, fileName: string, fileSize: u64, mimeType: string)

  /** `str::len`: the length of the encoding, not the number of characters. */
  function Len(s: string): nat {
    |Utf8.Encode(s)|
  }

  function ValidateFileName(name: string): Result<()> {
    if name == "" then Err("file name cannot be empty")
    else if Len(name) > MAX_FILE_NAME_LEN then Err("file name is too long")
    else if '\0' in name then Err("file name contains NUL byte")
    else if name == "." || name == ".." then Err("invalid file name")
    else if '/' in name || '\\' in name then Err("file name must not contain path separators")
    else Ok(())
  }

  function ValidateMimeType(mimeType: string): Result<()> {
    if mimeType == "" then Err("MIME type cannot be empty")
    else if Len(mimeType) > MAX_MIME_TYPE_LEN then Err("MIME type is too long")
    else if '\0' in mimeType then Err("MIME type contains NUL byte")
    else Ok(())
  }

  predicate Valid(o: TransferOffer) {
    ValidateFileName(o.fileName).Ok? && ValidateMimeType(o.mimeType).Ok?
  }

  function NewOffer(transferId: Id, fileName: string, fileSize: u64, mimeType: string): Result<TransferOffer> {
    var _ :- ValidateFileName(fileName);
    var _ :- ValidateMimeType(mimeType);
    Ok(TransferOffer(transferId, fileName, fileSize, mimeType))
  }

  /** The payload layout: id, length-prefixed name, size, length-prefixed MIME type. */
  function Payload(o: TransferOffer): (p: seq<byte>)
    requires Valid(o)
    ensures |p| == 28 + Len(o.fileName) + Len(o.mimeType)
    ensures |p| <= 410
  {
    WordLimits();
    o.transferId + BigEndian(Len(o.fileName), 2) + Utf8.Encode(o.fileName) + PayloadEnd(o)
  }

  function PayloadEnd(o: TransferOffer): (p: seq<byte>)
    requires Valid(o)
    ensures |p| == 10 + Len(o.mimeType)
  {
    WordLimits();
    BigEndian(o.fileSize, 8) + BigEndian(Len(o.mimeType), 2) + Utf8.Encode(o.mimeType)
  }

  function EncodePayload(o: TransferOffer): Result<seq<byte>> {
    var _ :- ValidateFileName(o.fileName);
    var _ :- ValidateMimeType(o.mimeType);
    Ok(Payload(o))
  }

  function DecodePayload(p: seq<byte>): Result<TransferOffer> {
    WordLimits();
    if |p| < 16 then Err("truncated transfer ID")
    else if |p| < 18 then Err("truncated u16")
    else
      var nameLen := FromBigEndian(p[16..18]);
      if nameLen > MAX_FILE_NAME_LEN then Err("file name is too long")
      else if |p| < 18 + nameLen then Err("truncated field")
      else match Utf8.Decode(p[18..18 + nameLen])
        case None => Err("file name is not valid UTF-8")
        case Some(name) => DecodeAfterName(p[..16], name, p[18 + nameLen..])
  }

  function DecodeAfterName(id: Id, name: string, p: seq<byte>): Result<TransferOffer> {
    WordLimits();
    if |p| < 8 then Err("truncated u64")
    else if |p| < 10 then Err("truncated u16")
    else
      var mimeLen := FromBigEndian(p[8..10]);
      if mimeLen > MAX_MIME_TYPE_LEN then Err("MIME type is too long")
      else if |p| < 10 + mimeLen then Err("truncated field")
      else match Utf8.Decode(p[10..10 + mimeLen])
        case None => Err("MIME type is not valid UTF-8")
        case Some(mime) =>
          if |p| != 10 + mimeLen then Err("unexpected bytes after transfer offer")
          else NewOffer(id, name, FromBigEndian(p[..8]), mime)
  }

  /** `TransferOffer::encode_payload`, appending field by field. */
  method WritePayload(o: TransferOffer) returns (r: Result<seq<byte>>)
    ensures r == EncodePayload(o)
  {
    var _ :- ValidateFileName(o.fileName);
    var _ :- ValidateMimeType(o.mimeType);
    WordLimits();
    var output := o.transferId;
    output := output + BigEndian(Len(o.fileName), 2);
    output := output + Utf8.Encode(o.fileName);
    output := output + BigEndian(o.fileSize, 8);
    output := output + BigEndian(Len(o.mimeType), 2);
    output := output + Utf8.Encode(o.mimeType);
    assert output == Payload(o);
    r := Ok(output);
  }

  /** `TransferOffer::decode_payload`, moving a cursor over the payload. */
  method ReadPayload(p: seq<byte>) returns (r: Result<TransferOffer>)
    ensures r == DecodePayload(p)
  {
    hide BigEndian, FromBigEndian, Utf8.Decode, DecodeAfterName;
    var reader := new Cursor(p);
    var id :- reader.ReadExact(16, "truncated transfer ID");
    var nameLenBytes :- reader.ReadExact(2, "truncated u16");
    var nameLen := FromBigEndian(nameLenBytes);
    if nameLen > MAX_FILE_NAME_LEN {
      return Err("file name is too long");
    }
    var nameBytes :- reader.ReadExact(nameLen, "truncated field");
    var name := Utf8.Decode(nameBytes);
    if name.None? {
      return Err("file name is not valid UTF-8");
    }
    assert id == p[..16];
    r := ReadPayloadEnd(reader, id, name.value);
  }

  /** The part of the payload after the file name. */
  method ReadPayloadEnd(reader: Cursor, id: Id, name: string) returns (r: Result<TransferOffer>)
    requires reader.Valid()
    modifies reader
    ensures r == DecodeAfterName(id, name, reader.data[old(reader.position)..])
  {
    hide FromBigEndian, Utf8.Decode, NewOffer;
    WordLimits();
    ghost var p := reader.data[reader.position..];
    var sizeBytes :- reader.ReadExact(8, "truncated u64");
    assert sizeBytes == p[..8];
    var mimeLenBytes :- reader.ReadExact(2, "truncated u16");
    assert mimeLenBytes == p[8..10];
    var mimeLen := FromBigEndian(mimeLenBytes);
    if mimeLen > MAX_MIME_TYPE_LEN {
      return Err("MIME type is too long");
    }
    var mimeBytes :- reader.ReadExact(mimeLen, "truncated field");
    assert mimeBytes == p[10..10 + mimeLen];
    var mime := Utf8.Decode(mimeBytes);
    if mime.None? {
      return Err("MIME type is not valid UTF-8");
    }
    if reader.position != |reader.data| {
      return Err("unexpected bytes after transfer offer");
    }
    r := NewOffer(id, name, FromBigEndian(sizeBytes), mime.value);
  }

  lemma DecodeOfPayloadEnd(o: TransferOffer)
    requires Valid(o)
    ensures DecodeAfterName(o.transferId, o.fileName, PayloadEnd(o)) == Ok(o)
  {
    hide BigEndian, FromBigEndian, Utf8.Encode, Utf8.Decode;
    WordLimits();
    var p, mime := PayloadEnd(o), Utf8.Encode(o.mimeType);
    assert p[..8] == BigEndian(o.fileSize, 8) && p[8..10] == BigEndian(|mime|, 2);
    BigEndianRoundTrip(o.fileSize, 8);
    BigEndianRoundTrip(|mime|, 2);
    assert p[10..10 + |mime|] == mime;
    Utf8.DecodeEncode(o.mimeType);
  }

  lemma DecodePayloadOfPayload(o: TransferOffer)
    requires Valid(o)
    ensures DecodePayload(Payload(o)) == Ok(o)
  {
    hide BigEndian, FromBigEndian, Utf8.Encode, Utf8.Decode;
    WordLimits();
    var p, name := Payload(o), Utf8.Encode(o.fileName);
    assert p[..16] == o.transferId && p[16..18] == BigEndian(|name|, 2);
    BigEndianRoundTrip(|name|, 2);
    assert p[18..18 + |name|] == name && p[18 + |name|..] == PayloadEnd(o);
    Utf8.DecodeEncode(o.fileName);
    DecodeOfPayloadEnd(o);
  }

  lemma PayloadEndOfDecode(id: Id, name: string, p: seq<byte>)
    requires DecodeAfterName(id, name, p).Ok?
    ensures var o := DecodeAfterName(id, name, p).value;
      Valid(o) && o.transferId == id && o.fileName == name && PayloadEnd(o) == p
  {
    hide BigEndian, FromBigEndian, Utf8.Encode, Utf8.Decode;
    WordLimits();
    var mimeLen := FromBigEndian(p[8..10]);
    FromBigEndianRoundTrip(p[..8]);
    FromBigEndianRoundTrip(p[8..10]);
    Utf8.EncodeDecode(p[10..10 + mimeLen]);
    assert p == p[..8] + p[8..10] + p[10..10 + mimeLen];
  }

  lemma PayloadOfDecodePayload(p: seq<byte>)
    requires DecodePayload(p).Ok?
    ensures Valid(DecodePayload(p).value) && Payload(DecodePayload(p).value) == p
  {
    hide BigEndian, FromBigEndian, Utf8.Encode, Utf8.Decode;
    WordLimits();
    var nameLen := FromBigEndian(p[16..18]);
    var name := Utf8.Decode(p[18..18 + nameLen]).value;
    FromBigEndianRoundTrip(p[16..18]);
    Utf8.EncodeDecode(p[18..18 + nameLen]);
    PayloadEndOfDecode(p[..16], name, p[18 + nameLen..]);
    assert p == p[..16] + p[16..18] + p[18..18 + nameLen] + p[18 + nameLen..];
  }

  /** The accepted payloads are exactly the encodings of offers: decoding and encoding are
      inverse to each other, and nothing else is accepted. */
  lemma PayloadExact(p: seq<byte>, o: TransferOffer)
    ensures DecodePayload(p) == Ok(o) <==> EncodePayload(o) == Ok(p)
  {
    if DecodePayload(p) == Ok(o) {
      PayloadOfDecodePayload(p);
    }
    if EncodePayload(o) == Ok(p) {
      DecodePayloadOfPayload(o);
    }
  }

  /** The same name check carried out on the octets alone. */
  predicate NameBytesAllowed(b: seq<byte>) {
    && 1 <= |b| <= 255
    && 0x00 !in b && 0x2F !in b && 0x5C !in b
    && b != [0x2E] && b != [0x2E, 0x2E]
  }

  /** Checking a file name by characters and by octets is the same check, so the octets of an
      accepted name contain no separator a file system could act on. */
  lemma NameCheckOnBytes(name: string)
    ensures ValidateFileName(name).Ok? <==> NameBytesAllowed(Utf8.Encode(name))
  {
    Utf8.AsciiByteIffChar(name, '\0');
    Utf8.AsciiByteIffChar(name, '/');
    Utf8.AsciiByteIffChar(name, '\\');
    var dot, dots := ".", "..";
    assert dots[1..] == dot && dot[1..] == "";
    assert Utf8.Encode(dot) == [0x2E] && Utf8.Encode(dots) == [0x2E, 0x2E];
    Utf8.DecodeEncode(name);
    Utf8.DecodeEncode(dot);
    Utf8.DecodeEncode(dots);
  }

  function ToFrame(o: TransferOffer): Result<Frame> {
    var p :- EncodePayload(o);
    NewFrame(Offer, p)
  }

  function FromFrame(f: Frame): Result<TransferOffer> {
    if f.frameType != Offer then Err("frame is not a transfer offer") else DecodePayload(f.payload)
  }

  function OfferFrame(o: TransferOffer): (f: Frame)
    requires Valid(o)
    ensures Sendable(f)
  {
    Frame(Offer, Payload(o))
  }

  /** Making a frame of a valid offer never fails, and offer frames are read back exactly. */
  lemma OfferFrameExact(f: Frame, o: TransferOffer)
    ensures Valid(o) <==> ToFrame(o).Ok?
    ensures FromFrame(f) == Ok(o) <==> ToFrame(o) == Ok(f)
  {
    PayloadExact(f.payload, o);
  }

  /** What `read_offer` finds at the front of a stream. */
  datatype OfferRead =
    | GotOffer(offer: TransferOffer, rest: seq<byte>)
    | OfferNeedsMore
    | BadOffer(error: string)

  function TakeOffer(stream: seq<byte>): OfferRead {
    match TakeFrame(stream)
    case NeedMore => OfferNeedsMore
    case TooLarge => BadOffer("offer frame too large")
    case Malformed(e) => BadOffer(e)
    case Got(f, rest) =>
      match FromFrame(f)
      case Ok(o) => GotOffer(o, rest)
      case Err(e) => BadOffer(e)
  }

  /** An offer is read off a stream exactly when the stream starts with its frame, and then
      precisely the bytes after that frame are left: the file bytes. */
  lemma TakeOfferExact(stream: seq<byte>, o: TransferOffer, rest: seq<byte>)
    ensures TakeOffer(stream) == GotOffer(o, rest) <==> Valid(o) && stream == Wire(OfferFrame(o)) + rest
  {
    if TakeOffer(stream) == GotOffer(o, rest) {
      var f := TakeFrame(stream).frame;
      TakeFrameExact(stream, f, rest);
      OfferFrameExact(f, o);
    }
    if Valid(o) && stream == Wire(OfferFrame(o)) + rest {
      TakeFrameExact(stream, OfferFrame(o), rest);
      OfferFrameExact(OfferFrame(o), o);
    }
  }

  /** A MIME type is accepted exactly when its octets are 1 to 127 and none is NUL. */
  lemma MimeCheckOnBytes(mimeType: string)
    ensures ValidateMimeType(mimeType).Ok? <==>
      1 <= |Utf8.Encode(mimeType)| <= 127 && 0x00 !in Utf8.Encode(mimeType)
  {
    Utf8.AsciiByteIffChar(mimeType, '\0');
  }

  /** The fields of the payload: id, length of the name, name, size, length of the MIME type, MIME type. */
  lemma PayloadWrittenOut(o: TransferOffer)
    requires Valid(o)
    ensures var name, mime := Utf8.Encode(o.fileName), Utf8.Encode(o.mimeType);
      && |name| <= 255 && |mime| <= 127 && o.fileSize < Pow256(8)
      && Payload(o) == o.transferId + [0, |name| as byte] + name + BigEndian(o.fileSize, 8) + [0, |mime| as byte] + mime
  {
    NameCheckOnBytes(o.fileName);
    MimeCheckOnBytes(o.mimeType);
    var name, mime := Utf8.Encode(o.fileName), Utf8.Encode(o.mimeType);
    WordLimits();
    BigEndianTwo(|name|);
    BigEndianTwo(|mime|);
    hide BigEndian, Utf8.Encode, Pow256, ValidateFileName, ValidateMimeType;
  }

  /** The whole offer frame: kind, length of the payload, most significant byte first, and payload. */
  lemma OfferWrittenOut(o: TransferOffer)
    requires Valid(o)
    ensures var n := 28 + |Utf8.Encode(o.fileName)| + |Utf8.Encode(o.mimeType)|;
      n <= 410 && Wire(OfferFrame(o)) == [3, 0, 0, (n / 256) as byte, (n % 256) as byte] + Payload(o)
  {
    FrameWrittenOut(OfferFrame(o));
    hide Payload, Utf8.Encode, Wire, Valid;
  }
}
