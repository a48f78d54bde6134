/** The 28-byte file header of `src/transfer/format.rs`. */
module FileHeaders {
  import opened Wrappers
  import opened Bytes
  import opened Streams

  const MAGIC: seq<byte> := [0x54, 0x4C, 0x53, 0x46, 0x52, 0x30, 0x30, 0x31]
  const HEADER_SIZE: nat := 8 + 4 + 8 + 8

  type u32 = n: nat | n < U32_LIMIT

  datatype FileHeader = FileHeader(version: u32, originalSize: u64, chunkSize: u64)

  function HeaderBytes(header: FileHeader): (b: seq<byte>)
    ensures |b| == HEADER_SIZE
  {
    WordLimits();
    MAGIC + LittleEndian(header.version, 4) + LittleEndian(header.originalSize, 8) + LittleEndian(header.chunkSize, 8)
  }

  /** `FileHeader::write_to`: as much of the header as can be written. */
  method WriteTo(header: FileHeader, writer: Sink) returns (ok: bool)
    modifies writer
    ensures ok == (HEADER_SIZE <= old(writer.budget))
    ensures writer.sent == old(writer.sent) + Clip(HeaderBytes(header), old(writer.budget))
  {
    WordLimits();
    hide LittleEndian, Clip;
    var magic, version := MAGIC, LittleEndian(header.version, 4);
    var originalSize, chunkSize := LittleEndian(header.originalSize, 8), LittleEndian(header.chunkSize, 8);
    ghost var start, budget := writer.sent, writer.budget;
    ClipConcat(magic, version + originalSize + chunkSize, budget);
    ClipConcat(magic + version, originalSize + chunkSize, budget);
    ClipConcat(magic + version + originalSize, chunkSize, budget);
    assert HeaderBytes(header) == magic + (version + originalSize + chunkSize)
        == magic + version + (originalSize + chunkSize) == magic + version + originalSize + chunkSize;
    assert start + [] == start && [] + magic == magic;
    ok := WritePart(writer, magic, start, [], budget);
    if ok {
      FitsWhole(magic, budget);
      ok := WritePart(writer, version, start, magic, budget);
    }
    if ok {
      FitsWhole(magic + version, budget);
      ok := WritePart(writer, originalSize, start, magic + version, budget);
    }
    if ok {
      FitsWhole(magic + version + originalSize, budget);
      ok := WritePart(writer, chunkSize, start, magic + version + originalSize, budget);
    }
  }

  /** `FileHeader::read_from`: succeeds exactly on a stream that starts with the encoding of what it
      returns, and consumes precisely that. Of the two errors, the wrong magic comes first. */
  method ReadFrom(reader: RecvStream) returns (r: Result<FileHeader>)
    modifies reader
    ensures r.Ok? ==> old(reader.Pending()) == HeaderBytes(r.value) + reader.Pending()
    ensures r.Err? ==> forall header, rest :: old(reader.Pending()) != HeaderBytes(header) + rest
    ensures var stream := old(reader.Pending());
      r.Err? ==> r.error == if |stream| >= 8 && stream[..8] != MAGIC then "invalid Tailsfer file"
                            else "stream finished early"
  {
    ghost var stream := reader.Pending();
    HeaderSplits(stream);
    hide HeaderBytes, Flatten;
    var magic :- reader.ReadExact(8);
    if magic != MAGIC {
      return Err("invalid Tailsfer file");
    }
    var version :- reader.ReadExact(4);
    var originalSize :- reader.ReadExact(8);
    var chunkSize :- reader.ReadExact(8);
    WordLimits();
    r := Ok(FileHeader(FromLittleEndian(version), FromLittleEndian(originalSize), FromLittleEndian(chunkSize)));
    assert stream[8..][..4] == version == stream[8..12] && stream[8..][4..] == stream[12..];
    assert stream[12..][..8] == originalSize == stream[12..20] && stream[12..][8..] == stream[20..];
    assert stream[20..][..8] == chunkSize == stream[20..28] && stream[20..][8..] == stream[28..];
    HeaderJoins(stream);
  }

  /** A stream that starts with a header has its magic and is long enough. */
  lemma HeaderSplits(stream: seq<byte>)
    ensures forall header, rest :: stream == HeaderBytes(header) + rest ==>
      |stream| >= HEADER_SIZE && stream[..8] == MAGIC
  {
    forall header, rest | stream == HeaderBytes(header) + rest
      ensures |stream| >= HEADER_SIZE && stream[..8] == MAGIC
    {
      WordLimits();
      hide LittleEndian;
    }
  }

  lemma HeaderJoins(stream: seq<byte>)
    requires |stream| >= HEADER_SIZE && stream[..8] == MAGIC
    ensures FromLittleEndian(stream[8..12]) < U32_LIMIT
      && FromLittleEndian(stream[12..20]) < U64_LIMIT && FromLittleEndian(stream[20..28]) < U64_LIMIT
    ensures stream == HeaderBytes(FileHeader(FromLittleEndian(stream[8..12]), FromLittleEndian(stream[12..20]),
                                             FromLittleEndian(stream[20..28]))) + stream[28..]
  {
    hide LittleEndian, FromLittleEndian, Pow256;
    WordLimits();
    FromLittleEndianRoundTrip(stream[8..12]);
    FromLittleEndianRoundTrip(stream[12..20]);
    FromLittleEndianRoundTrip(stream[20..28]);
    CutInFields(stream);
  }

  lemma CutInFields(stream: seq<byte>)
    requires |stream| >= HEADER_SIZE
    ensures stream == stream[..8] + stream[8..12] + stream[12..20] + stream[20..28] + stream[28..]
  {
  }

  /** A header is determined by its bytes, so what was written is what is read. */
  lemma HeaderPrefixFree(a: FileHeader, b: FileHeader, x: seq<byte>, y: seq<byte>)
    requires HeaderBytes(a) + x == HeaderBytes(b) + y
    ensures a == b && x == y
  {
    HeaderFields(a, x);
    HeaderFields(b, y);
    assert (HeaderBytes(a) + x)[HEADER_SIZE..] == x && (HeaderBytes(b) + y)[HEADER_SIZE..] == y;
  }

  lemma FieldSlices(version: seq<byte>, originalSize: seq<byte>, chunkSize: seq<byte>, rest: seq<byte>)
    requires |version| == 4 && |originalSize| == 8 && |chunkSize| == 8
    ensures var stream := MAGIC + version + originalSize + chunkSize + rest;
      stream[8..12] == version && stream[12..20] == originalSize && stream[20..28] == chunkSize
  {
    var magic := MAGIC;
    assert |magic| == 8;
  }

  lemma HeaderFields(header: FileHeader, rest: seq<byte>)
    ensures var stream := HeaderBytes(header) + rest;
      FromLittleEndian(stream[8..12]) == header.version && FromLittleEndian(stream[12..20]) == header.originalSize
      && FromLittleEndian(stream[20..28]) == header.chunkSize
  {
    hide LittleEndian, FromLittleEndian, Pow256;
    WordLimits();
    LittleEndianRoundTrip(header.version, 4);
    LittleEndianRoundTrip(header.originalSize, 8);
    LittleEndianRoundTrip(header.chunkSize, 8);
    FieldSlices(LittleEndian(header.version, 4), LittleEndian(header.originalSize, 8),
                LittleEndian(header.chunkSize, 8), rest);
  }

  /** A header is 28 bytes: "TLSFR001", the version, the size of the file and the size of a chunk, each
      number least significant byte first. */
  lemma HeaderWrittenOut(header: FileHeader)
    ensures var b, v := HeaderBytes(header), header.version;
      && |b| == 28
      && b[..8] == [0x54, 0x4C, 0x53, 0x46, 0x52, 0x30, 0x30, 0x31]
      && (forall i | 0 <= i < 8 :: b[i] as int == "TLSFR001"[i] as int)
      && v < 0x1_0000_0000
      && b[8..12]
           == [(v % 256) as byte, (v / 256 % 256) as byte, (v / 0x1_0000 % 256) as byte, (v / 0x100_0000) as byte]
      && (forall i | 0 <= i < 8 :: b[12 + i] as nat == header.originalSize / Pow256(i) % 256)
      && (forall i | 0 <= i < 8 :: b[20 + i] as nat == header.chunkSize / Pow256(i) % 256)
  {
    WordLimits();
    LittleEndianFour(header.version);
    forall i: nat | i < 8
      ensures LittleEndian(header.originalSize, 8)[i] as nat == header.originalSize / Pow256(i) % 256
      ensures LittleEndian(header.chunkSize, 8)[i] as nat == header.chunkSize / Pow256(i) % 256
    {
      LittleEndianAt(header.originalSize, 8, i);
      LittleEndianAt(header.chunkSize, 8, i);
    }
    hide LittleEndian, Pow256;
    var magic := MAGIC;
    FieldSlices(LittleEndian(header.version, 4), LittleEndian(header.originalSize, 8),
                LittleEndian(header.chunkSize, 8), []);
    assert HeaderBytes(header) + [] == HeaderBytes(header);
    forall i | 0 <= i < 8
      ensures HeaderBytes(header)[12 + i] == HeaderBytes(header)[12..20][i]
      ensures HeaderBytes(header)[20 + i] == HeaderBytes(header)[20..28][i]
    {
    }
  }
}
