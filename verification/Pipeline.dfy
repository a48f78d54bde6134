/**
  Chunked compression and encryption, after `src/transfer/pipeline.rs`. zstd and the AEAD are
  functions known only by their laws; section 2.8 of RFC 8439 fixes the length of a ciphertext.
*/
module Pipeline {
  import opened Wrappers
  import opened Bytes
  import opened Streams

  type Key = s: seq<byte> | |s| == 32 witness seq(32, i => 0 as byte)
  type Nonce = s: seq<byte> | |s| == 12 witness seq(12, i => 0 as byte)

  const MAX_CHUNK_SIZE: nat := MEBIBYTE
  const TAG_SIZE: nat := 16

  /** Bytes of a record before its ciphertext: length, compression flag, nonce. */
  const RECORD_HEADER: nat := 4 + 1 + 12

  datatype Compression = Uncompressed | Zstd

  datatype Tools = Tools(
    compress: seq<byte> -> Option<seq<byte>>,
    decompress: seq<byte> -> Option<seq<byte>>,
    seal: (Key, Nonce, seq<byte>) -> Option<seq<byte>>,
    unseal: (Key, Nonce, seq<byte>) -> Option<seq<byte>>)

  /** What is known of the two libraries: each undoes itself, and sealing adds a 16-byte tag. */
  ghost predicate Lawful(t: Tools) {
    && (forall x :: t.compress(x).Some? ==> t.decompress(t.compress(x).value) == Some(x))
    && (forall k, n, x :: t.seal(k, n, x).Some? ==>
          t.unseal(k, n, t.seal(k, n, x).value) == Some(x) && |t.seal(k, n, x).value| == |x| + TAG_SIZE)
  }

  lemma LawsCanHold()
    ensures exists t :: Lawful(t)
  {
    var tag := seq(TAG_SIZE, i => 0 as byte);
    var t := Tools(x => Some(x), x => Some(x), (k, n, x) => Some(x + tag),
                   (k, n, x: seq<byte>) => if |x| < TAG_SIZE then None else Some(x[..|x| - TAG_SIZE]));
    forall k, n, x
      ensures t.unseal(k, n, t.seal(k, n, x).value) == Some(x)
    {
      assert (x + tag)[..|x|] == x;
    }
    assert Lawful(t);
  }

  function PackChunk(t: Tools, key: Key, nonce: Nonce, plaintext: seq<byte>): Result<(seq<byte>, Compression, Nonce)> {
    match t.compress(plaintext)
    case None => Err("compression failed")
    case Some(compressed) =>
      var (payload, compression) :=
        if |compressed| < |plaintext| then (compressed, Zstd) else (plaintext, Uncompressed);
      match t.seal(key, nonce, payload)
      case None => Err("encryption failed")
      case Some(encrypted) => Ok((encrypted, compression, nonce))
  }

  function UnpackChunk(t: Tools, key: Key, ciphertext: seq<byte>, nonce: Nonce,
                       compression: Compression): Result<seq<byte>>
  {
    match t.unseal(key, nonce, ciphertext)
    case None => Err("authentication failed")
    case Some(decrypted) =>
      if compression == Uncompressed then Ok(decrypted)
      else match t.decompress(decrypted)
        case None => Err("decompression failed")
        case Some(plaintext) => Ok(plaintext)
  }

  /** A packed chunk unpacks to itself, and is never longer than the chunk and a tag. */
  lemma ChunkRoundTrip(t: Tools, key: Key, nonce: Nonce, plaintext: seq<byte>)
    requires Lawful(t) && PackChunk(t, key, nonce, plaintext).Ok?
    ensures var (encrypted, compression, used) := PackChunk(t, key, nonce, plaintext).value;
      && used == nonce
      && UnpackChunk(t, key, encrypted, used, compression) == Ok(plaintext)
      && TAG_SIZE <= |encrypted| <= |plaintext| + TAG_SIZE
  {
  }

  /** Compression is attempted on every chunk and kept exactly when it makes the chunk shorter. Packing
      fails exactly when one of the two libraries does. */
  lemma SmallerIsSent(t: Tools, key: Key, nonce: Nonce, x: seq<byte>)
    requires Lawful(t)
    ensures t.compress(x).None? ==> PackChunk(t, key, nonce, x).Err?
    ensures t.compress(x).Some? ==>
      var z := t.compress(x).value;
      var shorter := if |z| < |x| then z else x;
      && (PackChunk(t, key, nonce, x).Ok? <==> t.seal(key, nonce, shorter).Some?)
      && (PackChunk(t, key, nonce, x).Ok? ==>
            var (encrypted, compression, used) := PackChunk(t, key, nonce, x).value;
            && Some(encrypted) == t.seal(key, nonce, shorter)
            && |encrypted| == (if |z| < |x| then |z| else |x|) + 16
            && (compression == Zstd <==> |z| < |x|)
            && used == nonce
            && ChunkRecord(t, key, nonce, x)[4] == if |z| < |x| then 1 else 0)
  {
    if PackChunk(t, key, nonce, x).Ok? {
      var (encrypted, compression, used) := PackChunk(t, key, nonce, x).value;
      RecordWrittenOut(encrypted, compression, used);
    }
  }

  /** With a cipher that unseals nothing but what was sealed, whatever is unpacked was sealed under this
      key and nonce, and decompressed if the flag says so. */
  lemma OnlySealedUnpacks(t: Tools, key: Key, ciphertext: seq<byte>, nonce: Nonce, compression: Compression,
                          x: seq<byte>)
    requires forall k, n, c :: t.unseal(k, n, c).Some? ==> t.seal(k, n, t.unseal(k, n, c).value) == Some(c)
    ensures UnpackChunk(t, key, ciphertext, nonce, compression) == Ok(x) ==>
      exists sealed :: t.seal(key, nonce, sealed) == Some(ciphertext)
        && (if compression == Zstd then t.decompress(sealed) == Some(x) else sealed == x)
  {
    if UnpackChunk(t, key, ciphertext, nonce, compression) == Ok(x) {
      var sealed := t.unseal(key, nonce, ciphertext).value;
      assert t.seal(key, nonce, sealed) == Some(ciphertext);
    }
  }

  function Flag(c: Compression): byte {
    if c == Zstd then 1 else 0
  }

  /** One record as it is written. The length is cast to 32 bits, which would truncate. */
  function Record(encrypted: seq<byte>, compression: Compression, nonce: Nonce): (r: seq<byte>)
    ensures |r| == RECORD_HEADER + |encrypted|
  {
    WordLimits();
    BigEndian(|encrypted| % U32_LIMIT, 4) + [Flag(compression)] + nonce + encrypted
  }

  /** Length, most significant byte first, flag, nonce, ciphertext. */
  lemma RecordWrittenOut(encrypted: seq<byte>, compression: Compression, nonce: Nonce)
    ensures var n := |encrypted| % 0x1_0000_0000;
      Record(encrypted, compression, nonce)
         == [(n / 0x100_0000) as byte, (n / 0x1_0000 % 256) as byte, (n / 256 % 256) as byte, (n % 256) as byte,
             if compression.Zstd? then 1 else 0] + nonce + encrypted
  {
    WordLimits();
    var n := |encrypted| % 0x1_0000_0000;
    BigEndianFour(n);
    hide BigEndian, Pow256;
    var length := BigEndian(n, 4);
    assert length + [Flag(compression)] == [length[0], length[1], length[2], length[3], Flag(compression)];
  }

  /** Reading the records back one by one: length, flag, nonce, then that many bytes. */
  function UnpackStream(t: Tools, key: Key, stream: seq<byte>): Result<seq<byte>> {
    if stream == [] then Ok([])
    else if |stream| < RECORD_HEADER then Err("truncated record")
    else
      var length := FromBigEndian(stream[..4]);
      if |stream| < RECORD_HEADER + length then Err("truncated record")
      else if stream[4] > 1 then Err("unknown compression")
      else
        var compression := if stream[4] == 1 then Zstd else Uncompressed;
        var plaintext :- UnpackChunk(t, key, stream[RECORD_HEADER..RECORD_HEADER + length], stream[5..RECORD_HEADER],
                                     compression);
        var rest :- UnpackStream(t, key, stream[RECORD_HEADER + length..]);
        Ok(plaintext + rest)
  }

  /** The nonces drawn one after the other. */
  type Nonces = nat -> Nonce

  function ChunkRecord(t: Tools, key: Key, nonce: Nonce, chunk: seq<byte>): seq<byte>
    requires PackChunk(t, key, nonce, chunk).Ok?
  {
    var (encrypted, compression, used) := PackChunk(t, key, nonce, chunk).value;
    Record(encrypted, compression, used)
  }

  /** How many chunks can be packed before the first that cannot. */
  function Packable(t: Tools, key: Key, nonces: Nonces, first: nat, chunks: seq<seq<byte>>): (n: nat)
    ensures n <= |chunks|
    decreases |chunks|
  {
    if chunks == [] || PackChunk(t, key, nonces(first), chunks[0]).Err? then 0
    else 1 + Packable(t, key, nonces, first + 1, chunks[1..])
  }

  /** The records of those chunks. */
  function Packed(t: Tools, key: Key, nonces: Nonces, first: nat, chunks: seq<seq<byte>>): seq<byte>
    decreases |chunks|
  {
    if chunks == [] || PackChunk(t, key, nonces(first), chunks[0]).Err? then []
    else ChunkRecord(t, key, nonces(first), chunks[0]) + Packed(t, key, nonces, first + 1, chunks[1..])
  }

  /** What is packed is one record a chunk, in order, the k-th under the k-th nonce drawn, up to the
      first chunk that cannot be packed. */
  lemma {:induction false} PackedIsRecords(t: Tools, key: Key, nonces: Nonces, first: nat, chunks: seq<seq<byte>>)
    returns (records: seq<seq<byte>>)
    ensures Packed(t, key, nonces, first, chunks) == Flatten(records)
    ensures |records| == Packable(t, key, nonces, first, chunks)
    ensures forall k | 0 <= k < |records| ::
      PackChunk(t, key, nonces(first + k), chunks[k]).Ok?
      && records[k] == ChunkRecord(t, key, nonces(first + k), chunks[k])
    ensures |records| < |chunks| ==> PackChunk(t, key, nonces(first + |records|), chunks[|records|]).Err?
    decreases |chunks|
  {
    hide PackChunk, ChunkRecord;
    records := [];
    if chunks != [] && PackChunk(t, key, nonces(first), chunks[0]).Ok? {
      var others := PackedIsRecords(t, key, nonces, first + 1, chunks[1..]);
      records := [ChunkRecord(t, key, nonces(first), chunks[0])] + others;
      assert records[1..] == others;
      forall k | 0 <= k < |records|
        ensures PackChunk(t, key, nonces(first + k), chunks[k]).Ok?
        ensures records[k] == ChunkRecord(t, key, nonces(first + k), chunks[k])
      {
        if k > 0 {
          assert first + k == first + 1 + (k - 1) && chunks[k] == chunks[1..][k - 1];
        }
      }
      assert first + |records| == first + 1 + |others|;
    }
  }

  /** The pieces that reads into a one-chunk buffer return. */
  ghost function Chunks(pieces: seq<seq<byte>>): (chunks: seq<seq<byte>>)
    ensures Flatten(chunks) == Content(pieces)
    ensures forall c | c in chunks :: 0 < |c| <= 1_048_576
    decreases |Flatten(pieces)|
  {
    if pieces == [] || pieces[0] == [] then []
    else
      var (n, left) := ReadOutcome(pieces, MAX_CHUNK_SIZE);
      ReadOutcomeOfContent(pieces, MAX_CHUNK_SIZE, false);
      [pieces[0][..n]] + Chunks(left)
  }

  lemma RecordFields(length: seq<byte>, flag: byte, nonce: Nonce, encrypted: seq<byte>, rest: seq<byte>)
    requires |length| == 4
    ensures var stream := length + [flag] + nonce + encrypted + rest;
      && stream[..4] == length && stream[4] == flag && stream[5..RECORD_HEADER] == nonce
      && stream[RECORD_HEADER..RECORD_HEADER + |encrypted|] == encrypted
      && stream[RECORD_HEADER + |encrypted|..] == rest
  {
  }

  lemma UnpackRecord(t: Tools, key: Key, encrypted: seq<byte>, compression: Compression, nonce: Nonce,
                     plaintext: seq<byte>, rest: seq<byte>)
    requires |encrypted| < U32_LIMIT
    requires UnpackChunk(t, key, encrypted, nonce, compression) == Ok(plaintext)
    ensures UnpackStream(t, key, Record(encrypted, compression, nonce) + rest)
         == (match UnpackStream(t, key, rest) case Ok(more) => Ok(plaintext + more) case Err(e) => Err(e))
  {
    hide BigEndian, FromBigEndian, UnpackChunk;
    WordLimits();
    BigEndianRoundTrip(|encrypted|, 4);
    RecordFields(BigEndian(|encrypted|, 4), Flag(compression), nonce, encrypted, rest);
  }

  /** Reading back what was written gives the input, for every key, every nonces and every way the
      input was split into chunks; if packing stopped early, it gives the input up to there. */
  lemma {:induction false} UnpackPacked(t: Tools, key: Key, nonces: Nonces, first: nat, chunks: seq<seq<byte>>)
    requires Lawful(t) && forall c | c in chunks :: |c| <= MAX_CHUNK_SIZE
    ensures UnpackStream(t, key, Packed(t, key, nonces, first, chunks))
         == Ok(Flatten(chunks[..Packable(t, key, nonces, first, chunks)]))
    decreases |chunks|
  {
    hide UnpackStream, PackChunk, UnpackChunk, Record, Lawful;
    if chunks != [] && PackChunk(t, key, nonces(first), chunks[0]).Ok? {
      assert chunks[0] in chunks;
      var (encrypted, compression, nonce) := PackChunk(t, key, nonces(first), chunks[0]).value;
      ChunkRoundTrip(t, key, nonces(first), chunks[0]);
      UnpackRecord(t, key, encrypted, compression, nonce, chunks[0], Packed(t, key, nonces, first + 1, chunks[1..]));
      UnpackPacked(t, key, nonces, first + 1, chunks[1..]);
      var n := Packable(t, key, nonces, first + 1, chunks[1..]);
      assert chunks[..n + 1][1..] == chunks[1..][..n];
    } else {
      UnpackNothing(t, key);
    }
  }

  lemma UnpackNothing(t: Tools, key: Key)
    ensures UnpackStream(t, key, []) == Ok([])
  {
  }

  /** Writing costs at most 33 bytes a record. */
  lemma {:induction false} PackedLength(t: Tools, key: Key, nonces: Nonces, first: nat, chunks: seq<seq<byte>>)
    requires Lawful(t)
    ensures var n := Packable(t, key, nonces, first, chunks);
      |Packed(t, key, nonces, first, chunks)| <= |Flatten(chunks[..n])| + 33 * n
    decreases |chunks|
  {
    hide PackChunk, UnpackChunk, Lawful;
    if chunks != [] && PackChunk(t, key, nonces(first), chunks[0]).Ok? {
      ChunkRoundTrip(t, key, nonces(first), chunks[0]);
      PackedLength(t, key, nonces, first + 1, chunks[1..]);
      var n := Packable(t, key, nonces, first + 1, chunks[1..]);
      assert chunks[..n + 1][1..] == chunks[1..][..n];
    }
  }

  /** The 32-bit length field holds the true length of every chunk's ciphertext. */
  lemma LengthFieldIsExact(t: Tools, key: Key, nonce: Nonce, chunk: seq<byte>)
    requires Lawful(t) && |chunk| <= 1_048_576 && PackChunk(t, key, nonce, chunk).Ok?
    ensures var encrypted := PackChunk(t, key, nonce, chunk).value.0;
      |encrypted| <= 1_048_576 + 16 && |encrypted| % U32_LIMIT == |encrypted|
      && FromBigEndian(ChunkRecord(t, key, nonce, chunk)[..4]) == |encrypted|
  {
    WordLimits();
    ChunkRoundTrip(t, key, nonce, chunk);
    hide PackChunk, UnpackChunk, Lawful;
    var (encrypted, compression, used) := PackChunk(t, key, nonce, chunk).value;
    BigEndianRoundTrip(|encrypted|, 4);
    assert Record(encrypted, compression, used)[..4] == BigEndian(|encrypted|, 4);
  }

  /** Writes one record in four pieces, stopping at the first that fails. */
  method WriteRecord(writer: Sink, encrypted: seq<byte>, compression: Compression, nonce: Nonce) returns (ok: bool)
    modifies writer
    ensures var record := Record(encrypted, compression, nonce);
      && ok == (|record| <= old(writer.budget))
      && writer.sent == old(writer.sent) + Clip(record, old(writer.budget))
      && (ok ==> writer.budget == old(writer.budget) - |record|)
  {
    hide BigEndian, Clip;
    WordLimits();
    var length := BigEndian(|encrypted| % U32_LIMIT, 4);
    ghost var start, budget, part := writer.sent, writer.budget, length + [Flag(compression)];
    ClipConcat(length, [Flag(compression)] + nonce + encrypted, budget);
    ClipConcat(part, nonce + encrypted, budget);
    ClipConcat(part + nonce, encrypted, budget);
    assert Record(encrypted, compression, nonce) == length + ([Flag(compression)] + nonce + encrypted)
        == part + (nonce + encrypted) == part + nonce + encrypted;
    assert start + [] == start && [] + length == length;
    ok := WritePart(writer, length, start, [], budget);
    if ok {
      FitsWhole(length, budget);
      ok := WritePart(writer, [Flag(compression)], start, length, budget);
    }
    if ok {
      FitsWhole(part, budget);
      ok := WritePart(writer, nonce, start, part, budget);
    }
    if ok {
      FitsWhole(part + nonce, budget);
      ok := WritePart(writer, encrypted, start, part + nonce, budget);
    }
  }

  /** One turn: the next chunk, if there is one, and what remains. */
  lemma ChunksTurn(pieces: seq<seq<byte>>)
    ensures pieces == [] || pieces[0] == [] ==> Chunks(pieces) == []
    ensures pieces != [] && pieces[0] != [] ==>
      var (n, left) := ReadOutcome(pieces, MAX_CHUNK_SIZE); Chunks(pieces) == [pieces[0][..n]] + Chunks(left)
  {
  }

  lemma PackedTurn(t: Tools, key: Key, nonces: Nonces, first: nat, chunk: seq<byte>, rest: seq<seq<byte>>)
    ensures var packs := PackChunk(t, key, nonces(first), chunk).Ok?;
      && Packable(t, key, nonces, first, [chunk] + rest)
           == (if packs then 1 + Packable(t, key, nonces, first + 1, rest) else 0)
      && Packed(t, key, nonces, first, [chunk] + rest)
         == (if packs then ChunkRecord(t, key, nonces(first), chunk) + Packed(t, key, nonces, first + 1, rest) else [])
  {
    assert ([chunk] + rest)[1..] == rest;
  }

  /** How far the loop has got: `written` is out, `done` has been read, `turns` chunks are packed. */
  ghost predicate Underway(t: Tools, key: Key, nonces: Nonces, before: seq<seq<byte>>, pieces: seq<seq<byte>>,
                           broken: bool, turns: nat, written: seq<byte>, done: seq<byte>) {
    && Packed(t, key, nonces, 0, Chunks(before)) == written + Packed(t, key, nonces, turns, Chunks(pieces))
    && Packable(t, key, nonces, 0, Chunks(before)) == turns + Packable(t, key, nonces, turns, Chunks(pieces))
    && |Chunks(before)| == turns + |Chunks(pieces)|
    && Content(before) == done + Content(pieces)
    && (Unreadable(before, broken) <==> Unreadable(pieces, broken))
  }

  lemma SettingOff(t: Tools, key: Key, nonces: Nonces, pieces: seq<seq<byte>>, broken: bool)
    ensures Underway(t, key, nonces, pieces, pieces, broken, 0, [], [])
  {
    hide Packed, Chunks, Content, Packable, Unreadable;
    assert [] + Content(pieces) == Content(pieces);
    assert [] + Packed(t, key, nonces, 0, Chunks(pieces)) == Packed(t, key, nonces, 0, Chunks(pieces));
  }

  lemma OneTurnOn(t: Tools, key: Key, nonces: Nonces, before: seq<seq<byte>>, pieces: seq<seq<byte>>,
                  broken: bool, turns: nat, written: seq<byte>, done: seq<byte>)
    requires Underway(t, key, nonces, before, pieces, broken, turns, written, done)
    requires pieces != [] && pieces[0] != []
    ensures var (n, left) := ReadOutcome(pieces, MAX_CHUNK_SIZE);
      var chunk := pieces[0][..n];
      if PackChunk(t, key, nonces(turns), chunk).Ok? then
        Underway(t, key, nonces, before, left, broken, turns + 1, written + ChunkRecord(t, key, nonces(turns), chunk),
                 done + chunk)
      else
        && Packed(t, key, nonces, 0, Chunks(before)) == written
        && Packable(t, key, nonces, 0, Chunks(before)) < |Chunks(before)|
  {
    hide Packed, Chunks, Content, Packable, Unreadable, ReadOutcome, ChunkRecord, PackChunk;
    ReadTurn(pieces, MAX_CHUNK_SIZE, broken);
    ChunksTurn(pieces);
    var (n, left) := ReadOutcome(pieces, MAX_CHUNK_SIZE);
    var chunk := pieces[0][..n];
    PackedTurn(t, key, nonces, turns, chunk, Chunks(left));
    assert done + (chunk + Content(left)) == done + chunk + Content(left);
    if PackChunk(t, key, nonces(turns), chunk).Ok? {
      var record := ChunkRecord(t, key, nonces(turns), chunk);
      assert written + (record + Packed(t, key, nonces, turns + 1, Chunks(left)))
          == written + record + Packed(t, key, nonces, turns + 1, Chunks(left));
    } else {
      assert written + [] == written;
    }
  }

  /** Nothing is left: everything has been packed, written and read. */
  lemma AllDone(t: Tools, key: Key, nonces: Nonces, before: seq<seq<byte>>, pieces: seq<seq<byte>>,
                broken: bool, turns: nat, written: seq<byte>, done: seq<byte>)
    requires Underway(t, key, nonces, before, pieces, broken, turns, written, done)
    requires pieces == [] || pieces[0] == []
    ensures Packed(t, key, nonces, 0, Chunks(before)) == written && Content(before) == done
    ensures Packable(t, key, nonces, 0, Chunks(before)) == |Chunks(before)|
    ensures Unreadable(before, broken) <==> pieces == [] && broken
  {
    ChunksTurn(pieces);
    assert Content(pieces) == [];
    assert done + [] == done && written + [] == written;
  }

  /** `process_reader`. Whatever happens, what is written is the beginning of the records of the
      chunks that can be packed, and these records read back as the beginning of the input. It
      succeeds exactly when everything could be read, packed and written; then the records read
      back as the whole input and the total is its length. */
  method ProcessReader(reader: Reader, writer: Sink, t: Tools, key: Key, nonces: Nonces) returns (r: Result<u64>)
    requires Lawful(t)
    modifies reader, writer
    ensures var input, chunks := Content(old(reader.pieces)), Chunks(old(reader.pieces));
      var packed, n := Packed(t, key, nonces, 0, chunks), Packable(t, key, nonces, 0, chunks);
      && writer.sent == old(writer.sent) + Clip(packed, old(writer.budget))
      && UnpackStream(t, key, packed) == Ok(Flatten(chunks[..n])) && Flatten(chunks[..n]) <= input
      && (r.Ok? <==> n == |chunks| && |packed| <= old(writer.budget) && !Unreadable(old(reader.pieces), reader.broken))
      && (r.Ok? ==>
          r.value == |input| % U64_LIMIT && writer.sent == old(writer.sent) + packed
              && UnpackStream(t, key, packed) == Ok(input))
  {
    hide Packed, Chunks, Content, Packable, Unreadable, ReadOutcome, UnpackStream, Underway, Clip, Flatten, Record,
        PackChunk, Lawful;
    ghost var before, start, budget := reader.pieces, writer.sent, writer.budget;
    Outcome(t, key, nonces, before);
    var buffer := new byte[MAX_CHUNK_SIZE];
    var total: u64 := 0;
    var turns: nat := 0;
    ghost var written: seq<byte>, done: seq<byte> := [], [];
    SettingOff(t, key, nonces, before, reader.broken);
    assert start + written == start;
    while true
      invariant Underway(t, key, nonces, before, reader.pieces, reader.broken, turns, written, done)
      invariant writer.sent == start + written && writer.budget == budget - |written| && |written| <= budget
      invariant total == |done| % U64_LIMIT
      decreases |Flatten(reader.pieces)|
    {
      ghost var pieces := reader.pieces;
      ReadTurn(pieces, MAX_CHUNK_SIZE, reader.broken);
      FitsWhole(written, budget);
      if pieces == [] || pieces[0] == [] {
        AllDone(t, key, nonces, before, pieces, reader.broken, turns, written, done);
      } else {
        OneTurnOn(t, key, nonces, before, pieces, reader.broken, turns, written, done);
      }
      var read := reader.Read(buffer);
      if read.Err? {
        return Err(read.error);
      }
      if read.value == 0 {
        break;
      }
      var chunk := buffer[..read.value];
      var packed := PackChunk(t, key, nonces(turns), chunk);
      if packed.Err? {
        return Err(packed.error);
      }
      var (encrypted, compression, nonce) := packed.value;
      ghost var record := ChunkRecord(t, key, nonces(turns), chunk);
      var ok := WriteRecord(writer, encrypted, compression, nonce);
      if !ok {
        WriteFailed(t, key, nonces, before, reader.pieces, reader.broken, turns + 1, written, record, done + chunk,
                    start, budget);
        return Err("write failed");
      }
      FitsWhole(record, budget - |written|);
      assert start + written + record == start + (written + record);
      written := written + record;
      turns := turns + 1;
      AddingWraps(|done|, |chunk|);
      total := (total + |chunk|) % U64_LIMIT;
      done := done + chunk;
    }
    r := Ok(total);
  }

  lemma WriteFailed(t: Tools, key: Key, nonces: Nonces, before: seq<seq<byte>>, pieces: seq<seq<byte>>,
                    broken: bool, turns: nat, written: seq<byte>, record: seq<byte>, done: seq<byte>,
                    start: seq<byte>, budget: nat)
    requires Underway(t, key, nonces, before, pieces, broken, turns, written + record, done)
    requires |written| <= budget < |written + record|
    ensures var packed := Packed(t, key, nonces, 0, Chunks(before));
      |packed| > budget && start + written + Clip(record, budget - |written|) == start + Clip(packed, budget)
  {
    hide Packed, Chunks, Content, Packable, Unreadable;
    var packed := Packed(t, key, nonces, 0, Chunks(before));
    assert packed[..budget] == written + record[..budget - |written|];
  }

  lemma Outcome(t: Tools, key: Key, nonces: Nonces, pieces: seq<seq<byte>>)
    requires Lawful(t)
    ensures var chunks := Chunks(pieces);
      var n := Packable(t, key, nonces, 0, chunks);
      && UnpackStream(t, key, Packed(t, key, nonces, 0, chunks)) == Ok(Flatten(chunks[..n]))
      && Flatten(chunks[..n]) <= Content(pieces)
      && (n == |chunks| ==> Flatten(chunks[..n]) == Content(pieces))
  {
    hide Packed, Packable, UnpackStream, Lawful, Content;
    var chunks := Chunks(pieces);
    UnpackPacked(t, key, nonces, 0, chunks);
    FlattenPrefix(chunks, Packable(t, key, nonces, 0, chunks));
    assert chunks[..|chunks|] == chunks;
  }

  lemma {:induction false} FlattenPrefix(chunks: seq<seq<byte>>, n: nat)
    requires n <= |chunks|
    ensures Flatten(chunks[..n]) <= Flatten(chunks)
  {
    if n > 0 {
      FlattenPrefix(chunks[1..], n - 1);
      assert chunks[..n][1..] == chunks[1..][..n - 1];
    }
  }
}
