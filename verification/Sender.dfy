/**
  The sender of `src/bin/tailsfer-send.rs` as it runs: offer, decision, upload, verdict. What it
  does is also a schedule of the sender's moves in the interleaved model.
*/
module Sender {
  import opened Wrappers
  import opened Bytes
  import opened Streams
  import opened Protocol
  import opened Offers
  import opened Decisions
  import opened Hashing
  import opened ProgressReports
  import opened Conversation
  import opened Sending
  import opened Connections
  import opened Transfers
  import opened Driving

  /** What the upload loop has read and written, piece by piece. */
  function SentAll(h: StreamHash, offer: TransferOffer, parts: seq<seq<byte>>): Upload {
    if parts == [] then StartUpload(h)
    else Sent(h, offer, SentAll(h, offer, parts[..|parts| - 1]), parts[|parts| - 1])
  }

  /** Pieces that a read into the buffer can return. */
  predicate Sendables(parts: seq<seq<byte>>) {
    forall p | p in parts :: 0 < |p| <= CHUNK_SIZE
  }

  lemma SentNothing(h: StreamHash, offer: TransferOffer)
    ensures SentAll(h, offer, []) == StartUpload(h) && SentAll(h, offer, []).data == []
  {
  }

  lemma SentOneMore(h: StreamHash, offer: TransferOffer, parts: seq<seq<byte>>, part: seq<byte>)
    ensures SentAll(h, offer, parts + [part]) == Sent(h, offer, SentAll(h, offer, parts), part)
    ensures SentAll(h, offer, parts + [part]).data == SentAll(h, offer, parts).data + part
  {
    assert (parts + [part])[..|parts|] == parts;
  }

  /** One turn of the upload loop: read a piece and write it. */
  method SendPiece(send: Sink, file: Reader, buffer: array<byte>) returns (r: Result<seq<byte>>, ghost part: seq<byte>)
    requires buffer.Length > 0
    modifies send, file, buffer
    ensures r.Ok? ==>
      && (r.value != [] ==> Content(old(file.pieces)) == r.value + Content(file.pieces))
      && (r.value == [] ==> Content(old(file.pieces)) == [] && !Unreadable(old(file.pieces), file.broken))
      && (r.value != [] ==> |Flatten(file.pieces)| < |Flatten(old(file.pieces))|)
      && (r.value != [] ==> (Unreadable(file.pieces, file.broken) <==> Unreadable(old(file.pieces), file.broken)))
      && send.sent == old(send.sent) + r.value && send.budget == old(send.budget) - |r.value|
    ensures r.Err? ==>
      && (Unreadable(old(file.pieces), file.broken) || |Content(old(file.pieces))| > old(send.budget))
      && part <= Content(old(file.pieces)) && |part| <= old(send.budget)
    ensures send.sent == old(send.sent) + part && |part| <= buffer.Length && (r.Ok? ==> part == r.value)
  {
    hide Unreadable;
    part := [];
    assert send.sent + [] == send.sent;
    ReadTurn(file.pieces, buffer.Length, file.broken);
    ghost var pieces := file.pieces;
    var reading := file.Read(buffer);
    if reading.Err? {
      return Err(reading.error), part;
    }
    var read := reading.value;
    if read == 0 {
      return Ok([]), part;
    }
    var piece := buffer[..read];
    part := Clip(piece, send.budget);
    assert part <= piece <= Content(pieces);
    var ok := send.WriteAll(piece);
    if !ok {
      return Err("connection lost"), part;
    }
    r := Ok(piece);
  }

  /** The upload loop. */
  method UploadLoop(send: Sink, file: Reader, offer: TransferOffer, h: StreamHash)
    returns (r: Result<(u64, Digest)>, printed: seq<nat>, ghost u: Upload, ghost parts: seq<seq<byte>>)
    modifies send, file
    ensures UploadOk(h, offer, u) && u.progress.printed == printed
    ensures Sendables(parts) && send.sent == old(send.sent) + SentAll(h, offer, parts).data
    ensures SentAll(h, offer, parts).data <= Content(old(file.pieces))
    ensures |SentAll(h, offer, parts).data| <= old(send.budget)
    ensures r.Ok? ==> u == SentAll(h, offer, parts)
    ensures u.data <= Content(old(file.pieces))
    ensures r.Ok? ==>
      && u.data == Content(old(file.pieces)) && !Unreadable(old(file.pieces), file.broken)
      && r.value == (u.total, h.finish(u.hash))
    ensures r.Err? ==> Unreadable(old(file.pieces), file.broken) || |Content(old(file.pieces))| > old(send.budget)
  {
    hide Absorb, Amortised, Content, Unreadable, Flatten, SentAll, UploadOk;
    SentNothing(h, offer);
    var buffer := new byte[CHUNK_SIZE];
    var total: u64 := 0;
    var hasher := h.init;
    var lastReportedMib: nat := 0;
    printed := [];
    u := StartUpload(h);
    parts := [];
    StartUploadOk(h, offer);
    assert [] + Content(file.pieces) == Content(file.pieces) && send.sent + [] == send.sent;
    while true
      invariant UploadOk(h, offer, u) && u.total == total && u.hash == hasher
        && u.progress == Progress(lastReportedMib, printed)
      invariant u == SentAll(h, offer, parts) && Sendables(parts)
      invariant u.data + Content(file.pieces) == Content(old(file.pieces)) && |u.data| <= old(send.budget)
      invariant send.sent == old(send.sent) + u.data && send.budget == old(send.budget) - |u.data|
      invariant Unreadable(file.pieces, file.broken) <==> Unreadable(old(file.pieces), file.broken)
      decreases |Flatten(file.pieces)|
    {
      ghost var pieces := file.pieces;
      var read;
      ghost var part;
      read, part := SendPiece(send, file, buffer);
      SentOneMore(h, offer, parts, part);
      assert old(send.sent) + u.data + part == old(send.sent) + (u.data + part);
      if read.Err? {
        assert u.data + part <= u.data + Content(pieces);
        return Err(read.error), printed, u, if part == [] then parts else parts + [part];
      }
      var piece := read.value;
      if piece == [] {
        break;
      }
      assert u.data + Content(pieces) == (u.data + piece) + Content(file.pieces);
      SentKeepsUploadOk(h, offer, u, piece);
      u := Sent(h, offer, u, piece);
      parts := parts + [piece];
      hasher := Absorb(h, hasher, piece);
      total := (total + |piece|) % U64_LIMIT;
      var currentMib := total / MEBIBYTE;
      if currentMib >= lastReportedMib + 64 || total == offer.fileSize {
        printed := printed + [total];
        lastReportedMib := currentMib;
      }
    }
    r := Ok((total, h.finish(hasher)));
  }

  /** The upload, the size check after it, and `finish`. It succeeds exactly when the whole file
      could be read and written and had the announced size, and then everything read has been
      sent, in order, and nothing else. */
  method StreamFile(send: Sink, file: Reader, offer: TransferOffer, h: StreamHash)
    returns (r: Result<(u64, Digest)>, printed: seq<nat>, ghost parts: seq<seq<byte>>)
    modifies send, file
    ensures Sendables(parts) && send.sent == old(send.sent) + SentAll(h, offer, parts).data
    ensures SentAll(h, offer, parts).data <= Content(old(file.pieces))
    ensures |SentAll(h, offer, parts).data| <= old(send.budget)
    ensures r.Ok? ==> SentAll(h, offer, parts).total == offer.fileSize
    ensures r.Ok? ==> r.value.1 == h.finish(SentAll(h, offer, parts).hash)
    ensures var data := Content(old(file.pieces));
      && (r.Ok? <==>
            && !Unreadable(old(file.pieces), file.broken) && |data| <= old(send.budget)
            && |data| % U64_LIMIT == offer.fileSize)
      && (r.Ok? ==>
          r.value == (offer.fileSize, DigestOf(h, data)) && send.sent == old(send.sent) + data && send.finished)
      && (|data| < U64_LIMIT ==> |printed| <= |data| / (64 * MEBIBYTE) + 1)
  {
    hide Absorb, Amortised, Content, Unreadable;
    ghost var u;
    r, printed, u, parts := UploadLoop(send, file, offer, h);
    PrintedBound(h, offer, u);
    if r.Ok? {
      if r.value.0 != offer.fileSize {
        return Err("local file size changed during transfer"), printed, parts;
      }
      send.Finish();
    }
  }

  /** `read_frame`. */
  method ReadFrame(recv: RecvStream) returns (r: Result<Frame>)
    modifies recv
    ensures var front := TakeFrame(old(recv.Pending()));
      && (r.Ok? <==> front.Got?)
      && (r.Ok? ==> r.value == front.frame && recv.Pending() == front.rest)
      && (front.TooLarge? ==> r == Err("frame payload too large"))
      && (front.Malformed? ==> r == Err(front.error))
  {
    hide Decode, Flatten;
    ghost var stream := recv.Pending();
    var header :- recv.ReadExact(5);
    assert header[1..5] == stream[1..5];
    var payloadLen := FromBigEndian(header[1..5]);
    if payloadLen > MAX_FRAME_SIZE {
      return Err("frame payload too large");
    }
    var payload :- recv.ReadExact(payloadLen);
    assert header + payload == stream[..5 + payloadLen];
    assert stream[5..][payloadLen..] == stream[5 + payloadLen..];
    r := DecodeFrame(header + payload);
  }

  /** Everything a completed conversation looks like from the sender's side. */
  predicate FullConversation(id: Id, hash: Digest, heard: seq<byte>) {
    Words(id, Confirmed(hash)) <= heard
  }

  /** Reading two frames and judging them is looking for the full conversation at the front. */
  lemma TwoFramesJudged(id: Id, hash: Digest, heard: seq<byte>)
    ensures FullConversation(id, hash, heard) <==>
      var first := TakeFrame(heard);
      && first.Got? && JudgeDecision(id, first.frame) == Streaming
      && var second := TakeFrame(first.rest);
      && second.Got? && JudgeVerdict(id, hash, second.frame) == Done
  {
    hide TakeFrame, JudgeDecision, JudgeVerdict, Wire;
    var accept, verified := DecisionFrame(Accepted, id), VerifiedFrame(id, hash);
    if FullConversation(id, hash, heard) {
      var rest := heard[|Words(id, Confirmed(hash))|..];
      assert heard == Wire(accept) + (Wire(verified) + rest);
      TakeFrameExact(heard, accept, Wire(verified) + rest);
      TakeFrameExact(Wire(verified) + rest, verified, rest);
      JudgeDecisionExact(id, accept);
      JudgeVerdictExact(id, hash, verified);
    }
    var first := TakeFrame(heard);
    if first.Got? {
      TakeFrameExact(heard, first.frame, first.rest);
      JudgeDecisionExact(id, first.frame);
      var second := TakeFrame(first.rest);
      if second.Got? {
        TakeFrameExact(first.rest, second.frame, second.rest);
        JudgeVerdictExact(id, hash, second.frame);
        assert Wire(accept) + (Wire(verified) + second.rest) == Wire(accept) + Wire(verified) + second.rest;
      }
    }
  }

  // ---- The same as a schedule

  predicate IsSenderMove(m: Move) {
    m.SendOffer? || m.HearDecision? || m.ReadFile? || m.EndOfFile? || m.HearVerdict? || m.SenderQuits?
  }

  /** The connection after moves of the sender. */
  function RunSender(h: StreamHash, c: Conn, moves: seq<Move>): (d: Conn)
    requires Valid(c.offer)
    ensures d.offer == c.offer
  {
    if moves == [] then c
    else
      var d := RunSender(h, c, moves[..|moves| - 1]);
      SenderKeepsToItself(h, d, moves[|moves| - 1]);
      SenderMove(h, d, moves[|moves| - 1])
  }

  lemma RunSenderOn(h: StreamHash, c: Conn, moves: seq<Move>, m: Move)
    requires Valid(c.offer)
    ensures RunSender(h, c, moves + [m]) == SenderMove(h, RunSender(h, c, moves), m)
  {
    assert (moves + [m])[..|moves|] == moves;
  }

  lemma RunSenderTwo(h: StreamHash, c: Conn, m: Move, n: Move)
    requires Valid(c.offer)
    ensures RunSender(h, c, [m]) == SenderMove(h, c, m)
    ensures RunSender(h, c, [m] + [n]) == SenderMove(h, RunSender(h, c, [m]), n)
  {
    hide SenderMove, Valid;
    assert RunSender(h, c, []) == c && [] + [m] == [m];
    RunSenderOn(h, c, [], m);
    RunSenderOn(h, c, [m], n);
  }

  lemma StepsTheSender(h: StreamHash, s: System, i: nat, m: Move)
    requires i < |s.conns| && Valid(s.conns[i].offer) && IsSenderMove(m)
    ensures var t := Step(h, s, Action(i, m));
      t.conns == s.conns[i := SenderMove(h, s.conns[i], m)] && t.files == s.files
  {
    hide SenderMove, Valid;
  }

  /** These moves are a schedule, and change nothing but the connection. */
  lemma {:induction false} SchedulesTheSender(h: StreamHash, s: System, i: nat, moves: seq<Move>)
    requires i < |s.conns| && Valid(s.conns[i].offer) && forall m | m in moves :: IsSenderMove(m)
    ensures var t := Run(h, s, By(i, moves));
      t.conns == s.conns[i := RunSender(h, s.conns[i], moves)] && t.files == s.files
  {
    hide SenderMove, Step, Valid, IsSenderMove;
    if moves == [] {
      assert By(i, moves) == [] && s.conns[i := s.conns[i]] == s.conns;
    } else {
      var most, m := moves[..|moves| - 1], moves[|moves| - 1];
      SchedulesTheSender(h, s, i, most);
      assert m in moves && By(i, moves) == By(i, most) + [Action(i, m)] && most + [m] == moves;
      RunSenderOn(h, s.conns[i], most, m);
      RunConcat(h, s, By(i, most), [Action(i, m)]);
      RunOne(h, Run(h, s, By(i, most)), Action(i, m));
      hide Run, RunSender, By;
      StepsTheSender(h, Run(h, s, By(i, most)), i, m);
    }
  }

  /** The sender's end of a connection on which all that the receiver will ever say is under way. */
  function Listening(h: StreamHash, offer: TransferOffer, heard: seq<byte>): (c: Conn)
    ensures c.offer == offer
  {
    Start(h, offer).(back := Pipe(heard, [], heard, Finished))
  }

  function Uploads(parts: seq<seq<byte>>): seq<Move> {
    seq(|parts|, k requires 0 <= k < |parts| => ReadFile(parts[k]))
  }

  lemma UploadOne(h: StreamHash, c: Conn, part: seq<byte>)
    requires Valid(c.offer) && c.phase == Streaming && 0 < |part| <= CHUNK_SIZE
    requires |c.fwd.sent| + |part| <= STREAM_LIMIT
    ensures var d := SenderMove(h, c, ReadFile(part));
      && d.phase == Streaming && d.up == Sent(h, c.offer, c.up, part) && d.back == c.back
      && d.fwd.sent == c.fwd.sent + part
  {
    hide Sent, Valid;
  }

  /** The connection `d` is `c` after these pieces have been read and sent. */
  ghost predicate Uploaded(h: StreamHash, c: Conn, parts: seq<seq<byte>>, d: Conn) {
    && d.offer == c.offer && d.phase == Streaming && d.up == SentAll(h, c.offer, parts) && d.back == c.back
    && d.fwd.sent == c.fwd.sent + SentAll(h, c.offer, parts).data
  }

  lemma UploadedOneMore(h: StreamHash, c: Conn, most: seq<seq<byte>>, part: seq<byte>, d: Conn)
    requires Uploaded(h, c, most, d) && Valid(c.offer) && 0 < |part| <= CHUNK_SIZE
    requires |c.fwd.sent| + |SentAll(h, c.offer, most + [part]).data| <= STREAM_LIMIT
    ensures Uploaded(h, c, most + [part], SenderMove(h, d, ReadFile(part)))
    ensures |SentAll(h, c.offer, most).data| <= |SentAll(h, c.offer, most + [part]).data|
  {
    hide Sent, SentAll, Valid, SenderMove;
    SentOneMore(h, c.offer, most, part);
    SenderKeepsToItself(h, d, ReadFile(part));
    var data := SentAll(h, c.offer, most).data;
    UploadOne(h, d, part);
    assert c.fwd.sent + data + part == c.fwd.sent + (data + part);
  }

  lemma {:induction false} UploadRuns(h: StreamHash, c: Conn, parts: seq<seq<byte>>)
    requires Valid(c.offer) && c.phase == Streaming && c.up == StartUpload(h) && Sendables(parts)
    requires |c.fwd.sent| + |SentAll(h, c.offer, parts).data| <= STREAM_LIMIT
    ensures Uploaded(h, c, parts, RunSender(h, c, Uploads(parts)))
  {
    hide Sent, Valid, SenderMove;
    if parts == [] {
      assert c.fwd.sent + [] == c.fwd.sent && Uploads(parts) == [];
    } else {
      hide SentAll, Uploaded, RunSender;
      var most, part := parts[..|parts| - 1], parts[|parts| - 1];
      assert most + [part] == parts && part in parts && forall p | p in most :: p in parts;
      SentOneMore(h, c.offer, most, part);
      UploadRuns(h, c, most);
      assert Uploads(parts) == Uploads(most) + [ReadFile(part)];
      RunSenderOn(h, c, Uploads(most), ReadFile(part));
      UploadedOneMore(h, c, most, part, RunSender(h, c, Uploads(most)));
    }
  }

  lemma {:induction false} RunSenderConcat(h: StreamHash, c: Conn, a: seq<Move>, b: seq<Move>)
    requires Valid(c.offer)
    ensures RunSender(h, c, a + b) == RunSender(h, RunSender(h, c, a), b)
  {
    if b == [] {
      assert a + b == a;
    } else {
      assert (a + b)[..|a + b| - 1] == a + b[..|b| - 1];
      RunSenderConcat(h, c, a, b[..|b| - 1]);
    }
  }

  /** What hearing a frame comes to, and what is left to hear. */
  lemma Heard(c: Conn, judge: Frame -> SenderPhase)
    requires c.back.state == Finished
    ensures var front := TakeFrame(c.back.queue);
      var d := Hear(c, judge);
      && (if front.Got? then d.phase == judge(front.frame) && d.back.queue == front.rest else d.phase.Failed?)
      && d.back.state == Finished && d.fwd == c.fwd && d.up == c.up
  {
    hide Wire, TakeFrame;
    var front := TakeFrame(c.back.queue);
    if front.Got? {
      TakeFrameExact(c.back.queue, front.frame, front.rest);
    }
  }

  /** The connection once the offer is out and the decision has been heard. */
  function Decided(h: StreamHash, offer: TransferOffer, heard: seq<byte>): Conn
    requires Valid(offer)
  {
    RunSender(h, Listening(h, offer, heard), [SendOffer] + [HearDecision])
  }

  lemma OfferOut(h: StreamHash, offer: TransferOffer, heard: seq<byte>)
    requires Valid(offer)
    ensures var c := RunSender(h, Listening(h, offer, heard), [SendOffer]);
      && c.phase == AwaitingDecision && c.fwd.sent == OfferWords(offer) && c.up == StartUpload(h)
      && c.back.queue == heard && c.back.state == Finished
  {
    hide OfferWords, Valid;
    RunSenderOn(h, Listening(h, offer, heard), [], SendOffer);
    assert [] + OfferWords(offer) == OfferWords(offer) && [] + [SendOffer] == [SendOffer];
  }

  lemma DecisionHeard(h: StreamHash, offer: TransferOffer, heard: seq<byte>)
    requires Valid(offer)
    ensures var front, c := TakeFrame(heard), Decided(h, offer, heard);
      && c.fwd.sent == OfferWords(offer) && c.up == StartUpload(h) && c.back.state == Finished
      && (if front.Got? then c.phase == JudgeDecision(offer.transferId, front.frame) && c.back.queue == front.rest
          else c.phase.Failed?)
  {
    OfferOut(h, offer, heard);
    RunSenderOn(h, Listening(h, offer, heard), [SendOffer], HearDecision);
    var c := RunSender(h, Listening(h, offer, heard), [SendOffer]);
    Heard(c, f => JudgeDecision(offer.transferId, f));
    hide RunSender, OfferWords, TakeFrame, Hear, JudgeDecision, Valid;
  }

  /** The moves that a call amounts to: the offer, the decision, what was read and sent, and the end. */
  function Call(parts: seq<seq<byte>>, last: seq<Move>): seq<Move> {
    [SendOffer] + [HearDecision] + Uploads(parts) + last
  }

  lemma CallRuns(h: StreamHash, offer: TransferOffer, heard: seq<byte>, parts: seq<seq<byte>>, last: seq<Move>)
    requires Valid(offer) && Decided(h, offer, heard).phase == Streaming && Sendables(parts)
    requires |OfferWords(offer)| + |SentAll(h, offer, parts).data| <= STREAM_LIMIT
    ensures var d := RunSender(h, Decided(h, offer, heard), Uploads(parts));
      && RunSender(h, Listening(h, offer, heard), Call(parts, last)) == RunSender(h, d, last)
      && d.offer == offer && d.phase == Streaming && d.up == SentAll(h, offer, parts)
      && d.back == Decided(h, offer, heard).back && d.fwd.sent == OfferWords(offer) + d.up.data
  {
    var c0, c := Listening(h, offer, heard), Decided(h, offer, heard);
    DecisionHeard(h, offer, heard);
    UploadRuns(h, c, parts);
    hide RunSender, OfferWords, Valid, SentAll;
    RunSenderConcat(h, c0, [SendOffer] + [HearDecision], Uploads(parts));
    RunSenderConcat(h, c0, [SendOffer] + [HearDecision] + Uploads(parts), last);
  }

  /** The machine and the program end alike: in the same phase, or both with an error. */
  predicate EndsAs(outcome: SenderPhase, phase: SenderPhase) {
    outcome == phase || (outcome.Failed? && phase.Failed?)
  }

  /** The call gives up with an error after it has sent some of its file. */
  lemma GivesUp(h: StreamHash, offer: TransferOffer, heard: seq<byte>, parts: seq<seq<byte>>)
    requires Valid(offer) && Decided(h, offer, heard).phase == Streaming && Sendables(parts)
    requires |OfferWords(offer)| + |SentAll(h, offer, parts).data| <= STREAM_LIMIT
    ensures var d := RunSender(h, Listening(h, offer, heard), Call(parts, [SenderQuits(true)]));
      d.phase.Failed? && d.fwd.sent == OfferWords(offer) + SentAll(h, offer, parts).data
  {
    hide OfferWords, Valid, SentAll, Decided, RunSender, Call, Listening;
    CallRuns(h, offer, heard, parts, [SenderQuits(true)]);
    var d := RunSender(h, Decided(h, offer, heard), Uploads(parts));
    RunSenderTwo(h, d, SenderQuits(true), SenderQuits(true));
  }

  const LISTEN_MOVES: seq<Move> := [EndOfFile] + [HearVerdict]

  /** The call sends its whole file and hears the verdict. */
  lemma HearsVerdict(h: StreamHash, offer: TransferOffer, heard: seq<byte>, parts: seq<seq<byte>>)
    requires Valid(offer) && Decided(h, offer, heard).phase == Streaming && Sendables(parts)
    requires |OfferWords(offer)| + |SentAll(h, offer, parts).data| <= STREAM_LIMIT
    requires SentAll(h, offer, parts).total == offer.fileSize
    ensures var d := RunSender(h, Listening(h, offer, heard), Call(parts, LISTEN_MOVES));
      var front := TakeFrame(Decided(h, offer, heard).back.queue);
      && d.fwd.sent == OfferWords(offer) + SentAll(h, offer, parts).data
      && (if front.Got?
          then d.phase == JudgeVerdict(offer.transferId, h.finish(SentAll(h, offer, parts).hash), front.frame)
          else d.phase.Failed?)
  {
    hide RunSender, OfferWords, Valid, SentAll, TakeFrame, JudgeVerdict, Hear, Decided, Call, Listening, JudgeDecision;
    CallRuns(h, offer, heard, parts, LISTEN_MOVES);
    DecisionHeard(h, offer, heard);
    var d := RunSender(h, Decided(h, offer, heard), Uploads(parts));
    RunSenderTwo(h, d, EndOfFile, HearVerdict);
    var e := RunSender(h, d, [EndOfFile]);
    assert e == d.(phase := AwaitingVerdict, fwd := Close(d.fwd));
    Heard(e, f => JudgeVerdict(offer.transferId, h.finish(e.up.hash), f));
  }

  /** The accepted half: the file, and the verdict. `out` is what of the file got out. */
  method StreamAndHear(send: Sink, recv: RecvStream, file: Reader, offer: TransferOffer, h: StreamHash,
                       ghost heard: seq<byte>)
    returns (outcome: SenderPhase, ghost moves: seq<Move>, ghost out: seq<byte>)
    requires Valid(offer) && Decided(h, offer, heard).phase == Streaming
    requires recv.Pending() == Decided(h, offer, heard).back.queue
    modifies send, recv, file
    ensures forall m | m in moves :: IsSenderMove(m)
    ensures send.sent == old(send.sent) + out && |out| <= old(send.budget)
    ensures |OfferWords(offer)| + old(send.budget) <= STREAM_LIMIT ==>
      var d := RunSender(h, Listening(h, offer, heard), moves);
      EndsAs(outcome, d.phase) && d.fwd.sent == OfferWords(offer) + out
    ensures var data, verdict := Content(old(file.pieces)), TakeFrame(old(recv.Pending()));
      && (outcome == Done <==>
            && |data| <= old(send.budget) && !Unreadable(old(file.pieces), file.broken)
            && |data| % U64_LIMIT == offer.fileSize
            && verdict.Got? && JudgeVerdict(offer.transferId, DigestOf(h, data), verdict.frame) == Done)
      && (outcome == Done ==> out == data && send.finished)
  {
    hide Wire, TakeFrame, Content, Unreadable, DigestOf, JudgeVerdict, Flatten, RunSender, SentAll, Decided, Listening,
        Valid, OfferWords;
    ghost var fits := |OfferWords(offer)| + send.budget <= STREAM_LIMIT;
    var streamed, printed;
    ghost var parts;
    streamed, printed, parts := StreamFile(send, file, offer, h);
    out := SentAll(h, offer, parts).data;
    if streamed.Err? {
      if fits {
        GivesUp(h, offer, heard, parts);
      }
      return Failed(streamed.error), Call(parts, [SenderQuits(true)]), out;
    }
    if fits {
      HearsVerdict(h, offer, heard, parts);
    }
    moves := Call(parts, LISTEN_MOVES);
    var verdict := ReadFrame(recv);
    if verdict.Err? {
      return Failed("receiver connection ended before verification"), moves, out;
    }
    outcome := JudgeVerdict(offer.transferId, streamed.value.1, verdict.value);
  }

  /** The protocol part of `main`. It prints TRANSFER COMPLETE exactly when the offer and the whole
      file got out, the file had the announced size, and the receiver's side of the stream holds
      acceptance and verification with this transfer's id and the hash of what was sent. */
  method SendTransfer(send: Sink, recv: RecvStream, file: Reader, offer: TransferOffer, h: StreamHash)
    returns (outcome: SenderPhase, ghost moves: seq<Move>)
    requires Valid(offer)
    modifies send, recv, file
    ensures forall m | m in moves :: IsSenderMove(m)
    ensures old(send.budget) <= STREAM_LIMIT ==>
      var d := RunSender(h, Listening(h, offer, old(recv.Pending())), moves);
      EndsAs(outcome, d.phase) && send.sent == old(send.sent) + Clip(d.fwd.sent, old(send.budget))
    ensures var data := Content(old(file.pieces));
      && (outcome == Done <==>
            && |Wire(OfferFrame(offer)) + data| <= old(send.budget)
            && !Unreadable(old(file.pieces), file.broken) && |data| % U64_LIMIT == offer.fileSize
            && FullConversation(offer.transferId, DigestOf(h, data), old(recv.Pending())))
      && (outcome == Done ==> send.sent == old(send.sent) + Wire(OfferFrame(offer)) + data && send.finished)
  {
    hide Wire, TakeFrame, Content, Unreadable, DigestOf, JudgeDecision, JudgeVerdict, FullConversation, Flatten,
        RunSender, SentAll, Decided, Listening, Valid;
    ghost var heard, budget, start := recv.Pending(), send.budget, send.sent;
    TwoFramesJudged(offer.transferId, DigestOf(h, Content(file.pieces)), heard);
    DecisionHeard(h, offer, heard);
    var encoded := EncodeFrame(OfferFrame(offer));
    var written := send.WriteAll(encoded.value);
    if !written {
      OfferLost(h, offer, heard);
      return Failed("connection lost"), [SendOffer] + [SenderQuits(true)];
    }
    moves := [SendOffer] + [HearDecision];
    DecidedIs(h, offer, heard);
    var decision := ReadFrame(recv);
    if decision.Err? {
      return Failed(decision.error), moves;
    }
    outcome := JudgeDecision(offer.transferId, decision.value);
    if outcome != Streaming {
      JudgeDecisionExact(offer.transferId, decision.value);
      return;
    }
    ghost var words, out := OfferWords(offer), [];
    outcome, moves, out := StreamAndHear(send, recv, file, offer, h, heard);
    assert start + words + out == start + (words + out);
  }

  lemma DecidedIs(h: StreamHash, offer: TransferOffer, heard: seq<byte>)
    requires Valid(offer)
    ensures Decided(h, offer, heard) == RunSender(h, Listening(h, offer, heard), [SendOffer] + [HearDecision])
  {
  }

  lemma OfferLost(h: StreamHash, offer: TransferOffer, heard: seq<byte>)
    requires Valid(offer)
    ensures var d := RunSender(h, Listening(h, offer, heard), [SendOffer] + [SenderQuits(true)]);
      d.phase.Failed? && d.fwd.sent == OfferWords(offer)
  {
    OfferOut(h, offer, heard);
    RunSenderOn(h, Listening(h, offer, heard), [SendOffer], SenderQuits(true));
    hide RunSender, OfferWords, Valid;
  }
}
