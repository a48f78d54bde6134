/**
  One transfer as two programs talking over two ordered byte channels. A move is one thing one
  of them does between two awaits, or one thing the network does; who moves next, how much a
  read returns, who gives up when, and where a channel is cut is up to the schedule. Section 2.2
  of RFC 9000 gives the ordered channels; section 10.2 allows undelivered bytes to be dropped
  when a connection is closed, which is what cutting a channel is.
*/
module Connections {
  import opened Wrappers
  import opened Bytes
  import opened Streams
  import opened Protocol
  import opened Offers
  import opened Decisions
  import opened Hashing
  import opened Receiving
  import opened Conversation
  import opened Sending

  datatype PipeState = Open | Finished | Broken

  /** One direction of the stream: all that was written, all that was read, and what is under way. */
  datatype Pipe = Pipe(sent: seq<byte>, read: seq<byte>, queue: seq<byte>, state: PipeState)

  const EMPTY_PIPE := Pipe([], [], [], Open)

  function Put(p: Pipe, data: seq<byte>): Pipe {
    p.(sent := p.sent + data, queue := if p.state == Open then p.queue + data else p.queue)
  }

  function Take(p: Pipe, n: nat): Pipe
    requires n <= |p.queue|
  {
    p.(read := p.read + p.queue[..n], queue := p.queue[n..])
  }

  /** The writer is done: by `finish`, or by dropping the stream, which finishes it too. */
  function Close(p: Pipe): Pipe {
    if p.state == Open then p.(state := Finished) else p
  }

  /** The connection is gone; only `kept` of the bytes under way still arrive. */
  function Cut(p: Pipe, kept: nat): Pipe {
    p.(queue := if kept <= |p.queue| then p.queue[..kept] else p.queue, state := Broken)
  }

  /** A stream never carries more than its offsets can count. */
  predicate Carries(p: Pipe) {
    |p.sent| <= STREAM_LIMIT && |p.read| <= STREAM_LIMIT
  }

  predicate PipeOk(p: Pipe) {
    && p.read + p.queue <= p.sent
    && (p.state != Broken ==> p.read + p.queue == p.sent)
  }

  lemma PipeStaysOk(p: Pipe, data: seq<byte>, n: nat, kept: nat)
    ensures PipeOk(p) && p.state != Finished ==> PipeOk(Put(p, data))
    ensures PipeOk(p) && n <= |p.queue| ==> PipeOk(Take(p, n))
    ensures PipeOk(p) ==> PipeOk(Close(p)) && PipeOk(Cut(p, kept))
  {
    assert p.read + (p.queue + data) == p.read + p.queue + data;
    if n <= |p.queue| {
      assert p.read + p.queue[..n] + p.queue[n..] == p.read + p.queue;
    }
  }

  /** The receiver: `handle_connection` around one call of `receive_file`. */
  datatype Receiver =
    | ReadingOffer
    | Deciding(offer: TransferOffer)
    | Running(offer: TransferOffer, task: Task)
    | Closed

  /** `saved` is set by a successful rename to the bytes counted and hashed; `tampered` once the
      network has replaced file bytes. */
  datatype Conn = Conn(offer: TransferOffer, phase: SenderPhase, up: Upload, rcv: Receiver, spoken: Spoken,
                       saved: Option<seq<byte>>, fwd: Pipe, back: Pipe, tampered: bool)

  function Start(h: StreamHash, offer: TransferOffer): Conn {
    Conn(offer, Fresh, StartUpload(h), ReadingOffer, Nothing, None, EMPTY_PIPE, EMPTY_PIPE, false)
  }

  /** What an await of the receiving task comes back with, chosen by the schedule. */
  datatype Await =
    | Io(ok: bool)
    | ReadSome(n: nat)
    | ReadSomeUnsaved(n: nat, kept: nat)
    | ReadError
    | TimerFires
    | StreamEnds(flushOk: bool)

  datatype Move =
    | SendOffer
    | HearDecision
    | ReadFile(piece: seq<byte>)
    | EndOfFile
    | HearVerdict
    | SenderQuits(finishes: bool)
    | HearOffer
    | Decide(accept: bool)
    | Work(await: Await)
    | Answer
    | ReceiverQuits(finishes: bool)
    | CutForward(kept: nat)
    | CutBack(kept: nat)
    | Tamper(bytes: seq<byte>)

  function OfferWords(offer: TransferOffer): (w: seq<byte>)
    requires Valid(offer)
    ensures 0 < |w| <= 415
  {
    Wire(OfferFrame(offer))
  }

  function Drop(p: Pipe, finishes: bool): Pipe {
    if finishes then Close(p) else Cut(p, |p.queue|)
  }

  /** A frame is read from the back channel and judged. */
  function Hear(c: Conn, judge: Frame -> SenderPhase): Conn {
    match TakeFrame(c.back.queue)
    case Got(f, rest) =>
      TakeFrameExact(c.back.queue, f, rest);
      c.(phase := judge(f), back := Take(c.back, |Wire(f)|))
    case NeedMore => if c.back.state == Open then c else c.(phase := Failed("connection ended"))
    case TooLarge => c.(phase := Failed("frame payload too large"))
    case Malformed(e) => c.(phase := Failed(e))
  }

  function SenderMove(h: StreamHash, c: Conn, m: Move): Conn
    requires Valid(c.offer)
  {
    match m
    case SendOffer =>
      if c.phase != Fresh then c else c.(phase := AwaitingDecision, fwd := Put(c.fwd, OfferWords(c.offer)))
    case HearDecision =>
      if c.phase != AwaitingDecision then c else Hear(c, f => JudgeDecision(c.offer.transferId, f))
    case ReadFile(piece) =>
      if c.phase != Streaming || piece == [] || |piece| > CHUNK_SIZE || |c.fwd.sent| + |piece| > STREAM_LIMIT then c
      else c.(up := Sent(h, c.offer, c.up, piece), fwd := Put(c.fwd, piece))
    case EndOfFile =>
      if c.phase != Streaming then c
      else if c.up.total != c.offer.fileSize then c.(phase := Failed("local file size changed during transfer"))
      else c.(phase := AwaitingVerdict, fwd := Close(c.fwd))
    case HearVerdict =>
      if c.phase != AwaitingVerdict then c
      else Hear(c, f => JudgeVerdict(c.offer.transferId, h.finish(c.up.hash), f))
    case SenderQuits(finishes) =>
      c.(phase := if c.phase in {Done, TurnedAway} || c.phase.Failed? then c.phase else Failed("stopped"),
         fwd := Drop(c.fwd, finishes))
    case _ => c
  }

  function ReceiverMove(c: Conn, m: Move): Conn {
    match m
    case HearOffer =>
      if !c.rcv.ReadingOffer? then c
      else (match TakeOffer(c.fwd.queue)
            case GotOffer(o, rest) =>
              TakeOfferExact(c.fwd.queue, o, rest);
              c.(rcv := Deciding(o), fwd := Take(c.fwd, |c.fwd.queue| - |rest|))
            case OfferNeedsMore => if c.fwd.state == Open then c else c.(rcv := Closed, back := Close(c.back))
            case BadOffer(_) => c.(rcv := Closed, back := Close(c.back)))
    case Decide(accept) =>
      if !c.rcv.Deciding? then c
      else
        var id := c.rcv.offer.transferId;
        if accept then c.(rcv := Running(c.rcv.offer, Opening), spoken := Agreed, back := Put(c.back, AcceptWords(id)))
        else c.(rcv := Closed, spoken := Declined, back := Close(Put(c.back, RejectWords(id))))
    case Answer =>
      if !(c.rcv.Running? && c.rcv.task.Returned?) then c
      else
        var id := c.rcv.offer.transferId;
        if c.rcv.task.result.Ok? then
          var hash := c.rcv.task.result.value.1;
          c.(rcv := Closed, spoken := Confirmed(hash), back := Close(Put(c.back, VerifiedWords(id, hash))))
        else
          c.(rcv := Closed, spoken := Regretted, back := Close(Put(c.back, RejectWords(id))))
    case ReceiverQuits(finishes) => c.(rcv := Closed, back := Drop(c.back, finishes))
    case _ => c
  }

  function NetworkMove(c: Conn, m: Move): Conn {
    match m
    case CutForward(kept) => c.(fwd := Cut(c.fwd, kept))
    case CutBack(kept) => c.(back := Cut(c.back, kept))
    case Tamper(bytes) =>
      if c.rcv.Running? && c.rcv.task.Copying? then c.(fwd := c.fwd.(queue := bytes), tampered := true) else c
    case _ => c
  }

  /** A read can return the next `n` bytes. */
  predicate Readable(fwd: Pipe, n: nat) {
    1 <= n <= |fwd.queue| && n <= BUFFER_SIZE && |fwd.read| + n <= STREAM_LIMIT
  }

  /** The event an await stands for, if the receiver is in a state to see it. */
  function EventFor(t: Task, fwd: Pipe, a: Await): (e: Option<TaskEvent>)
    ensures e.Some? ==> FitsBuffer(e.value)
    ensures e.Some? && Consumed(e.value) > 0 ==> |fwd.read| + Consumed(e.value) <= STREAM_LIMIT
  {
    match a
    case Io(ok) =>
      (match t
       case Opening => Some(Opened(ok))
       case Creating(_) => Some(Created(ok))
       case Removing(_, _, _) => Some(Removed(ok))
       case Renaming(_, _) => Some(Renamed(ok))
       case _ => None)
    case ReadSome(n) =>
      if t.Copying? && Readable(fwd, n) then Some(Piece(fwd.queue[..n])) else None
    case ReadSomeUnsaved(n, kept) =>
      if t.Copying? && Readable(fwd, n) then Some(PieceUnsaved(fwd.queue[..n], kept)) else None
    case ReadError => if t.Copying? then Some(ReadFailed) else None
    case TimerFires => if t.Copying? then Some(TimedOut) else None
    case StreamEnds(flushOk) =>
      if t.Copying? && fwd.queue == [] && fwd.state == Finished then
        Some(if flushOk then Ended else FlushFailed)
      else
        None
  }

  /** The name under which an open file is found, unless it has been unlinked. */
  type Handle = Option<string>

  /** What a write at an offset makes of a file: a gap before it is filled with zeros. */
  function WriteAt(content: seq<byte>, offset: nat, data: seq<byte>): seq<byte> {
    var padded := if offset <= |content| then content else content + seq(offset - |content|, _ => 0 as byte);
    padded[..offset] + data + (if offset + |data| <= |padded| then padded[offset + |data|..] else [])
  }

  /** Byte by byte: the new bytes where they were written, the old ones elsewhere, zeros in a gap. */
  lemma WriteAtEachByte(content: seq<byte>, offset: nat, data: seq<byte>)
    requires data != []
    ensures var written, end := WriteAt(content, offset, data), offset + |data|;
      && |written| == (if |content| > end then |content| else end)
      && forall k | 0 <= k < |written| ::
        written[k] == if offset <= k < end then data[k - offset] else if k < |content| then content[k] else 0
  {
  }

  /** Writing through an open file, wherever it is by now. */
  function WriteThrough(files: Files, at: Handle, offset: nat, data: seq<byte>): Files {
    if at.Some? && at.value in files && data != [] then
      files[at.value := WriteAt(files[at.value], offset, data)]
    else
      files
  }

  /** As long as the file is at its own name and nobody else has written to it, this is appending. */
  lemma WritingThroughAppends(files: Files, name: string, offset: nat, data: seq<byte>)
    requires name in files && |files[name]| == offset
    ensures WriteThrough(files, Some(name), offset, data) == Append(files, name, data)
  {
    if data == [] {
      assert files[name] + [] == files[name];
    } else {
      assert WriteAt(files[name], offset, data) == files[name] + data;
    }
  }

  /** One await of `receive_file`; the only move that touches the directory. The copy loop writes to
      the file it holds open, at its own offset. */
  function WorkMove(h: StreamHash, c: Conn, files: Files, at: Handle, a: Await): (Conn, Files) {
    if !c.rcv.Running? then (c, files)
    else match EventFor(c.rcv.task, c.fwd, a)
      case None => (c, files)
      case Some(e) =>
        var (t, g) := TaskStep(h, c.rcv.offer, c.rcv.task, files, e);
        (c.(rcv := Running(c.rcv.offer, t), fwd := Take(c.fwd, Consumed(e)),
            saved := if c.rcv.task.Renaming? && t.Returned? && t.result.Ok? then Some(t.c.copied) else c.saved),
         if c.rcv.task.Copying? then WriteThrough(files, at, |c.rcv.task.c.copied|, Saved(e)) else g)
  }

  function ConnStep(h: StreamHash, c: Conn, files: Files, at: Handle, m: Move): (Conn, Files)
    requires Valid(c.offer)
  {
    match m
    case Work(a) => WorkMove(h, c, files, at, a)
    case HearOffer | Decide(_) | Answer | ReceiverQuits(_) => (ReceiverMove(c, m), files)
    case CutForward(_) | CutBack(_) | Tamper(_) => (NetworkMove(c, m), files)
    case _ => (SenderMove(h, c, m), files)
  }

  // ---- What every move keeps

  /** The offer and the file it announces fit on a stream. */
  predicate Deliverable(offer: TransferOffer) {
    Valid(offer) && |OfferWords(offer)| + offer.fileSize <= STREAM_LIMIT
  }

  /** The sender has not finished uploading. */
  predicate Early(phase: SenderPhase) {
    phase in {Fresh, AwaitingDecision, Streaming}
  }

  ghost predicate SenderOk(h: StreamHash, c: Conn)
    requires Valid(c.offer)
  {
    && UploadOk(h, c.offer, c.up)
    && (c.fwd.sent == OfferWords(c.offer) + c.up.data || (c.fwd.sent == [] && c.up.data == []))
    && (c.fwd.state == Finished ==> !Early(c.phase))
    && match c.phase
       case Fresh => c.fwd.sent == [] && c.back.read == []
       case AwaitingDecision => c.fwd.sent != [] && c.up.data == [] && c.back.read == []
       case Streaming => c.fwd.sent != [] && c.back.read == AcceptWords(c.offer.transferId)
       case AwaitingVerdict => c.up.total == c.offer.fileSize && c.back.read == AcceptWords(c.offer.transferId)
       case Done =>
         && c.up.total == c.offer.fileSize
         && c.back.read == Words(c.offer.transferId, Confirmed(DigestOf(h, c.up.data)))
       case TurnedAway => c.up.data == [] && c.back.read == RejectWords(c.offer.transferId)
       case Failed(_) => true
  }

  /** What has been received in full is what was sent, unless the network replaced it. */
  predicate Whole(c: Conn, bytes: seq<byte>) {
    && |bytes| == c.offer.fileSize && Deliverable(c.offer)
    && (!c.tampered ==> bytes == c.up.data && !Early(c.phase))
  }

  ghost predicate TaskFits(h: StreamHash, c: Conn, t: Task)
    requires Valid(c.offer)
  {
    match t
    case Opening => c.fwd.read == OfferWords(c.offer) && !c.tampered && c.saved == None
    case Creating(dest) =>
        dest == c.offer.fileName && c.fwd.read == OfferWords(c.offer) && !c.tampered && c.saved == None
    case Copying(dest, p) =>
      && dest == c.offer.fileName && CopyOk(h, c.offer, p)
      && c.fwd.read == OfferWords(c.offer) + p.copied && c.saved == None
    case Removing(dest, _, _) => dest == c.offer.fileName && c.saved == None
    case Renaming(dest, p) =>
      dest == c.offer.fileName && CopyOk(h, c.offer, p) && Whole(c, p.copied) && c.saved == None
    case Returned(Ok((_, digest)), p) =>
      c.saved == Some(p.copied) && Whole(c, p.copied) && digest == DigestOf(h, p.copied)
    case Returned(Err(_), _) => c.saved == None
  }

  ghost predicate ReceiverOk(h: StreamHash, c: Conn)
    requires Valid(c.offer)
  {
    match c.rcv
    case ReadingOffer => c.fwd.read == [] && c.spoken == Nothing && !c.tampered && c.saved == None
    case Deciding(o) =>
        o == c.offer && c.fwd.read == OfferWords(c.offer) && c.spoken == Nothing && !c.tampered && c.saved == None
    case Running(o, t) => o == c.offer && c.spoken == Agreed && TaskFits(h, c, t)
    case Closed =>
      && (c.saved.Some? ==> Whole(c, c.saved.value))
      && (c.saved.Some? ==> c.spoken.Agreed? || c.spoken.Confirmed?)
      && (c.spoken.Confirmed? ==> c.saved.Some? && c.spoken.hash == DigestOf(h, c.saved.value))
  }

  /** The invariant of one connection, whatever happens to the directory. */
  ghost predicate ConnOk(h: StreamHash, c: Conn) {
    && Valid(c.offer) && Carries(c.fwd)
    && PipeOk(c.back) && (c.tampered || PipeOk(c.fwd))
    && SenderOk(h, c) && ReceiverOk(h, c)
    && c.back.sent == Words(c.offer.transferId, c.spoken)
    && (c.back.state == Finished ==> c.rcv.Closed?)
  }

  lemma StartIsOk(h: StreamHash, offer: TransferOffer)
    requires Valid(offer)
    ensures ConnOk(h, Start(h, offer))
  {
    StartUploadOk(h, offer);
  }

  /** Hearing a frame moves the read mark past exactly that frame. */
  lemma HeardFrame(c: Conn, f: Frame, rest: seq<byte>)
    requires PipeOk(c.back) && TakeFrame(c.back.queue) == Got(f, rest)
    ensures Sendable(f) && |Wire(f)| <= |c.back.queue|
    ensures Take(c.back, |Wire(f)|).read == c.back.read + Wire(f)
    ensures PipeOk(Take(c.back, |Wire(f)|))
  {
    TakeFrameExact(c.back.queue, f, rest);
    assert c.back.queue[..|Wire(f)|] == Wire(f);
    PipeStaysOk(c.back, [], |Wire(f)|, 0);
  }

  /** A move of the sender leaves the receiver's facts alone, provided it only adds to the file
      data while the upload is still going on. */
  lemma SenderMoved(h: StreamHash, c: Conn, d: Conn)
    requires ConnOk(h, c)
    requires d.offer == c.offer && d.rcv == c.rcv && d.spoken == c.spoken && d.saved == c.saved
    requires d.fwd.read == c.fwd.read && d.tampered == c.tampered && Carries(d.fwd)
    requires d.back.sent == c.back.sent && d.back.state == c.back.state && PipeOk(d.back)
    requires Early(c.phase) || (d.up.data == c.up.data && !Early(d.phase))
    requires d.tampered || PipeOk(d.fwd)
    requires SenderOk(h, d)
    ensures ConnOk(h, d)
  {
    hide UploadOk, CopyOk, DigestOf, SenderOk, OfferWords, Words, Valid, PipeOk;
  }

  lemma HearDecisionKeepsOk(h: StreamHash, c: Conn)
    requires ConnOk(h, c)
    ensures ConnOk(h, SenderMove(h, c, HearDecision))
  {
    hide Wire, TakeFrame, JudgeDecision, UploadOk, ReceiverOk, OfferWords, PipeOk, Sendable, Valid;
    if c.phase == AwaitingDecision && TakeFrame(c.back.queue).Got? {
      var Got(f, rest) := TakeFrame(c.back.queue);
      HeardFrame(c, f, rest);
      JudgeDecisionExact(c.offer.transferId, f);
      assert [] + Wire(f) == Wire(f);
    }
    SenderMoved(h, c, SenderMove(h, c, HearDecision));
  }

  lemma HearVerdictKeepsOk(h: StreamHash, c: Conn)
    requires ConnOk(h, c)
    ensures ConnOk(h, SenderMove(h, c, HearVerdict))
  {
    hide Wire, TakeFrame, JudgeVerdict, ReceiverOk, OfferWords, PipeOk, Sendable, Valid, Absorb;
    if c.phase == AwaitingVerdict && TakeFrame(c.back.queue).Got? {
      var Got(f, rest) := TakeFrame(c.back.queue);
      HeardFrame(c, f, rest);
      JudgeVerdictExact(c.offer.transferId, h.finish(c.up.hash), f);
    }
    SenderMoved(h, c, SenderMove(h, c, HearVerdict));
  }

  lemma ReadFileKeepsOk(h: StreamHash, c: Conn, piece: seq<byte>)
    requires ConnOk(h, c)
    ensures ConnOk(h, SenderMove(h, c, ReadFile(piece)))
  {
    hide UploadOk, ReceiverOk, OfferWords, Sent, Words, Wire, Valid, PipeOk;
    var d := SenderMove(h, c, ReadFile(piece));
    if c.phase == Streaming && piece != [] && |piece| <= CHUNK_SIZE && |c.fwd.sent| + |piece| <= STREAM_LIMIT {
      SentAdds(h, c.offer, c.up, piece);
      SentKeepsUploadOk(h, c.offer, c.up, piece);
      PipeStaysOk(c.fwd, piece, 0, 0);
      SameSum(OfferWords(c.offer), c.up.data, piece);
      SenderMoved(h, c, d);
    }
  }

  lemma SameSum(a: seq<byte>, b: seq<byte>, c: seq<byte>)
    ensures a + b + c == a + (b + c)
  {
  }

  lemma SentAdds(h: StreamHash, offer: TransferOffer, u: Upload, piece: seq<byte>)
    ensures Sent(h, offer, u, piece).data == u.data + piece
  {
  }

  lemma SendOfferKeepsOk(h: StreamHash, c: Conn)
    requires ConnOk(h, c)
    ensures ConnOk(h, SenderMove(h, c, SendOffer))
  {
    hide UploadOk, ReceiverOk, OfferWords, Words, PipeOk, Valid;
    if c.phase == Fresh {
      PipeStaysOk(c.fwd, OfferWords(c.offer), 0, 0);
      assert OfferWords(c.offer) + [] == [] + OfferWords(c.offer) == OfferWords(c.offer);
      SenderMoved(h, c, SenderMove(h, c, SendOffer));
    }
  }

  lemma EndOfFileKeepsOk(h: StreamHash, c: Conn)
    requires ConnOk(h, c)
    ensures ConnOk(h, SenderMove(h, c, EndOfFile))
  {
    hide UploadOk, ReceiverOk, OfferWords, Words, Wire, Valid;
    PipeStaysOk(c.fwd, [], 0, 0);
    SenderMoved(h, c, SenderMove(h, c, EndOfFile));
  }

  lemma SenderQuitsKeepsOk(h: StreamHash, c: Conn, finishes: bool)
    requires ConnOk(h, c)
    ensures ConnOk(h, SenderMove(h, c, SenderQuits(finishes)))
  {
    hide UploadOk, ReceiverOk, OfferWords, Words, Wire, Valid;
    PipeStaysOk(c.fwd, [], 0, |c.fwd.queue|);
    SenderMoved(h, c, SenderMove(h, c, SenderQuits(finishes)));
  }

  /** Whatever has arrived of the offer is a piece of this offer's frame, so no other is ever read. */
  lemma OfferHeardIsOurs(h: StreamHash, c: Conn, o: TransferOffer, rest: seq<byte>)
    requires ConnOk(h, c) && c.rcv.ReadingOffer?
    ensures TakeOffer(c.fwd.queue) == GotOffer(o, rest) ==> o == c.offer && c.fwd.queue == OfferWords(c.offer) + rest
  {
    hide Wire, TakeOffer, UploadOk, OfferFrame;
    if TakeOffer(c.fwd.queue) == GotOffer(o, rest) {
      TakeOfferExact(c.fwd.queue, o, rest);
      assert [] + c.fwd.queue == c.fwd.queue;
      FirstFrameIsTheOffer(c.offer, o, c.up.data, rest, c.fwd.queue, c.fwd.sent);
    }
  }

  lemma FirstFrameIsTheOffer(offer: TransferOffer, o: TransferOffer, data: seq<byte>, rest: seq<byte>,
                             queue: seq<byte>, sent: seq<byte>)
    requires Valid(offer) && Valid(o)
    requires queue == OfferWords(o) + rest && queue <= sent
    requires sent == OfferWords(offer) + data || sent == []
    ensures o == offer
  {
    hide Wire, Payload, Valid;
    var unseen := sent[|queue|..];
    assert |OfferWords(o)| == |Wire(OfferFrame(o))|;
    assert sent == Wire(OfferFrame(o)) + (rest + unseen);
    assert sent == Wire(OfferFrame(offer)) + data;
    PrefixFree(OfferFrame(o), OfferFrame(offer), rest + unseen, data);
    DecodePayloadOfPayload(o);
    DecodePayloadOfPayload(offer);
  }

  lemma HearOfferKeepsOk(h: StreamHash, c: Conn)
    requires ConnOk(h, c)
    ensures ConnOk(h, ReceiverMove(c, HearOffer))
  {
    hide TakeOffer, UploadOk, OfferWords;
    PipeStaysOk(c.back, [], 0, 0);
    if c.rcv.ReadingOffer? && TakeOffer(c.fwd.queue).GotOffer? {
      var GotOffer(o, rest) := TakeOffer(c.fwd.queue);
      OfferHeardIsOurs(h, c, o, rest);
      var n := |OfferWords(c.offer)|;
      PipeStaysOk(c.fwd, [], n, 0);
      assert c.fwd.queue[..n] == OfferWords(c.offer);
      assert [] + OfferWords(c.offer) == OfferWords(c.offer);
    }
  }

  lemma DecideKeepsOk(h: StreamHash, c: Conn, accept: bool)
    requires ConnOk(h, c)
    ensures ConnOk(h, ReceiverMove(c, Decide(accept)))
  {
    hide UploadOk, Wire, CopyOk, SenderOk, OfferWords;
    if c.rcv.Deciding? {
      var id := c.offer.transferId;
      var words := if accept then AcceptWords(id) else RejectWords(id);
      PipeStaysOk(c.back, words, 0, 0);
      PipeStaysOk(Put(c.back, words), [], 0, 0);
      assert [] + words == words;
      SenderMindsOnlyReading(h, c, ReceiverMove(c, Decide(accept)));
    }
  }

  lemma AnswerKeepsOk(h: StreamHash, c: Conn)
    requires ConnOk(h, c)
    ensures ConnOk(h, ReceiverMove(c, Answer))
  {
    hide UploadOk, Wire, CopyOk, SenderOk, OfferWords, PipeOk, Valid, Absorb;
    if c.rcv.Running? && c.rcv.task.Returned? {
      var id := c.offer.transferId;
      var words := if c.rcv.task.result.Ok? then VerifiedWords(id, c.rcv.task.result.value.1) else RejectWords(id);
      PipeStaysOk(c.back, words, 0, 0);
      PipeStaysOk(Put(c.back, words), [], 0, 0);
      SenderMindsOnlyReading(h, c, ReceiverMove(c, Answer));
    }
  }

  lemma ReceiverQuitsKeepsOk(h: StreamHash, c: Conn, finishes: bool)
    requires ConnOk(h, c)
    ensures ConnOk(h, ReceiverMove(c, ReceiverQuits(finishes)))
  {
    hide UploadOk, Wire, CopyOk, SenderOk, OfferWords;
    PipeStaysOk(c.back, [], 0, |c.back.queue|);
    SenderMindsOnlyReading(h, c, ReceiverMove(c, ReceiverQuits(finishes)));
  }

  /** The sender's facts do not depend on anything the receiver does on its own side. */
  lemma SenderMindsOnlyReading(h: StreamHash, c: Conn, d: Conn)
    requires Valid(c.offer) && SenderOk(h, c)
    requires d.offer == c.offer && d.phase == c.phase && d.up == c.up && d.back.read == c.back.read
    requires d.fwd.sent == c.fwd.sent && (d.fwd.state == Finished ==> c.fwd.state == Finished)
    ensures SenderOk(h, d)
  {
  }

  lemma NetworkKeepsOk(h: StreamHash, c: Conn, m: Move)
    requires ConnOk(h, c) && (m.CutForward? || m.CutBack? || m.Tamper?)
    ensures ConnOk(h, NetworkMove(c, m))
  {
    hide UploadOk, OfferWords, CopyOk, DigestOf, Words;
    if m.CutForward? {
      PipeStaysOk(c.fwd, [], 0, m.kept);
    } else if m.CutBack? {
      PipeStaysOk(c.back, [], 0, m.kept);
    }
  }

  lemma RunningFits(h: StreamHash, c: Conn)
    requires ConnOk(h, c) && c.rcv.Running?
    ensures c.rcv.offer == c.offer && Valid(c.offer) && Carries(c.fwd) && TaskFits(h, c, c.rcv.task)
  {
  }

  lemma CopyingMove(h: StreamHash, c: Conn, files: Files, at: Handle, a: Await)
    requires c.rcv.Running? && c.rcv.task.Copying? && c.rcv.offer == c.offer
    ensures var event := EventFor(c.rcv.task, c.fwd, a);
      WorkMove(h, c, files, at, a).0 ==
        if event.None? then c
        else c.(rcv := Running(c.offer, CopyStep(h, c.offer, c.rcv.task.dest, c.rcv.task.c, event.value)),
                fwd := Take(c.fwd, Consumed(event.value)))
  {
    hide CopyStep;
  }

  /** A turn of the copy loop, or its end. */
  lemma CopyingKeepsFit(h: StreamHash, c: Conn, files: Files, at: Handle, a: Await)
    requires ConnOk(h, c) && c.rcv.Running? && c.rcv.task.Copying?
    ensures var d := WorkMove(h, c, files, at, a).0;
      d.rcv.Running? && d.rcv.offer == c.offer && TaskFits(h, d, d.rcv.task)
  {
    hide ConnOk, CopyOk, OfferWords, CopyStep, Valid, WorkMove, EventFor, Take;
    RunningFits(h, c);
    CopyingMove(h, c, files, at, a);
    var Copying(dest, p) := c.rcv.task;
    var event := EventFor(c.rcv.task, c.fwd, a);
    if event.Some? {
      var e := event.value;
      var t := CopyStep(h, c.offer, dest, p, e);
      CopyStepKeepsCopyOk(h, c.offer, dest, p, e);
      CopyStepCopies(h, c.offer, dest, p, e);
      EventTakesTheFront(c.rcv.task, c.fwd, a);
      if t.Renaming? {
        CopiedInFull(h, c, p);
        CopyOkLength(h, c.offer, p);
      } else if t.Copying? && e.Piece? {
        assert OfferWords(c.offer) + p.copied + e.data == OfferWords(c.offer) + t.c.copied;
      }
    }
  }

  lemma CopyOkLength(h: StreamHash, offer: TransferOffer, p: Copy)
    requires CopyOk(h, offer, p)
    ensures |p.copied| == p.total
  {
  }

  lemma CopyStepCopies(h: StreamHash, offer: TransferOffer, dest: string, p: Copy, e: TaskEvent)
    ensures var t := CopyStep(h, offer, dest, p, e);
      && (t.Copying? || t.Removing? || t.Renaming?) && t.dest == dest
      && (t.Copying? && e.Piece? ==> t.c.copied == p.copied + e.data)
      && (t.Copying? && !e.Piece? ==> t.c == p && !e.PieceUnsaved?)
      && (t.Renaming? ==> t.c == p && (e.Ended? || e == Piece([])))
  {
  }

  lemma EventTakesTheFront(t: Task, fwd: Pipe, a: Await)
    requires t.Copying? && EventFor(t, fwd, a).Some?
    ensures var e := EventFor(t, fwd, a).value;
      && Consumed(e) <= |fwd.queue|
      && (e.Piece? ==> e.data != [] && Take(fwd, Consumed(e)).read == fwd.read + e.data)
      && (e.Ended? ==> fwd.queue == [] && fwd.state == Finished)
      && (!e.Piece? && !e.PieceUnsaved? ==> Take(fwd, Consumed(e)) == fwd)
  {
    assert fwd.read + [] == fwd.read;
  }

  /** When the stream has ended and nothing is under way, everything sent has been copied. */
  lemma CopiedInFull(h: StreamHash, c: Conn, p: Copy)
    requires ConnOk(h, c) && c.fwd.queue == [] && c.fwd.state == Finished
    requires c.fwd.read == OfferWords(c.offer) + p.copied
    ensures !c.tampered ==> p.copied == c.up.data && !Early(c.phase)
  {
    hide UploadOk, Wire, TaskFits;
    if !c.tampered {
      var words := OfferWords(c.offer);
      assert |words| > 0;
      assert c.fwd.read + [] == c.fwd.read;
      hide OfferWords;
      SameRest(words, p.copied, c.up.data);
    }
  }

  lemma SameRest(words: seq<byte>, a: seq<byte>, b: seq<byte>)
    ensures words + a == words + b ==> a == b
  {
    assert (words + a)[|words|..] == a && (words + b)[|words|..] == b;
  }

  /** Once the file is complete, the rename reports its length and its hash. */
  lemma RenamingKeepsFit(h: StreamHash, c: Conn, files: Files, at: Handle, a: Await)
    requires Valid(c.offer) && c.rcv.Running? && c.rcv.offer == c.offer
    requires c.rcv.task.Renaming? && TaskFits(h, c, c.rcv.task)
    ensures var d := WorkMove(h, c, files, at, a).0;
      d.rcv.Running? && d.rcv.offer == c.offer && TaskFits(h, d, d.rcv.task)
  {
    hide OfferWords, Valid, TempName, Deliverable, Absorb;
    assert c.fwd.read + c.fwd.queue[..0] == c.fwd.read;
  }

  lemma FilingKeepsFit(h: StreamHash, c: Conn, files: Files, at: Handle, a: Await)
    requires Valid(c.offer) && c.rcv.Running? && c.rcv.offer == c.offer
    requires !c.rcv.task.Copying? && TaskFits(h, c, c.rcv.task)
    ensures var d := WorkMove(h, c, files, at, a).0;
      d.rcv.Running? && d.rcv.offer == c.offer && TaskFits(h, d, d.rcv.task)
  {
    if c.rcv.task.Renaming? {
      RenamingKeepsFit(h, c, files, at, a);
    } else {
      SafeFilenameOfValid(c.offer.fileName);
      StartIsCopyOk(h, c.offer);
      hide OfferWords, SafeFilename, Valid, TempName, CopyOk, Whole;
      assert c.fwd.read + c.fwd.queue[..0] == c.fwd.read;
      assert OfferWords(c.offer) + [] == OfferWords(c.offer);
    }
  }

  lemma StartIsCopyOk(h: StreamHash, offer: TransferOffer)
    ensures CopyOk(h, offer, StartCopy(h))
  {
  }

  /** What a receiving task can do to the connection around it: take bytes off the stream. */
  lemma WorkFrame(h: StreamHash, c: Conn, files: Files, at: Handle, a: Await)
    ensures var d := WorkMove(h, c, files, at, a).0;
      && d == c.(rcv := d.rcv, fwd := d.fwd, saved := d.saved)
      && d.fwd.sent == c.fwd.sent && d.fwd.state == c.fwd.state
      && (PipeOk(c.fwd) ==> PipeOk(d.fwd)) && (Carries(c.fwd) ==> Carries(d.fwd))
      && (!c.rcv.Running? ==> d == c)
  {
    hide TaskStep, PipeOk;
    if c.rcv.Running? && EventFor(c.rcv.task, c.fwd, a).Some? {
      PipeStaysOk(c.fwd, [], Consumed(EventFor(c.rcv.task, c.fwd, a).value), 0);
    }
  }

  lemma WorkKeepsOk(h: StreamHash, c: Conn, files: Files, at: Handle, a: Await)
    requires ConnOk(h, c)
    ensures ConnOk(h, WorkMove(h, c, files, at, a).0)
  {
    WorkFrame(h, c, files, at, a);
    hide WorkMove, UploadOk, Words, OfferWords, SenderOk, TaskFits, PipeOk, Carries, Valid;
    if c.rcv.Running? {
      if c.rcv.task.Copying? {
        CopyingKeepsFit(h, c, files, at, a);
      } else {
        FilingKeepsFit(h, c, files, at, a);
      }
      SenderMindsOnlyReading(h, c, WorkMove(h, c, files, at, a).0);
    }
  }

  /** Every move of either program and of the network keeps the invariant. */
  lemma ConnStepKeepsOk(h: StreamHash, c: Conn, files: Files, at: Handle, m: Move)
    requires ConnOk(h, c)
    ensures ConnOk(h, ConnStep(h, c, files, at, m).0)
  {
    hide ConnOk, Hear;
    assert Valid(c.offer) by { OkIsValid(h, c); }
    match m
    case HearDecision => HearDecisionKeepsOk(h, c);
    case HearVerdict => HearVerdictKeepsOk(h, c);
    case ReadFile(piece) => ReadFileKeepsOk(h, c, piece);
    case SendOffer => SendOfferKeepsOk(h, c);
    case EndOfFile => EndOfFileKeepsOk(h, c);
    case SenderQuits(finishes) => SenderQuitsKeepsOk(h, c, finishes);
    case HearOffer => HearOfferKeepsOk(h, c);
    case Decide(accept) => DecideKeepsOk(h, c, accept);
    case Answer => AnswerKeepsOk(h, c);
    case ReceiverQuits(finishes) => ReceiverQuitsKeepsOk(h, c, finishes);
    case Work(a) => WorkKeepsOk(h, c, files, at, a);
    case CutForward(_) | CutBack(_) | Tamper(_) => NetworkKeepsOk(h, c, m);
  }

  lemma OkIsValid(h: StreamHash, c: Conn)
    requires ConnOk(h, c)
    ensures Valid(c.offer)
  {
  }

  // ---- What the invariant means

  /** Only a receiver that has confirmed can have its words read as a full conversation. */
  lemma OnlyConfirmationConfirms(id: Id, spoken: Spoken, hash: Digest)
    requires Words(id, Confirmed(hash)) <= Words(id, spoken)
    ensures spoken == Confirmed(hash)
  {
    assert |AcceptWords(id)| == 21 && |RejectWords(id)| == 21 && |VerifiedWords(id, hash)| == 53;
    assert spoken.Confirmed?;
    var x, y := Words(id, Confirmed(hash)), Words(id, spoken);
    assert |VerifiedWords(id, spoken.hash)| == 53;
    assert x == y;
    assert VerifiedWords(id, hash) == x[21..] && VerifiedWords(id, spoken.hash) == y[21..];
    hide Wire;
    assert VerifiedWords(id, hash) + [] == VerifiedWords(id, hash)
        && VerifiedWords(id, spoken.hash) + [] == VerifiedWords(id, spoken.hash);
    PrefixFree(VerifiedFrame(id, hash), VerifiedFrame(id, spoken.hash), [], []);
    assert (id + hash)[16..] == hash && (id + spoken.hash)[16..] == spoken.hash;
  }

  /** What has been sent of the file is on the stream, so the sender's counter has not wrapped. */
  lemma UploadFits(h: StreamHash, c: Conn)
    requires ConnOk(h, c)
    ensures c.up.total == |c.up.data| <= STREAM_LIMIT
  {
    hide OfferWords, Absorb, Words, ReceiverOk, PipeOk;
  }

  /** A sender that reports completion has been told so by a receiver that has renamed its file
      into place; the file has the announced length and the hash the sender computed, and unless
      the network replaced file bytes it is exactly what the sender read from its own file. */
  lemma DoneMeansSaved(h: StreamHash, c: Conn)
    requires ConnOk(h, c) && c.phase == Done
    ensures c.spoken == Confirmed(DigestOf(h, c.up.data)) && c.rcv.Closed?
    ensures c.saved.Some? && |c.saved.value| == c.offer.fileSize == |c.up.data|
    ensures DigestOf(h, c.saved.value) == DigestOf(h, c.up.data)
    ensures !c.tampered ==> c.saved.value == c.up.data
  {
    UploadFits(h, c);
    hide Wire, Absorb, OfferWords, PipeOk, Valid;
    OnlyConfirmationConfirms(c.offer.transferId, c.spoken, DigestOf(h, c.up.data));
  }

  /** Where the session machine of `decision.rs` stands while the receiver really runs. */
  function SessionState(c: Conn): TransferState {
    match c.rcv
    case ReadingOffer => Offering
    case Deciding(_) => Offering
    case Running(_, t) =>
      (match t
       case Opening => Accepting
       case Creating(_) => Accepting
       case Returned(r, _) => if r.Ok? then Completed else Cancelled
       case _ => Receiving)
    case Closed =>
      if c.spoken.Declined? then Refused else if c.saved.Some? then Completed else Cancelled
  }

  /** The call that takes a session from one state to the next, if it moves at all. */
  function CallsBetween(s: TransferState, t: TransferState): seq<SessionCall> {
    if s == t then []
    else match t
      case Offering => []
      case Accepting => [DoAccept]
      case Refused => [DoReject]
      case Receiving => [DoBegin]
      case Completed => [DoComplete]
      case Cancelled => [DoCancel]
  }

  predicate SessionMoves(s: TransferState, t: TransferState) {
    s == t || exists call :: After(s, call) == Some(t)
  }

  /** What the invariant says about saving, in the receiver's own terms. */
  lemma SavedInTime(h: StreamHash, c: Conn)
    requires ConnOk(h, c)
    ensures c.rcv.ReadingOffer? || c.rcv.Deciding? ==> c.saved == None && c.spoken == Nothing
    ensures c.rcv.Running? ==> c.spoken == Agreed && (c.saved.Some? <==> c.rcv.task.Returned? && c.rcv.task.result.Ok?)
    ensures c.rcv.Closed? && c.saved.Some? ==> !c.spoken.Declined?
    ensures c.spoken.Confirmed? ==> c.saved.Some?
  {
    hide UploadOk, Wire, CopyOk, SenderOk, Whole, OfferWords;
  }

  lemma WorkFollowsTheSession(h: StreamHash, c: Conn, files: Files, at: Handle, a: Await)
    requires ConnOk(h, c)
    ensures SessionMoves(SessionState(c), SessionState(WorkMove(h, c, files, at, a).0))
  {
    hide ConnOk, CopyStep, SafeFilename;
    SavedInTime(h, c);
    var s, t := SessionState(c), SessionState(WorkMove(h, c, files, at, a).0);
    if c.rcv.Running? && EventFor(c.rcv.task, c.fwd, a).Some? {
      var e := EventFor(c.rcv.task, c.fwd, a).value;
      if c.rcv.task.Copying? {
        CopyStepCopies(h, c.rcv.offer, c.rcv.task.dest, c.rcv.task.c, e);
      }
      assert t == s || After(s, DoBegin) == Some(t) || After(s, DoComplete) == Some(t) || After(s, DoCancel) == Some(t);
    }
  }

  lemma ReceiverMoveFollowsTheSession(h: StreamHash, c: Conn, m: Move)
    requires ConnOk(h, c)
    ensures SessionMoves(SessionState(c), SessionState(ReceiverMove(c, m)))
  {
    hide ConnOk, TakeOffer, Wire;
    SavedInTime(h, c);
    var s, t := SessionState(c), SessionState(ReceiverMove(c, m));
    assert t == s || After(s, DoAccept) == Some(t) || After(s, DoReject) == Some(t) || After(s, DoCancel) == Some(t);
  }

  lemma SenderKeepsToItself(h: StreamHash, c: Conn, m: Move)
    requires Valid(c.offer)
    ensures var d := SenderMove(h, c, m);
      d.offer == c.offer && d.rcv == c.rcv && d.spoken == c.spoken && d.saved == c.saved
  {
    hide TakeFrame, Sent, Wire, JudgeDecision, JudgeVerdict, Put, Close, Cut, Drop, Take;
  }

  lemma SenderIsNoSession(h: StreamHash, c: Conn, m: Move)
    requires Valid(c.offer)
    ensures SessionState(SenderMove(h, c, m)) == SessionState(c) && SessionState(NetworkMove(c, m)) == SessionState(c)
  {
    hide SenderMove, Cut;
    SenderKeepsToItself(h, c, m);
  }

  /** What the receiver does, move by move, is what the session machine allows: each move makes
      either no call or exactly one successful call, a failure after acceptance being a cancel. */
  lemma ReceiverFollowsTheSession(h: StreamHash, c: Conn, files: Files, at: Handle, m: Move)
    requires ConnOk(h, c)
    ensures SessionMoves(SessionState(c), SessionState(ConnStep(h, c, files, at, m).0))
  {
    OkIsValid(h, c);
    hide ConnOk, WorkMove, ReceiverMove, SenderMove, NetworkMove, SessionState, After;
    SenderIsNoSession(h, c, m);
    match m
    case Work(a) => WorkFollowsTheSession(h, c, files, at, a);
    case HearOffer | Decide(_) | Answer | ReceiverQuits(_) => ReceiverMoveFollowsTheSession(h, c, m);
    case _ =>
  }
}
