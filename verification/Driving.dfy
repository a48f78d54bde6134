/** Driving one connection by hand: the schedules that show what can happen. */
module Driving {
  import opened Wrappers
  import opened Bytes
  import opened Streams
  import opened Protocol
  import opened Offers
  import opened Decisions
  import opened Hashing
  import opened Receiving
  import opened Conversation
  import opened Sending
  import opened Connections
  import opened Transfers

  /** One connection after the given moves, nobody else moving. */
  function Drive(h: StreamHash, c: Conn, files: Files, at: Handle, moves: seq<Move>): (Conn, Files, Handle)
    decreases |moves|
  {
    if moves == [] || !Valid(c.offer) then (c, files, at)
    else
      var (d, g) := ConnStep(h, c, files, at, moves[0]);
      Drive(h, d, g, NextHandle(at, true, c, d, g), moves[1..])
  }

  lemma {:induction false} DriveOn(h: StreamHash, c: Conn, files: Files, at: Handle, a: seq<Move>, b: seq<Move>)
    ensures Drive(h, c, files, at, a + b) == var (d, g, to) := Drive(h, c, files, at, a); Drive(h, d, g, to, b)
    decreases |a|
  {
    hide ConnStep, NextHandle;
    if a == [] {
      assert a + b == b;
    } else if Valid(c.offer) {
      var (d, g) := ConnStep(h, c, files, at, a[0]);
      DriveOn(h, d, g, NextHandle(at, true, c, d, g), a[1..], b);
      assert (a + b)[1..] == a[1..] + b;
    }
  }

  lemma DriveOne(h: StreamHash, c: Conn, files: Files, at: Handle, m: Move)
    requires Valid(c.offer)
    ensures var (d, g) := ConnStep(h, c, files, at, m);
      Drive(h, c, files, at, [m]) == (d, g, NextHandle(at, true, c, d, g))
  {
    hide ConnStep, NextHandle;
    var (d, g) := ConnStep(h, c, files, at, m);
    assert Drive(h, d, g, NextHandle(at, true, c, d, g), [m][1..]) == (d, g, NextHandle(at, true, c, d, g));
  }

  function By(who: nat, moves: seq<Move>): seq<Action> {
    seq(|moves|, k requires 0 <= k < |moves| => Action(who, moves[k]))
  }

  lemma RunOne(h: StreamHash, s: System, a: Action)
    ensures Run(h, s, [a]) == Step(h, s, a)
  {
    assert [a][..0] == [];
    assert Run(h, s, [a][..0]) == s;
  }

  /** A schedule of one connection's moves is that connection driven, and nothing else. */
  lemma {:induction false} RunBy(h: StreamHash, s: System, i: nat, moves: seq<Move>)
    requires i < |s.conns|
    ensures var (d, g, to) := Drive(h, s.conns[i], s.files, At(s, i), moves);
      var t := Run(h, s, By(i, moves));
      && t.conns == s.conns[i := d] && t.files == g && At(t, i) == to
      && forall k: nat | k != i && At(s, k) == None :: At(t, k) == None
    decreases |moves|
  {
    hide ConnStep, NextHandle;
    if moves == [] {
      assert By(i, moves) == [] && s.conns[i := s.conns[i]] == s.conns;
    } else {
      var a := Action(i, moves[0]);
      var t := Step(h, s, a);
      assert By(i, moves) == [a] + By(i, moves[1..]);
      RunConcat(h, s, [a], By(i, moves[1..]));
      RunOne(h, s, a);
      RunBy(h, t, i, moves[1..]);
      if !Valid(s.conns[i].offer) {
        assert t == s && s.conns[i := s.conns[i]] == s.conns;
      } else {
        var (d, g, to) := Drive(h, t.conns[i], t.files, At(t, i), moves[1..]);
        assert s.conns[i := t.conns[i]][i := d] == s.conns[i := d];
      }
    }
  }

  // ---- From the offer to the temporary file

  /** A file operation that succeeds: opening, creating, removing or renaming, as the task has it next. */
  const IO_SUCCEEDS: Move := Work(Io(true))

  /** Offer, decision, existence check, and the empty temporary file. */
  const OPENING_MOVES: seq<Move> := [SendOffer, HearOffer, Decide(true), HearDecision, IO_SUCCEEDS, IO_SUCCEEDS]

  /** The connection after each of the opening moves. */
  function OpenedUpTo(h: StreamHash, offer: TransferOffer, k: nat): (c: Conn)
    requires Valid(offer)
    ensures c.offer == offer
  {
    var words, accept := OfferWords(offer), AcceptWords(offer.transferId);
    var c := Start(h, offer);
    if k == 0 then c
    else if k == 1 then c.(phase := AwaitingDecision, fwd := Pipe(words, [], words, Open))
    else
      var c2 := c.(phase := AwaitingDecision, rcv := Deciding(offer), fwd := Pipe(words, words, [], Open));
      if k == 2 then c2
      else if k == 3 then
        c2.(rcv := Running(offer, Opening), spoken := Agreed, back := Pipe(accept, [], accept, Open))
      else
        var c4 := c2.(phase := Streaming, rcv := Running(offer, Opening), spoken := Agreed,
                      back := Pipe(accept, accept, [], Open));
        if k == 4 then c4
        else if k == 5 then c4.(rcv := Running(offer, Creating(offer.fileName)))
        else c4.(rcv := Running(offer, Copying(offer.fileName, StartCopy(h))))
  }

  function OpenedFiles(offer: TransferOffer, files: Files, k: nat): Files {
    if k <= 5 then files else files[TempName(offer.fileName, offer.transferId) := []]
  }

  function OpenedHandle(offer: TransferOffer, k: nat): Handle {
    if k <= 5 then None else Some(TempName(offer.fileName, offer.transferId))
  }

  /** Only the existence check looks at the directory. */
  lemma OpeningMove(h: StreamHash, offer: TransferOffer, files: Files, k: nat)
    requires Valid(offer) && k < 6 && (k == 4 ==> offer.fileName !in files)
    ensures ConnStep(h, OpenedUpTo(h, offer, k), files, None, OPENING_MOVES[k])
         == (OpenedUpTo(h, offer, k + 1), OpenedFiles(offer, files, k + 1))
  {
    hide ConnStep, OpenedUpTo;
    if k == 1 {
      OfferArrives(h, offer, files);
    } else if k == 3 {
      DecisionArrives(h, offer, files);
    } else {
      PlainOpeningMove(h, offer, files, k);
    }
  }

  lemma OfferArrives(h: StreamHash, offer: TransferOffer, files: Files)
    requires Valid(offer)
    ensures ConnStep(h, OpenedUpTo(h, offer, 1), files, None, HearOffer) == (OpenedUpTo(h, offer, 2), files)
  {
    hide Wire, TakeOffer, Valid;
    var words := OfferWords(offer);
    TakeOfferExact(words, offer, []);
    assert words + [] == words == [] + words && words[..|words|] == words && words[|words|..] == [];
  }

  lemma DecisionArrives(h: StreamHash, offer: TransferOffer, files: Files)
    requires Valid(offer)
    ensures ConnStep(h, OpenedUpTo(h, offer, 3), files, None, HearDecision) == (OpenedUpTo(h, offer, 4), files)
  {
    hide Wire, TakeFrame, JudgeDecision, Valid, OfferWords;
    var accept := AcceptWords(offer.transferId);
    TakeFrameExact(accept, DecisionFrame(Accepted, offer.transferId), []);
    JudgeDecisionExact(offer.transferId, DecisionFrame(Accepted, offer.transferId));
    assert accept + [] == accept == [] + accept && accept[..|accept|] == accept && accept[|accept|..] == [];
  }

  lemma PlainOpeningMove(h: StreamHash, offer: TransferOffer, files: Files, k: nat)
    requires Valid(offer) && k < 6 && k != 1 && k != 3 && (k == 4 ==> offer.fileName !in files)
    ensures ConnStep(h, OpenedUpTo(h, offer, k), files, None, OPENING_MOVES[k])
         == (OpenedUpTo(h, offer, k + 1), OpenedFiles(offer, files, k + 1))
  {
    SafeFilenameOfValid(offer.fileName);
    hide Wire, SafeFilename, Valid, TempName;
    var words, accept, c := OfferWords(offer), AcceptWords(offer.transferId), OpenedUpTo(h, offer, k);
    assert [] + words == words && [] + accept == accept && c.fwd.read + c.fwd.queue[..0] == c.fwd.read;
  }

  lemma OpeningHandle(h: StreamHash, offer: TransferOffer, files: Files, k: nat)
    requires Valid(offer) && k < 6
    ensures NextHandle(None, true, OpenedUpTo(h, offer, k), OpenedUpTo(h, offer, k + 1), files)
      == OpenedHandle(offer, k + 1)
  {
    hide OfferWords, Wire, Valid, TempName;
  }

  lemma {:induction false} OpeningDrive(h: StreamHash, offer: TransferOffer, files: Files, k: nat)
    requires Valid(offer) && k <= 6 && (k >= 5 ==> offer.fileName !in files)
    ensures Drive(h, OpenedUpTo(h, offer, 0), files, None, OPENING_MOVES[..k])
         == (OpenedUpTo(h, offer, k), OpenedFiles(offer, files, k), OpenedHandle(offer, k))
  {
    hide OpenedUpTo, ConnStep, Valid, NextHandle;
    if k > 0 {
      OpeningDrive(h, offer, files, k - 1);
      assert OPENING_MOVES[..k] == OPENING_MOVES[..k - 1] + [OPENING_MOVES[k - 1]];
      DriveOn(h, OpenedUpTo(h, offer, 0), files, None, OPENING_MOVES[..k - 1], [OPENING_MOVES[k - 1]]);
      OpeningMove(h, offer, files, k - 1);
      OpeningHandle(h, offer, OpenedFiles(offer, files, k), k - 1);
      DriveOne(h, OpenedUpTo(h, offer, k - 1), files, None, OPENING_MOVES[k - 1]);
    }
  }

  /** Past the existence check, the temporary file not yet created: nothing in the directory has changed. */
  lemma DriveToCheck(h: StreamHash, offer: TransferOffer, files: Files)
    requires Valid(offer) && offer.fileName !in files
    ensures Drive(h, Start(h, offer), files, None, OPENING_MOVES[..5]) == (OpenedUpTo(h, offer, 5), files, None)
  {
    OpeningDrive(h, offer, files, 5);
  }

  /** The next move creates the temporary file, in place of whatever has its name. */
  lemma DriveCreate(h: StreamHash, offer: TransferOffer, files: Files)
    requires Valid(offer)
    ensures var temp := TempName(offer.fileName, offer.transferId);
      Drive(h, OpenedUpTo(h, offer, 5), files, None, [IO_SUCCEEDS])
          == (OpenedUpTo(h, offer, 6), files[temp := []], Some(temp))
  {
    hide OpenedUpTo, ConnStep, Valid, NextHandle, TempName;
    OpeningMove(h, offer, files, 5);
    OpeningHandle(h, offer, OpenedFiles(offer, files, 6), 5);
    DriveOne(h, OpenedUpTo(h, offer, 5), files, None, IO_SUCCEEDS);
  }

  // ---- The file

  function Rep(b: byte, n: nat): (s: seq<byte>)
    ensures |s| == n
  {
    seq(n, _ => b)
  }

  /** Acceptance has been said and heard, and nothing else. */
  predicate Talking(c: Conn) {
    var words := AcceptWords(c.offer.transferId);
    c.back == Pipe(words, words, [], Open)
  }

  /** The sender has read `k` bytes `b`, the copy loop has been given them, and nothing is under way. */
  ghost predicate Fed(c: Conn, b: byte, k: nat) {
    && Valid(c.offer) && Talking(c) && !c.tampered && c.phase == Streaming && c.saved == None
    && c.up.data == Rep(b, k) && c.up.total == k
    && c.fwd.queue == [] && c.fwd.state == Open
    && |c.fwd.sent| == |OfferWords(c.offer)| + k == |c.fwd.read|
    && c.rcv.Running? && c.rcv.offer == c.offer && c.rcv.task.Copying? && c.rcv.task.dest == Name(c)
    && c.rcv.task.c.copied == Rep(b, k) && c.rcv.task.c.total == k && c.rcv.task.c.hash == c.up.hash
  }

  /** Both sides are through with the file, and the rename comes next. */
  ghost predicate RenameReady(c: Conn, b: byte) {
    && Valid(c.offer) && Talking(c) && !c.tampered && c.phase == AwaitingVerdict && c.saved == None
    && c.up.data == Rep(b, c.offer.fileSize)
    && c.rcv.Running? && c.rcv.offer == c.offer && c.rcv.task.Renaming? && c.rcv.task.dest == Name(c)
    && c.rcv.task.c.copied == c.up.data && c.rcv.task.c.hash == c.up.hash
  }

  lemma OpenedIsFed(h: StreamHash, offer: TransferOffer, b: byte)
    requires Valid(offer)
    ensures Fed(OpenedUpTo(h, offer, 6), b, 0)
  {
    hide Wire;
  }

  const FEED: Move := Work(ReadSome(1))

  /** The sender reads one more byte of its file and sends it. */
  lemma SendByte(h: StreamHash, c: Conn, files: Files, at: Handle, b: byte, k: nat)
    requires Fed(c, b, k) && |OfferWords(c.offer)| + k < STREAM_LIMIT
    ensures var (d, f) := ConnStep(h, c, files, at, ReadFile([b]));
      && f == files && d == c.(up := d.up, fwd := d.fwd)
      && d.up.data == Rep(b, k + 1) && d.up.total == k + 1 && d.up.hash == Absorb(h, c.up.hash, [b])
      && d.fwd.queue == [b] && d.fwd.state == Open && |d.fwd.sent| == |c.fwd.sent| + 1 && d.fwd.read == c.fwd.read
  {
    hide Absorb, OfferWords, Valid, Wire;
    assert Rep(b, k) + [b] == Rep(b, k + 1);
  }

  /** The copy loop is given that byte, and writes it through the file it holds open. */
  lemma CopyByte(h: StreamHash, c: Conn, files: Files, at: Handle, b: byte, k: nat)
    requires Fed(c, b, k) && |OfferWords(c.offer)| + k < STREAM_LIMIT
    ensures var (d, f) := ConnStep(h, c, files, at, ReadFile([b]));
      var (e, g) := ConnStep(h, d, f, at, FEED);
      && e.offer == c.offer && e.saved == None && g == WriteThrough(files, at, k, [b])
      && (k < c.offer.fileSize ==> Fed(e, b, k + 1))
  {
    SendByte(h, c, files, at, b, k);
    hide Absorb, OfferWords, Valid, Wire, TempName, SenderMove, WriteThrough;
    assert Rep(b, k) + [b] == Rep(b, k + 1);
    var d := ConnStep(h, c, files, at, ReadFile([b])).0;
    assert d.fwd.queue[..1] == [b] && d.fwd.queue[1..] == [];
    assert EventFor(d.rcv.task, d.fwd, ReadSome(1)) == Some(Piece([b]));
  }

  /** An open file stays where it is as long as nothing is renamed or removed. */
  lemma HandleStays(c: Conn, d: Conn, files: Files, at: Handle)
    requires (c.saved == None ==> d.saved == None) && !OpensFile(c, d) && (at.Some? ==> at.value in files)
    ensures NextHandle(at, true, c, d, files) == at
  {
  }

  function FeedMoves(b: byte): seq<Move> {
    [ReadFile([b])] + [FEED]
  }

  lemma FeedOne(h: StreamHash, c: Conn, files: Files, at: Handle, b: byte, k: nat)
    requires Fed(c, b, k) && |OfferWords(c.offer)| + k < STREAM_LIMIT && (at.Some? ==> at.value in files)
    ensures var (e, g, to) := Drive(h, c, files, at, FeedMoves(b));
      && e.offer == c.offer && g == WriteThrough(files, at, k, [b]) && to == at
      && (k < c.offer.fileSize ==> Fed(e, b, k + 1))
  {
    SendByte(h, c, files, at, b, k);
    CopyByte(h, c, files, at, b, k);
    DriveOn(h, c, files, at, [ReadFile([b])], [FEED]);
    DriveOne(h, c, files, at, ReadFile([b]));
    var (d, f) := ConnStep(h, c, files, at, ReadFile([b]));
    var (e, g) := ConnStep(h, d, f, at, FEED);
    assert !OpensFile(c, d) && !OpensFile(d, e);
    hide ConnStep, Fed, WriteAt, NextHandle;
    HandleStays(c, d, f, at);
    DriveOne(h, d, f, at, FEED);
    HandleStays(d, e, g, at);
  }

  lemma {:induction false} FeedAll(h: StreamHash, c: Conn, files: Files, b: byte, k: nat) returns (moves: seq<Move>)
    requires Deliverable(c.offer) && k <= c.offer.fileSize && Fed(c, b, k)
    requires Temp(c) in files && files[Temp(c)] == Rep(b, k)
    ensures var (d, g, to) := Drive(h, c, files, Some(Temp(c)), moves);
      && d.offer == c.offer && Fed(d, b, c.offer.fileSize)
      && g == files[Temp(c) := Rep(b, c.offer.fileSize)] && to == Some(Temp(c))
    decreases c.offer.fileSize - k
  {
    var at := Some(Temp(c));
    if k == c.offer.fileSize {
      moves := [];
    } else {
      FeedOne(h, c, files, at, b, k);
      WritingThroughAppends(files, Temp(c), k, [b]);
      assert Rep(b, k) + [b] == Rep(b, k + 1);
      var (d, g, to) := Drive(h, c, files, at, FeedMoves(b));
      hide Drive, Fed, OfferWords, TempName, WriteThrough;
      var rest := FeedAll(h, d, g, b, k + 1);
      DriveOn(h, c, files, at, FeedMoves(b), rest);
      moves := FeedMoves(b) + rest;
    }
  }

  const FINISH_MOVES: seq<Move> := [EndOfFile] + [Work(StreamEnds(true))]

  lemma FinishMoves(h: StreamHash, c: Conn, files: Files, at: Handle, b: byte)
    requires Fed(c, b, c.offer.fileSize)
    ensures var (d, f) := ConnStep(h, c, files, at, EndOfFile);
      var (e, g) := ConnStep(h, d, f, at, Work(StreamEnds(true)));
      && d.offer == c.offer && d.saved == None && !OpensFile(c, d) && f == files
      && RenameReady(e, b) && e.offer == c.offer && !OpensFile(d, e) && g == files
  {
    hide OfferWords, Valid, Wire, TempName;
  }

  lemma DriveFinish(h: StreamHash, c: Conn, files: Files, at: Handle, b: byte)
    requires Fed(c, b, c.offer.fileSize) && (at.Some? ==> at.value in files)
    ensures var (d, g, to) := Drive(h, c, files, at, FINISH_MOVES);
      d.offer == c.offer && RenameReady(d, b) && g == files && to == at
  {
    FinishMoves(h, c, files, at, b);
    assert Valid(c.offer) && c.saved == None;
    var (d, f) := ConnStep(h, c, files, at, EndOfFile);
    var (e, g) := ConnStep(h, d, f, at, Work(StreamEnds(true)));
    assert e.saved == None;
    hide ConnStep, Fed, RenameReady, NextHandle, OpensFile;
    HandleStays(c, d, f, at);
    HandleStays(d, e, g, at);
    DriveOne(h, c, files, at, EndOfFile);
    DriveOne(h, d, f, at, Work(StreamEnds(true)));
    DriveOn(h, c, files, at, [EndOfFile], [Work(StreamEnds(true))]);
  }

  /** A transfer past its existence check can be driven to the rename, the sender's file being
      nothing but bytes `b`, whatever the directory holds by now. */
  lemma DriveToRename(h: StreamHash, offer: TransferOffer, files: Files, b: byte) returns (moves: seq<Move>)
    requires Deliverable(offer)
    ensures var temp := TempName(offer.fileName, offer.transferId);
      var (d, g, to) := Drive(h, OpenedUpTo(h, offer, 5), files, None, moves);
      && d.offer == offer && RenameReady(d, b) && g == files[temp := Rep(b, offer.fileSize)] && to == Some(temp)
  {
    var c5, c6, temp := OpenedUpTo(h, offer, 5), OpenedUpTo(h, offer, 6), TempName(offer.fileName, offer.transferId);
    DriveCreate(h, offer, files);
    OpenedIsFed(h, offer, b);
    hide Drive, Fed, OpenedUpTo, RenameReady, TempName;
    assert Rep(b, 0) == [];
    var f := files[temp := []];
    var feeding := FeedAll(h, c6, f, b, 0);
    DriveOn(h, c5, files, None, [IO_SUCCEEDS], feeding);
    var (d, g, to) := Drive(h, c6, f, Some(temp), feeding);
    DriveFinish(h, d, g, to, b);
    DriveOn(h, c5, files, None, [IO_SUCCEEDS] + feeding, FINISH_MOVES);
    moves := [IO_SUCCEEDS] + feeding + FINISH_MOVES;
  }

  // ---- Rename and verdict

  lemma RenameNow(h: StreamHash, c: Conn, files: Files, at: Handle, b: byte)
    requires RenameReady(c, b) && Temp(c) in files
    ensures var (d, g) := ConnStep(h, c, files, at, IO_SUCCEEDS);
      && d == c.(rcv := d.rcv, saved := Some(c.up.data), fwd := d.fwd) && NewlySaved(c, d)
      && d.rcv.Running? && d.rcv.offer == c.offer && d.rcv.task.Returned?
      && d.rcv.task.result.Ok? && d.rcv.task.result.value.1 == h.finish(c.up.hash)
      && g == (files - {Temp(c)})[Name(c) := files[Temp(c)]]
  {
    hide Valid, Wire, TempName, Rep;
  }

  lemma AnswerNow(h: StreamHash, c: Conn, files: Files, at: Handle)
    requires Valid(c.offer) && Talking(c) && c.rcv.Running? && c.rcv.offer == c.offer && c.rcv.task.Returned?
    requires c.rcv.task.result.Ok?
    ensures var (d, g) := ConnStep(h, c, files, at, Answer);
      && g == files && d == c.(rcv := d.rcv, spoken := d.spoken, back := d.back)
      && d.back.queue == VerifiedWords(c.offer.transferId, c.rcv.task.result.value.1)
  {
    hide Valid, Wire;
    var words := VerifiedWords(c.offer.transferId, c.rcv.task.result.value.1);
    assert [] + words == words;
  }

  lemma VerdictArrives(h: StreamHash, c: Conn, files: Files, at: Handle)
    requires Valid(c.offer) && c.phase == AwaitingVerdict
    requires c.back.queue == VerifiedWords(c.offer.transferId, h.finish(c.up.hash))
    ensures var (d, g) := ConnStep(h, c, files, at, HearVerdict);
      g == files && d == c.(phase := Done, back := d.back)
  {
    hide Wire, TakeFrame, JudgeVerdict, Valid;
    var id, hash := c.offer.transferId, h.finish(c.up.hash);
    var f := VerifiedFrame(id, hash);
    assert Wire(f) + [] == Wire(f);
    TakeFrameExact(c.back.queue, f, []);
    JudgeVerdictExact(id, hash, f);
  }

  const LAST_MOVES: seq<Move> := [IO_SUCCEEDS] + [Answer] + [HearVerdict]

  /** Rename, verification, and hearing it: the sender reports completion. */
  lemma DriveToDone(h: StreamHash, c: Conn, files: Files, at: Handle, b: byte)
    requires RenameReady(c, b) && Temp(c) in files
    ensures var (d, g, _) := Drive(h, c, files, at, LAST_MOVES);
      && d.offer == c.offer && d.phase == Done && d.up == c.up && d.saved == Some(c.up.data) && !d.tampered
      && g == (files - {Temp(c)})[Name(c) := files[Temp(c)]]
  {
    RenameNow(h, c, files, at, b);
    hide ConnStep, Drive, TempName, Wire, Rep, NextHandle;
    var (d, f) := ConnStep(h, c, files, at, IO_SUCCEEDS);
    DriveOne(h, c, files, at, IO_SUCCEEDS);
    var at1 := NextHandle(at, true, c, d, f);
    AnswerNow(h, d, f, at1);
    var (e, g) := ConnStep(h, d, f, at1, Answer);
    DriveOne(h, d, f, at1, Answer);
    var at2 := NextHandle(at1, true, d, e, g);
    VerdictArrives(h, e, g, at2);
    DriveOne(h, e, g, at2, HearVerdict);
    DriveOn(h, c, files, at, [IO_SUCCEEDS], [Answer]);
    DriveOn(h, c, files, at, [IO_SUCCEEDS] + [Answer], [HearVerdict]);
  }

  // ---- One connection among many

  /** Only transfer `i` has moved, and nobody else has opened a file. */
  ghost predicate OnlyMoved(s: System, t: System, i: nat) {
    && i < |s.conns| == |t.conns| && t.conns == s.conns[i := t.conns[i]] && t.conns[i].offer == s.conns[i].offer
    && forall k: nat | k != i && At(s, k) == None :: At(t, k) == None
  }

  lemma OnlyMovedTwice(s: System, t: System, u: System, i: nat)
    requires OnlyMoved(s, t, i) && OnlyMoved(t, u, i)
    ensures OnlyMoved(s, u, i)
  {
  }

  /** A transfer that has not begun, and whose name is free. */
  ghost predicate Startable(h: StreamHash, s: System, i: nat) {
    && i < |s.conns| && Valid(s.conns[i].offer) && s.conns[i] == Start(h, s.conns[i].offer)
    && Name(s.conns[i]) !in s.files && At(s, i) == None
  }

  /** A transfer past its existence check, its temporary file not yet created. */
  ghost predicate Checked(h: StreamHash, s: System, i: nat) {
    && i < |s.conns| && Valid(s.conns[i].offer) && s.conns[i] == OpenedUpTo(h, s.conns[i].offer, 5) && At(s, i) == None
  }

  /** Transfer `i` gets past its existence check and stops there. */
  lemma AtCheck(h: StreamHash, s: System, i: nat)
    requires Startable(h, s, i)
    ensures var t := Run(h, s, By(i, OPENING_MOVES[..5]));
      OnlyMoved(s, t, i) && Checked(h, t, i) && t.files == s.files
  {
    DriveToCheck(h, s.conns[i].offer, s.files);
    RunBy(h, s, i, OPENING_MOVES[..5]);
    hide Run, Drive, Valid;
  }

  /** Transfer `i` goes on from there to the rename. */
  lemma ToRename(h: StreamHash, s: System, i: nat, b: byte) returns (schedule: seq<Action>)
    requires Checked(h, s, i) && Deliverable(s.conns[i].offer)
    ensures var t := Run(h, s, schedule);
      && OnlyMoved(s, t, i) && RenameReady(t.conns[i], b)
      && t.files == s.files[Temp(s.conns[i]) := Rep(b, s.conns[i].offer.fileSize)]
  {
    hide OpenedUpTo, Run, Drive, RenameReady, Deliverable;
    var moves := DriveToRename(h, s.conns[i].offer, s.files, b);
    RunBy(h, s, i, moves);
    schedule := By(i, moves);
  }

  lemma RenameStep(h: StreamHash, s: System, i: nat, b: byte)
    requires i < |s.conns| && RenameReady(s.conns[i], b) && Temp(s.conns[i]) in s.files
    ensures var t := Step(h, s, Action(i, IO_SUCCEEDS));
      && OnlyMoved(s, t, i) && NewlySaved(s.conns[i], t.conns[i]) && t.conns[i].saved == Some(s.conns[i].up.data)
      && t.files == (s.files - {Temp(s.conns[i])})[Name(s.conns[i]) := s.files[Temp(s.conns[i])]]
  {
    RenameNow(h, s.conns[i], s.files, At(s, i), b);
    assert Valid(s.conns[i].offer);
    hide ConnStep, RenameReady, TempName;
  }

  /** A transfer that has not begun is delivered, alone. */
  lemma Deliver(h: StreamHash, s: System, i: nat) returns (schedule: seq<Action>)
    requires Startable(h, s, i) && Deliverable(s.conns[i].offer)
    ensures var t := Run(h, s, schedule);
      OnlyMoved(s, t, i) && t.conns[i].saved.Some? && Name(s.conns[i]) in t.files
  {
    hide Run, Step, RenameReady, TempName, Startable, Checked, Deliverable;
    AtCheck(h, s, i);
    var check := By(i, OPENING_MOVES[..5]);
    var t := Run(h, s, check);
    var copy := ToRename(h, t, i, 0);
    var u := Run(h, t, copy);
    RenameStep(h, u, i, 0);
    RunConcat(h, s, check, copy);
    RunOne(h, u, Action(i, IO_SUCCEEDS));
    schedule := check + copy + [Action(i, IO_SUCCEEDS)];
    RunConcat(h, s, check + copy, [Action(i, IO_SUCCEEDS)]);
    OnlyMovedTwice(s, t, u, i);
    OnlyMovedTwice(s, u, Step(h, u, Action(i, IO_SUCCEEDS)), i);
  }
}
