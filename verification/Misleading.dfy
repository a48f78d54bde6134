/** What a sender cannot know: its file may be saved though it failed, and another file though it succeeded. */
module Misleading {
  import opened Wrappers
  import opened Bytes
  import opened Streams
  import opened Offers
  import opened Hashing
  import opened Receiving
  import opened Conversation
  import opened Sending
  import opened Connections
  import opened Transfers
  import opened Driving
  import opened Completing
  import opened ProgressReports

  // ---- Another file though it succeeded

  /** Some schedule lets the sender read `data`, report completion, and have something else saved. */
  ghost predicate CanBeFooled(h: StreamHash, offer: TransferOffer, before: Files, data: seq<byte>) {
    exists schedule ::
      var c := Run(h, Init(h, [offer], before), schedule).conns[0];
      c.phase == Done && c.up.data == data && c.saved.Some? && c.saved.value != data
  }

  /** The sender has sent `k` bytes of `a`, and the copy loop has been given as many of `b` instead. */
  ghost predicate Swapped(h: StreamHash, c: Conn, a: seq<byte>, b: seq<byte>, k: nat)
    requires k <= |a| == |b|
  {
    && Valid(c.offer) && Talking(c) && c.phase == Streaming && c.saved == None
    && c.up.data == a[..k] && c.up.total == k && c.up.hash == Absorb(h, h.init, a[..k])
    && c.fwd.queue == [] && c.fwd.state == Open
    && |c.fwd.sent| == |OfferWords(c.offer)| + k == |c.fwd.read|
    && c.rcv.Running? && c.rcv.offer == c.offer && c.rcv.task.Copying? && c.rcv.task.dest == Name(c)
    && c.rcv.task.c.copied == b[..k] && c.rcv.task.c.total == k && c.rcv.task.c.hash == Absorb(h, h.init, b[..k])
  }

  lemma OpenedIsSwapped(h: StreamHash, offer: TransferOffer, a: seq<byte>, b: seq<byte>)
    requires Valid(offer) && |a| == |b|
    ensures Swapped(h, OpenedUpTo(h, offer, 6), a, b, 0)
  {
    hide AcceptWords, OfferWords, Valid;
  }

  function SwapMoves(x: byte, y: byte): seq<Move> {
    [ReadFile([x])] + [Tamper([y])] + [FEED]
  }

  lemma OneMore(s: seq<byte>, k: nat)
    requires k < |s|
    ensures s[..k + 1] == s[..k] + [s[k]]
  {
  }

  /** The sender has sent one byte more, and another one is under way. */
  ghost predicate Replaced(h: StreamHash, c: Conn, e: Conn, a: seq<byte>, b: seq<byte>, k: nat)
    requires k < |a| == |b|
  {
    && e == c.(up := e.up, fwd := e.fwd, tampered := true)
    && e.up.data == a[..k + 1] && e.up.total == k + 1 && e.up.hash == Absorb(h, h.init, a[..k + 1])
    && e.fwd.queue == [b[k]] && e.fwd.state == Open
    && |e.fwd.sent| == |c.fwd.sent| + 1 && e.fwd.read == c.fwd.read
  }

  /** One turn of the upload loop that reads one byte. */
  lemma SendTurn(h: StreamHash, offer: TransferOffer, u: Upload, a: seq<byte>, k: nat)
    requires k < |a| < STREAM_LIMIT && u.data == a[..k] && u.total == k && u.hash == Absorb(h, h.init, a[..k])
    ensures var v := Sent(h, offer, u, [a[k]]);
      v.data == a[..k + 1] && v.total == k + 1 && v.hash == Absorb(h, h.init, a[..k + 1])
  {
    OneMore(a, k);
    AbsorbConcat(h, h.init, a[..k], [a[k]]);
    hide Absorb, Report;
  }

  lemma SendAndReplace(h: StreamHash, c: Conn, files: Files, at: Handle, a: seq<byte>, b: seq<byte>, k: nat)
    requires k < |a| == |b| && Swapped(h, c, a, b, k) && |OfferWords(c.offer)| + |a| <= STREAM_LIMIT
    ensures var (d, f) := ConnStep(h, c, files, at, ReadFile([a[k]]));
      var (e, g) := ConnStep(h, d, f, at, Tamper([b[k]]));
      d.offer == c.offer && d.saved == None && d.rcv == c.rcv && f == g == files && Replaced(h, c, e, a, b, k)
  {
    SendTurn(h, c.offer, c.up, a, k);
    hide Absorb, OfferWords, Valid, AcceptWords, Sent;
  }

  /** One turn of the copy loop that is given one byte. */
  lemma CopyTurn(h: StreamHash, offer: TransferOffer, dest: string, c: Copy, b: seq<byte>, k: nat)
    requires k < |b| == offer.fileSize
    requires c.copied == b[..k] && c.total == k && c.hash == Absorb(h, h.init, b[..k])
    ensures var t := CopyStep(h, offer, dest, c, Piece([b[k]]));
      && t.Copying? && t.dest == dest && t.c.copied == b[..k + 1] && t.c.total == k + 1
      && t.c.hash == Absorb(h, h.init, b[..k + 1])
  {
    OneMore(b, k);
    AbsorbConcat(h, h.init, b[..k], [b[k]]);
    hide Absorb, Report;
  }

  lemma CopyReplaced(h: StreamHash, c: Conn, e: Conn, files: Files, at: Handle, a: seq<byte>, b: seq<byte>, k: nat)
    requires k < |a| == |b| == c.offer.fileSize && Swapped(h, c, a, b, k) && Replaced(h, c, e, a, b, k)
    requires |OfferWords(c.offer)| + |a| <= STREAM_LIMIT
    ensures var (u, i) := ConnStep(h, e, files, at, FEED);
      && u.offer == c.offer && u.saved == None && !OpensFile(e, u) && Swapped(h, u, a, b, k + 1)
      && i == WriteThrough(files, at, k, [b[k]])
  {
    CopyTurn(h, c.offer, Name(c), c.rcv.task.c, b, k);
    assert e.fwd.queue[..1] == [b[k]] && e.fwd.queue[1..] == [];
    assert EventFor(e.rcv.task, e.fwd, ReadSome(1)) == Some(Piece([b[k]]));
    CopyingMove(h, e, files, at, ReadSome(1));
    hide Absorb, OfferWords, Valid, AcceptWords, TempName, WriteThrough, CopyStep, EventFor;
  }

  lemma SwapOne(h: StreamHash, c: Conn, files: Files, at: Handle, a: seq<byte>, b: seq<byte>, k: nat)
    requires k < |a| == |b| == c.offer.fileSize && Swapped(h, c, a, b, k)
    requires |OfferWords(c.offer)| + |a| <= STREAM_LIMIT && at == Some(Temp(c)) && Temp(c) in files
    ensures var (u, g, to) := Drive(h, c, files, at, SwapMoves(a[k], b[k]));
      u.offer == c.offer && Swapped(h, u, a, b, k + 1) && to == at && Temp(c) in g
  {
    SendAndReplace(h, c, files, at, a, b, k);
    var (d, f) := ConnStep(h, c, files, at, ReadFile([a[k]]));
    var (e, g) := ConnStep(h, d, f, at, Tamper([b[k]]));
    CopyReplaced(h, c, e, g, at, a, b, k);
    var (u, i) := ConnStep(h, e, g, at, FEED);
    assert Valid(c.offer) && c.saved == e.saved == None && !OpensFile(c, d) && !OpensFile(d, e);
    hide ConnStep, Swapped, Replaced, WriteAt, NextHandle, OpensFile, TempName;
    HandleStays(c, d, f, at);
    HandleStays(d, e, g, at);
    HandleStays(e, u, i, at);
    DriveOne(h, c, files, at, ReadFile([a[k]]));
    DriveOne(h, d, f, at, Tamper([b[k]]));
    DriveOne(h, e, g, at, FEED);
    DriveOn(h, c, files, at, [ReadFile([a[k]])], [Tamper([b[k]])]);
    DriveOn(h, c, files, at, [ReadFile([a[k]])] + [Tamper([b[k]])], [FEED]);
  }

  lemma {:induction false} SwapAll(h: StreamHash, c: Conn, files: Files, a: seq<byte>, b: seq<byte>, k: nat)
    returns (moves: seq<Move>)
    requires k <= |a| == |b| == c.offer.fileSize && Deliverable(c.offer) && Swapped(h, c, a, b, k) && Temp(c) in files
    ensures var (d, g, to) := Drive(h, c, files, Some(Temp(c)), moves);
      d.offer == c.offer && Swapped(h, d, a, b, |a|) && to == Some(Temp(c)) && Temp(c) in g
    decreases |a| - k
  {
    var at := Some(Temp(c));
    if k == |a| {
      moves := [];
    } else {
      SwapOne(h, c, files, at, a, b, k);
      var (d, g, to) := Drive(h, c, files, at, SwapMoves(a[k], b[k]));
      hide Drive, Swapped, OfferWords, TempName;
      var rest := SwapAll(h, d, g, a, b, k + 1);
      DriveOn(h, c, files, at, SwapMoves(a[k], b[k]), rest);
      moves := SwapMoves(a[k], b[k]) + rest;
    }
  }

  /** Both sides are through, each with its own bytes, and the rename comes next. */
  ghost predicate SwappedToTheEnd(h: StreamHash, c: Conn, a: seq<byte>, b: seq<byte>) {
    && Valid(c.offer) && Talking(c) && c.phase == AwaitingVerdict && c.saved == None && c.up.data == a
    && c.rcv.Running? && c.rcv.offer == c.offer && c.rcv.task.Renaming? && c.rcv.task.dest == Name(c)
    && c.rcv.task.c.copied == b && h.finish(c.up.hash) == DigestOf(h, a)
    && h.finish(c.rcv.task.c.hash) == DigestOf(h, b)
  }

  lemma SwapEnds(h: StreamHash, c: Conn, files: Files, at: Handle, a: seq<byte>, b: seq<byte>)
    requires |a| == |b| == c.offer.fileSize && Swapped(h, c, a, b, |a|) && (at.Some? ==> at.value in files)
    ensures var (d, f) := ConnStep(h, c, files, at, EndOfFile);
      var (e, g) := ConnStep(h, d, f, at, Work(StreamEnds(true)));
      && d.offer == e.offer == c.offer && d.saved == None && !OpensFile(c, d) && !OpensFile(d, e) && f == g == files
      && SwappedToTheEnd(h, e, a, b)
  {
    assert a[..|a|] == a && b[..|a|] == b && |a| == c.up.total == c.rcv.task.c.total;
    hide Amortised, OfferWords, Valid, AcceptWords, TempName, Absorb, ReceiverMove, NetworkMove, Hear;
  }

  /** The rename, the verification and hearing it: for the sender it is over. */
  lemma SwapIsVerified(h: StreamHash, c: Conn, files: Files, at: Handle, a: seq<byte>, b: seq<byte>)
    requires SwappedToTheEnd(h, c, a, b) && Temp(c) in files && DigestOf(h, a) == DigestOf(h, b)
    ensures var d := Drive(h, c, files, at, LAST_MOVES).0;
      d.phase == Done && d.up.data == a && d.saved == Some(b)
  {
    var (d, f) := ConnStep(h, c, files, at, IO_SUCCEEDS);
    RenameSwapped(h, c, files, at, a, b);
    hide ConnStep, Drive, TempName, NextHandle, DigestOf;
    DriveOne(h, c, files, at, IO_SUCCEEDS);
    var at1 := NextHandle(at, true, c, d, f);
    AnswerNow(h, d, f, at1);
    var (e, g) := ConnStep(h, d, f, at1, Answer);
    DriveOne(h, d, f, at1, Answer);
    var at2 := NextHandle(at1, true, d, e, g);
    VerdictArrives(h, e, g, at2);
    DriveOne(h, e, g, at2, HearVerdict);
    DriveOn(h, c, files, at, [IO_SUCCEEDS], [Answer]);
    DriveOn(h, c, files, at, [IO_SUCCEEDS] + [Answer], [HearVerdict]);
  }

  lemma RenameSwapped(h: StreamHash, c: Conn, files: Files, at: Handle, a: seq<byte>, b: seq<byte>)
    requires SwappedToTheEnd(h, c, a, b) && Temp(c) in files
    ensures var d := ConnStep(h, c, files, at, IO_SUCCEEDS).0;
      && d == c.(rcv := d.rcv, saved := Some(b), fwd := d.fwd)
      && d.rcv.Running? && d.rcv.offer == c.offer && d.rcv.task.Returned?
      && d.rcv.task.result.Ok? && d.rcv.task.result.value.1 == DigestOf(h, b)
  {
    hide Valid, AcceptWords, TempName, DigestOf;
  }

  lemma SwapWins(h: StreamHash, offer: TransferOffer, files: Files, a: seq<byte>, b: seq<byte>)
    returns (moves: seq<Move>)
    requires Deliverable(offer) && |a| == |b| == offer.fileSize && DigestOf(h, a) == DigestOf(h, b)
    requires offer.fileName !in files
    ensures var c := Drive(h, Start(h, offer), files, None, moves).0;
      c.phase == Done && c.up.data == a && c.saved == Some(b)
  {
    var temp := TempName(offer.fileName, offer.transferId);
    var c5, c6, f := OpenedUpTo(h, offer, 5), OpenedUpTo(h, offer, 6), files[temp := []];
    DriveToCheck(h, offer, files);
    DriveCreate(h, offer, files);
    OpenedIsSwapped(h, offer, a, b);
    hide Drive, Swapped, OpenedUpTo, TempName, Deliverable, DigestOf, ConnStep, Start, SwappedToTheEnd;
    var swaps := SwapAll(h, c6, f, a, b, 0);
    var (d, g, at) := Drive(h, c6, f, Some(temp), swaps);
    DriveEnds(h, d, g, at, a, b);
    var (e, i, to) := Drive(h, d, g, at, FINISH_MOVES);
    SwapIsVerified(h, e, i, to, a, b);
    var start := Start(h, offer);
    DriveOn(h, start, files, None, OPENING_MOVES[..5], [IO_SUCCEEDS]);
    DriveOn(h, start, files, None, OPENING_MOVES[..5] + [IO_SUCCEEDS], swaps);
    DriveOn(h, start, files, None, OPENING_MOVES[..5] + [IO_SUCCEEDS] + swaps, FINISH_MOVES);
    moves := OPENING_MOVES[..5] + [IO_SUCCEEDS] + swaps + FINISH_MOVES;
    DriveOn(h, start, files, None, moves, LAST_MOVES);
    moves := moves + LAST_MOVES;
  }

  lemma DriveEnds(h: StreamHash, c: Conn, files: Files, at: Handle, a: seq<byte>, b: seq<byte>)
    requires |a| == |b| == c.offer.fileSize && Swapped(h, c, a, b, |a|) && at == Some(Temp(c)) && Temp(c) in files
    ensures var (d, g, to) := Drive(h, c, files, at, FINISH_MOVES);
      d.offer == c.offer && SwappedToTheEnd(h, d, a, b) && g == files
  {
    SwapEnds(h, c, files, at, a, b);
    var (d, f) := ConnStep(h, c, files, at, EndOfFile);
    var (e, g) := ConnStep(h, d, f, at, Work(StreamEnds(true)));
    assert Valid(c.offer) && c.saved == None && e.saved == None;
    hide ConnStep, Swapped, SwappedToTheEnd, NextHandle, OpensFile, TempName;
    HandleStays(c, d, f, at);
    HandleStays(d, e, g, at);
    DriveOne(h, c, files, at, EndOfFile);
    DriveOne(h, d, f, at, Work(StreamEnds(true)));
    DriveOn(h, c, files, at, [EndOfFile], [Work(StreamEnds(true))]);
  }

  lemma CollisionFools(h: StreamHash, offer: TransferOffer, before: Files, data: seq<byte>)
    requires offer.fileName !in before && Deliverable(offer)
    requires |data| == offer.fileSize && !OnlyPreimage(h, data, offer.fileSize)
    ensures CanBeFooled(h, offer, before, data)
  {
    var b: seq<byte> :| |b| == offer.fileSize && DigestOf(h, b) == DigestOf(h, data) && b != data;
    var moves := SwapWins(h, offer, before, data, b);
    hide Run, Drive, DigestOf, Deliverable, Start;
    RunBy(h, Init(h, [offer], before), 0, moves);
  }

  /** The hash is all that protects a file from being replaced on the way: a sender that read `data` can be
      made to report completion of something else if and only if its transfer can complete at all and
      another file of the same length has the same hash. */
  lemma FooledExactly(h: StreamHash, offer: TransferOffer, before: Files, data: seq<byte>)
    requires Valid(offer)
    ensures CanBeFooled(h, offer, before, data) <==>
      && offer.fileName !in before && Deliverable(offer)
      && |data| == offer.fileSize && !OnlyPreimage(h, data, offer.fileSize)
  {
    if offer.fileName !in before && Deliverable(offer) && |data| == offer.fileSize
        && !OnlyPreimage(h, data, offer.fileSize) {
      CollisionFools(h, offer, before, data);
    }
    if CanBeFooled(h, offer, before, data) {
      hide Run, Deliverable, DigestOf, Init, ConnOk;
      var schedule :|
        var c := Run(h, Init(h, [offer], before), schedule).conns[0];
        c.phase == Done && c.up.data == data && c.saved.Some? && c.saved.value != data;
      var c := Run(h, Init(h, [offer], before), schedule).conns[0];
      RunIsOk(h, [offer], before, schedule);
      assert c.offer == [offer][0] == offer;
      DoneMeansSaved(h, c);
      CompletesExactly(h, offer, before);
    }
  }

  // ---- Saved though it failed

  /** Some schedule has the file saved while the sender reports failure. */
  ghost predicate CanGoUnheard(h: StreamHash, offer: TransferOffer, before: Files) {
    exists schedule ::
      var c := Run(h, Init(h, [offer], before), schedule).conns[0];
      c.saved == Some(c.up.data) && c.phase.Failed?
  }

  const UNHEARD_MOVES: seq<Move> := [IO_SUCCEEDS] + [CutBack(0)] + [HearVerdict]

  /** The file is in place, and then the connection breaks before anything is said. */
  lemma CutOffUnheard(h: StreamHash, c: Conn, files: Files, at: Handle, b: byte)
    requires RenameReady(c, b) && Temp(c) in files
    ensures var d := Drive(h, c, files, at, UNHEARD_MOVES).0; d.saved == Some(d.up.data) && d.phase.Failed?
  {
    RenameNow(h, c, files, at, b);
    var (d, f) := ConnStep(h, c, files, at, IO_SUCCEEDS);
    DriveOne(h, c, files, at, IO_SUCCEEDS);
    var at1 := NextHandle(at, true, c, d, f);
    var (e, g) := ConnStep(h, d, f, at1, CutBack(0));
    DriveOne(h, d, f, at1, CutBack(0));
    assert Valid(c.offer) && c.phase == AwaitingVerdict;
    assert e == d.(back := Cut(d.back, 0)) && e.back.queue == [] && e.back.state == Broken;
    hide Drive, TempName, AcceptWords, Rep, NextHandle, Valid;
    var at2 := NextHandle(at1, true, d, e, g);
    DriveOne(h, e, g, at2, HearVerdict);
    DriveOn(h, c, files, at, [IO_SUCCEEDS], [CutBack(0)]);
    DriveOn(h, c, files, at, [IO_SUCCEEDS] + [CutBack(0)], [HearVerdict]);
  }

  /** A failed sender does not know that nothing was saved: whenever a transfer can complete, it can
      also fail on the sender's side with the whole file in place. */
  lemma UnheardExactly(h: StreamHash, offer: TransferOffer, before: Files)
    requires Valid(offer)
    ensures CanGoUnheard(h, offer, before) <==> CanComplete(h, offer, before)
  {
    CompletesExactly(h, offer, before);
    if offer.fileName !in before && Deliverable(offer) {
      var s := Init(h, [offer], before);
      hide Run, Drive, OpenedUpTo, TempName, Checked, Deliverable, CanComplete;
      DriveToCheck(h, offer, before);
      var copy := DriveToRename(h, offer, before, 0);
      var (d, g, to) := Drive(h, OpenedUpTo(h, offer, 5), before, None, copy);
      hide RenameReady;
      CutOffUnheard(h, d, g, to, 0);
      DriveOn(h, Start(h, offer), before, None, OPENING_MOVES[..5], copy);
      DriveOn(h, Start(h, offer), before, None, OPENING_MOVES[..5] + copy, UNHEARD_MOVES);
      RunBy(h, s, 0, OPENING_MOVES[..5] + copy + UNHEARD_MOVES);
    }
    if CanGoUnheard(h, offer, before) {
      hide Run, Deliverable, Init, ConnOk, CanComplete;
      var schedule :|
        var c := Run(h, Init(h, [offer], before), schedule).conns[0]; c.saved == Some(c.up.data) && c.phase.Failed?;
      RunIsOk(h, [offer], before, schedule);
      var c := Run(h, Init(h, [offer], before), schedule).conns[0];
      assert c.offer == [offer][0] == offer;
      SavedIsDeliverable(h, c);
      if offer.fileName in before {
        TakenNameIsNeverSaved(h, offer, before, schedule);
      }
    }
  }
}
