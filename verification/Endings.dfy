/** Ends that are final: a sender that is through, and connections that have been cut. */
module Endings {
  import opened Wrappers
  import opened Bytes
  import opened Protocol
  import opened Offers
  import opened Decisions
  import opened Hashing
  import opened Receiving
  import opened Conversation
  import opened Sending
  import opened Connections
  import opened Transfers

  ghost predicate EveryMoveKeeps(h: StreamHash, p: Conn -> bool) {
    forall c: Conn, files, at, m | Valid(c.offer) && p(c) :: p(ConnStep(h, c, files, at, m).0)
  }

  /** What every move of a connection keeps about it holds for good, whatever the others do. */
  lemma {:induction false} HoldsForGood(h: StreamHash, s: System, i: nat, p: Conn -> bool, schedule: seq<Action>)
    requires i < |s.conns| && p(s.conns[i])
    requires EveryMoveKeeps(h, p)
    ensures p(Run(h, s, schedule).conns[i])
  {
    hide ConnStep;
    if schedule != [] {
      HoldsForGood(h, s, i, p, schedule[..|schedule| - 1]);
    }
  }

  lemma RunFirst(h: StreamHash, s: System, a: Action, schedule: seq<Action>)
    ensures Run(h, s, [a] + schedule) == Run(h, Step(h, s, a), schedule)
  {
    assert [a][..0] == [] && Run(h, s, []) == s;
    assert Run(h, s, [a]) == Step(h, s, a);
    RunConcat(h, s, [a], schedule);
  }

  /** The same after a first move. */
  lemma HoldsAfter(h: StreamHash, s: System, i: nat, m: Move, p: Conn -> bool, schedule: seq<Action>)
    requires i < |s.conns| && Valid(s.conns[i].offer) && p(ConnStep(h, s.conns[i], s.files, At(s, i), m).0)
    requires EveryMoveKeeps(h, p)
    ensures p(Run(h, s, [Action(i, m)] + schedule).conns[i])
  {
    RunFirst(h, s, Action(i, m), schedule);
    hide ConnStep, Run;
    HoldsForGood(h, Step(h, s, Action(i, m)), i, p, schedule);
  }

  predicate SenderIsOver(phase: SenderPhase) {
    phase in {Done, TurnedAway} || phase.Failed?
  }

  lemma OverStaysOver(h: StreamHash, c: Conn, files: Files, at: Handle, m: Move)
    requires Valid(c.offer) && SenderIsOver(c.phase)
    ensures ConnStep(h, c, files, at, m).0.phase == c.phase
  {
    hide WorkMove, Hear, Put, Take, Close, Cut, Drop, TakeOffer, Wire, Valid;
    if m.Work? {
      WorkFrame(h, c, files, at, m.await);
    }
  }

  /** What a sender has reported it never takes back. */
  lemma ReportIsFinal(h: StreamHash, s: System, i: nat, schedule: seq<Action>)
    requires i < |s.conns| && SenderIsOver(s.conns[i].phase)
    ensures Run(h, s, schedule).conns[i].phase == s.conns[i].phase
  {
    var phase := s.conns[i].phase;
    forall c: Conn, files, at, m | Valid(c.offer) && c.phase == phase
      ensures ConnStep(h, c, files, at, m).0.phase == phase
    {
      OverStaysOver(h, c, files, at, m);
    }
    hide ConnStep, Run;
    HoldsForGood(h, s, i, (c: Conn) => c.phase == phase, schedule);
  }

  /** A sender that gives up has failed for good, unless it was through already. */
  lemma QuittingIsFinal(h: StreamHash, s: System, i: nat, finishes: bool, schedule: seq<Action>)
    requires i < |s.conns| && Valid(s.conns[i].offer)
    ensures Run(h, s, [Action(i, SenderQuits(finishes))] + schedule).conns[i].phase
         == if SenderIsOver(s.conns[i].phase) then s.conns[i].phase else Failed("stopped")
  {
    var quit := Action(i, SenderQuits(finishes));
    RunFirst(h, s, quit, schedule);
    hide Run, Drop, Valid;
    ReportIsFinal(h, Step(h, s, quit), i, schedule);
  }

  lemma ClosedStaysClosed(h: StreamHash, c: Conn, files: Files, at: Handle, m: Move)
    requires Valid(c.offer) && c.rcv.Closed?
    ensures ConnStep(h, c, files, at, m).0.rcv.Closed? && ConnStep(h, c, files, at, m).0.saved == c.saved
  {
    SenderKeepsToItself(h, c, m);
    hide SenderMove, Drop, Valid;
  }

  /** A receiver that has gone neither comes back nor saves anything any more. */
  lemma GoneReceiverSavesNothing(h: StreamHash, s: System, i: nat, finishes: bool, schedule: seq<Action>)
    requires i < |s.conns| && Valid(s.conns[i].offer)
    ensures var c := Run(h, s, [Action(i, ReceiverQuits(finishes))] + schedule).conns[i];
      c.rcv.Closed? && c.saved == s.conns[i].saved
  {
    var saved := s.conns[i].saved;
    forall c: Conn, files, at, m | Valid(c.offer) && c.rcv.Closed? && c.saved == saved
      ensures var d := ConnStep(h, c, files, at, m).0; d.rcv.Closed? && d.saved == saved
    {
      ClosedStaysClosed(h, c, files, at, m);
    }
    var m := ReceiverQuits(finishes);
    assert ConnStep(h, s.conns[i], s.files, At(s, i), m).0.rcv.Closed?;
    assert ConnStep(h, s.conns[i], s.files, At(s, i), m).0.saved == saved;
    hide ConnStep, Run;
    HoldsAfter(h, s, i, m, (c: Conn) => c.rcv.Closed? && c.saved == saved, schedule);
  }

  // ---- A stream that was cut

  /** The file bytes have been cut off before the copy loop was through with them. */
  predicate CutShort(c: Conn) {
    && c.fwd.state == Broken && c.saved == None
    && (c.rcv.Running? ==> !c.rcv.task.Renaming? && !(c.rcv.task.Returned? && c.rcv.task.result.Ok?))
  }

  lemma CopyNeedsAnEnd(h: StreamHash, offer: TransferOffer, dest: string, p: Copy, e: TaskEvent)
    requires !e.Ended? && e != Piece([])
    ensures !CopyStep(h, offer, dest, p, e).Renaming?
  {
  }

  /** Hearing a frame, or failing to, takes bytes off the back channel and changes no other. */
  lemma HearOnPipes(c: Conn, judge: Frame -> SenderPhase)
    ensures var d := Hear(c, judge);
      && d == c.(phase := d.phase, back := d.back) && d.back.state == c.back.state
      && |d.back.read| + |d.back.queue| == |c.back.read| + |c.back.queue|
  {
    hide TakeFrame, Wire;
    if TakeFrame(c.back.queue).Got? {
      TakeFrameExact(c.back.queue, TakeFrame(c.back.queue).frame, TakeFrame(c.back.queue).rest);
    }
  }

  /** A broken channel stays broken, and no more than was under way can still arrive. */
  lemma SenderOnPipes(h: StreamHash, c: Conn, m: Move)
    requires Valid(c.offer)
    ensures var d := SenderMove(h, c, m);
      && d.rcv == c.rcv && d.saved == c.saved && (c.fwd.state == Broken ==> d.fwd.state == Broken)
      && d.back.state == c.back.state && |d.back.read| + |d.back.queue| == |c.back.read| + |c.back.queue|
  {
    hide Hear, Sent, JudgeDecision, JudgeVerdict, OfferWords, Valid;
    HearOnPipes(c, f => JudgeDecision(c.offer.transferId, f));
    HearOnPipes(c, f => JudgeVerdict(c.offer.transferId, h.finish(c.up.hash), f));
  }

  lemma ReceiverOnPipes(c: Conn, m: Move)
    ensures var d := ReceiverMove(c, m);
      && d.saved == c.saved && (d.rcv.Running? ==> d.rcv == c.rcv || d.rcv.task.Opening?)
      && d.fwd.state == c.fwd.state
      && (c.back.state == Broken ==>
            d.back.state == Broken && |d.back.read| + |d.back.queue| == |c.back.read| + |c.back.queue|)
  {
    hide TakeOffer, Wire;
  }

  lemma CutShortStays(h: StreamHash, c: Conn, files: Files, at: Handle, m: Move)
    requires Valid(c.offer) && CutShort(c)
    ensures CutShort(ConnStep(h, c, files, at, m).0)
  {
    SenderOnPipes(h, c, m);
    ReceiverOnPipes(c, m);
    hide SenderMove, ReceiverMove, Valid;
    if m.Work? {
      CutShortWorks(h, c, files, at, m.await);
      hide WorkMove;
    }
  }

  lemma CutShortWorks(h: StreamHash, c: Conn, files: Files, at: Handle, a: Await)
    requires CutShort(c)
    ensures CutShort(WorkMove(h, c, files, at, a).0)
  {
    hide CopyStep, OpenStep;
    if c.rcv.Running? && EventFor(c.rcv.task, c.fwd, a).Some? {
      var e := EventFor(c.rcv.task, c.fwd, a).value;
      if c.rcv.task.Copying? {
        CopyNeedsAnEnd(h, c.rcv.offer, c.rcv.task.dest, c.rcv.task.c, e);
        CopyStepCopies(h, c.rcv.offer, c.rcv.task.dest, c.rcv.task.c, e);
      } else if e.Opened? {
        OpeningDoesNotReturnOk(h, c.rcv.offer, files, e.ok);
      }
    }
  }

  lemma OpeningDoesNotReturnOk(h: StreamHash, offer: TransferOffer, files: Files, ok: bool)
    ensures var t := OpenStep(h, offer, files, ok); t.Creating? || (t.Returned? && t.result.Err?)
  {
  }

  /** A file whose bytes are cut off before the copy loop has seen their end is never saved, however
      many of them still arrive: no truncated file passes for a whole one. */
  lemma CutFileIsNeverSaved(h: StreamHash, s: System, i: nat, kept: nat, schedule: seq<Action>)
    requires i < |s.conns| && Valid(s.conns[i].offer) && s.conns[i].saved == None
    requires s.conns[i].rcv.Running? ==>
      !s.conns[i].rcv.task.Renaming? && !(s.conns[i].rcv.task.Returned? && s.conns[i].rcv.task.result.Ok?)
    ensures Run(h, s, [Action(i, CutForward(kept))] + schedule).conns[i].saved == None
  {
    forall c: Conn, files, at, m | Valid(c.offer) && CutShort(c)
      ensures CutShort(ConnStep(h, c, files, at, m).0)
    {
      CutShortStays(h, c, files, at, m);
    }
    assert CutShort(ConnStep(h, s.conns[i], s.files, At(s, i), CutForward(kept)).0);
    hide ConnStep, Run;
    HoldsAfter(h, s, i, CutForward(kept), c => CutShort(c), schedule);
  }

  /** Too little can still be heard for a whole conversation. */
  ghost predicate CutOff(h: StreamHash, c: Conn) {
    ConnOk(h, c) && c.back.state == Broken && |c.back.read| + |c.back.queue| < 74
  }

  lemma DoneHasHeardItAll(h: StreamHash, c: Conn)
    requires ConnOk(h, c) && c.phase == Done
    ensures |c.back.read| == 74
  {
    hide UploadOk, ReceiverOk, OfferWords, PipeOk, Absorb;
    FramesMeasured(c.offer.transferId, DigestOf(h, c.up.data));
  }

  lemma FramesMeasured(id: Id, hash: Digest)
    ensures |AcceptWords(id)| == 21 && |VerifiedWords(id, hash)| == 53
  {
    WordsWrittenOut(id, hash);
    hide AcceptWords, VerifiedWords;
  }

  lemma CutOffStays(h: StreamHash, c: Conn, files: Files, at: Handle, m: Move)
    requires Valid(c.offer) && CutOff(h, c)
    ensures CutOff(h, ConnStep(h, c, files, at, m).0)
  {
    ConnStepKeepsOk(h, c, files, at, m);
    SenderOnPipes(h, c, m);
    ReceiverOnPipes(c, m);
    hide ConnOk, SenderMove, ReceiverMove, Valid;
    if m.Work? {
      WorkFrame(h, c, files, at, m.await);
      hide WorkMove;
    }
  }

  lemma CutBackCutsOff(h: StreamHash, c: Conn, files: Files, at: Handle, kept: nat)
    requires ConnOk(h, c) && Valid(c.offer) && |c.back.read| + kept < 74
    ensures CutOff(h, ConnStep(h, c, files, at, CutBack(kept)).0)
  {
    ConnStepKeepsOk(h, c, files, at, CutBack(kept));
    hide ConnOk, WorkMove, SenderMove, ReceiverMove, Valid;
  }

  lemma CutOffIsNotDone(h: StreamHash, c: Conn)
    requires CutOff(h, c)
    ensures c.phase != Done
  {
    if c.phase == Done {
      DoneHasHeardItAll(h, c);
    }
  }

  /** A sender whose answers are cut off before a whole conversation could arrive never reports completion. */
  lemma CutSenderNeverCompletes(h: StreamHash, s: System, i: nat, kept: nat, schedule: seq<Action>)
    requires i < |s.conns| && ConnOk(h, s.conns[i])
    requires |s.conns[i].back.read| + kept < 74
    ensures Run(h, s, [Action(i, CutBack(kept))] + schedule).conns[i].phase != Done
  {
    OkIsValid(h, s.conns[i]);
    forall c: Conn, files, at, m | Valid(c.offer) && CutOff(h, c)
      ensures CutOff(h, ConnStep(h, c, files, at, m).0)
    {
      CutOffStays(h, c, files, at, m);
    }
    CutBackCutsOff(h, s.conns[i], s.files, At(s, i), kept);
    hide ConnStep, Run, ConnOk, CutOff;
    HoldsAfter(h, s, i, CutBack(kept), c => CutOff(h, c), schedule);
    var c := Run(h, s, [Action(i, CutBack(kept))] + schedule).conns[i];
    CutOffIsNotDone(h, c);
  }
}
