/** Replies to an offer and the session state machine, after `src/transfer/decision.rs`. */
module Decisions {
  import opened Wrappers
  import opened Bytes
  import opened Protocol

  type Digest = s: seq<byte> | |s| == 32 witness seq(32, i => 0 as byte)

  datatype TransferDecision = Accepted | Rejected

  function DecisionType(d: TransferDecision): FrameType {
    match d
    case Accepted => FrameType.Accept
    case Rejected => FrameType.Reject
  }

  function DecisionFrame(d: TransferDecision, id: Id): (f: Frame)
    ensures Sendable(f)
  {
    Frame(DecisionType(d), id)
  }

  function DecisionToFrame(d: TransferDecision, id: Id): Result<Frame> {
    NewFrame(DecisionType(d), id)
  }

  function DecisionFromFrame(f: Frame): Result<(Id, TransferDecision)> {
    var decision :-
      match f.frameType
      case Accept => Ok(Accepted)
      case Reject => Ok(Rejected)
      case _ => Err("frame is not an accept/reject decision");
    if |f.payload| != 16 then Err("invalid transfer decision payload length") else Ok((f.payload, decision))
  }

  /** `complete_frame` and `verified_frame` share their layout: 16 bytes of id, 32 of hash. */
  function ReportToFrame(kind: FrameType, id: Id, hash: Digest): Result<Frame> {
    NewFrame(kind, id + hash)
  }

  function VerifiedFrame(id: Id, hash: Digest): (f: Frame)
    ensures Sendable(f)
  {
    Frame(Verified, id + hash)
  }

  function ReportFromFrame(kind: FrameType, f: Frame, wrongKind: string, wrongLength: string): Result<(Id, Digest)> {
    if f.frameType != kind then Err(wrongKind)
    else if |f.payload| != 48 then Err(wrongLength)
    else Ok((f.payload[..16], f.payload[16..48]))
  }

  function ParseCompleteFrame(f: Frame): Result<(Id, Digest)> {
    ReportFromFrame(Complete, f, "frame is not a complete frame", "invalid complete frame payload length")
  }

  function ParseVerifiedFrame(f: Frame): Result<(Id, Digest)> {
    ReportFromFrame(Verified, f, "frame is not a verified frame", "invalid verified frame payload length")
  }

  /** A decision frame is read back exactly, and only decision frames are. */
  lemma DecisionExact(f: Frame, id: Id, d: TransferDecision)
    ensures DecisionFromFrame(f) == Ok((id, d)) <==> DecisionToFrame(d, id) == Ok(f)
  {
  }

  /** `verified` and `complete` frames are read back exactly, and neither is ever taken for the other. */
  lemma ReportExact(f: Frame, id: Id, hash: Digest)
    ensures ParseVerifiedFrame(f) == Ok((id, hash)) <==> ReportToFrame(Verified, id, hash) == Ok(f)
    ensures ParseCompleteFrame(f) == Ok((id, hash)) <==> ReportToFrame(Complete, id, hash) == Ok(f)
  {
    if |f.payload| == 48 {
      assert f.payload == f.payload[..16] + f.payload[16..48];
    }
    assert (id + hash)[..16] == id && (id + hash)[16..48] == hash;
  }

  /** The frames of decisions and reports, byte by byte. */
  lemma RepliesWrittenOut(id: Id, hash: Digest)
    ensures DecisionToFrame(Accepted, id) == Ok(Frame(FrameType.Accept, id))
    ensures DecisionToFrame(Rejected, id) == Ok(Frame(FrameType.Reject, id))
    ensures ReportToFrame(Verified, id, hash) == Ok(VerifiedFrame(id, hash))
    ensures VerifiedFrame(id, hash).frameType == Verified && |VerifiedFrame(id, hash).payload| == 48
    ensures VerifiedFrame(id, hash).payload[..16] == id && VerifiedFrame(id, hash).payload[16..] == hash
    ensures ReportToFrame(Complete, id, hash).Ok? && Encode(ReportToFrame(Complete, id, hash).value)
         == Ok([7, 0, 0, 0, 48] + id + hash)
  {
    FrameWrittenOut(Frame(Complete, id + hash));
    CodesWrittenOut();
    hide Wire;
    assert [7, 0, 0, 0, 48] + (id + hash) == [7, 0, 0, 0, 48] + id + hash;
  }

  datatype TransferState = Offering | Accepting | Refused | Receiving | Completed | Cancelled

  datatype SessionCall = DoAccept | DoReject | DoBegin | DoComplete | DoCancel

  predicate CanReceiveChunks(s: TransferState) {
    s == Accepting || s == Receiving
  }

  predicate Final(s: TransferState) {
    s == Completed || s == Refused || s == Cancelled
  }

  /** The state a successful call moves to; `None` when the call is refused. */
  function After(s: TransferState, call: SessionCall): Option<TransferState> {
    match call
    case DoAccept => if s == Offering then Some(Accepting) else None
    case DoReject => if s == Offering then Some(Refused) else None
    case DoBegin => if s == Accepting then Some(Receiving) else None
    case DoComplete => if s == Receiving then Some(Completed) else None
    case DoCancel => if Final(s) then None else Some(Cancelled)
  }

  class TransferSession {
    var state: TransferState

    constructor ()
      ensures state == Offering
    {
      state := Offering;
    }

    method Accept() returns (r: Result<()>)
      modifies this
      ensures r.Ok? <==> After(old(state), DoAccept) == Some(state)
      ensures r.Err? ==> After(old(state), DoAccept) == None && state == old(state)
    {
      if state == Offering {
        state := Accepting;
        return Ok(());
      }
      r := Err("transfer cannot be accepted in current state");
    }

    method Reject() returns (r: Result<()>)
      modifies this
      ensures r.Ok? <==> After(old(state), DoReject) == Some(state)
      ensures r.Err? ==> After(old(state), DoReject) == None && state == old(state)
    {
      if state == Offering {
        state := Refused;
        return Ok(());
      }
      r := Err("transfer cannot be rejected in current state");
    }

    method BeginReceiving() returns (r: Result<()>)
      modifies this
      ensures r.Ok? <==> After(old(state), DoBegin) == Some(state)
      ensures r.Err? ==> After(old(state), DoBegin) == None && state == old(state)
    {
      if state == Accepting {
        state := Receiving;
        return Ok(());
      }
      r := Err("transfer has not been accepted");
    }

    method Complete() returns (r: Result<()>)
      modifies this
      ensures r.Ok? <==> After(old(state), DoComplete) == Some(state)
      ensures r.Err? ==> After(old(state), DoComplete) == None && state == old(state)
    {
      if state == Receiving {
        state := Completed;
        return Ok(());
      }
      r := Err("transfer cannot be completed");
    }

    method Cancel() returns (r: Result<()>)
      modifies this
      ensures r.Ok? <==> After(old(state), DoCancel) == Some(state)
      ensures r.Err? ==> After(old(state), DoCancel) == None && state == old(state)
    {
      if state == Offering || state == Accepting || state == Receiving {
        state := Cancelled;
        return Ok(());
      }
      r := Err("transfer cannot be cancelled");
    }
  }

  /** A session after a sequence of calls, and the calls of it that succeeded. */
  function RunSession(calls: seq<SessionCall>): (TransferState, seq<SessionCall>) {
    if calls == [] then (Offering, [])
    else
      var last := calls[|calls| - 1];
      var (s, done) := RunSession(calls[..|calls| - 1]);
      match After(s, last)
      case Some(next) => (next, done + [last])
      case None => (s, done)
  }

  lemma OneCallMore(calls: seq<SessionCall>, call: SessionCall)
    ensures var (s, done) := RunSession(calls);
      RunSession(calls + [call])
        == match After(s, call) case Some(next) => (next, done + [call]) case None => (s, done)
  {
    assert (calls + [call])[..|calls|] == calls;
  }

  /** The one history of successful calls that can lead to each state; a cancelled session may
      have been cancelled at three points. */
  predicate Explains(done: seq<SessionCall>, s: TransferState) {
    match s
    case Offering => done == []
    case Accepting => done == [DoAccept]
    case Refused => done == [DoReject]
    case Receiving => done == [DoAccept, DoBegin]
    case Completed => done == [DoAccept, DoBegin, DoComplete]
    case Cancelled =>
      done == [DoCancel] || done == [DoAccept, DoCancel] || done == [DoAccept, DoBegin, DoCancel]
  }

  /** Whatever is called in whatever order, the successes are one of the eight histories; so at
      most three calls succeed, and a session is completed exactly by accept, begin, complete. */
  lemma {:induction false} SessionRuns(calls: seq<SessionCall>)
    ensures Explains(RunSession(calls).1, RunSession(calls).0)
    ensures |RunSession(calls).1| <= 3
    ensures RunSession(calls).0 == Completed <==> RunSession(calls).1 == [DoAccept, DoBegin, DoComplete]
    ensures CanReceiveChunks(RunSession(calls).0) <==> RunSession(calls).1 in {[DoAccept], [DoAccept, DoBegin]}
  {
    if calls != [] {
      SessionRuns(calls[..|calls| - 1]);
    }
  }

  /** The calls that succeed, and where they lead. */
  lemma CallsWrittenOut(s: TransferState, call: SessionCall, t: TransferState)
    ensures After(s, call) == Some(t) <==>
      (s, call, t) in {(Offering, DoAccept, Accepting), (Offering, DoReject, Refused),
                       (Accepting, DoBegin, Receiving), (Receiving, DoComplete, Completed),
                       (Offering, DoCancel, Cancelled), (Accepting, DoCancel, Cancelled),
                       (Receiving, DoCancel, Cancelled)}
  {
  }

  lemma Succeeds(done: seq<SessionCall>, s: TransferState, call: SessionCall, longer: seq<SessionCall>,
                 t: TransferState)
    requires RunSession(done) == (s, done) && After(s, call) == Some(t) && longer == done + [call]
    ensures RunSession(longer) == (t, longer)
  {
    OneCallMore(done, call);
  }

  lemma EightHistories()
    ensures RunSession([]) == (Offering, []) && RunSession([DoCancel]) == (Cancelled, [DoCancel])
    ensures RunSession([DoReject]) == (Refused, [DoReject]) && RunSession([DoAccept]) == (Accepting, [DoAccept])
    ensures RunSession([DoAccept, DoCancel]) == (Cancelled, [DoAccept, DoCancel])
    ensures RunSession([DoAccept, DoBegin]) == (Receiving, [DoAccept, DoBegin])
    ensures RunSession([DoAccept, DoBegin, DoCancel]) == (Cancelled, [DoAccept, DoBegin, DoCancel])
    ensures RunSession([DoAccept, DoBegin, DoComplete]) == (Completed, [DoAccept, DoBegin, DoComplete])
  {
    assert RunSession([]) == (Offering, []);
    hide RunSession;
    Succeeds([], Offering, DoCancel, [DoCancel], Cancelled);
    Succeeds([], Offering, DoReject, [DoReject], Refused);
    Succeeds([], Offering, DoAccept, [DoAccept], Accepting);
    Succeeds([DoAccept], Accepting, DoCancel, [DoAccept, DoCancel], Cancelled);
    Succeeds([DoAccept], Accepting, DoBegin, [DoAccept, DoBegin], Receiving);
    Succeeds([DoAccept, DoBegin], Receiving, DoCancel, [DoAccept, DoBegin, DoCancel], Cancelled);
    Succeeds([DoAccept, DoBegin], Receiving, DoComplete, [DoAccept, DoBegin, DoComplete], Completed);
  }

  /** Each of the eight histories happens: it is what calling just that leads to. */
  lemma HistoriesHappen(done: seq<SessionCall>, s: TransferState)
    ensures Explains(done, s) <==> RunSession(done) == (s, done)
  {
    EightHistories();
    hide RunSession;
    SessionRuns(done);
  }

  /** A final state is never left: later calls all fail and change nothing. */
  lemma {:induction false} FinalIsForever(calls: seq<SessionCall>, more: seq<SessionCall>)
    requires Final(RunSession(calls).0)
    ensures RunSession(calls + more) == RunSession(calls)
  {
    if more == [] {
      assert calls + more == calls;
    } else {
      FinalIsForever(calls, more[..|more| - 1]);
      assert (calls + more)[..|calls + more| - 1] == calls + more[..|more| - 1];
    }
  }
}
