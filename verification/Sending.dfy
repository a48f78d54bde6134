/** What the sender of `src/bin/tailsfer-send.rs` makes of the frames it hears and of its file. */
module Sending {
  import opened Bytes
  import opened Protocol
  import opened Offers
  import opened Decisions
  import opened Hashing
  import opened ProgressReports

  const CHUNK_SIZE: nat := MEBIBYTE

  datatype SenderPhase =
    | Fresh
    | AwaitingDecision
    | Streaming
    | AwaitingVerdict
    | Done
    | TurnedAway
    | Failed(error: string)

  /** What the first frame from the receiver means for the transfer `id`. */
  function JudgeDecision(id: Id, f: Frame): SenderPhase {
    match f.frameType
    case Accept =>
      (match DecisionFromFrame(f)
       case Err(e) => Failed(e)
       case Ok((acceptedId, _)) =>
         if acceptedId != id then Failed("receiver accepted a different transfer ID") else Streaming)
    case Reject =>
      (match DecisionFromFrame(f)
       case Err(e) => Failed(e)
       case Ok((rejectedId, _)) =>
         if rejectedId != id then Failed("receiver rejected a different transfer ID") else TurnedAway)
    case _ => Failed("unexpected frame received instead of decision")
  }

  /** What the second frame means, once the upload is done. */
  function JudgeVerdict(id: Id, localHash: Digest, f: Frame): SenderPhase {
    match f.frameType
    case Verified =>
      (match ParseVerifiedFrame(f)
       case Err(e) => Failed(e)
       case Ok((verifiedId, receiverHash)) =>
         if verifiedId != id then Failed("receiver verified a different transfer ID")
         else if receiverHash != localHash then Failed("BLAKE3 verification failed: sender and receiver hashes differ")
         else Done)
    case Reject =>
      (match DecisionFromFrame(f)
       case Err(e) => Failed(e)
       case Ok((rejectedId, _)) =>
         if rejectedId != id then Failed("receiver rejected a different transfer ID")
         else Failed("receiver reported transfer verification failure"))
    case _ => Failed("unexpected frame received after transfer")
  }

  /** One frame, and only one, lets the upload begin; one ends it politely. */
  lemma JudgeDecisionExact(id: Id, f: Frame)
    ensures JudgeDecision(id, f) == Streaming <==> f == DecisionFrame(Accepted, id)
    ensures JudgeDecision(id, f) == TurnedAway <==> f == DecisionFrame(Rejected, id)
    ensures JudgeDecision(id, f) in {Streaming, TurnedAway} || JudgeDecision(id, f).Failed?
  {
  }

  /** One frame, and only one, completes the transfer: the one with its id and its own hash. */
  lemma JudgeVerdictExact(id: Id, localHash: Digest, f: Frame)
    ensures JudgeVerdict(id, localHash, f) == Done <==> f == VerifiedFrame(id, localHash)
    ensures JudgeVerdict(id, localHash, f) == Done || JudgeVerdict(id, localHash, f).Failed?
  {
    ReportExact(f, id, localHash);
  }

  /** The variables of the upload loop; `data` records what has been read from the file. */
  datatype Upload = Upload(total: u64, hash: HashState, progress: Progress, data: seq<byte>)

  function StartUpload(h: StreamHash): Upload {
    Upload(0, h.init, NO_REPORTS, [])
  }

  /** One turn of the loop. There is no overrun check here, and the sum wraps. */
  function Sent(h: StreamHash, offer: TransferOffer, u: Upload, piece: seq<byte>): Upload {
    var total := (u.total + |piece|) % U64_LIMIT;
    Upload(total, Absorb(h, u.hash, piece), Report(u.progress, total, offer.fileSize), u.data + piece)
  }

  ghost predicate UploadOk(h: StreamHash, offer: TransferOffer, u: Upload) {
    && u.total == |u.data| % U64_LIMIT
    && u.hash == Absorb(h, h.init, u.data)
    && (|u.data| < U64_LIMIT ==> Amortised(u.progress, u.total, offer.fileSize))
  }

  lemma SentKeepsUploadOk(h: StreamHash, offer: TransferOffer, u: Upload, piece: seq<byte>)
    requires UploadOk(h, offer, u) && piece != []
    ensures UploadOk(h, offer, Sent(h, offer, u, piece))
  {
    hide Absorb;
    AbsorbConcat(h, h.init, u.data, piece);
    AddingWraps(|u.data|, |piece|);
    if |u.data| + |piece| < U64_LIMIT {
      assert u.total == |u.data| && Sent(h, offer, u, piece).total == u.total + |piece|;
      ReportStaysAmortised(u.progress, u.total, u.total + |piece|, offer.fileSize);
    }
  }

  lemma StartUploadOk(h: StreamHash, offer: TransferOffer)
    ensures UploadOk(h, offer, StartUpload(h))
  {
  }

  lemma PrintedBound(h: StreamHash, offer: TransferOffer, u: Upload)
    requires UploadOk(h, offer, u)
    ensures |u.data| < U64_LIMIT ==> |u.progress.printed| <= |u.data| / (64 * MEBIBYTE) + 1
  {
    if |u.data| < U64_LIMIT {
      FewLinesNoSilence(u.progress, u.total, offer.fileSize);
    }
  }
}
