/** Everything a receiver may say on its half of the stream. */
module Conversation {
  import opened Bytes
  import opened Protocol
  import opened Decisions

  datatype Spoken = Nothing | Declined | Agreed | Confirmed(hash: Digest) | Regretted

  function AcceptWords(id: Id): seq<byte> {
    Wire(DecisionFrame(Accepted, id))
  }

  function RejectWords(id: Id): seq<byte> {
    Wire(DecisionFrame(Rejected, id))
  }

  function VerifiedWords(id: Id, hash: Digest): seq<byte> {
    Wire(VerifiedFrame(id, hash))
  }

  function Words(id: Id, s: Spoken): seq<byte> {
    match s
    case Nothing => []
    case Declined => RejectWords(id)
    case Agreed => AcceptWords(id)
    case Confirmed(hash) => AcceptWords(id) + VerifiedWords(id, hash)
    case Regretted => AcceptWords(id) + RejectWords(id)
  }

  /** Acceptance, rejection and verification, byte by byte. */
  lemma WordsWrittenOut(id: Id, hash: Digest)
    ensures AcceptWords(id) == [4, 0, 0, 0, 16] + id && RejectWords(id) == [5, 0, 0, 0, 16] + id
    ensures VerifiedWords(id, hash) == [9, 0, 0, 0, 48] + id + hash
  {
    FrameWrittenOut(DecisionFrame(Accepted, id));
    FrameWrittenOut(DecisionFrame(Rejected, id));
    FrameWrittenOut(VerifiedFrame(id, hash));
    CodesWrittenOut();
    hide Wire, BigEndian;
    assert [9, 0, 0, 0, 48] + (id + hash) == [9, 0, 0, 0, 48] + id + hash;
  }

  /** The five conversations, byte by byte. */
  lemma ConversationsWrittenOut(id: Id, hash: Digest)
    ensures Words(id, Nothing) == [] && Words(id, Declined) == [5, 0, 0, 0, 16] + id
    ensures Words(id, Agreed) == [4, 0, 0, 0, 16] + id
    ensures Words(id, Confirmed(hash)) == [4, 0, 0, 0, 16] + id + ([9, 0, 0, 0, 48] + id + hash)
    ensures Words(id, Regretted) == [4, 0, 0, 0, 16] + id + ([5, 0, 0, 0, 16] + id)
  {
    WordsWrittenOut(id, hash);
    hide AcceptWords, RejectWords, VerifiedWords;
  }
}
