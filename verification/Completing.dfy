/** When can a transfer complete at all? */
module Completing {
  import opened Wrappers
  import opened Offers
  import opened Hashing
  import opened Receiving
  import opened Sending
  import opened Connections
  import opened Transfers
  import opened Driving
  import opened Overwriting

  /** Some schedule lets the sender report completion. */
  ghost predicate CanComplete(h: StreamHash, offer: TransferOffer, before: Files) {
    exists schedule :: Run(h, Init(h, [offer], before), schedule).conns[0].phase == Done
  }

  /** A transfer of a free name that fits on a stream can be driven to completion. */
  lemma FreeNameCompletes(h: StreamHash, offer: TransferOffer, before: Files)
    requires Deliverable(offer) && offer.fileName !in before
    ensures CanComplete(h, offer, before)
  {
    var s := Init(h, [offer], before);
    assert Startable(h, s, 0) by { hide Run, OpenedUpTo; }
    hide Run, Drive, OpenedUpTo, TempName, Startable, Checked, Init;
    AtCheck(h, s, 0);
    var check := By(0, OPENING_MOVES[..5]);
    var t := Run(h, s, check);
    var copy := ToRename(h, t, 0, 0);
    hide Deliverable;
    var u := Run(h, t, copy);
    DriveToDone(h, u.conns[0], u.files, At(u, 0), 0);
    RunBy(h, u, 0, LAST_MOVES);
    RunConcat(h, s, check, copy);
    RunConcat(h, s, check + copy, By(0, LAST_MOVES));
  }

  /** With the name taken, nothing is ever saved. */
  lemma TakenNameIsNeverSaved(h: StreamHash, offer: TransferOffer, before: Files, schedule: seq<Action>)
    requires Valid(offer) && offer.fileName in before
    ensures Run(h, Init(h, [offer], before), schedule).conns[0].saved == None
  {
    HarmlessRuns(h, [offer], before, schedule);
    RunIsOk(h, [offer], before, schedule);
    hide Run, SysOk, Init;
    var s := Run(h, Init(h, [offer], before), schedule);
    assert s.conns[0].offer == [offer][0] == offer;
  }

  /** A transfer alone with the receiver's directory can complete, on some schedule, if and only if
      nothing in the directory has its file name, and the offer and the file fit on one stream. */
  lemma CompletesExactly(h: StreamHash, offer: TransferOffer, before: Files)
    requires Valid(offer)
    ensures CanComplete(h, offer, before) <==> offer.fileName !in before && Deliverable(offer)
  {
    if offer.fileName !in before && Deliverable(offer) {
      FreeNameCompletes(h, offer, before);
    } else {
      forall schedule
        ensures Run(h, Init(h, [offer], before), schedule).conns[0].phase != Done
      {
        var c := Run(h, Init(h, [offer], before), schedule).conns[0];
        RunIsOk(h, [offer], before, schedule);
        assert c.offer == [offer][0] == offer;
        hide Run, ConnOk, Deliverable, Init;
        if c.phase == Done {
          DoneMeansSaved(h, c);
          SavedIsDeliverable(h, c);
          TakenNameIsNeverSaved(h, offer, before, schedule);
        }
      }
    }
  }
}
