/** When can a file be lost again that its sender was told is safe? */
module Losing {
  import opened Wrappers
  import opened Offers
  import opened Hashing
  import opened Receiving
  import opened Sending
  import opened Connections
  import opened Transfers
  import opened Driving
  import opened Overwriting

  /** The sender has reported completion, nobody tampered with its bytes, and yet its file is not there. */
  predicate Lost(s: System, i: nat) {
    && i < |s.conns| && s.conns[i].phase == Done && !s.conns[i].tampered
    && !(Name(s.conns[i]) in s.files && s.files[Name(s.conns[i])] == s.conns[i].up.data)
  }

  ghost predicate CanLose(h: StreamHash, offers: seq<TransferOffer>, before: Files) {
    exists schedule, i :: Lost(Run(h, Init(h, offers, before), schedule), i)
  }

  function OfferedTemp(o: TransferOffer): (temp: string)
    ensures |temp| == |o.fileName| + 48
  {
    TempName(o.fileName, o.transferId)
  }

  /** The name is free, or can become so: some transfer that can start takes the old file for its own
      temporary file, and removes it in the end. */
  predicate Freeable(offers: seq<TransferOffer>, before: Files, name: string)
    decreases |name|
  {
    name !in before
    || exists o | 0 <= o < |offers| :: OfferedTemp(offers[o]) == name && Freeable(offers, before, offers[o].fileName)
  }

  /** The name is free, or can become so without transfer `j`. */
  predicate FreeWithout(offers: seq<TransferOffer>, before: Files, name: string, j: nat) {
    name !in before
    || exists o | 0 <= o < |offers| && o != j ::
         OfferedTemp(offers[o]) == name && Freeable(offers, before, offers[o].fileName)
  }

  /** The same name, and a shared temporary file or different contents. */
  predicate Rivals(a: TransferOffer, b: TransferOffer) {
    && a.fileName == b.fileName
    && (a.transferId == b.transferId || (Deliverable(b) && a.fileSize + b.fileSize > 0))
  }

  /** Transfer `j` is a danger to `i`: it is a rival for a name that is or becomes free, or it can
      start while its temporary name is the file name of `i`. */
  predicate Endangered(offers: seq<TransferOffer>, before: Files, i: nat, j: nat) {
    && i < |offers| && j < |offers| && i != j && Deliverable(offers[i])
    && Freeable(offers, before, offers[j].fileName)
    && (|| Rivals(offers[i], offers[j])
        || (offers[i].fileName == OfferedTemp(offers[j]) && FreeWithout(offers, before, offers[i].fileName, j)))
  }

  // ---- Without danger, what was confirmed stays

  /** An old file of this name is gone because a transfer that is over has had it for its temporary file. */
  predicate Vacated(s: System, offers: seq<TransferOffer>, before: Files, name: string)
    requires |s.conns| == |offers|
  {
    name in before ==> exists k | 0 <= k < |offers| ::
      Over(s.conns[k]) && OfferedTemp(offers[k]) == name && Freeable(offers, before, offers[k].fileName)
  }

  /** What transfer `i` has delivered is in its place. */
  predicate FileStands(s: System, i: nat)
    requires i < |s.conns| && s.conns[i].saved.Some?
  {
    var c := s.conns[i];
    && Deliverable(c.offer) && |c.saved.value| == c.offer.fileSize
    && Name(c) in s.files && s.files[Name(c)] == c.saved.value
  }

  ghost predicate Kept(s: System, offers: seq<TransferOffer>, before: Files)
    requires |s.conns| == |offers|
  {
    && (forall n | n in before && n !in s.files :: Vacated(s, offers, before, n))
    && (forall i | 0 <= i < |s.conns| && (Active(s.conns[i]) || s.conns[i].saved.Some?) ::
          Vacated(s, offers, before, Name(s.conns[i])))
    && (forall i | 0 <= i < |s.conns| && Deliverable(s.conns[i].offer) :: Fits(s, i))
    && (forall i | 0 <= i < |s.conns| && s.conns[i].saved.Some? :: FileStands(s, i))
    && (forall i | 0 <= i < |s.conns| :: AtHome(s, i))
  }

  ghost predicate NoDanger(s: System, offers: seq<TransferOffer>, before: Files) {
    Serves(s, offers) && forall i, j :: !Endangered(offers, before, i, j)
  }

  lemma VacatedIsFreeable(s: System, offers: seq<TransferOffer>, before: Files, name: string, j: nat)
    requires |s.conns| == |offers| && Vacated(s, offers, before, name)
    ensures Freeable(offers, before, name)
    ensures j < |offers| && Active(s.conns[j]) ==> FreeWithout(offers, before, name, j)
  {
    hide OfferedTemp;
  }

  lemma VacatedStays(s: System, t: System, who: nat, offers: seq<TransferOffer>, before: Files, name: string)
    requires OneMoved(s, t, who) && |s.conns| == |offers| && Vacated(s, offers, before, name)
    ensures Vacated(t, offers, before, name)
  {
    hide OfferedTemp, Freeable, TempName;
    if name in before {
      var k :| 0 <= k < |offers|
        && Over(s.conns[k]) && OfferedTemp(offers[k]) == name && Freeable(offers, before, offers[k].fileName);
      assert Over(t.conns[k]);
    }
  }

  /** Who is active while `i` is: neither its rival by id, nor a danger to its temporary file. */
  lemma ActiveApart(s: System, who: nat, i: nat, offers: seq<TransferOffer>, before: Files)
    requires NoDanger(s, offers, before) && Kept(s, offers, before)
    requires who < |s.conns| && i < |s.conns| && i != who && Active(s.conns[who])
    requires Active(s.conns[i]) || s.conns[i].saved.Some?
    ensures Deliverable(offers[i]) ==> Temp(s.conns[who]) != Name(s.conns[i]) && !Rivals(offers[i], offers[who])
    ensures Deliverable(offers[who]) && Active(s.conns[i]) ==>
      Name(s.conns[who]) != Temp(s.conns[i]) && !Rivals(offers[who], offers[i])
  {
    hide OfferedTemp, Deliverable, Rivals, Fits, FileStands, AtHome, Vacated, Freeable, FreeWithout;
    assert !Endangered(offers, before, i, who) && !Endangered(offers, before, who, i);
    VacatedIsFreeable(s, offers, before, Name(s.conns[i]), who);
    VacatedIsFreeable(s, offers, before, Name(s.conns[who]), i);
    OfferedIsTemp(s, i, offers);
    OfferedIsTemp(s, who, offers);
  }

  lemma OfferedIsTemp(s: System, i: nat, offers: seq<TransferOffer>)
    requires Serves(s, offers) && i < |s.conns|
    ensures OfferedTemp(offers[i]) == Temp(s.conns[i])
  {
  }

  /** With the same temporary name, two transfers are rivals. */
  lemma SameTempRivals(a: TransferOffer, b: TransferOffer)
    requires TempName(a.fileName, a.transferId) == TempName(b.fileName, b.transferId)
    ensures Rivals(a, b)
  {
    TempNameInjective(a.fileName, a.transferId, b.fileName, b.transferId);
  }

  lemma FitStays(s: System, t: System, who: nat, i: nat, offers: seq<TransferOffer>, before: Files)
    requires OneMoved(s, t, who) && NoDanger(s, offers, before) && Kept(s, offers, before)
    requires i < |s.conns| && Deliverable(s.conns[i].offer)
    requires t.conns[who].saved.Some? ==> Deliverable(t.conns[who].offer)
    ensures Fits(t, i)
  {
    hide TempName, Deliverable, Vacated, Rivals, FileStands;
    var a, b := s.conns[i], s.conns[who];
    assert Fits(s, i) && AtHome(s, who);
    if i != who && Active(b) && Active(a) {
      ActiveApart(s, who, i, offers, before);
      if Temp(a) == Temp(b) {
        SameTempRivals(offers[i], offers[who]);
      }
      hide Endangered;
      assert SameEntry(s.files, t.files, Temp(a));
    }
  }

  lemma StandingStays(s: System, t: System, who: nat, i: nat, offers: seq<TransferOffer>, before: Files)
    requires OneMoved(s, t, who) && NoDanger(s, offers, before) && Kept(s, offers, before)
    requires i < |t.conns| && t.conns[i].saved.Some?
    requires t.conns[who].saved.Some? ==>
      Deliverable(t.conns[who].offer) && |t.conns[who].saved.value| == t.conns[who].offer.fileSize
    ensures FileStands(t, i)
  {
    hide TempName, Deliverable, Vacated;
    var b, d := s.conns[who], t.conns[who];
    assert AtHome(s, who);
    if i == who && NewlySaved(b, d) {
      assert Fits(s, who);
    } else {
      assert FileStands(s, i);
      if Active(b) && i == who {
        assert SameEntry(s.files, t.files, Name(b));
      } else if Active(b) {
        ActiveApart(s, who, i, offers, before);
        hide Endangered;
        if NewlySaved(b, d) && Name(s.conns[i]) == Name(b) {
          assert Fits(s, who);
          assert d.saved.value == [] && s.conns[i].saved.value == [];
        } else {
          assert SameEntry(s.files, t.files, Name(s.conns[i]));
        }
      }
    }
  }

  lemma HomeStays(s: System, t: System, who: nat, i: nat, offers: seq<TransferOffer>, before: Files)
    requires OneMoved(s, t, who) && NoDanger(s, offers, before) && Kept(s, offers, before)
    requires i < |s.conns|
    requires t.conns[who].saved.Some? ==> Deliverable(t.conns[who].offer)
    ensures AtHome(t, i)
  {
    hide TempName, Deliverable, Vacated, Rivals;
    var a, b := s.conns[i], s.conns[who];
    assert AtHome(s, i);
    if i != who && IsCopying(a) && NewlySaved(b, t.conns[who]) && Temp(a) == Temp(b) {
      ActiveApart(s, who, i, offers, before);
      SameTempRivals(offers[who], offers[i]);
    }
  }

  lemma VacancyStays(s: System, t: System, who: nat, offers: seq<TransferOffer>, before: Files)
    requires OneMoved(s, t, who) && NoDanger(s, offers, before) && Kept(s, offers, before)
    ensures forall n | n in before && n !in t.files :: Vacated(t, offers, before, n)
    ensures forall i | 0 <= i < |t.conns| && (Active(t.conns[i]) || t.conns[i].saved.Some?) ::
      Vacated(t, offers, before, Name(t.conns[i]))
  {
    var c, d := s.conns[who], t.conns[who];
    OfferedIsTemp(s, who, offers);
    hide TempName, OfferedTemp, Deliverable, Freeable, Fits, FileStands, Endangered;
    assert AtHome(s, who);
    forall n | n in before && n !in t.files
      ensures Vacated(t, offers, before, n)
    {
      if n !in s.files {
        VacatedStays(s, t, who, offers, before, n);
      } else {
        assert n == Temp(c) && Active(c) && Over(d);
        VacatedIsFreeable(s, offers, before, Name(c), who);
      }
    }
    forall i | 0 <= i < |t.conns| && (Active(t.conns[i]) || t.conns[i].saved.Some?)
      ensures Vacated(t, offers, before, Name(t.conns[i]))
    {
      var name := Name(s.conns[i]);
      if Active(s.conns[i]) || s.conns[i].saved.Some? {
        VacatedStays(s, t, who, offers, before, name);
      } else if name in before {
        assert i == who && name !in s.files;
        VacatedStays(s, t, who, offers, before, name);
      }
    }
  }

  lemma MoveKeepsKept(s: System, t: System, who: nat, offers: seq<TransferOffer>, before: Files)
    requires OneMoved(s, t, who) && NoDanger(s, offers, before) && Kept(s, offers, before) && |t.conns| == |offers|
    requires t.conns[who].saved.Some? ==>
      Deliverable(t.conns[who].offer) && |t.conns[who].saved.value| == t.conns[who].offer.fileSize
    requires forall i | 0 <= i < |t.conns| :: t.conns[i].offer == s.conns[i].offer
    ensures Kept(t, offers, before)
  {
    VacancyStays(s, t, who, offers, before);
    hide OneMoved, NoDanger, Deliverable, FileStands, Vacated, Fits, AtHome;
    forall i | 0 <= i < |t.conns| && Deliverable(t.conns[i].offer)
      ensures Fits(t, i)
    {
      FitStays(s, t, who, i, offers, before);
    }
    forall i | 0 <= i < |t.conns| && t.conns[i].saved.Some?
      ensures FileStands(t, i)
    {
      StandingStays(s, t, who, i, offers, before);
    }
    forall i | 0 <= i < |t.conns|
      ensures AtHome(t, i)
    {
      HomeStays(s, t, who, i, offers, before);
    }
  }

  lemma OneMovedKeepsOffers(s: System, t: System, who: nat)
    requires OneMoved(s, t, who)
    ensures forall i | 0 <= i < |t.conns| :: t.conns[i].offer == s.conns[i].offer
  {
  }

  lemma StepKeepsKept(h: StreamHash, s: System, a: Action, offers: seq<TransferOffer>, before: Files)
    requires SysOk(h, s) && NoDanger(s, offers, before) && Kept(s, offers, before)
    ensures |Step(h, s, a).conns| == |offers| && Kept(Step(h, s, a), offers, before)
  {
    StepIsOneMove(h, s, a);
    StepKeepsSysOk(h, s, a);
    var t, who := Step(h, s, a), a.who;
    if who < |s.conns| {
      OneMovedKeepsCount(s, t, who);
      if t.conns[who].saved.Some? {
        SavedIsDeliverable(h, t.conns[who]);
        SavedIsWhole(h, t.conns[who]);
      }
      OneMovedKeepsOffers(s, t, who);
      hide Step, SysOk, OneMoved, Deliverable, Kept;
      MoveKeepsKept(s, t, who, offers, before);
    }
  }

  lemma {:induction false} SafeRuns(h: StreamHash, offers: seq<TransferOffer>, before: Files, schedule: seq<Action>)
    requires Offerable(offers) && forall i, j :: !Endangered(offers, before, i, j)
    ensures Kept(Run(h, Init(h, offers, before), schedule), offers, before)
  {
    hide Deliverable, TempName, Endangered;
    if schedule != [] {
      var most := schedule[..|schedule| - 1];
      SafeRuns(h, offers, before, most);
      RunIsOk(h, offers, before, most);
      StepKeepsKept(h, Run(h, Init(h, offers, before), most), schedule[|schedule| - 1], offers, before);
    }
  }

  /** The end-to-end promise from the offers alone, on any directory: if no transfer is a danger to
      another, then in every schedule a sender that reports completion has its file in place, for good. */
  lemma ConfirmedFilesStay(h: StreamHash, offers: seq<TransferOffer>, before: Files, schedule: seq<Action>, i: nat)
    requires Offerable(offers) && i < |offers|
    requires forall i, j :: !Endangered(offers, before, i, j)
    ensures var s := Run(h, Init(h, offers, before), schedule);
      s.conns[i].phase == Done ==>
        && offers[i].fileName in s.files
        && var file := s.files[offers[i].fileName];
        && |file| == offers[i].fileSize == |s.conns[i].up.data|
        && DigestOf(h, file) == DigestOf(h, s.conns[i].up.data)
        && (!s.conns[i].tampered ==> file == s.conns[i].up.data)
  {
    var s := Run(h, Init(h, offers, before), schedule);
    RunIsOk(h, offers, before, schedule);
    SafeRuns(h, offers, before, schedule);
    hide Run, ConnOk, Endangered, Deliverable, TempName, Absorb, Vacated, Fits, AtHome;
    if s.conns[i].phase == Done {
      DoneMeansSaved(h, s.conns[i]);
      assert FileStands(s, i);
    }
  }

  /** And with the bytes replaced on the way it is still the sender's own file, unless some other
      content of that length has the same hash. */
  lemma ConfirmedDespiteTampering(h: StreamHash, offers: seq<TransferOffer>, before: Files, schedule: seq<Action>,
                                  i: nat)
    requires Offerable(offers) && i < |offers|
    requires forall i, j :: !Endangered(offers, before, i, j)
    ensures var s := Run(h, Init(h, offers, before), schedule);
      s.conns[i].phase == Done && OnlyPreimage(h, s.conns[i].up.data, offers[i].fileSize) ==>
        offers[i].fileName in s.files && s.files[offers[i].fileName] == s.conns[i].up.data
  {
    ConfirmedFilesStay(h, offers, before, schedule, i);
    hide Run, Endangered, DigestOf, Deliverable;
  }

  lemma NothingLost(h: StreamHash, offers: seq<TransferOffer>, before: Files, schedule: seq<Action>, i: nat)
    requires Offerable(offers) && forall i, j :: !Endangered(offers, before, i, j)
    ensures !Lost(Run(h, Init(h, offers, before), schedule), i)
  {
    RunIsOk(h, offers, before, schedule);
    if i < |offers| {
      ConfirmedFilesStay(h, offers, before, schedule, i);
    }
    hide Run, Endangered, Offerable, SysOk;
  }

  // ---- With danger, some schedule loses a file

  /** Transfer `i` gets through with copying zeros. */
  lemma CopyZeros(h: StreamHash, s: System, i: nat) returns (schedule: seq<Action>)
    requires Startable(h, s, i) && Deliverable(s.conns[i].offer)
    ensures var t := Run(h, s, schedule);
      OnlyMoved(s, t, i) && RenameReady(t.conns[i], 0)
      && t.files == s.files[Temp(s.conns[i]) := Rep(0, s.conns[i].offer.fileSize)]
  {
    hide Run, Deliverable, Startable, Checked, RenameReady, TempName, Rep;
    AtCheck(h, s, i);
    var check := By(i, OPENING_MOVES[..5]);
    var t := Run(h, s, check);
    var copy := ToRename(h, t, i, 0);
    RunConcat(h, s, check, copy);
    OnlyMovedTwice(s, t, Run(h, t, copy), i);
    schedule := check + copy;
  }

  /** The sender of transfer `i` is told that its file is safe. */
  lemma Confirm(h: StreamHash, s: System, i: nat)
    requires i < |s.conns| && RenameReady(s.conns[i], 0) && Temp(s.conns[i]) in s.files
    ensures var t := Run(h, s, By(i, LAST_MOVES));
      && OnlyMoved(s, t, i) && t.conns[i].phase == Done && !t.conns[i].tampered
      && t.conns[i].up.data == Rep(0, s.conns[i].offer.fileSize)
      && Name(s.conns[i]) in t.files && t.files[Name(s.conns[i])] == s.files[Temp(s.conns[i])]
  {
    DriveToDone(h, s.conns[i], s.files, At(s, i), 0);
    RunBy(h, s, i, LAST_MOVES);
    assert s.conns[i].up.data == Rep(0, s.conns[i].offer.fileSize);
    hide Run, Drive, RenameReady, TempName, Rep;
  }

  const SCRIBBLE_MOVES: seq<Move> := [IO_SUCCEEDS] + FeedMoves(1)

  /** The temporary file is emptied, and a byte is written to it. */
  lemma ScribbleMoves(h: StreamHash, offer: TransferOffer, files: Files)
    requires Valid(offer)
    ensures Drive(h, OpenedUpTo(h, offer, 5), files, None, SCRIBBLE_MOVES).1
         == files[TempName(offer.fileName, offer.transferId) := [1]]
  {
    hide Drive, OpenedUpTo, Fed, TempName, Valid, OfferWords;
    var temp := TempName(offer.fileName, offer.transferId);
    var f := files[temp := []];
    DriveCreate(h, offer, files);
    OpenedIsFed(h, offer, 1);
    FeedOne(h, OpenedUpTo(h, offer, 6), f, Some(temp), 1, 0);
    DriveOn(h, OpenedUpTo(h, offer, 5), files, None, [IO_SUCCEEDS], FeedMoves(1));
    WritingThroughAppends(f, temp, 0, [1]);
    assert f[temp] + [1] == [1];
  }

  lemma Scribble(h: StreamHash, s: System, j: nat)
    requires Checked(h, s, j)
    ensures var t := Run(h, s, By(j, SCRIBBLE_MOVES));
      |t.conns| == |s.conns| && t.conns == s.conns[j := t.conns[j]] && t.files == s.files[Temp(s.conns[j]) := [1]]
  {
    hide Run, Drive, OpenedUpTo, TempName, Valid;
    ScribbleMoves(h, s.conns[j].offer, s.files);
    RunBy(h, s, j, SCRIBBLE_MOVES);
  }

  lemma RepsDiffer(m: nat, n: nat)
    ensures m + n > 0 ==> Rep(0, m) != Rep(1, n)
    ensures Rep(0, m) != [1]
  {
    if m > 0 {
      assert Rep(0, m)[0] == 0;
    }
    assert |Rep(0, m)| == m && |Rep(1, n)| == n;
  }

  /** The first is confirmed; then the second replaces its file. */
  lemma ReplaceConfirmed(h: StreamHash, s: System, i: nat, j: nat) returns (schedule: seq<Action>)
    requires i < |s.conns| && j < |s.conns| && i != j && Name(s.conns[i]) == Name(s.conns[j])
    requires RenameReady(s.conns[i], 0) && Temp(s.conns[i]) in s.files
    requires Checked(h, s, j) && Deliverable(s.conns[j].offer)
    requires s.conns[i].offer.fileSize + s.conns[j].offer.fileSize > 0
    ensures Lost(Run(h, s, schedule), i)
  {
    hide Run, Step, OpenedUpTo, Deliverable, RenameReady, TempName, Rep, NewlySaved;
    Confirm(h, s, i);
    var t := Run(h, s, By(i, LAST_MOVES));
    var copy := ToRename(h, t, j, 1);
    var u := Run(h, t, copy);
    RenameStep(h, u, j, 1);
    RunOne(h, u, Action(j, IO_SUCCEEDS));
    RunConcat(h, s, By(i, LAST_MOVES), copy);
    RunConcat(h, s, By(i, LAST_MOVES) + copy, [Action(j, IO_SUCCEEDS)]);
    RepsDiffer(s.conns[i].offer.fileSize, s.conns[j].offer.fileSize);
    schedule := By(i, LAST_MOVES) + copy + [Action(j, IO_SUCCEEDS)];
  }

  /** The second spoils the shared temporary file; then the first renames it and is confirmed. */
  lemma SpoilAndConfirm(h: StreamHash, s: System, i: nat, j: nat)
    requires i < |s.conns| && i != j && RenameReady(s.conns[i], 0)
    requires Checked(h, s, j) && Temp(s.conns[i]) == Temp(s.conns[j])
    ensures Lost(Run(h, s, By(j, SCRIBBLE_MOVES) + By(i, LAST_MOVES)), i)
  {
    hide Run, OpenedUpTo, RenameReady, TempName, Rep, Checked;
    Scribble(h, s, j);
    var t := Run(h, s, By(j, SCRIBBLE_MOVES));
    assert t.conns[i] == s.conns[i];
    Confirm(h, t, i);
    RunConcat(h, s, By(j, SCRIBBLE_MOVES), By(i, LAST_MOVES));
    RepsDiffer(s.conns[i].offer.fileSize, 0);
  }

  /** The first is confirmed; then the second creates its temporary file on the same name. */
  lemma ConfirmAndScribble(h: StreamHash, s: System, i: nat, j: nat)
    requires i < |s.conns| && i != j && RenameReady(s.conns[i], 0) && Temp(s.conns[i]) in s.files
    requires Checked(h, s, j) && Name(s.conns[i]) == Temp(s.conns[j])
    ensures Lost(Run(h, s, By(i, LAST_MOVES) + By(j, SCRIBBLE_MOVES)), i)
  {
    hide Run, OpenedUpTo, RenameReady, TempName, Rep;
    Confirm(h, s, i);
    var t := Run(h, s, By(i, LAST_MOVES));
    Scribble(h, t, j);
    RunConcat(h, s, By(i, LAST_MOVES), By(j, SCRIBBLE_MOVES));
    RepsDiffer(s.conns[i].offer.fileSize, 0);
  }

  // ---- Making a name free

  const REMOVE_MOVES: seq<Move> := [IO_SUCCEEDS] + [Work(TimerFires)] + [IO_SUCCEEDS]

  lemma TimeOut(h: StreamHash, offer: TransferOffer, files: Files, at: Handle)
    requires Valid(offer)
    ensures var (d, g) := ConnStep(h, OpenedUpTo(h, offer, 6), files, at, Work(TimerFires));
      && g == files && d.offer == offer && d.rcv.Running? && d.rcv.offer == offer
      && d.rcv.task.Removing? && d.rcv.task.dest == offer.fileName
  {
    hide OfferWords, Valid, TempName, WriteAt;
  }

  lemma RemoveNow(h: StreamHash, c: Conn, files: Files, at: Handle)
    requires Valid(c.offer) && c.rcv.Running? && c.rcv.offer == c.offer
    requires c.rcv.task.Removing? && c.rcv.task.dest == Name(c)
    ensures var (d, g) := ConnStep(h, c, files, at, IO_SUCCEEDS); d.offer == c.offer && g == files - {Temp(c)}
  {
    hide Valid, TempName;
  }

  /** The task creates its temporary file, times out, and removes it. */
  lemma DriveRemoval(h: StreamHash, offer: TransferOffer, files: Files)
    requires Valid(offer)
    ensures var (d, g, _) := Drive(h, OpenedUpTo(h, offer, 5), files, None, REMOVE_MOVES);
      d.offer == offer && g == files - {TempName(offer.fileName, offer.transferId)}
  {
    hide Drive, OpenedUpTo, NextHandle, TempName, Valid, ConnStep;
    var c5, c6, temp := OpenedUpTo(h, offer, 5), OpenedUpTo(h, offer, 6), TempName(offer.fileName, offer.transferId);
    var f := files[temp := []];
    DriveCreate(h, offer, files);
    TimeOut(h, offer, f, Some(temp));
    var (d, g) := ConnStep(h, c6, f, Some(temp), Work(TimerFires));
    DriveOne(h, c6, f, Some(temp), Work(TimerFires));
    var at := NextHandle(Some(temp), true, c6, d, g);
    RemoveNow(h, d, g, at);
    DriveOne(h, d, g, at, IO_SUCCEEDS);
    assert f - {temp} == files - {temp};
    DriveOn(h, c5, files, None, [IO_SUCCEEDS], [Work(TimerFires)]);
    DriveOn(h, c5, files, None, [IO_SUCCEEDS] + [Work(TimerFires)], [IO_SUCCEEDS]);
  }

  lemma Remove(h: StreamHash, s: System, o: nat)
    requires Checked(h, s, o)
    ensures var t := Run(h, s, By(o, REMOVE_MOVES)); OnlyMoved(s, t, o) && t.files == s.files - {Temp(s.conns[o])}
  {
    hide Run, Drive, OpenedUpTo, TempName, Valid;
    DriveRemoval(h, s.conns[o].offer, s.files);
    RunBy(h, s, o, REMOVE_MOVES);
  }

  /** Only transfers with shorter names than `length` have moved, and no file has appeared. */
  ghost predicate ShorterMoved(s: System, t: System, length: nat) {
    && |t.conns| == |s.conns| && (forall n | n in t.files :: n in s.files)
    && (forall k: nat | k < |s.conns| :: t.conns[k].offer == s.conns[k].offer)
    && (forall k: nat | k < |s.conns| && |Name(s.conns[k])| >= length ::
          t.conns[k] == s.conns[k] && (At(s, k) == None ==> At(t, k) == None))
  }

  ghost predicate Idle(h: StreamHash, s: System, i: nat)
    requires i < |s.conns|
  {
    Valid(s.conns[i].offer) && s.conns[i] == Start(h, s.conns[i].offer) && At(s, i) == None
  }

  lemma RemoveOnceChecked(h: StreamHash, s: System, o: nat) returns (schedule: seq<Action>)
    requires Startable(h, s, o)
    ensures var t := Run(h, s, schedule); OnlyMoved(s, t, o) && t.files == s.files - {Temp(s.conns[o])}
  {
    hide Run, Startable, Checked, TempName;
    AtCheck(h, s, o);
    var check := By(o, OPENING_MOVES[..5]);
    var t := Run(h, s, check);
    Remove(h, t, o);
    RunConcat(h, s, check, By(o, REMOVE_MOVES));
    OnlyMovedTwice(s, t, Run(h, t, By(o, REMOVE_MOVES)), o);
    schedule := check + By(o, REMOVE_MOVES);
  }

  lemma ShorterAndOne(s: System, t: System, u: System, o: nat, length: nat)
    requires o < |s.conns| && ShorterMoved(s, t, |Name(s.conns[o])|) && OnlyMoved(t, u, o)
    requires |Name(s.conns[o])| < length && forall n | n in u.files :: n in t.files
    ensures ShorterMoved(s, u, length)
  {
  }

  lemma {:induction false} MakeFree(h: StreamHash, s: System, offers: seq<TransferOffer>, before: Files, name: string)
    returns (schedule: seq<Action>)
    requires Serves(s, offers) && Freeable(offers, before, name) && forall n | n in s.files :: n in before
    requires forall k: nat | k < |s.conns| && |Name(s.conns[k])| < |name| :: Idle(h, s, k)
    ensures var t := Run(h, s, schedule); ShorterMoved(s, t, |name|) && name !in t.files
    decreases |name|
  {
    assert Run(h, s, []) == s;
    hide Run, OfferedTemp, Start, Valid;
    if name !in s.files {
      schedule := [];
    } else {
      var o :| 0 <= o < |offers| && OfferedTemp(offers[o]) == name && Freeable(offers, before, offers[o].fileName);
      OfferedIsTemp(s, o, offers);
      assert Idle(h, s, o);
      var first := MakeFree(h, s, offers, before, offers[o].fileName);
      var t := Run(h, s, first);
      var second := RemoveOnceChecked(h, t, o);
      RunConcat(h, s, first, second);
      ShorterAndOne(s, t, Run(h, t, second), o, |name|);
      schedule := first + second;
    }
  }

  /** From two transfers, one past its existence check and one not begun, to the loss. */
  lemma LoseWhenChecked(h: StreamHash, s: System, i: nat, j: nat) returns (schedule: seq<Action>)
    requires Startable(h, s, i) && Checked(h, s, j) && i != j && Deliverable(s.conns[i].offer)
    requires Rivals(s.conns[i].offer, s.conns[j].offer) || Name(s.conns[i]) == Temp(s.conns[j])
    ensures Lost(Run(h, s, schedule), i)
  {
    hide Run, OpenedUpTo, Deliverable, RenameReady, Valid, Lost, Rep, Startable;
    var copy := CopyZeros(h, s, i);
    var t := Run(h, s, copy);
    assert t.conns[j] == s.conns[j] && Checked(h, t, j);
    hide Checked, TempName;
    if !Rivals(s.conns[i].offer, s.conns[j].offer) {
      ConfirmAndScribble(h, t, i, j);
      schedule := By(i, LAST_MOVES) + By(j, SCRIBBLE_MOVES);
    } else if s.conns[i].offer.transferId == s.conns[j].offer.transferId {
      SpoilAndConfirm(h, t, i, j);
      schedule := By(j, SCRIBBLE_MOVES) + By(i, LAST_MOVES);
    } else {
      schedule := ReplaceConfirmed(h, t, i, j);
    }
    RunConcat(h, s, copy, schedule);
    schedule := copy + schedule;
  }

  lemma LoseWhenFree(h: StreamHash, s: System, i: nat, j: nat) returns (schedule: seq<Action>)
    requires Startable(h, s, i) && Startable(h, s, j) && i != j && Deliverable(s.conns[i].offer)
    requires Rivals(s.conns[i].offer, s.conns[j].offer) || Name(s.conns[i]) == Temp(s.conns[j])
    ensures Lost(Run(h, s, schedule), i)
  {
    hide Run, OpenedUpTo, Deliverable, Valid, Lost, Rivals, TempName;
    AtCheck(h, s, j);
    var wait := By(j, OPENING_MOVES[..5]);
    var t := Run(h, s, wait);
    assert t.conns[i] == s.conns[i];
    schedule := LoseWhenChecked(h, t, i, j);
    RunConcat(h, s, wait, schedule);
    schedule := wait + schedule;
  }

  /** Transfers `o` and `j` have the same temporary name, and the old file of that name is in the way
      of `i`: `o` takes it and removes it, while `j` waits for `i` to be delivered. */
  lemma LoseBehindAnOldFile(h: StreamHash, s: System, i: nat, j: nat, o: nat) returns (schedule: seq<Action>)
    requires i < |s.conns| && Idle(h, s, i) && Startable(h, s, j) && Startable(h, s, o) && i != j && i != o && o != j
    requires Deliverable(s.conns[i].offer)
    requires Name(s.conns[i]) == Temp(s.conns[j]) == Temp(s.conns[o])
    ensures Lost(Run(h, s, schedule), i)
  {
    hide Run, OpenedUpTo, Deliverable, Valid, Lost, Rivals, TempName, Start;
    AtCheck(h, s, j);
    var wait := By(j, OPENING_MOVES[..5]);
    var t := Run(h, s, wait);
    assert t.conns[i] == s.conns[i] && t.conns[o] == s.conns[o];
    var remove := RemoveOnceChecked(h, t, o);
    var u := Run(h, t, remove);
    assert u.conns[i] == s.conns[i] && u.conns[j] == t.conns[j];
    schedule := LoseWhenChecked(h, u, i, j);
    RunConcat(h, s, wait, remove);
    RunConcat(h, s, wait + remove, schedule);
    schedule := wait + remove + schedule;
  }

  lemma IdleAtFirst(h: StreamHash, offers: seq<TransferOffer>, before: Files)
    requires Offerable(offers)
    ensures var s := Init(h, offers, before); Serves(s, offers) && forall k: nat | k < |offers| :: Idle(h, s, k)
  {
    forall k: nat | k < |offers|
      ensures Valid(offers[k])
    {
      assert offers[k] in offers;
    }
    hide Valid, Start;
    assert forall k: nat | k < |offers| :: Start(h, offers[k]).offer == offers[k] by { StartOffers(h, offers); }
  }

  lemma StartOffers(h: StreamHash, offers: seq<TransferOffer>)
    ensures forall k: nat | k < |offers| :: Start(h, offers[k]).offer == offers[k]
  {
  }

  /** With the name of `j` free already. */
  lemma LoseTo(h: StreamHash, s: System, offers: seq<TransferOffer>, before: Files, i: nat, j: nat)
    returns (schedule: seq<Action>)
    requires Serves(s, offers) && Endangered(offers, before, i, j) && offers[j].fileName !in s.files
    requires forall n | n in s.files :: n in before
    requires forall k: nat | k < |offers| && |offers[k].fileName| >= |offers[j].fileName| :: Idle(h, s, k)
    ensures Lost(Run(h, s, schedule), i)
  {
    OfferedIsTemp(s, j, offers);
    hide Run, Deliverable, Valid, Start, Lost, Freeable, TempName;
    assert Idle(h, s, i) && Idle(h, s, j);
    if offers[i].fileName !in s.files {
      schedule := LoseWhenFree(h, s, i, j);
    } else {
      var o :| 0 <= o < |offers| && o != j && OfferedTemp(offers[o]) == offers[i].fileName;
      OfferedIsTemp(s, o, offers);
      TempNameInjective(offers[o].fileName, offers[o].transferId, offers[j].fileName, offers[j].transferId);
      assert Idle(h, s, o);
      schedule := LoseBehindAnOldFile(h, s, i, j, o);
    }
  }

  lemma DangerLoses(h: StreamHash, offers: seq<TransferOffer>, before: Files, i: nat, j: nat)
    requires Offerable(offers) && Endangered(offers, before, i, j)
    ensures CanLose(h, offers, before)
  {
    var s := Init(h, offers, before);
    IdleAtFirst(h, offers, before);
    assert Freeable(offers, before, offers[j].fileName);
    hide Run, Lost, Init, Start, Endangered, Freeable, Valid, Offerable;
    var first := MakeFree(h, s, offers, before, offers[j].fileName);
    var t := Run(h, s, first);
    var schedule := LoseTo(h, t, offers, before, i, j);
    RunConcat(h, s, first, schedule);
  }

  /** The exact condition under which a confirmed file can be lost again, for any transfers and any
      directory: one of them is a danger to another. */
  lemma LosesExactly(h: StreamHash, offers: seq<TransferOffer>, before: Files)
    requires Offerable(offers)
    ensures CanLose(h, offers, before) <==> exists i, j :: Endangered(offers, before, i, j)
  {
    if i: nat, j: nat :| Endangered(offers, before, i, j) {
      DangerLoses(h, offers, before, i, j);
    } else {
      forall schedule, i: nat
        ensures !Lost(Run(h, Init(h, offers, before), schedule), i)
      {
        hide Endangered;
        NothingLost(h, offers, before, schedule, i);
      }
    }
  }
}
