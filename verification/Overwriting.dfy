/**
  When can a transfer harm a file that is already there? The user guide promises never. But the
  existence check and the rename are separate awaits, the temporary file is created without any
  check, and a task goes on writing to a file it holds open after another has renamed it. So the
  promise holds on a condition; here is exactly which.
*/
module Overwriting {
  import opened Wrappers
  import opened Offers
  import opened Hashing
  import opened Receiving
  import opened Connections
  import opened Transfers
  import opened Driving

  predicate DeliveredTo(s: System, n: string) {
    exists i :: 0 <= i < |s.conns| && Name(s.conns[i]) == n && s.conns[i].saved.Some?
  }

  /** Somebody's file: it was there from the start, or a transfer was delivered into it. */
  predicate Precious(before: Files, s: System, n: string) {
    n in s.files && (n in before || DeliveredTo(s, n))
  }

  /** A new file is put in place of whatever the name held: by the rename, or by creating the temporary file. */
  predicate Replaces(c: Conn, d: Conn, n: string) {
    || (NewlySaved(c, d) && n == Name(c))
    || (c.rcv.Running? && c.rcv.task.Creating? && d.rcv.Running? && d.rcv.task.Copying? && n == Temp(c))
  }

  /** The step removes, changes or replaces somebody's file. */
  ghost predicate Overwrites(h: StreamHash, before: Files, s: System, a: Action) {
    && a.who < |s.conns|
    && var t := Step(h, s, a);
    && exists n :: Precious(before, s, n)
         && (n !in t.files || t.files[n] != s.files[n] || Replaces(s.conns[a.who], t.conns[a.who], n))
  }

  ghost predicate CanOverwrite(h: StreamHash, offers: seq<TransferOffer>, before: Files) {
    exists schedule, a :: Overwrites(h, before, Run(h, Init(h, offers, before), schedule), a)
  }

  /** Two transfers want the same free name; the first can be delivered, and the second can too, or
      shares its temporary file. */
  predicate Contended(offers: seq<TransferOffer>, before: Files, i: nat, j: nat) {
    && i < |offers| && j < |offers| && i != j
    && offers[i].fileName == offers[j].fileName && offers[i].fileName !in before
    && Deliverable(offers[i]) && (Deliverable(offers[j]) || offers[i].transferId == offers[j].transferId)
  }

  /** The temporary name of a transfer that will start is an old file's name, or one that will be delivered. */
  predicate TempTaken(offers: seq<TransferOffer>, before: Files, i: nat) {
    && i < |offers| && offers[i].fileName !in before
    && var temp := TempName(offers[i].fileName, offers[i].transferId);
    && (temp in before || exists j :: 0 <= j < |offers| && offers[j].fileName == temp && Deliverable(offers[j]))
  }

  ghost predicate Harmless(offers: seq<TransferOffer>, before: Files) {
    && (forall i, j :: !Contended(offers, before, i, j))
    && (forall i :: !TempTaken(offers, before, i))
  }

  // ---- Otherwise nothing is overwritten

  /** What a task holds open is its own temporary file, or a file that has been unlinked. */
  predicate AtHome(s: System, i: nat)
    requires i < |s.conns|
  {
    IsCopying(s.conns[i]) ==> At(s, i) == None || At(s, i) == Some(Temp(s.conns[i]))
  }

  /** All old files are as they were, and only free names are in use. */
  ghost predicate Unharmed(before: Files, s: System) {
    && (forall n | n in before :: n in s.files && s.files[n] == before[n])
    && (forall i | 0 <= i < |s.conns| && Active(s.conns[i]) :: Name(s.conns[i]) !in before)
    && (forall i | 0 <= i < |s.conns| && s.conns[i].saved.Some? ::
          Name(s.conns[i]) !in before && Deliverable(s.conns[i].offer))
    && (forall i | 0 <= i < |s.conns| :: AtHome(s, i))
  }

  ghost predicate Serves(s: System, offers: seq<TransferOffer>) {
    |s.conns| == |offers| && forall i | 0 <= i < |offers| :: s.conns[i].offer == offers[i]
  }

  /** One move of one connection leaves everybody's files alone. */
  lemma PreciousStays(s: System, t: System, who: nat, offers: seq<TransferOffer>, before: Files, n: string)
    requires OneMoved(s, t, who) && Serves(s, offers) && Harmless(offers, before) && Unharmed(before, s)
    requires t.conns[who].saved.Some? ==> Deliverable(t.conns[who].offer)
    requires Precious(before, s, n)
    ensures SameEntry(s.files, t.files, n) && !Replaces(s.conns[who], t.conns[who], n)
  {
    hide TempName, Deliverable;
    var c, d := s.conns[who], t.conns[who];
    assert AtHome(s, who);
    if Active(c) {
      assert !TempTaken(offers, before, who);
      if n !in before {
        var i :| 0 <= i < |s.conns| && Name(s.conns[i]) == n && s.conns[i].saved.Some?;
        assert offers[i].fileName == n && Deliverable(offers[i]);
        assert n != Temp(c);
        assert !Contended(offers, before, who, i);
      }
    }
  }

  lemma MoveKeepsUnharmed(s: System, t: System, who: nat, offers: seq<TransferOffer>, before: Files)
    requires OneMoved(s, t, who) && Serves(s, offers) && Harmless(offers, before) && Unharmed(before, s)
    requires t.conns[who].saved.Some? ==> Deliverable(t.conns[who].offer)
    ensures Unharmed(before, t)
    ensures forall n | Precious(before, s, n) ::
      SameEntry(s.files, t.files, n) && !Replaces(s.conns[who], t.conns[who], n)
  {
    hide Serves, Harmless, Deliverable, TempName, MoveOnDirectory, Unharmed, AtHome;
    forall n | Precious(before, s, n)
      ensures SameEntry(s.files, t.files, n) && !Replaces(s.conns[who], t.conns[who], n)
    {
      PreciousStays(s, t, who, offers, before, n);
    }
    forall i | 0 <= i < |t.conns|
      ensures AtHome(t, i)
    {
      StaysAtHome(s, t, who, i, offers, before);
    }
    OldOnesStay(before, s, t, who);
  }

  lemma StepKeepsUnharmed(h: StreamHash, s: System, a: Action, offers: seq<TransferOffer>, before: Files)
    requires SysOk(h, s) && Serves(s, offers) && Harmless(offers, before) && Unharmed(before, s)
    ensures Unharmed(before, Step(h, s, a)) && !Overwrites(h, before, s, a)
  {
    StepIsOneMove(h, s, a);
    StepKeepsSysOk(h, s, a);
    var t := Step(h, s, a);
    if a.who < |s.conns| {
      OneMovedKeepsCount(s, t, a.who);
      if t.conns[a.who].saved.Some? {
        SavedIsDeliverable(h, t.conns[a.who]);
      }
      hide Step, SysOk, Serves, Harmless, Deliverable, TempName, OneMoved, Unharmed, Precious, Replaces, Overwrites;
      MoveKeepsUnharmed(s, t, a.who, offers, before);
      NothingOverwritten(h, before, s, a);
    }
  }

  lemma NothingOverwritten(h: StreamHash, before: Files, s: System, a: Action)
    requires a.who < |s.conns|
    requires forall n | Precious(before, s, n) ::
      SameEntry(s.files, Step(h, s, a).files, n) && !Replaces(s.conns[a.who], Step(h, s, a).conns[a.who], n)
    ensures !Overwrites(h, before, s, a)
  {
    hide Step, Replaces;
  }

  lemma StaysAtHome(s: System, t: System, who: nat, i: nat, offers: seq<TransferOffer>, before: Files)
    requires OneMoved(s, t, who) && Serves(s, offers) && Harmless(offers, before) && Unharmed(before, s)
    requires t.conns[who].saved.Some? ==> Deliverable(t.conns[who].offer)
    requires i < |t.conns|
    ensures AtHome(t, i)
  {
    hide TempName, Deliverable;
    var a, b := s.conns[i], s.conns[who];
    assert AtHome(s, i) && !Contended(offers, before, who, i);
    if i != who && IsCopying(a) && NewlySaved(b, t.conns[who]) && Temp(a) == Temp(b) {
      TempNameInjective(a.offer.fileName, a.offer.transferId, b.offer.fileName, b.offer.transferId);
    }
  }

  lemma OldOnesStay(before: Files, s: System, t: System, who: nat)
    requires OneMoved(s, t, who) && Unharmed(before, s)
    requires forall n | Precious(before, s, n) :: SameEntry(s.files, t.files, n)
    requires t.conns[who].saved.Some? ==> Deliverable(t.conns[who].offer)
    requires forall i | 0 <= i < |t.conns| :: AtHome(t, i)
    ensures Unharmed(before, t)
  {
    hide TempName, Deliverable, AtHome;
    forall n | n in before
      ensures n in t.files && t.files[n] == before[n]
    {
      assert Precious(before, s, n);
    }
  }

  lemma {:induction false} HarmlessRuns(h: StreamHash, offers: seq<TransferOffer>, before: Files, schedule: seq<Action>)
    requires Offerable(offers) && Harmless(offers, before)
    ensures Unharmed(before, Run(h, Init(h, offers, before), schedule))
  {
    if schedule != [] {
      var most := schedule[..|schedule| - 1];
      HarmlessRuns(h, offers, before, most);
      RunIsOk(h, offers, before, most);
      StepKeepsUnharmed(h, Run(h, Init(h, offers, before), most), schedule[|schedule| - 1], offers, before);
    }
  }

  lemma NoContentionNoOverwriting(h: StreamHash, offers: seq<TransferOffer>, before: Files, schedule: seq<Action>,
                                  a: Action)
    requires Offerable(offers) && Harmless(offers, before)
    ensures !Overwrites(h, before, Run(h, Init(h, offers, before), schedule), a)
  {
    HarmlessRuns(h, offers, before, schedule);
    RunIsOk(h, offers, before, schedule);
    StepKeepsUnharmed(h, Run(h, Init(h, offers, before), schedule), a, offers, before);
  }

  // ---- And if it can be, some schedule does it

  lemma CreateStep(h: StreamHash, s: System, i: nat)
    requires Checked(h, s, i)
    ensures var t := Step(h, s, Action(i, IO_SUCCEEDS));
      && t.conns == s.conns[i := OpenedUpTo(h, s.conns[i].offer, 6)]
      && Replaces(s.conns[i], t.conns[i], Temp(s.conns[i]))
      && t.files == s.files[Temp(s.conns[i]) := []] && At(t, i) == Some(Temp(s.conns[i]))
  {
    OpeningMove(h, s.conns[i].offer, s.files, 5);
    OpeningHandle(h, s.conns[i].offer, OpenedFiles(s.conns[i].offer, s.files, 6), 5);
    hide ConnStep, TempName, NextHandle;
  }

  /** Transfer `j` waits at its existence check while `i` is delivered. */
  lemma WaitAndDeliver(h: StreamHash, s: System, j: nat, i: nat) returns (schedule: seq<Action>)
    requires Startable(h, s, i) && Startable(h, s, j) && i != j && Deliverable(s.conns[i].offer)
    ensures var t := Run(h, s, schedule);
      && Checked(h, t, j) && t.conns[j].offer == s.conns[j].offer
      && DeliveredTo(t, Name(s.conns[i])) && Name(s.conns[i]) in t.files
  {
    hide Run, OpenedUpTo, Deliverable, Valid, Start;
    AtCheck(h, s, j);
    var wait := By(j, OPENING_MOVES[..5]);
    var t := Run(h, s, wait);
    var deliver := Deliver(h, t, i);
    RunConcat(h, s, wait, deliver);
    schedule := wait + deliver;
    assert Name(Run(h, t, deliver).conns[i]) == Name(s.conns[i]);
  }

  /** Then it goes on to the rename, and replaces the file that was delivered. */
  lemma GoOnAndReplace(h: StreamHash, before: Files, s: System, j: nat) returns (schedule: seq<Action>)
    requires Checked(h, s, j) && Deliverable(s.conns[j].offer)
    requires s.conns[j].saved == None && DeliveredTo(s, Name(s.conns[j])) && Name(s.conns[j]) in s.files
    ensures Overwrites(h, before, Run(h, s, schedule), Action(j, IO_SUCCEEDS))
  {
    hide Run, OpenedUpTo, Deliverable, TempName, Checked, RenameReady;
    schedule := ToRename(h, s, j, 0);
    var t := Run(h, s, schedule);
    var i :| 0 <= i < |s.conns| && Name(s.conns[i]) == Name(s.conns[j]) && s.conns[i].saved.Some?;
    assert t.conns[i] == s.conns[i];
    assert DeliveredTo(t, Name(s.conns[j]));
    DestIsNotTemp(Name(s.conns[j]), s.conns[j].offer.transferId);
    assert Precious(before, t, Name(s.conns[j]));
    RenameStep(h, t, j, 0);
  }

  /** A file that another task holds open goes with the rename. */
  lemma HandleFollows(h: StreamHash, s: System, i: nat, j: nat)
    requires i < |s.conns| && i != j && RenameReady(s.conns[i], 0) && Temp(s.conns[i]) in s.files
    requires At(s, j) == Some(Temp(s.conns[i]))
    ensures At(Step(h, s, Action(i, IO_SUCCEEDS)), j) == Some(Name(s.conns[i]))
  {
    DestIsNotTemp(Name(s.conns[i]), s.conns[i].offer.transferId);
    RenameNow(h, s.conns[i], s.files, At(s, i), 0);
    assert Valid(s.conns[i].offer);
    hide ConnStep, RenameReady, TempName;
  }

  /** Transfer `j` creates the temporary file it shares with `i`, which then renames it. */
  lemma CreateAndRename(h: StreamHash, s: System, i: nat, j: nat)
    requires i < |s.conns| && i != j && RenameReady(s.conns[i], 0) && Checked(h, s, j)
    requires Temp(s.conns[i]) == Temp(s.conns[j])
    ensures var schedule := [Action(j, IO_SUCCEEDS)] + [Action(i, IO_SUCCEEDS)];
      var t := Run(h, s, schedule);
      && |t.conns| == |s.conns| && t.conns[j] == OpenedUpTo(h, s.conns[j].offer, 6)
      && DeliveredTo(t, Name(s.conns[i]))
      && Name(s.conns[i]) in t.files && t.files[Name(s.conns[i])] == [] && At(t, j) == Some(Name(s.conns[i]))
  {
    hide Run, Step, OpenedUpTo, TempName, RenameReady;
    var a, b := Action(j, IO_SUCCEEDS), Action(i, IO_SUCCEEDS);
    CreateStep(h, s, j);
    var t := Step(h, s, a);
    assert t.conns[i] == s.conns[i];
    RenameStep(h, t, i, 0);
    HandleFollows(h, t, i, j);
    RunOne(h, s, a);
    RunOne(h, t, b);
    RunConcat(h, s, [a], [b]);
    assert Name(Step(h, t, b).conns[i]) == Name(s.conns[i]);
  }

  /** A task that holds a delivered file open writes to it. */
  lemma WriteToDelivered(h: StreamHash, before: Files, s: System, j: nat, offer: TransferOffer, name: string)
    requires j < |s.conns| && Valid(offer) && s.conns[j] == OpenedUpTo(h, offer, 6)
    requires At(s, j) == Some(name) && name in s.files && s.files[name] == [] && DeliveredTo(s, name)
    ensures Overwrites(h, before, Run(h, s, [Action(j, ReadFile([1]))]), Action(j, FEED))
  {
    OpenedIsFed(h, offer, 1);
    var c, at := s.conns[j], At(s, j);
    SendByte(h, c, s.files, at, 1, 0);
    CopyByte(h, c, s.files, at, 1, 0);
    var (d, f) := ConnStep(h, c, s.files, at, ReadFile([1]));
    RunOne(h, s, Action(j, ReadFile([1])));
    var t := Step(h, s, Action(j, ReadFile([1])));
    hide ConnStep, Fed, OpenedUpTo, NextHandle, Run, WriteAt;
    HandleStays(c, d, f, at);
    assert t.conns[j] == d && t.files == s.files && At(t, j) == at;
    var i :| 0 <= i < |s.conns| && Name(s.conns[i]) == name && s.conns[i].saved.Some?;
    assert t.conns[i].saved.Some? && Name(t.conns[i]) == name;
    assert Precious(before, t, name);
    WriteOne();
  }

  lemma WriteOne()
    ensures WriteAt([], 0, [1]) == [1]
  {
  }

  /** Two transfers share a temporary file, and the one that is left writes into what the other has delivered. */
  lemma ShareAndWrite(h: StreamHash, before: Files, s: System, i: nat, j: nat)
    returns (schedule: seq<Action>, last: Action)
    requires Startable(h, s, i) && Startable(h, s, j) && i != j && Deliverable(s.conns[i].offer)
    requires Temp(s.conns[i]) == Temp(s.conns[j])
    ensures Overwrites(h, before, Run(h, s, schedule), last)
  {
    hide Run, Step, OpenedUpTo, TempName, RenameReady, Deliverable, Start, Valid, Overwrites;
    AtCheck(h, s, j);
    var wait := By(j, OPENING_MOVES[..5]);
    var t := Run(h, s, wait);
    AtCheck(h, t, i);
    var check := By(i, OPENING_MOVES[..5]);
    var u := Run(h, t, check);
    var copy := ToRename(h, u, i, 0);
    var v := Run(h, u, copy);
    CreateAndRename(h, v, i, j);
    var share := [Action(j, IO_SUCCEEDS)] + [Action(i, IO_SUCCEEDS)];
    var w := Run(h, v, share);
    WriteToDelivered(h, before, w, j, s.conns[j].offer, Name(s.conns[i]));
    RunConcat(h, s, wait, check);
    RunConcat(h, s, wait + check, copy);
    RunConcat(h, s, wait + check + copy, share);
    RunConcat(h, s, wait + check + copy + share, [Action(j, ReadFile([1]))]);
    schedule, last := wait + check + copy + share + [Action(j, ReadFile([1]))], Action(j, FEED);
  }

  lemma ContentionOverwrites(h: StreamHash, offers: seq<TransferOffer>, before: Files, i: nat, j: nat)
    requires Offerable(offers) && Contended(offers, before, i, j)
    ensures CanOverwrite(h, offers, before)
  {
    var s := Init(h, offers, before);
    assert offers[i] in offers && offers[j] in offers;
    hide Run, Step, Valid, TempName, Deliverable, Overwrites;
    if Deliverable(offers[j]) {
      var first := WaitAndDeliver(h, s, j, i);
      var second := GoOnAndReplace(h, before, Run(h, s, first), j);
      RunConcat(h, s, first, second);
    } else {
      var schedule, last := ShareAndWrite(h, before, s, i, j);
    }
  }

  /** A transfer past its existence check creates its temporary file over somebody's file. */
  lemma CreateOver(h: StreamHash, before: Files, s: System, i: nat)
    requires Checked(h, s, i) && Precious(before, s, Temp(s.conns[i]))
    ensures Overwrites(h, before, s, Action(i, IO_SUCCEEDS))
  {
    CreateStep(h, s, i);
    hide Step, OpenedUpTo, Valid, TempName, Precious, Replaces;
  }

  lemma TakenTempOverwrites(h: StreamHash, offers: seq<TransferOffer>, before: Files, i: nat)
    requires Offerable(offers) && TempTaken(offers, before, i)
    ensures CanOverwrite(h, offers, before)
  {
    var s := Init(h, offers, before);
    var temp := TempName(offers[i].fileName, offers[i].transferId);
    assert offers[i] in offers;
    DestIsNotTemp(offers[i].fileName, offers[i].transferId);
    hide Run, Step, OpenedUpTo, Deliverable, TempName, Valid, Overwrites;
    if temp in before {
      AtCheck(h, s, i);
      CreateOver(h, before, Run(h, s, By(i, OPENING_MOVES[..5])), i);
    } else {
      var j :| 0 <= j < |offers| && offers[j].fileName == temp && Deliverable(offers[j]);
      assert offers[j] in offers;
      var schedule := WaitAndDeliver(h, s, i, j);
      CreateOver(h, before, Run(h, s, schedule), i);
    }
  }

  /** The exact condition under which no schedule can harm a file that is already there, for any
      transfers and any directory: no transfer that can be delivered shares its free name with one that
      can too or that has the same id, and no transfer of a free name has a temporary name that is
      taken or can be delivered. */
  lemma OverwritesExactly(h: StreamHash, offers: seq<TransferOffer>, before: Files)
    requires Offerable(offers)
    ensures CanOverwrite(h, offers, before) <==>
      (exists i, j :: Contended(offers, before, i, j)) || (exists i :: TempTaken(offers, before, i))
  {
    if i: nat, j: nat :| Contended(offers, before, i, j) {
      ContentionOverwrites(h, offers, before, i, j);
    } else if i: nat :| TempTaken(offers, before, i) {
      TakenTempOverwrites(h, offers, before, i);
    } else {
      forall schedule, a
        ensures !Overwrites(h, before, Run(h, Init(h, offers, before), schedule), a)
      {
        NoContentionNoOverwriting(h, offers, before, schedule, a);
      }
    }
  }
}
