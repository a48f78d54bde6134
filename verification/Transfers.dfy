/**
  Any number of transfers into one receiver directory, interleaved move by move. The node serves
  every connection on its own, and they share nothing but the directory.
*/
module Transfers {
  import opened Wrappers
  import opened Bytes
  import opened Protocol
  import opened Offers
  import opened Decisions
  import opened Hashing
  import opened Receiving
  import opened Conversation
  import opened Sending
  import opened Connections

  /** `open` says where the file is by now that a task has created and holds open: another task can
      rename it or remove it. */
  datatype System = System(conns: seq<Conn>, files: Files, open: map<nat, string>)

  datatype Action = Action(who: nat, move: Move)

  function Init(h: StreamHash, offers: seq<TransferOffer>, files: Files): System {
    System(seq(|offers|, i requires 0 <= i < |offers| => Start(h, offers[i])), files, map[])
  }

  function Name(c: Conn): string {
    c.offer.fileName
  }

  function Temp(c: Conn): string {
    TempName(c.offer.fileName, c.offer.transferId)
  }

  predicate NewlySaved(c: Conn, d: Conn) {
    c.saved == None && d.saved.Some?
  }

  predicate OpensFile(c: Conn, d: Conn) {
    c.rcv.Running? && c.rcv.task.Creating? && d.rcv.Running? && d.rcv.task.Copying?
  }

  /** Where an open file is after a move that took `c` to `d` and left the directory `files`. */
  function Follow(at: Handle, c: Conn, d: Conn, files: Files): Handle {
    if at.None? then None
    else if NewlySaved(c, d) && at.value == Name(c) then None
    else
      var name := if NewlySaved(c, d) && at.value == Temp(c) then Name(c) else at.value;
      if name in files then Some(name) else None
  }

  /** The mover opens a file by creating it; a file that exists is truncated and stays the same file. */
  function NextHandle(at: Handle, own: bool, c: Conn, d: Conn, files: Files): Handle {
    if own && OpensFile(c, d) then Some(Temp(c)) else Follow(at, c, d, files)
  }

  function Lookup(open: map<nat, string>, i: nat): Handle {
    if i in open then Some(open[i]) else None
  }

  function At(s: System, i: nat): Handle {
    Lookup(s.open, i)
  }

  function Reopened(open: map<nat, string>, who: nat, c: Conn, d: Conn, files: Files): (next: map<nat, string>)
    ensures forall i: nat :: Lookup(next, i) == NextHandle(Lookup(open, i), i == who, c, d, files)
  {
    map i | i in open.Keys + {who} && NextHandle(Lookup(open, i), i == who, c, d, files).Some? ::
      NextHandle(Lookup(open, i), i == who, c, d, files).value
  }

  function Step(h: StreamHash, s: System, a: Action): System {
    if a.who < |s.conns| && Valid(s.conns[a.who].offer) then
      var c := s.conns[a.who];
      var (d, files) := ConnStep(h, c, s.files, At(s, a.who), a.move);
      System(s.conns[a.who := d], files, Reopened(s.open, a.who, c, d, files))
    else s
  }

  /** The system after a whole schedule; every schedule is allowed. */
  function Run(h: StreamHash, s: System, schedule: seq<Action>): (t: System)
    ensures |t.conns| == |s.conns|
  {
    if schedule == [] then s
    else Step(h, Run(h, s, schedule[..|schedule| - 1]), schedule[|schedule| - 1])
  }

  lemma {:induction false} RunConcat(h: StreamHash, s: System, a: seq<Action>, b: seq<Action>)
    ensures Run(h, s, a + b) == Run(h, Run(h, s, a), b)
  {
    if b == [] {
      assert a + b == a;
    } else {
      assert (a + b)[..|a + b| - 1] == a + b[..|b| - 1];
      RunConcat(h, s, a, b[..|b| - 1]);
    }
  }

  /** Between the existence check and the end of `receive_file`. */
  predicate Active(c: Conn) {
    c.rcv.Running? && (c.rcv.task.Creating? || c.rcv.task.Copying? || c.rcv.task.Removing? || c.rcv.task.Renaming?)
  }

  // ---- What one move does to the directory

  predicate SameEntry(f: Files, g: Files, name: string) {
    (name in f <==> name in g) && (name in f ==> f[name] == g[name])
  }

  /** While a transfer is being copied or about to be renamed, its temporary file holds what was
      copied, and that is the file it holds open. */
  predicate FileFits(c: Conn, files: Files, at: Handle) {
    && (c.rcv.Running? && (c.rcv.task.Copying? || c.rcv.task.Renaming?) ==>
          Temp(c) in files && files[Temp(c)] == c.rcv.task.c.copied)
    && (c.rcv.Running? && c.rcv.task.Copying? ==> at == Some(Temp(c)))
  }

  predicate Fits(s: System, i: nat)
    requires i < |s.conns|
  {
    FileFits(s.conns[i], s.files, At(s, i))
  }

  /** Nothing more will happen to the directory. */
  predicate Over(c: Conn) {
    c.rcv.Closed? || (c.rcv.Running? && c.rcv.task.Returned?)
  }

  predicate IsCopying(c: Conn) {
    c.rcv.Running? && c.rcv.task.Copying?
  }

  /** A task writes to what it holds open, and to no other file. */
  predicate WritesTo(c: Conn, at: Handle, name: string) {
    IsCopying(c) && at == Some(name)
  }

  ghost predicate MoveOnDirectory(c: Conn, d: Conn, f: Files, g: Files, at: Handle) {
    && d.offer == c.offer
    && (!Active(c) ==> g == f)
    && (forall n | n != Temp(c) && !(NewlySaved(c, d) && n == Name(c)) && !WritesTo(c, at, n) :: SameEntry(f, g, n))
    && (forall n | WritesTo(c, at, n) :: n in f <==> n in g)
    && (c.saved.Some? ==> d.saved == c.saved)
    && (FileFits(c, f, at) ==> FileFits(d, g, NextHandle(at, true, c, d, g)))
    && (NewlySaved(c, d) ==> Active(c) && !Active(d) && c.rcv.task.Renaming? && Name(c) in g
                             && (FileFits(c, f, at) ==> g[Name(c)] == d.saved.value))
    && (Active(d) && !Active(c) ==> Name(c) !in f)
    && (IsCopying(d) ==> IsCopying(c) || OpensFile(c, d))
    && (Over(c) ==> Over(d)) && (Temp(c) in f && Temp(c) !in g ==> Over(d))
  }

  /** The receiver has neither saved anything nor begun to. */
  predicate Quiet(c: Conn, d: Conn) {
    && d.offer == c.offer && d.saved == c.saved
    && (d.rcv == c.rcv || (!Over(c) && d.rcv.Deciding?) || d.rcv.Closed?
        || (!Over(c) && d.rcv.Running? && d.rcv.task.Opening?))
  }

  lemma QuietOnDirectory(c: Conn, d: Conn, files: Files, at: Handle)
    requires Quiet(c, d)
    ensures MoveOnDirectory(c, d, files, files, at)
  {
    hide TempName;
  }

  lemma ReceiverMoveIsQuiet(c: Conn, m: Move)
    ensures Quiet(c, ReceiverMove(c, m))
  {
    hide Wire, TakeOffer, Put, Take, Close, Drop;
  }

  /** Only the receiving task touches the directory. */
  lemma OthersStayOff(h: StreamHash, c: Conn, files: Files, at: Handle, m: Move)
    requires ConnOk(h, c) && !m.Work?
    ensures var (d, g) := ConnStep(h, c, files, at, m); MoveOnDirectory(c, d, files, g, at)
  {
    OkIsValid(h, c);
    ReceiverMoveIsQuiet(c, m);
    SenderKeepsToItself(h, c, m);
    hide ConnOk, ReceiverMove, SenderMove, MoveOnDirectory, Cut;
    QuietOnDirectory(c, ConnStep(h, c, files, at, m).0, files, at);
  }

  lemma WorkOnDirectory(h: StreamHash, c: Conn, files: Files, at: Handle, a: Await)
    requires ConnOk(h, c)
    ensures var (d, g) := WorkMove(h, c, files, at, a); MoveOnDirectory(c, d, files, g, at)
  {
    SavedInTime(h, c);
    DestIsNotTemp(Name(c), c.offer.transferId);
    if c.rcv.Running? {
      RunningFits(h, c);
      if c.rcv.task.Copying? {
        hide ConnOk, CopyStep, CopyOk, Take, OfferWords;
        CopyingOnDirectory(h, c, files, at, a);
      } else {
        FilingOnDirectory(h, c, files, at, a);
      }
    }
  }

  lemma WriteThroughTouches(files: Files, at: Handle, offset: nat, data: seq<byte>)
    ensures var g := WriteThrough(files, at, offset, data);
      (forall n | Some(n) != at :: SameEntry(files, g, n)) && (forall n :: n in files <==> n in g)
  {
    hide WriteAt;
  }

  lemma CopyingOnDirectory(h: StreamHash, c: Conn, files: Files, at: Handle, a: Await)
    requires c.rcv.Running? && c.rcv.task.Copying? && c.rcv.offer == c.offer && c.rcv.task.dest == Name(c)
      && c.saved == None
    requires Name(c) != Temp(c)
    ensures var (d, g) := WorkMove(h, c, files, at, a); MoveOnDirectory(c, d, files, g, at)
  {
    hide CopyStep, WriteAt, TempName, Take, WriteThrough;
    var event := EventFor(c.rcv.task, c.fwd, a);
    if event.Some? {
      CopyStepCopies(h, c.offer, c.rcv.task.dest, c.rcv.task.c, event.value);
      WriteThroughTouches(files, at, |c.rcv.task.c.copied|, Saved(event.value));
      if FileFits(c, files, at) {
        WritingThroughAppends(files, Temp(c), |c.rcv.task.c.copied|, Saved(event.value));
        assert files[Temp(c)] + [] == files[Temp(c)];
      }
    }
  }

  lemma FilingOnDirectory(h: StreamHash, c: Conn, files: Files, at: Handle, a: Await)
    requires Valid(c.offer) && c.rcv.Running? && !c.rcv.task.Copying? && c.rcv.offer == c.offer
    requires TaskFits(h, c, c.rcv.task) && Name(c) != Temp(c)
    ensures var (d, g) := WorkMove(h, c, files, at, a); MoveOnDirectory(c, d, files, g, at)
  {
    hide Valid, CopyOk, Whole, OfferWords, TempName, WorkMove, MoveOnDirectory;
    if c.rcv.task.Renaming? {
      RenamingOnDirectory(h, c, files, at, a);
    } else if c.rcv.task.Removing? {
      RemovingOnDirectory(h, c, files, at, a);
    } else if c.rcv.task.Creating? {
      CreatingOnDirectory(h, c, files, at, a);
    } else if c.rcv.task.Returned? {
      ReturnedOnDirectory(h, c, files, at, a);
    } else {
      OpeningOnDirectory(h, c, files, at, a);
    }
  }

  lemma OpeningOnDirectory(h: StreamHash, c: Conn, files: Files, at: Handle, a: Await)
    requires Valid(c.offer) && c.rcv.Running? && c.rcv.offer == c.offer && c.rcv.task.Opening? && c.saved == None
    ensures var (d, g) := WorkMove(h, c, files, at, a); MoveOnDirectory(c, d, files, g, at)
  {
    SafeFilenameOfValid(c.offer.fileName);
    hide SafeFilename, Valid, TempName, Take, StartCopy;
  }

  lemma ReturnedOnDirectory(h: StreamHash, c: Conn, files: Files, at: Handle, a: Await)
    requires c.rcv.Running? && c.rcv.task.Returned?
    ensures var (d, g) := WorkMove(h, c, files, at, a); MoveOnDirectory(c, d, files, g, at)
  {
    hide TempName, Take, TaskStep;
  }

  lemma CreatingOnDirectory(h: StreamHash, c: Conn, files: Files, at: Handle, a: Await)
    requires Valid(c.offer) && c.rcv.Running? && c.rcv.task.Creating? && c.rcv.offer == c.offer
    requires c.rcv.task.dest == Name(c) && c.saved == None && Name(c) != Temp(c)
    ensures var (d, g) := WorkMove(h, c, files, at, a); MoveOnDirectory(c, d, files, g, at)
  {
    hide Valid, TempName, Take;
  }

  lemma RemovingOnDirectory(h: StreamHash, c: Conn, files: Files, at: Handle, a: Await)
    requires Valid(c.offer) && c.rcv.Running? && c.rcv.task.Removing? && c.rcv.offer == c.offer
    requires c.rcv.task.dest == Name(c) && c.saved == None && Name(c) != Temp(c)
    ensures var (d, g) := WorkMove(h, c, files, at, a); MoveOnDirectory(c, d, files, g, at)
  {
    hide Valid, TempName;
  }

  lemma RenamingOnDirectory(h: StreamHash, c: Conn, files: Files, at: Handle, a: Await)
    requires Valid(c.offer) && c.rcv.Running? && c.rcv.task.Renaming? && c.rcv.offer == c.offer
    requires c.rcv.task.dest == Name(c) && c.saved == None && Name(c) != Temp(c)
    ensures var (d, g) := WorkMove(h, c, files, at, a); MoveOnDirectory(c, d, files, g, at)
  {
    hide Valid, TempName;
  }

  lemma MoveKeepsToItsFiles(h: StreamHash, c: Conn, files: Files, at: Handle, m: Move)
    requires ConnOk(h, c)
    ensures var (d, g) := ConnStep(h, c, files, at, m); MoveOnDirectory(c, d, files, g, at)
  {
    OkIsValid(h, c);
    hide ConnOk, MoveOnDirectory;
    if m.Work? {
      WorkOnDirectory(h, c, files, at, m.await);
    } else {
      OthersStayOff(h, c, files, at, m);
    }
  }

  // ---- The system invariant

  ghost predicate SysOk(h: StreamHash, s: System) {
    forall i | 0 <= i < |s.conns| :: ConnOk(h, s.conns[i])
  }

  lemma StepKeepsSysOk(h: StreamHash, s: System, a: Action)
    requires SysOk(h, s)
    ensures SysOk(h, Step(h, s, a))
  {
    if a.who < |s.conns| {
      OkIsValid(h, s.conns[a.who]);
      ConnStepKeepsOk(h, s.conns[a.who], s.files, At(s, a.who), a.move);
      hide ConnOk, ConnStep;
    }
  }

  predicate Offerable(offers: seq<TransferOffer>) {
    forall o | o in offers :: Valid(o)
  }

  lemma {:induction false} RunIsOk(h: StreamHash, offers: seq<TransferOffer>, files: Files, schedule: seq<Action>)
    requires Offerable(offers)
    ensures var s := Run(h, Init(h, offers, files), schedule);
      SysOk(h, s) && |s.conns| == |offers| && forall i | 0 <= i < |offers| :: s.conns[i].offer == offers[i]
  {
    if schedule == [] {
      forall i | 0 <= i < |offers|
        ensures ConnOk(h, Init(h, offers, files).conns[i])
      {
        assert offers[i] in offers;
        StartIsOk(h, offers[i]);
      }
    } else {
      var most, last := schedule[..|schedule| - 1], schedule[|schedule| - 1];
      RunIsOk(h, offers, files, most);
      var s := Run(h, Init(h, offers, files), most);
      StepKeepsSysOk(h, s, last);
      if last.who < |s.conns| {
        MoveKeepsToItsFiles(h, s.conns[last.who], s.files, At(s, last.who), last.move);
      }
      hide ConnOk, ConnStep;
    }
  }

  // ---- Files never mix

  /** No offered name is any transfer's temporary name; for instance, none ends in ".tailsfer.part". */
  predicate NamesAreNotTemps(offers: seq<TransferOffer>) {
    forall i, j | 0 <= i < |offers| && 0 <= j < |offers| ::
      offers[i].fileName != TempName(offers[j].fileName, offers[j].transferId)
  }

  lemma NoPartSuffixNoTemp(offers: seq<TransferOffer>)
    requires forall o | o in offers ::
      |o.fileName| < |PART_SUFFIX| || o.fileName[|o.fileName| - |PART_SUFFIX|..] != PART_SUFFIX
    ensures NamesAreNotTemps(offers)
  {
    forall i, j | 0 <= i < |offers| && 0 <= j < |offers|
      ensures offers[i].fileName != TempName(offers[j].fileName, offers[j].transferId)
    {
      assert offers[i] in offers;
      TempNameHasSuffix(offers[j].fileName, offers[j].transferId);
    }
  }

  /** Transfers that are active together differ in file name or transfer id. */
  predicate PairsApart(s: System) {
    forall i, j | 0 <= i < j < |s.conns| && Active(s.conns[i]) && Active(s.conns[j]) ::
      (Name(s.conns[i]), s.conns[i].offer.transferId) != (Name(s.conns[j]), s.conns[j].offer.transferId)
  }

  /** Transfers that are active together differ in file name. */
  predicate NamesApart(s: System) {
    forall i, j | 0 <= i < j < |s.conns| && Active(s.conns[i]) && Active(s.conns[j]) ::
      Name(s.conns[i]) != Name(s.conns[j])
  }

  ghost predicate PairsApartThroughout(h: StreamHash, s: System, schedule: seq<Action>) {
    forall k | 0 <= k < |schedule| :: PairsApart(Run(h, s, schedule[..k]))
  }

  ghost predicate NamesApartThroughout(h: StreamHash, s: System, schedule: seq<Action>) {
    forall k | 0 <= k < |schedule| :: NamesApart(Run(h, s, schedule[..k]))
  }

  predicate IsTemp(s: System, name: string) {
    exists i :: 0 <= i < |s.conns| && name == Temp(s.conns[i])
  }

  /** Some transfer produced exactly this file. */
  predicate IsProduct(s: System, name: string) {
    exists i :: 0 <= i < |s.conns| && Name(s.conns[i]) == name && name in s.files
      && s.conns[i].saved == Some(s.files[name])
  }

  /** Where everything in the directory comes from: it was there before, or it is some transfer's
      temporary file, or one transfer produced it, whole. */
  ghost predicate Accounted(before: Files, s: System) {
    && (forall i | 0 <= i < |s.conns| :: Fits(s, i))
    && (forall n | n in s.files :: IsTemp(s, n) || (n in before && s.files[n] == before[n]) || IsProduct(s, n))
    && (forall n | n in before :: IsTemp(s, n) || n in s.files)
  }

  lemma NamesOfConns(s: System, offers: seq<TransferOffer>)
    requires |s.conns| == |offers| && forall i | 0 <= i < |offers| :: s.conns[i].offer == offers[i]
    requires NamesAreNotTemps(offers)
    ensures NoNameIsTemp(s)
  {
  }

  lemma TempsApart(s: System, i: nat, j: nat)
    requires PairsApart(s) && i < |s.conns| && j < |s.conns| && i != j
    requires Active(s.conns[i]) && Active(s.conns[j])
    ensures Temp(s.conns[i]) != Temp(s.conns[j])
  {
    var a, b := s.conns[i].offer, s.conns[j].offer;
    if Temp(s.conns[i]) == Temp(s.conns[j]) {
      TempNameInjective(a.fileName, a.transferId, b.fileName, b.transferId);
    }
  }

  /** One connection has made one move. */
  ghost predicate OneMoved(s: System, t: System, who: nat) {
    && who < |s.conns| == |t.conns|
    && t.conns == s.conns[who := t.conns[who]]
    && MoveOnDirectory(s.conns[who], t.conns[who], s.files, t.files, At(s, who))
    && forall i: nat :: At(t, i) == NextHandle(At(s, i), i == who, s.conns[who], t.conns[who], t.files)
  }

  lemma StepIsOneMove(h: StreamHash, s: System, a: Action)
    requires SysOk(h, s)
    ensures a.who < |s.conns| ==> OneMoved(s, Step(h, s, a), a.who)
    ensures a.who >= |s.conns| ==> Step(h, s, a) == s
  {
    if a.who < |s.conns| {
      OkIsValid(h, s.conns[a.who]);
      MoveKeepsToItsFiles(h, s.conns[a.who], s.files, At(s, a.who), a.move);
      hide ConnOk, ConnStep, MoveOnDirectory;
    }
  }

  lemma IsTempStays(s: System, t: System, who: nat, n: string)
    requires OneMoved(s, t, who)
    ensures IsTemp(s, n) <==> IsTemp(t, n)
  {
    if IsTemp(s, n) {
      var i :| 0 <= i < |s.conns| && n == Temp(s.conns[i]);
      assert n == Temp(t.conns[i]);
    }
    if IsTemp(t, n) {
      var i :| 0 <= i < |t.conns| && n == Temp(t.conns[i]);
      assert n == Temp(s.conns[i]);
    }
  }

  /** A task that holds its own temporary file open touches that file and, at the rename, its file
      name, and nothing else. */
  lemma ElsewhereStays(s: System, t: System, who: nat, n: string)
    requires OneMoved(s, t, who) && Fits(s, who) && n != Temp(s.conns[who])
    requires n == Name(s.conns[who]) ==> !NewlySaved(s.conns[who], t.conns[who])
    ensures SameEntry(s.files, t.files, n)
  {
    hide TempName;
  }

  predicate NoNameIsTemp(s: System) {
    forall i, j | 0 <= i < |s.conns| && 0 <= j < |s.conns| :: Name(s.conns[i]) != Temp(s.conns[j])
  }

  lemma TempFileStaysFit(s: System, t: System, who: nat, i: nat)
    requires OneMoved(s, t, who) && PairsApart(s) && NoNameIsTemp(s) && i < |s.conns|
    requires Fits(s, i) && Fits(s, who)
    ensures Fits(t, i)
  {
    if i != who && Active(s.conns[who]) && Active(s.conns[i]) {
      TempsApart(s, i, who);
      hide PairsApart;
      assert SameEntry(s.files, t.files, Temp(s.conns[i]));
    }
  }

  lemma EntryStaysAccounted(before: Files, s: System, t: System, who: nat, n: string)
    requires OneMoved(s, t, who) && Accounted(before, s) && n in t.files
    ensures IsTemp(t, n) || (n in before && t.files[n] == before[n]) || IsProduct(t, n)
  {
    var c, d := s.conns[who], t.conns[who];
    IsTempStays(s, t, who, n);
    hide IsTemp;
    if n == Name(c) && NewlySaved(c, d) {
      assert Fits(s, who);
      assert Name(t.conns[who]) == n && t.conns[who].saved == Some(t.files[n]);
    } else if n == Temp(c) {
      OwnTempIsTemp(s, who);
    } else {
      assert Fits(s, who);
      assert !WritesTo(c, At(s, who), n);
      assert SameEntry(s.files, t.files, n);
      if IsProduct(s, n) {
        var i :| 0 <= i < |s.conns| && Name(s.conns[i]) == n && s.conns[i].saved == Some(s.files[n]);
        assert Name(t.conns[i]) == n && t.conns[i].saved == Some(t.files[n]);
      }
    }
  }

  lemma OwnTempIsTemp(s: System, who: nat)
    requires who < |s.conns|
    ensures IsTemp(s, Temp(s.conns[who]))
  {
  }

  lemma OldEntryStays(before: Files, s: System, t: System, who: nat, n: string)
    requires OneMoved(s, t, who) && Accounted(before, s) && n in before
    ensures IsTemp(t, n) || n in t.files
  {
    IsTempStays(s, t, who, n);
    OwnTempIsTemp(s, who);
    hide IsTemp;
    assert Fits(s, who);
    if !IsTemp(s, n) && n != Name(s.conns[who]) {
      ElsewhereStays(s, t, who, n);
    }
  }

  lemma MoveKeepsAccounted(before: Files, s: System, t: System, who: nat)
    requires OneMoved(s, t, who) && Accounted(before, s) && PairsApart(s) && NoNameIsTemp(s)
    ensures Accounted(before, t)
  {
    OneMovedKeepsCount(s, t, who);
    assert forall i | 0 <= i < |s.conns| :: Fits(s, i);
    hide IsTemp, IsProduct, Fits, OneMoved, PairsApart, NoNameIsTemp;
    forall i | 0 <= i < |t.conns|
      ensures Fits(t, i)
    {
      TempFileStaysFit(s, t, who, i);
    }
    forall n | n in t.files
      ensures IsTemp(t, n) || (n in before && t.files[n] == before[n]) || IsProduct(t, n)
    {
      EntryStaysAccounted(before, s, t, who, n);
    }
    forall n | n in before
      ensures IsTemp(t, n) || n in t.files
    {
      OldEntryStays(before, s, t, who, n);
    }
  }

  lemma StepKeepsAccounted(h: StreamHash, before: Files, s: System, a: Action)
    requires SysOk(h, s) && Accounted(before, s) && PairsApart(s) && NoNameIsTemp(s)
    ensures Accounted(before, Step(h, s, a))
  {
    StepIsOneMove(h, s, a);
    hide Step, SysOk, Accounted, OneMoved, PairsApart, NoNameIsTemp;
    if a.who < |s.conns| {
      MoveKeepsAccounted(before, s, Step(h, s, a), a.who);
    }
  }

  lemma OneMovedKeepsCount(s: System, t: System, who: nat)
    requires OneMoved(s, t, who)
    ensures |t.conns| == |s.conns|
  {
  }

  lemma {:induction false} RunIsAccounted(h: StreamHash, offers: seq<TransferOffer>, before: Files,
                                          schedule: seq<Action>)
    requires Offerable(offers) && NamesAreNotTemps(offers)
    requires PairsApartThroughout(h, Init(h, offers, before), schedule)
    ensures Accounted(before, Run(h, Init(h, offers, before), schedule))
  {
    if schedule != [] {
      var most := schedule[..|schedule| - 1];
      var s := Run(h, Init(h, offers, before), most);
      forall k | 0 <= k < |most|
        ensures PairsApart(Run(h, Init(h, offers, before), most[..k]))
      {
        assert most[..k] == schedule[..k];
      }
      RunIsAccounted(h, offers, before, most);
      RunIsOk(h, offers, before, most);
      NamesOfConns(s, offers);
      StepKeepsAccounted(h, before, s, schedule[|schedule| - 1]);
    }
  }

  /** The file is the whole content of transfer `i`. */
  predicate IsWholeTransfer(s: System, name: string, i: nat) {
    && i < |s.conns| && Name(s.conns[i]) == name && name in s.files
    && |s.files[name]| == s.conns[i].offer.fileSize
    && (!s.conns[i].tampered ==> s.files[name] == s.conns[i].up.data)
  }

  lemma ProductIsWhole(h: StreamHash, s: System, name: string)
    requires SysOk(h, s)
    ensures IsProduct(s, name) ==> exists i :: IsWholeTransfer(s, name, i)
  {
    if IsProduct(s, name) {
      var i :| 0 <= i < |s.conns| && Name(s.conns[i]) == name && s.conns[i].saved == Some(s.files[name]);
      SavedIsWhole(h, s.conns[i]);
      hide ConnOk, Deliverable;
      assert IsWholeTransfer(s, name, i);
    }
  }

  /** Transfers into one directory do not interfere: as long as transfers active together differ in
      file name or id, every file in the directory that is not a temporary one either was there
      before and is unchanged, or is the complete content of one accepted transfer, of the length
      offered and, unless its bytes were replaced on the way, exactly what its sender read. It is
      never a mixture, never a part. */
  lemma NeverAMixture(h: StreamHash, offers: seq<TransferOffer>, before: Files, schedule: seq<Action>, name: string)
    requires Offerable(offers) && NamesAreNotTemps(offers)
    requires PairsApartThroughout(h, Init(h, offers, before), schedule)
    ensures var s := Run(h, Init(h, offers, before), schedule);
      name in s.files && !IsTemp(s, name) ==>
        || (name in before && s.files[name] == before[name])
        || exists i: nat :: IsWholeTransfer(s, name, i) && s.conns[i].offer == offers[i]
  {
    RunIsOk(h, offers, before, schedule);
    RunIsAccounted(h, offers, before, schedule);
    var s := Run(h, Init(h, offers, before), schedule);
    hide Run, IsTemp, IsProduct, SysOk, FileFits, PairsApartThroughout, Offerable;
    if name in s.files && IsProduct(s, name) {
      ProductIsWhole(h, s, name);
    }
  }

  lemma SavedIsWhole(h: StreamHash, c: Conn)
    requires ConnOk(h, c) && c.saved.Some?
    ensures Whole(c, c.saved.value)
  {
    SavedInTime(h, c);
    if c.rcv.Running? {
      RunningFits(h, c);
    }
  }

  lemma SavedIsDeliverable(h: StreamHash, c: Conn)
    requires ConnOk(h, c) && c.saved.Some?
    ensures Deliverable(c.offer)
  {
    SavedIsWhole(h, c);
    hide ConnOk;
  }

  // ---- Nothing is overwritten

  /** Nothing that was in the directory or has been produced is ever touched again. */
  ghost predicate Preserved(before: Files, s: System) {
    && (forall i | 0 <= i < |s.conns| && Active(s.conns[i]) :: Name(s.conns[i]) !in s.files)
    && (forall i | 0 <= i < |s.conns| && s.conns[i].saved.Some? ::
          Name(s.conns[i]) in s.files && s.files[Name(s.conns[i])] == s.conns[i].saved.value)
    && (forall n | n in before && !IsTemp(s, n) :: n in s.files && s.files[n] == before[n])
  }

  lemma ActiveNameStaysFree(s: System, t: System, who: nat, i: nat)
    requires OneMoved(s, t, who) && NamesApart(s) && NoNameIsTemp(s) && i < |t.conns| && Active(t.conns[i])
    requires forall j | 0 <= j < |s.conns| && Active(s.conns[j]) :: Name(s.conns[j]) !in s.files
    ensures Name(t.conns[i]) !in t.files
  {
    var c := s.conns[who];
    assert Name(s.conns[i]) == Name(t.conns[i]);
    if Active(c) && i != who {
      assert Name(s.conns[i]) != Name(c);
      assert SameEntry(s.files, t.files, Name(s.conns[i]));
    }
  }

  lemma SavedFileStays(before: Files, s: System, t: System, who: nat, i: nat)
    requires OneMoved(s, t, who) && Preserved(before, s) && NoNameIsTemp(s) && i < |t.conns| && t.conns[i].saved.Some?
    requires Fits(s, who)
    ensures Name(t.conns[i]) in t.files && t.files[Name(t.conns[i])] == t.conns[i].saved.value
  {
    if i != who || !NewlySaved(s.conns[who], t.conns[who]) {
      assert Name(s.conns[i]) in s.files;
      assert Name(s.conns[i]) != Temp(s.conns[who]);
      assert SameEntry(s.files, t.files, Name(s.conns[i]));
    }
  }

  lemma OldFileStays(before: Files, s: System, t: System, who: nat, n: string)
    requires OneMoved(s, t, who) && Preserved(before, s) && Fits(s, who) && n in before && !IsTemp(t, n)
    ensures n in t.files && t.files[n] == before[n]
  {
    IsTempStays(s, t, who, n);
    OwnTempIsTemp(s, who);
    hide IsTemp;
    ElsewhereStays(s, t, who, n);
  }

  lemma MoveKeepsPreserved(before: Files, s: System, t: System, who: nat)
    requires OneMoved(s, t, who) && Preserved(before, s) && Fits(s, who) && NamesApart(s) && NoNameIsTemp(s)
    ensures Preserved(before, t)
  {
    OneMovedKeepsCount(s, t, who);
    hide IsTemp, Fits, OneMoved, NamesApart, NoNameIsTemp;
    forall i | 0 <= i < |t.conns| && Active(t.conns[i])
      ensures Name(t.conns[i]) !in t.files
    {
      ActiveNameStaysFree(s, t, who, i);
    }
    forall i | 0 <= i < |t.conns| && t.conns[i].saved.Some?
      ensures Name(t.conns[i]) in t.files && t.files[Name(t.conns[i])] == t.conns[i].saved.value
    {
      SavedFileStays(before, s, t, who, i);
    }
    forall n | n in before && !IsTemp(t, n)
      ensures n in t.files && t.files[n] == before[n]
    {
      OldFileStays(before, s, t, who, n);
    }
  }

  lemma StepKeepsPreserved(h: StreamHash, before: Files, s: System, a: Action)
    requires SysOk(h, s) && Accounted(before, s) && Preserved(before, s) && NamesApart(s) && NoNameIsTemp(s)
    ensures Preserved(before, Step(h, s, a))
  {
    StepIsOneMove(h, s, a);
    hide Step, SysOk, Preserved, OneMoved, NamesApart, NoNameIsTemp, IsTemp, IsProduct, Fits;
    if a.who < |s.conns| {
      assert Fits(s, a.who);
      MoveKeepsPreserved(before, s, Step(h, s, a), a.who);
    }
  }

  lemma NamesApartImpliesPairsApart(s: System)
    requires NamesApart(s)
    ensures PairsApart(s)
  {
  }

  lemma {:induction false} RunIsPreserved(h: StreamHash, offers: seq<TransferOffer>, before: Files,
                                          schedule: seq<Action>)
    requires Offerable(offers) && NamesAreNotTemps(offers)
    requires NamesApartThroughout(h, Init(h, offers, before), schedule)
    ensures Preserved(before, Run(h, Init(h, offers, before), schedule))
    ensures PairsApartThroughout(h, Init(h, offers, before), schedule)
  {
    if schedule != [] {
      var most := schedule[..|schedule| - 1];
      var init := Init(h, offers, before);
      var s := Run(h, init, most);
      forall k | 0 <= k < |schedule|
        ensures NamesApart(Run(h, init, schedule[..k])) && PairsApart(Run(h, init, schedule[..k]))
        ensures k < |most| ==> most[..k] == schedule[..k]
      {
        NamesApartImpliesPairsApart(Run(h, init, schedule[..k]));
      }
      assert NamesApartThroughout(h, init, most) by {
        forall k | 0 <= k < |most|
          ensures NamesApart(Run(h, init, most[..k]))
        {
          assert most[..k] == schedule[..k];
        }
      }
      RunIsPreserved(h, offers, before, most);
      RunIsOk(h, offers, before, most);
      RunIsAccounted(h, offers, before, most);
      NamesOfConns(s, offers);
      assert schedule[..|schedule| - 1] == most && NamesApart(s);
      StepKeepsPreserved(h, before, s, schedule[|schedule| - 1]);
    }
  }

  /** The main theorem, for any number of transfers that differ in name while they overlap: in
      every interleaving, with every splitting of reads, every abort, timeout, error and cut, if a
      sender reports completion then the receiver's directory holds, under the offered name, a file
      of the offered size with the hash the sender computed; and unless the network replaced file
      bytes, that file is exactly what the sender read from its own file. */
  lemma EndToEnd(h: StreamHash, offers: seq<TransferOffer>, before: Files, schedule: seq<Action>, i: nat)
    requires Offerable(offers) && NamesAreNotTemps(offers) && i < |offers|
    requires NamesApartThroughout(h, Init(h, offers, before), schedule)
    ensures var s := Run(h, Init(h, offers, before), schedule);
      |s.conns| == |offers| && (s.conns[i].phase == Done ==>
        && offers[i].fileName in s.files
        && var file := s.files[offers[i].fileName];
        && |file| == offers[i].fileSize == |s.conns[i].up.data|
        && DigestOf(h, file) == DigestOf(h, s.conns[i].up.data)
        && (!s.conns[i].tampered ==> file == s.conns[i].up.data))
  {
    var s := Run(h, Init(h, offers, before), schedule);
    RunIsOk(h, offers, before, schedule);
    RunIsPreserved(h, offers, before, schedule);
    if s.conns[i].phase == Done {
      DoneMeansSaved(h, s.conns[i]);
    }
  }

  /** One transfer alone needs no condition on names: its file name is never its own temporary name. */
  lemma SingleTransfer(h: StreamHash, offer: TransferOffer, before: Files, schedule: seq<Action>)
    requires Valid(offer)
    requires forall a | a in schedule :: !a.move.Tamper?
    ensures var s := Run(h, Init(h, [offer], before), schedule);
      |s.conns| == 1 && (s.conns[0].phase == Done ==>
        && offer.fileName in s.files && s.files[offer.fileName] == s.conns[0].up.data
        && |s.conns[0].up.data| == offer.fileSize)
  {
    DestIsNotTemp(offer.fileName, offer.transferId);
    var init := Init(h, [offer], before);
    forall k | 0 <= k < |schedule|
      ensures NamesApart(Run(h, init, schedule[..k]))
    {
      RunIsOk(h, [offer], before, schedule[..k]);
    }
    EndToEnd(h, [offer], before, schedule, 0);
    NobodyTampers(h, [offer], before, schedule);
  }

  /** Only the network replaces file bytes. */
  lemma {:induction false} NobodyTampers(h: StreamHash, offers: seq<TransferOffer>, before: Files,
                                         schedule: seq<Action>)
    requires forall a | a in schedule :: !a.move.Tamper?
    ensures forall c | c in Run(h, Init(h, offers, before), schedule).conns :: !c.tampered
  {
    if schedule != [] {
      var most, last := schedule[..|schedule| - 1], schedule[|schedule| - 1];
      NobodyTampers(h, offers, before, most);
      var s := Run(h, Init(h, offers, before), most);
      assert last in schedule;
      if last.who < |s.conns| && Valid(s.conns[last.who].offer) {
        assert s.conns[last.who] in s.conns;
        TamperingIsAMove(h, s.conns[last.who], s.files, At(s, last.who), last.move);
      }
    }
  }

  lemma TamperingIsAMove(h: StreamHash, c: Conn, files: Files, at: Handle, m: Move)
    requires Valid(c.offer) && !m.Tamper?
    ensures ConnStep(h, c, files, at, m).0.tampered == c.tampered
  {
    hide TakeFrame, TakeOffer, Sent, Wire, JudgeDecision, JudgeVerdict, TaskStep, Put, Close, Cut, Drop, Take;
  }

  /** No other content of the given length has the hash of `data`. */
  ghost predicate OnlyPreimage(h: StreamHash, data: seq<byte>, size: nat) {
    forall b: seq<byte> | |b| == size && DigestOf(h, b) == DigestOf(h, data) :: b == data
  }

  /** Even with file bytes replaced on the way, a sender that reports completion has its own file
      saved at the other end, unless some other file of the same length has the same hash. */
  lemma HashCheckIsEnough(h: StreamHash, offers: seq<TransferOffer>, before: Files, schedule: seq<Action>, i: nat)
    requires Offerable(offers) && NamesAreNotTemps(offers) && i < |offers|
    requires NamesApartThroughout(h, Init(h, offers, before), schedule)
    ensures var s := Run(h, Init(h, offers, before), schedule);
      s.conns[i].phase == Done && OnlyPreimage(h, s.conns[i].up.data, offers[i].fileSize) ==>
        offers[i].fileName in s.files && s.files[offers[i].fileName] == s.conns[i].up.data
  {
    EndToEnd(h, offers, before, schedule, i);
  }

  /** In every run, what a sender has heard is the beginning of one of the five conversations, all
      with its own transfer's id; and verification is spoken only after the file is in place. */
  lemma ConversationGrammar(h: StreamHash, offers: seq<TransferOffer>, before: Files, schedule: seq<Action>, i: nat)
    requires Offerable(offers) && i < |offers|
    ensures var s := Run(h, Init(h, offers, before), schedule);
      |s.conns| == |offers| &&
      var c := s.conns[i];
      && c.back.read <= Words(offers[i].transferId, c.spoken)
      && (c.phase == Done ==> c.back.read == Words(offers[i].transferId, c.spoken) && c.spoken.Confirmed?)
      && (c.spoken.Confirmed? ==> c.saved.Some? && c.spoken.hash == DigestOf(h, c.saved.value))
  {
    var c := Run(h, Init(h, offers, before), schedule).conns[i];
    RunIsOk(h, offers, before, schedule);
    if c.phase == Done {
      DoneMeansSaved(h, c);
    }
  }

  /** The session calls that the moves of transfer `i` amount to. */
  function SessionTrace(h: StreamHash, init: System, schedule: seq<Action>, i: nat): seq<SessionCall>
    requires i < |init.conns|
  {
    if schedule == [] then []
    else
      var most, last := schedule[..|schedule| - 1], schedule[|schedule| - 1];
      var before, after := Run(h, init, most), Run(h, init, schedule);
      SessionTrace(h, init, most, i) + CallsBetween(SessionState(before.conns[i]), SessionState(after.conns[i]))
  }

  /** The receiver's side of every run is a run of the session machine of `decision.rs`: the calls
      it amounts to all succeed, and lead the machine to where the receiver really is. A file is
      saved exactly when they are accept, begin, complete; a failure after acceptance is a cancel. */
  lemma {:induction false} RunsAreSessions(h: StreamHash, offers: seq<TransferOffer>, before: Files,
                                           schedule: seq<Action>, i: nat)
    requires Offerable(offers) && i < |offers|
    ensures var init := Init(h, offers, before);
      var c, trace := Run(h, init, schedule).conns[i], SessionTrace(h, init, schedule, i);
      && RunSession(trace) == (SessionState(c), trace)
      && (c.saved.Some? <==> trace == [DoAccept, DoBegin, DoComplete])
  {
    RunIsOk(h, offers, before, schedule);
    var init := Init(h, offers, before);
    if schedule != [] {
      var most, last := schedule[..|schedule| - 1], schedule[|schedule| - 1];
      RunsAreSessions(h, offers, before, most, i);
      RunIsOk(h, offers, before, most);
      var s := Run(h, init, most);
      var x, y := SessionState(s.conns[i]), SessionState(Step(h, s, last).conns[i]);
      assert SessionMoves(x, y) by {
        if last.who == i {
          ReceiverFollowsTheSession(h, s.conns[i], s.files, At(s, i), last.move);
        }
      }
      OneMoreCall(SessionTrace(h, init, most, i), x, y);
    }
    SavedMeansCompleted(h, Run(h, init, schedule).conns[i]);
    SessionRuns(SessionTrace(h, init, schedule, i));
  }

  lemma OneMoreCall(trace: seq<SessionCall>, x: TransferState, y: TransferState)
    requires RunSession(trace) == (x, trace) && SessionMoves(x, y)
    ensures RunSession(trace + CallsBetween(x, y)) == (y, trace + CallsBetween(x, y))
  {
    hide RunSession;
    if x == y {
      assert trace + [] == trace;
    } else {
      OneCallMore(trace, CallsBetween(x, y)[0]);
    }
  }

  lemma SavedMeansCompleted(h: StreamHash, c: Conn)
    requires ConnOk(h, c)
    ensures c.saved.Some? <==> SessionState(c) == Completed
  {
    SavedInTime(h, c);
    hide ConnOk;
  }
}
