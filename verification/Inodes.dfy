/**
  The shared directory as Unix has it: names refer to numbered files, an open file is held by its number,
  and the system calls move names. Creating makes a new file only if the name is unused, renaming
  takes the name away from what had it, removing leaves the file to those who hold it open. The
  model of `Transfers` keeps contents by name and follows open files by name instead; here the two are
  proved to be the same.
*/
module Inodes {
  import opened Wrappers
  import opened Bytes
  import opened Offers
  import opened Hashing
  import opened Receiving
  import opened Connections
  import opened Transfers

  /** `next` and all higher numbers are unused. */
  datatype Disk = Disk(dir: map<string, nat>, store: map<nat, seq<byte>>, next: nat)

  ghost predicate DiskOk(disk: Disk) {
    && (forall n | n in disk.dir :: disk.dir[n] in disk.store)
    && (forall m, n | m in disk.dir && n in disk.dir && disk.dir[m] == disk.dir[n] :: m == n)
    && (forall k | k in disk.store :: k < disk.next)
  }

  /** The contents as the names show them. */
  function Visible(disk: Disk): Files {
    map n | n in disk.dir && disk.dir[n] in disk.store :: disk.store[disk.dir[n]]
  }

  /** File `node` has the name `at`, or no name. */
  ghost predicate FoundAt(disk: Disk, node: nat, at: Handle) {
    match at
    case Some(name) => name in disk.dir && disk.dir[name] == node
    case None => forall n | n in disk.dir :: disk.dir[n] != node
  }

  // ---- The system calls

  /** `File::create`. */
  function Create(disk: Disk, name: string): Disk {
    if name in disk.dir then disk.(store := disk.store[disk.dir[name] := []])
    else Disk(disk.dir[name := disk.next], disk.store[disk.next := []], disk.next + 1)
  }

  /** A write through an open file; writing nothing has no effect, wherever the file ends. */
  function Write(disk: Disk, node: nat, offset: nat, data: seq<byte>): Disk {
    if data == [] || node !in disk.store then disk
    else disk.(store := disk.store[node := WriteAt(disk.store[node], offset, data)])
  }

  /** `rename`, which fails if there is nothing to rename. */
  function Rename(disk: Disk, from: string, to: string): Disk {
    if from in disk.dir then disk.(dir := (disk.dir - {from})[to := disk.dir[from]]) else disk
  }

  /** `remove_file`. */
  function Unlink(disk: Disk, name: string): Disk {
    disk.(dir := disk.dir - {name})
  }

  lemma CreateShows(disk: Disk, name: string)
    requires DiskOk(disk)
    ensures var after := Create(disk, name);
      && DiskOk(after) && Visible(after) == Visible(disk)[name := []]
      && name in after.dir && after.dir[name] in after.store && disk.store.Keys <= after.store.Keys
      && forall node, at | node in disk.store && FoundAt(disk, node, at) :: FoundAt(after, node, at)
  {
  }

  lemma WriteShows(disk: Disk, node: nat, at: Handle, offset: nat, data: seq<byte>)
    requires DiskOk(disk) && node in disk.store && FoundAt(disk, node, at)
    ensures var after := Write(disk, node, offset, data);
      && DiskOk(after) && Visible(after) == WriteThrough(Visible(disk), at, offset, data)
      && after.dir == disk.dir && after.store.Keys == disk.store.Keys
  {
    hide WriteAt;
  }

  lemma RenameShows(disk: Disk, from: string, to: string)
    requires DiskOk(disk) && from != to && from in disk.dir
    ensures var after, files := Rename(disk, from, to), Visible(disk);
      && DiskOk(after) && from in files && Visible(after) == (files - {from})[to := files[from]]
      && after.store == disk.store
      && forall node, at | FoundAt(disk, node, at) ::
           FoundAt(after, node, if at == Some(to) then None else if at == Some(from) then Some(to) else at)
  {
  }

  lemma UnlinkShows(disk: Disk, name: string)
    requires DiskOk(disk)
    ensures var after := Unlink(disk, name);
      && DiskOk(after) && Visible(after) == Visible(disk) - {name} && after.store == disk.store
      && forall node, at | FoundAt(disk, node, at) :: FoundAt(after, node, if at == Some(name) then None else at)
  {
  }

  // ---- The system on a disk

  datatype DiskSystem = DiskSystem(conns: seq<Conn>, disk: Disk, open: map<nat, nat>)

  function DiskInit(h: StreamHash, offers: seq<TransferOffer>, disk: Disk): DiskSystem {
    DiskSystem(Init(h, offers, Visible(disk)).conns, disk, map[])
  }

  /** The one system call in an await of `receive_file`. */
  function TaskOnDisk(id: Id, t: Task, disk: Disk, held: Option<nat>, e: TaskEvent): Disk {
    match t
    case Creating(dest) => if e == Created(true) then Create(disk, TempName(dest, id)) else disk
    case Copying(dest, c) => if held.Some? then Write(disk, held.value, |c.copied|, Saved(e)) else disk
    case Removing(dest, _, _) => if e == Removed(true) then Unlink(disk, TempName(dest, id)) else disk
    case Renaming(dest, _) => if e == Renamed(true) then Rename(disk, TempName(dest, id), dest) else disk
    case _ => disk
  }

  function MoveOnDisk(c: Conn, disk: Disk, held: Option<nat>, m: Move): Disk {
    if m.Work? && c.rcv.Running? && EventFor(c.rcv.task, c.fwd, m.await).Some? then
      TaskOnDisk(c.rcv.offer.transferId, c.rcv.task, disk, held, EventFor(c.rcv.task, c.fwd, m.await).value)
    else
      disk
  }

  function HeldBy(open: map<nat, nat>, i: nat): Option<nat> {
    if i in open then Some(open[i]) else None
  }

  function DiskStep(h: StreamHash, s: DiskSystem, a: Action): DiskSystem {
    if a.who < |s.conns| && Valid(s.conns[a.who].offer) then
      var c := s.conns[a.who];
      var d := ConnStep(h, c, Visible(s.disk), None, a.move).0;
      var disk := MoveOnDisk(c, s.disk, HeldBy(s.open, a.who), a.move);
      DiskSystem(s.conns[a.who := d], disk,
                 if OpensFile(c, d) && Temp(c) in disk.dir then s.open[a.who := disk.dir[Temp(c)]] else s.open)
    else s
  }

  function DiskRun(h: StreamHash, s: DiskSystem, schedule: seq<Action>): DiskSystem {
    if schedule == [] then s
    else DiskStep(h, DiskRun(h, s, schedule[..|schedule| - 1]), schedule[|schedule| - 1])
  }

  // ---- Both are the same

  /** What a task holds open is found where its handle says. */
  ghost predicate Follows(disk: Disk, held: Option<nat>, at: Handle) {
    match held
    case Some(node) => node in disk.store && FoundAt(disk, node, at)
    case None => at == None
  }

  ghost predicate Agree(s: System, t: DiskSystem) {
    && s.conns == t.conns && DiskOk(t.disk) && s.files == Visible(t.disk)
    && forall i: nat :: Follows(t.disk, HeldBy(t.open, i), At(s, i))
  }

  /** Where the handles of all tasks are after a move, seen from the move's system call. */
  ghost predicate AllFollow(before: Disk, after: Disk, c: Conn, d: Conn, files: Files) {
    forall held, at | Follows(before, held, at) :: Follows(after, held, Follow(at, c, d, files))
  }

  /** One await of the receiving task, on contents by name and on the disk. */
  ghost predicate Matches(c: Conn, d: Conn, disk: Disk, after: Disk, files: Files) {
    && DiskOk(after) && Visible(after) == files && AllFollow(disk, after, c, d, files)
    && (OpensFile(c, d) ==> Temp(c) in after.dir && after.dir[Temp(c)] in after.store)
  }

  lemma NothingMatches(c: Conn, d: Conn, disk: Disk)
    requires DiskOk(disk) && !NewlySaved(c, d) && !OpensFile(c, d)
    ensures Matches(c, d, disk, disk, Visible(disk))
  {
  }

  lemma CreateMatches(c: Conn, d: Conn, disk: Disk)
    requires DiskOk(disk) && !NewlySaved(c, d)
    ensures Matches(c, d, disk, Create(disk, Temp(c)), Visible(disk)[Temp(c) := []])
  {
    CreateShows(disk, Temp(c));
    hide TempName, Create;
  }

  lemma WriteMatches(c: Conn, d: Conn, disk: Disk, node: nat, at: Handle, offset: nat, data: seq<byte>)
    requires DiskOk(disk) && !NewlySaved(c, d) && !OpensFile(c, d) && node in disk.store && FoundAt(disk, node, at)
    ensures Matches(c, d, disk, Write(disk, node, offset, data), WriteThrough(Visible(disk), at, offset, data))
  {
    WriteShows(disk, node, at, offset, data);
    WriteThroughTouches(Visible(disk), at, offset, data);
    hide TempName, Write, WriteThrough;
  }

  lemma UnlinkMatches(c: Conn, d: Conn, disk: Disk)
    requires DiskOk(disk) && !NewlySaved(c, d) && !OpensFile(c, d)
    ensures Matches(c, d, disk, Unlink(disk, Temp(c)), Visible(disk) - {Temp(c)})
  {
    UnlinkShows(disk, Temp(c));
    hide TempName, Unlink;
  }

  lemma RenameMatches(c: Conn, d: Conn, disk: Disk)
    requires DiskOk(disk) && NewlySaved(c, d) && !OpensFile(c, d) && Temp(c) != Name(c) && Temp(c) in disk.dir
    ensures var files := Visible(disk);
      && Temp(c) in files
      && Matches(c, d, disk, Rename(disk, Temp(c), Name(c)), (files - {Temp(c)})[Name(c) := files[Temp(c)]])
  {
    RenameShows(disk, Temp(c), Name(c));
    hide TempName, Rename;
  }

  lemma CopyingMatches(h: StreamHash, c: Conn, disk: Disk, held: Option<nat>, at: Handle, a: Await)
    requires DiskOk(disk) && Follows(disk, held, at)
    requires c.rcv.Running? && c.rcv.task.Copying? && c.saved == None
    ensures var (d, g) := WorkMove(h, c, Visible(disk), at, a);
      Matches(c, d, disk, MoveOnDisk(c, disk, held, Work(a)), g)
  {
    hide CopyStep, Matches, TempName, Take, Visible, Write, WriteThrough, FoundAt;
    var d := WorkMove(h, c, Visible(disk), at, a).0;
    var event := EventFor(c.rcv.task, c.fwd, a);
    assert d.saved == c.saved && !OpensFile(c, d);
    if event.None? {
      NothingMatches(c, d, disk);
    } else if held.Some? {
      WriteMatches(c, d, disk, held.value, at, |c.rcv.task.c.copied|, Saved(event.value));
    } else {
      NothingWritten(Visible(disk), |c.rcv.task.c.copied|, Saved(event.value));
      NothingMatches(c, d, disk);
    }
  }

  lemma NothingWritten(files: Files, offset: nat, data: seq<byte>)
    ensures WriteThrough(files, None, offset, data) == files
  {
  }

  lemma FilingMatches(h: StreamHash, c: Conn, disk: Disk, held: Option<nat>, at: Handle, a: Await)
    requires DiskOk(disk) && Follows(disk, held, at)
    requires c.rcv.Running? && !c.rcv.task.Copying? && c.rcv.offer == c.offer
    requires c.rcv.task.Returned? || c.saved == None
    requires c.rcv.task.Creating? || c.rcv.task.Removing? || c.rcv.task.Renaming? ==> c.rcv.task.dest == Name(c)
    ensures var (d, g) := WorkMove(h, c, Visible(disk), at, a);
      Matches(c, d, disk, MoveOnDisk(c, disk, held, Work(a)), g)
  {
    hide Matches, TempName, Take, Visible, Create, Unlink, Rename, OpenStep, FoundAt, DiskOk;
    var d := WorkMove(h, c, Visible(disk), at, a).0;
    DestIsNotTemp(Name(c), c.offer.transferId);
    OpeningCreates(h, c.rcv.offer, Visible(disk), a == Io(true));
    VisibleNames(disk);
    NothingToRename(disk, Temp(c), Name(c));
    if NewlySaved(c, d) {
      RenameMatches(c, d, disk);
    } else if OpensFile(c, d) {
      CreateMatches(c, d, disk);
    } else if c.rcv.task.Removing? && a == Io(true) {
      UnlinkMatches(c, d, disk);
    } else {
      NothingMatches(c, d, disk);
    }
  }

  lemma NothingToRename(disk: Disk, from: string, to: string)
    ensures from !in disk.dir ==> Rename(disk, from, to) == disk
  {
  }

  lemma VisibleNames(disk: Disk)
    requires DiskOk(disk)
    ensures Visible(disk).Keys == disk.dir.Keys
  {
  }

  lemma OpeningCreates(h: StreamHash, offer: TransferOffer, files: Files, ok: bool)
    ensures var t := OpenStep(h, offer, files, ok); t.Creating? || t.Returned?
  {
  }

  lemma WorkMatches(h: StreamHash, c: Conn, disk: Disk, held: Option<nat>, at: Handle, a: Await)
    requires ConnOk(h, c) && DiskOk(disk) && Follows(disk, held, at)
    ensures var (d, g) := WorkMove(h, c, Visible(disk), at, a);
      Matches(c, d, disk, MoveOnDisk(c, disk, held, Work(a)), g)
  {
    SavedInTime(h, c);
    if c.rcv.Running? {
      RunningFits(h, c);
      DestIsName(h, c);
      hide ConnOk, WorkMove, TaskFits, Matches, MoveOnDisk, Follows, DiskOk;
      if c.rcv.task.Copying? {
        CopyingMatches(h, c, disk, held, at, a);
      } else {
        FilingMatches(h, c, disk, held, at, a);
      }
    } else {
      hide ConnOk, Matches;
      NothingMatches(c, c, disk);
    }
  }

  /** The other moves touch neither. */
  lemma OthersMatch(h: StreamHash, c: Conn, disk: Disk, at: Handle, m: Move)
    requires Valid(c.offer) && DiskOk(disk) && !m.Work?
    ensures var (d, g) := ConnStep(h, c, Visible(disk), at, m); Matches(c, d, disk, disk, g)
  {
    SenderKeepsToItself(h, c, m);
    ReceiverMoveIsQuiet(c, m);
    hide SenderMove, ReceiverMove, Matches, Valid, Cut, DiskOk, Visible;
    NothingMatches(c, ConnStep(h, c, Visible(disk), at, m).0, disk);
  }

  /** One move of one connection, on contents by name and on the disk. */
  lemma MoveMatches(h: StreamHash, c: Conn, disk: Disk, held: Option<nat>, at: Handle, m: Move)
    requires ConnOk(h, c) && Valid(c.offer) && DiskOk(disk) && Follows(disk, held, at)
    ensures var (d, g) := ConnStep(h, c, Visible(disk), at, m);
      && Matches(c, d, disk, MoveOnDisk(c, disk, held, m), g)
      && ConnStep(h, c, Visible(disk), None, m).0 == d
  {
    hide ConnOk, WorkMove, SenderMove, ReceiverMove, Matches, Valid, Cut, DiskOk, Visible, Follows;
    if m.Work? {
      HandleIsForWriting(h, c, Visible(disk), at, m.await);
      WorkMatches(h, c, disk, held, at, m.await);
    } else {
      OthersMatch(h, c, disk, at, m);
    }
  }

  lemma DestIsName(h: StreamHash, c: Conn)
    requires Valid(c.offer) && c.rcv.Running? && TaskFits(h, c, c.rcv.task)
    ensures c.rcv.task.Creating? || c.rcv.task.Removing? || c.rcv.task.Renaming? ==> c.rcv.task.dest == Name(c)
  {
  }

  /** The connection itself does not depend on where the open file is. */
  lemma HandleIsForWriting(h: StreamHash, c: Conn, files: Files, at: Handle, a: Await)
    ensures WorkMove(h, c, files, None, a).0 == WorkMove(h, c, files, at, a).0
  {
    hide TaskStep, Take;
  }

  lemma StepAgrees(h: StreamHash, s: System, t: DiskSystem, a: Action)
    requires SysOk(h, s) && Agree(s, t)
    ensures Agree(Step(h, s, a), DiskStep(h, t, a))
  {
    if a.who < |s.conns| && Valid(s.conns[a.who].offer) {
      var c, held, at := s.conns[a.who], HeldBy(t.open, a.who), At(s, a.who);
      assert Follows(t.disk, held, at);
      MoveMatches(h, c, t.disk, held, at, a.move);
      var (d, g) := ConnStep(h, c, s.files, at, a.move);
      var u, v := Step(h, s, a), DiskStep(h, t, a);
      hide ConnOk, ConnStep, DiskOk, FoundAt, TempName, Visible, MoveOnDisk, Follow, Valid;
      forall i: nat
        ensures Follows(v.disk, HeldBy(v.open, i), At(u, i))
      {
        assert Follows(t.disk, HeldBy(t.open, i), At(s, i));
        assert Follows(v.disk, HeldBy(t.open, i), Follow(At(s, i), c, d, g));
        if i == a.who && OpensFile(c, d) {
          OpenedIsFound(v.disk, Temp(c));
        }
      }
    }
  }

  lemma OpenedIsFound(disk: Disk, name: string)
    requires name in disk.dir && disk.dir[name] in disk.store
    ensures Follows(disk, Some(disk.dir[name]), Some(name))
  {
  }

  /** In every run, for any transfers and any disk: following open files by name is what Unix does by
      number. The connections are the same, the directory shows the same contents, and every open file
      is found where its handle says, or has lost its name. */
  lemma {:induction false} HandlesAreFiles(h: StreamHash, offers: seq<TransferOffer>, disk: Disk,
                                           schedule: seq<Action>)
    requires Offerable(offers) && DiskOk(disk)
    ensures Agree(Run(h, Init(h, offers, Visible(disk)), schedule), DiskRun(h, DiskInit(h, offers, disk), schedule))
  {
    if schedule != [] {
      var most := schedule[..|schedule| - 1];
      HandlesAreFiles(h, offers, disk, most);
      RunIsOk(h, offers, Visible(disk), most);
      hide Agree, SysOk, Init, DiskStep, Step;
      StepAgrees(h, Run(h, Init(h, offers, Visible(disk)), most), DiskRun(h, DiskInit(h, offers, disk), most),
                 schedule[|schedule| - 1]);
    }
  }

  /** Every directory is what some disk shows. */
  lemma {:induction false} DiskFor(files: Files) returns (disk: Disk)
    ensures DiskOk(disk) && Visible(disk) == files
    decreases |files|
  {
    if files == map[] {
      disk := Disk(map[], map[], 0);
    } else {
      var name :| name in files;
      var rest := DiskFor(files - {name});
      disk := Disk(rest.dir[name := rest.next], rest.store[rest.next := files[name]], rest.next + 1);
      assert Visible(disk) == Visible(rest)[name := files[name]];
      assert files == (files - {name})[name := files[name]];
    }
  }
}
