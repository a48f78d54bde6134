/** The receiver of `src/bin/tailsfer-node.rs` as it runs: one connection, start to end. */
module Node {
  import opened Wrappers
  import opened Bytes
  import opened Streams
  import opened Protocol
  import opened Offers
  import opened Decisions
  import opened Hashing
  import opened ProgressReports
  import opened Receiving
  import opened Conversation

  /** The receiver directory as the file system calls see it. */
  class Directory {
    var files: Files

    constructor (files: Files)
      ensures this.files == files
    {
      this.files := files;
    }

    /** `File::create`: an empty file, in place of any old one. */
    method Create(name: string)
      modifies this
      ensures files == old(files)[name := []]
    {
      files := files[name := []];
    }

    /** `write_all` on the open file. */
    method Write(name: string, data: seq<byte>)
      modifies this
      ensures files == Append(old(files), name, data)
    {
      files := Append(files, name, data);
    }

    method Remove(name: string)
      modifies this
      ensures files == old(files) - {name}
    {
      files := files - {name};
    }

    /** `rename`: replaces the target if there is one, fails if there is no source. */
    method Rename(from: string, to: string) returns (ok: bool)
      modifies this
      ensures ok == (from in old(files))
      ensures files == if ok then (old(files) - {from})[to := old(files)[from]] else old(files)
    {
      ok := from in files;
      if ok {
        files := (files - {from})[to := files[from]];
      }
    }
  }

  datatype Fault = NoFault | ReadFault | Timer | DiskFault(kept: nat)

  /** What the environment does to one call: which file operations succeed, and what each turn of the loop meets. */
  datatype Environment = Environment(openOk: bool, createOk: bool, loop: seq<Fault>, flushOk: bool, removeOk: bool,
                                     renameOk: bool)

  function FirstFault(loop: seq<Fault>): Fault {
    if loop == [] then NoFault else loop[0]
  }

  function LaterFaults(loop: seq<Fault>): seq<Fault> {
    if loop == [] then [] else loop[1..]
  }

  /** The awaits of the copy loop on a stream delivered in the given pieces. */
  ghost function CopyAwaits(pieces: seq<seq<byte>>, loop: seq<Fault>, flushOk: bool): (events: seq<TaskEvent>)
    ensures forall e | e in events :: !e.Removed? && FitsBuffer(e)
    ensures Volume(events) <= |Flatten(pieces)|
    decreases |Flatten(pieces)|
  {
    var fault := FirstFault(loop);
    if fault.ReadFault? then [ReadFailed]
    else if fault.Timer? then [TimedOut]
    else if pieces == [] then [if flushOk then Ended else FlushFailed]
    else
      var (n, left) := ReadOutcome(pieces, BUFFER_SIZE);
      var data := pieces[0][..n];
      if n == 0 then [if flushOk then Ended else FlushFailed]
      else if fault.DiskFault? then
        [PieceUnsaved(data, fault.kept)]
      else
        var later := CopyAwaits(left, LaterFaults(loop), flushOk);
        assert ([Piece(data)] + later)[1..] == later;
        [Piece(data)] + later
  }

  /** All awaits of one call of `receive_file`. */
  ghost function Awaits(pieces: seq<seq<byte>>, env: Environment): seq<TaskEvent> {
    [Opened(env.openOk)] + ([Created(env.createOk)]
    + (CopyAwaits(pieces, env.loop, env.flushOk) + [Removed(env.removeOk), Renamed(env.renameOk)]))
  }

  lemma {:induction false} VolumeOfConcat(a: seq<TaskEvent>, b: seq<TaskEvent>)
    ensures Volume(a + b) == Volume(a) + Volume(b)
  {
    if a == [] {
      assert a + b == b;
    } else {
      VolumeOfConcat(a[1..], b);
      assert (a + b)[1..] == a[1..] + b;
    }
  }

  lemma AwaitsOnOneStream(pieces: seq<seq<byte>>, env: Environment)
    requires |Flatten(pieces)| <= STREAM_LIMIT
    ensures OnOneStream(Opening, Awaits(pieces, env))
  {
    hide CopyAwaits, Flatten;
    var first, second := [Opened(env.openOk)], [Created(env.createOk)];
    var copy := CopyAwaits(pieces, env.loop, env.flushOk);
    var last := [Removed(env.removeOk), Renamed(env.renameOk)];
    VolumeOfConcat(first, second + (copy + last));
    VolumeOfConcat(second, copy + last);
    VolumeOfConcat(copy, last);
    VolumeOfConcat([Removed(env.removeOk)], [Renamed(env.renameOk)]);
    assert last == [Removed(env.removeOk)] + [Renamed(env.renameOk)];
  }

  /** Copy events do not concern a task that is already removing its temporary file. */
  lemma {:induction false} NothingAfterRemoving(h: StreamHash, offer: TransferOffer, dest: string, c: Copy,
                                                error: string, files: Files, events: seq<TaskEvent>)
    requires forall e | e in events :: !e.Removed?
    ensures RunTask(h, offer, Removing(dest, c, error), files, events) == (Removing(dest, c, error), files)
    decreases |events|
  {
    if events != [] {
      assert events[0] in events;
      NothingAfterRemoving(h, offer, dest, c, error, files, events[1..]);
    }
  }

  /** One turn of the copy loop, read off its awaits. */
  lemma Turn(h: StreamHash, offer: TransferOffer, dest: string, c: Copy, files: Files,
             pieces: seq<seq<byte>>, loop: seq<Fault>, flushOk: bool)
    ensures var whole := RunTask(h, offer, Copying(dest, c), files, CopyAwaits(pieces, loop, flushOk));
      var temp := TempName(dest, offer.transferId);
      var fault := FirstFault(loop);
      if fault.ReadFault? then whole == (Removing(dest, c, "read failed"), files)
      else if fault.Timer? then whole == (Removing(dest, c, "transfer timed out after 300 seconds"), files)
      else if pieces == [] || pieces[0] == [] then
        whole == (if flushOk then FinishCopy(offer, dest, c) else Removing(dest, c, "flush failed"), files)
      else
        var (n, left) := ReadOutcome(pieces, BUFFER_SIZE);
        var data := pieces[0][..n];
        var d := Count(h, c, data);
        if fault.DiskFault? then
          whole == (Removing(dest, c.(copied := c.copied + data), "write failed"),
                    Append(files, temp, Clip(data, fault.kept)))
        else if d.total > offer.fileSize then
          whole == (Removing(dest, d, "received more data than expected"), Append(files, temp, data))
        else
          whole == RunTask(h, offer, Copying(dest, d.(progress := Report(d.progress, d.total, offer.fileSize))),
                           Append(files, temp, data), CopyAwaits(left, LaterFaults(loop), flushOk))
  {
    var awaits := CopyAwaits(pieces, loop, flushOk);
    var t := Copying(dest, c);
    AppendNothing(files, TempName(dest, offer.transferId));
    if pieces != [] && pieces[0] != [] && FirstFault(loop).NoFault? {
      var (n, left) := ReadOutcome(pieces, BUFFER_SIZE);
      var data := pieces[0][..n];
      var later := CopyAwaits(left, LaterFaults(loop), flushOk);
      OneEvent(h, offer, t, files, Piece(data), later);
      var (u, g) := TaskStep(h, offer, t, files, Piece(data));
      if u.Removing? {
        NothingAfterRemoving(h, offer, dest, u.c, u.error, g, later);
      }
    } else {
      assert awaits == [awaits[0]] + [];
      OneEvent(h, offer, t, files, awaits[0], []);
    }
  }

  lemma AppendNothing(files: Files, name: string)
    ensures Append(files, name, []) == files
  {
    if name in files {
      assert files[name] + [] == files[name];
    }
  }

  /** The async block inside the timeout: the copy loop, the flush and the digest. */
  method CopyStream(recv: RecvStream, dir: Directory, offer: TransferOffer, dest: string, h: StreamHash,
                    env: Environment)
    returns (r: Result<(u64, Digest)>, printed: seq<nat>, ghost c: Copy)
    modifies recv, dir
    ensures var (t, g) := RunTask(h, offer, Copying(dest, StartCopy(h)), old(dir.files),
                                  CopyAwaits(old(recv.pieces), env.loop, env.flushOk));
      && g == dir.files
      && c.progress.printed == printed
      && match r
         case Ok((total, digest)) => t == FinishCopy(offer, dest, c) && total == c.total && digest == h.finish(c.hash)
         case Err(error) => t == Removing(dest, c, error)
  {
    hide RunTask, CopyAwaits, Absorb, Append, TempName, Clip, Flatten, FinishCopy;
    var temp := TempName(dest, offer.transferId);
    var buffer := new byte[BUFFER_SIZE];
    var total: u64 := 0;
    var hasher := h.init;
    var lastReportedMib: nat := 0;
    var faults := env.loop;
    printed := [];
    c := StartCopy(h);
    ghost var whole := RunTask(h, offer, Copying(dest, c), dir.files, CopyAwaits(recv.pieces, faults, env.flushOk));
    while true
      invariant c.total == total && c.hash == hasher && c.progress == Progress(lastReportedMib, printed)
      invariant whole == RunTask(h, offer, Copying(dest, c), dir.files, CopyAwaits(recv.pieces, faults, env.flushOk))
      decreases |recv.Pending()|
    {
      ghost var pieces := recv.pieces;
      Turn(h, offer, dest, c, dir.files, pieces, faults, env.flushOk);
      var fault := FirstFault(faults);
      faults := LaterFaults(faults);
      if fault.ReadFault? {
        return Err("read failed"), printed, c;
      }
      if fault.Timer? {
        return Err("transfer timed out after 300 seconds"), printed, c;
      }
      var got := recv.Read(buffer);
      if got.None? || got.value == 0 {
        break;
      }
      var data := buffer[..got.value];
      assert data == pieces[0][..got.value];
      if fault.DiskFault? {
        dir.Write(temp, Clip(data, fault.kept));
        c := c.(copied := c.copied + data);
        return Err("write failed"), printed, c;
      }
      dir.Write(temp, data);
      hasher := Absorb(h, hasher, data);
      total := (total + |data|) % U64_LIMIT;
      c := Count(h, c, data);
      if total > offer.fileSize {
        return Err("received more data than expected"), printed, c;
      }
      c := c.(progress := Report(c.progress, total, offer.fileSize));
      var currentMib := total / MEBIBYTE;
      if currentMib >= lastReportedMib + 64 || total == offer.fileSize {
        printed := printed + [total];
        lastReportedMib := currentMib;
      }
    }
    if !env.flushOk {
      return Err("flush failed"), printed, c;
    }
    r := Ok((total, h.finish(hasher)));
  }

  /** The awaits before the copy loop: either the call is over, or the loop runs on a fresh temporary file. */
  lemma BeforeTheLoop(h: StreamHash, offer: TransferOffer, files: Files, openOk: bool, createOk: bool,
                      rest: seq<TaskEvent>)
    ensures var whole := RunTask(h, offer, Opening, files, [Opened(openOk)] + ([Created(createOk)] + rest));
      var first := OpenStep(h, offer, files, openOk);
      if !first.Creating? then first.Returned? && whole == (first, files)
      else if !createOk then whole == (Returned(Err("cannot create temporary file"), StartCopy(h)), files)
      else whole == RunTask(h, offer, Copying(first.dest, StartCopy(h)),
                            files[TempName(first.dest, offer.transferId) := []], rest)
  {
    OneEvent(h, offer, Opening, files, Opened(openOk), [Created(createOk)] + rest);
    var t := OpenStep(h, offer, files, openOk);
    if t.Returned? {
      NothingAfterReturn(h, offer, t.result, t.c, files, [Created(createOk)] + rest);
    } else {
      OneEvent(h, offer, t, files, Created(createOk), rest);
      if !createOk {
        NothingAfterReturn(h, offer, Err("cannot create temporary file"), StartCopy(h), files, rest);
      }
    }
  }

  /** The awaits after the copy loop: the temporary file is removed or renamed. */
  lemma AfterTheLoop(h: StreamHash, offer: TransferOffer, t: Task, files: Files, removeOk: bool, renameOk: bool)
    requires t.Removing? || t.Renaming?
    ensures RunTask(h, offer, t, files, [Removed(removeOk), Renamed(renameOk)])
         == TaskStep(h, offer, t, files, if t.Removing? then Removed(removeOk) else Renamed(renameOk))
  {
    assert [Removed(removeOk), Renamed(renameOk)] == [Removed(removeOk)] + ([Renamed(renameOk)] + []);
    OneEvent(h, offer, t, files, Removed(removeOk), [Renamed(renameOk)] + []);
    var (u, g) := TaskStep(h, offer, t, files, Removed(removeOk));
    OneEvent(h, offer, u, g, Renamed(renameOk), []);
  }

  /** `receive_file`. Its result, its progress lines and the directory it leaves are those of
      `RunTask` on the same awaits. */
  method ReceiveFile(recv: RecvStream, dir: Directory, offer: TransferOffer, h: StreamHash, env: Environment)
    returns (r: Result<(u64, Digest)>, printed: seq<nat>)
    modifies recv, dir
    ensures var (t, g) := RunTask(h, offer, Opening, old(dir.files), Awaits(old(recv.pieces), env));
      t.Returned? && t.result == r && t.c.progress.printed == printed && g == dir.files
  {
    hide RunTask, CopyAwaits;
    ghost var copyAwaits := CopyAwaits(recv.pieces, env.loop, env.flushOk);
    ghost var last := [Removed(env.removeOk), Renamed(env.renameOk)];
    BeforeTheLoop(h, offer, dir.files, env.openOk, env.createOk, copyAwaits + last);
    if !env.openOk {
      return Err("receiver directory not accessible"), [];
    }
    var filename := SafeFilename(offer.fileName);
    if filename.Err? {
      return Err(filename.error), [];
    }
    var dest := filename.value;
    if dest in dir.files {
      return Err("destination already exists"), [];
    }
    if !env.createOk {
      return Err("cannot create temporary file"), [];
    }
    var temp := TempName(dest, offer.transferId);
    dir.Create(temp);
    RunTaskSplit(h, offer, Copying(dest, StartCopy(h)), dir.files, copyAwaits, last);
    ghost var files := dir.files;
    var copied;
    ghost var c;
    copied, printed, c := CopyStream(recv, dir, offer, dest, h, env);
    AfterTheLoop(h, offer, RunTask(h, offer, Copying(dest, StartCopy(h)), files, copyAwaits).0, dir.files,
                 env.removeOk, env.renameOk);
    if copied.Err? {
      if env.removeOk {
        dir.Remove(temp);
      }
      return Err(copied.error), printed;
    }
    var (total, hash) := copied.value;
    if total != offer.fileSize {
      if env.removeOk {
        dir.Remove(temp);
      }
      return Err("transfer size mismatch"), printed;
    }
    var renamed := false;
    if env.renameOk {
      renamed := dir.Rename(temp, dest);
    }
    r := if renamed then Ok((total, hash)) else Err("rename failed");
  }

  lemma {:induction false} CopyTakesTheStream(h: StreamHash, offer: TransferOffer, dest: string, c: Copy, files: Files,
                                              pieces: seq<seq<byte>>, loop: seq<Fault>, flushOk: bool)
    requires forall p | p in pieces :: p != []
    ensures var t := RunTask(h, offer, Copying(dest, c), files, CopyAwaits(pieces, loop, flushOk)).0;
      t.Removing? || (t.Renaming? && t.c.copied == c.copied + Flatten(pieces))
    decreases |Flatten(pieces)|
  {
    hide RunTask, CopyAwaits;
    Turn(h, offer, dest, c, files, pieces, loop, flushOk);
    assert c.copied + [] == c.copied;
    if pieces != [] && pieces[0] in pieces && FirstFault(loop).NoFault? {
      var (n, left) := ReadOutcome(pieces, BUFFER_SIZE);
      var d := Count(h, c, pieces[0][..n]);
      if d.total <= offer.fileSize {
        PiecesStayNonEmpty(pieces, BUFFER_SIZE);
        CopyTakesTheStream(h, offer, dest, d.(progress := Report(d.progress, d.total, offer.fileSize)),
                           Append(files, TempName(dest, offer.transferId), pieces[0][..n]), left,
                           LaterFaults(loop), flushOk);
        assert c.copied + pieces[0][..n] + Flatten(left) == c.copied + Flatten(pieces);
      }
    }
  }

  lemma PiecesStayNonEmpty(pieces: seq<seq<byte>>, capacity: nat)
    requires pieces != [] && capacity > 0 && forall p | p in pieces :: p != []
    ensures forall p | p in ReadOutcome(pieces, capacity).1 :: p != []
  {
    var left := ReadOutcome(pieces, capacity).1;
    forall k | 0 <= k < |left|
      ensures left[k] != []
    {
      if |pieces[0]| <= capacity {
        assert left[k] == pieces[k + 1] && pieces[k + 1] in pieces;
      } else if k > 0 {
        assert left[k] == pieces[k] && pieces[k] in pieces;
      }
    }
  }

  lemma CopiedIsTheStream(h: StreamHash, offer: TransferOffer, before: Files, pieces: seq<seq<byte>>, env: Environment)
    requires forall p | p in pieces :: p != []
    ensures var t := RunTask(h, offer, Opening, before, Awaits(pieces, env)).0;
      t.Returned? && (t.result.Ok? ==> t.c.copied == Flatten(pieces))
  {
    hide RunTask, CopyAwaits;
    var last := [Removed(env.removeOk), Renamed(env.renameOk)];
    var copyAwaits := CopyAwaits(pieces, env.loop, env.flushOk);
    BeforeTheLoop(h, offer, before, env.openOk, env.createOk, copyAwaits + last);
    var t := OpenStep(h, offer, before, env.openOk);
    if t.Creating? && env.createOk {
      var files := before[TempName(t.dest, offer.transferId) := []];
      RunTaskSplit(h, offer, Copying(t.dest, StartCopy(h)), files, copyAwaits, last);
      CopyTakesTheStream(h, offer, t.dest, StartCopy(h), files, pieces, env.loop, env.flushOk);
      assert [] + Flatten(pieces) == Flatten(pieces);
      var (u, g) := RunTask(h, offer, Copying(t.dest, StartCopy(h)), files, copyAwaits);
      AfterTheLoop(h, offer, u, g, env.removeOk, env.renameOk);
    }
  }

  /** A file that `receive_file` reports as received holds everything that followed on the stream,
      however the stream was cut into reads: no byte is lost, repeated or left over. */
  lemma SavedIsTheStream(h: StreamHash, offer: TransferOffer, before: Files, pieces: seq<seq<byte>>, env: Environment)
    requires |Flatten(pieces)| <= STREAM_LIMIT && forall p | p in pieces :: p != []
    ensures var (t, files) := RunTask(h, offer, Opening, before, Awaits(pieces, env));
      t.Returned? && (t.result.Ok? ==>
        t.c.copied == Flatten(pieces) && Delivered(h, offer, before, t.result.value, t.c, files))
  {
    hide RunTask, CopyAwaits;
    CopiedIsTheStream(h, offer, before, pieces, env);
    AwaitsOnOneStream(pieces, env);
    RunTaskKeepsTaskOk(h, offer, before, Opening, before, Awaits(pieces, env));
  }

  /** How many reads return bytes. */
  ghost function Reads(pieces: seq<seq<byte>>): nat
    decreases |Flatten(pieces)|
  {
    if pieces == [] || pieces[0] == [] then 0 else 1 + Reads(ReadOutcome(pieces, BUFFER_SIZE).1)
  }

  /** Nothing interferes with these reads, nor with the one that finds the end. */
  ghost predicate Undisturbed(pieces: seq<seq<byte>>, loop: seq<Fault>) {
    forall k | 0 <= k < |loop| :: if k < Reads(pieces) then loop[k].NoFault?
                                  else k == Reads(pieces) ==> loop[k].NoFault? || loop[k].DiskFault?
  }

  lemma UndisturbedTurn(pieces: seq<seq<byte>>, loop: seq<Fault>)
    ensures pieces == [] || pieces[0] == [] ==>
      (Undisturbed(pieces, loop) <==> FirstFault(loop).NoFault? || FirstFault(loop).DiskFault?)
    ensures pieces != [] && pieces[0] != [] ==>
      (Undisturbed(pieces, loop)
       <==> FirstFault(loop).NoFault? && Undisturbed(ReadOutcome(pieces, BUFFER_SIZE).1, LaterFaults(loop)))
  {
    if pieces != [] && pieces[0] != [] {
      var left, later := ReadOutcome(pieces, BUFFER_SIZE).1, LaterFaults(loop);
      assert forall k | 0 <= k < |later| :: later[k] == loop[k + 1];
      assert forall k | 0 < k < |loop| :: loop[k] == later[k - 1];
    }
  }

  /** How a copy loop ends that is given `length` bytes in all, undisturbed if `calm`. */
  ghost predicate Settled(offer: TransferOffer, dest: string, t: Task, files: Files, length: nat, calm: bool) {
    && (t.Removing? || t.Renaming?) && t.dest == dest && TempName(dest, offer.transferId) in files
    && (t.Renaming? <==> calm && length == offer.fileSize)
    && (calm && length > offer.fileSize ==> t.error == "received more data than expected")
    && (calm && length < offer.fileSize ==> t.error == "transfer size mismatch")
  }

  lemma AppendKeepsNames(files: Files, name: string, data: seq<byte>)
    ensures name in Append(files, name, data) <==> name in files
  {
  }

  /** The copy loop goes on to the rename exactly when nothing interferes and the stream has the announced length. */
  lemma {:induction false} CopyingCounts(h: StreamHash, offer: TransferOffer, dest: string, c: Copy, files: Files,
                                         pieces: seq<seq<byte>>, loop: seq<Fault>, flushOk: bool)
    requires (forall p | p in pieces :: p != []) && c.total == |c.copied| <= offer.fileSize
      && |c.copied| + |Flatten(pieces)| <= STREAM_LIMIT
    requires TempName(dest, offer.transferId) in files
    ensures var (t, g) := RunTask(h, offer, Copying(dest, c), files, CopyAwaits(pieces, loop, flushOk));
      Settled(offer, dest, t, g, |c.copied| + |Flatten(pieces)|, Undisturbed(pieces, loop) && flushOk)
    decreases |Flatten(pieces)|
  {
    hide RunTask, CopyAwaits, Undisturbed, Absorb, Report, TempName, Append, Clip;
    Turn(h, offer, dest, c, files, pieces, loop, flushOk);
    UndisturbedTurn(pieces, loop);
    if pieces != [] && pieces[0] in pieces {
      var (n, left) := ReadOutcome(pieces, BUFFER_SIZE);
      var data, temp, fault := pieces[0][..n], TempName(dest, offer.transferId), FirstFault(loop);
      var d := Count(h, c, data);
      AppendKeepsNames(files, temp, data);
      if fault.DiskFault? {
        AppendKeepsNames(files, temp, Clip(data, fault.kept));
      } else if fault.NoFault? && d.total <= offer.fileSize {
        hide Settled;
        PiecesStayNonEmpty(pieces, BUFFER_SIZE);
        CopyingCounts(h, offer, dest, d.(progress := Report(d.progress, d.total, offer.fileSize)),
                      Append(files, temp, data), left, LaterFaults(loop), flushOk);
        assert |c.copied| + |Flatten(pieces)| == |d.copied| + |Flatten(left)|;
      }
    }
  }

  /** The result of every call, whatever the environment does: each refusal with its reason. */
  lemma ResultOf(h: StreamHash, offer: TransferOffer, before: Files, pieces: seq<seq<byte>>, env: Environment)
    requires |Flatten(pieces)| <= STREAM_LIMIT && forall p | p in pieces :: p != []
    ensures RunTask(h, offer, Opening, before, Awaits(pieces, env)).0.Returned?
    ensures var result := RunTask(h, offer, Opening, before, Awaits(pieces, env)).0.result;
      var name, length := SafeFilename(offer.fileName), |Flatten(pieces)|;
      if !env.openOk then result == Err("receiver directory not accessible")
      else if name.Err? then result == Err(name.error)
      else if name.value in before then result == Err("destination already exists")
      else if !env.createOk then result == Err("cannot create temporary file")
      else if !Undisturbed(pieces, env.loop) || !env.flushOk then result.Err?
      else if length > offer.fileSize then result == Err("received more data than expected")
      else if length < offer.fileSize then result == Err("transfer size mismatch")
      else result.Ok? <==> env.renameOk
  {
    hide RunTask, CopyAwaits, SafeFilename, Flatten, Undisturbed, TempName, Absorb;
    var last, copyAwaits := [Removed(env.removeOk), Renamed(env.renameOk)], CopyAwaits(pieces, env.loop, env.flushOk);
    BeforeTheLoop(h, offer, before, env.openOk, env.createOk, copyAwaits + last);
    var t := OpenStep(h, offer, before, env.openOk);
    if t.Creating? && env.createOk {
      var files := before[TempName(t.dest, offer.transferId) := []];
      RunTaskSplit(h, offer, Copying(t.dest, StartCopy(h)), files, copyAwaits, last);
      CopyingCounts(h, offer, t.dest, StartCopy(h), files, pieces, env.loop, env.flushOk);
      var (u, g) := RunTask(h, offer, Copying(t.dest, StartCopy(h)), files, copyAwaits);
      AfterTheLoop(h, offer, u, g, env.removeOk, env.renameOk);
    }
  }

  /** A file is accepted exactly when its name is free, every file operation succeeds, no read fails or
      waits too long, and the rest of the stream has the announced length. */
  lemma AcceptedExactly(h: StreamHash, offer: TransferOffer, before: Files, pieces: seq<seq<byte>>, env: Environment)
    requires |Flatten(pieces)| <= STREAM_LIMIT && forall p | p in pieces :: p != []
    ensures var t := RunTask(h, offer, Opening, before, Awaits(pieces, env)).0;
      var free := SafeFilename(offer.fileName).Ok? && SafeFilename(offer.fileName).value !in before;
      t.Returned? && (t.result.Ok? <==>
        free && env.openOk && env.createOk && Undisturbed(pieces, env.loop) && env.flushOk && env.renameOk
            && |Flatten(pieces)| == offer.fileSize)
  {
    ResultOf(h, offer, before, pieces, env);
    hide RunTask, Awaits, SafeFilename, Undisturbed;
  }

  /** `read_offer`. */
  method ReadOffer(recv: RecvStream) returns (r: Result<TransferOffer>)
    modifies recv
    ensures match TakeOffer(old(recv.Pending()))
      case GotOffer(offer, rest) => r == Ok(offer) && recv.Pending() == rest
      case OfferNeedsMore => r.Err?
      case BadOffer(error) => r == Err(error)
  {
    ghost var stream := recv.Pending();
    var header :- recv.ReadExact(5);
    assert header[1..5] == stream[1..5];
    var payloadLen := FromBigEndian(header[1..5]);
    if payloadLen > MAX_FRAME_SIZE {
      return Err("offer frame too large");
    }
    var payload :- recv.ReadExact(payloadLen);
    assert header + payload == stream[..5 + payloadLen];
    assert stream[5..][payloadLen..] == stream[5 + payloadLen..];
    var frame :- DecodeFrame(header + payload);
    r := FromFrame(frame);
  }

  /** Encodes a frame and writes it, as far as the connection carries it. */
  method Say(send: Sink, f: Frame) returns (ok: bool)
    requires Sendable(f)
    modifies send`sent, send`budget
    ensures ok == (|Wire(f)| <= old(send.budget))
    ensures send.sent == old(send.sent) + Clip(Wire(f), old(send.budget))
    ensures send.budget == if ok then old(send.budget) - |Wire(f)| else 0
  {
    var encoded := EncodeFrame(f);
    ok := send.WriteAll(encoded.value);
  }

  /** What is said in the end of an accepted transfer. */
  function Verdict(result: Result<(u64, Digest)>): Spoken {
    if result.Ok? then Confirmed(result.value.1) else Regretted
  }

  /** The accepted half of `handle_connection`: receive, then say how it went. */
  method ReceiveAndAnswer(recv: RecvStream, send: Sink, dir: Directory, offer: TransferOffer, h: StreamHash,
                          env: Environment)
    returns (r: Result<()>)
    modifies recv, send, dir
    ensures var (t, g) := RunTask(h, offer, Opening, old(dir.files), Awaits(old(recv.pieces), env));
      && t.Returned? && dir.files == g
      && var last := Wire(if t.result.Ok? then VerifiedFrame(offer.transferId, t.result.value.1)
                          else DecisionFrame(Rejected, offer.transferId));
      && send.sent == old(send.sent) + Clip(last, old(send.budget))
      && (r.Ok? <==> t.result.Ok? && |last| <= old(send.budget))
      && (r.Ok? ==> send.finished)
  {
    hide RunTask, Awaits;
    var result, printed := ReceiveFile(recv, dir, offer, h, env);
    match result
    case Ok((total, hash)) =>
      var ok := Say(send, VerifiedFrame(offer.transferId, hash));
      if !ok {
        return Err("connection lost");
      }
      send.Finish();
      r := Ok(());
    case Err(error) =>
      var _ := Say(send, DecisionFrame(Rejected, offer.transferId));
      send.Finish();
      r := Err(error);
  }

  /** `handle_connection`: what it says is one of the five conversations, as far as the connection
      carries it, and which one it is depends on the decision and on what became of the file.
      `left` is how the rest of the stream was cut into pieces when the file transfer began. */
  method HandleConnection(recv: RecvStream, send: Sink, dir: Directory, accepted: bool, h: StreamHash, env: Environment)
    returns (r: Result<()>, ghost left: seq<seq<byte>>)
    modifies recv, send, dir
    ensures var front := TakeOffer(old(recv.Pending()));
      if !front.GotOffer? then
        r.Err? && send.sent == old(send.sent) && dir.files == old(dir.files)
      else
        var offer := front.offer;
        if !accepted then
          && send.sent == old(send.sent) + Clip(Words(offer.transferId, Declined), old(send.budget))
          && dir.files == old(dir.files)
          && (r.Ok? <==> |Words(offer.transferId, Declined)| <= old(send.budget))
          && (r.Ok? ==> send.finished)
        else if |AcceptWords(offer.transferId)| > old(send.budget) then
          && r.Err? && dir.files == old(dir.files)
          && send.sent == old(send.sent) + Clip(AcceptWords(offer.transferId), old(send.budget))
        else
          && Flatten(left) == front.rest
          && var (t, g) := RunTask(h, offer, Opening, old(dir.files), Awaits(left, env));
          && t.Returned? && dir.files == g
          && send.sent == old(send.sent) + Clip(Words(offer.transferId, Verdict(t.result)), old(send.budget))
          && (r.Ok? <==> t.result.Ok? && |Words(offer.transferId, Verdict(t.result))| <= old(send.budget))
          && (r.Ok? ==> send.finished)
  {
    hide RunTask, Awaits, TakeOffer, Wire, Flatten;
    left := [];
    ghost var stream, budget := recv.Pending(), send.budget;
    var read := ReadOffer(recv);
    if read.Err? {
      return Err(read.error), left;
    }
    var offer := read.value;
    // A name that comes out of an offer always passes `safe_filename`.
    assert SafeFilename(offer.fileName).Ok? by {
      TakeOfferExact(stream, offer, recv.Pending());
      SafeFilenameOfValid(offer.fileName);
    }
    var ok := Say(send, DecisionFrame(if accepted then Accepted else Rejected, offer.transferId));
    if !ok {
      return Err("connection lost"), left;
    }
    if !accepted {
      send.Finish();
      return Ok(()), left;
    }
    left := recv.pieces;
    ghost var files := dir.files;
    r := ReceiveAndAnswer(recv, send, dir, offer, h, env);
    ghost var t := RunTask(h, offer, Opening, files, Awaits(left, env)).0;
    ClipConcat(AcceptWords(offer.transferId),
               Wire(if t.result.Ok? then VerifiedFrame(offer.transferId, t.result.value.1)
                    else DecisionFrame(Rejected, offer.transferId)), budget);
  }
}
