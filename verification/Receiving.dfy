/**
  `receive_file` of `src/bin/tailsfer-node.rs`: the temporary file, the copy loop and the final
  rename. `TaskStep` is the function cut at its awaits, one event per await, with nobody else in the
  directory. The program itself is proved to be the same thing run without interruption, and the
  concurrent model interleaves these steps, with the writes going through the open file.
*/
module Receiving {
  import opened Wrappers
  import opened Bytes
  import opened Streams
  import opened Offers
  import opened Decisions
  import opened Hashing
  import opened ProgressReports
  import Text

  /** The receiver directory: file names and contents. */
  type Files = map<string, seq<byte>>

  const BUFFER_SIZE: nat := MEBIBYTE

  function SplitSlash(path: string): (parts: seq<string>)
    ensures parts != []
    ensures forall p | p in parts :: '/' !in p
  {
    if path == "" then [""]
    else
      var parts := SplitSlash(path[1..]);
      if path[0] == '/' then [""] + parts else [[path[0]] + parts[0]] + parts[1..]
  }

  /** `Path::file_name` on Unix: the last component, unless it is "..". */
  function FileName(parts: seq<string>): Option<string> {
    if parts == [] then None
    else
      var last := parts[|parts| - 1];
      if last == "" || last == "." then FileName(parts[..|parts| - 1])
      else if last == ".." then None
      else Some(last)
  }

  function SafeFilename(name: string): Result<string> {
    match FileName(SplitSlash(name))
    case None => Err("invalid filename")
    case Some(filename) =>
      if filename == "" then Err("empty filename")
      else if filename == "." || filename == ".." then Err("invalid filename")
      else if '\0' in filename then Err("filename contains NUL byte")
      else Ok(filename)
  }

  lemma {:induction false} FileNameIsAComponent(parts: seq<string>)
    ensures FileName(parts).Some? ==> FileName(parts).value in parts && FileName(parts).value !in ["", ".", ".."]
  {
    if parts != [] {
      FileNameIsAComponent(parts[..|parts| - 1]);
    }
  }

  /** Whatever a peer sends, the name used for joining onto the directory is a single ordinary component. */
  lemma SafeFilenameStaysInside(name: string)
    requires SafeFilename(name).Ok?
    ensures var f := SafeFilename(name).value;
      '/' !in f && '\0' !in f && f !in ["", ".", ".."]
  {
    FileNameIsAComponent(SplitSlash(name));
  }

  lemma {:induction false} SplitWithoutSlash(name: string)
    requires '/' !in name
    ensures SplitSlash(name) == [name]
  {
    if name != "" {
      SplitWithoutSlash(name[1..]);
      assert [name[0]] + name[1..] == name;
    }
  }

  /** A name that passed the offer's own validation is used as it is. */
  lemma SafeFilenameOfValid(name: string)
    requires ValidateFileName(name).Ok?
    ensures SafeFilename(name) == Ok(name)
  {
    SplitWithoutSlash(name);
  }

  lemma {:induction false} SplitAfterSlash(dir: string, name: string)
    requires '/' !in name
    ensures SplitSlash(dir + "/" + name) == SplitSlash(dir) + [name]
  {
    if dir == "" {
      SplitWithoutSlash(name);
      assert (dir + "/" + name)[0] == '/' && (dir + "/" + name)[1..] == name;
    } else {
      SplitAfterSlash(dir[1..], name);
      assert (dir + "/" + name)[0] == dir[0] && (dir + "/" + name)[1..] == dir[1..] + "/" + name;
    }
  }

  /** Of a path, the last component is used, if it is a name at all. */
  lemma SafeFilenameOfPath(dir: string, name: string)
    requires '/' !in name
    ensures name !in ["", ".", ".."] && '\0' !in name ==> SafeFilename(dir + "/" + name) == Ok(name)
    ensures name == ".." || (name !in ["", "."] && '\0' in name) ==> SafeFilename(dir + "/" + name).Err?
    ensures name == "" || name == "." ==> SafeFilename(dir + "/" + name) == SafeFilename(dir)
  {
    SplitAfterSlash(dir, name);
    var parts := SplitSlash(dir) + [name];
    assert parts[..|parts| - 1] == SplitSlash(dir);
  }

  function TempName(fileName: string, id: Id): (temp: string)
    ensures |temp| == |fileName| + 48
  {
    "." + fileName + "." + Text.Hex(id) + ".tailsfer.part"
  }

  const PART_SUFFIX := ".tailsfer.part"

  /** Temporary names of different (file name, transfer id) pairs are different. */
  lemma TempNameInjective(a: string, i: Id, b: string, j: Id)
    requires TempName(a, i) == TempName(b, j)
    ensures a == b && i == j
  {
    var s, t := TempName(a, i), TempName(b, j);
    assert |s| == |a| + 48 && |t| == |b| + 48;
    assert s[1..|a| + 1] == a && t[1..|b| + 1] == b;
    assert s[|a| + 2..|a| + 34] == Text.Hex(i) && t[|b| + 2..|b| + 34] == Text.Hex(j);
    Text.HexInjective(i, j);
  }

  /** A temporary name is hidden: a dot, the file name, a dot, the 32 digits of the id, and the suffix. */
  lemma TempNameWrittenOut(fileName: string, id: Id)
    ensures var temp, n := TempName(fileName, id), |fileName|;
      && |temp| == n + 48 && temp[0] == '.' && temp[1..n + 1] == fileName && temp[n + 1] == '.'
      && (forall i: nat | i < 16 ::
            && temp[n + 2 + 2 * i] == "0123456789abcdef"[id[i] / 16]
            && temp[n + 3 + 2 * i] == "0123456789abcdef"[id[i] % 16])
      && temp[n + 34..] == ".tailsfer.part"
  {
    var temp, n := TempName(fileName, id), |fileName|;
    forall i: nat | i < 16
      ensures temp[n + 2 + 2 * i] == "0123456789abcdef"[id[i] / 16]
      ensures temp[n + 3 + 2 * i] == "0123456789abcdef"[id[i] % 16]
    {
      Text.HexWrittenOut(id, i);
      assert temp[n + 2 + 2 * i] == Text.Hex(id)[2 * i] && temp[n + 3 + 2 * i] == Text.Hex(id)[2 * i + 1];
    }
  }

  lemma TempNameHasSuffix(name: string, id: Id)
    ensures |TempName(name, id)| >= |PART_SUFFIX|
    ensures TempName(name, id)[|TempName(name, id)| - |PART_SUFFIX|..] == PART_SUFFIX
  {
  }

  /** The variables of the copy loop. `copied` records what the loop has been given. */
  datatype Copy = Copy(total: u64, hash: HashState, progress: Progress, copied: seq<byte>)

  function StartCopy(h: StreamHash): Copy {
    Copy(0, h.init, NO_REPORTS, [])
  }

  datatype Task =
    | Opening
    | Creating(dest: string)
    | Copying(dest: string, c: Copy)
    | Removing(dest: string, c: Copy, error: string)
    | Renaming(dest: string, c: Copy)
    | Returned(result: Result<(u64, Digest)>, c: Copy)

  /** What an await of `receive_file` can come back with. */
  datatype TaskEvent =
    | Opened(ok: bool)
    | Created(ok: bool)
    | Piece(data: seq<byte>)
    | PieceUnsaved(data: seq<byte>, kept: nat)
    | ReadFailed
    | TimedOut
    | Ended
    | FlushFailed
    | Removed(ok: bool)
    | Renamed(ok: bool)

  function Append(files: Files, name: string, data: seq<byte>): Files {
    if name in files then files[name := files[name] + data] else files
  }

  function OpenStep(h: StreamHash, offer: TransferOffer, files: Files, ok: bool): Task {
    if !ok then Returned(Err("receiver directory not accessible"), StartCopy(h))
    else match SafeFilename(offer.fileName)
      case Err(e) => Returned(Err(e), StartCopy(h))
      case Ok(name) =>
        if name in files then Returned(Err("destination already exists"), StartCopy(h)) else Creating(name)
  }

  /** The counting part of one turn of the loop. The u64 sum wraps, as it does in a release build. */
  function Count(h: StreamHash, c: Copy, data: seq<byte>): Copy {
    c.(total := (c.total + |data|) % U64_LIMIT, hash := Absorb(h, c.hash, data), copied := c.copied + data)
  }

  function FinishCopy(offer: TransferOffer, dest: string, c: Copy): Task {
    if c.total != offer.fileSize then Removing(dest, c, "transfer size mismatch") else Renaming(dest, c)
  }

  function CopyStep(h: StreamHash, offer: TransferOffer, dest: string, c: Copy, e: TaskEvent): Task {
    match e
    case Piece(data) =>
      if data == [] then FinishCopy(offer, dest, c)
      else
        var d := Count(h, c, data);
        if d.total > offer.fileSize then Removing(dest, d, "received more data than expected")
        else Copying(dest, d.(progress := Report(d.progress, d.total, offer.fileSize)))
    case PieceUnsaved(data, _) => Removing(dest, c.(copied := c.copied + data), "write failed")
    case ReadFailed => Removing(dest, c, "read failed")
    case TimedOut => Removing(dest, c, "transfer timed out after 300 seconds")
    case Ended => FinishCopy(offer, dest, c)
    case FlushFailed => Removing(dest, c, "flush failed")
    case _ => Copying(dest, c)
  }

  /** What the event has put into the temporary file. */
  function Saved(e: TaskEvent): seq<byte> {
    match e
    case Piece(data) => data
    case PieceUnsaved(data, kept) => Clip(data, kept)
    case _ => []
  }

  function TaskStep(h: StreamHash, offer: TransferOffer, t: Task, files: Files, e: TaskEvent): (Task, Files) {
    match t
    case Opening =>
      if e.Opened? then (OpenStep(h, offer, files, e.ok), files) else (t, files)
    case Creating(dest) =>
      if !e.Created? then (t, files)
      else if e.ok then (Copying(dest, StartCopy(h)), files[TempName(dest, offer.transferId) := []])
      else (Returned(Err("cannot create temporary file"), StartCopy(h)), files)
    case Copying(dest, c) =>
      (CopyStep(h, offer, dest, c, e), Append(files, TempName(dest, offer.transferId), Saved(e)))
    case Removing(dest, c, error) =>
      if !e.Removed? then (t, files)
      else (Returned(Err(error), c), if e.ok then files - {TempName(dest, offer.transferId)} else files)
    case Renaming(dest, c) =>
      var temp := TempName(dest, offer.transferId);
      if !e.Renamed? then (t, files)
      else if e.ok && temp in files then
        (Returned(Ok((c.total, h.finish(c.hash))), c), (files - {temp})[dest := files[temp]])
      else (Returned(Err("rename failed"), c), files)
    case Returned(_, _) => (t, files)
  }

  function RunTask(h: StreamHash, offer: TransferOffer, t: Task, files: Files, events: seq<TaskEvent>): (Task, Files)
    decreases |events|
  {
    if events == [] then (t, files)
    else
      var (next, changed) := TaskStep(h, offer, t, files, events[0]);
      RunTask(h, offer, next, changed, events[1..])
  }

  lemma {:induction false} RunTaskSplit(h: StreamHash, offer: TransferOffer, t: Task, files: Files, a: seq<TaskEvent>,
                                        b: seq<TaskEvent>)
    decreases |a|
    ensures RunTask(h, offer, t, files, a + b)
         == var (u, g) := RunTask(h, offer, t, files, a); RunTask(h, offer, u, g, b)
  {
    if a == [] {
      assert a + b == b;
    } else {
      var (next, changed) := TaskStep(h, offer, t, files, a[0]);
      RunTaskSplit(h, offer, next, changed, a[1..], b);
      assert (a + b)[1..] == a[1..] + b;
    }
  }

  // ---- What every run of the function keeps

  /** `read` fills at most the buffer it is given. */
  ghost predicate FitsBuffer(e: TaskEvent) {
    match e
    case Piece(data) => |data| <= BUFFER_SIZE
    case PieceUnsaved(data, _) => |data| <= BUFFER_SIZE
    case _ => true
  }

  /** How many bytes an event takes off the stream. */
  function Consumed(e: TaskEvent): nat {
    match e
    case Piece(data) => |data|
    case PieceUnsaved(data, _) => |data|
    case _ => 0
  }

  function Volume(events: seq<TaskEvent>): nat {
    if events == [] then 0 else Consumed(events[0]) + Volume(events[1..])
  }

  /** How many bytes the copy loop has already been given. */
  function Taken(t: Task): nat {
    if t.Copying? then |t.c.copied| else 0
  }

  /** What one stream can deliver to one call, in reads that fit the buffer. The 64-bit counter
      never wraps on it, whatever size was announced. */
  ghost predicate OnOneStream(t: Task, events: seq<TaskEvent>) {
    && Taken(t) + Volume(events) <= STREAM_LIMIT
    && forall e | e in events :: FitsBuffer(e)
  }

  /** The loop-head invariant: every variable agrees with the bytes consumed so far. */
  ghost predicate CopyOk(h: StreamHash, offer: TransferOffer, c: Copy) {
    && c.total == |c.copied| <= offer.fileSize
    && c.hash == Absorb(h, h.init, c.copied)
    && Amortised(c.progress, c.total, offer.fileSize)
  }

  lemma CopyStepKeepsCopyOk(h: StreamHash, offer: TransferOffer, dest: string, c: Copy, e: TaskEvent)
    requires FitsBuffer(e) && CopyOk(h, offer, c) && |c.copied| + Consumed(e) <= STREAM_LIMIT
    ensures var t := CopyStep(h, offer, dest, c, e);
      && (t.Copying? ==> CopyOk(h, offer, t.c))
      && (t.Renaming? ==> CopyOk(h, offer, t.c) && t.c == c && t.c.total == offer.fileSize)
      && (t.Removing? ==> |t.c.copied| <= offer.fileSize + BUFFER_SIZE)
  {
    if e.Piece? && e.data != [] {
      AbsorbConcat(h, h.init, c.copied, e.data);
      if c.total + |e.data| <= offer.fileSize {
        ReportStaysAmortised(c.progress, c.total, c.total + |e.data|, offer.fileSize);
      }
    }
  }

  lemma CopyStepTakes(h: StreamHash, offer: TransferOffer, dest: string, c: Copy, e: TaskEvent)
    ensures Taken(CopyStep(h, offer, dest, c, e)) <= |c.copied| + Consumed(e)
  {
  }

  /** The destination has been checked and was free. */
  predicate Placed(offer: TransferOffer, before: Files, dest: string) {
    SafeFilename(offer.fileName) == Ok(dest) && dest !in before
  }

  /** `files` is `before` with `content` under the temporary name. */
  predicate OnlyTempAdded(before: Files, temp: string, content: seq<byte>, files: Files) {
    files == before[temp := content]
  }

  /** The directory as `receive_file` started on it, and what it may look like at each point. */
  ghost predicate TaskOk(h: StreamHash, offer: TransferOffer, before: Files, t: Task, files: Files) {
    match t
    case Opening => files == before
    case Creating(dest) => Placed(offer, before, dest) && files == before
    case Copying(dest, c) =>
      && Placed(offer, before, dest) && CopyOk(h, offer, c)
      && OnlyTempAdded(before, TempName(dest, offer.transferId), c.copied, files)
    case Removing(dest, c, _) =>
      && Placed(offer, before, dest)
      && var temp := TempName(dest, offer.transferId);
      && temp in files && |files[temp]| <= offer.fileSize + BUFFER_SIZE
      && OnlyTempAdded(before, temp, files[temp], files)
    case Renaming(dest, c) =>
      && Placed(offer, before, dest) && CopyOk(h, offer, c) && c.total == offer.fileSize
      && OnlyTempAdded(before, TempName(dest, offer.transferId), c.copied, files)
    case Returned(Ok(answer), c) => Delivered(h, offer, before, answer, c, files)
    case Returned(Err(_), _) => NothingDelivered(offer, before, files)
  }

  /** The end of a successful call: the destination is new and complete, the temporary name is gone. */
  ghost predicate Delivered(h: StreamHash, offer: TransferOffer, before: Files, answer: (u64, Digest), c: Copy,
                            files: Files)
  {
    && SafeFilename(offer.fileName).Ok?
    && var dest := SafeFilename(offer.fileName).value;
    && dest !in before
    && files == (before - {TempName(dest, offer.transferId)})[dest := c.copied]
    && answer == (|c.copied|, DigestOf(h, c.copied)) && |c.copied| == offer.fileSize
    && Amortised(c.progress, offer.fileSize, offer.fileSize)
  }

  /** The end of a failed call: outside the temporary name nothing has changed. */
  predicate NothingDelivered(offer: TransferOffer, before: Files, files: Files) {
    || files == before
    || (&& SafeFilename(offer.fileName).Ok?
        && var dest := SafeFilename(offer.fileName).value;
        && dest !in before
        && files - {TempName(dest, offer.transferId)} == before - {TempName(dest, offer.transferId)})
  }

  lemma DestIsNotTemp(dest: string, id: Id)
    ensures dest != TempName(dest, id)
  {
    assert |TempName(dest, id)| == |dest| + 48;
  }

  lemma CopyingKeepsTaskOk(h: StreamHash, offer: TransferOffer, before: Files, dest: string, c: Copy, files: Files,
                           e: TaskEvent)
    requires FitsBuffer(e) && |c.copied| + Consumed(e) <= STREAM_LIMIT
    requires TaskOk(h, offer, before, Copying(dest, c), files)
    ensures TaskOk(h, offer, before, CopyStep(h, offer, dest, c, e),
                   Append(files, TempName(dest, offer.transferId), Saved(e)))
  {
    hide TempName, Absorb, Amortised, SafeFilename;
    var temp := TempName(dest, offer.transferId);
    CopyStepKeepsCopyOk(h, offer, dest, c, e);
    assert c.copied + [] == c.copied;
    assert Append(files, temp, Saved(e)) == before[temp := c.copied + Saved(e)];
  }

  lemma RenamingKeepsTaskOk(h: StreamHash, offer: TransferOffer, before: Files, dest: string, c: Copy, files: Files,
                            e: TaskEvent)
    requires TaskOk(h, offer, before, Renaming(dest, c), files)
    ensures var (u, g) := TaskStep(h, offer, Renaming(dest, c), files, e); TaskOk(h, offer, before, u, g)
  {
    var temp := TempName(dest, offer.transferId);
    DestIsNotTemp(dest, offer.transferId);
    assert files - {temp} == before - {temp};
  }

  lemma RemovingKeepsTaskOk(h: StreamHash, offer: TransferOffer, before: Files, dest: string, c: Copy, error: string,
                            files: Files, e: TaskEvent)
    requires TaskOk(h, offer, before, Removing(dest, c, error), files)
    ensures var (u, g) := TaskStep(h, offer, Removing(dest, c, error), files, e); TaskOk(h, offer, before, u, g)
  {
    var temp := TempName(dest, offer.transferId);
    assert files - {temp} == before - {temp};
    assert files - {temp} - {temp} == before - {temp};
  }

  lemma TaskStepKeepsTaskOk(h: StreamHash, offer: TransferOffer, before: Files, t: Task, files: Files, e: TaskEvent)
    requires FitsBuffer(e) && Taken(t) + Consumed(e) <= STREAM_LIMIT && TaskOk(h, offer, before, t, files)
    ensures var (u, g) := TaskStep(h, offer, t, files, e);
      TaskOk(h, offer, before, u, g) && Taken(u) <= Taken(t) + Consumed(e)
  {
    match t
    case Copying(dest, c) => CopyingKeepsTaskOk(h, offer, before, dest, c, files, e);
    case Renaming(dest, c) => RenamingKeepsTaskOk(h, offer, before, dest, c, files, e);
    case Removing(dest, c, error) => RemovingKeepsTaskOk(h, offer, before, dest, c, error, files, e);
    case Creating(dest) => CreatingKeepsTaskOk(h, offer, before, dest, files, e);
    case Opening =>
    case Returned(_, _) =>
  }

  lemma CreatingKeepsTaskOk(h: StreamHash, offer: TransferOffer, before: Files, dest: string, files: Files,
                            e: TaskEvent)
    requires TaskOk(h, offer, before, Creating(dest), files)
    ensures var (u, g) := TaskStep(h, offer, Creating(dest), files, e); TaskOk(h, offer, before, u, g)
  {
    assert CopyOk(h, offer, StartCopy(h));
  }

  lemma {:induction false} RunTaskKeepsTaskOk(h: StreamHash, offer: TransferOffer, before: Files, t: Task,
                                              files: Files, events: seq<TaskEvent>)
    requires OnOneStream(t, events) && TaskOk(h, offer, before, t, files)
    ensures var (u, g) := RunTask(h, offer, t, files, events); TaskOk(h, offer, before, u, g)
    decreases |events|
  {
    if events != [] {
      assert events[0] in events;
      TaskStepKeepsTaskOk(h, offer, before, t, files, events[0]);
      var (next, changed) := TaskStep(h, offer, t, files, events[0]);
      RunTaskKeepsTaskOk(h, offer, before, next, changed, events[1..]);
    }
  }

  // ---- Consequences for one call of the function

  /** Whenever the loop is about to read: the temporary file is the bytes consumed so far, the
      counter is its length and at most the announced size, and the hasher has absorbed exactly
      these bytes. At no time does the temporary file grow past one buffer more than that size. */
  lemma LoopHead(h: StreamHash, offer: TransferOffer, before: Files, events: seq<TaskEvent>)
    requires OnOneStream(Opening, events)
    ensures var (t, files) := RunTask(h, offer, Opening, before, events);
      t.Copying? || t.Removing? || t.Renaming? ==>
        var temp := TempName(t.dest, offer.transferId);
        && temp in files && |files[temp]| <= offer.fileSize + 1_048_576
        && (t.Copying? ==>
              && files[temp] == t.c.copied && t.c.total == |files[temp]| <= offer.fileSize
              && h.finish(t.c.hash) == DigestOf(h, files[temp]))
  {
    RunTaskKeepsTaskOk(h, offer, before, Opening, before, events);
    hide RunTask, Absorb;
  }

  /** While bytes keep coming the loop cannot go on: each turn counts at least one byte. */
  lemma {:induction false} LoopEnds(h: StreamHash, offer: TransferOffer, dest: string, c: Copy, files: Files,
                                    events: seq<TaskEvent>)
    requires CopyOk(h, offer, c) && OnOneStream(Copying(dest, c), events)
    requires forall e | e in events :: e.Piece? && e.data != []
    requires |events| > offer.fileSize - c.total
    ensures !RunTask(h, offer, Copying(dest, c), files, events).0.Copying?
    decreases |events|
  {
    var e := events[0];
    assert e in events;
    CopyStepKeepsCopyOk(h, offer, dest, c, e);
    var (next, changed) := TaskStep(h, offer, Copying(dest, c), files, e);
    if next.Copying? {
      CopyStepTakes(h, offer, dest, c, e);
      LoopEnds(h, offer, dest, next.c, changed, events[1..]);
    } else {
      NeverCopyingAgain(h, offer, next, changed, events[1..]);
    }
  }

  lemma {:induction false} NeverCopyingAgain(h: StreamHash, offer: TransferOffer, t: Task, files: Files,
                                             events: seq<TaskEvent>)
    requires t.Removing? || t.Renaming? || t.Returned?
    ensures !RunTask(h, offer, t, files, events).0.Copying?
    decreases |events|
  {
    if events != [] {
      var (next, changed) := TaskStep(h, offer, t, files, events[0]);
      NeverCopyingAgain(h, offer, next, changed, events[1..]);
    }
  }

  const RENAME_FAILED := "rename failed"

  /** A run gets as far as creating its temporary file. */
  predicate Creates(h: StreamHash, offer: TransferOffer, t: Task, files: Files, events: seq<TaskEvent>)
    decreases |events|
  {
    && events != []
    && var (next, changed) := TaskStep(h, offer, t, files, events[0]);
    && ((t.Creating? && next.Copying?) || Creates(h, offer, next, changed, events[1..]))
  }

  /** A run tries to remove its temporary file and cannot. */
  predicate RemovalFails(h: StreamHash, offer: TransferOffer, t: Task, files: Files, events: seq<TaskEvent>)
    decreases |events|
  {
    && events != []
    && var (next, changed) := TaskStep(h, offer, t, files, events[0]);
    && ((t.Removing? && events[0] == Removed(false)) || RemovalFails(h, offer, next, changed, events[1..]))
  }

  lemma OneEvent(h: StreamHash, offer: TransferOffer, t: Task, files: Files, e: TaskEvent, rest: seq<TaskEvent>)
    ensures RunTask(h, offer, t, files, [e] + rest)
         == var (u, g) := TaskStep(h, offer, t, files, e); RunTask(h, offer, u, g, rest)
  {
    assert ([e] + rest)[1..] == rest;
  }

  lemma {:induction false} NothingAfterReturn(h: StreamHash, offer: TransferOffer, r: Result<(u64, Digest)>, c: Copy,
                                              files: Files, events: seq<TaskEvent>)
    ensures var t := Returned(r, c);
      && RunTask(h, offer, t, files, events) == (t, files)
      && !Creates(h, offer, t, files, events) && !RemovalFails(h, offer, t, files, events)
    decreases |events|
  {
    if events != [] {
      NothingAfterReturn(h, offer, r, c, files, events[1..]);
    }
  }

  /** What has become of the temporary file when the call returns. */
  ghost predicate CleanedUp(h: StreamHash, offer: TransferOffer, before: Files, t: Task, files: Files,
                            events: seq<TaskEvent>)
  {
    var (u, g) := RunTask(h, offer, t, files, events);
    u.Returned? ==>
      if (t.Opening? || t.Creating?) && !Creates(h, offer, t, files, events) then g == before
      else
        && SafeFilename(offer.fileName).Ok?
        && (TempName(SafeFilename(offer.fileName).value, offer.transferId) in g
            <==> u.result == Err(RENAME_FAILED) || RemovalFails(h, offer, t, files, events))
  }

  /** A step that returns settles the matter. */
  lemma ReturningCleansUp(h: StreamHash, offer: TransferOffer, before: Files, t: Task, files: Files, e: TaskEvent)
    requires TaskOk(h, offer, before, t, files) && !t.Returned? && (t.Removing? ==> t.error != RENAME_FAILED)
    ensures var (u, g) := TaskStep(h, offer, t, files, e);
      u.Returned? ==>
        if t.Opening? || t.Creating? then g == before
        else
          && SafeFilename(offer.fileName).Ok?
          && (TempName(SafeFilename(offer.fileName).value, offer.transferId) in g
              <==> u.result == Err(RENAME_FAILED) || (t.Removing? && e == Removed(false)))
  {
    hide CopyOk, SafeFilename, TempName;
    if t.Renaming? {
      DestIsNotTemp(t.dest, offer.transferId);
    }
  }

  /** The rename's message is nobody else's. */
  lemma OtherErrors(h: StreamHash, offer: TransferOffer, t: Task, files: Files, e: TaskEvent)
    requires t.Removing? ==> t.error != RENAME_FAILED
    ensures var u := TaskStep(h, offer, t, files, e).0;
      && (u.Removing? ==> u.error != RENAME_FAILED)
      && (u.Opening? || u.Creating? ==> t.Opening? || t.Creating?)
  {
    hide SafeFilename;
  }

  lemma {:induction false} RunCleansUp(h: StreamHash, offer: TransferOffer, before: Files, t: Task, files: Files,
                                       events: seq<TaskEvent>)
    requires OnOneStream(t, events) && TaskOk(h, offer, before, t, files)
    requires !t.Returned? && (t.Removing? ==> t.error != RENAME_FAILED)
    ensures CleanedUp(h, offer, before, t, files, events)
    decreases |events|
  {
    if events != [] {
      var e := events[0];
      assert e in events;
      TaskStepKeepsTaskOk(h, offer, before, t, files, e);
      ReturningCleansUp(h, offer, before, t, files, e);
      OtherErrors(h, offer, t, files, e);
      var (next, changed) := TaskStep(h, offer, t, files, e);
      if next.Returned? {
        hide TaskStep, TaskOk, SafeFilename, TempName;
        NothingAfterReturn(h, offer, next.result, next.c, changed, events[1..]);
      } else {
        RunCleansUp(h, offer, before, next, changed, events[1..]);
        hide TaskOk, SafeFilename, TempName;
      }
    }
  }

  /** Every way out of `receive_file`: the destination exists afterwards exactly when the call
      reports success or it was there before; on success it holds exactly the bytes counted and
      hashed; a call that never created its temporary file has changed nothing; and otherwise the
      temporary file is left exactly when the rename failed or removing it failed. */
  lemma Cleanup(h: StreamHash, offer: TransferOffer, before: Files, events: seq<TaskEvent>)
    requires OnOneStream(Opening, events)
    ensures var (u, g) := RunTask(h, offer, Opening, before, events);
      && CleanedUp(h, offer, before, Opening, before, events)
      && (u.Returned? ==>
            && (u.result.Ok? ==> Delivered(h, offer, before, u.result.value, u.c, g))
            && (u.result.Err? ==> NothingDelivered(offer, before, g))
            && (SafeFilename(offer.fileName).Ok? ==>
                  var dest := SafeFilename(offer.fileName).value;
                  dest in g <==> dest in before || u.result.Ok?))
  {
    RunTaskKeepsTaskOk(h, offer, before, Opening, before, events);
    RunCleansUp(h, offer, before, Opening, before, events);
    hide RunTask, CleanedUp;
    var (u, g) := RunTask(h, offer, Opening, before, events);
    if u.Returned? && SafeFilename(offer.fileName).Ok? {
      var dest := SafeFilename(offer.fileName).value;
      DestIsNotTemp(dest, offer.transferId);
      if u.result.Err? && g != before {
        assert dest in g - {TempName(dest, offer.transferId)} <==> dest in g;
      }
    }
  }

  /** The comparison of the 64-bit total with the announced size settles the length: whatever one
      stream delivers, what is accepted has exactly the announced length, for every announced size. */
  lemma LengthChecked(h: StreamHash, offer: TransferOffer, before: Files, events: seq<TaskEvent>)
    requires OnOneStream(Opening, events)
    ensures var t := RunTask(h, offer, Opening, before, events).0;
      t.Returned? && t.result.Ok? ==> |t.c.copied| == offer.fileSize == t.result.value.0
  {
    RunTaskKeepsTaskOk(h, offer, before, Opening, before, events);
    hide RunTask;
  }
}
