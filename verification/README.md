# Tailsfer, verified

Tailsfer sends a file from one machine to another over a QUIC stream. The sender offers the file,
the receiver accepts or rejects, the bytes are streamed into a temporary file that is renamed into
place, and the receiver answers with the hash of what it saved. This project models that
conversation, the formats it is written in, the chunk pipeline, the rendezvous registry, the
trusted device store and the key and fingerprint printers in Dafny, and proves what they promise.

`dafny verify dfyconfig.toml` checks everything.

## How the model is laid out

| files | what they hold |
|---|---|
| `Wrappers`, `Bytes`, `Utf8`, `Text`, `Streams` | results and errors, integers on the wire, UTF-8, hexadecimal and whitespace, readers and writers whose every split of the data is allowed |
| `Protocol`, `Offer`, `Decision`, `Conversation` | frames, offers, decisions and reports; everything a receiver may say |
| `Hashing`, `Progress` | a hash function fed in pieces; the progress lines of both copy loops |
| `Receiving`, `Node` | `receive_file` as a machine with one step per await, and the receiver program itself, proved to be that machine run without interruption |
| `Sending`, `Sender` | what the sender makes of the frames it hears and of its file, and the sender program itself, from the offer to TRANSFER COMPLETE, proved to be a schedule of the model's moves |
| `Connection`, `Transfers` | sender, receiver and network interleaved move by move; any number of transfers into one directory, with the files they hold open |
| `Driving`, `Overwriting`, `Losing`, `Completing`, `Misleading` | schedules constructed by hand, and with them exactly when a file that is already there can be overwritten, when a confirmed file can be lost again, when a transfer can complete, and when what the sender reports is not what was saved |
| `Endings` | what is final: a sender's report, a receiver that is gone, a stream that was cut |
| `Inodes` | the shared directory with numbered files, as Unix has it, and the proof that `Transfers` agrees with it |
| `Pipeline`, `Rendezvous`, `RendezvousLines`, `TrustedDevices`, `HexKeys`, `FileHeaders` | the remaining components |

The central results are `Transfers.EndToEnd` and `Transfers.NeverAMixture` along a run,
`Losing.ConfirmedFilesStay` from the offers alone, the equivalences `Losing.LosesExactly`,
`Overwriting.OverwritesExactly`, `Completing.CompletesExactly` and `Misleading.FooledExactly`,
the refinement `Inodes.HandlesAreFiles`, `Receiving.Cleanup`, `Node.ResultOf`,
`Pipeline.ProcessReader` and `Rendezvous.PurgeUnobservableExactly`. The members whose names end in
`WrittenOut` fix what the formats look like from outside: the bytes of every frame, record, offer and
header, the words and texts of the rendezvous protocol, and the tables of digits and whitespace.

In `Transfers` a schedule is any list of moves: which connection moves next, how much a read
returns, whether a file operation fails, who gives up and when, when the timer fires, where a
direction of a stream is cut, and, while a file is being copied, whether the network replaces its
bytes. What a sender reads from its own file is part of the schedule too. All results quantify over
every schedule. A task writes through the file it holds open, at its own offset, and that file can be
renamed, unlinked or truncated by another task meanwhile; `Inodes.HandlesAreFiles` proves that this is
what Unix does. The ordered stream is what section 2.2 of RFC 9000 gives; that a closing connection
may drop what is still under way is section 10.2. Section 19.8 lets no stream go beyond an offset of
2^62-1; the model carries this bound, so the 64-bit counters of both programs never wrap on a stream,
whatever size was announced.

A few names of the program clash with one another and appear changed: the states `Offered`,
`Accepted` and `Rejected` of a session are `Offering`, `Accepting` and `Refused`, the frame type
`TransferOffer` is `Offer`, and compression `None` is `Uncompressed`.

## Where the code does less than its documentation says

* `docs/INSTALLATION_AND_USAGE.md:206` says an existing destination file is not overwritten. The
  existence check and the rename are separate awaits (`src/bin/tailsfer-node.rs:139` and `:242`), so two
  transfers of the same free name can both pass the check, and the second rename replaces the file
  of the first. `File::create` on the temporary path (`src/bin/tailsfer-node.rs:149`) empties whatever
  has that name. And a task whose temporary file another one shares and has renamed goes on writing
  into the delivered file (`src/bin/tailsfer-node.rs:163`). `Overwriting.OverwritesExactly` says when:
  some schedule removes, changes or replaces an old or delivered file if and only if a transfer that
  fits on a stream shares its free name with one that fits too or has the same id, or the temporary
  name of a transfer of a free name is an old file's name or the name of a transfer that fits on a stream.
* TRANSFER COMPLETE does not mean for good. `Losing.LosesExactly` proves when the file of a sender that
  was told so can be missing or different: if and only if another transfer that can start wants the
  same name and shares its temporary file, or can be delivered too and not both are empty; or has that
  name as its own temporary name. A name counts as available if it is free, or if another transfer
  that can start has it as its temporary name, and so takes the old file and removes it.
* `parse_hex_key` asks for hexadecimal characters, but `u8::from_str_radix` also takes a leading
  plus sign in each pair. `HexKeys.ParsePlusKey` is such a call, and `HexKeys.OnlyDigitsUnlessPlus` says
  exactly when what is accepted is hexadecimal. It also returns a `Result`, but slices by byte
  positions: `HexKeys.ParseEuros` is a call that panics, and `HexKeys.ParseHexKey` says exactly which do.
* A client of the rendezvous server can tell when the purge task runs, because a HEARTBEAT revives
  a registration that has expired but has not been purged.
  `Rendezvous.PurgeUnobservableExactly` gives the exact condition.

## Model

| member | source | states |
|---|---|---|
| `Transfers.EndToEnd` | src/bin/tailsfer-send.rs:206-352 | for any number of transfers that differ in name while they overlap, none of whose names is one's temporary name, in every interleaving with every split, error, abort, timeout and cut: a sender that reports completion has a file of the offered size and of the hash it computed under the offered name at the receiver, and unless file bytes were replaced on the way that file is byte for byte what the sender read, and has the size it announced |
| `Transfers.SingleTransfer` | src/bin/tailsfer-node.rs:126-255 | the same for one transfer, with no condition on names and no tampering: completion means the saved file equals the sent file |
| `Transfers.HashCheckIsEnough` | src/bin/tailsfer-send.rs:301-318 | under the same condition on names, with file bytes replaced arbitrarily on the way, completion still means the sender's own file was saved, if no other content of the offered length has the hash of what it sent |
| `Transfers.NeverAMixture` | src/bin/tailsfer-node.rs:137-149 | while transfers active together differ in file name or id, and no name is one's temporary name, every non-temporary file in the shared directory is an untouched old file or the whole content of exactly one transfer, of the offered length |
| `Transfers.RunIsPreserved` | src/bin/tailsfer-node.rs:232-242 | while transfers active together differ in file name, and no name is one's temporary name, no file produced by a transfer and no old file, but one under a transfer's temporary name, is ever changed or lost |
| `Transfers.RunIsOk` | src/bin/tailsfer-node.rs:414-432 | the invariant of both parties, both byte channels and the receiving task holds for every connection after every schedule |
| `Transfers.ConversationGrammar` | src/bin/tailsfer-node.rs:301-360 | what a sender has heard is always a prefix of one of the five conversations with its own transfer id; it completes only on the whole of acceptance and verification, and verification is only spoken once the file is saved |
| `Transfers.RunsAreSessions` | src/transfer/decision.rs:137-197 | the receiver's real control flow is a run of the session machine: the calls it amounts to all succeed and lead to where the receiver is; a file is saved if and only if they are accept, begin, complete |
| `Transfers.NoPartSuffixNoTemp` | src/bin/tailsfer-node.rs:145 | offered names that do not end in `.tailsfer.part` are no transfer's temporary name |
| `Transfers.MoveKeepsToItsFiles` | src/bin/tailsfer-node.rs:126-255 | one move of one connection touches at most its own temporary name, what it holds open while it copies and, at the rename, its own file name, which then holds what was copied; and a transfer only becomes active on a free name |
| `Completing.CompletesExactly` | src/bin/tailsfer-node.rs:139-141 | a transfer alone with the directory can complete, on some schedule, if and only if nothing there has its file name and offer and file fit on one stream; so the safety results are not about runs that never happen |
| `Completing.FreeNameCompletes` | src/bin/tailsfer-send.rs:206-352 | for every offer of a free name that fits on a stream a schedule that ends in TRANSFER COMPLETE is constructed |
| `Completing.TakenNameIsNeverSaved` | src/bin/tailsfer-node.rs:139-141 | with the name taken no schedule saves anything |
| `Misleading.FooledExactly` | src/bin/tailsfer-send.rs:301-318 | the hash comparison is all that protects the bytes: a sender that read given data can be made to report completion of something else, on some schedule, if and only if its transfer can complete at all and other data of the same length has the same hash |
| `Misleading.CollisionFools` | src/bin/tailsfer-send.rs:301-318 | for every such pair a schedule in which the network replaces each byte and the sender ends in TRANSFER COMPLETE is constructed |
| `Misleading.UnheardExactly` | src/bin/tailsfer-node.rs:324-346 | whenever a transfer can complete, it can also end with the whole file in place and the sender reporting failure, and otherwise not |
| `Endings.ReportIsFinal` | src/bin/tailsfer-send.rs:206-352 | in every schedule a sender that has reported completion, refusal or failure never reports anything else |
| `Endings.QuittingIsFinal` | src/bin/tailsfer-send.rs:206-352 | a sender that gives up has failed for good, unless it was through already |
| `Endings.GoneReceiverSavesNothing` | src/bin/tailsfer-node.rs:414-432 | a receiver that gives up neither comes back nor saves anything any more |
| `Endings.CutFileIsNeverSaved` | src/bin/tailsfer-node.rs:160-202 | a file whose stream is cut before the copy loop has seen its end is never saved, whatever still arrives: no truncated file passes for a whole one |
| `Endings.CutSenderNeverCompletes` | src/bin/tailsfer-send.rs:294-341 | a sender whose answers are cut off before 74 bytes, acceptance and verification, could arrive never reports completion |
| `Overwriting.OverwritesExactly` | docs/INSTALLATION_AND_USAGE.md:206 | for any transfers and any directory: some schedule removes, changes or replaces a file that was there or has been delivered, if and only if a deliverable transfer shares its free name with one that is deliverable or has the same id, or the temporary name of a transfer of a free name is taken by an old file or by a deliverable transfer |
| `Overwriting.NoContentionNoOverwriting` | src/bin/tailsfer-node.rs:139-149 | otherwise no step of any schedule touches such a file |
| `Overwriting.ContentionOverwrites` | src/bin/tailsfer-node.rs:242 | with two such transfers a schedule that replaces or rewrites a delivered file is constructed |
| `Overwriting.ShareAndWrite` | src/bin/tailsfer-node.rs:149-163 | of two transfers that share a temporary file, the one that is left writes through its open file into what the other has delivered |
| `Overwriting.TakenTempOverwrites` | src/bin/tailsfer-node.rs:143-149 | with such a temporary name, a schedule that empties an old or delivered file is constructed |
| `Overwriting.HarmlessRuns` | src/bin/tailsfer-node.rs:126-255 | without either, all old files stay as they were in every run, and only free names are ever in use |
| `Losing.LosesExactly` | src/bin/tailsfer-send.rs:301-352 | for any transfers and any directory: some schedule leaves a sender that was told of completion, with no byte tampered with, without its file, if and only if one transfer is a danger to another: it can start, and wants the same name with a shared temporary file or with both deliverable and not both empty, or has the other's name as its temporary name, the name being available without it |
| `Losing.ConfirmedFilesStay` | src/bin/tailsfer-send.rs:206-352 | the end-to-end promise from the offers alone, on any directory: without such a danger, in every schedule and for good, a completed sender's file is in place with its size and hash, and equal to what was sent unless tampered with |
| `Losing.ConfirmedDespiteTampering` | src/bin/tailsfer-send.rs:301-318 | and if tampered with, still equal to what was sent, if no other content of that length has its hash |
| `Losing.MakeFree` | src/bin/tailsfer-node.rs:143-149 | a name that an old file has, but that is the temporary name of a transfer that can start, and so on down a chain of such names, can be made free by a schedule that leaves all transfers of names as long untouched |
| `Losing.DangerLoses` | src/bin/tailsfer-node.rs:139-149 | for every kind of danger a schedule that loses a confirmed file is constructed |
| `Driving.DriveToRename` | src/bin/tailsfer-send.rs:243-292 | a transfer past its existence check can be driven to the rename, whatever has happened to the directory since, and leaves its file under the temporary name, which it holds open |
| `Driving.DriveToDone` | src/bin/tailsfer-send.rs:299-352 | from there rename, answer and verdict end in completion, with the temporary file under the file name |
| `Connections.ConnStepKeepsOk` | src/bin/tailsfer-node.rs:257-363 | every move of sender, receiver and network keeps the two-party invariant: what each side has written, read and counted fits the other side's program counter |
| `Connections.OfferHeardIsOurs` | src/bin/tailsfer-node.rs:99-124 | however far the offer frame has arrived, no other offer than the one sent is ever read, and exactly the file bytes are left |
| `Connections.CopiedInFull` | src/bin/tailsfer-node.rs:195-202 | when the stream has ended and nothing is under way, the bytes copied are all the sender sent, and the sender had finished its upload |
| `Connections.OnlyConfirmationConfirms` | src/bin/tailsfer-send.rs:299-341 | the words of acceptance and verification with a given hash begin no other conversation |
| `Connections.WritingThroughAppends` | src/bin/tailsfer-node.rs:163 | a task whose file is at its own name and has only been written by itself appends |
| `Connections.WriteAtEachByte` | src/bin/tailsfer-node.rs:163 | a write through an open file changes exactly the bytes at its offset, extends a shorter file and fills a gap with zeros |
| `Inodes.HandlesAreFiles` | src/bin/tailsfer-node.rs:149-242 | for any transfers, disk and schedule: the interleaved model, which follows open files by name, is the system in which names refer to numbered files, tasks hold numbers, and create, write, rename and remove are the Unix calls; connections and visible contents are the same, and every open file is found where its handle says or has lost its name |
| `Inodes.MoveMatches` | src/bin/tailsfer-node.rs:126-255 | the same for one move: it shows in the directory exactly what its one system call does to the disk, and takes every handle along |
| `Inodes.DiskFor` | src/bin/tailsfer-node.rs:130-132 | every directory is what some disk shows, so this covers all runs of the interleaved model |
| `Connections.DoneMeansSaved` | src/bin/tailsfer-send.rs:301-318 | a sender that is done was told so by a receiver that renamed a file of the announced length and the sender's hash into place, with the sender's bytes unless they were tampered with |
| `Connections.ReceiverFollowsTheSession` | src/transfer/decision.rs:148-196 | each move leaves the receiver's session state or takes it along one call the session machine allows |
| `Receiving.TaskStepKeepsTaskOk` | src/bin/tailsfer-node.rs:126-255 | at every await of `receive_file` the directory is as it was but for the temporary file, which holds the bytes consumed; and the call can only return success with the file in place and complete |
| `Receiving.RunTaskKeepsTaskOk` | src/bin/tailsfer-node.rs:126-255 | the same over every sequence of await outcomes |
| `Receiving.LoopHead` | src/bin/tailsfer-node.rs:160-203 | when the loop is about to read, the temporary file is the bytes consumed, the counter its length and at most the announced size, and the digest so far is that of these bytes; the temporary file never exceeds the announced size by more than 1 MiB |
| `Receiving.LoopEnds` | src/bin/tailsfer-node.rs:160-203 | after more non-empty reads than there are announced bytes left, the loop is over |
| `Receiving.Cleanup` | src/bin/tailsfer-node.rs:213-242 | whatever way the call ends: the destination exists afterwards if and only if it did before or the call succeeded, a success delivers the whole file, a call that never created its temporary file changed nothing, and otherwise the temporary file is left if and only if the rename failed or removing it failed |
| `Receiving.LengthChecked` | src/bin/tailsfer-node.rs:167-240 | whatever one stream delivers, a file that is accepted has exactly the announced length, for every announced size |
| `Receiving.SafeFilenameStaysInside` | src/bin/tailsfer-node.rs:68-89 | whatever the peer sends, the name used is one path component, without separator or NUL, and not empty, dot or dot-dot |
| `Receiving.SafeFilenameOfValid` | src/bin/tailsfer-node.rs:68-89 | a name that passed the offer's validation is used unchanged (on Unix) |
| `Receiving.SafeFilenameOfPath` | src/bin/tailsfer-node.rs:68-89 | of a path the last component is used if it is a name; a last component `..` or one with NUL is refused, and an empty one or `.` is skipped |
| `Receiving.TempNameWrittenOut` | src/bin/tailsfer-node.rs:145 | the temporary name, character by character: a dot, the file name, a dot, the 32 lower-case digits of the id, `.tailsfer.part` |
| `Receiving.TempNameInjective` | src/bin/tailsfer-node.rs:143-147 | different pairs of file name and transfer id have different temporary names |
| `Receiving.RunTaskSplit` | src/bin/tailsfer-node.rs:126-255 | running the receiving machine on one list of awaits and then another is running it on both together |
| `Node.ReceiveFile` | src/bin/tailsfer-node.rs:126-255 | the imperative function, with its buffer, counter, hasher and progress lines, returns, prints and leaves in the directory exactly what the machine does on the same awaits |
| `Node.CopyStream` | src/bin/tailsfer-node.rs:151-211 | the copy loop, flush and digest are the machine's copying phase on the awaits the stream and the environment give |
| `Node.Turn` | src/bin/tailsfer-node.rs:161-202 | what one turn of the loop makes of the rest of the run, for each way a read or write can come back |
| `Node.SavedIsTheStream` | src/bin/tailsfer-node.rs:126-255 | a file reported as received is everything that followed on the stream, however the stream was cut into reads |
| `Node.AcceptedExactly` | src/bin/tailsfer-node.rs:126-255 | for every way the environment can behave: a file is accepted if and only if its name is free, every file operation succeeds, none of its reads fails or waits too long, and the rest of the stream has the announced length |
| `Node.ResultOf` | src/bin/tailsfer-node.rs:126-255 | and if not, which refusal is returned: for the directory, the name, an existing destination, creation, excess bytes, or missing bytes |
| `Node.ReadOffer` | src/bin/tailsfer-node.rs:99-124 | an offer is returned if and only if the stream starts with its frame, and then exactly the bytes after the frame are left |
| `Node.HandleConnection` | src/bin/tailsfer-node.rs:257-363 | what is said is the conversation that the decision and the fate of the file call for, as far as the connection carries it, and the call succeeds if and only if all of it got out and the file, if accepted, was saved; a rejected, unreadable or unanswerable offer leaves the directory untouched |
| `Node.ReceiveAndAnswer` | src/bin/tailsfer-node.rs:321-360 | after acceptance, verification with the digest is said if the file was saved and rejection otherwise; success means the file was saved and verification got out |
| `Node.Directory.Rename` | src/bin/tailsfer-node.rs:242 | a rename moves the source over whatever the target held, and fails without effect if there is no source |
| `Sender.SendTransfer` | src/bin/tailsfer-send.rs:206-352 | the sender completes if and only if the offer and the whole readable file got out, the file had the announced size, and the other half of the stream starts with acceptance and verification carrying its id and the hash of what it sent; then it sent exactly the offer and the file; and on a stream, its outcome and what it sent are those of a list of the sender's moves in the model |
| `Sender.SchedulesTheSender` | src/bin/tailsfer-send.rs:206-352 | such a list of moves is a schedule of the interleaved model, and changes nothing but its connection |
| `Sender.StreamAndHear` | src/bin/tailsfer-send.rs:243-341 | the accepted half: file and verdict, as the program and as moves of the model |
| `Sender.StreamFile` | src/bin/tailsfer-send.rs:243-292 | the upload succeeds if and only if everything could be read and written and the size is the announced one; the hash is that of the whole file, what was sent is its bytes in order, piece by piece, and at most one progress line is printed per 64 MiB, plus one |
| `Sender.UploadLoop` | src/bin/tailsfer-send.rs:251-280 | counter, hasher and progress state agree with the bytes sent after any number of turns, on success and failure |
| `Sender.ReadFrame` | src/bin/tailsfer-send.rs:74-94 | returns a frame if and only if the stream starts with its encoding, and leaves the rest |
| `Sender.TwoFramesJudged` | src/bin/tailsfer-send.rs:211-341 | reading two frames and judging them succeeds if and only if the stream starts with the two expected frames, back to back |
| `Sending.JudgeDecisionExact` | src/bin/tailsfer-send.rs:213-241 | one frame only starts the upload, one frame only is a polite refusal, and everything else is an error |
| `Sending.JudgeVerdictExact` | src/bin/tailsfer-send.rs:299-341 | one frame only completes the transfer: verification with this id and this hash |
| `Sending.SentKeepsUploadOk` | src/bin/tailsfer-send.rs:252-279 | a turn of the upload keeps counter (mod 2^64), hash state and progress in step with the data |
| `ProgressReports.ReportStaysAmortised` | src/bin/tailsfer-node.rs:177-192 | a turn of either loop keeps the bookkeeping of printed lines in step with the bytes counted |
| `ProgressReports.FewLinesNoSilence` | src/bin/tailsfer-send.rs:264-279 | at most one line per 64 MiB plus one, never 64 MiB without a line, and the end of a file that is not empty is always reported |
| `ProgressReports.LinesAreEarned` | src/bin/tailsfer-node.rs:177-192 | a line is printed only for 64 more mebibytes or the end, and shows the bytes so far |
| `Hashing.ChunkingIndependence` | src/bin/tailsfer-node.rs:165 | however the same bytes are cut into updates, the digest is the same |
| `Hashing.AbsorbEachByte` | src/bin/tailsfer-node.rs:165 | absorbing nothing changes nothing, and absorbing one more byte is one more step of the hash function on exactly that byte |
| `Hashing.AbsorbInjective` | src/bin/tailsfer-send.rs:260 | if the steps of the hash function keep different states and bytes apart, the state after a file tells it from every other of its length |
| `Hashing.DigestsTellApart` | src/bin/tailsfer-node.rs:205 | and if its read-out does too, equal digests of equal lengths mean equal files: the digest depends on every byte |
| `Protocol.DecodeExact` | src/transport/protocol.rs:63-111 | decoding accepts exactly the encodings of frames, each as its own frame |
| `Protocol.EncodeFrame` | src/transport/protocol.rs:63-78 | pushing type, length and payload gives the encoding, and fails only for an oversized payload |
| `Protocol.DecodeFrame` | src/transport/protocol.rs:80-111 | the cursor reads what the declarative decoder reads, with the same error for each malformed input |
| `Protocol.TryFrom` | src/transport/protocol.rs:26-43 | a byte is a frame type if and only if it is 1 to 9, and then the one with that code |
| `Protocol.CodesWrittenOut` | src/transport/protocol.rs:14-43 | the nine types are the bytes 1 to 9 in the order of the enum, both ways |
| `Protocol.FrameWrittenOut` | src/transport/protocol.rs:45-78 | for every type and payload: the encoding is the code, the length in four bytes, most significant first, and the payload; up to 1,052,672 bytes of payload are accepted, by construction and encoding alike |
| `Protocol.TakeFrameFailures` | src/bin/tailsfer-send.rs:74-94 | an announced length beyond the limit fails at once, a code that is none fails when the frame is complete, and everything else waits for more bytes |
| `Protocol.TakeFrameExact` | src/bin/tailsfer-send.rs:74-94 | a frame is read off a stream if and only if the stream starts with its encoding; what follows is left untouched |
| `Protocol.TakeFramesExact` | src/bin/tailsfer-send.rs:74-94 | a number of frames is read off a stream if and only if it is their concatenated encodings and the remainder |
| `Protocol.PrefixFree` | src/transport/protocol.rs:63-78 | two streams that start with frames are equal only if the frames are equal and what follows is too |
| `Protocol.TruncatedNeedsMore` | src/bin/tailsfer-send.rs:74-94 | a stream that stops inside a frame yields no frame and no error but the missing bytes |
| `Offers.PayloadExact` | src/transfer/offer.rs:31-88 | a payload decodes to an offer if and only if the offer is valid and encodes to it |
| `Offers.OfferFrameExact` | src/transfer/offer.rs:90-100 | making a frame succeeds for exactly the valid offers, and a frame reads back as the offer it was made of and nothing else |
| `Offers.TakeOfferExact` | src/bin/tailsfer-node.rs:99-124 | an offer is found at the front of a stream if and only if its frame is there, and exactly the file bytes remain |
| `Offers.Payload` | src/transfer/offer.rs:42-51 | the encoding of a valid offer is at most 410 bytes long |
| `Offers.WritePayload` | src/transfer/offer.rs:31-52 | appending field by field gives the encoding, for exactly the offers that pass validation |
| `Offers.ReadPayload` | src/transfer/offer.rs:54-88 | the cursor reads what the declarative decoder reads, with the same error for each malformed payload |
| `Offers.NameCheckOnBytes` | src/transfer/offer.rs:103-125 | checking a file name character by character and byte by byte is the same check |
| `Offers.MimeCheckOnBytes` | src/transfer/offer.rs:127-141 | a MIME type is accepted if and only if its encoding has 1 to 127 bytes and no zero among them |
| `Offers.PayloadWrittenOut` | src/transfer/offer.rs:31-51 | the payload, field by field: id, a zero byte and the length of the name, name, size in eight bytes, a zero byte and the length of the MIME type, MIME type |
| `Offers.OfferWrittenOut` | src/transfer/offer.rs:90-93 | the whole frame of an offer: the byte 3, the length of the payload, and the payload |
| `Utf8.DecodeEncode` | src/transfer/offer.rs:35-36 | decoding the encoding of a string gives the string |
| `Utf8.EncodeDecode` | src/transfer/offer.rs:67-68 | bytes that decode are the encoding of what they decode to |
| `Utf8.AsciiByteIffChar` | src/transfer/offer.rs:112-122 | an ASCII character is in a string if and only if its byte is in the encoding |
| `Utf8.AsciiBytes` | src/crypto/encryption.rs:50-63 | a string is ASCII if and only if its encoding is, and then both are the same, byte by byte |
| `Utf8.OctetsWrittenOut` | src/transfer/offer.rs:35-36 | the octets of every scalar value, by the table of section 3 of RFC 3629 |
| `Utf8.Examples` | src/transfer/offer.rs:35-36 | two of the examples of section 7 of RFC 3629 |
| `Decisions.DecisionExact` | src/transfer/decision.rs:24-43 | a decision frame reads back as the decision and id it was made of, and only decision frames do |
| `Decisions.ReportExact` | src/transfer/decision.rs:54-114 | verified and complete frames read back exactly, and neither is taken for the other |
| `Decisions.RepliesWrittenOut` | src/transfer/decision.rs:24-114 | the frames of decisions and reports: acceptance and rejection carry the id, verification and completion the id and then the hash |
| `Conversation.WordsWrittenOut` | src/transfer/decision.rs:24-95 | on the wire, acceptance is 4, 0, 0, 0, 16 and the id, rejection 5, 0, 0, 0, 16 and the id, verification 9, 0, 0, 0, 48, the id and the hash |
| `Conversation.ConversationsWrittenOut` | src/bin/tailsfer-node.rs:301-360 | the five conversations, byte by byte |
| `Decisions.SessionRuns` | src/transfer/decision.rs:137-197 | over any sequence of calls the successful ones form one of eight histories, at most three long; completed means accept, begin, complete, and chunks may be received exactly after accept and after begin |
| `Decisions.CallsWrittenOut` | src/transfer/decision.rs:148-196 | the seven calls that succeed, with the states they lead from and to |
| `Decisions.HistoriesHappen` | src/transfer/decision.rs:137-197 | each of the eight histories happens: it explains a state if and only if calling just that leads there |
| `Decisions.FinalIsForever` | src/transfer/decision.rs:137-197 | after completion, rejection or cancellation every later call fails and changes nothing |
| `Decisions.TransferSession.Accept` | src/transfer/decision.rs:148-156 | moves an offered session on, and otherwise fails and changes nothing |
| `Decisions.TransferSession.Reject` | src/transfer/decision.rs:158-166 | rejects an offered session, and otherwise fails and changes nothing |
| `Decisions.TransferSession.BeginReceiving` | src/transfer/decision.rs:168-176 | starts an accepted session, and otherwise fails and changes nothing |
| `Decisions.TransferSession.Complete` | src/transfer/decision.rs:178-186 | completes a receiving session, and otherwise fails and changes nothing |
| `Decisions.TransferSession.Cancel` | src/transfer/decision.rs:188-196 | cancels a session that is not final, and otherwise fails and changes nothing |
| `Pipeline.ProcessReader` | src/transfer/pipeline.rs:49-89 | for every input, key, nonces and split of reads: what is written is the beginning of whole records that unpack to a prefix of the input; it succeeds if and only if all could be read, packed and written, and then unpacking gives back the input and the total is its length (mod 2^64) |
| `Pipeline.UnpackPacked` | src/transfer/pipeline.rs:15-89 | reading records back one by one and unpacking each gives the chunks that were packed, up to the first that could not be |
| `Pipeline.ChunkRoundTrip` | src/transfer/pipeline.rs:15-46 | a packed chunk unpacks to itself and is at most a 16-byte tag longer |
| `Pipeline.SmallerIsSent` | src/transfer/pipeline.rs:15-30 | packing fails if and only if compressing or sealing does; what is sealed is the compressed chunk if it is shorter and the chunk itself otherwise, the ciphertext is 16 bytes longer than the shorter of the two, and the fifth byte of the record is 1 if and only if it was compressed |
| `Pipeline.RecordWrittenOut` | src/transfer/pipeline.rs:68-83 | a record is the length of the ciphertext in four bytes, most significant first, the flag, the nonce and the ciphertext |
| `Pipeline.PackedIsRecords` | src/transfer/pipeline.rs:58-83 | the output is one record for each chunk, in order, the k-th under the k-th nonce drawn, up to the first chunk that cannot be packed |
| `Pipeline.OnlySealedUnpacks` | src/transfer/pipeline.rs:32-46 | with a cipher that unseals nothing but what was sealed, what unpacks was sealed under this key and nonce |
| `Pipeline.LengthFieldIsExact` | src/transfer/pipeline.rs:69-71 | a record's ciphertext is at most 1 MiB and 16 bytes, so the cast to 32 bits loses nothing and the length field reads back as the length |
| `Pipeline.PackedLength` | src/transfer/pipeline.rs:66-83 | the output is at most 33 bytes per record longer than the input packed |
| `Pipeline.WriteRecord` | src/transfer/pipeline.rs:69-83 | four writes put out one record, or the part of it that still fits when writing fails |
| `Rendezvous.PurgeUnobservableExactly` | crates/tailsfer-rendezvous/src/main.rs:27-37 | no purge schedule changes any reply, if and only if no HEARTBEAT comes 60 s or more after the registration was last touched |
| `Rendezvous.PurgeSimulates` | crates/tailsfer-rendezvous/src/main.rs:27-37 | under that condition a server with any purges and one with none stay equal up to expired entries and give the same replies |
| `Rendezvous.LateHeartbeatIsObserved` | crates/tailsfer-rendezvous/src/main.rs:102-112 | any late HEARTBEAT has its answer changed by a purge just before it |
| `Rendezvous.LookupAgreesWithHistory` | crates/tailsfer-rendezvous/src/main.rs:115-131 | under any purge schedule LOOKUP finds an id if and only if it was last touched less than 60 s ago, and answers with the endpoint of its last accepted REGISTER |
| `Rendezvous.RegistryIsHistory` | crates/tailsfer-rendezvous/src/main.rs:82-131 | every entry of the registry carries the last touch and the last endpoint of the command history, and only expired ones are missing |
| `Rendezvous.Server.HandleLine` | crates/tailsfer-rendezvous/src/main.rs:66-141 | a line changes the registry and is answered as its command and the time say, including every error reply |
| `RendezvousLines.SplitExactly` | crates/tailsfer-rendezvous/src/main.rs:75 | a line splits into given words if and only if it consists of these words, with whitespace between and possibly around them |
| `RendezvousLines.RequestsSpelled` | crates/tailsfer-rendezvous/src/main.rs:77-139 | for all words and spacings: no words are no command; LOOKUP and an id, HEARTBEAT and an id, REGISTER and two words, PING and anything are these commands; and each command is given by nothing else |
| `RendezvousLines.AnswerToRegister` | crates/tailsfer-rendezvous/src/main.rs:82-100 | an address that cannot be read ends the connection; otherwise the text is OK registered for an id of 32 hexadecimal digits and an error for any other |
| `RendezvousLines.OtherAnswers` | crates/tailsfer-rendezvous/src/main.rs:102-139 | the text that answers every other line, and that all but HEARTBEAT leave the registry unchanged |
| `RendezvousLines.LookupAfterRegister` | crates/tailsfer-rendezvous/src/main.rs:82-131 | a LOOKUP line after an accepted REGISTER line is answered FOUND with the registered address for 60 seconds and NOT_FOUND from then on |
| `RendezvousLines.DeviceIdWrittenOut` | crates/tailsfer-rendezvous/src/main.rs:146-148 | an id is valid if and only if it is 32 characters long and each is a hexadecimal digit of either case |
| `Rendezvous.Server.Purge` | crates/tailsfer-rendezvous/src/main.rs:35 | exactly the registrations aged 60 s or more are dropped and the others are unchanged |
| `TrustedDevices.ReloadRebuilds` | src/mvp.rs:61-64 | adding a store's values one by one in any order rebuilds the store |
| `TrustedDevices.SaveAndLoad` | src/mvp.rs:50-82 | loading what was saved gives an equal store |
| `TrustedDevices.LastOneWins` | src/mvp.rs:61-64 | loading a list keeps for each id the last device with that id, and nothing else |
| `TrustedDevices.Load` | src/mvp.rs:50-67 | a missing file is an empty store, invalid text an error, and otherwise the store is all devices of the list added in order |
| `TrustedDevices.Save` | src/mvp.rs:69-82 | what is written is the text of a list with every device of the store once |
| `TrustedDevices.TrustedDeviceStore.Add` | src/mvp.rs:24-26 | the device is stored under its own id, in place of any older one, and every key stays its device's id |
| `TrustedDevices.TrustedDeviceStore.Remove` | src/mvp.rs:28-30 | exactly that id is gone, and every key stays its device's id |
| `TrustedDevices.TrustedDeviceStore.Get` | src/mvp.rs:32-34 | a device is found if and only if its id is stored, and it carries that id |
| `TrustedDevices.TrustedDeviceStore.List` | src/mvp.rs:36-38 | the list holds every stored device once and nothing else |
| `TrustedDevices.FormatFingerprint` | src/mvp.rs:273-282 | what the loop returns is the trimmed digits, grouped by four bytes, that the next rows are about |
| `TrustedDevices.FingerprintShape` | src/mvp.rs:273-282 | a fingerprint of n bytes has 2n + (n-1)/4 characters, and trimming it changes nothing |
| `TrustedDevices.GroupedAt` | src/mvp.rs:273-282 | the digits of byte i stand at position 2i + i/4, the more significant first, with a blank before every fourth byte but the first |
| `TrustedDevices.FingerprintInjective` | src/mvp.rs:273-282 | different byte strings have different fingerprints |
| `HexKeys.ParseHexKey` | src/crypto/encryption.rs:47-68 | for every text: returns a key if and only if the trimmed text spells it in 32 pairs, panics if and only if the first bad pair begins or ends inside a character, and otherwise refuses with the message for a wrong length or a wrong digit |
| `HexKeys.SpellsOne` | src/crypto/encryption.rs:59-65 | a text spells at most one key |
| `HexKeys.PairExact` | src/crypto/encryption.rs:63-64 | two characters give a byte if and only if they are its hexadecimal digits in either case, or a plus sign and its one digit |
| `HexKeys.ParsePrintedKey` | src/crypto/encryption.rs:47-68 | parsing a printed key, with any whitespace around it, returns the key |
| `HexKeys.PrintedKeySpells` | src/crypto/encryption.rs:59-65 | what a key prints as spells that key and no other |
| `HexKeys.OnlyDigitsUnlessPlus` | src/crypto/encryption.rs:63-64 | what is accepted consists of hexadecimal digits if and only if it has no plus sign |
| `HexKeys.ParsePlusKey` | src/crypto/encryption.rs:63-64 | a 64-character text with plus signs is accepted, as the zero key |
| `HexKeys.AsciiNeverPanics` | src/crypto/encryption.rs:60-64 | an ASCII text is never cut inside a character |
| `HexKeys.ParseEuros` | src/crypto/encryption.rs:60-64 | a text of 64 bytes on which the call panics |
| `Text.HexInjective` | src/bin/tailsfer-node.rs:91-93 | different ids print differently |
| `Text.HexWrittenOut` | src/bin/tailsfer-node.rs:91-93 | byte i is printed at position 2i in two lower-case digits, the more significant first |
| `Text.DigitsWrittenOut` | src/crypto/encryption.rs:63-64 | the sixteen digits that are printed, and the twenty-two that are read |
| `Text.WhitespaceWrittenOut` | crates/tailsfer-rendezvous/src/main.rs:75 | the whitespace characters, one by one |
| `Text.TrimExact` | src/crypto/encryption.rs:48 | trimming takes all whitespace off both ends and nothing else |
| `FileHeaders.WriteTo` | src/transfer/format.rs:22-28 | succeeds if and only if 28 bytes fit, and what has been appended is the header's encoding as far as it fits |
| `FileHeaders.ReadFrom` | src/transfer/format.rs:30-54 | succeeds if and only if the stream starts with the encoding of a header, which it consumes precisely and returns; the error is the magic's if eight wrong bytes came, and the stream's otherwise |
| `FileHeaders.HeaderPrefixFree` | src/transfer/format.rs:22-54 | a stream that starts with a header starts with one header only, so what was written is what is read |
| `FileHeaders.HeaderWrittenOut` | src/transfer/format.rs:3-28 | a header is the eight bytes of TLSFR001, then version, size and chunk size, each number least significant byte first |
| `Streams.RecvStream.ReadExact` | src/transfer/format.rs:30-54 | gathers the requested bytes from any number of pieces, or fails because the stream is shorter |
| `Bytes.BigEndianRoundTrip` | src/transfer/offer.rs:153-171 | a number read from its own big-endian bytes is itself |
| `Bytes.FromBigEndianRoundTrip` | src/transfer/offer.rs:153-171 | bytes written from the number they spell are themselves |
| `Bytes.BigEndianAt` | src/transfer/offer.rs:46 | the byte that counts in steps of 256 to the power i stands i places from the end |
| `Bytes.LittleEndianAt` | src/transfer/format.rs:24-26 | and i places from the start |

## Left out

- EndToEnd: its conditions on names are those of a run; from the offers alone, and on no more than is needed, the promise is `Losing.ConfirmedFilesStay`.
- HashCheckIsEnough: likewise; from the offers alone it is `Losing.ConfirmedDespiteTampering`.
- NeverAMixture: transfers that overlap with the same file name and the same transfer id share one temporary file, and an offered name can be another transfer's temporary name; both are excluded by hypothesis, and `Losing.SpoilAndConfirm` and `Losing.ConfirmAndScribble` are runs that need it.
- RunIsPreserved: likewise; an old file under a temporary name is emptied by the program and therefore excepted.
- SafeFilenameOfValid: Unix paths only; Windows separators and drive prefixes are not modelled.
- Load: reading the file, a text that is not UTF-8 and text that is not JSON are one error; JSON itself is an abstract list codec with the law that reading undoes writing.
- Liveness: that a sender learns of success. The connection is closed right after the final frame and may drop it, so only safety is claimed; `Misleading.UnheardExactly` proves that a saved file does not mean a completed sender.
- QUIC, TLS, certificates and ALPN: only the ordered byte stream is used, with dropping of undelivered bytes.
- BLAKE3, zstd and ChaCha20-Poly1305: a hash is any state machine fed bytes, compression and encryption are functions with the laws that they can be undone and that a ciphertext is 16 bytes longer (section 2.8 of RFC 8439); freedom from collisions appears only as a hypothesis.
- Counters are 64 bits and wrap, as in a release build (a debug build panics instead), which can matter to the pipeline and to files beyond 2^62 bytes only.
- A read of zero bytes that is not the end of the stream ends the copy loop; it is modelled for the program itself (`Node`), not in the interleaved model, where QUIC delivers at least one byte.
- File system details: limits on name lengths, permissions, hard links and running out of handles are a file operation that fails; writes reach the file at once.
- Console prompts, environment variables, MIME detection, random ids and nonces and clocks are inputs; printed text is modelled as the byte counts at which progress lines are printed, percentages are not.
- The text of error messages that quote numbers or paths is shortened to its fixed part.
- How a socket address is printed and parsed is a parameter; failing to write a reply, and lines that are not UTF-8, are not modelled.
- The stream reader of the pipeline: the repository has none, so reading records back is defined from the record layout the writer uses.
- `src/mvp.rs`: its transfer setters and percentages are unguarded assignments; `DeviceInfo` and the store's path are not modelled.
- `src/transfer/packer.rs`, `src/transfer/chunk.rs`, `src/identity/mod.rs`, `src/rendezvous/client.rs`, the API and relay crates and the `.bak2` copy of the node: thin, bound to I/O, or unused.
