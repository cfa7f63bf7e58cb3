# TCPClient, verified

A Dafny model of the file-transfer engine of a single-threaded chat client and of the framing layer it runs on, with
proofs of what the client promises about them.

- **Codec** (`Bytes`, `Protocol`, `InitFrame`, `Messages`, `Decimal`): big-endian fields, the frame builders, the
  incremental parser, the INIT payload, the transfer messages, decimal text.
- **Stream** (`Stream`): the growable read buffer and its recv, parse, dispatch, memmove cycle.
- **Files** (`Chunks`, `Bitmap`, `Assembly`, `Naming`): the chunk plan, the duplicate bitmap, putting a file together out
  of order, safe and unique names.
- **Engine** (`Transfer`): the state of the transfer module as a value, one function per C function, and runs over
  commands, announcements, frames, errors, ticks and resets. `FileTransfer` is the same module with its state updated in
  place (slot array, separately allocated bitmaps, frame buffers), each method proved to make the step of `Transfer` and
  to write exactly the encodings of the recorded messages.
- **Theorems about runs**: `ReceiveTable` (table and directory), `Delivery`, `Completion` and `EndToEnd` (the file that
  is kept is the source, and it is kept), `SenderTrace`, `SenderTiming` and `SenderProgress` (what the sender says, when,
  and how far it is), `InitQueue` (how INIT frames find their task), `DualSignal` (announcement and frame for the same
  thing), `Reachable` (runs that reach the exceptions), `Log` (what was sent has no effect later), `Signals`
  (what each signal of the server does and leaves alone), `Operations` (what each handler achieves, and what it answers).
- **Input lines** (`Commands`, `CommandLines`): trimming, tokenising, what each line means, and the frames chat commands
  become.

What the environment decides is a parameter of each event: whether a file opens, a read or write succeeds, memory is
there, the connection still takes a frame. Once a send has failed the connection stays down. No other process touches
`downloads/`, and the source file does not change while it is open (a file that shrank is a failing read). The chunk size
is 65500 throughout, and any positive number in `Chunks`.

Where the code and its own documentation differ, the model follows the code:

- `src/file.c:183` compares a plain `char` with 0x20. On the one platform the project builds for, char is signed, so
  bytes from 0x80 up become `_` as well; the header (`include/file.h:176`) speaks of bytes below 0x20 only.
  `SanitizeAsDocumented` says that its account is right exactly for names without such bytes; `NonAsciiNamesCollide` and
  `TwoAccents` are names for which it is wrong.
- `include/protocol.h:122` announces -1 for an oversized payload; the parser never answers that.
- The builders are documented without a payload limit below 1 MiB, but cast the length to 16 bits; `CastFrameExact` and
  `CutFrameExact` give the exact limit, and the callers are proved to stay below it.
- `docs/specs/M4-文件传输.md:16` and `:54` disagree on chunks per tick (4 and 2); the code sends 2.
- Announcement and frame are called idempotent. `AcceptTwice` and `RejectTwice` hold in every state. The second CANCEL is
  without effect exactly when at most one task held the id (`CancelTwice`). Of COMPLETE announced first and framed second,
  the frame is without effect exactly when the announcement left no receiving task with the id
  (`CompleteAnnouncedFirst`). The other way round, the announcement is without effect exactly when at most one receiving
  task held the id and no sender awaits its confirmation (`CompleteFramedFirst`), because the frame never counts for a
  sender. `Reachable` has runs that reach each exception.
- The sequence number is said to tie each INIT to its announcement; `FiledExactly` and `InitSlipsAfterClear` say when it
  does, `EveryTaskItsOwnInit` that it does in orderly runs, and `InitOfCancelled` gives a run in which it does not.

## Model

| member | source | states |
|---|---|---|
| `Bytes.ReadAfterWrite` | include/utils.h:72-115 | Each big-endian reader returns what the writer of the same width stored, whatever follows in the buffer |
| `Bytes.WriteU16` | include/utils.h:77-81 | Stores the two-byte big-endian form at its position and changes no other byte |
| `Bytes.WriteU32` | include/utils.h:89-95 | The same for four bytes |
| `Bytes.WriteU64` | include/utils.h:105-115 | The same for eight bytes |
| `Bytes.ReadU64Meaning` | include/utils.h:97-103 | The shifted reads are the value of the bytes as a base-256 number |
| `Decimal.ParseU64Range` | src/utils.c:55-72 | Succeeds exactly on non-empty all-digit ranges worth at most 2^64-1, with that value; the early overflow exit rejects nothing else |
| `Decimal.PrintThenParse` | src/file.c:401-402 | A size printed with %llu is read back as the same number |
| `Protocol.EncodeLayout` | src/protocol.c:9-28 | A frame is 0xCA 0xFE, the type, the length in two bytes with the high one first, and the payload |
| `Protocol.ParseEncoded` | src/protocol.c:217-250 | Parsing inverts encoding for every frame, whatever follows it in the stream |
| `Protocol.ParseInverse` | src/protocol.c:217-250 | What a parse consumed is the encoding of the frame it returned |
| `Protocol.ParseStable` | src/protocol.c:221-249 | A frame or an error, once reported, is not changed by later bytes |
| `Protocol.ParsePrefix` | src/protocol.c:221-242 | No proper prefix of a frame is taken for a frame or an error |
| `Protocol.UniqueDecoding` | src/protocol.c:217-250 | A stream starts with at most one frame and leaves one remainder |
| `Protocol.CastFrameExact` | src/protocol.c:52-114 | text2/text3 style frames decode to their payload if and only if it has at most 65535 bytes, although 1 MiB is accepted |
| `Protocol.CutFrameExact` | src/protocol.c:33-44 | The same limit for text1, which beyond it emits a well-formed frame with a cut payload |
| `Protocol.BuildFrame` | src/protocol.c:9-28 | Refuses exactly when the buffer is too small, else the buffer holds the encoding in front and its old bytes behind |
| `Protocol.BuildText1` | src/protocol.c:33-44 | The same for one text, with the 16-bit cast of the length |
| `Protocol.BuildText2` | src/protocol.c:52-77 | The same for two texts, with the handwritten header |
| `Protocol.BuildText3` | src/protocol.c:87-114 | The same for three texts |
| `Protocol.BuildTid` | src/protocol.c:122-128 | The same for a transfer id |
| `Protocol.BuildChunk` | src/protocol.c:137-162 | The same for a chunk |
| `Stream.DecodeConcat` | src/app.c:231-255 | Decoding may stop at any byte and resume on the remainder; after an error nothing more comes out |
| `Stream.RestBound` | src/app.c:231-255 | After an error-free dispatch at most 65539 bytes remain |
| `Stream.DecodeEncoded` | src/app.c:231-251 | Frames sent back to back are decoded as exactly these frames with nothing left over |
| `Stream.FragmentationIndependence` | src/app.c:231-288 | However the stream is split into recv segments, the loop hands over exactly the frames of one-shot decoding and stops at the same error |
| `Stream.FramesArriveIntact` | src/app.c:231-288 | A peer's frames are handled once each and in order under every split |
| `Stream.App.EnsureCapacity` | src/app.c:30-51 | Room is left or the buffer is doubled, contents kept; fails exactly when full and at the cap or out of memory |
| `Stream.App.HandOver` | src/app.c:231-251 | The parse loop hands over exactly the frames of decoding the buffer and stops where the rest begins |
| `Stream.App.Compact` | src/app.c:252-254 | The unconsumed bytes become the whole buffer |
| `Stream.App.Dispatch` | src/app.c:231-255 | One dispatch is one decoding of the buffer: frames, rest and running flag; the loop invariant holds afterwards |
| `Stream.App.HandleSocket` | src/app.c:263-288 | One round is Receive on the abstract reader; the 256 KiB branch is never reached and the buffer never doubles past 128 KiB |
| `Stream.App.Room` | src/app.c:263-271 | In the main loop every recv is offered at least one byte |
| `Chunks.CountIsCeiling` | src/file.c:240-246 | An index is planned exactly when its first byte lies in the file |
| `Chunks.PlanBounds` | src/file.c:248-260 | Planned spans are non-empty, at most a chunk long, inside the file, computed without 64-bit overflow; only the last is short |
| `Chunks.PlanContiguous` | src/file.c:248-260 | Each span starts where its predecessor ends, the last ends the file |
| `Chunks.PlanTiles` | src/file.c:240-260 | Every position lies in exactly one planned span, none past the end |
| `Bitmap.SpanOkMeaning` | src/file.c:284-299 | With the bitmap /accept allots, the check passes exactly the non-empty starts of planned chunks not yet marked |
| `Bitmap.MarkAdds` | src/file.c:301-310 | Marking a chunk adds it and changes no other |
| `Bitmap.CheckAfterMarks` | src/file.c:272-310 | After any sequence of marks the check rejects exactly empty, over-long, out-of-range, misaligned and repeated spans |
| `Bitmap.SpanCheck` | src/file.c:284-299 | Answers 0 exactly when the span is acceptable |
| `Bitmap.SpanMark` | src/file.c:301-310 | Sets exactly the chunk's bit in place, or refuses and changes nothing |
| `Assembly.PutKeeps` | src/file.c:950-963 | An accepted chunk keeps counter, bitmap and file in agreement with the chunks received |
| `Assembly.ReceivedCounts` | src/file.c:792-794 | The counter never exceeds the size and equals it exactly when every planned chunk is there at full length |
| `Assembly.CountingTheorem` | src/file.c:936-964 | Over every accepted sequence: no byte is written twice, the counter is the sum of lengths, and it reaches the size exactly when every byte was written once |
| `Assembly.CompleteContent` | src/file.c:792-812 | When the counter reaches the size the file is exactly the accepted chunks at their offsets |
| `Assembly.FullIsSource` | src/file.c:792-812 | A complete receive of the sender's chunks is the source file |
| `Naming.SanitizeSafe` | src/file.c:163-187 | An accepted name has no separator, no byte below 0x20 and none from 0x80 up, and is neither empty, a dot name nor too long |
| `Naming.SanitizeIdempotent` | src/file.c:163-187 | Sanitising twice changes nothing more |
| `Naming.SanitizeRefuses` | src/file.c:163-180 | Only the part after the last separator matters, refused exactly when empty, a dot name or too long |
| `Naming.SanitizeAsDocumented` | include/file.h:170-178 | What the header says of an accepted name is true if and only if the name has no byte from 0x80 up |
| `Naming.SanitizeKeeps` | src/file.c:182-185 | An acceptable name is kept as it is if and only if all its bytes are from 0x20 to 0x7F |
| `Naming.NonAsciiNamesCollide` | src/file.c:182-185 | All names of one length without an ASCII byte come out as the same row of underscores, unlike what the header says |
| `Naming.TwoAccents` | src/file.c:182-185 | For instance U+00E9 and U+00EA in UTF-8 |
| `Naming.SanitizeInto` | src/file.c:163-187 | The loops write exactly the sanitised, terminated name, or nothing |
| `Naming.SanitizedName` | src/file.c:1002-1006 | The caller reads the sanitised name back from its buffer |
| `Naming.UniqueNameLeast` | src/file.c:200-224 | The answer is the free candidate with the least index and fits the caller's buffer |
| `Naming.CandidateForm` | src/file.c:206-211 | The first candidate is the name itself, the i-th adds a blank and i in parentheses, in decimal without leading zeros |
| `Naming.CandidatesDistinct` | src/file.c:204-211 | Different indices give different candidates |
| `Naming.UniqueNameSucceeds` | src/file.c:200-224 | For any probe: with fewer than 1000 of the candidates taken and room for the suffix the search succeeds |
| `Naming.SaveNameFound` | src/file.c:718-726 | For the probe of downloads/ and a base of at most 249 bytes: a name is found if and only if one of the 1000 candidates is free, so always with fewer than 1000 files |
| `Naming.LongBaseRefused` | src/file.c:200-224 | From 250 bytes on 100 files are enough for a refusal although a candidate is free |
| `Naming.ChosenName` | src/file.c:1002-1011 | The name chosen for an offered file is the first of the numbered forms of its cleaned last part that is no file of the directory |
| `Naming.SavedUnderPath` | src/file.c:1002-1011 | For a path that is its last part, cleaned, itself when no file has that name; a printable ASCII name that is free is kept as it is |
| `Naming.UniqueNameSafe` | src/file.c:200-224 | Numbering a safe name keeps it safe |
| `Naming.FindUniqueName` | src/file.c:200-224 | The probing loop returns that candidate |
| `Commands.SplitSound` | src/commands.c:74-102 | An accepted line is blanks, name, blanks, text |
| `Commands.SplitComplete` | src/commands.c:74-102 | Every such line with a short enough name is accepted with exactly that name and text |
| `Commands.ParseNameAndText` | src/commands.c:159-187 | The pointer walk of /priv and /gmsg computes that split |
| `Commands.ParseSendfile` | src/commands.c:104-137 | The same walk for /sendfile, with the file name limited to 255 bytes |
| `CommandLines.SendfileSplit` | src/commands.c:104-137 | The arguments of /sendfile are found exactly when the receiver has 1 to 31 bytes and the file name 1 to 255 |
| `Commands.TidArgExact` | src/commands.c:139-157 | After leading blanks exactly the digit strings worth at most 2^32-1 are accepted, with their value |
| `Commands.ParseTidArg` | src/commands.c:139-157 | The loop and the range checks compute that answer |
| `Commands.IntentParts` | src/commands.c:222-341 | The parts a line is split into are C strings that together fit the line |
| `Commands.LineSurvivesTheWire` | src/commands.c:222-341 | Every line's frame has an exact 16-bit length and decodes to exactly the tokenised parts |
| `CommandLines.ChatLine` | src/commands.c:334-340 | A non-empty line without a leading slash becomes one frame of type 0x02 with the line as its text |
| `CommandLines.GroupLine` | src/commands.c:196-220 | /gcreate, /gjoin, /gleave become 0x04, 0x05, 0x06 with the group name when it has 1 to 31 bytes, and otherwise nothing |
| `CommandLines.PairLine` | src/commands.c:248-308 | /priv and /gmsg become 0x03 and 0x07 with the name and the text behind it when the name has at most 31 bytes, and otherwise nothing |
| `CommandLines.PairUsage` | src/commands.c:74-102 | Without a short name and a text they become nothing |
| `CommandLines.WordLine` | src/commands.c:226-274 | The empty line, /quit, /help and /login mean what they say, and /users becomes an empty frame of type 0x08 |
| `CommandLines.SendfileLine` | src/commands.c:309-313 | /sendfile means its receiver and its file name, blanks inside the file name included |
| `CommandLines.SendfileUsage` | src/commands.c:104-137 | Without both it means nothing |
| `CommandLines.TidLine` | src/commands.c:314-328 | /accept, /reject and /cancel mean their id when it is a decimal number below 2^32, and otherwise nothing |
| `CommandLines.WordWithArguments` | src/commands.c:229-240 | A word that stands alone is unknown with anything behind it |
| `CommandLines.UnknownLine` | src/commands.c:329-332 | So is every other line with a leading slash |
| `Commands.HandleLine` | src/commands.c:222-341 | For the chat commands: builds the one frame with the type and texts the line says, or none when it says nothing, in the buffer the command declares |
| `Commands.TrimmedExactly` | src/utils.c:40-47 | Exactly the line ends at the end of a string are cut |
| `Commands.TrimNewline` | src/utils.c:40-47 | The loop cuts exactly these, in place |
| `Commands.InputLineFits` | src/app.c:294-313 | The 65536-byte input buffer and the trimming leave at most 65534 bytes; a line is dropped exactly when its end was cut off |
| `Commands.InputLineExactly` | src/app.c:294-313 | What was typed before the line end is what the command sees |
| `InitFrame.ParseInitExact` | src/file.c:94-155 | On three NUL-terminated fields the parser accepts exactly in-bound names and a decimal u64 size, and returns them |
| `InitFrame.ParseInitSound` | src/file.c:94-155 | Nothing else is accepted |
| `InitFrame.ParseInitLength` | src/file.c:530-569 | An acceptable INIT payload has at least 6 bytes, so routing 4-byte payloads as control frames loses none |
| `InitFrame.InitRoundTrip` | src/file.c:400-405 | From text3 framing through protocol_parse to the INIT parser the triple is unchanged |
| `Messages.MessageRoundTrip` | include/protocol.h:16-21 | Every message of the engine is read back from its frame by the protocol's type numbers and layouts, part by part |
| `Messages.RunSendable` | src/file.c:350-697 | Over all runs every message sent is one that can be read back |
| `Transfer.FindFrom` | src/file.c:732-740 | The first busy slot with the id, -1 exactly when there is none |
| `Transfer.ActiveFrom` | src/file.c:743-751 | The first busy slot with an open file, -1 exactly when there is none |
| `Transfer.FreeFrom` | src/file.c:754-762 | The first free slot, -1 exactly when the table is full |
| `Transfer.Oldest` | src/file.c:913-920 | An unfilled task with the smallest announcement number, -1 exactly when there is none |
| `ReceiveTable.ClearKeeps` | src/file.c:768-784 | Clearing any slot keeps the table and directory invariant |
| `ReceiveTable.FinishKeeps` | src/file.c:792-812 | So does finishing, whether the file is kept or removed |
| `ReceiveTable.StoreKeeps` | src/file.c:957-963 | So does an accepted chunk |
| `ReceiveTable.TornFileGone` | src/file.c:957-961 | Whatever a failed write left behind is removed with the file |
| `ReceiveTable.AcceptMeaning` | src/file.c:966-1056 | /accept does nothing, or drops the task touching no file, or opens a file that did not exist, named after the offer, cleaned and with the least free number |
| `ReceiveTable.StepKeeps` | src/file.c:350-1094 | Every event keeps: zeroed free slots, empty pending slots, one open receive with an exact bitmap, counter and file in agreement, directory accounted for |
| `ReceiveTable.RunSafe` | src/file.c:350-1094 | The invariant holds after every run from every initial directory |
| `ReceiveTable.RunDirectory` | src/file.c:768-1056 | After any run: old files untouched, completed files unchanged under names that were free, and at most one other file, that of the open receive |
| `Delivery.StepFate` | src/file.c:350-1094 | An event leaves an open receive untouched, drops it, keeps its file because the count is right, or stores one acceptable chunk |
| `Delivery.StepSameTasks` | src/file.c:872-927 | Tasks arise only from announcements; id, number and, once filled in, sender, name and size never change |
| `Delivery.PlannedChunkRoundTrip` | src/protocol.c:137-162 | Every planned chunk fits an exact 16-bit length and arrives as the id, offset and bytes it left with |
| `Delivery.StepTracks` | src/file.c:936-964 | Any event with genuine chunks keeps the open receive made of genuine chunks, and what it completes is the source |
| `Delivery.DeliverySafe` | src/file.c:792-964 | Under any reordering, loss and repetition of the sender's chunks and any other events, a file completed under the id is the source |
| `Completion.HarmlessUntouched` | src/file.c:350-1094 | Events that do not concern the open receive leave it and its file alone |
| `Completion.DeliveryComplete` | src/file.c:820-831 | When every chunk arrives once, in any order, no write fails and nothing ends the receive, the completion signal keeps the source file |
| `Completion.AcceptCollects` | src/file.c:1022-1055 | A successful /accept starts such a receive |
| `EndToEnd.AllWords` | src/file.c:350-697 | Over every run the sender's frames are a sequence of such task words, the one in progress included |
| `EndToEnd.ChunkOfWords` | src/file.c:643-678 | A chunk among a sender's frames is a planned chunk of the file of one of its tasks |
| `EndToEnd.EndToEndDelivery` | src/file.c:621-964 | Any sender run, adversarial relay, any receiver run: a file completed under the id is the sender's file and is in downloads/ under a new name |
| `EndToEnd.EndToEndComplete` | src/file.c:621-964 | When a task of the sender got as far as COMPLETE, the relay passes each of its chunks once in any order and the completion signal comes, the receiver keeps the sender's file |
| `EndToEnd.AcceptedAsOffered` | src/file.c:904-1056 | With INITs in order and ids announced once, the accepted size is the one sent with the id, and no other task has the id |
| `EndToEnd.FileArrives` | src/file.c:350-1056 | From the sender's /sendfile in any idle state to the receiver's directory: the file arrives byte for byte, under the name it was offered with, cleaned and with the least free number, whatever else both clients do in between |
| `SenderTrace.SendChunkMeaning` | src/file.c:643-691 | A pass sends exactly the next planned chunk of the file, or fails cleanly; the plan-failure branch is unreachable |
| `SenderTrace.StepTraced` | src/file.c:350-709 | Every event extends the sender's frames within the language |
| `SenderTrace.SenderLanguage` | src/file.c:350-697 | Over all runs the sender's frames are words INIT, chunk 0, chunk 1, ... without gap, COMPLETE once after the last chunk, nothing after the own CANCEL; the file cursor equals sent |
| `SenderTiming.CompleteIsLater` | src/file.c:629-642 | COMPLETE is sent alone, in a tick after the one that drained the file; other ticks send at most two frames, chunks or a CANCEL of the task |
| `SenderTiming.OnlyTicksSend` | src/file.c:350-525 | Every other event puts at most one frame of the sender on the wire, the INIT of a /sendfile or the CANCEL of a /cancel |
| `SenderTiming.ConsentFirst` | src/file.c:484-488 | A task that may send was accepted under its id while waiting, with no INIT since |
| `SenderTiming.ConsentBefore` | src/file.c:484-488 | Over all runs: every CHUNK and every COMPLETE on the wire has an ACCEPT for its id before it, received while the task was waiting, with no INIT between them |
| `SenderTiming.InitFromCommand` | src/file.c:350-413 | Over all runs: every INIT on the wire is that of a /sendfile that found the slot idle, with the length of the non-empty file it opened |
| `SenderTiming.CompleteAlone` | src/file.c:629-642 | Over all runs: the event that put a COMPLETE on the wire is a tick that found every chunk sent by earlier events and sent nothing else |
| `SenderProgress.GoodTick` | src/file.c:643-695 | A tick without failure sends two chunks or the last one, and drains the task exactly then |
| `SenderProgress.StepSpares` | src/file.c:469-601 | An event that by its kind, its id and the state of the send task does not concern it leaves the task, its frames and the connection alone |
| `SenderProgress.TransferTime` | src/file.c:621-697 | With any events that do not concern the task between the ticks, a file of n chunks is being sent for ceil(n/2) ticks, COMPLETE follows in the next, and one line is printed per full MiB sent |
| `SenderProgress.FileGoesOut` | src/file.c:350-697 | From /sendfile in any idle, connected state over the id and the consent to the last tick: the sender's frames are at every moment exactly INIT, the first 2n chunks after n ticks, and COMPLETE a tick later |
| `InitQueue.AnnounceEnqueues` | src/file.c:872-891 | An announcement joins the end of the queue of waiting tasks, unless the table is full |
| `InitQueue.InitDequeues` | src/file.c:904-927 | A well-formed INIT fills the head of the queue, wherever its slot is, and removes it |
| `InitQueue.ClearRemoves` | src/file.c:768-784 | Clearing a waiting task takes exactly it out of the queue; clearing another changes nothing |
| `InitQueue.FiledExactly` | src/file.c:913-926 | An INIT reaches a waiting task if and only if that task heads the queue |
| `InitQueue.InitSlipsAfterClear` | src/file.c:866-871 | When the head is cleared before its INIT, the INIT fills the next task instead |
| `InitQueue.EveryTaskItsOwnInit` | src/file.c:872-927 | With INITs in announcement order, no full table and no early clearing, every task holds its own transfer's details |
| `InitQueue.TableIdsDistinct` | src/file.c:872-891 | When ids are announced once, the ids in the table are distinct |
| `DualSignal.FrameForms` | src/file.c:530-565 | A control frame's four bytes lead to the same transition as the announcement |
| `Signals.Rejection` | src/file.c:489-545 | A rejection, announced or framed, ends the send task with its id and does nothing else, or nothing at all |
| `Signals.Consent` | src/file.c:484-539 | A consent sets the waiting task with its id going and does nothing else, or nothing at all |
| `Signals.IdGiven` | src/file.c:477-483 | The id goes to the task whose INIT is unconfirmed, and to no other |
| `Signals.Cancellation` | src/file.c:496-556 | A cancellation, in any of its three forms, takes exactly one holder of the id, the sender first, with its partial file, and does nothing else |
| `Signals.CompletionSignals` | src/file.c:508-560 | A completion confirms a waiting sender if announced, else ends the first receiving task with the id, keeping its file exactly when every byte was counted, and does nothing else |
| `Signals.Incoming` | src/file.c:872-891 | An incoming transfer takes the first free slot and the next number and nothing else; on a full table only REJECT goes out |
| `Signals.InitSignal` | src/file.c:904-927 | An INIT frame changes the details of the task that waits longest, and nothing else, or nothing at all |
| `Signals.ChunkSignal` | src/file.c:936-964 | A chunk concerns only the open receive with its id, its file, and the answer when it ends |
| `Signals.OtherFrames` | src/file.c:527-576 | No other frame touches a transfer |
| `DualSignal.AcceptTwice` | src/file.c:484-488 | A second ACCEPT, after any ticks, changes nothing |
| `DualSignal.RejectTwice` | src/file.c:489-495 | Nor does a second REJECT |
| `DualSignal.CancelTwice` | src/file.c:496-507 | A second CANCEL changes nothing if and only if at most one task had the id |
| `DualSignal.CancelBothSides` | src/file.c:546-556 | In a transfer to oneself the pair removes both tasks |
| `DualSignal.CompleteForms` | src/file.c:508-517 | The two forms of a completion act alike if and only if no send task with the id awaits its confirmation; the frame never reaches the sender |
| `DualSignal.CompleteAnnouncedFirst` | src/file.c:508-560 | In any state: a frame behind the announcement changes nothing if and only if the announcement left no receiving task with the id |
| `DualSignal.CompleteFramedFirst` | src/file.c:508-560 | In any state: an announcement behind the frame changes nothing if and only if by then no send task awaits confirmation and at most one receiving task had the id |
| `DualSignal.CompleteBothSides` | src/file.c:508-560 | In a transfer to oneself the pair finishes both sides in either order |
| `Reachable.CancelTwiceActs` | src/file.c:496-507 | A run from the start after which the second CANCEL acts: a client sends itself a file |
| `Reachable.CompleteTwiceActs` | src/file.c:508-517 | A run after which the second completion signal acts, in the one order for a sender, in the other for a transfer to oneself |
| `Reachable.TwoSlotsTwiceActs` | src/file.c:872-891 | A run after which both second signals act because the id was announced twice |
| `Reachable.InitOfCancelled` | src/file.c:904-927 | A run in which a task gets the details of a transfer cancelled before its INIT, with INITs in order and room in the table |
| `Operations.CancelMeaning` | src/file.c:422-467 | Exactly one holder of the id goes and CANCEL goes out, or nothing changes but the connection |
| `Operations.RejectMeaning` | src/file.c:1058-1094 | Only a task not yet receiving is dropped, with REJECT on the wire and no file touched |
| `Operations.AcceptWire` | src/file.c:966-1056 | On any table: nothing happens, or ACCEPT is out and the receive opened, or REJECT is out (or the connection down) and the task gone, or only ACCEPT failed, the task is gone and -1 returned; and which of these when |
| `Operations.AcceptSucceeds` | src/file.c:966-1056 | With fewer than 1000 files a proper name of at most 249 bytes is no reason to refuse: when nothing fails the receive is opened under the cleaned name, or its first free numbered form |
| `Operations.SendFileCode` | src/file.c:350-420 | /sendfile answers -1 exactly when its INIT could not be sent, and then leaves the slot idle; it takes the slot exactly when INIT went out |
| `Operations.TickCode` | src/file.c:621-697 | A tick answers -1 exactly when a chunk or COMPLETE could not be sent; a failed read never does |
| `Log.RunLogged` | src/file.c:350-1094 | What was sent never changes what happens later |
| `Log.FullTableNoTrace` | src/file.c:872-883 | An announcement that meets a full table leaves every later state as it would have been, but for its REJECT in the log |
| `Operations.ChunkVerdict` | src/file.c:946-963 | A chunk is stored and counted exactly when it passes the check and is written; otherwise the receive ends, its file goes and CANCEL goes out |
| `Operations.CompletionVerdict` | src/file.c:792-831 | The file stays and is reported exactly when the byte count is right; the slot is freed either way |
| `Operations.ErrorMeaning` | src/file.c:578-601 | Error 300 ends the send task and the open receive but no waiting task; 200 only an unconfirmed send; others nothing |
| `Operations.ResetMeaning` | src/file.c:699-710 | No task and no partial file is left |
| `FileTransfer.WireDecodes` | src/file.c:640-678 | The bytes handed to the connection decode to exactly the recorded messages |
| `FileTransfer.WireUnderstood` | src/file.c:350-697 | And each decoded frame reads as the message it was sent as |
| `FileTransfer.Transfers.constructor` | src/file.c:327-333 | The module starts idle with eight zeroed slots |
| `FileTransfer.Transfers.SendAll` | src/file.c:410-413 | Appends the whole frame or fails for good |
| `FileTransfer.Transfers.SendTid` | src/protocol.c:122-128 | Builds and sends exactly the frame of the message |
| `FileTransfer.Transfers.SendInit` | src/file.c:400-413 | Builds INIT in the caller's buffer; the bytes sent parse to receiver, file name and size in this order |
| `FileTransfer.Transfers.SendChunkFrame` | src/file.c:667-674 | The same for a chunk |
| `FileTransfer.Transfers.TaskFind` | src/file.c:732-740 | The slot scan finds the task of the id |
| `FileTransfer.Transfers.TaskActive` | src/file.c:743-751 | The slot scan finds the open receive |
| `FileTransfer.Transfers.TaskSlot` | src/file.c:754-762 | The slot scan finds the first free slot |
| `FileTransfer.Transfers.OldestUnfilled` | src/file.c:913-920 | The scan finds the unfilled task announced first |
| `FileTransfer.Transfers.TaskClear` | src/file.c:768-784 | In place: the slot is zeroed, its bitmap freed, its file removed |
| `FileTransfer.Transfers.TaskFinish` | src/file.c:792-812 | In place: the file is kept exactly when the count is right |
| `FileTransfer.Transfers.TaskComplete` | src/file.c:820-831 | In place: completion by id |
| `FileTransfer.Transfers.TaskAbort` | src/file.c:837-848 | In place: CANCEL and clear |
| `FileTransfer.Transfers.TaskReject` | src/file.c:853-862 | In place: REJECT and clear |
| `FileTransfer.Transfers.AnnounceIncoming` | src/file.c:872-891 | In place: a numbered pending task, or REJECT |
| `FileTransfer.Transfers.HandleInit` | src/file.c:904-927 | In place: fills the oldest unfilled task |
| `FileTransfer.Transfers.SlotCheck` | src/file.c:950-951 | The check against the slot's own bitmap |
| `FileTransfer.Transfers.SlotMark` | src/file.c:962-963 | The bit set in the slot's bitmap and the counter; no other slot's bitmap changes |
| `FileTransfer.Transfers.StoreChunk` | src/file.c:957-963 | Positioned write, mark and count |
| `FileTransfer.Transfers.HandleChunk` | src/file.c:936-964 | In place: the whole chunk handler |
| `FileTransfer.Transfers.HandleAnnouncement` | src/file.c:469-525 | In place: the transition of the classified announcement |
| `FileTransfer.Transfers.HandleFrame` | src/file.c:527-576 | In place: the transition of the frame |
| `FileTransfer.Transfers.HandleError` | src/file.c:578-601 | In place: the transition of the error code |
| `FileTransfer.Transfers.CmdSendfile` | src/file.c:350-420 | In place: /sendfile from its input line, with the return code; the bytes sent parse to the receiver and file name of the line and the file's length |
| `FileTransfer.Transfers.CmdCancel` | src/file.c:422-467 | In place: /cancel from its input line |
| `FileTransfer.Transfers.CmdReject` | src/file.c:1058-1094 | In place: /reject from its input line |
| `FileTransfer.Transfers.CmdAccept` | src/file.c:966-1056 | In place: /accept from its input line |
| `FileTransfer.Transfers.NewBitmap` | src/file.c:1022-1029 | A fresh zeroed bitmap of the size's length |
| `FileTransfer.Transfers.SendOneChunk` | src/file.c:646-690 | In place: one pass of the chunk loop |
| `FileTransfer.Transfers.SendRound` | src/file.c:643-691 | In place: the chunk loop |
| `FileTransfer.Transfers.SendTick` | src/file.c:621-697 | In place: the tick, with the return code |
| `FileTransfer.Transfers.Reset` | src/file.c:699-710 | In place: every task cleared |

## Left out

- Sockets, poll, signals, the login loop, credentials and `src/conn.c`: sending is "the whole frame or failure for good".
- The buffer bound is stated for the main loop only: during login whole frames may stay queued after an auth error.
- `app_handle_frame`: `Stream` records the frames handed over; the transfer frames' own routing is `Transfer.HandleFrame`.
- Terminal output, prompts, help and logging; the progress lines are counted, the notice of a kept file is recorded.
- The server: it is whatever sequence of events and chunks the theorems quantify over.
- `file_parse_announcement`: announcements arrive classified, because file or user names that contain its marker phrases
  change what the `strstr` chain answers.
- The forward scan for a magic number in `protocol_parse`, which answers -1 on both ways out.
- `protocol_build_error` and `protocol_build_raw`, which the client never calls.
- stdio buffering and failing `fclose` or `remove`; what a failed write leaves behind is arbitrary.
- 32-bit `long`, and wrap-around of the announcement counter after 2^64 announcements.
- Names of files other than in `downloads/`: the path buffer limit is modelled, directories above it are not.
- Commands.HandleLine: covers the chat commands; /login sends credentials and is not modelled, and the four transfer
  commands are proved separately as methods of `FileTransfer.Transfers`.
- Completion.DeliveryComplete: the events allowed in between are those that do not name this id or clear every receive.
- SenderProgress.TransferTime: speaks of ticks; that ticks happen only in poll rounds that time out is not modelled.
