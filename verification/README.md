# gmmff: verified model of the transfer, schedule, signaling and archive logic

gmmff moves files between two people. This project models its five pieces of real logic in Dafny and proves what
they promise:

- **Chunk transfer** (`internal/transfer/transfer.go`). A sliding-window sender and a receiver exchange frames over
  two FIFO channels; the disk receiver keeps a partial file, a running hash and a JSON sidecar so that a later
  session can resume. Modules `Frames`, `Names`, `Receiver`, `ReceiverProofs`, `SendLoop`, `Window`, `Resume`,
  `Survival`, `Codecs`, `ReceiverAnswers`, `NameRules`.
- **Cron engine** (`internal/schedule/cleanup.go`). A 5-field parser and a search for the next firing time that jumps
  over months, days and hours. Modules `Calendar`, `CronNext`, `CronCycle`, `CronFields`,
  `CronText`, `CronGrammar`.
- **Scheduled upload and download** (`internal/schedule/client.go`, `handler.go`, `store.go`). Encrypting chunk by
  chunk, ordered append, counted download, decryption in order. Modules `ScheduleStore`, `StoreRules`, `ScheduleClient`,
  `Downloads`.
- **Signaling hub** (`internal/broker/broker.go`, `internal/slot/slot.go`, `internal/store/store.go`). One loop over
  connections, slots and a code index. Modules `Slots`, `Hub`, `HubProofs`, `HubMembership`, `HubCounts`,
  `HubNotices`, `HubAnswers`.
- **ZIP writer** (`cmd/gmmff/schedule.go`). A hand-written STORE-only archive, read back by a reader that follows
  sections 4.3.7, 4.3.12 and 4.3.16 of PKWARE's APPNOTE.TXT. Modules `Crc`, `CrcValues`, `Zip`,
  `ZipLayout`.

Code that changes state is a class or a loop; each method is verified against a step function on values, and what is
promised over whole runs is proved about those functions. `dafny verify dfyconfig.toml` checks everything.

How outside things appear: SHA-256 and the JSON encodings are the function-valued fields of `Receiver.Codec` (JSON is
lossless and a truncated object does not parse: `Lossless`, which `Codecs.LosslessExists` shows can be met); AES-GCM is
the pair of functions `ScheduleClient.Aead`. Its two hypotheses exclude each other, so no result uses both: the round
trip takes it to open whatever it sealed (`CorrectExists`), the order check takes it to open what this upload sealed and
nothing else (`KeyExists`).
Answers of the operating system and the data channel are the fields of `Receiver.Env`, so every error branch is in the
model. Random identifiers, nonces and clock readings are parameters. Strings are byte sequences.

## Where the code does less than one might expect

Each of these is proved with the condition under which the code does meet the property.

- `sanitiseName` is idempotent exactly on names that do not end in a non-ASCII Unicode space once trailing dots and
  spaces are gone, because dots are trimmed after spaces (`SanitiseTwice`, `SanitiseNotIdempotent`). On ASCII names it
  always is.
- `parseStepPart` panics on `5/2` (`FiveSlashTwoCrashes`): `parseRange` indexes a part that is not there. `PartCrashes`
  and `ParseCron` say exactly when.
- A step so large that `v += step` overflows puts negative values into a field, as the month
  `1-12/9223372036854775807` does (`HugeStepMonth`); a field is within its bounds exactly when no step overflows
  (`StepValues`, `ParseField`).
- `next` looks 4*365 days ahead, so a schedule confined to 29 February can come back unmatched, and so can one with a
  weekday such as midnight of a Monday 1 January (`MondayNewYearMisses`). With the weekday unrestricted, it fires from
  every starting point exactly when some selected date exists in every year (`AlwaysFiresIff`); for every schedule,
  exactly when a check over the days of one 400-year cycle succeeds (`AlwaysFiresOverCycle`).
- When every chunk has arrived before a session is cut off and the last chunk is short, the resume offset lies past the
  end of the file. A regular file can seek there; the forward-only stream of `RunFromStream` cannot, and the session
  fails (`SeekPastEnd`, `RunFromReader`). Every file of one short chunk has such a history (`StreamCannotResume`).
- The seek offset is a 64-bit product: it is the offset of the chunk asked for exactly when it is below 2^63
  (`SeekOffsetIff`); chunk 2^49 of 32768 bytes seeks to the start of the file (`SeekToStart`).
- The chunk count of an upload is rounded up in 64 bits: it is the number of chunks exactly when that does not overflow
  (`ExpectedChunksIff`, `HonestSizeCounts`).
- A stream whose producer fails inside the skipped part cannot be positioned either (`SeekFails`, `SeekPastEnd`).
- A completed file whose name ends in `.gmmff_partial` or `.gmmff_meta` can be overwritten by a later transfer of the
  name without that ending, because the sanitiser keeps the ending; files survive later transfers exactly when they
  are none of their partials or sidecars (`SurvivesIff`, `CompletedFileIsLost`).
- A server that announces fewer chunks than were uploaded gets a truncated file accepted without error; the download
  is complete exactly when the announced total is the true one (`WrittenIsPrefix`, `ShorterTotalIsBelieved`).
- A sidecar removed by a concurrent delete can come back when a download rewrites its count (`SidecarReturnsIff`); the
  ciphertext and a removed directory never do.
- Chunk nonces carry a 32-bit index: they are pairwise distinct exactly up to 2^32 chunks (`NoncesDistinctIff`).
- A comment in `RunFromStream` speaks of 7 GB archives, but the archive stores 32-bit offsets; a recorded offset points
  at its local header exactly while that header starts below 4 GiB (`RecordedOffsetIff`).
- A connection that creates two slots leaves the first one behind when it disconnects (`TwoSlotsOrphanOne`). Membership
  agrees with connections exactly in the runs in which no connection creates or joins a slot while it is a member of a
  stored one (`StepAgreesIff`, `RuledIff`).

## Model

| member | source | states |
|---|---|---|
| Prelude.ChunkCountIs | internal/transfer/transfer.go:286-289 | rounding division gives the least k with k*size >= total |
| Prelude.CoveredNext | internal/transfer/transfer.go:314-318 | how the byte boundary moves from one chunk to the next, the last one possibly short |
| Endian.BigEndianKeeps | internal/transfer/transfer.go:416-422 | a fixed-width field read back is the value modulo 256^n |
| Endian.BigEndianOnto | internal/transfer/transfer.go:702-707 | every byte string of the width is the encoding of exactly the value read from it |
| Endian.LittleEndianKeeps | cmd/gmmff/schedule.go:669-674 | a little-endian field read back is the value modulo 256^n |
| Frames.ParseAckIff | internal/transfer/transfer.go:694-707 | a frame parses as an ack of q if and only if it starts with the frame built for q |
| Frames.ParseResumeIff | internal/transfer/transfer.go:710-723 | the same for resume frames |
| Frames.RelayedRoundTrip | internal/transfer/transfer.go:784-807 | the relayed text always survives; the sender's identity survives if and only if it has at most 255 bytes |
| Frames.ChunkBody | internal/transfer/transfer.go:416-422 | the body of a built chunk frame decodes to its number and payload |
| Names.SanitiseName | internal/transfer/transfer.go:840-863 | the filtering and repeated-replacement loops terminate and compute the specified name |
| Names.SanitiseIsSafe | internal/transfer/transfer.go:835-875 | for any bytes the result is non-empty, free of separators, colons, control bytes and "..", has no trailing dot or space and is no Windows device name |
| NameRules.ForbiddenIff | internal/transfer/transfer.go:843-850 | the removed bytes are the separators, the colon and the control characters |
| NameRules.DropPairs | internal/transfer/transfer.go:852-854 | the loop halves runs of dots down to one or none, and one pass of it is enough |
| NameRules.TrimLeftCutsSpaces | internal/transfer/transfer.go:855 | trimming on the left removes Unicode spaces only, and all of them |
| NameRules.TrimRightCutsSpaces | internal/transfer/transfer.go:855 | trimming on the right removes Unicode spaces only, and all of them |
| NameRules.DotsAndBlanksCut | internal/transfer/transfer.go:855 | the last trim removes dots and blanks only, and all of them |
| NameRules.SpaceRuneIff | internal/transfer/transfer.go:855 | a space is the UTF-8 encoding of a code point with the White_Space property |
| NameRules.ReservedIff | internal/transfer/transfer.go:866-875 | a name is reserved if and only if what stands before its first dot is, in any case, one of the 22 device names |
| NameRules.StemEndsAtFirstDot | internal/transfer/transfer.go:868 | the stem is everything before the first dot |
| NameRules.FixedNames | internal/transfer/transfer.go:491-494 | the fallback name and the two suffixes, spelled out |
| Names.SanitiseKeepsOrdinaries | internal/transfer/transfer.go:840-863 | visible ASCII characters other than separators, colon and dot survive in their order, with one underscore in front if and only if the name is a device name; the fallback is used only when there are none |
| Names.SanitiseFixpoints | internal/transfer/transfer.go:840-863 | a name passes unchanged if and only if it is safe and does not end in a Unicode space |
| Names.SanitiseTwice | internal/transfer/transfer.go:840-863 | a second pass changes nothing if and only if the cleaned name does not end in a Unicode space once its trailing dots and spaces go |
| Names.SanitiseNotIdempotent | internal/transfer/transfer.go:855 | a concrete name on which the second pass changes the result |
| Names.SanitiseAsciiIdempotent | internal/transfer/transfer.go:840-863 | on ASCII names sanitising is idempotent |
| Names.CandidateInjective | internal/transfer/transfer.go:883-886 | different numbers give different "name (N).ext" variants, none equal to the name |
| NameRules.CandidateShape | internal/transfer/transfer.go:883-886 | the variant puts a blank and the number in parentheses between the stem and the extension, and keeps the extension |
| Names.DecimalInverse | internal/transfer/transfer.go:886 | decimal printing loses nothing |
| NameRules.DecimalShape | internal/transfer/transfer.go:886 | decimal printing uses digits only and no leading zero |
| Names.ExtFromLastDot | internal/transfer/transfer.go:883-884 | the extension starts at the last dot, and is empty if and only if there is none |
| Names.ProbesAreBounded | internal/transfer/transfer.go:885-890 | pigeonhole: the search misses at most as often as there are files |
| Names.UniquePath | internal/transfer/transfer.go:879-891 | the name itself if free, otherwise the free variant with the least N, found within as many probes as there are files plus one |
| Receiver.ReceiveState.FeedFrame | internal/transfer/transfer.go:462-482 | one frame changes receiver, disk and outgoing acks exactly as the step function says, on every error path too |
| Receiver.ReceiveState.DoHandleHeader | internal/transfer/transfer.go:484-546 | header handling: resume from a usable partial, else truncate and write a fresh sidecar |
| Receiver.ReceiveState.DoHandleChunk | internal/transfer/transfer.go:548-584 | chunk handling with its size limit, torn writes and failed acks |
| Receiver.ReceiveState.DoHandleDone | internal/transfer/transfer.go:586-613 | completion: hash check, rename to a free path, sidecar removal |
| Receiver.ReceiveState.WriteMeta | internal/transfer/transfer.go:656-671 | the sidecar is written whole, not at all, or torn |
| Receiver.CheckPartial | internal/transfer/transfer.go:624-653 | a resume number is only offered for a partial that exists with the recorded length; CheckPartialExact says exactly when |
| Receiver.ReceiveStateMem.FeedFrame | internal/transfer/transfer.go:921-984 | one frame changes the in-memory receiver exactly as its step function says |
| ReceiverAnswers.ControlFramesEnd | internal/transfer/transfer.go:474-478 | transfer error and cancellation end the transfer at once, each with its error, in both receivers |
| ReceiverAnswers.OthersIgnored | internal/transfer/transfer.go:462-482 | empty frames and other tags change nothing in either receiver |
| ReceiverAnswers.TooEarly | internal/transfer/transfer.go:548-551 | chunks and completion before a header are errors in both receivers |
| ReceiverAnswers.ChunkAnswers | internal/transfer/transfer.go:548-584 | a chunk is short, exceeds the announced size, fails to be written, or is stored and acknowledged under its number |
| ReceiverAnswers.MemChunkAnswers | internal/transfer/transfer.go:937-957 | the same for the in-memory receiver |
| ReceiverAnswers.DoneAnswers | internal/transfer/transfer.go:586-613 | completion with a wrong digest or a failing rename is an error that leaves the files; otherwise it completes |
| ReceiverAnswers.CancellationIsFinal | internal/transfer/transfer.go:462-482 | whatever came before or follows, a cancellation ends the transfer there with the files as they were |
| ReceiverProofs.FinalIsApart | internal/transfer/transfer.go:491-494 | the final path can never be the transfer's own partial or sidecar |
| ReceiverProofs.BooksOpenFresh | internal/transfer/transfer.go:529-545 | a fresh header leaves counter, hash and partial empty and in agreement |
| ReceiverProofs.BooksKept | internal/transfer/transfer.go:548-584 | one more frame keeps counter = length of partial <= announced size and hash = hash of partial |
| ReceiverProofs.DoneMoves | internal/transfer/transfer.go:586-613 | completion happens if and only if the digest matches and the rename works; it moves the partial to a free path and changes no other file |
| ReceiverProofs.RunKeepsBooks | internal/transfer/transfer.go:548-613 | the bookkeeping and the completion guarantee over every frame sequence after a fresh header, up to the first error |
| ReceiverProofs.DiskRefinesMem | internal/transfer/transfer.go:462-613 | on a directory without a partial and for at most one header, disk and in-memory receiver report the same completion and error, send the same acks and hold the same bytes |
| Survival.FrameSpares | internal/transfer/transfer.go:462-613 | one frame touches only the partial and sidecar of announced names and a path that was free |
| Survival.SurvivesIff | internal/transfer/transfer.go:484-613 | a file survives every sequence of later transfers under a set of names, with any frames and any disk answers, if and only if it is none of their partials or sidecars |
| Survival.PartialNameIsAllowed | internal/transfer/transfer.go:840-863 | a sanitised name with the suffix of a partial is again a name a file can be completed under |
| Survival.CompletedFileIsLost | internal/transfer/transfer.go:491-531 | a file completed under such a name can be lost to a transfer of the stem |
| Codecs.LosslessExists | internal/transfer/transfer.go:656-671 | an encoding of headers and sidecars that is lossless and refuses truncated sidecars exists, for every digest function |
| SendLoop.Sender.constructor | internal/transfer/transfer.go:170-190 | a window below 1 becomes 1, a chunk size outside 1 .. 65526 becomes 65526, others are kept |
| SendLoop.Reader.Read | internal/transfer/transfer.go:265-269 | a read hands out the next bytes, any number of them, or none for a while; EOF comes only at the end and an error only where the source breaks, either with the last bytes or after them |
| SendLoop.Reader.Seek | internal/transfer/transfer.go:271-282 | a file can seek anywhere from its start on; a stream only forward, not past its end and not past the point where reading it fails |
| SendLoop.Sender.RunFromReader | internal/transfer/transfer.go:285-403 | success means the whole rest of the source was sent in numbered chunks, every one acknowledged in order before TransferDone; every failure leaves a prefix of that and no TransferDone, and has its cause in a cancellation, a refused frame, a failing read, or a missing or wrong ack awaited with the window full or the file at its end; the seek fails if and only if its 64-bit offset is negative or, on a stream, past the end or past the point where reading fails |
| SendLoop.Sender.AwaitAck | internal/transfer/transfer.go:345-364 | with the window full or the file at its end, one ack is consumed: the oldest outstanding chunk, or an error; or a cancellation, announced to the peer when it is local |
| SendLoop.Sender.SendNext | internal/transfer/transfer.go:366-395 | one read sent as the next chunk, within the window, or a cancellation, a failed send or a failed read, with what was sent before untouched |
| SendLoop.Sender.TakeAck | internal/transfer/transfer.go:356-363 | the ack case of the select |
| SendLoop.Sender.ReadAndSend | internal/transfer/transfer.go:377-395 | one read becomes the next chunk, sent once with exactly the bytes read |
| SendLoop.Sender.Announce | internal/transfer/transfer.go:398-402 | TransferDone follows when nothing is outstanding |
| SendLoop.Sender.Interrupted | internal/transfer/transfer.go:347-355 | a local cancellation offers TagCancelled and nothing else, a remote one nothing; which of them is reported is what the select chose |
| SendLoop.SeekOffsetIff | internal/transfer/transfer.go:315 | the 64-bit seek offset is that of the chunk asked for if and only if the product is below 2^63 |
| SendLoop.SeekToStart | internal/transfer/transfer.go:315 | two resume numbers whose offset wraps, one to zero, one to a negative number |
| SendLoop.NumbersFit | internal/transfer/transfer.go:315 | for files whose size times the chunk size fits in 64 bits, no resume number that can be seeked to makes chunk numbers wrap |
| Window.StepKeeps | internal/transfer/transfer.go:335-401 | every step of sender, channels and receivers keeps the protocol invariant |
| Window.AckIsExpected | internal/transfer/transfer.go:356-363 | the oldest ack in the channel is always the one the sender waits for |
| Window.ReachableStates | internal/transfer/transfer.go:335-401 | in every reachable state queued acks and chunks are base .. next-1 in order, the window is respected, no ack is out of order, and TransferDone implies everything read and acknowledged |
| Window.WorkShrinks | internal/transfer/transfer.go:341-396 | a measure on unread bytes, frames and acks in flight falls with every step |
| Window.RunsAreSafe | internal/transfer/transfer.go:335-401 | the invariant holds throughout every run, and no run is longer than the measure |
| Window.NoDeadlock | internal/transfer/transfer.go:341-396 | while the transfer is neither complete nor called off some party can take a step |
| Window.WaitsOnlyWhenFull | internal/transfer/transfer.go:341-345 | an ack is awaited only with a full window or at the end of the file; otherwise the next read is due |
| Window.CancelIsSent | internal/transfer/transfer.go:347-351 | a local cancellation is the last frame queued |
| Window.CancelArrives | internal/transfer/transfer.go:474-478 | delivering what is queued then ends the transfer at the receiver as cancelled by the peer |
| Window.Delivery | internal/transfer/transfer.go:285-403 | a run nobody interrupts ends with exactly the source bytes at the final path and in the in-memory buffer |
| Resume.TornSidecar | internal/transfer/transfer.go:656-671 | a sidecar write cut anywhere leaves the old sidecar, an unreadable one or the new one |
| Resume.CheckPartialExact | internal/transfer/transfer.go:624-653 | a partial is used if and only if a readable sidecar for this digest and chunk size counts chunks of a partial of its length, and then with exactly the sidecar's numbers |
| Resume.HeaderAnswers | internal/transfer/transfer.go:484-546 | a resumable partial that can be reopened and rehashed is resumed and nothing written; in every other case the partial is truncated and a sidecar counting nothing is written, each failure with its error |
| Resume.CheckPartialSound | internal/transfer/transfer.go:624-653 | on a disk left by earlier sessions a usable partial is exactly the first k chunks of the file |
| Resume.OpensHolding | internal/transfer/transfer.go:484-546 | whether or not the seek works, the receiver holds exactly the chunks it tells the sender to skip |
| Resume.SeekLands | internal/transfer/transfer.go:314-318 | a seek that works puts the sender at the end of the k-th chunk or of the file; a file fails to seek if and only if the offset leaves 64 bits, a stream if and only if it is past the end or past the point where reading fails |
| Resume.OpensExactly | internal/transfer/transfer.go:484-546 | after a seek that works, a session either resumes with exactly the bytes the sender has skipped, or starts from an empty partial; both are starting states of the window protocol |
| Resume.HeaderCrash | internal/transfer/transfer.go:529-545 | a crash between truncating and writing the sidecar leaves a disk later sessions can rely on |
| Resume.ChunkCrash | internal/transfer/transfer.go:568-576 | so does a crash inside the data write, before, inside or after the sidecar write |
| Resume.DoneCrash | internal/transfer/transfer.go:602-610 | so does a crash around the rename and the sidecar removal |
| Resume.OldestChunk | internal/transfer/transfer.go:568-576 | the oldest queued chunk starts where the partial ends |
| Resume.SessionRuns | internal/transfer/transfer.go:484-613 | the session invariant holds throughout every run with full reads |
| Resume.ProgressIsKept | internal/transfer/transfer.go:548-653 | a session cut between frames while its sidecar writes work is resumed by the next one with exactly the chunks delivered so far |
| Resume.RunRecorded | internal/transfer/transfer.go:568-576 | throughout such a session the sidecar counts the chunks the partial holds |
| Resume.SessionLeavesDiskOk | internal/transfer/transfer.go:484-613 | however a session is cut off, the disk it leaves is usable |
| Resume.HistoryKeepsDiskOk | internal/transfer/transfer.go:484-613 | the same after any number of sessions for any files under the name |
| Resume.ResumeIsCrashSafe | internal/transfer/transfer.go:484-687 | after any history of cut-off sessions the next one holds exactly the chunks it tells the sender to skip; whenever the sender's seek works, its own 64-bit offset is exactly the end of those chunks and the uninterrupted session completes with the source |
| Resume.FreshDelivery | internal/transfer/transfer.go:237-402 | without a sidecar every transfer, for every pattern of short reads, terminates with exactly the source bytes in both receivers |
| Resume.SeekPastEnd | internal/transfer/transfer.go:314-318 | after any history the resume offset lies past the end if and only if all chunks are there and the last one is short; exactly when a file and when a stream cannot be positioned |
| Resume.StreamCannotResume | internal/transfer/transfer.go:271-282 | every file of one short chunk has a history of one cut-off session after which a stream cannot be positioned for the next |
| Resume.TwinHandledHeader | internal/transfer/transfer.go:929-950 | in a fresh session the in-memory receiver starts where its own header handling puts it |
| Calendar.DayNumberOfCivil | internal/schedule/cleanup.go:104-109 | the closed-form day number inverts stepping from day to day |
| Calendar.CivilOfDayNumber | internal/schedule/cleanup.go:125-128 | every valid date is the date of its day number |
| Calendar.GregorianFormula | internal/schedule/cleanup.go:125-128 | day numbers agree with the closed formula for the Gregorian calendar that uses no table of month lengths |
| Calendar.MonthLengths | internal/schedule/cleanup.go:125-128 | month lengths by the same formula |
| Calendar.UnixEpoch | internal/schedule/cleanup.go:104-114 | day 719162 and no other is 1970-01-01, a Thursday |
| Calendar.NextMonthSkips | internal/schedule/cleanup.go:125-128 | jumping to the first of the next month skips the rest of this month and nothing else, year rollover and leap years included |
| CronNext.Contains | internal/schedule/cleanup.go:130-137 | membership, both ways |
| CronNext.Next | internal/schedule/cleanup.go:97-123 | the jumping search returns what minute-by-minute search does: the least matching minute of the window, or its end |
| CronNext.SkipDay | internal/schedule/cleanup.go:108-111 | no minute skipped by a day jump matches |
| CronNext.SkipHour | internal/schedule/cleanup.go:112-115 | no minute skipped by an hour jump matches |
| CronNext.NextIsDetermined | internal/schedule/cleanup.go:97-123 | the answer is unique and matches if and only if some minute up to the window's end does |
| CronNext.AlwaysFiresIff | internal/schedule/cleanup.go:101-102 | with the weekday unrestricted, a match is found from every start if and only if some selected date exists in every year |
| CronCycle.CalendarRepeats | internal/schedule/cleanup.go:97-128 | dates and weekdays repeat after 146097 days, 400 years later |
| CronCycle.AlwaysFiresOverCycle | internal/schedule/cleanup.go:101-102 | for every schedule a match is found from every start if and only if some time of day is selected and each day of one 400-year cycle is covered by a firing day within the horizon |
| CronCycle.MondayNewYearMisses | internal/schedule/cleanup.go:101-102 | a schedule with a weekday whose next firing lies beyond the horizon |
| CronFields.SplitJoins | internal/schedule/cleanup.go:142 | splitting at a separator loses nothing and leaves none behind |
| CronFields.PartCrashes | internal/schedule/cleanup.go:166-178 | an element panics the parser if and only if it is text/step with a good step and text neither "*" nor hyphenated |
| CronFields.StepValues | internal/schedule/cleanup.go:179-182 | the loop yields exactly the denoted values when the first increment does not overflow, otherwise a negative one too; it always ends |
| CronFields.InsertionSort | internal/schedule/cleanup.go:239-244 | sorts distinct values in place, keeping them |
| CronFields.DedupSorted | internal/schedule/cleanup.go:227-246 | strictly increasing, same set of values |
| CronFields.ParseField | internal/schedule/cleanup.go:140-150 | accepted if and only if every element reads; the values are strictly increasing, non-empty, within bounds if and only if no step overflows, and then exactly the union of what the elements denote, else starting with a negative one; panics if and only if the first faulty element crashes |
| CronFields.ParseCron | internal/schedule/cleanup.go:67-94 | accepted if and only if there are five words and each reads in its range, and then the schedule holds what they denote; panics if and only if the first faulty element of the first bad word crashes |
| CronFields.ScheduleMeansExpression | internal/schedule/cleanup.go:47-94 | a parsed schedule matches a minute if and only if all five words of the expression select it |
| CronText.FieldsAreWords | internal/schedule/cleanup.go:68 | words are non-empty and no space starts inside one |
| CronText.FieldsOfJoined | internal/schedule/cleanup.go:68 | words with one blank between them are read back |
| CronText.SplitOfJoined | internal/schedule/cleanup.go:142 | parts without the separator, once joined by it, are read back |
| CronText.AtoiReadsDecimal | internal/schedule/cleanup.go:168-212 | a printed number is read back if and only if it fits in 64 signed bits |
| CronText.PartReadsBack | internal/schedule/cleanup.go:153-224 | whatever range and step fits the field, the element written for it in any of the five notations reads as that range and step |
| CronText.FiveSlashTwoCrashes | internal/schedule/cleanup.go:166-178 | the element 5/2 crashes the parser in every field |
| CronText.HugeStepMonth | internal/schedule/cleanup.go:179-182 | the month 1-12/9223372036854775807 is accepted and starts with a negative value |
| CronText.FieldReadsBack | internal/schedule/cleanup.go:140-150 | a written comma list is accepted and selects exactly the union of its elements |
| CronText.LineReadsBack | internal/schedule/cleanup.go:67-94 | a written line has five words, each accepted, each selecting exactly what was written for it |
| CronGrammar.AtoiIff | internal/schedule/cleanup.go:168-212 | a number is an optional sign and digits, within 64 signed bits |
| CronGrammar.DigitsDenote | internal/schedule/cleanup.go:168-212 | digits are what is printed for their value after any number of zeros |
| CronGrammar.PartIff | internal/schedule/cleanup.go:153-224 | an element is accepted with given values and step if and only if the grammar of the five notations writes them so |
| ScheduleStore.Store.InitUpload | internal/schedule/store.go:87-115 | an empty pending upload under the given ID, nothing else changed |
| ScheduleStore.Store.AppendChunk | internal/schedule/store.go:120-144 | appends exactly the next chunk within the size limit, refuses everything else unchanged |
| ScheduleStore.Store.FinalizeUpload | internal/schedule/store.go:148-207 | moves the bytes unchanged into a complete file if and only if the chunk count is reached |
| ScheduleStore.Store.OpenDownload | internal/schedule/store.go:216-245 | hands out the file and counts one download unless unknown, expired or exhausted |
| ScheduleStore.Store.Delete | internal/schedule/store.go:252-263 | removes the file if and only if the key is the non-empty delete key |
| ScheduleStore.Store.CleanExpired | internal/schedule/store.go:272-315 | removes exactly the expired or exhausted files and stale uploads, and counts them |
| StoreRules.CleanedFilesOpen | internal/schedule/store.go:282-295 | after clean-up a file is there if and only if it opened before, and it still opens |
| StoreRules.UploadsKeptForADay | internal/schedule/store.go:297-312 | an upload is kept for exactly 24 hours |
| StoreRules.AppendsInOrder | internal/schedule/store.go:120-144 | whatever is attempted, a pending upload ends up with exactly the pieces that came in order and within the size |
| StoreRules.OpensExactlyAsOften | internal/schedule/store.go:216-245 | a file opens as often as downloads are left, until it expires, and then refuses with the right error |
| StoreRules.PublishedOpens | internal/schedule/store.go:148-245 | a published file opens exactly as often as its upload allows |
| StoreRules.ValidIdIff | internal/schedule/store.go:395-410 | identifiers are 32 lower-case hexadecimal digits |
| ScheduleStore.HandleUploadInit | internal/schedule/handler.go:123-197 | granted if and only if authorised, within size and with the chunk count the negotiated size gives in 64 bits, else refused with the matching status; the stored limit is the one asked for, the cap, or none, and the lifetime the one asked for or the longest option |
| ScheduleStore.ExpectedChunksIff | internal/schedule/handler.go:177 | the expected count is the number of chunks if and only if rounding up stays within 64 bits |
| ScheduleStore.HandleUploadChunk | internal/schedule/handler.go:203-250 | accepts exactly what the store accepts within the negotiated size |
| ScheduleClient.ChunksRejoin | internal/schedule/client.go:160 | the chunks read one after the other rejoin to the file, and there are as many as announced |
| ScheduleClient.NoncesDistinctIff | internal/schedule/client.go:217-220 | chunk nonces are pairwise distinct if and only if there are at most 2^32 chunks |
| ScheduleClient.UploadChunks | internal/schedule/client.go:203-256 | every append succeeds and the pending file ends up as the sealed chunks in order |
| ScheduleClient.Upload | internal/schedule/client.go:130-298 | succeeds if and only if init accepts and the file has the announced number of chunks; then the stored file is the sealed stream with its metadata, the limit the user asked for within the cap, and the lifetime asked for, 24 hours by default, within the longest option; nothing else changed |
| ScheduleClient.ChunkSizeOf | internal/schedule/client.go:593-602 | the chunk size is the one asked for or 256 KiB, 512 KiB or 1 MiB by the size of the file, never above 2 MiB |
| ScheduleClient.HonestRequestAccepted | internal/schedule/handler.go:130-183 | with a chunk size of at most 2 MiB a request is accepted if and only if it is authorised and within the size limit |
| ScheduleClient.HonestSizeCounts | internal/schedule/handler.go:177-183 | with the true size declared, an accepted request announces the number of chunks sent if and only if rounding up stays within 64 bits |
| ScheduleClient.ReadFrame | internal/schedule/client.go:413-441 | one frame is accepted exactly when its length, index, prefix and tag are right |
| ScheduleClient.DamagedFrames | internal/schedule/client.go:413-441 | missing, cut, misplaced, foreign and unauthentic frames each have their error |
| ScheduleClient.MisplacedChunk | internal/schedule/client.go:428-434 | a chunk of the same upload in another's place is out of order |
| ScheduleClient.Download | internal/schedule/client.go:407-450 | the loop writes what frame-by-frame reading specifies, on every error path |
| ScheduleClient.WiresOpen | internal/schedule/client.go:407-450 | fixed-stride reading of the sealed stream gives back the chunks, a short last one included |
| ScheduleClient.UploadThenDownload | internal/schedule/client.go:130-453 | upload then download returns the same bytes and file name for every accepted file whose size rounds up within 64 bits, and nothing after its expiry |
| ScheduleClient.AcceptedIsChunk | internal/schedule/client.go:428-441 | with a cipher that opens only what this upload sealed, whatever frame is accepted at position i is chunk i of this upload |
| ScheduleClient.OnlyWholeChunksInOrder | internal/schedule/client.go:407-450 | whatever body and headers arrive, the bytes written are whole chunks 0 .. k-1 of the original |
| ScheduleClient.WrittenIsPrefix | internal/schedule/client.go:407-450 | in terms of the file: the bytes written are a prefix of it, and without an error they are all of it if and only if the announced total is the true chunk count |
| ScheduleClient.ShorterTotalIsBelieved | internal/schedule/client.go:386-391 | a server that leaves out the last chunks and announces a smaller total gets a shorter file accepted without error |
| ScheduleClient.KeyExists | internal/schedule/client.go:380-391 | a cipher that opens what the upload sealed and nothing else exists for every upload |
| Downloads.StepConserves | internal/schedule/store.go:216-245 | every interleaved step of download, delete and clean-up keeps left + successes = limit |
| Downloads.RunConserves | internal/schedule/store.go:216-314 | the same over whole runs |
| Downloads.DownloadsConserved | internal/schedule/store.go:172-175 | no limited file is ever opened more often than its limit or a positive server cap, and unlimited files stay unlimited |
| Downloads.GoneForGood | internal/schedule/store.go:252-314 | a removed directory never comes back |
| Downloads.CiphertextGoneForGood | internal/schedule/store.go:252-314 | an unlinked ciphertext never comes back |
| Downloads.SidecarReturnsIff | internal/schedule/store.go:228-243 | an unlinked sidecar comes back if and only if a limited download that has opened the ciphertext rewrites it before the directory goes |
| Downloads.SidecarReturns | internal/schedule/store.go:228-263 | a run in which that happens |
| Downloads.UndisturbedOpen | internal/schedule/store.go:216-245 | without interference the separate steps amount to the atomic OpenDownload |
| Downloads.StoreKeepsLimits | internal/schedule/handler.go:158-163 | every change of the store keeps all limits within the server's cap |
| Downloads.FinalizeIsPublish | internal/schedule/store.go:148-207 | finalising an upload is the publishing step, whose cap guard always holds |
| Slots.Slot.constructor | internal/slot/slot.go:70-89 | a new slot waits, with the peer limit clamped to 2 .. 10 |
| Slots.Slot.Join | internal/slot/slot.go:110-125 | a peer is added, and the slot marked full for good at its limit, or the right error is returned |
| Slots.Slot.RemovePeer | internal/slot/slot.go:130-146 | the in-place filter drops exactly the given connection and adjusts the state |
| Slots.Slot.Close | internal/slot/slot.go:149 | only the state changes |
| Slots.OtherMembers | internal/slot/slot.go:176-187 | exactly the members other than the given one |
| Slots.JoinThenLeave | internal/slot/slot.go:98-146 | leaving undoes joining if and only if the join did not make the slot full |
| Slots.PeerLimits | internal/slot/slot.go:70-89 | peer limits from 2 to 10 are kept, others clamped; a new slot can be joined and expires after 600 seconds |
| Slots.SlotFillsUp | internal/slot/slot.go:98-125 | an open slot takes the first peers up to its limit, in order, and refuses all others as full |
| Slots.ClosedIsRefused | internal/slot/slot.go:110-116 | a join is refused as closed if and only if the slot is closed, as full if and only if it is or has been full or has no room |
| Hub.MemStore.Create | internal/store/store.go:195-204 | a taken code is refused and changes nothing |
| Hub.MemStore.Update | internal/store/store.go:206-211 | replaces the stored slot and leaves the code index alone |
| Hub.MemStore.Delete | internal/store/store.go:213-221 | drops the slot together with its code |
| Hub.MemStore.GetByCode | internal/store/store.go:233-241 | resolves a code through the index |
| Hub.Broker.Enqueue | internal/broker/broker.go:87-95 | queues for a live connection, drops when its buffer is full |
| Hub.Broker.HandleDisconnect | internal/broker/broker.go:211-249 | disconnect as a hub step: notify, then shrink or delete the slot |
| Hub.Broker.HandleSlotCreate | internal/broker/broker.go:280-317 | create as a hub step |
| Hub.Broker.CreateSlot | internal/broker/broker.go:321-340 | stores a slot under the first free code drawn, or none if all are taken |
| Hub.Broker.HandleSlotJoin | internal/broker/broker.go:358-443 | join as a hub step with all its refusals |
| Hub.Broker.RecordFailedJoin | internal/broker/broker.go:345-354 | counts a bad code and warns at the limit |
| Hub.Broker.NotifyJoinedPeers | internal/broker/broker.go:446-482 | who is told what when a peer joins |
| Hub.Broker.RelayMessage | internal/broker/broker.go:487-542 | relay as a hub step; who hears what is RelayDelivers and RelayRefuses |
| Hub.Broker.HandleBye | internal/broker/broker.go:545-568 | bye as a hub step |
| HubProofs.SendAllIsQuiet | internal/broker/broker.go:230-238 | notifying members changes nothing but their queues, and without a drop each got the message last |
| HubProofs.StepKeepsSafe | internal/broker/broker.go:211-568 | every hub step keeps slots and code index sound |
| HubProofs.ReachableFromStart | internal/broker/broker.go:165-184 | for arbitrary clients: stored slots are within their limits, never closed, full if and only if ever full, and codes and slots name each other |
| HubProofs.RelayIsConfined | internal/broker/broker.go:487-542 | a relayed message reaches only members of the slot named by the sender's slotID, unchanged |
| HubProofs.SlotAfterStep | internal/broker/broker.go:211-568 | one step leaves a stored slot alone, removes a peer or admits one to a slot that can take it |
| HubProofs.EverFullNeverGrows | internal/slot/slot.go:64-66 | once full, one step only shrinks a slot's membership |
| HubProofs.FullSlotsOnlyShrink | internal/slot/slot.go:64-66 | the same over every run in which the slot stays stored |
| HubMembership.StepKeepsAgreement | internal/broker/broker.go:211-568 | every step in which no member of a stored slot creates or joins keeps slots and live connections in agreement |
| HubMembership.AdmitKeepsAgreement | internal/broker/broker.go:394-402 | a successful join by a connection in no stored slot keeps the agreement and finds its initiator connected |
| HubMembership.StepAgreesIff | internal/broker/broker.go:211-568 | a step keeps the agreement if and only if it does not put a member of a stored slot into a slot |
| HubMembership.RuledIff | internal/broker/broker.go:211-568 | slots and connections agree in every state of a run if and only if every step obeys that rule |
| HubMembership.OncePerConnectionIsRuled | internal/broker/broker.go:280-443 | a run in which each connection succeeds in at most one create or join obeys the rule, so agreement holds |
| HubMembership.MembershipAgrees | internal/broker/broker.go:211-402 | in every ruled run initiators and distinct peers of stored slots are live connections of that slot, and a join never finds the initiator gone |
| HubMembership.TwoSlotsOrphanOne | internal/broker/broker.go:299-306 | without the rule a stored slot can outlive its initiator |
| HubCounts.NotifyTells | internal/broker/broker.go:446-482 | after a join every member was last told the new count |
| HubCounts.StepKeepsCounts | internal/broker/broker.go:227-482 | every step without bye or dropped frame keeps told counts right |
| HubCounts.PeerCountsAgree | internal/broker/broker.go:227-482 | in every such run each peer of a stored slot, and its initiator once a peer has joined, was last told the real count since the slot was created |
| HubNotices.SendAllTellsEach | internal/broker/broker.go:230-238 | without a drop every addressee hears a message once and nobody else hears it |
| HubNotices.JoinAnnounced | internal/broker/broker.go:370-482 | a join queues slot.ready for the joiner, peer.joined for every other member, slot.ready also for the initiator of a first peer, with the right count, and nothing for anybody else |
| HubNotices.DisconnectAnnounced | internal/broker/broker.go:211-249 | each remaining member of the leaver's slot hears one peer.left with the count then left, nobody else hears anything |
| HubNotices.ByeAnnounced | internal/broker/broker.go:545-556 | each other member of the sender's slot hears one bye, nobody else anything |
| HubAnswers.QueueHoldsSixteen | internal/broker/broker.go:87-95 | with fewer than 16 frames queued a frame is queued last, otherwise it is dropped |
| HubAnswers.RelayDelivers | internal/broker/broker.go:487-542 | a message whose recipient is connected is heard there once, unchanged, and nowhere else |
| HubAnswers.RelayRefuses | internal/broker/broker.go:487-542 | in all other cases nobody hears the message, and the sender hears the stated error |
| HubAnswers.FirstFreeIff | internal/broker/broker.go:321-340 | the first free code drawn is used; creating fails only if all are taken |
| HubAnswers.CreateAnswered | internal/broker/broker.go:280-317 | a create is answered with its slot or the reason it failed |
| HubAnswers.BadCodeAnswered | internal/broker/broker.go:345-385 | a code that leads nowhere is counted and answered; from the fifth on the sender is also told to stop |
| HubAnswers.JoinRefused | internal/broker/broker.go:358-401 | every other refusal has its own error, and only an expired slot is removed |
| HubAnswers.JoinableForTenMinutes | internal/slot/slot.go:87 | a new slot can be joined for 600 seconds and no longer |
| HubAnswers.OthersAnswered | internal/broker/broker.go:252-278 | unknown messages are answered with an error, pongs with nothing |
| Crc.RoundsFeedBits | cmd/gmmff/schedule.go:680-686 | rounds on a register with a byte xored in equal feeding its bits one by one |
| Crc.Crc32Compute | cmd/gmmff/schedule.go:676-689 | the nested loops compute the bit-serial CRC-32 |
| CrcValues.CheckValue | cmd/gmmff/schedule.go:676-689 | the checksum of the digits 1 to 9 is CBF43926 |
| CrcValues.Residue | cmd/gmmff/schedule.go:676-689 | data followed by its checksum always has the checksum 2144DF1C |
| Zip.PutUint32LE | cmd/gmmff/schedule.go:669-671 | writes one field and leaves the rest of the buffer as it was |
| Zip.PutUint16LE | cmd/gmmff/schedule.go:672-674 | the same for two bytes |
| Zip.BuildLocalFileHeader | cmd/gmmff/schedule.go:629-641 | the buffer ends up as the specified local header |
| Zip.BuildCentralDirEntry | cmd/gmmff/schedule.go:643-657 | the buffer ends up as the specified directory header |
| Zip.BuildEOCD | cmd/gmmff/schedule.go:659-667 | the buffer ends up as the specified end record |
| Zip.ZipEntries | cmd/gmmff/schedule.go:591-626 | the two loops with their wrapping 32-bit counters write the specified archive |
| ZipLayout.LocalHeaderLayout | cmd/gmmff/schedule.go:629-641 | the local header field by field as APPNOTE.TXT 4.3.7 lists them |
| ZipLayout.CentralHeaderLayout | cmd/gmmff/schedule.go:643-657 | the directory header field by field as 4.3.12 lists them |
| ZipLayout.EndRecordLayout | cmd/gmmff/schedule.go:659-667 | the end record field by field as 4.3.16 lists them |
| Zip.LocalReads | cmd/gmmff/schedule.go:597-611 | a local header and its data are read back, and the reader, which also compares method, sizes and checksum with the directory, accepts them |
| Zip.DirectoryReads | cmd/gmmff/schedule.go:616-622 | reading the directory from header i on gives the entries from i on |
| Zip.ZipRoundTrip | cmd/gmmff/schedule.go:584-626 | reading a written archive gives back the same entries in the same order, for fewer than 2^16 entries, names below 2^16 bytes and a total below 4 GiB |
| Zip.RecordedOffsetIff | cmd/gmmff/schedule.go:601-604 | a recorded offset is the true one if and only if the header starts below 4 GiB |

## Left out

- WebRTC, PAKE, ICE, TURN, mDNS, TLS, HTTP routing, the Redis store, progress bars, the REPL, WebAssembly glue and the web front end: foreign calls, I/O or user interface.
- internal/session peer counts and internal/peer dispatch: the counts two sides keep there do not agree by design of their messages, and dispatch has no state of its own.
- Slots in the store are values, not shared pointers: every handler that changes a slot then updates or deletes it in the same hub step, so sharing is not observable there; aliasing between handlers is not modelled.
- Hub messages of a connection are assumed to reach the hub between its register and unregister events; the three channels of `Run` do not enforce that order.
- Resume hypotheses: reads fill a chunk before end of file, ResumeFrom arrives before the two-second timer, nobody else touches the partial and sidecar, and the files sent under one name have distinct digests. Delivery of a fresh file needs none of them.
- A reader that returns no bytes and no error changes nothing; `Window` leaves such reads out, since only progress makes the loop end.
- SendLoop.Sender.RunFromReader: excludes resume numbers so close to 2^64 that chunk numbers would wrap around although the seek succeeds; for files whose size times the chunk size is at most 2^63 there are none (`NumbersFit`).
- Reads that yield nothing and no error come finitely often in `SendLoop`, else the loop need not end; the header frame and the two-second wait for ResumeFrom lie outside `SendLoop` and `Window`.
- The chunk count in a file header is not rounded in 64 bits in `Resume`; no receiver uses it.
- A crash keeps the disk operations that were completed, in their order; writes lost or reordered by a power failure are not modelled.
- File seeks ignore the file system's own maximum offset.
- RemoveAll is three unlink steps in a fixed set of two files; retries inside it and failing deletions are not modelled.
- Concurrent AppendChunk calls on one upload are atomic steps; the code's unlocked read-modify-write is not explored.
- ScheduleStore.Store.FinalizeUpload: moves the file in one step; the copy across file systems and disk errors in the store are not modelled.
- ScheduleClient.UploadThenDownload: takes the size to round up within 64 bits; beyond that the announced count is negative and the upload fails (`HonestSizeCounts`).
- `strings.ToUpper` is modelled on ASCII: no other character upper-cases to a letter of a device name.
- Zip.ZipEntries: starts from the list of names and contents; walking directories and reading files is left out.
- JSON payload contents, log lines, authorisation by address or password, and rate limits: single branches or library calls; authorisation is a parameter.
