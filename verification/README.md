# Verified models of FreeRemoteDesk

This project models the parts of FreeRemoteDesk where many states, files and limits have to agree, and proves that
they do. `dafny verify dfyconfig.toml` checks the whole project.

**FRDMVS02 capture** (`Bytes`, `MvsStream`, `CaptureFormat`, `CaptureReader`, `CaptureLog`, `FrameLedger`,
`CaptureAgreement`, `CaptureWriter`, `CaptureTheorems`, `CaptureFacts`, `ColdSession`). The transactional capture
writer, the record assembler it uses, the validating reader, and the cold session driver are modelled statement by
statement. What the clock and the sink answer is given from outside, reading by reading and operation by operation,
and so is what the connection does. The writer carries three ghost histories: the events it has laid down, the MVS
frames it was given, and the state the reader is in after those events; and a flag says whether a reading or an
operation has failed so far. The driver carries one of the clock readings its reads rest on. The main results are
`HpssCaptureV2` and `FileReadsBack`: every driver run that ends at a terminal leaves a file the reader accepts,
which accounts for every MVS frame the connection delivered exactly once; and every read of the connection rests on
a reading of the clock of its own turn that was in time, so that neither the deadline nor the lifetime of a record
can pass unnoticed. A run that stops without a terminal has a named cause, too. For arbitrary calls on the writer
acceptance fails in exactly two ways, and `FileReadsBack` states that there are no others. Rejecting an envelope, or
reporting an output failure, while a record is pending abandons its frames (`RejectionReadsBack`,
`OutputFailureReadsBack`). And a record with tag 2 and a rectangle is on the sink before
`src/vnc/mvs_capture_v2_writer.rs:736` turns it down and returns without failing closed, so that a later Clean
terminal ends a file no reader accepts (`TypeTwoRectangleSpoils` gives the input). `ProcessFrame` proves that the
driver is never in the first state and gives up at once in the second, with the writer still recording. After such a
record the writer no longer keeps the record limit and the event budget; its contracts say so with `spoiled`. The
structural format is prefix-free, its accepted files are exactly the valid event logs, and the strict reader's many
checks amount to a Clean terminal without a Surface event. `CaptureFacts` says of any accepted file, whoever wrote
it, what its events tell and which follow which.

**Frames** (`FrameSurface`, `FrameMailbox`, `MailboxDelivery`, `MailboxAdmission`, `TransactionCompiler`,
`CompiledStreams`, `CompilerAdmission`). The bounded mailbox and the transaction compiler are classes proved against
functions on values. Which update either of them admits is stated over the history of a run (`PushedExactlyWhen`,
`CompiledExactlyWhen`), without those functions. It is proved, for every interleaving of pushes and pops, which
streams are delivered, and that the compiler accepts a delivered stream exactly when no two damages meet and every
startup boundary is a full baseline. A batch that fails drops the transactions it had finished; compiler and error
do not depend on where batches are cut, and `CuttingMattersExactlyWhen` says when the transactions do
(`CuttingCanMatter` gives an input). Without overflow a producer that keeps this order never makes it fail;
`OverflowCanBreakPairing` shows that overflow can, because a queued boundary is cleared while its damage has already
been delivered, and `OverflowBreaksExactlyWhen` says when.

**Application controller** (`SavedLogins`, `SessionSlot`, `AppController`, `AppRuns`, `AppLaws`). Pages, the session
slot, and the transaction over the credential and profile stores. How each store call turns out is a parameter,
including failures reported after the call has taken effect; the results say exactly which of these leave the stores
as they were, and which credentials are left staged over a whole run (`NothingStaysStagedExactlyWhen`). Every entry
point of the class keeps `Valid()`, the invariant proved of every run. `AppLaws` states when each kind of input has
an effect and which, among them that a session is started with exactly what was submitted (`StartedAsSubmitted`).
`ReadyResolvesPending` states a case worth knowing: when a surface of a later generation is presented before the
transport reports ready, that report is ignored and the login stays pending.

**Smaller cores** (`Arithmetic`, `Framebuffers`, `UpdateParser`, `Viewport`, `Utf8`, `SecretText`,
`ColdCredentials`). Overlapping rectangle updates and the FramebufferUpdate parser (sections 7.6.1, 7.7.1 and 7.7.2
of RFC 6143), aspect fit and pointer mapping, splicing by characters in UTF-8 (section 3 of RFC 3629), and the
FRDSTD01 frame.

Where a source file changes state step by step, the model is a class with the same fields whose methods change them
in place, or a method with the same loop; each is tied to a function of the old state by its `ensures`, and the laws
are lemmas about those functions and the state invariants.

## Model

| member | source | states |
|---|---|---|
| ColdSession.HpssCaptureV2 | src/main.rs:489-559 | for every connection, clock and sink, given as what they answer: no writer exists exactly when the arguments are invalid or the sink refuses one of its first two operations; the command stops only completed, unfinished with every need of the loop met, at a message that cannot be built, behind a refused record, at a terminal for a cause, or failed closed because a reading or an operation failed, a record was refused or ordinals ran out; every read of the connection follows a reading of the clock of its own that was below the deadline and within the lifetime of the pending record, the first after twelve readings for the set-up; unless the capture failed closed, the writer's source frames are exactly the MVS frames delivered, in order; a terminal means bytes the structural reader accepts, which give back the connection's geometry, the configuration, every count of the writer, the selected reason, the gap, records made of the frames of their ranges, and ranges that tile them all; the run completes exactly when the strict reader accepts too, with the same values |
| ColdSession.FileReadsBack | src/vnc/mvs_capture_v2_writer.rs:908-952 | a writer that stopped at a terminal wrote a file the structural reader accepts if and only if no frame was abandoned and no refused record was written; then the surface of the Armed event, deadline, record limit, records, gap and every field of the terminal read back as the writer had them; the strict reader accepts exactly the Clean ones, with the same values |
| ColdSession.CaptureInto | src/main.rs:508-559 | from the credentials to the end of the session: it goes through its session, or stops before it with the writer settled; a terminal leaves nothing abandoned and no refused record on file and has its cause in the deadline, the credentials, the connection or the session; the surface offered is the connection's or none; every read is in time, and the clock was read for every step before the first; unless the capture failed closed the frames entered are exactly those delivered (none without a connection) |
| ColdSession.RunAuthenticatedColdSession | src/vnc/cold_hpss.rs:98-167 | the loop is reached only with encryption, a valid surface, all three triggers written and the timeout set; a session that bails leaves the writer failed closed for a cause, at a terminal with nothing abandoned and without gap reasons 9 and 10, recording behind a refused record, or triggering after a bad display size or request; it completes exactly when the file is Clean; a terminal before the loop has its cause: 258 or 267 without encryption, 266 for the surface, 259 for the sink, 260 for a trigger not written, the sink or the deadline, 267 for the deadline, 261 for the timeout; one in the loop has it in a step; unless failed closed, the frames entered are exactly those delivered |
| ColdSession.TriggerAndRecord | src/vnc/cold_hpss.rs:113-166 | the same from the armed session on |
| ColdSession.RecordingLoop | src/vnc/cold_hpss.rs:136-166 | the writer's frames are the fold of the frames read; every read follows a reading of the clock of its own turn that was in time, so an unfinished loop has one for each step of the script; every step taken but the last is one after which the loop may go on; else it ends failed closed, recording behind a refused record, or at a terminal for a cause: 265 at a cancelled step, 261 after a failed read, 266 after a geometry transition, 262 after an MVS frame or a record's lifetime, 2 with the records full, 1 and 263 past the deadline |
| ColdSession.TakeStep | src/vnc/cold_hpss.rs:138-165 | one turn of the loop: its first reading of the clock decides at the deadline (Clean 1, or 263 with a record pending), past a record's lifetime (gap 5 and 262) or when it fails (failed closed); only a turn in time reads, once; after a failed read a second reading decides the same way, or ends it with 261 and gap 7; it goes on only below the deadline, after a step that allows it, with the clock read again after a frame and the count of missing bytes in lockstep with the pending record, and else ends the session for a cause |
| ColdSession.TakeFrame | src/vnc/cold_hpss.rs:153-165 | the part of a turn after the clock and the cancellation |
| ColdSession.Poll | src/vnc/cold_hpss.rs:141-145 | polling at the start of a turn: it goes on exactly with a reading below the deadline and within the lifetime of the pending record |
| ColdSession.PunctualSnoc | src/vnc/cold_hpss.rs:138-165 | one more read in time, with a later reading of the clock than those before, keeps every read in time |
| ColdSession.ProcessFrame | src/vnc/cold_hpss.rs:197-227 | one frame enters exactly the ledger entry of its class (none for non-MVS frames) and leaves the count of missing bytes that the frame implies; it goes on only after a later reading of the clock below the deadline; it never causes gap reasons 9 or 10 or an error of a caller out of step; it ends the capture only with a code its class can cause; a failure fails closed for a cause, or leaves the writer recording behind the refused record |
| ColdSession.ProcessContinuation | src/vnc/cold_hpss.rs:204-213 | the same for a continuation |
| ColdSession.ProcessBegin | src/vnc/cold_hpss.rs:214-222 | the same for a begin frame |
| ColdSession.WriteTrigger | src/vnc/cold_hpss.rs:177-188 | goes on exactly when the connection took the trigger and the writer its bit; a terminal is 260, for a trigger not written or the deadline |
| ColdSession.WriteTriggers | src/vnc/cold_hpss.rs:113-133 | goes on only with all three triggers written and both messages built; else a message could not be built, or the capture has ended with 260, for a trigger not written or the deadline, or failed closed |
| ColdSession.FinishAfterReadFailure | src/vnc/cold_hpss.rs:169-175 | a failed read is decided by one reading of the clock: 261, with gap 7 for a pending record, below the deadline and within the lifetime, else as polling decides; it is a success exactly when the deadline had made the file Clean |
| ColdSession.FinishColdConnectionFailure | src/main.rs:469-487 | the failed connection's abort reason: 267 at or after the deadline, else 257 for a refused connection and 258 otherwise |
| ColdSession.FailureIsNamed | src/main.rs:469-487 | past the deadline that is the reason, else a refused connection is told from everything about credentials |
| ColdSession.ValidTerminalTiles | src/vnc/mvs_capture_v2.rs:810-847 | the terminal's source count is met only by record ranges and a gap range that tile 0 to the count in order |
| ColdSession.RejectionReadsBack | src/vnc/mvs_capture_v2_writer.rs:467-477 | an envelope rejected through the writer's interface leaves an acceptable file if and only if no record was pending and no refused record had been written |
| ColdSession.OutputFailureReadsBack | src/vnc/mvs_capture_v2_writer.rs:684-692 | an output failure reported through the writer's interface leaves an acceptable file if and only if no record was pending and no refused record had been written |
| ColdSession.TypeTwoRectangleSpoils | src/vnc/mvs_capture_v2_writer.rs:694-749 | the concrete input for the second way a file is refused: a begin frame of one byte, tag 2, with rectangle (1,0,0,0) fails with the record on the sink and the writer still recording; if the deadline then writes a Clean terminal, no frame is abandoned and neither reader accepts the file |
| CaptureWriter.MvsCaptureV2Writer.New | src/vnc/mvs_capture_v2_writer.rs:184-274 | a writer exists exactly for a valid configuration and a sink that takes the header with the Created event and flushes it |
| CaptureWriter.MvsCaptureV2Writer.PreTriggerCheckpoint | src/vnc/mvs_capture_v2_writer.rs:301-312 | before the trigger, goes on below the deadline and otherwise aborts with 267 |
| CaptureWriter.MvsCaptureV2Writer.Arm | src/vnc/mvs_capture_v2_writer.rs:313-364 | arms from Created only; 266 for bad geometry, 267 at the deadline, 259 exactly when the sink has refused; the state changes after two readings in time and three operations of the sink, none of them refused |
| CaptureWriter.MvsCaptureV2Writer.BeginTrigger | src/vnc/mvs_capture_v2_writer.rs:366-377 | triggering starts from Armed below the deadline, with an empty mask |
| CaptureWriter.MvsCaptureV2Writer.TriggerWriteSucceeded | src/vnc/mvs_capture_v2_writer.rs:379-397 | accepts exactly the next bit in wire order, and aborts with 260 at the deadline |
| CaptureWriter.MvsCaptureV2Writer.TriggerFailed | src/vnc/mvs_capture_v2_writer.rs:399-402 | a failed trigger write aborts with 260, with clock and sink still good |
| CaptureWriter.MvsCaptureV2Writer.WriteRecordingGate | src/vnc/mvs_capture_v2_writer.rs:404-456 | recording starts only after all three triggers, with Triggered and Recording written and flushed and four readings in time; else 260, for the deadline or a sink that refused |
| CaptureWriter.MvsCaptureV2Writer.PassGate | src/vnc/mvs_capture_v2_writer.rs:413-456 | the same for a complete trigger mask |
| CaptureWriter.MvsCaptureV2Writer.LayStage | src/vnc/mvs_capture_v2_writer.rs:849-882 | a lifecycle event that the reader would take next is written and taken, or refused by the sink |
| CaptureWriter.MvsCaptureV2Writer.AcceptNonMvs | src/vnc/mvs_capture_v2_writer.rs:458-465 | a non-MVS frame uses no ordinal and writes nothing; one reading of the clock decides |
| CaptureWriter.MvsCaptureV2Writer.AssignSourceOrdinal | src/vnc/mvs_capture_v2_writer.rs:968-973 | each MVS frame gets the next ordinal, which is its place in the ledger |
| CaptureWriter.MvsCaptureV2Writer.RejectMvsEnvelope | src/vnc/mvs_capture_v2_writer.rs:467-477 | an envelope rejected writes gap 1 and terminal 262; it abandons frames exactly when a record was pending, and a record refused earlier stays refused |
| CaptureWriter.MvsCaptureV2Writer.AcceptMvsBegin | src/vnc/mvs_capture_v2_writer.rs:479-537 | a begin frame causes gap 10, 2, 3 or 11 in this order, or completes a record of one frame, or stays pending with its provenance, whose lifetime starts with the first reading of the call; an error has its cause: clock or sink failed, no ordinal left, the record refused, or the budget used up behind a refused one; only the refusal of tag 2 with a rectangle does not fail closed |
| CaptureWriter.MvsCaptureV2Writer.BeginFrame | src/vnc/mvs_capture_v2_writer.rs:490-537 | the same once the frame has its ordinal |
| CaptureWriter.MvsCaptureV2Writer.HoldRecord | src/vnc/mvs_capture_v2_writer.rs:524-535 | an incomplete record is pending with this provenance, or the deadline catches it with gap 6 and 263 |
| CaptureWriter.MvsCaptureV2Writer.BeginGapReasons | src/vnc/mvs_capture_v2_writer.rs:479-511 | each gap of a begin frame names its first fault: 10 with a record pending, 2 for an impossible length, 3 for too long a first chunk, 11 for the budget, with the provenance of the record or of the frame |
| CaptureWriter.MvsCaptureV2Writer.AcceptMvsContinuation | src/vnc/mvs_capture_v2_writer.rs:539-590 | a continuation causes gap 9 or 4, or extends the pending record and keeps its lifetime; a completed record's payload is the joined bodies of its frames; an error has one of the causes of a begin frame |
| CaptureWriter.MvsCaptureV2Writer.ContinuationFrame | src/vnc/mvs_capture_v2_writer.rs:544-590 | the same once the frame has its ordinal |
| CaptureWriter.MvsCaptureV2Writer.ContinuationGapReasons | src/vnc/mvs_capture_v2_writer.rs:539-559 | a continuation without a record is gap 9, one that overruns its record gap 4 with the record's provenance |
| CaptureWriter.MvsCaptureV2Writer.StartRecord | src/vnc/mvs_capture_v2_writer.rs:512-537 | the assembler accepts what the writer has checked, and a full first chunk is a record, written or refused as such |
| CaptureWriter.MvsCaptureV2Writer.ExtendRecord | src/vnc/mvs_capture_v2_writer.rs:560-590 | the assembler accepts what the writer has checked; the record is complete exactly when the length is reached, and is then written or refused as such |
| CaptureWriter.MvsCaptureV2Writer.PollRecording | src/vnc/mvs_capture_v2_writer.rs:592-609 | decided by one reading of the clock: none or one that runs back fails closed; at the deadline Clean 1, or gap 6 and 263 with a record pending; a record pending for its lifetime ends with gap 5 and 262; else nothing changes |
| CaptureWriter.MvsCaptureV2Writer.PollAt | src/vnc/mvs_capture_v2_writer.rs:592-609 | the same at a given time |
| CaptureWriter.MvsCaptureV2Writer.ReadFailed | src/vnc/mvs_capture_v2_writer.rs:611-632 | decided by one reading of the clock: below the deadline and within the lifetime 261, with gap 7 if a record is pending; else as polling decides |
| CaptureWriter.MvsCaptureV2Writer.GenerationTransitionAttempted | src/vnc/mvs_capture_v2_writer.rs:634-641 | a geometry transition is 266, with gap 8 if a record is pending |
| CaptureWriter.MvsCaptureV2Writer.Cancel | src/vnc/mvs_capture_v2_writer.rs:643-655 | cancelling is 265, with gap 12 if a record is pending |
| CaptureWriter.MvsCaptureV2Writer.ConnectFailed | src/vnc/mvs_capture_v2_writer.rs:657-659 | 257, or 267 at the deadline |
| CaptureWriter.MvsCaptureV2Writer.AuthenticationFailed | src/vnc/mvs_capture_v2_writer.rs:661-663 | 258, or 267 at the deadline |
| CaptureWriter.MvsCaptureV2Writer.PreTriggerDeadlineFailed | src/vnc/mvs_capture_v2_writer.rs:665-668 | 267 |
| CaptureWriter.MvsCaptureV2Writer.OutputFailed | src/vnc/mvs_capture_v2_writer.rs:684-692 | 264, or 260 while triggering; abandons frames exactly when a record was pending; a record refused earlier stays refused |
| CaptureWriter.MvsCaptureV2Writer.CompleteRecord | src/vnc/mvs_capture_v2_writer.rs:694-749 | a completed record is written, counted by its tag and followed by the deadline and record-limit rules; a refused one is on the sink too, and fails closed except for tag 2 with a rectangle, which returns with the writer recording and past the deadline and limit rules |
| CaptureWriter.MvsCaptureV2Writer.TakeRecord | src/vnc/mvs_capture_v2_writer.rs:716-742 | the record event and its counters: what the reader accepts is counted alike by both, and what it refuses is on the sink all the same |
| CaptureWriter.MvsCaptureV2Writer.CountTag | src/vnc/mvs_capture_v2_writer.rs:723-742 | the tag check accepts exactly the records the reader accepts; among the others only tag 2 with a rectangle returns without failing closed |
| CaptureWriter.MvsCaptureV2Writer.PostFrame | src/vnc/mvs_capture_v2_writer.rs:782-794 | after a frame: 263 with gap 6 or Clean 1 at the deadline, Clean 2 below it exactly at the record limit, else nothing |
| CaptureWriter.MvsCaptureV2Writer.FrameDone | src/vnc/mvs_capture_v2_writer.rs:742-749 | the clock is read after a frame, and the deadline and then the record limit decide |
| CaptureWriter.MvsCaptureV2Writer.ValidateRecordRect | src/vnc/mvs_capture_v2_writer.rs:751-780 | the writer's rectangle check is the reader's |
| CaptureWriter.MvsCaptureV2Writer.EmitGap | src/vnc/mvs_capture_v2_writer.rs:818-847 | a gap is followed by the terminal its reason maps to; the two-slot budget check can fail only after a refused record |
| CaptureWriter.MvsCaptureV2Writer.WriteGap | src/vnc/mvs_capture_v2_writer.rs:818-847 | writing a gap fails exactly when a reading or an operation of the sink does, or when the event budget is used up, which happens only after a refused record |
| CaptureWriter.MvsCaptureV2Writer.AppendGap | src/vnc/mvs_capture_v2_writer.rs:818-847 | with two slots free the gap is written and counters, ledger and log stay in agreement, or the sink failed |
| CaptureWriter.MvsCaptureV2Writer.WriteNonterminal | src/vnc/mvs_capture_v2_writer.rs:849-882 | an event is appended whole with both counters, or nothing changes; the limit errors are exactly those of the budget, and any other is a refusal of the sink |
| CaptureWriter.MvsCaptureV2Writer.Finalize | src/vnc/mvs_capture_v2_writer.rs:884-892 | samples the clock, selects the reason and finalizes; only a failed reading or a refusal of the sink stops it |
| CaptureWriter.MvsCaptureV2Writer.Abort | src/vnc/mvs_capture_v2_writer.rs:884-892 | aborting with an allowed code while every source frame is in a record: one Aborted terminal with that code and no gap, or a failed clock or sink |
| CaptureWriter.MvsCaptureV2Writer.FinalizeAt | src/vnc/mvs_capture_v2_writer.rs:894-906 | selects the reason and finalizes at a given time |
| CaptureWriter.MvsCaptureV2Writer.FinalizeSelected | src/vnc/mvs_capture_v2_writer.rs:908-952 | the terminal slot of the event budget is always free; the state becomes terminal only when the sink was consumed without error |
| CaptureWriter.MvsCaptureV2Writer.WriteTerminal | src/vnc/mvs_capture_v2_writer.rs:918-940 | the terminal event carries the counters, and the reader's verdict on it is that all source frames are accounted for |
| CaptureWriter.MvsCaptureV2Writer.Now | src/vnc/mvs_capture_v2_writer.rs:988-993 | each reading of the clock is used once; one that runs back is an error, else the time is remembered |
| CaptureWriter.MvsCaptureV2Writer.ConsumeSink | src/vnc/mvs_capture_v2_writer.rs:1014-1038 | the three last operations are asked of the sink, and it succeeds exactly when all are taken and nothing failed earlier |
| CaptureWriter.CaptureCounters.ReserveEvent | src/vnc/mvs_capture_v2.rs:161-166 | the event counter stops at its limit and is unchanged on failure |
| CaptureWriter.CaptureCounters.ReservePayload | src/vnc/mvs_capture_v2.rs:168-178 | the payload counter stops at its limit and is unchanged on failure |
| MvsStream.MvsRecordAssembler.Begin | crates/frd-protocol-apple/src/mvs_stream.rs:64-88 | starting a record: its errors, and the record returned exactly when the first chunk is the whole of it |
| MvsStream.MvsRecordAssembler.PushContinuation | crates/frd-protocol-apple/src/mvs_stream.rs:90-109 | a continuation appends, and the record is returned exactly when the length is reached; too much drops it |
| CaptureAgreement.CountedCreated | src/vnc/mvs_capture_v2.rs:307-333 | the reader's state after the Created event agrees with the writer's counters |
| CaptureAgreement.CountedArmed | src/vnc/mvs_capture_v2.rs:334-354 | reader and writer counters agree after the Armed event |
| CaptureAgreement.CountedTriggered | src/vnc/mvs_capture_v2.rs:355-370 | reader and writer counters agree after the Triggered event |
| CaptureAgreement.CountedRecording | src/vnc/mvs_capture_v2.rs:371-378 | reader and writer counters agree after the Recording event, with no frame counted yet |
| CaptureAgreement.CountedRecord | src/vnc/mvs_capture_v2.rs:402-415 | below the reader's record limit a record is accepted exactly when its shape is valid, and it is counted by reader and writer alike |
| CaptureAgreement.CountedGap | src/vnc/mvs_capture_v2.rs:416-425 | with two event slots free a gap is accepted while recording, and room for the terminal remains |
| CaptureAgreement.CountedCanAbort | src/vnc/mvs_capture_v2.rs:757-777 | without a gap, exactly the listed Aborted codes of a phase may follow, and in Recording also 262 and 263 |
| CaptureAgreement.TerminalWantsGap | src/vnc/mvs_capture_v2.rs:779-800 | those two are then refused for want of a gap |
| CaptureAgreement.CountedCanEndAfterGap | src/vnc/mvs_capture_v2.rs:288-304 | after a gap exactly the Aborted terminal its reason maps to may follow, and no Clean one |
| CaptureAgreement.CountedCanEndClean | src/vnc/mvs_capture_v2.rs:871-892 | a Clean terminal may follow exactly while recording without a gap, with code 1 or 2 |
| CaptureAgreement.CountedTerminal | src/vnc/mvs_capture_v2.rs:779-894 | the reader's verdict on the writer's terminal is whether records and gap account for every source frame |
| CaptureAgreement.LedgeredRecord | src/vnc/mvs_capture_v2_writer.rs:694-749 | a new record keeps the ledger: every record is made of the frames of its range and tallied by its tag |
| CaptureAgreement.LedgeredFrame | src/vnc/mvs_capture_v2_writer.rs:968-973 | a new frame keeps the ledger |
| FrameLedger.TallyTiles | src/vnc/mvs_capture_v2.rs:810-829 | records that the reader's loop tallies have ranges that follow each other from 0 |
| FrameLedger.TallySnoc | src/vnc/mvs_capture_v2.rs:810-829 | a record that starts where the tally ends, with a known tag, extends it by its range and tag |
| FrameLedger.MadeOfGrows | src/vnc/mvs_capture_v2_writer.rs:968-973 | a record stays made of its frames when later frames arrive |
| FrameLedger.JoinedSnoc | crates/frd-protocol-apple/src/mvs_stream.rs:90-109 | the joined bodies of a run of fragments grow by the last one |
| CaptureLog.LogIsRead | src/vnc/mvs_capture_v2.rs:250-468 | reading the bytes of an event log whose run ends at a terminal is validating that terminal |
| CaptureLog.FileEvent | src/vnc/mvs_capture_v2_writer.rs:849-882 | appending an event's bytes extends the log the sink holds and advances the reader by one step; a refused event spoils the log, and nothing laid down later makes up for it |
| CaptureLog.ParseRecordRoundTrip | src/vnc/mvs_capture_v2.rs:567-612 | a record body laid out by the writer parses to the record |
| CaptureLog.ParseGapRoundTrip | src/vnc/mvs_capture_v2.rs:642-723 | a gap body parses to the gap exactly when its fields are valid for its reason |
| CaptureLog.ParseTerminalRoundTrip | src/vnc/mvs_capture_v2.rs:725-755 | a terminal body parses to the terminal |
| CaptureLog.TerminalStep | src/vnc/mvs_capture_v2.rs:426-443 | the reader stops at a terminal the phase rules allow |
| CaptureLog.TerminalStepsExactlyWhen | src/vnc/mvs_capture_v2.rs:288-304 | the reader stops at a terminal event exactly when its code may follow the events so far, whatever its counts, and refuses any other |
| CaptureLog.TerminalVerdict | src/vnc/mvs_capture_v2.rs:454-468 | the verdict on a terminal |
| CaptureLog.HeaderIsValid | src/vnc/mvs_capture_v2.rs:524-559 | the header the writer writes is the one the reader accepts |
| CaptureFormat.PrefixRoundTrip | src/vnc/mvs_capture_v2.rs:210-247 | an event prefix is read back |
| CaptureFormat.FrameRoundTrip | src/vnc/mvs_capture_v2.rs:210-247 | an encoded event is read back, whatever follows it |
| CaptureFormat.FramingRoundTrip | src/vnc/mvs_capture_v2.rs:182-247 | framing round-trips for every event sequence within the length limits |
| CaptureReader.ReadMvsCaptureV2Structural | src/vnc/mvs_capture_v2.rs:250-468 | the reader's loop computes the specification function |
| CaptureReader.ValidateTerminal | src/vnc/mvs_capture_v2.rs:779-894 | the recomputation of ranges and type counts in a loop decides the terminal rules |
| CaptureTheorems.PrefixFree | src/vnc/mvs_capture_v2.rs:449-453 | an accepted file is accepted neither cut short nor with anything appended |
| CaptureTheorems.AcceptedExactlyValidLogs | src/vnc/mvs_capture_v2.rs:250-468 | the structural reader accepts a byte string exactly when it is the file of a valid event log |
| CaptureTheorems.LogIsUnique | src/vnc/mvs_capture_v2.rs:210-247 | two event logs with the same bytes are the same |
| CaptureTheorems.SpoiledFileIsRefused | src/vnc/mvs_capture_v2.rs:585-600 | neither reader accepts a file with an event that the structural reader refuses, whatever follows it |
| CaptureTheorems.StrictIsCleanWithoutSurface | src/vnc/mvs_capture_v2.rs:470-522 | the strict reader is the structural one restricted to Clean files without a Surface event, with the same geometry, configuration, records and terminal; every other check it makes is implied |
| CaptureTheorems.StepKeepsShape | src/vnc/mvs_capture_v2.rs:281-448 | what the lifecycle rules make of the kinds and generations read so far |
| CaptureFacts.AcceptedFilesAreTruthful | src/vnc/mvs_capture_v2.rs:250-468 | everything an accepted file says of itself is true of what is in it: configuration and surfaces valid, every record's tag, rectangle and generation, the gap's fields, ranges that follow each other, counts by tag, payload budget, and an end for the reason given |
| CaptureFacts.ReasonsFitTheLifecycle | src/vnc/mvs_capture_v2.rs:757-777 | the reason an accepted file ends with fits how far its lifecycle came |
| CaptureFacts.LogsAreOrdered | src/vnc/mvs_capture_v2.rs:265-288 | the events of a log that is not refused are numbered from 0 without a gap, their times never go back, and there are at most 4102 |
| CaptureFacts.BodiesTell | src/vnc/mvs_capture_v2.rs:305-425 | the body of every event taken in is exactly the writer's encoding of what was taken from it |
| CaptureFacts.TerminalTells | src/vnc/mvs_capture_v2.rs:725-755 | so is the body of a terminal |
| CaptureFacts.RecordRectExactly | src/vnc/mvs_capture_v2.rs:614-640 | a record's rectangle is accepted exactly when it has pixels, all of them on the surface, within the decoder's limit |
| CaptureFacts.RecordShapeExactly | src/vnc/mvs_capture_v2.rs:585-612 | a payload's tag decides: 0 and 1 with such a rectangle, 2 with none, others never |
| CaptureFacts.GapFieldsExactly | src/vnc/mvs_capture_v2.rs:642-723 | which lengths and ranges a gap of each reason has, exactly |
| CaptureFacts.HeaderBytes | src/vnc/mvs_capture_v2_writer.rs:1098-1110 | the header byte by byte |
| CaptureFacts.CreatedBytes | src/vnc/mvs_capture_v2_writer.rs:235-241 | the Created body byte by byte |
| CaptureFacts.ArmedBytes | src/vnc/mvs_capture_v2_writer.rs:321-330 | the Armed body byte by byte |
| CaptureFacts.RecordBytes | src/vnc/mvs_capture_v2_writer.rs:700-710 | the Record body byte by byte |
| CaptureFacts.GapBytes | src/vnc/mvs_capture_v2_writer.rs:823-835 | the Gap body byte by byte |
| CaptureFacts.TerminalBytes | src/vnc/mvs_capture_v2_writer.rs:919-928 | the terminal body byte by byte |
| Bytes.NetworkOrder | src/vnc/mvs_capture_v2_writer.rs:702-708 | the first byte of a number weighs most |
| FrameMailbox.FrameMailbox.Push | crates/frd-frame/src/mailbox.rs:59-125 | a push changes the queue, the byte account and the surface in place as the specification says, and keeps the account exact |
| FrameMailbox.FrameMailbox.PatchesPixelBytes | crates/frd-frame/src/mailbox.rs:277-282 | the loop over patches: their total, unless one is invalid or the sum overflows |
| FrameMailbox.FrameMailbox.PushReset | crates/frd-frame/src/mailbox.rs:176-214 | a Reset of a later session, or of a later generation of the same, empties the queue and is queued alone; any other is rejected |
| FrameMailbox.FrameMailbox.PushCurrent | crates/frd-frame/src/mailbox.rs:216-240 | within both limits the update is appended; else the current surface's damage and boundaries are cleared |
| FrameMailbox.FrameMailbox.ClearCurrentDamageAndBoundaries | crates/frd-frame/src/mailbox.rs:242-270 | clearing keeps exactly the other entries and recounts the bytes |
| FrameMailbox.FrameMailbox.PopEnqueued | crates/frd-frame/src/mailbox.rs:135-142 | the front entry is removed and its bytes given back, which never underflows |
| MailboxDelivery.EveryRunKeepsInvariant | crates/frd-frame/src/mailbox.rs:59-142 | every run of pushes and pops: within both limits, at most one Reset and only at the front, everything else of the current surface, and popped plus queued updates form an orderly stream |
| MailboxDelivery.PoppedStreamIsWellFormed | crates/frd-frame/src/mailbox.rs:73-142 | each popped boundary directly follows the damage of its session, generation and revision; each popped damage follows a popped Reset of its surface with no other between |
| MailboxDelivery.PoppedRevisionsIncrease | crates/frd-frame/src/mailbox.rs:84-103 | popped damage revisions strictly increase within a surface |
| MailboxDelivery.OverflowLeavesReset | crates/frd-frame/src/mailbox.rs:216-270 | after an overflow the queue is empty or just the Reset, and no boundary is eligible |
| MailboxDelivery.OverflowRecovers | crates/frd-frame/src/mailbox.rs:157-174 | after an overflow, if the surface fits the byte budget and three entries fit, a full-surface damage with a fresh revision and then its boundary are queued |
| MailboxDelivery.PushKeepsAccount | crates/frd-frame/src/mailbox.rs:216-270 | a push keeps the byte account the sum over the queue |
| MailboxAdmission.PushedExactlyWhen | crates/frd-frame/src/mailbox.rs:59-125 | the answer to a push in every run, said of what was taken and how often it overflowed: a Reset is queued exactly when it is complete and comes after every Reset taken; damage must be of the last Reset's surface, newer than what was taken since, with patches that fit; a boundary must complete the damage taken just before; of what is not rejected a full snapshot is asked for exactly when a limit would be exceeded |
| MailboxAdmission.EveryRunFollows | crates/frd-frame/src/mailbox.rs:59-142 | the surface and revisions the mailbox keeps are those of its history, in every run |
| MailboxAdmission.QueueBytesAreLengths | crates/frd-frame/src/mailbox.rs:59-125 | the byte account of a queue is the length of the pixel data in it |
| MailboxAdmission.PatchFitsExactly | crates/frd-frame/src/mailbox.rs:277-308 | a patch is valid exactly when each of its pixels is on the surface and has its bytes in its row |
| TransactionCompiler.FrameTransactionCompiler.Compile | crates/frd-frame/src/transaction.rs:110-153 | compiling a batch in place; an error stops it where it is, and the transactions finished earlier in the batch are dropped with it |
| TransactionCompiler.FrameTransactionCompiler.CompileReset | crates/frd-frame/src/transaction.rs:183-212 | a Reset of a later generation replaces whatever was pending |
| TransactionCompiler.FrameTransactionCompiler.CompileDamage | crates/frd-frame/src/transaction.rs:214-264 | damage is taken into the pending startup or as the pending revision, or one of five errors |
| TransactionCompiler.FrameTransactionCompiler.CompileBoundary | crates/frd-frame/src/transaction.rs:266-345 | a boundary completes the pending startup or revision, or an error |
| TransactionCompiler.BatchesInTurn | crates/frd-frame/src/transaction.rs:110-153 | two batches in turn leave the same compiler and the same error as one batch; they hand out the same transactions if and only if neither fails, the first fails, or the first finished none |
| TransactionCompiler.StopsAtFirstFailure | crates/frd-frame/src/transaction.rs:110-153 | a batch leaves the compiler as the updates before the first failing one do, with the error of that update |
| TransactionCompiler.PartFinishes | crates/frd-frame/src/transaction.rs:110-153 | of an accepted batch a shorter part finishes the first transactions, and all of them exactly when no boundary is left |
| TransactionCompiler.NothingIsLost | crates/frd-frame/src/transaction.rs:37-57 | every update accepted, in a batch that fails or not, is in a transaction handed out, in one dropped with the error, still buffered, or was discarded by a later Reset; startup and revision are never pending together |
| CompiledStreams.EmitsAssembled | crates/frd-frame/src/transaction.rs:183-345 | what is emitted is read off the stream: a boundary with the damage, and the Reset, directly before it, with the earliest enqueue time of the parts |
| CompiledStreams.StepHolds | crates/frd-frame/src/transaction.rs:183-345 | what the compiler holds is read off the end of the stream |
| CompiledStreams.TransactionsAreOrdered | crates/frd-frame/src/transaction.rs:183-345 | generations never go back; within one only the first transaction is a Startup, a full baseline, and revisions strictly increase |
| CompiledStreams.OrderlyUpdate | crates/frd-frame/src/transaction.rs:214-345 | an update of an orderly stream is accepted exactly when it keeps the pairing, and the error of one that does not |
| CompiledStreams.OrderlyStreamCompiles | crates/frd-frame/src/transaction.rs:110-345 | an orderly stream compiles exactly when it is well paired; otherwise one of two errors |
| CompiledStreams.DeliveredStreamCompiles | crates/frd-frame/src/mailbox.rs:59-142 | under any interleaving of pushes and pops of one session and any batching, the popped stream can fail only with a revision while one is pending or a startup boundary that is no full baseline, and exactly when it is not well paired; handed out are the transactions read off the stream up to the start of the batch with the first update that breaks the pairing, which are all that were finished exactly when no boundary stands in that batch before it |
| CompiledStreams.BatchesCompileAsOne | crates/frd-frame/src/transaction.rs:110-153 | however a stream is cut into batches, compiler and error are those of one batch; handed out are the transactions finished before the batch that fails |
| CompiledStreams.CuttingMattersExactlyWhen | crates/frd-frame/src/transaction.rs:110-153 | two ways of cutting a stream hand out the same transactions if and only if no boundary lies between the starts of their failing batches |
| CompiledStreams.CuttingCanMatter | crates/frd-frame/src/transaction.rs:110-153 | a concrete stream: in two batches its Startup is handed out before the error, in one batch it is lost though the compiler has gone on |
| CompiledStreams.OrderlyStreamStops | crates/frd-frame/src/transaction.rs:214-345 | an orderly stream is compiled exactly up to the first update that breaks the pairing |
| CompilerAdmission.CompiledExactlyWhen | crates/frd-frame/src/transaction.rs:183-345 | after any accepted stream the next update is accepted exactly when the stream allows it: a Reset of a later generation, damage behind a Reset or a boundary and newer than the boundaries of its generation, the boundary of the damage just before; any other is refused with the error that names its fault |
| CompilerAdmission.AcceptedStreamIsGreatest | crates/frd-frame/src/transaction.rs:183-345 | the generation and revision the compiler keeps are the greatest of the stream |
| CompiledStreams.WaitsSinceTheFirst | crates/frd-frame/src/transaction.rs:37-57 | a transaction waits since the first of its two or three parts was queued |
| CompiledStreams.NoOverflowNeverFails | crates/frd-frame/src/mailbox.rs:73-142 | without overflow a well-paired producer never makes the compiler fail |
| CompiledStreams.NoOverflowTracks | crates/frd-frame/src/mailbox.rs:59-142 | without overflow neighbours in the delivered stream were neighbours in the accepted one, except across a Reset |
| CompiledStreams.OverflowCanBreakPairing | crates/frd-frame/src/mailbox.rs:216-270 | with overflow it can: a run whose accepted updates are well paired delivers two damages in a row |
| CompiledStreams.OverflowBreaksExactlyWhen | crates/frd-frame/src/mailbox.rs:216-270 | a damage queued next after an overflow breaks the pairing exactly when the queue is empty and the last update popped is a damage, whose boundary was lost |
| CompiledStreams.BoundaryBreaksExactlyWhen | crates/frd-frame/src/mailbox.rs:59-142 | the boundary queued for a damage, however many pops and refused pushes later, breaks the pairing exactly when the damage follows a Reset and the boundary is no full baseline |
| AppRuns.EveryRunIsSound | crates/frd-app/src/controller.rs:373-1077 | every run: session and slot agree, a live page has a live slot of that session, a disconnecting page a closing one, a pending login waits for the connecting session, shown capabilities are the effective ones |
| AppRuns.StepKeepsSound | crates/frd-app/src/controller.rs:463-533 | every input keeps that invariant |
| AppController.EventKeepsSound | crates/frd-app/src/controller.rs:754-858 | every session event of every session keeps it |
| AppRuns.RoutedInputWasPresented | crates/frd-app/src/controller.rs:1061-1077 | routed input goes to a session and generation for which a full baseline was presented earlier in the run, both unchanged since |
| AppRuns.RemoteSessionIsPresented | crates/frd-app/src/controller.rs:1037-1053 | the remote session page appears only by presenting a full baseline of the current session and generation |
| AppRuns.SavedChangesOnlyWhenReady | crates/frd-app/src/controller.rs:787-801 | saved credentials and profiles change only while handling TransportReady of the session with the pending login, and then the login is no longer pending |
| AppRuns.ReadyResolvesPending | crates/frd-app/src/controller.rs:779-801 | TransportReady resolves the pending login exactly when the remote session page is not showing yet |
| AppRuns.PendingWasOpened | crates/frd-app/src/controller.rs:576-620 | a pending login was opened by one connection of the run, and that connection's password is staged |
| AppRuns.SavedLoginWasSubmitted | crates/frd-app/src/controller.rs:881-937 | what is saved without a warning is the password of the connection that opened the transaction, with the newest profile of that key |
| AppRuns.OtherLoginsStay | crates/frd-app/src/controller.rs:881-971 | over a whole run a login whose key no connection named stays exactly as it was in both stores |
| AppRuns.PendingIsNamed | crates/frd-app/src/controller.rs:576-610 | a login becomes pending only under the key its connection remembers or forgets |
| AppRuns.RejectionLosesNothing | crates/frd-app/src/controller.rs:665-684 | a submission turned down is back in the form so that submitting it again gives the same submission, among the same profiles; no session starts, nothing saved or pending changes, and at most its own staged entry is added |
| AppRuns.RefusalsGivingBack | crates/frd-app/src/controller.rs:520-638 | a submission taken from a complete form starts a session exactly when the slot is free, the pin can be read and a password to remember is staged; refused, it is back in the form exactly when the slot was free and the pin could be read, and on the other two refusals nothing changes and the password is lost |
| AppRuns.ReturningKeepsSession | crates/frd-app/src/controller.rs:502-510 | going back to the form leaves session, slot, pending login and stores as they are; nothing is routed from there and no other session can start before this one has ended |
| AppRuns.TidyRunsLeaveNothingStaged | crates/frd-app/src/controller.rs:973-986 | in runs whose discards take effect nothing stays staged once no login is pending |
| AppRuns.NothingStaysStagedExactlyWhen | crates/frd-app/src/controller.rs:576-620 | in every run, once no login is pending, what is staged is exactly what leaked: entries staged behind a failure report, and those of ended logins that no discard, commit or compensation removed; nothing is staged if and only if no step leaked one |
| AppRuns.OtherEntriesStay | crates/frd-app/src/controller.rs:881-986 | a step other than a connection leaves every staged entry but that of the pending login as it is, password included; that one survives the end of the login exactly when no call removed it |
| AppRuns.SlotIsExclusive | crates/frd-app/src/controller.rs:1182-1292 | the slot is filled only when free and freed only by the token of its own reservation |
| AppRuns.EverySessionCanEnd | crates/frd-app/src/controller.rs:482-501 | from any reachable state, disconnecting and then its cleanup free session and slot |
| AppRuns.DraftIsRetained | crates/frd-app/src/controller.rs:379-391 | no event, cancellation or cleanup changes the draft on screen |
| AppRuns.SelectedProfileIsResubmitted | crates/frd-app/src/controller.rs:640-663 | a saved profile chosen and submitted again has its key, protocol and saved password |
| AppRuns.PinsAreTrusted | crates/frd-app/src/controller.rs:1109-1160 | a pin is stored only by trusting an unknown identity of the current session; a mismatch can only be rejected |
| AppLaws.StartedAsSubmitted | crates/frd-app/src/controller.rs:576-638 | in every run a session is started with the user name, password, address, port and protocol submitted and the pin trusted last for its protocol and endpoint; it is then the current session, and the permit is the slot's owner |
| AppLaws.PinsAreLatest | crates/frd-app/src/controller.rs:1109-1160 | the pin stored for a site is the fingerprint trusted and remembered last, or the one stored at the start |
| AppLaws.SelectedExactlyWhen | crates/frd-protocol-api/src/lib.rs:164-190 | a protocol is selected exactly when it is registered, permitted for the target system, and named or its default |
| AppLaws.AcceptedExactlyWhen | crates/frd-app/src/controller.rs:527-560 | a submission is turned down for none of its fields exactly when they are complete and its protocol resolves |
| AppLaws.RejectionNamesTheField | crates/frd-app/src/controller.rs:527-560 | the code names the first field that is missing |
| AppLaws.ProfilesFillTheForm | crates/frd-app/src/controller.rs:640-663 | a saved profile fills the form exactly when it is listed |
| AppLaws.OtherSessionsAreIgnored | crates/frd-app/src/controller.rs:742-753 | an event of another session changes nothing |
| AppLaws.StagesAreShown | crates/frd-app/src/controller.rs:780-817 | a session that is not presented yet shows its stage; readiness makes the slot active and resolves the pending login, with its warning |
| AppLaws.ChallengesArrive | crates/frd-app/src/controller.rs:1080-1090 | a challenge of the live session is put to the user |
| AppLaws.ChallengeWasReceived | crates/frd-app/src/controller.rs:1080-1090 | the challenge before the user is the last one the current session sent, and is not answered |
| AppLaws.DecisionsAreSentExactlyWhen | crates/frd-app/src/controller.rs:1109-1160 | a decision is sent exactly for the challenge before the user, as made: a mismatch only rejected, an identity remembered only if unknown and stored |
| AppLaws.GenerationsGrow | crates/frd-app/src/controller.rs:837-858 | a surface generation only grows, and a new one has to be presented again |
| AppLaws.PresentedExactlyWhen | crates/frd-app/src/controller.rs:1037-1053 | the remote session appears exactly when a full baseline of its current generation is presented while awaited |
| AppLaws.GrantedByAllThree | crates/frd-app/src/controller.rs:686-690 | a capability is effective exactly when protocol, platform and product grant it |
| AppLaws.GrantsAreKept | crates/frd-app/src/controller.rs:692-720 | changing one grant leaves the others, and what is on screen shows what is effective then |
| AppLaws.RoutedExactlyWhen | crates/frd-app/src/controller.rs:1061-1077 | input is routed exactly while the session is on screen, text only with its grant |
| AppLaws.FailuresAreShown | crates/frd-app/src/controller.rs:860-879 | an error ends the session and is shown, the first one if there are several |
| AppLaws.ClosesAreShown | crates/frd-app/src/controller.rs:988-1004 | a close ends the session and is shown as disconnecting, unless it had failed |
| AppLaws.RemoteDisconnectsAreShown | crates/frd-app/src/controller.rs:1006-1019 | a disconnect of the remote side starts the end |
| AppLaws.DisconnectsOnce | crates/frd-app/src/controller.rs:482-501 | the user disconnects once, and only a session that has not begun to end |
| AppLaws.CleanupsAreFinal | crates/frd-app/src/controller.rs:373-395 | exactly the cleanup of this reservation frees slot and session, and brings the form back unless a failure is on screen |
| AppLaws.RollbacksAreShown | crates/frd-app/src/controller.rs:413-437 | exactly an unconsumed rollback of a connecting launch frees the slot and shows why |
| AppController.TakenSubmissionsAreAccepted | crates/frd-ui-model/src/lib.rs:189-243 | a submission taken from a complete form is not turned down by the controller |
| AppController.AppController.Start | crates/frd-app/src/controller.rs:520-638 | starting a connection in place: every check in order, staging, reservation and request; the invariant is kept |
| AppController.AppController.SelectProfile | crates/frd-app/src/controller.rs:640-663 | a listed profile fills the form with its key and saved password, ready to submit; an unlisted one changes nothing; the invariant is kept |
| AppController.AppController.Cancel | crates/frd-app/src/controller.rs:482-501 | a live session is disconnected once, its pending login dropped with the staged entry, and its slot left closing; otherwise nothing changes; the invariant is kept |
| AppController.AppController.Resolve | crates/frd-app/src/controller.rs:1109-1160 | a decision is sent only for the current challenge of the current session, after the pin checks in order and storing the pin; the invariant is kept |
| AppController.AppController.HandleSessionEvent | crates/frd-app/src/controller.rs:742-772 | events of another session are ignored; terminal events are handled on every page, others on live pages; the invariant is kept |
| AppController.AppController.HandleLiveSessionEvent | crates/frd-app/src/controller.rs:773-858 | on a live page: stages, challenges of this session, later generations and capabilities, each in place as specified |
| AppController.AppController.HandleStage | crates/frd-app/src/controller.rs:780-817 | a change of stage in place; readiness takes the pending transaction and activates the slot, unless the remote session is showing |
| AppController.AppController.FinishPendingProfile | crates/frd-app/src/controller.rs:881-949 | the pending transaction is taken once, by its own session |
| AppController.AppController.HandleTerminalFailure | crates/frd-app/src/controller.rs:860-879 | an error drops the pending login, leaves the slot to cleanup and shows the failure, keeping an earlier one |
| AppController.AppController.HandleNormalClose | crates/frd-app/src/controller.rs:988-1004 | a close ends it on the disconnecting page, unless it had failed |
| AppController.AppController.HandleDisconnectStage | crates/frd-app/src/controller.rs:1006-1019 | a remote disconnect starts closing |
| AppController.AppController.DiscardPendingProfile | crates/frd-app/src/controller.rs:973-986 | a pending login of this session is dropped with its staged credential |
| AppController.AppController.FinishCleanup | crates/frd-app/src/controller.rs:373-395 | a completed cleanup of this reservation frees slot and session and returns to the form from the disconnecting page; any other is refused; the invariant is kept |
| AppController.AppController.ConsumeRollback | crates/frd-app/src/controller.rs:413-437 | a launch rolled back frees the slot and shows the failure only while it is still connecting and its abort is unconsumed; the invariant is kept |
| SessionSlot.ActiveSessionSlot.BeginConnect | crates/frd-app/src/controller.rs:1187-1201 | a free slot is reserved |
| SessionSlot.ActiveSessionSlot.MarkActive | crates/frd-app/src/controller.rs:1203-1213 | only a connecting slot of that session becomes active |
| SessionSlot.ActiveSessionSlot.AbortConnect | crates/frd-app/src/controller.rs:1216-1228 | only the unconsumed abort of this reservation, still connecting, frees the slot |
| SessionSlot.ActiveSessionSlot.BeginDisconnect | crates/frd-app/src/controller.rs:1230-1253 | disconnecting starts once |
| SessionSlot.ActiveSessionSlot.BeginTerminal | crates/frd-app/src/controller.rs:1255-1274 | a terminal event leaves the slot waiting for cleanup |
| SessionSlot.ActiveSessionSlot.FinishCleanup | crates/frd-app/src/controller.rs:1277-1292 | only the completion of this reservation frees a closing slot |
| SessionSlot.SessionStartAbort.ConsumeFor | crates/frd-session/src/coordinator.rs:91-108 | an abort can be consumed once, for its own reservation |
| SavedLogins.RememberSucceeds | crates/frd-app/src/controller.rs:893-937 | success: the staged password is saved and unstaged, the profile is stored as the newest, and every login of another key stays in its place |
| SavedLogins.FinishTouchesOneKey | crates/frd-app/src/controller.rs:881-971 | however its calls turn out, a transaction touches the saved login of its own key and the staged entry of its own session |
| SavedLogins.RememberSucceedsExactlyWhen | crates/frd-app/src/controller.rs:893-937 | exactly when remembering reports success |
| SavedLogins.RememberIsAtomic | crates/frd-app/src/controller.rs:918-967 | however the commit fails, working compensation restores both stores and leaves nothing staged |
| SavedLogins.FailedRememberSaved | crates/frd-app/src/controller.rs:951-971 | a failed remember restores the saved credentials if and only if the compensating calls that ran undo what was written |
| SavedLogins.FailedRememberStaged | crates/frd-app/src/controller.rs:951-971 | and leaves nothing staged if and only if one of its calls removed the entry; other sessions' entries are untouched |
| SavedLogins.FailedRememberProfiles | crates/frd-app/src/controller.rs:926-936 | and leaves the profiles as they were if and only if the upsert had no effect behind its failure report |
| SavedLogins.ForgetIsOrdered | crates/frd-app/src/controller.rs:938-947 | forgetting removes the credential first, so a profile never goes while its credential stays; no warning exactly when both calls work; which of the two is gone in the end, exactly; every login of another key stays in its place |
| SavedLogins.FinishPending | crates/frd-app/src/controller.rs:881-949 | the transaction in place, call by call |
| SavedLogins.CompensateCredentialCommit | crates/frd-app/src/controller.rs:951-971 | the compensation in place |
| SavedLogins.NextOrder | crates/frd-app/src/controller.rs:894-911 | the loop over the profiles finds the newest order plus one, or overflow |
| SavedLogins.ProfileStore.Upsert | crates/frd-platform-windows/src/connection_profiles.rs:73-78 | an upsert replaces the profile of that key at the end |
| SavedLogins.CredentialStore.Commit | crates/frd-platform-windows/src/secure_credentials.rs:41-46 | a commit writes the saved entry and then removes the staged one; it can fail before, between and after |
| Framebuffers.UpdatedAt | src/framebuffer.rs:39-86 | point by point: Raw shows its data and Copy the pre-copy source pixel, 0 off the surface, inside the clipped rectangle even when source and target overlap; all else is unchanged |
| Framebuffers.AppliedInOrder | src/framebuffer.rs:39-46 | operations take effect one after the other, in their order |
| Framebuffers.LastWriteShows | src/framebuffer.rs:39-86 | a point shows what the last operation on it left there |
| Framebuffers.UntouchedStays | src/framebuffer.rs:39-86 | a point with no operation on it stays as it was |
| Framebuffers.Framebuffer.WriteRow | src/framebuffer.rs:50-59 | one row, clipped |
| Framebuffers.Framebuffer.WriteRect | src/framebuffer.rs:49-60 | the row loop writes exactly the clipped rectangle |
| Framebuffers.Framebuffer.CopyRect | src/framebuffer.rs:63-86 | gathering first and writing then is the simultaneous copy |
| Framebuffers.GatheredIsCopy | src/framebuffer.rs:63-86 | writing what was gathered is the copy |
| Framebuffers.Framebuffer.Apply | src/framebuffer.rs:39-46 | applying a list is folding the pure updates |
| Framebuffers.NewFramebuffer | src/framebuffer.rs:20-32 | a buffer of zeros exactly for a valid geometry |
| UpdateParser.RfbConn.ReadFramebufferUpdate | src/vnc/client.rs:496-554 | the loop over rectangles reads exactly what the specification parser says and consumes exactly its bytes |
| UpdateParser.RfbConn.ReadRectangle | src/vnc/client.rs:504-553 | one rectangle |
| UpdateParser.RfbConn.ReadBody | src/vnc/client.rs:510-553 | the encodings and their errors, in order |
| UpdateParser.RfbConn.ReadCursor | src/vnc/client.rs:532-545 | a cursor payload is checked, read and dropped |
| UpdateParser.DecodeRawPixels | src/vnc/client.rs:463-477 | raw bytes decode exactly when they are whole pixels |
| UpdateParser.PixelsRoundTrip | src/vnc/client.rs:463-477 | decoding inverts encoding of pixels |
| UpdateParser.RawRoundTrip | src/vnc/client.rs:463-477 | encoding inverts decoding of raw bytes |
| UpdateParser.UpdateAcceptedExactly | src/vnc/client.rs:496-554 | an update is read from so many bytes exactly when they encode at most 4096 rectangles within the limits, whatever follows |
| UpdateParser.ItemsAcceptedExactly | src/vnc/client.rs:503-554 | the same for a list of rectangles and the raw bytes already used |
| UpdateParser.ParsedItemsAreEncoded | src/vnc/client.rs:503-554 | whatever a list is read as, its bytes are the encoding of that |
| UpdateParser.EncodedItemsParse | src/vnc/client.rs:503-554 | an encoded list is read back |
| UpdateParser.DrawnInOrder | src/vnc/client.rs:503-554 | every rectangle with pixels is drawn, in the order received |
| UpdateParser.RefusalsAreNamed | src/vnc/client.rs:504-553 | the error of a rectangle names its fault: size, then what its encoding asks for |
| UpdateParser.HeaderBytes | src/vnc/client.rs:504-509 | a rectangle header byte by byte |
| UpdateParser.CopyBytes | src/vnc/client.rs:519-531 | the source of a copy byte by byte |
| UpdateParser.PixelBytes | src/vnc/client.rs:463-477 | pixels come least significant byte first |
| UpdateParser.ParsedUpdatesApply | src/vnc/client.rs:436-461 | raw data stays within the budget, and applying what was read never leaves the data or a buffer of any size |
| UpdateParser.EncodedItemParses | src/vnc/client.rs:504-553 | an encoded rectangle is read back |
| UpdateParser.ParsedItemIsEncoded | src/vnc/client.rs:504-553 | what is read is the encoding of what it is read as |
| Viewport.FitIsLargest | crates/frd-core/src/viewport.rs:29-70 | the content is in the bounds, fills an axis, is centred within a pixel, and is the remote picture at the largest scale that fits, rounded down with a one-pixel floor; the upper clamps cut nothing |
| Viewport.MapAxisIsMonotone | crates/frd-core/src/viewport.rs:72-96 | pointer mapping is monotone and stays on the remote surface |
| Viewport.MapAxisEnds | crates/frd-core/src/viewport.rs:72-96 | first goes to first and last to last |
| Viewport.PointerAtPixel | crates/frd-core/src/viewport.rs:72-115 | a content pixel means the remote pixel that lies as far across and as far down |
| Viewport.PointerIsMonotone | crates/frd-core/src/viewport.rs:72-115 | moving right or down never moves what is meant left or up, nor across |
| Viewport.PositionMeansPixelExactlyInside | crates/frd-core/src/viewport.rs:10-96 | fitted to a window, the picture fills one axis of it, and a pointer position means a remote pixel, which is on the remote surface, exactly when it lies on the picture |
| Viewport.EveryPixelIsReachedExactlyWhen | crates/frd-core/src/viewport.rs:72-96 | every remote pixel is some content pixel's exactly when the content is at least as wide |
| Viewport.WideContentReaches | crates/frd-core/src/viewport.rs:72-96 | with wide content every remote pixel is reached |
| Viewport.NarrowContentMisses | crates/frd-core/src/viewport.rs:72-96 | with narrow content a particular one is not |
| SecretText.SecretBuffer.ReplaceTextCharRange | crates/frd-core/src/secret.rs:29-48 | succeeds exactly for text and a range in it; then the text is spliced by characters, else nothing changes; the capacity is never negative |
| SecretText.SecretBuffer.InsertTextAtChar | crates/frd-core/src/secret.rs:50-52 | inserting at a character |
| SecretText.SecretBuffer.DeleteTextCharRange | crates/frd-core/src/secret.rs:54-56 | deleting characters |
| SecretText.SpliceIsSplice | crates/frd-core/src/secret.rs:41-46 | splicing bytes at character boundaries is splicing characters |
| SecretText.CharRangeToByteRange | crates/frd-core/src/secret.rs:63-79 | the byte range of a character range, exactly when it is one |
| SecretText.Boundaries | crates/frd-core/src/secret.rs:71-76 | walking over the text finds every character boundary |
| Utf8.BytesOfScalar | crates/frd-core/src/secret.rs:25-27 | the bytes of a character, by the table of RFC 3629 |
| Utf8.DecodesExactly | crates/frd-core/src/secret.rs:25-27 | strict decoding yields exactly the text whose encoding the bytes are |
| ColdCredentials.GuardedCredentialFrame.ReadWith | src/vnc/cold_credentials.rs:45-70 | the error is the one of reading exactly when a read has failed; else the outcome depends on the whole input alone, not on how reads are cut or interrupted |
| ColdCredentials.GuardedCredentialFrame.ParseInPlace | src/vnc/cold_credentials.rs:72-161 | every check in order, and the ranges set in place |
| ColdCredentials.GuardedCredentialFrame.Slices | src/vnc/cold_credentials.rs:163-177 | the fields of an accepted frame are valid and encode to its bytes |
| ColdCredentials.AcceptedExactlyEncodings | src/vnc/cold_credentials.rs:72-161 | exactly the encodings of valid logins are accepted, with their fields, and the ranges tile everything after the header |
| ColdCredentials.RefusalsAreNamed | src/vnc/cold_credentials.rs:72-161 | the category names the first fault: size, magic, lengths and port, their sum, and then the fields |
| ColdCredentials.ValidateIdentity | src/vnc/cold_credentials.rs:341-351 | host and username: text without control characters or surrounding white space |

## Left out

- ColdSession.RecordingLoop: runs over a finite script of loop steps; a session that would go on after it counts as unfinished.
- ColdSession.ProcessFrame: the class of a frame that arrives while no record is pending is an arbitrary input, because `hpss::parse_media` is not part of this model; a frame that arrives while one is pending is a continuation, as in the source.
- CaptureReader.ReadMvsCaptureV2Structural: reads a whole byte string instead of a stream of reads, so limits that only bound a single allocation are not modelled.
- CaptureWriter.MvsCaptureV2Writer.ConsumeSink: flushing, syncing and giving up the file are three calls that may fail; a failed write appends nothing, so a partial physical write is not modelled.
- CaptureWriter.MvsCaptureV2Writer.New: the file origin, the absolute deadline as an `Instant` and its overflow check are not modelled; time is a number of microseconds.
- FrameMailbox.FrameMailbox.Push: the instant an update is queued at is part of the update instead of being sampled; sizes are 64 bits wide.
- MailboxDelivery.OverflowRecovers: the surface's pixel format is a parameter; all formats have four bytes a pixel.
- CompiledStreams.DeliveredStreamCompiles: one session, as the compiler serves one; a caller that hands over further batches after a failed one is not modelled.
- AppRuns.NothingStaysStagedExactlyWhen: session ids are distinct, as their allocation promises; the allocator is not modelled.
- AppRuns.RoutedInputWasPresented: presentation events are inputs of the run; that the renderer sends them truthfully is outside the model.
- SavedLogins.RememberIsAtomic: failures within one process; a crash between two store calls is not modelled, as the source says of itself.
- AppController.AppController.SelectProfile: the errors shown on the form and the order in which profiles are listed are not modelled.
- ColdCredentials.GuardedCredentialFrame.ReadWith: a read that claims more bytes than the buffer holds breaks the contract of `Read` and is not modelled.
- Framebuffers.NewFramebuffer: a failing memory reservation is not modelled.
- Viewport.MapAxisIsMonotone: pointer positions are real numbers; rounding in `f32` and `f64` is not modelled, and neither are values that are not finite.
- Entry points of the controller without stores exist only for the source's tests and are not modelled.
- Clipboard payloads, presentation timing labels, audio state other than a failure, and the session title bar are not modelled: they would only add easy members.
- Error texts and their translations; where the source distinguishes errors only by text, the model keeps the distinction only where a caller can see it.
- Wiping secrets from memory: a property of volatile writes that the model cannot express.
- Capture format version 1, PNG export and the other RFB server messages: short and separate.
- Sockets, TLS, SRTP, SRP, the media decoders, wgpu presentation and the desktop shell.
