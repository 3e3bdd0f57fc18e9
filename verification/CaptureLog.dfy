/**
 Event logs: how the reader runs over the events a writer has laid down, and what each event body
 the writer produces makes the reader do.
 */
module CaptureLog {
  import opened Bytes
  import opened Results
  import opened MvsStream
  import opened CaptureFormat
  import opened CaptureReader

  ghost function Run(log: seq<RawEvent>): Progress
    decreases |log|
  {
    if log == [] then More(InitialState)
    else
      var before := Run(log[..|log| - 1]);
      if before.More? then Step(before.state, log[|log| - 1]) else Rejected
  }

  ghost function FileBytes(log: seq<RawEvent>): seq<u8>
    requires AllEncodable(log)
  {
    CaptureHeader() + EncodeAll(log)
  }

  /** The sink holds exactly this log, and running the reader over the log gives this state and ending. */
  ghost predicate Laid(sink: seq<u8>, log: seq<RawEvent>, seen: ReaderState, ending: Option<Terminal>) {
    && AllEncodable(log)
    && sink == FileBytes(log)
    && Run(log) == (if ending.Some? then Done(seen, ending.value) else More(seen))
  }

  /** The sink holds exactly this log, and the reader refuses it: it stops at an event of the log. */
  ghost predicate Spoiled(sink: seq<u8>, log: seq<RawEvent>) {
    AllEncodable(log) && sink == FileBytes(log) && Run(log).Rejected?
  }

  /** The sink holds this log, which the reader refuses if it is spoiled and else reads up to this state. */
  ghost predicate Filed(sink: seq<u8>, log: seq<RawEvent>, seen: ReaderState, ending: Option<Terminal>, spoiled: bool) {
    if spoiled then Spoiled(sink, log) else Laid(sink, log, seen, ending)
  }

  /** A refused event spoils the log, and nothing laid down later makes up for it. */
  lemma FileEvent(sink: seq<u8>, log: seq<RawEvent>, seen: ReaderState, spoiled: bool, e: RawEvent)
    requires Filed(sink, log, seen, None, spoiled) && Encodable(e)
    ensures var next := Step(seen, e);
            && (spoiled || next.Rejected? ==> Spoiled(sink + EventBytes(e), log + [e]))
            && (next.More? ==> Filed(sink + EventBytes(e), log + [e], next.state, None, spoiled))
            && (next.Done? ==> Filed(sink + EventBytes(e), log + [e], next.state, Some(next.terminal), spoiled))
  {
    hide Step;
    EncodeAllSnoc(log, e);
    if spoiled {
      assert (log + [e])[..|log|] == log;
    } else {
      RunSnoc(log, e);
    }
  }

  lemma SpoiledIsFiled(sink: seq<u8>, log: seq<RawEvent>, seen: ReaderState)
    requires Spoiled(sink, log)
    ensures Filed(sink, log, seen, None, true)
  {
  }

  lemma RunSnoc(log: seq<RawEvent>, e: RawEvent)
    requires Run(log).More?
    ensures Run(log + [e]) == Step(Run(log).state, e)
  {
    assert (log + [e])[..|log|] == log;
  }

  lemma EncodeAllSnoc(log: seq<RawEvent>, e: RawEvent)
    requires AllEncodable(log) && Encodable(e)
    ensures AllEncodable(log + [e])
    ensures EncodeAll(log + [e]) == EncodeAll(log) + EventBytes(e)
    ensures FileBytes(log + [e]) == FileBytes(log) + EventBytes(e)
  {
    assert (log + [e])[..|log|] == log;
    Associative(CaptureHeader(), EncodeAll(log), EventBytes(e));
  }

  lemma {:induction false} RunPrefixMore(log: seq<RawEvent>, i: nat)
    requires i < |log| && !Run(log).Rejected?
    ensures Run(log[..i]).More?
    decreases |log|
  {
    var front := log[..|log| - 1];
    if i < |log| - 1 {
      assert front[..i] == log[..i];
      RunPrefixMore(front, i);
    }
  }

  lemma {:induction false} ReadsFrom(log: seq<RawEvent>, i: nat)
    requires AllEncodable(log) && Run(log).Done? && i < |log|
    ensures Run(log[..i]).More?
    ensures ReadEvents(EncodeAll(log[i..]), Run(log[..i]).state) == Finish(Run(log).state, Run(log).terminal, [])
    decreases |log| - i
  {
    hide Step;
    RunPrefixMore(log, i);
    var tail := log[i + 1..];
    assert log[i..] == [log[i]] + tail;
    EncodeAllCons(log[i], tail);
    FrameRoundTrip(log[i], EncodeAll(tail));
    assert log[..i + 1][..i] == log[..i];
    if i + 1 == |log| {
      assert log[..i + 1] == log;
    } else {
      ReadsFrom(log, i + 1);
    }
  }

  lemma HeaderIsValid()
    ensures ValidHeader(CaptureHeader())
  {
    hide U16, U32, U64, FromU16, FromU32, FromU64;
    U16RoundTrip(HEADER_BYTES);
    U16RoundTrip(1);
    var h := CaptureHeader();
    assert h[..8] == MAGIC;
    assert h[8..10] == U16(HEADER_BYTES);
    assert h[14..16] == U16(1);
    assert h[16..20] == U32(MAX_PAYLOAD);
    assert h[20..24] == U32(MAX_EVENT_BODY);
    assert h[24..28] == U32(MAX_RECORDS);
    assert h[28..32] == U32(MAX_DURATION_MS);
    U32RoundTrip(MAX_PAYLOAD);
    U32RoundTrip(MAX_EVENT_BODY);
    U32RoundTrip(MAX_RECORDS);
    U32RoundTrip(MAX_DURATION_MS);
  }

  /** Reading the bytes of a log whose run ends at a terminal is validating that terminal. */
  lemma LogIsRead(log: seq<RawEvent>)
    requires AllEncodable(log) && Run(log).Done?
    ensures ReadStructural(FileBytes(log)) == Finish(Run(log).state, Run(log).terminal, [])
  {
    HeaderIsValid();
    var data := FileBytes(log);
    assert data[..HEADER_BYTES] == CaptureHeader();
    assert data[HEADER_BYTES..] == EncodeAll(log);
    assert log[..0] == [] && log[0..] == log;
    ReadsFrom(log, 0);
  }

  // ---------- Body round trips ----------

  lemma ParseRectRoundTrip(rect: MvsRect)
    ensures ParseRect(RectBytes(rect)) == rect
  {
    hide U16, U32, U64, FromU16, FromU32, FromU64;
    U16RoundTrip(rect.x);
    U16RoundTrip(rect.y);
    U16RoundTrip(rect.width);
    U16RoundTrip(rect.height);
    var b := RectBytes(rect);
    assert b[0..2] == U16(rect.x) && b[2..4] == U16(rect.y);
    assert b[4..6] == U16(rect.width) && b[6..8] == U16(rect.height);
  }

  lemma ParseRecordRoundTrip(record: CaptureRecord, surface: Geometry)
    requires record.first <= record.last < MAX_U64
    requires 1 <= |record.record.payload| <= MAX_PAYLOAD
    ensures ParseRecord(RecordBody(record.first, record.last, record.record), record.generation, surface)
         == if ValidRecordShape(record.record, surface) then Ok(record) else Err
  {
    hide RectBytes, ParseRect, U16, U32, U64, FromU16, FromU32, FromU64;
    var payload := record.record.payload;
    var b := RecordBody(record.first, record.last, record.record);
    assert b[0..8] == U64(record.first);
    assert b[8..16] == U64(record.last);
    assert b[16..24] == RectBytes(record.record.rect);
    assert b[24..28] == U32(|payload|);
    assert b[28..] == payload;
    U64RoundTrip(record.first);
    U64RoundTrip(record.last);
    U32RoundTrip(|payload|);
    ParseRectRoundTrip(record.record.rect);
  }

  lemma ParseGapRoundTrip(gap: Gap, payloadBefore: nat)
    requires GapStage(gap.reason) == Ok(gap.stage)
    requires gap.first <= gap.last < MAX_U64
    ensures ParseGap(GapBody(gap), payloadBefore) == if ValidGapFields(gap, payloadBefore) then Ok(gap) else Err
  {
    hide RectBytes, ParseRect, U16, U32, U64, FromU16, FromU32, FromU64;
    U16RoundTrip(gap.reason);
    U16RoundTrip(gap.stage);
    var b := GapBody(gap);
    assert b[0..2] == U16(gap.reason) && b[2..4] == U16(gap.stage);
    assert b[4..8] == U32(1);
    assert b[8..16] == U64(gap.first);
    assert b[16..24] == U64(gap.last);
    assert b[24..28] == U32(gap.declaredTotal);
    assert b[28..32] == U32(gap.accumulated);
    assert b[32..] == RectBytes(gap.rect) && b[32..40] == b[32..];
    U32RoundTrip(1);
    U64RoundTrip(gap.first);
    U64RoundTrip(gap.last);
    U32RoundTrip(gap.declaredTotal);
    U32RoundTrip(gap.accumulated);
    ParseRectRoundTrip(gap.rect);
  }

  lemma ParseTerminalRoundTrip(kind: u16, code: u16, timestamp: u64, gapCount: u32, sourceFrames: u64,
                               recordCount: u64, type0: u64, type1: u64, type2: u64)
    requires (kind == CLEAN && 1 <= code <= 2) || (kind == ABORTED && 257 <= code <= 267)
    ensures TerminalReasonOf(code).Ok?
    ensures ParseTerminal(kind, TerminalBody(code, gapCount, sourceFrames, recordCount, type0, type1, type2), timestamp)
         == Ok(Terminal(if kind == CLEAN then Clean else Aborted, TerminalReasonOf(code).value, timestamp,
                        gapCount, sourceFrames, recordCount, type0, type1, type2))
  {
    hide U16, U32, U64, FromU16, FromU32, FromU64;
    U16RoundTrip(code);
    U16RoundTrip(0);
    var b := TerminalBody(code, gapCount, sourceFrames, recordCount, type0, type1, type2);
    assert b[0..2] == U16(code) && b[2..4] == U16(0);
    assert b[4..8] == U32(gapCount);
    assert b[8..16] == U64(sourceFrames);
    assert b[16..24] == U64(recordCount);
    assert b[24..32] == U64(type0);
    assert b[32..40] == U64(type1);
    assert b[40..] == U64(type2) && b[40..48] == b[40..];
    U32RoundTrip(gapCount);
    U64RoundTrip(sourceFrames);
    U64RoundTrip(recordCount);
    U64RoundTrip(type0);
    U64RoundTrip(type1);
    U64RoundTrip(type2);
  }

  // ---------- What the writer's events make the reader do ----------

  /** An idle reader at generation zero that admits one more event at this timestamp. */
  ghost predicate Ready(st: ReaderState, timestamp: u64) {
    && st.generation == 0
    && st.gapReason == None
    && st.gaps == []
    && st.surfaces == []
    && st.expectedOrdinal == st.events < MAX_EVENTS
    && (st.lastTimestamp.Some? ==> st.lastTimestamp.value <= timestamp)
  }

  /** The writer's events all carry generation zero. */
  function EventAt(kind: u16, ordinal: u64, timestamp: u64, body: seq<u8>): RawEvent {
    RawEvent(kind, ordinal, 0, timestamp, body)
  }

  ghost function After(st: ReaderState, e: RawEvent): ReaderState
    requires Ready(st, e.timestamp) && e.ordinal == st.events
  {
    Noted(Admit(st, e).value, e)
  }

  /** The reader's state after a record, had it not looked at the record's shape. */
  ghost function Taken(st: ReaderState, e: RawEvent, record: CaptureRecord): ReaderState
    requires Ready(st, e.timestamp) && e.ordinal == st.events
  {
    After(st, e).(payload := st.payload + |record.record.payload|, records := st.records + [record])
  }

  lemma CreatedStep(deadlineMs: u32, recordLimit: u32)
    requires deadlineMs in {5000, 10000, 15000, 20000, 30000} && 1 <= recordLimit <= MAX_RECORDS
    ensures var e := EventAt(CREATED, 0, 0, CreatedBody(deadlineMs, recordLimit));
            Step(InitialState, e) == More(After(InitialState, e).(
                phase := Created, deadlineMs := Some(deadlineMs), recordLimit := Some(recordLimit)))
  {
    hide U16, U32, U64, FromU16, FromU32, FromU64;
    U16RoundTrip(1);
    var b := CreatedBody(deadlineMs, recordLimit);
    assert b[0..4] == U32(deadlineMs);
    assert b[4..8] == U32(recordLimit);
    assert b[8..10] == U16(1) && b[10..12] == U16(1);
    assert b[12..16] == U32(0);
    U32RoundTrip(deadlineMs);
    U32RoundTrip(recordLimit);
    U32RoundTrip(0);
  }

  lemma CreatedRun(deadlineMs: u32, recordLimit: u32)
    requires deadlineMs in {5000, 10000, 15000, 20000, 30000} && 1 <= recordLimit <= MAX_RECORDS
    ensures var e := EventAt(CREATED, 0, 0, CreatedBody(deadlineMs, recordLimit));
            && AllEncodable([e])
            && FileBytes([e]) == CaptureHeader() + EventBytes(e)
            && Run([e]) == More(InitialState.(
                phase := Created, lastTimestamp := Some(0), expectedOrdinal := 1, events := 1,
                deadlineMs := Some(deadlineMs), recordLimit := Some(recordLimit),
                kinds := [CREATED], generations := [0]))
  {
    hide Step, CreatedBody, CaptureHeader, EventBytes;
    var e := EventAt(CREATED, 0, 0, CreatedBody(deadlineMs, recordLimit));
    CreatedStep(deadlineMs, recordLimit);
    RunSnoc([], e);
    EncodeAllSnoc([], e);
    assert [] + [e] == [e];
    assert FileBytes([]) == CaptureHeader();
  }

  lemma ArmedStep(st: ReaderState, timestamp: u64, committed: Geometry, requested: Geometry)
    requires Ready(st, timestamp) && st.phase == Created && st.committed == None
    requires ValidGeometry(committed) && ValidGeometry(requested)
    ensures var e := EventAt(ARMED, st.events, timestamp, ArmedBody(committed, requested));
            Step(st, e) == More(After(st, e).(
                phase := Armed, committed := Some(committed), requested := Some(requested)))
  {
    hide U16, U32, U64, FromU16, FromU32, FromU64;
    U16RoundTrip(1);
    U16RoundTrip(committed.width);
    U16RoundTrip(committed.height);
    U16RoundTrip(requested.width);
    U16RoundTrip(requested.height);
    var b := ArmedBody(committed, requested);
    assert b[0..4] == U16(committed.width) + U16(committed.height);
    assert b[4..8] == U16(requested.width) + U16(requested.height);
    assert b[0..4][0..2] == U16(committed.width) && b[0..4][2..4] == U16(committed.height);
    assert b[4..8][0..2] == U16(requested.width) && b[4..8][2..4] == U16(requested.height);
    assert b[8..10] == U16(1) && b[10..12] == U16(1);
    assert b[12..16] == U32(3);
    assert b[16..] == U64(0) && b[16..24] == b[16..];
    U32RoundTrip(3);
    U64RoundTrip(0);
  }

  lemma TriggeredStep(st: ReaderState, timestamp: u64, requested: Geometry)
    requires Ready(st, timestamp) && st.phase == Armed && st.requested == Some(requested)
    ensures var e := EventAt(TRIGGERED, st.events, timestamp, TriggeredBody(requested));
            Step(st, e) == More(After(st, e).(phase := Triggered))
  {
    hide U16, U32, U64, FromU16, FromU32, FromU64;
    U16RoundTrip(requested.width);
    U16RoundTrip(requested.height);
    var b := TriggeredBody(requested);
    assert b[0..2] == U16(requested.width) && b[2..4] == U16(requested.height);
    assert b[4..8] == U32(7);
    assert b[8..16] == U64(0);
    U32RoundTrip(7);
    U64RoundTrip(0);
  }

  lemma RecordingStep(st: ReaderState, timestamp: u64)
    requires Ready(st, timestamp) && st.phase == Triggered
    ensures var e := EventAt(RECORDING, st.events, timestamp, U64(0));
            Step(st, e) == More(After(st, e).(phase := Recording))
  {
    hide U16, U32, U64, FromU16, FromU32, FromU64;
  }

  lemma RecordStep(st: ReaderState, timestamp: u64, record: CaptureRecord)
    requires Ready(st, timestamp) && st.phase == Recording && st.committed.Some?
    requires record.generation == 0 && record.first <= record.last < MAX_U64
    requires 1 <= |record.record.payload| <= MAX_PAYLOAD
    requires st.payload + |record.record.payload| <= MAX_CUMULATIVE_PAYLOAD
    ensures var e := EventAt(RECORD, st.events, timestamp, RecordBody(record.first, record.last, record.record));
            Step(st, e) ==
            if ValidRecordShape(record.record, st.committed.value) && |st.records| < MAX_RECORDS
            then More(Taken(st, e, record)) else Rejected
  {
    hide U16, U32, U64, FromU16, FromU32, FromU64;
    ParseRecordRoundTrip(record, st.committed.value);
  }

  lemma GapStep(st: ReaderState, timestamp: u64, gap: Gap)
    requires Ready(st, timestamp) && st.phase == Recording
    requires GapStage(gap.reason) == Ok(gap.stage)
    requires gap.first <= gap.last < MAX_U64 && ValidGapFields(gap, st.payload)
    ensures var e := EventAt(GAP, st.events, timestamp, GapBody(gap));
            Step(st, e) == More(After(st, e).(gaps := [gap], gapReason := Some(gap.reason)))
  {
    hide U16, U32, U64, FromU16, FromU32, FromU64;
    ParseGapRoundTrip(gap, st.payload);
  }

  /** The last event of the log is this gap, if there is one. */
  ghost predicate GapOnTop(log: seq<RawEvent>, ordinal: nat, gap: Option<Gap>) {
    gap.Some? ==>
      && log != []
      && 0 < ordinal <= MAX_U64
      && log[|log| - 1] == EventAt(GAP, ordinal - 1, log[|log| - 1].timestamp, GapBody(gap.value))
  }

  lemma NoGapOnTop(log: seq<RawEvent>, next: nat)
    ensures GapOnTop(log, next, None)
  {
  }

  /** The log ends with this terminal event, directly after this gap if there is one. */
  ghost predicate EndsWith(log: seq<RawEvent>, terminal: RawEvent, gap: Option<Gap>) {
    log != [] && log[|log| - 1] == terminal && GapOnTop(log[..|log| - 1], terminal.ordinal, gap)
  }

  lemma EndsSnoc(log: seq<RawEvent>, terminal: RawEvent, gap: Option<Gap>)
    requires GapOnTop(log, terminal.ordinal, gap)
    ensures EndsWith(log + [terminal], terminal, gap)
  {
    assert (log + [terminal])[..|log|] == log;
  }

  /** Which terminal codes the reader lets follow the events so far. */
  ghost predicate CanEnd(st: ReaderState, clean: bool, code: u16) {
    && TerminalReasonOf(code).Ok?
    && (if clean then 1 <= code <= 2 else 257 <= code <= 267)
    && (if st.gapReason.Some? then
          !clean && GapTerminalCode(st.gapReason.value) == Ok(code) && st.phase == Recording
        else
          TerminalPhaseAllowed(
            Terminal(if clean then Clean else Aborted, TerminalReasonOf(code).value, 0, 0, 0, 0, 0, 0, 0), st.phase))
  }

  /** A terminal event whose body parses ends the run when its code may follow. */
  lemma TerminalDispatch(st: ReaderState, clean: bool, code: u16, e: RawEvent, terminal: Terminal)
    requires CanEnd(st, clean, code) && st.generation == 0 && e.generation == 0
    requires e.ordinal == st.expectedOrdinal == st.events < MAX_EVENTS
    requires st.lastTimestamp.Some? ==> st.lastTimestamp.value <= e.timestamp
    requires e.kind == (if clean then CLEAN else ABORTED)
    requires ParseTerminal(e.kind, e.body, e.timestamp) == Ok(terminal)
    requires terminal.kind == (if clean then Clean else Aborted)
    requires TerminalReasonOf(code) == Ok(terminal.reason)
    ensures Step(st, e) == Done(Noted(Admit(st, e).value, e), terminal)
  {
    hide U16, U32, U64, FromU16, FromU32, FromU64;
  }

  lemma TerminalStep(st: ReaderState, clean: bool, code: u16, timestamp: u64, gapCount: u32, sourceFrames: u64,
                     recordCount: u64, type0: u64, type1: u64, type2: u64)
    requires CanEnd(st, clean, code) && st.generation == 0
    requires st.expectedOrdinal == st.events < MAX_EVENTS
    requires st.lastTimestamp.Some? ==> st.lastTimestamp.value <= timestamp
    ensures TerminalReasonOf(code).Ok?
    ensures var body := TerminalBody(code, gapCount, sourceFrames, recordCount, type0, type1, type2);
            var e := EventAt(if clean then CLEAN else ABORTED, st.events, timestamp, body);
            Step(st, e) == Done(
              Noted(Admit(st, e).value, e),
              Terminal(if clean then Clean else Aborted, TerminalReasonOf(code).value, timestamp,
                       gapCount, sourceFrames, recordCount, type0, type1, type2))
  {
    var kind := if clean then CLEAN else ABORTED;
    ParseTerminalRoundTrip(kind, code, timestamp, gapCount, sourceFrames, recordCount, type0, type1, type2);
    var body := TerminalBody(code, gapCount, sourceFrames, recordCount, type0, type1, type2);
    TerminalDispatch(st, clean, code, EventAt(kind, st.events, timestamp, body),
                     ParseTerminal(kind, body, timestamp).value);
  }

  lemma UnknownCodeIsRefused(kind: u16, code: u16, timestamp: u64, gapCount: u32, sourceFrames: u64,
                             recordCount: u64, type0: u64, type1: u64, type2: u64)
    requires !(kind == CLEAN && 1 <= code <= 2) && !(kind == ABORTED && 257 <= code <= 267)
    ensures ParseTerminal(kind, TerminalBody(code, gapCount, sourceFrames, recordCount, type0, type1, type2), timestamp)
         == Err
  {
    hide U16, U32, U64, FromU16, FromU32, FromU64;
    U16RoundTrip(code);
    assert TerminalBody(code, gapCount, sourceFrames, recordCount, type0, type1, type2)[0..2] == U16(code);
  }

  lemma DispatchRefuses(st: ReaderState, clean: bool, code: u16, e: RawEvent)
    requires !CanEnd(st, clean, code) && (st.gapReason.Some? ==> st.phase == Recording)
    requires e.kind == (if clean then CLEAN else ABORTED)
    requires if clean then 1 <= code <= 2 else 257 <= code <= 267
    requires TerminalReasonOf(code).Ok?
    requires ParseTerminal(e.kind, e.body, e.timestamp).Ok? ==>
               var terminal := ParseTerminal(e.kind, e.body, e.timestamp).value;
               terminal.kind == (if clean then Clean else Aborted) && TerminalReasonOf(code) == Ok(terminal.reason)
    ensures Dispatch(st, e).Rejected?
  {
    hide ParseTerminal;
  }

  /** The reader stops at a terminal exactly when its code may follow, and refuses any other. */
  lemma TerminalStepsExactlyWhen(st: ReaderState, clean: bool, code: u16, timestamp: u64, gapCount: u32,
                                 sourceFrames: u64, recordCount: u64, type0: u64, type1: u64, type2: u64)
    requires st.generation == 0 && (st.gapReason.Some? ==> st.phase == Recording)
    requires st.expectedOrdinal == st.events < MAX_EVENTS
    requires st.lastTimestamp.Some? ==> st.lastTimestamp.value <= timestamp
    ensures var body := TerminalBody(code, gapCount, sourceFrames, recordCount, type0, type1, type2);
            var step := Step(st, EventAt(if clean then CLEAN else ABORTED, st.events, timestamp, body));
            && (step.Done? <==> CanEnd(st, clean, code))
            && (step.Rejected? <==> !CanEnd(st, clean, code))
  {
    hide TerminalBody, ParseTerminal, Dispatch, CanEnd, TerminalReasonOf;
    var kind := if clean then CLEAN else ABORTED;
    var e := EventAt(kind, st.events, timestamp,
                     TerminalBody(code, gapCount, sourceFrames, recordCount, type0, type1, type2));
    if CanEnd(st, clean, code) {
      TerminalStep(st, clean, code, timestamp, gapCount, sourceFrames, recordCount, type0, type1, type2);
    } else {
      CanEndAdmitted(st, clean, code, e);
      if if clean then 1 <= code <= 2 else 257 <= code <= 267 {
        ParseTerminalRoundTrip(kind, code, timestamp, gapCount, sourceFrames, recordCount, type0, type1, type2);
        DispatchRefuses(Admit(st, e).value, clean, code, e);
      } else {
        UnknownCodeIsRefused(kind, code, timestamp, gapCount, sourceFrames, recordCount, type0, type1, type2);
        UnparsedIsRefused(Admit(st, e).value, e);
      }
    }
  }

  lemma CanEndAdmitted(st: ReaderState, clean: bool, code: u16, e: RawEvent)
    requires Admit(st, e).Ok?
    ensures CanEnd(Admit(st, e).value, clean, code) <==> CanEnd(st, clean, code)
  {
  }

  lemma UnparsedIsRefused(st: ReaderState, e: RawEvent)
    requires e.kind in {CLEAN, ABORTED} && ParseTerminal(e.kind, e.body, e.timestamp) == Err
    ensures Dispatch(st, e).Rejected?
  {
    hide ParseTerminal;
  }

  /**
   A terminal whose code may follow and whose counts are those of the log is valid exactly when its
   source-frame count is what the records and the optional gap account for.
   */
  lemma TerminalVerdict(st: ReaderState, clean: bool, code: u16, e: RawEvent, terminal: Terminal)
    requires Admit(st, e).Ok? && CanEnd(st, clean, code)
    requires st.gapReason == (if st.gaps == [] then None else Some(st.gaps[0].reason)) && |st.gaps| <= 1
    requires code == 262 || code == 263 ==> st.gaps != []
    requires terminal.kind == (if clean then Clean else Aborted)
    requires TerminalReasonOf(code).Ok? ==> terminal.reason == TerminalReasonOf(code).value
    requires terminal.gapCount == |st.gaps|
    requires TallyRecords(st.records).Ok?
    requires CountsFitTerminal(terminal, TallyRecords(st.records).value, |st.records|, st.recordLimit)
    requires clean ==> st.gaps == [] && st.deadlineMs.Some? && st.recordLimit.Some?
    requires clean && code == 1 ==> terminal.timestamp >= st.deadlineMs.value * 1000
    requires clean && code == 2 ==>
               terminal.timestamp < st.deadlineMs.value * 1000 && terminal.recordCount == st.recordLimit.value
    ensures ValidTerminal(terminal, Noted(Admit(st, e).value, e)) <==>
            SourceAfterGap(TallyRecords(st.records).value.expectedSource, st.gaps) == Ok(terminal.sourceFrames)
  {
  }
}
