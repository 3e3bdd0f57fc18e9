/**
 How the writer's counters agree with what the reader makes of the events on the sink, and that each
 event the writer appends keeps them in agreement.
 */
module CaptureAgreement {
  import opened Bytes
  import opened Results
  import opened CaptureFormat
  import Reader = CaptureReader
  import opened CaptureLog
  import opened FrameLedger

  datatype CreatedConfig = CreatedConfig(deadlineMs: u32, recordLimit: u32)

  predicate ValidConfig(config: CreatedConfig) {
    config.deadlineMs in {5_000, 10_000, 15_000, 20_000, 30_000} && 1 <= config.recordLimit <= MAX_RECORDS
  }

  function GapList(gap: Option<Gap>): seq<Gap> {
    if gap.Some? then [gap.value] else []
  }

  /** Events laid down before any record, by how far the persisted lifecycle has come. */
  function LifecycleEvents(phase: Reader.Phase): nat {
    match phase
    case Start => 0
    case Created => 1
    case Armed => 2
    case Triggered => 3
    case Recording => 4
  }

  /** The reader has counted the same events, payload bytes, records and gap as the writer. */
  ghost predicate Counted(st: Reader.ReaderState, events: nat, payload: nat, records: nat, gap: Option<Gap>,
                          config: CreatedConfig)
  {
    && st.expectedOrdinal == st.events == events < MAX_EVENTS
    && st.payload == payload <= MAX_CUMULATIVE_PAYLOAD
    && st.generation == 0
    && st.surfaces == []
    && st.deadlineMs == Some(config.deadlineMs)
    && st.recordLimit == Some(config.recordLimit)
    && st.gaps == GapList(gap)
    && st.gapReason == (if gap.Some? then Some(gap.value.reason) else None)
    && (gap.Some? ==> gap.value.first <= gap.value.last)
    && records == |st.records|
    && st.events == LifecycleEvents(st.phase) + records + |st.gaps|
    && st.phase != Reader.Start
    && (st.phase != Reader.Recording ==> records == 0 && gap == None)
  }

  /** The records are made of ledger frames, follow each other from zero, and have these tags. */
  ghost predicate Ledgered(records: seq<CaptureRecord>, frames: seq<MvsFrame>, count: nat,
                           type0: nat, type1: nat, type2: nat)
  {
    var tally := Reader.TallyRecords(records);
    && |frames| == count
    && AllMadeOf(records, frames)
    && tally.Ok?
    && tally.value.expectedSource <= count
    && tally.value.type0 == type0 && tally.value.type1 == type1 && tally.value.type2 == type2
    && type0 + type1 + type2 == |records|
  }

  // ---------- Each event keeps the agreement ----------

  lemma CountedCreated(config: CreatedConfig)
    requires ValidConfig(config)
    ensures var e := EventAt(CREATED, 0, 0, CreatedBody(config.deadlineMs, config.recordLimit));
            && Run([e]).More?
            && var st := Run([e]).state;
            && Encodable(e)
            && Laid(CaptureHeader() + EventBytes(e), [e], st, None)
            && Counted(st, 1, 0, 0, None, config)
            && st.records == [] && st.phase == Reader.Created && st.lastTimestamp == Some(0)
            && st.committed == None && st.requested == None
  {
    hide CreatedBody, EventBytes, CaptureHeader, EncodeAll, FileBytes, Reader.Step;
    CreatedRun(config.deadlineMs, config.recordLimit);
  }

  lemma CountedArmed(st: Reader.ReaderState, timestamp: u64, config: CreatedConfig, events: nat, payload: nat,
                     committed: Geometry, requested: Geometry)
    requires Counted(st, events, payload, 0, None, config) && st.phase == Reader.Created && st.committed == None
    requires st.lastTimestamp.Some? ==> st.lastTimestamp.value <= timestamp
    requires ValidGeometry(committed) && ValidGeometry(requested)
    ensures events + 2 <= MAX_EVENTS && payload <= MAX_CUMULATIVE_PAYLOAD
    ensures var step := Reader.Step(st, EventAt(ARMED, events, timestamp, ArmedBody(committed, requested)));
            && step.More?
            && Counted(step.state, events + 1, payload, 0, None, config)
            && step.state.phase == Reader.Armed
            && step.state.committed == Some(committed) && step.state.requested == Some(requested)
            && step.state.lastTimestamp == Some(timestamp) && step.state.records == st.records
  {
    hide Reader.Step, ArmedBody;
    ArmedStep(st, timestamp, committed, requested);
  }

  lemma CountedTriggered(st: Reader.ReaderState, timestamp: u64, config: CreatedConfig, events: nat, payload: nat,
                         requested: Geometry)
    requires Counted(st, events, payload, 0, None, config)
    requires st.phase == Reader.Armed && st.requested == Some(requested)
    requires st.lastTimestamp.Some? ==> st.lastTimestamp.value <= timestamp
    ensures events + 2 <= MAX_EVENTS && payload <= MAX_CUMULATIVE_PAYLOAD
    ensures var step := Reader.Step(st, EventAt(TRIGGERED, events, timestamp, TriggeredBody(requested)));
            && step.More?
            && Counted(step.state, events + 1, payload, 0, None, config)
            && step.state.phase == Reader.Triggered
            && step.state.committed == st.committed && step.state.requested == st.requested
            && step.state.lastTimestamp == Some(timestamp) && step.state.records == st.records
  {
    hide Reader.Step, TriggeredBody;
    TriggeredStep(st, timestamp, requested);
  }

  lemma CountedRecording(st: Reader.ReaderState, timestamp: u64, config: CreatedConfig, events: nat, payload: nat)
    requires Counted(st, events, payload, 0, None, config) && st.phase == Reader.Triggered
    requires st.lastTimestamp.Some? ==> st.lastTimestamp.value <= timestamp
    ensures events + 2 <= MAX_EVENTS && payload <= MAX_CUMULATIVE_PAYLOAD
    ensures var step := Reader.Step(st, EventAt(RECORDING, events, timestamp, U64(0)));
            && step.More?
            && Counted(step.state, events + 1, payload, 0, None, config)
            && step.state.phase == Reader.Recording
            && step.state.committed == st.committed && step.state.requested == st.requested
            && step.state.lastTimestamp == Some(timestamp) && step.state.records == st.records
  {
    hide Reader.Step, U64;
    RecordingStep(st, timestamp);
  }

  lemma CountedRecord(st: Reader.ReaderState, timestamp: u64, config: CreatedConfig, events: nat, payload: nat,
                      records: nat, record: CaptureRecord)
    requires Counted(st, events, payload, records, None, config) && st.phase == Reader.Recording && st.committed.Some?
    requires st.lastTimestamp.Some? ==> st.lastTimestamp.value <= timestamp
    requires events + 2 <= MAX_EVENTS
    requires record.generation == 0 && record.first <= record.last < MAX_U64
    requires 1 <= |record.record.payload| <= MAX_PAYLOAD
    requires payload + |record.record.payload| <= MAX_CUMULATIVE_PAYLOAD
    ensures Ready(st, timestamp) && st.events == events
    ensures var e := EventAt(RECORD, events, timestamp, RecordBody(record.first, record.last, record.record));
            var step, taken := Reader.Step(st, e), Taken(st, e, record);
            && !step.Done?
            && (step.More? <==>
                  Reader.ValidRecordShape(record.record, st.committed.value) && records < MAX_RECORDS)
            && (step.More? ==> step.state == taken)
            && Counted(taken, events + 1, payload + |record.record.payload|, records + 1, None, config)
            && taken.phase == Reader.Recording
            && taken.committed == st.committed && taken.requested == st.requested
            && taken.lastTimestamp == Some(timestamp)
            && taken.records == st.records + [record]
  {
    hide Reader.Step, RecordBody, Reader.ValidRecordShape;
    RecordStep(st, timestamp, record);
  }

  /** While the record limit is not reached there is room for a gap or a record, and for the terminal. */
  lemma CountedRoom(st: Reader.ReaderState, events: nat, payload: nat, records: nat, config: CreatedConfig)
    requires ValidConfig(config) && Counted(st, events, payload, records, None, config) && records < config.recordLimit
    ensures events + 2 <= MAX_EVENTS
  {
  }

  lemma CountedGap(st: Reader.ReaderState, timestamp: u64, config: CreatedConfig, events: nat, payload: nat,
                   records: nat, gap: Gap)
    requires Counted(st, events, payload, records, None, config) && st.phase == Reader.Recording
    requires st.lastTimestamp.Some? ==> st.lastTimestamp.value <= timestamp
    requires events + 2 <= MAX_EVENTS
    requires GapStage(gap.reason) == Ok(gap.stage)
    requires gap.first <= gap.last < MAX_U64 && Reader.ValidGapFields(gap, payload)
    ensures payload <= MAX_CUMULATIVE_PAYLOAD
    ensures var step := Reader.Step(st, EventAt(GAP, events, timestamp, GapBody(gap)));
            && step.More?
            && Counted(step.state, events + 1, payload, records, Some(gap), config)
            && step.state.phase == Reader.Recording
            && step.state.lastTimestamp == Some(timestamp)
            && step.state.committed == st.committed && step.state.requested == st.requested
            && step.state.records == st.records
  {
    hide Reader.Step, GapBody, Reader.ValidGapFields;
    GapStep(st, timestamp, gap);
  }

  lemma LedgeredNothing()
    ensures Ledgered([], [], 0, 0, 0, 0)
    ensures Reader.TallyRecords([]) == Ok(Reader.Tally(0, 0, 0, 0))
  {
  }

  lemma LedgeredRecord(records: seq<CaptureRecord>, frames: seq<MvsFrame>, count: nat,
                       type0: nat, type1: nat, type2: nat,
                       record: CaptureRecord)
    requires Ledgered(records, frames, count, type0, type1, type2)
    requires MadeOf(record, frames) && record.last < count && record.last < MAX_U64
    requires record.first == Reader.TallyRecords(records).value.expectedSource
    requires record.record.payload != [] && record.record.payload[0] in {0, 1, 2}
    ensures var tag := record.record.payload[0];
            && Ledgered(records + [record], frames, count,
                        type0 + (if tag == 0 then 1 else 0),
                        type1 + (if tag == 1 then 1 else 0),
                        type2 + (if tag == 2 then 1 else 0))
            && Reader.TallyRecords(records + [record]).value.expectedSource == record.last + 1
  {
    hide MadeOf, Reader.TallyRecords;
    TallySnoc(records, record);
    MadeOfSnoc(records, record, frames);
  }

  lemma LedgeredFrame(records: seq<CaptureRecord>, frames: seq<MvsFrame>, count: nat,
                      type0: nat, type1: nat, type2: nat,
                      frame: MvsFrame)
    requires Ledgered(records, frames, count, type0, type1, type2)
    ensures Ledgered(records, frames + [frame], count + 1, type0, type1, type2)
  {
    hide AllMadeOf, Reader.TallyRecords;
    MadeOfGrows(records, frames, frame);
  }

  /** Which abort codes a phase allows while there is no gap. */
  predicate AbortAllowed(phase: Reader.Phase, code: u16) {
    match code
    case 257 => phase == Reader.Created
    case 258 => phase == Reader.Created
    case 259 => phase == Reader.Created || phase == Reader.Armed
    case 260 => phase == Reader.Armed || phase == Reader.Triggered || phase == Reader.Recording
    case 261 => phase == Reader.Recording
    case 264 => phase != Reader.Start
    case 265 => phase != Reader.Start
    case 266 => phase == Reader.Created || phase == Reader.Recording
    case 267 => phase == Reader.Created || phase == Reader.Armed
    case _ => false
  }

  /**
   While there is no gap these are the Aborted codes that may follow, besides the two that may follow in
   every Recording phase and are then refused for want of a gap.
   */
  lemma CountedCanAbort(st: Reader.ReaderState, events: nat, payload: nat, records: nat,
                        config: CreatedConfig, code: u16)
    requires Counted(st, events, payload, records, None, config)
    ensures CanEnd(st, false, code) <==>
              AbortAllowed(st.phase, code) || (code in {262, 263} && st.phase == Reader.Recording)
    ensures st.gaps == []
  {
  }

  lemma TerminalWantsGap(terminal: Terminal, st: Reader.ReaderState)
    requires terminal.reason in {AssemblerFailure, PendingAtDeadline} && st.gaps == []
    ensures !Reader.ValidTerminal(terminal, st)
  {
  }

  /** After a gap exactly the Aborted terminal its reason maps to may follow. */
  lemma CountedCanEndAfterGap(st: Reader.ReaderState, events: nat, payload: nat, records: nat, config: CreatedConfig,
                              gap: Gap, clean: bool, code: u16)
    requires Counted(st, events, payload, records, Some(gap), config)
    ensures CanEnd(st, clean, code) <==> !clean && GapTerminalCode(gap.reason) == Ok(code)
    ensures st.gaps == [gap]
  {
  }

  lemma CountedCanEndClean(st: Reader.ReaderState, events: nat, payload: nat, records: nat,
                           config: CreatedConfig, code: u16)
    requires Counted(st, events, payload, records, None, config)
    ensures CanEnd(st, true, code) <==> st.phase == Reader.Recording && code in {1, 2}
    ensures st.gaps == []
  {
  }

  function TerminalEvent(clean: bool, ordinal: u64, timestamp: u64, code: u16, gapCount: u32, sourceFrames: u64,
                         records: u64, type0: u64, type1: u64, type2: u64): RawEvent
  {
    EventAt(if clean then CLEAN else ABORTED, ordinal, timestamp,
            TerminalBody(code, gapCount, sourceFrames, records, type0, type1, type2))
  }

  /** A terminal with this code that carries the writer's counts, and the reader's state after it. */
  ghost predicate Ended(st: Reader.ReaderState, terminal: Terminal, clean: bool, code: u16, frames: seq<MvsFrame>,
                        count: nat, records: nat, type0: nat, type1: nat, type2: nat, gap: Option<Gap>,
                        config: CreatedConfig)
  {
    && terminal.kind == (if clean then TerminalKind.Clean else TerminalKind.Aborted)
    && TerminalReasonOf(code) == Ok(terminal.reason)
    && terminal.gapCount == |GapList(gap)|
    && terminal.sourceFrames == count == |frames|
    && terminal.recordCount == records == |st.records| == type0 + type1 + type2
    && terminal.type0 == type0 && terminal.type1 == type1 && terminal.type2 == type2
    && st.deadlineMs == Some(config.deadlineMs) && st.recordLimit == Some(config.recordLimit)
    && st.gaps == GapList(gap)
    && (gap.Some? ==> gap.value.first <= gap.value.last)
    && st.surfaces == []
    && AllMadeOf(st.records, frames)
  }

  /** The terminal the writer lays down ends the run, and is valid exactly when all source frames are accounted for. */
  lemma CountedTerminal(st: Reader.ReaderState, timestamp: u64, config: CreatedConfig, events: nat, payload: nat,
                        records: nat, gap: Option<Gap>, frames: seq<MvsFrame>, count: u64,
                        type0: nat, type1: nat, type2: nat, clean: bool, code: u16)
    requires ValidConfig(config) && Counted(st, events, payload, records, gap, config)
    requires Ledgered(st.records, frames, count, type0, type1, type2)
    requires st.lastTimestamp.Some? ==> st.lastTimestamp.value <= timestamp
    requires CanEnd(st, clean, code) && (code == 262 || code == 263 ==> gap.Some?)
    requires clean ==> gap.None?
    requires clean && code == 1 ==> timestamp >= config.deadlineMs * 1000
    requires clean && code == 2 ==> timestamp < config.deadlineMs * 1000 && records == config.recordLimit
    ensures events < MAX_EVENTS && records <= MAX_U64
    ensures var body := TerminalBody(code, |GapList(gap)|, count, records, type0, type1, type2);
            var e := EventAt(if clean then CLEAN else ABORTED, events, timestamp, body);
            var step := Reader.Step(st, e);
            && step.Done? && Encodable(e)
            && step.terminal.timestamp == timestamp
            && step.state.records == st.records
            && step.state.committed == st.committed && step.state.requested == st.requested
            && Ended(step.state, step.terminal, clean, code, frames, count, records, type0, type1, type2, gap, config)
            && (records <= config.recordLimit ==>
                  (Reader.ValidTerminal(step.terminal, step.state) <==>
                   Reader.SourceAfterGap(Reader.TallyRecords(st.records).value.expectedSource, st.gaps) == Ok(count)))
  {
    hide Reader.Step, TerminalBody, Reader.ValidTerminal, Reader.TallyRecords, Reader.SourceAfterGap, AllMadeOf, CanEnd;
    hide TerminalReasonOf;
    TerminalStep(st, clean, code, timestamp, |GapList(gap)|, count, records, type0, type1, type2);
    var body := TerminalBody(code, |GapList(gap)|, count, records, type0, type1, type2);
    var e := EventAt(if clean then CLEAN else ABORTED, events, timestamp, body);
    if records <= config.recordLimit {
      TerminalVerdict(st, clean, code, e, Reader.Step(st, e).terminal);
    }
  }
}
