/**
 The structural and strict-cold FRDMVS02 readers (src/vnc/mvs_capture_v2.rs): the specification as
 functions over one event and over the unread input, and the source's loops proved equal to it.
 */
module CaptureReader {
  import opened Bytes
  import opened Results
  import opened MvsStream
  import opened CaptureFormat

  datatype Phase = Start | Created | Armed | Triggered | Recording

  datatype ReaderState = ReaderState(
    phase: Phase,
    generation: u64,
    lastTimestamp: Option<u64>,
    expectedOrdinal: u64,
    events: nat,
    payload: nat,
    committed: Option<Geometry>,
    requested: Option<Geometry>,
    deadlineMs: Option<u32>,
    recordLimit: Option<u32>,
    records: seq<CaptureRecord>,
    surfaces: seq<CaptureSurface>,
    gaps: seq<Gap>,
    gapReason: Option<u16>,
    kinds: seq<u16>,
    generations: seq<u64>)

  const InitialState :=
    ReaderState(Start, 0, None, 0, 0, 0, None, None, None, None, [], [], [], None, [], [])

  /** What one event does to the reader: carry on, reach the terminal, or reject the file. */
  datatype Progress = More(state: ReaderState) | Done(state: ReaderState, terminal: Terminal) | Rejected

  datatype StructuralCapture = StructuralCapture(
    committed: Option<Geometry>,
    requested: Option<Geometry>,
    records: seq<CaptureRecord>,
    surfaces: seq<CaptureSurface>,
    gaps: seq<Gap>,
    terminal: Terminal,
    deadlineMs: Option<u32>,
    recordLimit: Option<u32>,
    kinds: seq<u16>,
    generations: seq<u64>)

  datatype StrictCapture = StrictCapture(
    committed: Geometry,
    requested: Geometry,
    records: seq<CaptureRecord>,
    deadlineMs: u32,
    recordLimit: u32,
    terminal: Terminal)

  // ---------- Event bodies ----------

  function ParseRect(b: seq<u8>): MvsRect
    requires |b| == 8
  {
    MvsRect(FromU16(b[0..2]), FromU16(b[2..4]), FromU16(b[4..6]), FromU16(b[6..8]))
  }

  function ParseGeometry(b: seq<u8>): Result<Geometry>
    requires |b| == 4
  {
    var g := Geometry(FromU16(b[0..2]), FromU16(b[2..4]));
    if ValidGeometry(g) then Ok(g) else Err
  }

  predicate ValidRecordRect(rect: MvsRect, surface: Geometry) {
    && FitsSurface(rect, surface.width, surface.height)
    && rect.width * rect.height <= MAX_DECODE_PIXELS
  }

  predicate ValidRecordShape(record: MvsRecord, surface: Geometry)
    requires record.payload != []
  {
    match record.payload[0]
    case 2 => record.rect == ZERO_RECT
    case 0 => ValidRecordRect(record.rect, surface)
    case 1 => ValidRecordRect(record.rect, surface)
    case _ => false
  }

  function ParseRecord(body: seq<u8>, generation: u64, surface: Geometry): (r: Result<CaptureRecord>)
    ensures r.Ok? ==> 1 <= |r.value.record.payload| <= MAX_PAYLOAD
  {
    if |body| < 29 then Err
    else
      var first := FromU64(body[0..8]);
      var last := FromU64(body[8..16]);
      var payloadLength := FromU32(body[24..28]);
      if !(first <= last && last != MAX_U64) then Err
      else if !(1 <= payloadLength <= MAX_PAYLOAD && |body| == 28 + payloadLength) then Err
      else
        var record := MvsRecord(ParseRect(body[16..24]), body[28..]);
        if ValidRecordShape(record, surface) then Ok(CaptureRecord(generation, first, last, record)) else Err
  }

  /** The per-reason field rules of a gap, given the payload bytes recorded before it. */
  predicate ValidGapFields(gap: Gap, payloadBefore: nat) {
    var pendingTotal := 1 <= gap.declaredTotal <= MAX_PAYLOAD;
    match gap.reason
    case 1 => gap.declaredTotal == 0 && gap.accumulated == 0 && gap.first == gap.last
    case 9 =>
      && gap.declaredTotal == 0 && gap.accumulated == 0 && gap.first == gap.last
      && gap.rect == ZERO_RECT
    case 2 =>
      && (gap.declaredTotal == 0 || gap.declaredTotal > MAX_PAYLOAD)
      && gap.accumulated == 0 && gap.first == gap.last
    case 3 => pendingTotal && gap.accumulated == 0 && gap.first == gap.last
    case 4 => pendingTotal && gap.accumulated < gap.declaredTotal && gap.first < gap.last
    case 10 => pendingTotal && gap.accumulated < gap.declaredTotal && gap.first < gap.last
    case 11 =>
      && pendingTotal && gap.accumulated == 0 && gap.first == gap.last
      && payloadBefore + gap.declaredTotal > MAX_CUMULATIVE_PAYLOAD
    case _ => pendingTotal && gap.accumulated < gap.declaredTotal
  }

  function ParseGap(body: seq<u8>, payloadBefore: nat): Result<Gap> {
    if |body| != 40 then Err
    else
      var gap := Gap(
                   FromU16(body[0..2]), FromU16(body[2..4]),
                   FromU64(body[8..16]), FromU64(body[16..24]),
                   FromU32(body[24..28]), FromU32(body[28..32]), ParseRect(body[32..40]));
      var stage :- GapStage(gap.reason);
      if !(stage == gap.stage && FromU32(body[4..8]) == 1) then Err
      else if !(gap.first <= gap.last && gap.first != MAX_U64 && gap.last != MAX_U64) then Err
      else if ValidGapFields(gap, payloadBefore) then Ok(gap)
      else Err
  }

  function ParseTerminal(kind: u16, body: seq<u8>, timestamp: u64): Result<Terminal> {
    if |body| != 48 || FromU16(body[2..4]) != 0 then Err
    else
      var code := FromU16(body[0..2]);
      var reason :- TerminalReasonOf(code);
      if kind != CLEAN && kind != ABORTED then Err
      else if kind == CLEAN && !(1 <= code <= 2) then Err
      else if kind == ABORTED && !(257 <= code <= 267) then Err
      else
        Ok(Terminal(
             if kind == CLEAN then Clean else Aborted, reason, timestamp,
             FromU32(body[4..8]), FromU64(body[8..16]), FromU64(body[16..24]),
             FromU64(body[24..32]), FromU64(body[32..40]), FromU64(body[40..48])))
  }

  // ---------- Lifecycle ----------

  predicate TerminalPhaseAllowed(terminal: Terminal, phase: Phase) {
    match terminal.reason
    case ConnectFailure => phase == Created
    case CredentialOrAuthenticationFailure => phase == Created
    case ArmOutputFailure => phase == Created || phase == Armed
    case TriggerFailure => phase == Armed || phase == Triggered || phase == Recording
    case ReadFailure => phase == Recording
    case AssemblerFailure => phase == Recording
    case PendingAtDeadline => phase == Recording
    case OperatorCancellation => phase != Start
    case OutputFailure => phase != Start
    case InvalidGeometry => phase == Created || phase == Recording
    case PreTriggerDeadline => phase == Created || phase == Armed
    case Deadline => terminal.kind == Clean && phase == Recording
    case RecordLimit => terminal.kind == Clean && phase == Recording
  }

  /** The checks every event passes before its body is looked at. */
  function Admit(st: ReaderState, e: RawEvent): Result<ReaderState> {
    if e.ordinal != st.expectedOrdinal || st.expectedOrdinal == MAX_U64 then Err
    else if st.lastTimestamp.Some? && e.timestamp < st.lastTimestamp.value then Err
    else if st.events + 1 > MAX_EVENTS then Err
    else
      Ok(st.(
         expectedOrdinal := st.expectedOrdinal + 1,
         lastTimestamp := Some(e.timestamp),
         events := st.events + 1))
  }

  function Noted(st: ReaderState, e: RawEvent): ReaderState {
    st.(kinds := st.kinds + [e.kind], generations := st.generations + [e.generation])
  }

  function ReadCreated(st: ReaderState, e: RawEvent): Result<ReaderState> {
    if !(st.phase == Start && e.generation == 0 && e.timestamp == 0 && |e.body| == 16) then Err
    else
      var deadline, limit := FromU32(e.body[0..4]), FromU32(e.body[4..8]);
      if deadline !in {5000, 10000, 15000, 20000, 30000} || !(1 <= limit <= MAX_RECORDS) then Err
      else if FromU16(e.body[8..10]) != 1 || FromU16(e.body[10..12]) != 1 || FromU32(e.body[12..16]) != 0 then Err
      else Ok(st.(deadlineMs := Some(deadline), recordLimit := Some(limit), phase := Created))
  }

  function ReadArmed(st: ReaderState, e: RawEvent): Result<ReaderState> {
    if !(e.generation == st.generation && st.phase == Created && st.committed.None? && |e.body| == 24) then Err
    else
      var committed :- ParseGeometry(e.body[0..4]);
      var requested :- ParseGeometry(e.body[4..8]);
      if !(&& FromU16(e.body[8..10]) == 1 && FromU16(e.body[10..12]) == 1
           && FromU32(e.body[12..16]) == 3 && FromU64(e.body[16..24]) == 0) then Err
      else Ok(st.(committed := Some(committed), requested := Some(requested), phase := Armed))
  }

  function ReadTriggered(st: ReaderState, e: RawEvent): Result<ReaderState> {
    if !(e.generation == st.generation && st.phase == Armed && |e.body| == 16) then Err
    else if !(&& st.requested == Some(Geometry(FromU16(e.body[0..2]), FromU16(e.body[2..4])))
              && FromU32(e.body[4..8]) == 7 && FromU64(e.body[8..16]) == 0) then Err
    else Ok(st.(phase := Triggered))
  }

  function ReadRecording(st: ReaderState, e: RawEvent): Result<ReaderState> {
    if e.generation == st.generation && st.phase == Triggered && e.body == U64(0)
    then Ok(st.(phase := Recording))
    else Err
  }

  function ReadSurface(st: ReaderState, e: RawEvent): Result<ReaderState> {
    if st.generation == MAX_U64 || e.generation != st.generation + 1 then Err
    else if !(st.phase == Recording && st.committed.Some? && |e.body| == 8) then Err
    else if FromU16(e.body[4..6]) != 1 || FromU16(e.body[6..8]) != 0 then Err
    else
      var surface :- ParseGeometry(e.body[0..4]);
      Ok(st.(
         generation := e.generation,
         committed := Some(surface),
         surfaces := st.surfaces + [CaptureSurface(e.generation, surface)]))
  }

  function ReadRecord(st: ReaderState, e: RawEvent): Result<ReaderState> {
    if !(e.generation == st.generation && st.phase == Recording && st.committed.Some?) then Err
    else
      var record :- ParseRecord(e.body, e.generation, st.committed.value);
      var payload := st.payload + |record.record.payload|;
      if payload > MAX_CUMULATIVE_PAYLOAD || |st.records| >= MAX_RECORDS then Err
      else Ok(st.(payload := payload, records := st.records + [record]))
  }

  function ReadGap(st: ReaderState, e: RawEvent): Result<ReaderState> {
    if !(e.generation == st.generation && st.phase == Recording && st.gaps == []) then Err
    else
      var gap :- ParseGap(e.body, st.payload);
      Ok(st.(gaps := [gap], gapReason := Some(gap.reason)))
  }

  function ReadTerminal(st: ReaderState, e: RawEvent): Result<Terminal> {
    if e.generation != st.generation then Err
    else if e.kind == CLEAN && st.phase != Recording then Err
    else if e.kind == ABORTED && st.phase == Start then Err
    else
      var terminal :- ParseTerminal(e.kind, e.body, e.timestamp);
      if TerminalPhaseAllowed(terminal, st.phase) then Ok(terminal) else Err
  }

  /** After a gap only the Aborted terminal that the gap's reason maps to may follow. */
  function ReadTerminalAfterGap(st: ReaderState, e: RawEvent, gapReason: u16): Result<Terminal> {
    if e.kind != ABORTED || e.generation != st.generation then Err
    else
      var terminal :- ParseTerminal(e.kind, e.body, e.timestamp);
      var code :- GapTerminalCode(gapReason);
      var expected :- TerminalReasonOf(code);
      if TerminalPhaseAllowed(terminal, st.phase) && terminal.reason == expected then Ok(terminal) else Err
  }

  function ReadNonterminal(st: ReaderState, e: RawEvent): Result<ReaderState> {
    if e.kind == CREATED then ReadCreated(st, e)
    else if e.kind == ARMED then ReadArmed(st, e)
    else if e.kind == TRIGGERED then ReadTriggered(st, e)
    else if e.kind == RECORDING then ReadRecording(st, e)
    else if e.kind == SURFACE then ReadSurface(st, e)
    else if e.kind == RECORD then ReadRecord(st, e)
    else if e.kind == GAP then ReadGap(st, e)
    else Err
  }

  function Dispatch(st: ReaderState, e: RawEvent): Progress {
    if st.gapReason.Some? || e.kind == CLEAN || e.kind == ABORTED then
      var terminal := if st.gapReason.Some? then ReadTerminalAfterGap(st, e, st.gapReason.value)
                      else ReadTerminal(st, e);
      if terminal.Ok? then Done(Noted(st, e), terminal.value) else Rejected
    else
      var next := ReadNonterminal(st, e);
      if next.Ok? then More(Noted(next.value, e)) else Rejected
  }

  function Step(st: ReaderState, e: RawEvent): Progress {
    var admitted := Admit(st, e);
    if admitted.Ok? then Dispatch(admitted.value, e) else Rejected
  }

  // ---------- Terminal validation ----------

  datatype Tally = Tally(expectedSource: u64, type0: nat, type1: nat, type2: nat)

  /**
   Checks that the record ranges follow each other from zero and counts the payload tags.
   A parsed record always has a first payload byte.
   */
  function TallyRecords(records: seq<CaptureRecord>): Result<Tally> {
    if records == [] then Ok(Tally(0, 0, 0, 0))
    else
      var tally :- TallyRecords(records[..|records| - 1]);
      TallyOne(tally, records[|records| - 1])
  }

  function TallyOne(tally: Tally, record: CaptureRecord): Result<Tally> {
    if record.first != tally.expectedSource || record.last == MAX_U64 || record.record.payload == [] then Err
    else
      var next := tally.(expectedSource := record.last + 1);
      match record.record.payload[0]
      case 0 => Ok(next.(type0 := next.type0 + 1))
      case 1 => Ok(next.(type1 := next.type1 + 1))
      case 2 => Ok(next.(type2 := next.type2 + 1))
      case _ => Err
  }

  predicate GapsFitTerminal(terminal: Terminal, gaps: seq<Gap>) {
    && terminal.gapCount == |gaps|
    && (terminal.kind == Clean ==> gaps == [])
    && |gaps| <= 1
    && (terminal.reason == AssemblerFailure ==> |gaps| == 1 && GapTerminalCode(gaps[0].reason) == Ok(262))
    && (terminal.reason == PendingAtDeadline ==> |gaps| == 1 && gaps[0].reason == 6)
  }

  /** The source-frame count the records and the optional gap account for. */
  function SourceAfterGap(expectedSource: u64, gaps: seq<Gap>): Result<u64> {
    if gaps == [] then Ok(expectedSource)
    else if gaps[0].first == expectedSource && gaps[0].last != MAX_U64 then Ok(gaps[0].last + 1)
    else Err
  }

  predicate CleanRule(terminal: Terminal, deadlineMs: Option<u32>, recordLimit: Option<u32>) {
    && deadlineMs.Some?
    && recordLimit.Some?
    && match terminal.reason
       case Deadline =>
         terminal.timestamp >= deadlineMs.value * 1000 && terminal.recordCount <= recordLimit.value
       case RecordLimit =>
         terminal.timestamp < deadlineMs.value * 1000 && terminal.recordCount == recordLimit.value
       case _ => false
  }

  predicate CountsFitTerminal(terminal: Terminal, tally: Tally, recordCount: nat, recordLimit: Option<u32>) {
    && terminal.recordCount == recordCount
    && (recordLimit.Some? ==> terminal.recordCount <= recordLimit.value)
    && terminal.type0 == tally.type0
    && terminal.type1 == tally.type1
    && terminal.type2 == tally.type2
    && tally.type0 + tally.type1 + tally.type2 == terminal.recordCount
  }

  predicate ValidTerminal(terminal: Terminal, st: ReaderState) {
    var tally := TallyRecords(st.records);
    && GapsFitTerminal(terminal, st.gaps)
    && tally.Ok?
    && SourceAfterGap(tally.value.expectedSource, st.gaps) == Ok(terminal.sourceFrames)
    && CountsFitTerminal(terminal, tally.value, |st.records|, st.recordLimit)
    && (terminal.kind == Clean ==> CleanRule(terminal, st.deadlineMs, st.recordLimit))
  }

  // ---------- The whole file ----------

  function Finish(st: ReaderState, terminal: Terminal, rest: seq<u8>): Result<StructuralCapture> {
    if rest == [] && ValidTerminal(terminal, st) then
      Ok(StructuralCapture(
           st.committed, st.requested, st.records, st.surfaces, st.gaps, terminal,
           st.deadlineMs, st.recordLimit, st.kinds, st.generations))
    else Err
  }

  function ReadEvents(data: seq<u8>, st: ReaderState): Result<StructuralCapture>
    decreases |data|
  {
    var framed :- ReadFrame(data);
    match Step(st, framed.event)
    case Rejected => Err
    case Done(final, terminal) => Finish(final, terminal, framed.rest)
    case More(next) => ReadEvents(framed.rest, next)
  }

  function ReadStructural(data: seq<u8>): Result<StructuralCapture> {
    if |data| < HEADER_BYTES || !ValidHeader(data[..HEADER_BYTES]) then Err
    else ReadEvents(data[HEADER_BYTES..], InitialState)
  }

  const LIFECYCLE: seq<u16> := [CREATED, ARMED, TRIGGERED, RECORDING]

  function ReadStrictCold(data: seq<u8>): Result<StrictCapture> {
    var s :- ReadStructural(data);
    if |s.kinds| < 5 || s.kinds[..4] != LIFECYCLE then Err
    else if exists i :: 4 <= i < |s.kinds| - 1 && s.kinds[i] != RECORD then Err
    else if s.kinds[|s.kinds| - 1] != CLEAN then Err
    else if exists i :: 0 <= i < |s.generations| && s.generations[i] != 0 then Err
    else if s.surfaces != [] || s.gaps != [] || s.terminal.kind != Clean then Err
    else if s.committed.None? || s.requested.None? || s.deadlineMs.None? || s.recordLimit.None? then Err
    else
      Ok(StrictCapture(
           s.committed.value, s.requested.value, s.records, s.deadlineMs.value, s.recordLimit.value, s.terminal))
  }

  // ---------- The source's loops ----------

  method ValidateTerminal(terminal: Terminal, st: ReaderState) returns (ok: bool)
    ensures ok == ValidTerminal(terminal, st)
  {
    if !GapsFitTerminal(terminal, st.gaps) {
      return false;
    }
    var expectedSource: u64, type0, type1, type2 := 0, 0, 0, 0;
    for i := 0 to |st.records|
      invariant type0 >= 0 && type1 >= 0 && type2 >= 0
      invariant TallyRecords(st.records[..i]) == Ok(Tally(expectedSource, type0, type1, type2))
    {
      var record := st.records[i];
      assert st.records[..i + 1][..i] == st.records[..i];
      if record.first != expectedSource || record.last == MAX_U64 || record.record.payload == [] {
        TallyRejects(st.records, i + 1);
        return false;
      }
      expectedSource := record.last + 1;
      match record.record.payload[0] {
        case 0 => type0 := type0 + 1;
        case 1 => type1 := type1 + 1;
        case 2 => type2 := type2 + 1;
        case _ =>
          TallyRejects(st.records, i + 1);
          return false;
      }
    }
    assert st.records[..|st.records|] == st.records;
    if st.gaps != [] {
      if st.gaps[0].first != expectedSource || st.gaps[0].last == MAX_U64 {
        return false;
      }
      expectedSource := st.gaps[0].last + 1;
    }
    ok := && terminal.sourceFrames == expectedSource
          && terminal.recordCount == |st.records|
          && (st.recordLimit.Some? ==> terminal.recordCount <= st.recordLimit.value)
          && terminal.type0 == type0 && terminal.type1 == type1 && terminal.type2 == type2
          && type0 + type1 + type2 == terminal.recordCount
          && (terminal.kind == Clean ==> CleanRule(terminal, st.deadlineMs, st.recordLimit));
  }

  lemma {:induction false} TallyRejects(records: seq<CaptureRecord>, n: nat)
    requires n <= |records| && TallyRecords(records[..n]).Err?
    ensures TallyRecords(records).Err?
    decreases |records| - n
  {
    if n < |records| {
      assert records[..n + 1][..n] == records[..n];
      TallyRejects(records, n + 1);
    } else {
      assert records[..n] == records;
    }
  }

  method ReadMvsCaptureV2Structural(data: seq<u8>) returns (r: Result<StructuralCapture>)
    ensures r == ReadStructural(data)
  {
    if |data| < HEADER_BYTES || !ValidHeader(data[..HEADER_BYTES]) {
      return Err;
    }
    var rest := data[HEADER_BYTES..];
    var st := InitialState;
    while true
      invariant ReadStructural(data) == ReadEvents(rest, st)
      decreases |rest|
    {
      if |rest| < PREFIX_BYTES {
        return Err;
      }
      var prefix := ReadPrefix(rest[..PREFIX_BYTES]);
      if prefix.Err? || |rest| < prefix.value.length {
        return Err;
      }
      var framed := ReadFrame(rest).value;
      var progress := Step(st, framed.event);
      match progress {
        case Rejected => return Err;
        case More(next) => rest, st := framed.rest, next;
        case Done(final, terminal) =>
          if framed.rest != [] {
            return Err;
          }
          var ok := ValidateTerminal(terminal, final);
          if !ok {
            return Err;
          }
          return Ok(StructuralCapture(
                      final.committed, final.requested, final.records, final.surfaces, final.gaps, terminal,
                      final.deadlineMs, final.recordLimit, final.kinds, final.generations));
      }
    }
  }
}
