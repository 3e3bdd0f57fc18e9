/** What an accepted FRDMVS02 file promises, said of its values alone. */
module CaptureFacts {
  import opened Bytes
  import opened Results
  import opened MvsStream
  import opened CaptureFormat
  import opened CaptureReader
  import Theorems = CaptureTheorems
  import Log = CaptureLog
  import opened FrameLedger

  // ---------- Records ----------

  /** Every pixel of the rectangle is on the surface, and there is at least one and at most the decoder's limit. */
  ghost predicate OnSurface(rect: MvsRect, surface: Geometry) {
    && rect.width > 0 && rect.height > 0
    && (forall x: int, y: int :: Covers(rect, x, y) ==> 0 <= x < surface.width && 0 <= y < surface.height)
    && 3 * (rect.width * rect.height) <= 0x0800_0000
  }

  predicate Covers(rect: MvsRect, x: int, y: int) {
    rect.x <= x < rect.x + rect.width && rect.y <= y < rect.y + rect.height
  }

  lemma RecordRectExactly(rect: MvsRect, surface: Geometry)
    ensures ValidRecordRect(rect, surface) <==> OnSurface(rect, surface)
  {
    if OnSurface(rect, surface) {
      assert Covers(rect, rect.x + rect.width - 1, rect.y + rect.height - 1);
    }
  }

  /** A payload starts with its tag: 0 and 1 are pictures on the surface, 2 carries none. */
  ghost predicate RecordFits(record: MvsRecord, surface: Geometry) {
    && 1 <= |record.payload| <= 16 * 1024 * 1024
    && match record.payload[0]
       case 2 => record.rect == MvsRect(0, 0, 0, 0)
       case _ => record.payload[0] < 2 && OnSurface(record.rect, surface)
  }

  lemma RecordShapeExactly(record: MvsRecord, surface: Geometry)
    requires 1 <= |record.payload| <= MAX_PAYLOAD
    ensures ValidRecordShape(record, surface) <==> RecordFits(record, surface)
  {
    RecordRectExactly(record.rect, surface);
  }

  // ---------- Gaps ----------

  predicate OneFrame(gap: Gap) {
    gap.first == gap.last
  }

  /**
   What a gap says by its reason. A rejected envelope (1) and a stray continuation (9) declare nothing; an
   impossible length (2), an oversized first chunk (3) and a spent budget (11) have collected nothing; all
   others end a record that still lacks bytes, and an overrun (4) or an early begin (10) has a later frame too.
   */
  predicate GapTells(gap: Gap, payloadBefore: nat) {
    var possible := 0 < gap.declaredTotal <= 16 * 1024 * 1024;
    && (gap.reason == 1 || gap.reason == 9 ==> gap.declaredTotal == 0)
    && (gap.reason == 9 ==> gap.rect == MvsRect(0, 0, 0, 0))
    && (gap.reason == 2 ==> !possible)
    && (gap.reason !in {1, 2, 9} ==> possible)
    && (gap.reason in {1, 2, 3, 9, 11} ==> gap.accumulated == 0 && OneFrame(gap))
    && (gap.reason !in {1, 2, 3, 9, 11} ==> gap.accumulated < gap.declaredTotal)
    && (gap.reason in {4, 10} ==> gap.first < gap.last)
    && (gap.reason == 11 ==> payloadBefore + gap.declaredTotal > 512 * 1024 * 1024)
  }

  lemma GapFieldsExactly(gap: Gap, payloadBefore: nat)
    requires gap.first <= gap.last
    ensures ValidGapFields(gap, payloadBefore) <==> GapTells(gap, payloadBefore)
  {
  }

  // ---------- Whole files ----------

  /** The surface records of a generation lie on: the last one announced, or the armed one if none was since. */
  function SurfaceIn(surfaces: seq<CaptureSurface>, committed: Option<Geometry>, generation: u64): Option<Geometry>
    requires generation <= |surfaces|
  {
    if generation > 0 then Some(surfaces[generation - 1].geometry)
    else if surfaces == [] then committed
    else None
  }

  ghost predicate RecordIsGood(r: CaptureRecord, surface: Option<Geometry>) {
    && 1 <= |r.record.payload| <= 16 * 1024 * 1024
    && r.record.payload[0] <= 2
    && r.first <= r.last
    && (surface.Some? ==> RecordFits(r.record, surface.value))
  }

  function PayloadBytes(records: seq<CaptureRecord>): nat {
    if records == [] then 0 else PayloadBytes(records[..|records| - 1]) + |records[|records| - 1].record.payload|
  }

  function WithTag(records: seq<CaptureRecord>, tag: u8): nat {
    if records == [] then 0
    else
      var payload := records[|records| - 1].record.payload;
      WithTag(records[..|records| - 1], tag) + if payload != [] && payload[0] == tag then 1 else 0
  }

  ghost predicate GapIsGood(gap: Gap, payloadBefore: nat) {
    && 1 <= gap.reason <= 12
    && gap.stage == (match gap.reason
                     case 4 => 2 case 9 => 2 case 5 => 3 case 6 => 4 case 7 => 5 case 8 => 6 case 12 => 7 case 11 => 8
                     case _ => 1)
    && gap.first <= gap.last < MAX_U64
    && GapTells(gap, payloadBefore)
  }

  /** What the events read so far have established. */
  ghost predicate Grounded(st: ReaderState) {
    && (st.phase != Start ==>
          && st.deadlineMs.Some? && st.deadlineMs.value in {5_000, 10_000, 15_000, 20_000, 30_000}
          && st.recordLimit.Some? && 1 <= st.recordLimit.value <= 4096)
    && (st.committed.Some? ==> ValidGeometry(st.committed.value))
    && (st.requested.Some? ==> ValidGeometry(st.requested.value))
    && |st.surfaces| == st.generation
    && (forall i :: 0 <= i < |st.surfaces| ==>
          st.surfaces[i].generation == i + 1 && ValidGeometry(st.surfaces[i].geometry))
    && (st.surfaces != [] ==> st.committed == Some(st.surfaces[|st.surfaces| - 1].geometry))
    && |st.records| <= 4096
    && st.payload == PayloadBytes(st.records) <= 512 * 1024 * 1024
    && (forall i :: 0 <= i < |st.records| ==>
          && st.records[i].generation <= st.generation
          && RecordIsGood(st.records[i], SurfaceIn(st.surfaces, st.committed, st.records[i].generation)))
    && (st.records != [] || st.surfaces != [] ==> st.phase == Recording)
    && |st.gaps| <= 1
    && (st.gapReason == if st.gaps == [] then None else Some(st.gaps[0].reason))
    && (st.gaps != [] ==> st.phase == Recording && GapIsGood(st.gaps[0], st.payload))
  }

  lemma RecordGrounds(st: ReaderState, e: RawEvent)
    requires Grounded(st) && st.gapReason.None? && ReadRecord(st, e).Ok?
    ensures Grounded(ReadRecord(st, e).value)
  {
    hide ParseRecord, RecordFits, ValidRecordShape, GapIsGood;
    var next := ReadRecord(st, e).value;
    var record := ParseRecord(e.body, e.generation, st.committed.value).value;
    assert next.records == st.records + [record];
    assert next.records[..|st.records|] == st.records;
    ParsedRecordIsGood(e.body, e.generation, st.committed.value);
    assert SurfaceIn(st.surfaces, st.committed, record.generation) == st.committed;
  }

  lemma ParsedRecordIsGood(body: seq<u8>, generation: u64, surface: Geometry)
    requires ParseRecord(body, generation, surface).Ok?
    ensures RecordIsGood(ParseRecord(body, generation, surface).value, Some(surface))
    ensures ParseRecord(body, generation, surface).value.generation == generation
  {
    hide FromU16, FromU32, FromU64, RecordFits, ValidRecordShape;
    var record := ParseRecord(body, generation, surface).value.record;
    RecordShapeExactly(record, surface);
    assert RecordFits(record, surface) ==> record.payload[0] <= 2 by { TagIsKnown(record, surface); }
  }

  lemma TagIsKnown(record: MvsRecord, surface: Geometry)
    ensures RecordFits(record, surface) ==> record.payload != [] && record.payload[0] <= 2
  {
  }

  lemma SurfaceGrounds(st: ReaderState, e: RawEvent)
    requires Grounded(st) && ReadSurface(st, e).Ok?
    ensures Grounded(ReadSurface(st, e).value)
  {
    hide FromU16, RecordFits, GapIsGood, ValidGeometry;
    var next := ReadSurface(st, e).value;
    forall i | 0 <= i < |next.records|
      ensures RecordIsGood(next.records[i], SurfaceIn(next.surfaces, next.committed, next.records[i].generation))
    {
      var g := next.records[i].generation;
      assert g > 0 ==> next.surfaces[g - 1] == st.surfaces[g - 1];
    }
  }

  lemma GapGrounds(st: ReaderState, e: RawEvent)
    requires Grounded(st) && ReadGap(st, e).Ok?
    ensures Grounded(ReadGap(st, e).value)
  {
    hide FromU16, FromU32, FromU64, RecordFits, RecordIsGood, ValidGapFields, GapTells;
    var gap := ParseGap(e.body, st.payload).value;
    GapFieldsExactly(gap, st.payload);
  }

  lemma LifecycleGrounds(st: ReaderState, e: RawEvent)
    requires Grounded(st)
    ensures ReadCreated(st, e).Ok? ==> Grounded(ReadCreated(st, e).value)
    ensures ReadArmed(st, e).Ok? ==> Grounded(ReadArmed(st, e).value)
    ensures ReadTriggered(st, e).Ok? ==> Grounded(ReadTriggered(st, e).value)
    ensures ReadRecording(st, e).Ok? ==> Grounded(ReadRecording(st, e).value)
  {
    hide FromU16, FromU32, FromU64, U64, RecordFits, RecordIsGood, GapIsGood, ValidGeometry;
  }

  lemma NonterminalGrounds(st: ReaderState, e: RawEvent)
    requires Grounded(st) && st.gapReason.None? && ReadNonterminal(st, e).Ok?
    ensures Grounded(ReadNonterminal(st, e).value)
  {
    hide ReadCreated, ReadArmed, ReadTriggered, ReadRecording, ReadSurface, ReadRecord, ReadGap, Grounded;
    LifecycleGrounds(st, e);
    if ReadSurface(st, e).Ok? {
      SurfaceGrounds(st, e);
    }
    if ReadRecord(st, e).Ok? {
      RecordGrounds(st, e);
    }
    if ReadGap(st, e).Ok? {
      GapGrounds(st, e);
    }
  }

  /** Counting an event and noting its kind changes nothing that is grounded. */
  lemma CountingGrounds(st: ReaderState, e: RawEvent)
    requires Grounded(st)
    ensures Admit(st, e).Ok? ==> Grounded(Admit(st, e).value) && Admit(st, e).value.gapReason == st.gapReason
    ensures Grounded(Noted(st, e))
  {
    hide RecordIsGood, GapIsGood, ValidGeometry, SurfaceIn;
  }

  lemma StepGrounds(st: ReaderState, e: RawEvent)
    requires Grounded(st) && !Step(st, e).Rejected?
    ensures Grounded(Step(st, e).state)
  {
    hide Grounded, ReadNonterminal, ReadTerminal, ReadTerminalAfterGap, Admit, Noted;
    CountingGrounds(st, e);
    var admitted := Admit(st, e).value;
    CountingGrounds(admitted, e);
    if Step(st, e).More? {
      NonterminalGrounds(admitted, e);
      CountingGrounds(ReadNonterminal(admitted, e).value, e);
    }
  }

  /** The ranges of the records and then of the gap, if there is one, follow each other from 0 to the source count. */
  ghost predicate RangesFollow(records: seq<CaptureRecord>, gaps: seq<Gap>, sourceFrames: u64) {
    && (forall k :: 0 <= k < |records| ==> records[k].first == RangeStart(records, k))
    && (if gaps == [] then sourceFrames == RangeStart(records, |records|)
        else gaps[0].first == RangeStart(records, |records|) && sourceFrames == gaps[0].last + 1)
  }

  /** Everything an accepted file says of itself is true of what is in it. */
  ghost predicate IsTruthful(file: StructuralCapture) {
    var t := file.terminal;
    && file.deadlineMs.Some? && file.deadlineMs.value in {5_000, 10_000, 15_000, 20_000, 30_000}
    && file.recordLimit.Some? && 1 <= file.recordLimit.value <= 4096
    && (file.committed.Some? ==> ValidGeometry(file.committed.value))
    && (file.requested.Some? ==> ValidGeometry(file.requested.value))
    && (forall i :: 0 <= i < |file.surfaces| ==>
          file.surfaces[i].generation == i + 1 && ValidGeometry(file.surfaces[i].geometry))
    && (file.surfaces != [] ==> file.committed == Some(file.surfaces[|file.surfaces| - 1].geometry))
    && PayloadBytes(file.records) <= 512 * 1024 * 1024
    && (forall i :: 0 <= i < |file.records| ==>
          && file.records[i].generation <= |file.surfaces|
          && RecordIsGood(file.records[i], SurfaceIn(file.surfaces, file.committed, file.records[i].generation)))
    && (forall i :: 0 <= i < |file.gaps| ==> GapIsGood(file.gaps[i], PayloadBytes(file.records)))
    && RangesFollow(file.records, file.gaps, t.sourceFrames)
    && t.gapCount == |file.gaps| <= 1
    && t.recordCount == |file.records| <= file.recordLimit.value
    && t.type0 == WithTag(file.records, 0) && t.type1 == WithTag(file.records, 1) && t.type2 == WithTag(file.records, 2)
    && t.type0 + t.type1 + t.type2 == |file.records|
    && EndsAsSaid(t, file.gaps, file.deadlineMs.value, file.recordLimit.value)
  }

  /** A Clean end has no gap and came at the deadline, or before it with the records full. */
  predicate EndsAsSaid(t: Terminal, gaps: seq<Gap>, deadlineMs: u32, recordLimit: u32) {
    if t.kind == Clean then
      && gaps == []
      && ((t.reason == Deadline && t.timestamp >= deadlineMs * 1000)
          || (t.reason == RecordLimit && t.timestamp < deadlineMs * 1000 && t.recordCount == recordLimit))
    else
      && t.reason !in {Deadline, RecordLimit}
      && (t.reason == PendingAtDeadline <==> gaps != [] && gaps[0].reason == 6)
      && (t.reason == AssemblerFailure <==> gaps != [] && gaps[0].reason !in {6, 7, 8, 12})
      && (gaps != [] && gaps[0].reason == 7 ==> t.reason == ReadFailure)
      && (gaps != [] && gaps[0].reason == 8 ==> t.reason == InvalidGeometry)
      && (gaps != [] && gaps[0].reason == 12 ==> t.reason == OperatorCancellation)
  }

  lemma {:induction false} TallyCounts(records: seq<CaptureRecord>)
    requires TallyRecords(records).Ok?
    ensures var tally := TallyRecords(records).value;
            && tally.type0 == WithTag(records, 0)
            && tally.type1 == WithTag(records, 1)
            && tally.type2 == WithTag(records, 2)
  {
    if records != [] {
      TallyCounts(records[..|records| - 1]);
    }
  }

  /** What a terminal event was let through for, by the phase and the gap before it. */
  lemma TerminalIsAllowed(st: ReaderState, e: RawEvent)
    requires Grounded(st) && Step(st, e).Done?
    ensures var terminal, gaps := Step(st, e).terminal, st.gaps;
            && Step(st, e).state.gaps == gaps && Step(st, e).state.phase != Start
            && (terminal.kind == Clean <==> terminal.reason in {Deadline, RecordLimit})
            && (gaps != [] ==>
                  GapTerminalCode(gaps[0].reason).Ok?
                  && TerminalReasonOf(GapTerminalCode(gaps[0].reason).value) == Ok(terminal.reason))
  {
    hide RecordIsGood, ValidGeometry, FromU16, FromU32, FromU64, SurfaceIn, GapTells, GapTerminalCode;
  }

  lemma ValidEndsAsSaid(terminal: Terminal, st: ReaderState)
    requires ValidTerminal(terminal, st) && st.deadlineMs.Some? && st.recordLimit.Some?
    requires terminal.kind == Clean <==> terminal.reason in {Deadline, RecordLimit}
    requires st.gaps != [] ==>
               1 <= st.gaps[0].reason <= 12 && GapTerminalCode(st.gaps[0].reason).Ok?
               && TerminalReasonOf(GapTerminalCode(st.gaps[0].reason).value) == Ok(terminal.reason)
    ensures EndsAsSaid(terminal, st.gaps, st.deadlineMs.value, st.recordLimit.value)
  {
    hide TallyRecords, SourceAfterGap, CountsFitTerminal;
  }

  lemma FinishedIsTruthful(st: ReaderState, e: RawEvent)
    requires Grounded(st) && Step(st, e).Done? && ValidTerminal(Step(st, e).terminal, Step(st, e).state)
    ensures IsTruthful(Finish(Step(st, e).state, Step(st, e).terminal, []).value)
  {
    hide Step, RecordIsGood, GapTells, ValidGeometry, SurfaceIn, EndsAsSaid, TallyRecords, WithTag, PayloadBytes;
    StepGrounds(st, e);
    TerminalIsAllowed(st, e);
    var final := Step(st, e).state;
    ValidEndsAsSaid(Step(st, e).terminal, final);
    TallyTiles(final.records);
    TallyCounts(final.records);
  }

  lemma {:induction false} EventsAreTruthful(data: seq<u8>, st: ReaderState)
    requires Grounded(st) && ReadEvents(data, st).Ok?
    ensures IsTruthful(ReadEvents(data, st).value)
    decreases |data|
  {
    hide Step, ReadFrame, ValidTerminal, Grounded, IsTruthful;
    var framed := ReadFrame(data).value;
    var step := Step(st, framed.event);
    StepGrounds(st, framed.event);
    if step.More? {
      EventsAreTruthful(framed.rest, step.state);
    } else {
      FinishedIsTruthful(st, framed.event);
    }
  }

  /** Whatever either reader accepts is truthful: every count, range, rectangle, gap and reason is borne out. */
  lemma AcceptedFilesAreTruthful(data: seq<u8>)
    ensures ReadStructural(data).Ok? ==> IsTruthful(ReadStructural(data).value)
  {
    hide ReadEvents, ValidHeader, IsTruthful;
    if ReadStructural(data).Ok? {
      EventsAreTruthful(data[HEADER_BYTES..], InitialState);
    }
  }

  // ---------- How far a file came ----------

  /** The reason a file ends with is one for how far its lifecycle had come. */
  predicate ReasonFits(reason: TerminalReason, kinds: seq<u16>) {
    var recording := |kinds| >= 5 && kinds[..4] == LIFECYCLE;
    match reason
    case ConnectFailure => kinds == [CREATED, ABORTED]
    case CredentialOrAuthenticationFailure => kinds == [CREATED, ABORTED]
    case ArmOutputFailure => kinds == [CREATED, ABORTED] || kinds == [CREATED, ARMED, ABORTED]
    case PreTriggerDeadline => kinds == [CREATED, ABORTED] || kinds == [CREATED, ARMED, ABORTED]
    case TriggerFailure => |kinds| >= 3 && kinds[..2] == [CREATED, ARMED]
    case InvalidGeometry => kinds == [CREATED, ABORTED] || recording
    case OperatorCancellation => |kinds| >= 2 && kinds[0] == CREATED
    case OutputFailure => |kinds| >= 2 && kinds[0] == CREATED
    case _ => recording
  }

  lemma ReasonFitsPhase(st: ReaderState, e: RawEvent)
    requires Theorems.Shaped(st) && Grounded(st) && Step(st, e).Done?
    ensures ReasonFits(Step(st, e).terminal.reason, Step(st, e).state.kinds)
  {
    hide FromU16, FromU32, FromU64, RecordIsGood, GapIsGood, ValidGeometry, SurfaceIn, GapTerminalCode;
    var kinds := st.kinds + [e.kind];
    assert kinds[..|st.kinds|] == st.kinds;
    match st.phase {
      case Start =>
      case Created => assert st.kinds == [CREATED];
      case Armed => assert st.kinds == [CREATED, ARMED];
      case Triggered => assert st.kinds == [CREATED, ARMED, TRIGGERED];
      case Recording => assert kinds[..4] == st.kinds[..4] && kinds[..2] == LIFECYCLE[..2];
    }
  }

  lemma {:induction false} EventsFit(data: seq<u8>, st: ReaderState)
    requires Grounded(st) && Theorems.Shaped(st) && ReadEvents(data, st).Ok?
    ensures var file := ReadEvents(data, st).value; ReasonFits(file.terminal.reason, file.kinds)
    decreases |data|
  {
    hide Step, ReadFrame, ValidTerminal, Grounded, Theorems.Shaped, ReasonFits;
    var framed := ReadFrame(data).value;
    var step := Step(st, framed.event);
    StepGrounds(st, framed.event);
    if step.More? {
      Theorems.StepKeepsShape(st, framed.event);
      EventsFit(framed.rest, step.state);
    } else {
      ReasonFitsPhase(st, framed.event);
    }
  }

  lemma ReasonsFitTheLifecycle(data: seq<u8>)
    ensures ReadStructural(data).Ok? ==>
              ReasonFits(ReadStructural(data).value.terminal.reason, ReadStructural(data).value.kinds)
  {
    hide ReadEvents, ValidHeader, ReasonFits;
    if ReadStructural(data).Ok? {
      EventsFit(data[HEADER_BYTES..], InitialState);
    }
  }

  // ---------- Bytes ----------

  lemma SmallNumbers(n: u8)
    ensures U16(n) == [0, n] && U32(n) == [0, 0, 0, n] && U64(n) == [0, 0, 0, 0, 0, 0, 0, n]
  {
    assert U32(0) == [0, 0, 0, 0];
  }

  /** The header, byte by byte. */
  lemma HeaderBytes()
    ensures CaptureHeader() == [0x46, 0x52, 0x44, 0x4d, 0x56, 0x53, 0x30, 0x32, 0, 32, 2, 0, 1, 0, 0, 1,
                                1, 0, 0, 0, 1, 0, 0, 0x1c, 0, 0, 0x10, 0, 0, 0, 0x75, 0x30]
  {
    assert U32(MAX_PAYLOAD) == [1, 0, 0, 0] && U32(MAX_EVENT_BODY) == [1, 0, 0, 0x1c];
    assert U32(MAX_RECORDS) == [0, 0, 0x10, 0] && U32(MAX_DURATION_MS) == [0, 0, 0x75, 0x30];
  }

  /** The bodies of a small capture, byte by byte. */
  lemma CreatedBytes(limit: u8)
    ensures CreatedBody(5000, limit) == [0, 0, 0x13, 0x88, 0, 0, 0, limit, 0, 1, 0, 1, 0, 0, 0, 0]
  {
    assert U32(5000) == [0, 0, 0x13, 0x88];
    hide U16, U32;
    SmallNumbers(0);
    SmallNumbers(1);
    SmallNumbers(limit);
  }

  lemma ArmedBytes(a: u8, b: u8, c: u8, d: u8)
    ensures ArmedBody(Geometry(a, b), Geometry(c, d)) ==
            [0, a, 0, b, 0, c, 0, d, 0, 1, 0, 1, 0, 0, 0, 3, 0, 0, 0, 0, 0, 0, 0, 0]
  {
    hide U16, U32, U64;
    SmallNumbers(0);
    SmallNumbers(1);
    SmallNumbers(3);
    SmallNumbers(a);
    SmallNumbers(b);
    SmallNumbers(c);
    SmallNumbers(d);
  }

  lemma RecordBytes(first: u8, last: u8, x: u8, y: u8, w: u8, h: u8, byte: u8)
    ensures RecordBody(first, last, MvsRecord(MvsRect(x, y, w, h), [byte])) ==
            [0, 0, 0, 0, 0, 0, 0, first, 0, 0, 0, 0, 0, 0, 0, last]
            + [0, x, 0, y, 0, w, 0, h, 0, 0, 0, 1, byte]
  {
    hide U16, U32, U64;
    SmallNumbers(first);
    SmallNumbers(last);
    SmallNumbers(x);
    SmallNumbers(y);
    SmallNumbers(w);
    SmallNumbers(h);
    SmallNumbers(1);
  }

  lemma GapBytes(reason: u8, stage: u8, first: u8, last: u8, total: u8, had: u8, x: u8, y: u8, w: u8, h: u8)
    ensures GapBody(Gap(reason, stage, first, last, total, had, MvsRect(x, y, w, h))) ==
            [0, reason, 0, stage, 0, 0, 0, 1, 0, 0, 0, 0, 0, 0, 0, first, 0, 0, 0, 0, 0, 0, 0, last]
            + [0, 0, 0, total, 0, 0, 0, had, 0, x, 0, y, 0, w, 0, h]
  {
    hide U16, U32, U64;
    SmallNumbers(1);
    SmallNumbers(reason);
    SmallNumbers(stage);
    SmallNumbers(first);
    SmallNumbers(last);
    SmallNumbers(total);
    SmallNumbers(had);
    RectBytesAre(x, y, w, h);
  }

  lemma RectBytesAre(x: u8, y: u8, w: u8, h: u8)
    ensures RectBytes(MvsRect(x, y, w, h)) == [0, x, 0, y, 0, w, 0, h]
  {
    hide U16;
    SmallNumbers(x);
    SmallNumbers(y);
    SmallNumbers(w);
    SmallNumbers(h);
  }

  lemma TerminalBytes(code: u8, gaps: u8, frames: u8, records: u8, type0: u8, type1: u8, type2: u8)
    ensures TerminalBody(code, gaps, frames, records, type0, type1, type2) ==
            [0, code, 0, 0, 0, 0, 0, gaps, 0, 0, 0, 0, 0, 0, 0, frames, 0, 0, 0, 0, 0, 0, 0, records]
            + [0, 0, 0, 0, 0, 0, 0, type0, 0, 0, 0, 0, 0, 0, 0, type1, 0, 0, 0, 0, 0, 0, 0, type2]
  {
    hide U16, U32, U64;
    SmallNumbers(0);
    SmallNumbers(code);
    SmallNumbers(gaps);
    SmallNumbers(frames);
    SmallNumbers(records);
    TypeCountBytes(type0, type1, type2);
    assert TerminalBody(code, gaps, frames, records, type0, type1, type2) ==
           U16(code) + U16(0) + U32(gaps) + U64(frames) + U64(records) + (U64(type0) + U64(type1) + U64(type2));
  }

  lemma TypeCountBytes(type0: u8, type1: u8, type2: u8)
    ensures U64(type0) + U64(type1) + U64(type2) ==
            [0, 0, 0, 0, 0, 0, 0, type0, 0, 0, 0, 0, 0, 0, 0, type1, 0, 0, 0, 0, 0, 0, 0, type2]
  {
    hide U64;
    SmallNumbers(type0);
    SmallNumbers(type1);
    SmallNumbers(type2);
  }

  // ---------- Logs ----------

  /** The events of a log that is not refused are numbered from 0, their times never go back, and they are few. */
  lemma {:induction false} LogsAreOrdered(log: seq<RawEvent>)
    requires !Log.Run(log).Rejected?
    ensures |log| <= 4102
    ensures forall i :: 0 <= i < |log| ==> log[i].ordinal == i
    ensures forall i :: 0 < i < |log| ==> log[i - 1].timestamp <= log[i].timestamp
    ensures Log.Run(log).More? ==>
              var st := Log.Run(log).state;
              && st.events == st.expectedOrdinal == |log|
              && st.lastTimestamp == if log == [] then None else Some(log[|log| - 1].timestamp)
  {
    hide Dispatch;
    if log != [] {
      var front, last := log[..|log| - 1], log[|log| - 1];
      LogsAreOrdered(front);
      StepCounts(Log.Run(front).state, last);
      assert forall i :: 0 <= i < |front| ==> log[i] == front[i];
    }
  }

  lemma StepCounts(st: ReaderState, e: RawEvent)
    requires !Step(st, e).Rejected?
    ensures e.ordinal == st.expectedOrdinal && st.events < 4102
    ensures st.lastTimestamp.Some? ==> st.lastTimestamp.value <= e.timestamp
    ensures var next := Step(st, e).state;
            && next.events == st.events + 1 && next.expectedOrdinal == st.expectedOrdinal + 1
            && next.lastTimestamp == Some(e.timestamp)
  {
    hide ParseRecord, ParseGap, ParseGeometry, FromU16, FromU32, FromU64, U64;
  }

  /** The body of a lifecycle event, a record or a gap is exactly the encoding of what the reader takes from it. */
  ghost predicate BodyTells(st: ReaderState, e: RawEvent, next: ReaderState) {
    && (e.kind == CREATED ==>
          next.deadlineMs.Some? && next.recordLimit.Some?
          && e.body == CreatedBody(next.deadlineMs.value, next.recordLimit.value))
    && (e.kind == ARMED ==>
          next.committed.Some? && next.requested.Some?
          && e.body == ArmedBody(next.committed.value, next.requested.value))
    && (e.kind == TRIGGERED ==> st.requested.Some? && e.body == TriggeredBody(st.requested.value))
    && (e.kind == RECORDING ==> e.body == [0, 0, 0, 0, 0, 0, 0, 0])
    && (e.kind == RECORD ==>
          && |next.records| == |st.records| + 1
          && var r := next.records[|st.records|];
          && next.records == st.records + [r] && r.generation == e.generation
          && |r.record.payload| <= MAX_PAYLOAD
          && e.body == RecordBody(r.first, r.last, r.record))
    && (e.kind == GAP ==> |next.gaps| == 1 && e.body == GapBody(next.gaps[0]))
  }

  lemma CreatedTells(body: seq<u8>)
    requires |body| == 16
    requires FromU16(body[8..10]) == 1 && FromU16(body[10..12]) == 1 && FromU32(body[12..16]) == 0
    ensures body == CreatedBody(FromU32(body[0..4]), FromU32(body[4..8]))
  {
    hide U16, U32, FromU16, FromU32;
    U32Canonical(body[0..4]);
    U32Canonical(body[4..8]);
    U16Canonical(body[8..10]);
    U16Canonical(body[10..12]);
    U32Canonical(body[12..16]);
    assert body == body[0..4] + body[4..8] + body[8..10] + body[10..12] + body[12..16];
  }

  lemma ArmedTells(body: seq<u8>)
    requires |body| == 24
    requires FromU16(body[8..10]) == 1 && FromU16(body[10..12]) == 1
    requires FromU32(body[12..16]) == 3 && FromU64(body[16..24]) == 0
    ensures body == ArmedBody(Geometry(FromU16(body[0..2]), FromU16(body[2..4])),
                              Geometry(FromU16(body[4..6]), FromU16(body[6..8])))
  {
    hide U16, U32, U64, FromU16, FromU32, FromU64;
    U16Canonical(body[0..2]);
    U16Canonical(body[2..4]);
    U16Canonical(body[4..6]);
    U16Canonical(body[6..8]);
    U16Canonical(body[8..10]);
    U16Canonical(body[10..12]);
    U32Canonical(body[12..16]);
    U64Canonical(body[16..24]);
    assert body == body[0..2] + body[2..4] + body[4..6] + body[6..8] + body[8..10] + body[10..12]
                   + body[12..16] + body[16..24];
  }

  lemma TriggeredTells(body: seq<u8>)
    requires |body| == 16 && FromU32(body[4..8]) == 7 && FromU64(body[8..16]) == 0
    ensures body == TriggeredBody(Geometry(FromU16(body[0..2]), FromU16(body[2..4])))
  {
    hide U16, U32, U64, FromU16, FromU32, FromU64;
    U16Canonical(body[0..2]);
    U16Canonical(body[2..4]);
    U32Canonical(body[4..8]);
    U64Canonical(body[8..16]);
    assert body == body[0..2] + body[2..4] + body[4..8] + body[8..16];
  }

  lemma RectTells(b: seq<u8>)
    requires |b| == 8
    ensures RectBytes(ParseRect(b)) == b
  {
    hide U16, FromU16;
    U16Canonical(b[0..2]);
    U16Canonical(b[2..4]);
    U16Canonical(b[4..6]);
    U16Canonical(b[6..8]);
    assert b == b[0..2] + b[2..4] + b[4..6] + b[6..8];
  }

  lemma RecordTells(body: seq<u8>, generation: u64, surface: Geometry)
    requires ParseRecord(body, generation, surface).Ok?
    ensures var r := ParseRecord(body, generation, surface).value;
            r.generation == generation && body == RecordBody(r.first, r.last, r.record)
  {
    hide U16, U32, U64, FromU16, FromU32, FromU64, RectBytes, ParseRect, ValidRecordShape;
    U64Canonical(body[0..8]);
    U64Canonical(body[8..16]);
    RectTells(body[16..24]);
    U32Canonical(body[24..28]);
    assert body == body[0..8] + body[8..16] + body[16..24] + body[24..28] + body[28..];
  }

  lemma GapTellsAll(body: seq<u8>, payloadBefore: nat)
    requires ParseGap(body, payloadBefore).Ok?
    ensures body == GapBody(ParseGap(body, payloadBefore).value)
  {
    hide U16, U32, U64, FromU16, FromU32, FromU64, RectBytes, ParseRect, ValidGapFields, GapStage;
    U16Canonical(body[0..2]);
    U16Canonical(body[2..4]);
    U32Canonical(body[4..8]);
    U64Canonical(body[8..16]);
    U64Canonical(body[16..24]);
    U32Canonical(body[24..28]);
    U32Canonical(body[28..32]);
    RectTells(body[32..40]);
    assert body == body[0..2] + body[2..4] + body[4..8] + body[8..16] + body[16..24] + body[24..28]
                   + body[28..32] + body[32..40];
  }

  lemma BodiesTell(st: ReaderState, e: RawEvent)
    requires Step(st, e).More?
    ensures BodyTells(st, e, Step(st, e).state)
  {
    hide CreatedBody, ArmedBody, TriggeredBody, RecordBody, GapBody, FromU16, FromU32, FromU64, U16, U32;
    hide ParseRecord, ParseGap, ValidGeometry;
    if e.kind == CREATED {
      CreatedTells(e.body);
    } else if e.kind == ARMED {
      ArmedTells(e.body);
      assert e.body[0..4][0..2] == e.body[0..2] && e.body[0..4][2..4] == e.body[2..4];
      assert e.body[4..8][0..2] == e.body[4..6] && e.body[4..8][2..4] == e.body[6..8];
    } else if e.kind == TRIGGERED {
      TriggeredTells(e.body);
    } else if e.kind == RECORDING {
      SmallNumbers(0);
    } else if e.kind == RECORD {
      RecordTells(e.body, e.generation, st.committed.value);
    } else if e.kind == GAP {
      GapTellsAll(e.body, st.payload);
    }
  }

  /** So does the body of the terminal. */
  lemma TerminalTells(st: ReaderState, e: RawEvent)
    requires Step(st, e).Done?
    ensures var t := Step(st, e).terminal;
            && t.timestamp == e.timestamp
            && (t.kind == Clean <==> e.kind == CLEAN) && (t.kind == Aborted <==> e.kind == ABORTED)
            && exists code: u16 :: TerminalReasonOf(code) == Ok(t.reason)
                 && e.body == TerminalBody(code, t.gapCount, t.sourceFrames, t.recordCount, t.type0, t.type1, t.type2)
  {
    hide U16, U32, U64, FromU16, FromU32, FromU64, TerminalReasonOf, GapTerminalCode, TerminalPhaseAllowed;
    var body := e.body;
    U16Canonical(body[0..2]);
    U16Canonical(body[2..4]);
    U32Canonical(body[4..8]);
    U64Canonical(body[8..16]);
    U64Canonical(body[16..24]);
    U64Canonical(body[24..32]);
    U64Canonical(body[32..40]);
    U64Canonical(body[40..48]);
    assert body == body[0..2] + body[2..4] + body[4..8] + body[8..16] + body[16..24] + body[24..32]
                   + body[32..40] + body[40..48];
    var t := Step(st, e).terminal;
    assert body == TerminalBody(FromU16(body[0..2]), t.gapCount, t.sourceFrames, t.recordCount,
                                t.type0, t.type1, t.type2);
  }
}
