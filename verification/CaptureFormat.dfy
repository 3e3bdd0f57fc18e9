/**
 The FRDMVS02 capture container: constants, value types, event framing, event bodies and the
 gap/terminal tables (src/vnc/mvs_capture_v2.rs and the encoders of mvs_capture_v2_writer.rs).
 */
module CaptureFormat {
  import opened Bytes
  import opened Results
  import opened MvsStream

  const HEADER_BYTES := 32
  const PREFIX_BYTES := 32
  const MAX_PAYLOAD := 0x0100_0000
  const MAX_EVENT_BODY := 0x0100_001c
  const MAX_EVENT_BYTES := 0x0100_003c
  const MAX_RECORDS := 4096
  const MAX_EVENTS := 4102
  const MAX_CUMULATIVE_PAYLOAD := 0x2000_0000
  const MAX_DURATION_MS: u32 := 30_000
  const MAX_FRAMEBUFFER_PIXELS := 0x0400_0000
  const MAX_DECODE_PIXELS := 0x0800_0000 / 3

  const CREATED: u16 := 0x01
  const ARMED: u16 := 0x02
  const TRIGGERED: u16 := 0x03
  const RECORDING: u16 := 0x04
  const SURFACE: u16 := 0x10
  const RECORD: u16 := 0x20
  const GAP: u16 := 0x21
  const CLEAN: u16 := 0xfe
  const ABORTED: u16 := 0xff

  datatype Geometry = Geometry(width: u16, height: u16)

  predicate ValidGeometry(g: Geometry) {
    g.width != 0 && g.height != 0 && g.width * g.height <= MAX_FRAMEBUFFER_PIXELS
  }

  datatype TerminalKind = Clean | Aborted

  datatype TerminalReason =
    | Deadline
    | RecordLimit
    | ConnectFailure
    | CredentialOrAuthenticationFailure
    | ArmOutputFailure
    | TriggerFailure
    | ReadFailure
    | AssemblerFailure
    | PendingAtDeadline
    | OutputFailure
    | OperatorCancellation
    | InvalidGeometry
    | PreTriggerDeadline

  datatype CaptureRecord = CaptureRecord(generation: u64, first: u64, last: u64, record: MvsRecord)

  datatype CaptureSurface = CaptureSurface(generation: u64, geometry: Geometry)

  datatype Gap = Gap(
    reason: u16,
    stage: u16,
    first: u64,
    last: u64,
    declaredTotal: u32,
    accumulated: u32,
    rect: MvsRect)

  datatype Terminal = Terminal(
    kind: TerminalKind,
    reason: TerminalReason,
    timestamp: u64,
    gapCount: u32,
    sourceFrames: u64,
    recordCount: u64,
    type0: u64,
    type1: u64,
    type2: u64)

  // ---------- Gap and terminal tables ----------

  function GapStage(reason: u16): Result<u16> {
    match reason
    case 1 => Ok(1)
    case 2 => Ok(1)
    case 3 => Ok(1)
    case 10 => Ok(1)
    case 4 => Ok(2)
    case 9 => Ok(2)
    case 5 => Ok(3)
    case 6 => Ok(4)
    case 7 => Ok(5)
    case 8 => Ok(6)
    case 12 => Ok(7)
    case 11 => Ok(8)
    case _ => Err
  }

  function GapTerminalCode(reason: u16): Result<u16> {
    match reason
    case 6 => Ok(263)
    case 7 => Ok(261)
    case 8 => Ok(266)
    case 12 => Ok(265)
    case _ => if 1 <= reason <= 5 || 9 <= reason <= 11 then Ok(262) else Err
  }

  function TerminalReasonOf(code: u16): Result<TerminalReason> {
    match code
    case 1 => Ok(Deadline)
    case 2 => Ok(RecordLimit)
    case 257 => Ok(ConnectFailure)
    case 258 => Ok(CredentialOrAuthenticationFailure)
    case 259 => Ok(ArmOutputFailure)
    case 260 => Ok(TriggerFailure)
    case 261 => Ok(ReadFailure)
    case 262 => Ok(AssemblerFailure)
    case 263 => Ok(PendingAtDeadline)
    case 264 => Ok(OutputFailure)
    case 265 => Ok(OperatorCancellation)
    case 266 => Ok(InvalidGeometry)
    case 267 => Ok(PreTriggerDeadline)
    case _ => Err
  }

  // ---------- File header ----------

  const MAGIC: seq<u8> := [0x46, 0x52, 0x44, 0x4d, 0x56, 0x53, 0x30, 0x32]

  function CaptureHeader(): (s: seq<u8>)
    ensures |s| == HEADER_BYTES
  {
    MAGIC + U16(HEADER_BYTES) + [2, 0, 1, 0] + U16(1)
    + U32(MAX_PAYLOAD) + U32(MAX_EVENT_BODY) + U32(MAX_RECORDS) + U32(MAX_DURATION_MS)
  }

  predicate ValidHeader(h: seq<u8>)
    requires |h| == HEADER_BYTES
  {
    && h[..8] == MAGIC
    && FromU16(h[8..10]) == HEADER_BYTES
    && h[10] == 2 && h[11] == 0 && h[12] == 1 && h[13] == 0
    && FromU16(h[14..16]) == 1
    && FromU32(h[16..20]) == MAX_PAYLOAD
    && FromU32(h[20..24]) == MAX_EVENT_BODY
    && FromU32(h[24..28]) == MAX_RECORDS
    && FromU32(h[28..32]) == MAX_DURATION_MS
  }

  // ---------- Event framing ----------

  datatype RawEvent = RawEvent(kind: u16, ordinal: u64, generation: u64, timestamp: u64, body: seq<u8>)

  datatype Prefix = Prefix(length: nat, kind: u16, ordinal: u64, generation: u64, timestamp: u64)

  predicate ValidEventLength(length: int) {
    && PREFIX_BYTES <= length <= MAX_EVENT_BYTES
    && length - PREFIX_BYTES <= MAX_EVENT_BODY
  }

  predicate Encodable(e: RawEvent) {
    ValidEventLength(PREFIX_BYTES + |e.body|)
  }

  function EventPrefix(e: RawEvent): (s: seq<u8>)
    requires Encodable(e)
    ensures |s| == PREFIX_BYTES
  {
    U32(PREFIX_BYTES + |e.body|) + U16(e.kind) + U16(0) + U64(e.ordinal) + U64(e.generation) + U64(e.timestamp)
  }

  function EventBytes(e: RawEvent): (s: seq<u8>)
    requires Encodable(e)
    ensures |s| == PREFIX_BYTES + |e.body|
  {
    EventPrefix(e) + e.body
  }

  function EncodeEvent(e: RawEvent): Result<seq<u8>> {
    if Encodable(e) then Ok(EventBytes(e)) else Err
  }

  function ReadPrefix(data: seq<u8>): (r: Result<Prefix>)
    ensures r.Ok? ==> ValidEventLength(r.value.length)
  {
    if |data| != PREFIX_BYTES then Err
    else
      var length := FromU32(data[0..4]);
      if !ValidEventLength(length) then Err
      else if FromU16(data[6..8]) != 0 then Err
      else
        Ok(Prefix(
             length,
             FromU16(data[4..6]),
             FromU64(data[8..16]),
             FromU64(data[16..24]),
             FromU64(data[24..32])))
  }

  /** One event taken off the front of the unread input, with what remains unread. */
  datatype Framed = Framed(event: RawEvent, rest: seq<u8>)

  function ReadFrame(data: seq<u8>): (r: Result<Framed>)
    ensures r.Ok? ==> |r.value.rest| < |data| && Encodable(r.value.event)
  {
    if |data| < PREFIX_BYTES then Err
    else
      var prefix :- ReadPrefix(data[..PREFIX_BYTES]);
      if |data| < prefix.length then Err
      else
        var body := data[PREFIX_BYTES..prefix.length];
        Ok(Framed(RawEvent(prefix.kind, prefix.ordinal, prefix.generation, prefix.timestamp, body),
                  data[prefix.length..]))
  }

  ghost predicate AllEncodable(es: seq<RawEvent>) {
    forall i :: 0 <= i < |es| ==> Encodable(es[i])
  }

  ghost function EncodeAll(es: seq<RawEvent>): seq<u8>
    requires AllEncodable(es)
  {
    if es == [] then [] else EncodeAll(es[..|es| - 1]) + EventBytes(es[|es| - 1])
  }

  /** Reads events until the input is used up: the framing alone, without any lifecycle rule. */
  function ReadAllFrames(data: seq<u8>): Result<seq<RawEvent>>
    decreases |data|
  {
    if data == [] then Ok([])
    else
      var framed :- ReadFrame(data);
      var tail :- ReadAllFrames(framed.rest);
      Ok([framed.event] + tail)
  }

  lemma PrefixRoundTrip(e: RawEvent)
    requires Encodable(e)
    ensures ReadPrefix(EventPrefix(e))
         == Ok(Prefix(PREFIX_BYTES + |e.body|, e.kind, e.ordinal, e.generation, e.timestamp))
  {
    hide U16, U32, U64, FromU16, FromU32, FromU64;
    U16RoundTrip(e.kind);
    U16RoundTrip(0);
    var p := EventPrefix(e);
    assert p[0..4] == U32(PREFIX_BYTES + |e.body|);
    assert p[4..6] == U16(e.kind);
    assert p[6..8] == U16(0);
    assert p[8..16] == U64(e.ordinal);
    assert p[16..24] == U64(e.generation);
    assert p[24..32] == U64(e.timestamp);
    U32RoundTrip(PREFIX_BYTES + |e.body|);
    U64RoundTrip(e.ordinal);
    U64RoundTrip(e.generation);
    U64RoundTrip(e.timestamp);
  }

  lemma FrameRoundTrip(e: RawEvent, rest: seq<u8>)
    requires Encodable(e)
    ensures ReadFrame(EventBytes(e) + rest) == Ok(Framed(e, rest))
  {
    hide U16, U32, U64, FromU16, FromU32, FromU64;
    var data := EventBytes(e) + rest;
    var length := PREFIX_BYTES + |e.body|;
    assert data[..PREFIX_BYTES] == EventPrefix(e);
    assert data[PREFIX_BYTES..length] == e.body;
    assert data[length..] == rest;
    PrefixRoundTrip(e);
  }

  lemma {:induction false} EncodeAllCons(e: RawEvent, es: seq<RawEvent>)
    requires Encodable(e) && AllEncodable(es)
    ensures AllEncodable([e] + es)
    ensures EncodeAll([e] + es) == EventBytes(e) + EncodeAll(es)
  {
    var all := [e] + es;
    if es == [] {
      assert all == [e];
      assert EncodeAll(all) == EncodeAll([]) + EventBytes(e);
    } else {
      var front, last := es[..|es| - 1], es[|es| - 1];
      EncodeAllCons(e, front);
      assert all[..|all| - 1] == [e] + front;
      Associative(EventBytes(e), EncodeAll(front), EventBytes(last));
    }
  }

  lemma Associative(a: seq<u8>, b: seq<u8>, c: seq<u8>)
    ensures (a + b) + c == a + (b + c)
  {
  }

  /** Framing any sequence of events within the length limits and reading it back gives the same events. */
  lemma {:induction false} FramingRoundTrip(es: seq<RawEvent>)
    requires AllEncodable(es)
    ensures ReadAllFrames(EncodeAll(es)) == Ok(es)
  {
    if es != [] {
      var tail := es[1..];
      assert es == [es[0]] + tail;
      EncodeAllCons(es[0], tail);
      FrameRoundTrip(es[0], EncodeAll(tail));
      FramingRoundTrip(tail);
    }
  }

  // ---------- Event bodies, as the writer lays them out ----------

  function CreatedBody(deadlineMs: u32, recordLimit: u32): (s: seq<u8>)
    ensures |s| == 16
  {
    U32(deadlineMs) + U32(recordLimit) + U16(1) + U16(1) + U32(0)
  }

  function ArmedBody(committed: Geometry, requested: Geometry): (s: seq<u8>)
    ensures |s| == 24
  {
    U16(committed.width) + U16(committed.height) + U16(requested.width) + U16(requested.height)
    + U16(1) + U16(1) + U32(3) + U64(0)
  }

  function TriggeredBody(requested: Geometry): (s: seq<u8>)
    ensures |s| == 16
  {
    U16(requested.width) + U16(requested.height) + U32(7) + U64(0)
  }

  function RectBytes(rect: MvsRect): (s: seq<u8>)
    ensures |s| == 8
  {
    U16(rect.x) + U16(rect.y) + U16(rect.width) + U16(rect.height)
  }

  function RecordBody(first: u64, last: u64, record: MvsRecord): (s: seq<u8>)
    requires |record.payload| <= MAX_U32
    ensures |s| == 28 + |record.payload|
  {
    U64(first) + U64(last) + RectBytes(record.rect) + U32(|record.payload|) + record.payload
  }

  function GapBody(gap: Gap): (s: seq<u8>)
    ensures |s| == 40
  {
    U16(gap.reason) + U16(gap.stage) + U32(1) + U64(gap.first) + U64(gap.last)
    + U32(gap.declaredTotal) + U32(gap.accumulated) + RectBytes(gap.rect)
  }

  function TerminalBody(code: u16, gapCount: u32, sourceFrames: u64, recordCount: u64,
                        type0: u64, type1: u64, type2: u64): (s: seq<u8>)
    ensures |s| == 48
  {
    U16(code) + U16(0) + U32(gapCount) + U64(sourceFrames) + U64(recordCount)
    + U64(type0) + U64(type1) + U64(type2)
  }
}
