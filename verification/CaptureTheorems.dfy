/**
 What the FRDMVS02 readers accept: exactly the valid logs, no proper prefix or extension, and strict versus
 structural.
 */
module CaptureTheorems {
  import opened Bytes
  import opened Results
  import opened CaptureFormat
  import opened CaptureReader
  import opened CaptureLog

  // ---------- Prefix-freeness ----------

  lemma FrameExtends(a: seq<u8>, b: seq<u8>)
    requires ReadFrame(a).Ok?
    ensures ReadFrame(a + b) == Ok(Framed(ReadFrame(a).value.event, ReadFrame(a).value.rest + b))
  {
    hide ReadPrefix;
    assert (a + b)[..PREFIX_BYTES] == a[..PREFIX_BYTES];
    var length := ReadPrefix(a[..PREFIX_BYTES]).value.length;
    assert (a + b)[PREFIX_BYTES..length] == a[PREFIX_BYTES..length];
    assert (a + b)[length..] == a[length..] + b;
  }

  lemma {:induction false} EventsPrefixFree(a: seq<u8>, b: seq<u8>, st: ReaderState)
    requires ReadEvents(a, st).Ok? && ReadEvents(a + b, st).Ok?
    ensures b == []
    decreases |a|
  {
    hide Step;
    FrameExtends(a, b);
    var framed := ReadFrame(a).value;
    var step := Step(st, framed.event);
    if step.More? {
      EventsPrefixFree(framed.rest, b, step.state);
    } else {
      assert framed.rest + b == [];
    }
  }

  /** An accepted file stops being accepted when anything is cut off its end or appended to it. */
  lemma PrefixFree(a: seq<u8>, b: seq<u8>)
    ensures ReadStructural(a).Ok? && ReadStructural(a + b).Ok? ==> b == []
  {
    hide ReadEvents, ValidHeader, Finish;
    if ReadStructural(a).Ok? && ReadStructural(a + b).Ok? {
      assert (a + b)[..HEADER_BYTES] == a[..HEADER_BYTES];
      assert (a + b)[HEADER_BYTES..] == a[HEADER_BYTES..] + b;
      EventsPrefixFree(a[HEADER_BYTES..], b, InitialState);
    }
  }

  // ---------- Accepted files are exactly the valid logs ----------

  lemma HeaderIsUnique(h: seq<u8>)
    requires |h| == HEADER_BYTES && ValidHeader(h)
    ensures h == CaptureHeader()
  {
    hide U16, U32, FromU16, FromU32;
    U16Canonical(h[8..10]);
    U16Canonical(h[14..16]);
    U32Canonical(h[16..20]);
    U32Canonical(h[20..24]);
    U32Canonical(h[24..28]);
    U32Canonical(h[28..32]);
    assert h[10..14] == [2, 0, 1, 0];
    assert h == h[..8] + h[8..10] + h[10..14] + h[14..16] + h[16..20] + h[20..24] + h[24..28] + h[28..32];
  }

  lemma PrefixIsUnique(p: seq<u8>, body: seq<u8>)
    requires ReadPrefix(p).Ok? && ReadPrefix(p).value.length == PREFIX_BYTES + |body|
    ensures var v := ReadPrefix(p).value;
            EventPrefix(RawEvent(v.kind, v.ordinal, v.generation, v.timestamp, body)) == p
  {
    hide U16, U32, U64, FromU16, FromU32, FromU64;
    U32Canonical(p[0..4]);
    U16Canonical(p[4..6]);
    U16Canonical(p[6..8]);
    U64Canonical(p[8..16]);
    U64Canonical(p[16..24]);
    U64Canonical(p[24..32]);
    assert p == p[0..4] + p[4..6] + p[6..8] + p[8..16] + p[16..24] + p[24..32];
  }

  lemma FrameIsUnique(data: seq<u8>)
    requires ReadFrame(data).Ok?
    ensures data == EventBytes(ReadFrame(data).value.event) + ReadFrame(data).value.rest
  {
    hide ReadPrefix, EventPrefix;
    var length := ReadPrefix(data[..PREFIX_BYTES]).value.length;
    PrefixIsUnique(data[..PREFIX_BYTES], data[PREFIX_BYTES..length]);
    assert data == (data[..PREFIX_BYTES] + data[PREFIX_BYTES..length]) + data[length..];
  }

  /** The log behind an accepted tail: it starts where `log` stops. */
  lemma {:induction false} TailLog(data: seq<u8>, log: seq<RawEvent>) returns (full: seq<RawEvent>)
    requires AllEncodable(log) && Run(log).More? && ReadEvents(data, Run(log).state).Ok?
    ensures AllEncodable(full) && Run(full).Done? && ValidTerminal(Run(full).terminal, Run(full).state)
    ensures EncodeAll(full) == EncodeAll(log) + data
    decreases |data|
  {
    hide Step, EventBytes, ValidTerminal, EncodeAll, Run, ReadFrame, CaptureHeader;
    var framed := ReadFrame(data).value;
    var event, longer := framed.event, log + [framed.event];
    FrameIsUnique(data);
    RunSnoc(log, event);
    EncodeAllSnoc(log, event);
    Associative(EncodeAll(log), EventBytes(event), framed.rest);
    if Step(Run(log).state, event).More? {
      full := TailLog(framed.rest, longer);
    } else {
      full := longer;
      assert data == EventBytes(event);
    }
  }

  ghost predicate IsValidLog(log: seq<RawEvent>) {
    AllEncodable(log) && Run(log).Done? && ValidTerminal(Run(log).terminal, Run(log).state)
  }

  /** The structural reader accepts a byte string exactly when it is the file of a valid event log. */
  lemma AcceptedExactlyValidLogs(data: seq<u8>)
    ensures ReadStructural(data).Ok? <==> exists log :: IsValidLog(log) && data == FileBytes(log)
  {
    hide ReadEvents, ValidTerminal, ValidHeader, CaptureHeader;
    if ReadStructural(data).Ok? {
      HeaderIsUnique(data[..HEADER_BYTES]);
      var log := TailLog(data[HEADER_BYTES..], []);
      assert [] + data[HEADER_BYTES..] == data[HEADER_BYTES..];
      assert data == data[..HEADER_BYTES] + data[HEADER_BYTES..];
      assert IsValidLog(log) && data == FileBytes(log);
    }
    forall log | IsValidLog(log) && data == FileBytes(log)
      ensures ReadStructural(data).Ok?
    {
      LogIsRead(log);
    }
  }

  /** The log of a file is unique: two event sequences with the same bytes are the same. */
  lemma LogIsUnique(a: seq<RawEvent>, b: seq<RawEvent>)
    requires AllEncodable(a) && AllEncodable(b) && FileBytes(a) == FileBytes(b)
    ensures a == b
  {
    hide CaptureHeader;
    assert FileBytes(a)[HEADER_BYTES..] == EncodeAll(a);
    assert FileBytes(b)[HEADER_BYTES..] == EncodeAll(b);
    FramingRoundTrip(a);
    FramingRoundTrip(b);
  }

  /** No reader accepts a spoiled file. */
  lemma SpoiledFileIsRefused(sink: seq<u8>, log: seq<RawEvent>)
    requires Spoiled(sink, log)
    ensures ReadStructural(sink).Err? && ReadStrictCold(sink).Err?
  {
    hide ReadStructural, ReadStrictCold, Run, FileBytes, ValidTerminal;
    AcceptedExactlyValidLogs(sink);
    if ReadStructural(sink).Ok? {
      var other :| IsValidLog(other) && sink == FileBytes(other);
      LogIsUnique(log, other);
    }
    StrictIsCleanWithoutSurface(sink);
  }

  // ---------- Strict versus structural ----------

  function Rank(phase: Phase): nat {
    match phase
    case Start => 0
    case Created => 1
    case Armed => 2
    case Triggered => 3
    case Recording => 4
  }

  /** What the lifecycle rules make of the event kinds and generations read so far. */
  ghost predicate Shaped(st: ReaderState) {
    && |st.kinds| == |st.generations|
    && (st.gapReason.Some? <==> st.gaps != [])
    && (st.phase != Recording ==> st.surfaces == [] && st.gaps == [] && st.kinds == LIFECYCLE[..Rank(st.phase)])
    && (st.phase == Recording ==> |st.kinds| >= 4 && st.kinds[..4] == LIFECYCLE)
    && (st.phase == Recording && st.surfaces == [] && st.gaps == [] ==>
          forall i :: 4 <= i < |st.kinds| ==> st.kinds[i] == RECORD)
    && (st.surfaces == [] ==> st.generation == 0 && forall i :: 0 <= i < |st.generations| ==> st.generations[i] == 0)
    && (st.phase != Start ==> st.deadlineMs.Some? && st.recordLimit.Some?)
    && (Rank(st.phase) >= 2 ==> st.committed.Some? && st.requested.Some?)
  }

  lemma StepKeepsShape(st: ReaderState, e: RawEvent)
    requires Shaped(st) && Step(st, e).More?
    ensures Shaped(Step(st, e).state)
  {
    hide ParseRecord, ParseGap, ParseGeometry, FromU16, FromU32, FromU64, U64;
    var next := Step(st, e).state;
    assert next.kinds == st.kinds + [e.kind] && next.generations == st.generations + [e.generation];
    if st.phase == Recording {
      assert next.kinds[..4] == st.kinds[..4];
    } else {
      assert next.kinds == LIFECYCLE[..Rank(next.phase)];
    }
  }

  ghost predicate StrictShape(s: StructuralCapture) {
    && |s.kinds| >= 5
    && s.kinds[..4] == LIFECYCLE
    && (forall i :: 4 <= i < |s.kinds| - 1 ==> s.kinds[i] == RECORD)
    && s.kinds[|s.kinds| - 1] == CLEAN
    && (forall i :: 0 <= i < |s.generations| ==> s.generations[i] == 0)
    && s.committed.Some? && s.requested.Some? && s.deadlineMs.Some? && s.recordLimit.Some?
    && s.gaps == []
  }

  lemma DoneShape(st: ReaderState, e: RawEvent)
    requires Shaped(st) && Step(st, e).Done? && Step(st, e).terminal.kind == Clean && Step(st, e).state.surfaces == []
    ensures var final := Step(st, e).state;
            && st.phase == Recording && st.gaps == [] && e.kind == CLEAN
            && final.kinds == st.kinds + [CLEAN] && final.generations == st.generations + [0]
            && final.surfaces == st.surfaces && final.gaps == []
            && final.committed == st.committed && final.requested == st.requested
            && final.deadlineMs == st.deadlineMs && final.recordLimit == st.recordLimit
  {
    hide FromU16, FromU32, FromU64, TerminalReasonOf, GapTerminalCode;
  }

  lemma {:induction false} EventsShape(data: seq<u8>, st: ReaderState)
    requires Shaped(st) && ReadEvents(data, st).Ok?
    requires var s := ReadEvents(data, st).value; s.terminal.kind == Clean && s.surfaces == []
    ensures StrictShape(ReadEvents(data, st).value)
    decreases |data|
  {
    hide Step, ReadFrame, ValidTerminal;
    var framed := ReadFrame(data).value;
    var step := Step(st, framed.event);
    if step.More? {
      StepKeepsShape(st, framed.event);
      EventsShape(framed.rest, step.state);
    } else {
      DoneShape(st, framed.event);
      assert step.state.kinds[..4] == st.kinds[..4];
    }
  }

  /**
   The strict reader is the structural reader restricted to Clean files without a Surface event, with the same
   answer in every part.
   */
  lemma StrictIsCleanWithoutSurface(data: seq<u8>)
    ensures ReadStrictCold(data).Ok? <==>
            && ReadStructural(data).Ok?
            && ReadStructural(data).value.terminal.kind == Clean
            && ReadStructural(data).value.surfaces == []
    ensures ReadStrictCold(data).Ok? ==>
            var strict, s := ReadStrictCold(data).value, ReadStructural(data).value;
            && s.committed == Some(strict.committed) && s.requested == Some(strict.requested)
            && s.deadlineMs == Some(strict.deadlineMs) && s.recordLimit == Some(strict.recordLimit)
            && strict.records == s.records && strict.terminal == s.terminal
  {
    hide ReadEvents, ValidHeader;
    if ReadStructural(data).Ok? {
      var s := ReadStructural(data).value;
      if s.terminal.kind == Clean && s.surfaces == [] {
        EventsShape(data[HEADER_BYTES..], InitialState);
      }
    }
  }
}
