/**
 The transactional FRDMVS02 writer (src/vnc/mvs_capture_v2_writer.rs).

 The clock and the sink are outside the model: what they answer is given, reading by reading and operation by
 operation. A failed write appends nothing.
 */
module CaptureWriter {
  import opened Bytes
  import opened Results
  import opened MvsStream
  import opened CaptureFormat
  import Reader = CaptureReader
  import opened CaptureLog
  import opened FrameLedger
  import opened CaptureAgreement

  const INCOMPLETE_RECORD_MICROS := 2_000_000

  datatype CaptureState = Created | Armed | Triggering | Recording | Finalizing | Clean | Aborted

  datatype ArmedConfig = ArmedConfig(committed: Geometry, requested: Geometry)

  datatype PendingProvenance =
    PendingProvenance(first: u64, last: u64, total: u32, accepted: u32, rect: MvsRect, startedAt: u64)

  /** Why an operation returned an error. */
  datatype Failure =
    | WrongState
    | TriggerOrder
    | ClockFailed
    | SinkFailed
    | OrdinalOverflow
    | InvalidRecord
    | LimitExceeded
    | AssemblerFailed

  /** The records so far, the surface they are recorded under, and whether one of them was refused. */
  datatype Before = Before(records: seq<CaptureRecord>, under: Option<ArmedConfig>, spoiled: bool)

  datatype Outcome = Continue | Finalized(state: CaptureState) | Failed(failure: Failure)

  /** The diagnostic a gap event carries; the stage is a function of the reason. */
  function MakeGap(reason: u16, first: u64, last: u64, total: u32, accumulated: u32, rect: MvsRect): Gap {
    var stage := GapStage(reason);
    Gap(reason, if stage.Ok? then stage.value else 0, first, last, total, accumulated, rect)
  }

  /** The last of the first n readings of a clock, unless one of them failed or ran back. */
  ghost function LastReading(clock: nat -> Option<u64>, n: nat): Option<u64> {
    if n == 0 then Some(0)
    else
      var before, now := LastReading(clock, n - 1), clock(n - 1);
      if before.Some? && now.Some? && now.value >= before.value then now else None
  }

  /** A sink that takes each of its first n operations. */
  ghost predicate Takes(disk: nat -> bool, n: nat) {
    forall i :: 0 <= i < n ==> disk(i)
  }

  /** Whether this health and this time are those after so many answers of a clock and of a sink. */
  ghost predicate Follows(clock: nat -> Option<u64>, disk: nat -> bool, ticks: nat, writes: nat, healthy: bool,
                          time: u64)
  {
    && (healthy <==> LastReading(clock, ticks).Some? && Takes(disk, writes))
    && (LastReading(clock, ticks).Some? ==> LastReading(clock, ticks) == Some(time))
  }

  class CaptureCounters {
    var events: nat
    var payload: nat

    constructor ()
      ensures events == 0 && payload == 0
    {
      events, payload := 0, 0;
    }

    method ReserveEvent() returns (ok: bool)
      modifies this`events
      ensures ok <==> old(events) < MAX_EVENTS
      ensures events == if ok then old(events) + 1 else old(events)
    {
      if events + 1 > MAX_EVENTS {
        return false;
      }
      events := events + 1;
      return true;
    }

    method ReservePayload(bytes: nat) returns (ok: bool)
      modifies this`payload
      ensures ok <==> old(payload) + bytes <= MAX_CUMULATIVE_PAYLOAD
      ensures payload == if ok then old(payload) + bytes else old(payload)
    {
      if payload + bytes > MAX_CUMULATIVE_PAYLOAD {
        return false;
      }
      payload := payload + bytes;
      return true;
    }
  }

  class MvsCaptureV2Writer {
    var sinkOpen: bool
    var sink: seq<u8>
    var state: CaptureState
    const config: CreatedConfig
    const counters: CaptureCounters
    // What the clock answers, reading by reading; no answer is a failure. `ticks` is how often it was read.
    const clock: nat -> Option<u64>
    var ticks: nat
    // Whether the sink takes what it is asked, operation by operation. `writes` is how often it was asked.
    const disk: nat -> bool
    var writes: nat
    var eventOrdinal: u64
    var eventCount: nat
    var cumulativePayload: nat
    var armed: Option<ArmedConfig>
    var triggerMask: u32
    var assembler: MvsRecordAssembler
    var pending: Option<PendingProvenance>
    var sourceFrameCount: u64
    var recordCount: nat
    var type0: nat
    var type1: nat
    var type2: nat
    var gapCount: u32
    var lastGap: Option<Gap>
    var selectedTerminal: Option<u16>
    var selectedAbort: Option<u16>
    var lastTimestamp: u64

    // The events on the sink, and the MVS frames that took a source ordinal.
    ghost var log: seq<RawEvent>
    ghost var frames: seq<MvsFrame>
    // What the reader makes of the log so far, and the terminal once one is written. A record that the
    // reader refuses is taken into this view all the same.
    ghost var seen: Reader.ReaderState
    ghost var ending: Option<Terminal>
    // The surface in the Armed event, once one is on the sink.
    ghost var offered: Option<ArmedConfig>
    // A record was written that the reader refuses.
    ghost var spoiled: bool
    // No reading of the clock and no operation of the sink has failed.
    ghost var healthy: bool
    // A terminal was written that leaves source frames unaccounted for.
    ghost var abandoned: bool

    ghost function Repr(): set<object>
      reads this
    {
      {this, counters, assembler}
    }

    /** The first source ordinal no record covers. */
    ghost function Recorded(): u64
      reads this`seen
      requires Reader.TallyRecords(seen.records).Ok?
    {
      Reader.TallyRecords(seen.records).value.expectedSource
    }

    /** The surface the reader has is the one in the Armed event. */
    ghost predicate SurfaceSeen()
      reads this`offered, this`seen
    {
      && seen.committed == (if offered.Some? then Some(offered.value.committed) else None)
      && seen.requested == (if offered.Some? then Some(offered.value.requested) else None)
    }

    /** The sink, every counter and the reader's view of the sink agree. */
    ghost predicate Tracked()
      reads this`sinkOpen, this`sink, this`log, this`seen, this`ending, this`spoiled, this`eventCount, this`eventOrdinal
      reads this`cumulativePayload, this`recordCount, this`lastGap, this`gapCount, this`frames, this`sourceFrameCount
      reads this`lastTimestamp, this`offered, counters
    {
      && sinkOpen
      && Filed(sink, log, seen, ending, spoiled)
      && ending == None
      && ValidConfig(config)
      && Counted(seen, eventCount, cumulativePayload, recordCount, lastGap, config)
      && eventOrdinal == eventCount == counters.events
      && cumulativePayload == counters.payload
      && gapCount == |GapList(lastGap)|
      && |frames| == sourceFrameCount
      && |seen.records| == recordCount
      && (!spoiled ==> recordCount <= config.recordLimit)
      && GapOnTop(log, eventOrdinal, lastGap)
      && (seen.lastTimestamp.Some? ==> seen.lastTimestamp.value <= lastTimestamp)
      && SurfaceSeen()
      && (seen.phase != Reader.Recording ==> frames == [] && recordCount == 0 && !spoiled)
    }

    /** And the records on the sink are made of the frames in the ledger, and counted by their tags. */
    ghost predicate Sound()
      reads this`sinkOpen, this`sink, this`log, this`seen, this`ending, this`spoiled, this`eventCount, this`eventOrdinal
      reads this`cumulativePayload, this`recordCount, this`lastGap, this`gapCount, this`frames, this`sourceFrameCount
      reads this`type0, this`type1, this`type2, this`lastTimestamp, this`offered, counters
    {
      Tracked() && Ledgered(seen.records, frames, sourceFrameCount, type0, type1, type2)
    }

    ghost predicate PendingLinked()
      reads this`sinkOpen, this`sink, this`log, this`seen, this`ending, this`spoiled, this`eventCount, this`eventOrdinal
      reads this`cumulativePayload, this`recordCount, this`lastGap, this`gapCount, this`frames, this`sourceFrameCount
      reads this`type0, this`type1, this`type2, this`lastTimestamp, this`offered, counters
      reads this`pending, this`assembler
      reads assembler
      requires Sound()
    {
      if pending.None? then assembler.pending == None && Recorded() == sourceFrameCount
      else
        var p := pending.value;
        && p.first == Recorded()
        && p.last + 1 == sourceFrameCount
        && p.accepted < p.total <= MAX_PAYLOAD
        && cumulativePayload + p.total <= MAX_CUMULATIVE_PAYLOAD
        && p.startedAt <= lastTimestamp
        && IsFragmentRun(frames, p.first, p.last, p.rect, p.total)
        && var joined := Joined(frames[p.first..]);
        && |joined| == p.accepted
        && assembler.pending == Some(PendingRecord(p.rect, p.total, joined))
    }

    ghost predicate ArmedSeen()
      reads this`armed, this`seen
    {
      && armed.Some?
      && seen.committed == Some(armed.value.committed)
      && seen.requested == Some(armed.value.requested)
    }

    /** How the in-memory state relates to the persisted lifecycle between operations. */
    ghost predicate StateSeen()
      reads this`state, this`seen, this`armed, this`triggerMask, this`spoiled, this`recordCount
    {
      match state
      case Created => seen.phase == Reader.Created && seen.committed == None && armed == None && triggerMask == 0
      case Armed => seen.phase == Reader.Armed && ArmedSeen() && triggerMask == 0
      case Triggering => seen.phase == Reader.Armed && ArmedSeen() && triggerMask in {0, 1, 3, 7}
      case Recording => seen.phase == Reader.Recording && ArmedSeen() && (spoiled || recordCount < config.recordLimit)
      case _ => false
    }

    ghost predicate Live()
      reads this, counters, assembler
    {
      && assembler.Valid()
      && Sound()
      && lastGap == None
      && PendingLinked()
      && StateSeen()
      && healthy
    }

    /**
     The sink holds a log that ends at the selected terminal, directly after the gap if there is one. The
     reader refuses the log if it is spoiled; else its verdict is whether a frame was abandoned.
     */
    ghost predicate Closed(clean: bool)
      reads this`sinkOpen, this`sink, this`log, this`seen, this`ending, this`spoiled, this`eventOrdinal, this`abandoned
      reads this`selectedTerminal, this`recordCount, this`lastGap, this`gapCount, this`frames, this`sourceFrameCount
      reads this`type0, this`type1, this`type2, this`lastTimestamp, this`offered
    {
      && !sinkOpen
      && Filed(sink, log, seen, ending, spoiled)
      && ending.Some?
      && selectedTerminal.Some?
      && var terminal, st := ending.value, seen;
      && Ended(st, terminal, clean, selectedTerminal.value, frames, sourceFrameCount, recordCount,
               type0, type1, type2, lastGap, config)
      && terminal.timestamp == lastTimestamp
      && gapCount == |GapList(lastGap)|
      && SurfaceSeen()
      && eventOrdinal > 0 && recordCount <= MAX_U64 && type0 + type1 + type2 <= recordCount
      && EndsWith(log, TerminalEvent(clean, eventOrdinal - 1, terminal.timestamp, selectedTerminal.value, gapCount,
                                     sourceFrameCount, recordCount, type0, type1, type2), lastGap)
      && (!spoiled ==> (Reader.ValidTerminal(terminal, st) <==> !abandoned))
    }

    ghost predicate Valid()
      reads this, counters, assembler
    {
      match state
      case Finalizing => !sinkOpen
      case Clean => Closed(true) && lastGap == None && (!spoiled ==> pending == None && !abandoned) && healthy
      case Aborted => Closed(false) && (healthy || selectedAbort in {Some(259), Some(260)})
      case _ => Live() && !abandoned
    }

    /** Neither clock nor sink has failed so far, which is what `healthy` says, and the time is the last reading. */
    ghost predicate Charted()
      reads this`ticks, this`writes, this`healthy, this`lastTimestamp
    {
      Follows(clock, disk, ticks, writes, healthy, lastTimestamp)
    }

    /** What was asked stays asked, a failure stays one, and time does not run back. */
    twostate predicate Advances()
      reads this`ticks, this`writes, this`healthy, this`lastTimestamp
    {
      && old(ticks) <= ticks && old(writes) <= writes && (healthy ==> old(healthy))
      && old(lastTimestamp) <= lastTimestamp
      && (Follows(clock, disk, old(ticks), old(writes), old(healthy), old(lastTimestamp)) ==>
            Follows(clock, disk, ticks, writes, healthy, lastTimestamp))
    }

    /** What every operation but arming keeps: the surface on the sink stays, too. */
    twostate predicate Continues()
      reads this`ticks, this`writes, this`healthy, this`lastTimestamp, this`offered
    {
      Advances() && offered == old(offered)
    }

    // ---------- Creation ----------

    /** A writer whose sink has taken the header and the Created event. */
    constructor Opened(config: CreatedConfig, clock: nat -> Option<u64>, disk: nat -> bool)
      requires ValidConfig(config) && Takes(disk, 2)
      ensures Valid() && state == Created && this.config == config && this.clock == clock && this.disk == disk
      ensures ticks == 0 && writes == 2 && Charted()
      ensures fresh(Repr())
      ensures log == [EventAt(CREATED, 0, 0, CreatedBody(config.deadlineMs, config.recordLimit))]
      ensures frames == [] && !spoiled && lastTimestamp == 0 && selectedTerminal == None && selectedAbort == None
      ensures offered == None
    {
      hide CreatedBody, EventBytes, CaptureHeader, Laid, Run, Counted, Ledgered, Reader.TallyRecords;
      CountedCreated(config);
      LedgeredNothing();
      var created := EventAt(CREATED, 0, 0, CreatedBody(config.deadlineMs, config.recordLimit));
      this.config, this.clock, ticks := config, clock, 0;
      this.disk, writes, healthy := disk, 2, true;
      counters := new CaptureCounters();
      assembler := new MvsRecordAssembler();
      sinkOpen := true;
      sink := CaptureHeader() + EventBytes(created);
      state := Created;
      eventOrdinal, eventCount, cumulativePayload := 1, 1, 0;
      armed, triggerMask, pending := None, 0, None;
      sourceFrameCount, recordCount, type0, type1, type2 := 0, 0, 0, 0, 0;
      gapCount, lastGap := 0, None;
      selectedTerminal, selectedAbort, offered := None, None, None;
      lastTimestamp := 0;
      log, frames, abandoned, spoiled := [created], [], false, false;
      ending := None;
      seen := Run([created]).state;
      new;
      var _ := counters.ReserveEvent();
    }

    static method New(config: CreatedConfig, clock: nat -> Option<u64>, disk: nat -> bool)
      returns (writer: MvsCaptureV2Writer?)
      ensures writer == null <==> !ValidConfig(config) || !Takes(disk, 2)
      ensures writer != null ==>
                && fresh(writer.Repr())
                && writer.Valid() && writer.state == Created && writer.config == config && writer.clock == clock
                && writer.disk == disk && writer.Charted() && writer.writes == 2
                && writer.frames == [] && !writer.spoiled && writer.offered == None && writer.ticks == 0
    {
      if !ValidConfig(config) {
        return null;
      }
      var written := disk(0);
      if !written {
        return null;
      }
      var flushed := disk(1);
      if !flushed {
        return null;
      }
      writer := new MvsCaptureV2Writer.Opened(config, clock, disk);
    }

    // ---------- Environment ----------

    method ElapsedMicros() returns (sample: Option<u64>)
      modifies this`ticks
      ensures sample == clock(old(ticks)) && ticks == old(ticks) + 1
    {
      sample := clock(ticks);
      ticks := ticks + 1;
    }

    method SinkAccepts() returns (ok: bool)
      modifies this`writes, this`healthy
      ensures ok == disk(old(writes)) && writes == old(writes) + 1
      ensures healthy == (old(healthy) && ok) && Advances()
      ensures old(Quiet()) ==> Quiet()
    {
      hide Filed, GapOnTop, Counted, Ledgered, Reader.TallyRecords;
      ok := disk(writes);
      writes := writes + 1;
      healthy := healthy && ok;
    }

    // ---------- Private steps ----------

    function DeadlineMicros(): nat {
      config.deadlineMs * 1_000
    }

    /** What the clock answers at this reading; one that runs back is a failure. */
    function Reading(tick: nat, last: u64): Option<u64> {
      if clock(tick).Some? && clock(tick).value >= last then clock(tick) else None
    }

    /** Reads the clock; a reading that runs back is a failure and does not become the time. */
    method ReadClock() returns (now: Option<u64>)
      modifies this`lastTimestamp, this`ticks, this`healthy
      ensures Advances() && healthy == (old(healthy) && now.Some?)
      ensures now.Some? ==> now.value == lastTimestamp
      ensures now.None? ==> lastTimestamp == old(lastTimestamp)
      ensures ticks == old(ticks) + 1 && now == Reading(old(ticks), old(lastTimestamp))
    {
      now := ElapsedMicros();
      if now.Some? && now.value < lastTimestamp {
        now := None;
      }
      if now.Some? {
        lastTimestamp := now.value;
      }
      healthy := healthy && now.Some?;
    }

    method Now() returns (now: Option<u64>)
      modifies this`lastTimestamp, this`ticks, this`healthy
      ensures Advances() && healthy == (old(healthy) && now.Some?)
      ensures now.Some? ==> now.value == lastTimestamp
      ensures now.None? ==> lastTimestamp == old(lastTimestamp)
      ensures ticks == old(ticks) + 1 && now == Reading(old(ticks), old(lastTimestamp))
      ensures (old(Sound()) ==> Sound()) && (old(Quiet()) ==> Quiet())
      ensures now.Some? ==> (old(Live()) ==> Live()) && (old(InRecording()) ==> InRecording())
      ensures now.Some? ==> (old(AfterFrame()) ==> AfterFrame())
    {
      hide Filed, GapOnTop, Counted, Ledgered, Reader.TallyRecords, Joined, IsFragmentRun, Follows, Reading;
      now := ReadClock();
    }

    method FailClosed(failure: Failure) returns (r: Outcome)
      modifies this`state, this`sinkOpen, this`writes, this`healthy
      ensures Valid() && Continues()
      ensures r == Failed(failure) && state == Finalizing && !sinkOpen
    {
      state := Finalizing;
      if sinkOpen {
        sinkOpen := false;
        var _ := ConsumeSink(true);
      }
      return Failed(failure);
    }

    method SelectTerminal(clean: bool, reason: u16)
      modifies this`selectedTerminal, this`selectedAbort, this`state
      ensures selectedTerminal == Some(reason) && state == Finalizing
      ensures selectedAbort == if clean then old(selectedAbort) else Some(reason)
    {
      selectedTerminal := Some(reason);
      if !clean {
        selectedAbort := Some(reason);
      }
      state := Finalizing;
    }

    /** The event is on the sink: it joins the log and is counted. */
    method CountEvent(event: RawEvent, payload: nat)
      requires Encodable(event) && counters.events == eventCount < MAX_EVENTS && eventOrdinal < MAX_EVENTS
      requires counters.payload == cumulativePayload && cumulativePayload + payload <= MAX_CUMULATIVE_PAYLOAD
      modifies this`sink, this`log, this`eventCount, this`cumulativePayload, this`eventOrdinal, counters
      ensures sink == old(sink) + EventBytes(event) && log == old(log) + [event]
      ensures eventCount == counters.events == old(eventCount) + 1 && eventOrdinal == old(eventOrdinal) + 1
      ensures cumulativePayload == counters.payload == old(cumulativePayload) + payload
    {
      hide EventBytes;
      sink := sink + EventBytes(event);
      log := log + [event];
      var counted := counters.ReserveEvent();
      if payload != 0 {
        counted := counters.ReservePayload(payload);
      }
      eventCount := eventCount + 1;
      cumulativePayload := cumulativePayload + payload;
      eventOrdinal := eventOrdinal + 1;
    }

    /**
     Appends one nonterminal event, or leaves everything as it was. An event the reader would reject
     is appended all the same and spoils the log.
     */
    method WriteNonterminal(kind: u16, timestamp: u64, body: seq<u8>, payload: nat) returns (failure: Option<Failure>)
      requires Sound() && timestamp == lastTimestamp
      requires eventCount + 2 <= MAX_EVENTS ==> !Reader.Step(seen, EventAt(kind, eventOrdinal, timestamp, body)).Done?
      modifies this`sink, this`log, this`eventCount, this`cumulativePayload, this`eventOrdinal, counters
      modifies this`writes, this`healthy
      ensures Advances() && writes == old(writes) + (if failure == Some(LimitExceeded) then 0 else 1)
      ensures healthy == (old(healthy) && failure != Some(SinkFailed))
      ensures failure.Some? ==>
                && unchanged(this`sink, this`log, this`eventCount, this`cumulativePayload, this`eventOrdinal)
                && unchanged(counters)
      ensures failure.Some? && old(Quiet()) ==> Quiet()
      ensures failure == Some(LimitExceeded) <==>
              (|| old(eventCount) + 2 > MAX_EVENTS
               || old(cumulativePayload) + payload > MAX_CUMULATIVE_PAYLOAD
               || |body| > MAX_EVENT_BODY)
      ensures failure.Some? ==> failure.value in {LimitExceeded, SinkFailed}
      ensures failure.None? ==>
                var e := EventAt(kind, old(eventOrdinal), timestamp, body);
                var step := Reader.Step(seen, e);
                && Encodable(e) && sink == old(sink) + EventBytes(e) && log == old(log) + [e]
                && (spoiled || step.Rejected? ==> Spoiled(sink, log))
                && (step.More? ==> Filed(sink, log, step.state, None, spoiled))
                && eventCount == counters.events == eventOrdinal == old(eventCount) + 1
                && cumulativePayload == counters.payload == old(cumulativePayload) + payload
    {
      hide PendingLinked, Live, Follows, Reader.Step, EventBytes, Laid, Spoiled, Filed, GapOnTop, AllMadeOf;
      hide Reader.TallyRecords;
      if eventCount + 2 > MAX_EVENTS || cumulativePayload + payload > MAX_CUMULATIVE_PAYLOAD {
        return Some(LimitExceeded);
      }
      var event := EventAt(kind, eventOrdinal, timestamp, body);
      var encoded := EncodeEvent(event);
      if encoded.Err? {
        return Some(LimitExceeded);
      }
      var accepted := SinkAccepts();
      if !accepted {
        return Some(SinkFailed);
      }
      FileEvent(sink, log, seen, spoiled, event);
      CountEvent(event, payload);
      return None;
    }

    /** Syncs and closes the sink's file; any failure, earlier or now, is an error. */
    method ConsumeSink(failed: bool) returns (ok: bool)
      modifies this`writes, this`healthy
      ensures Advances() && writes == old(writes) + 3
      ensures var worked := disk(old(writes)) && disk(old(writes) + 1) && disk(old(writes) + 2);
              healthy == (old(healthy) && worked) && ok == (!failed && worked)
    {
      var flushed := SinkAccepts();
      var synced := SinkAccepts();
      var relinquished := SinkAccepts();
      ok := !failed && flushed && synced && relinquished;
    }

    /** An event was taken into the reader's view: what there is to show for Sound. */
    lemma IsSound()
      requires sinkOpen && ending == None && ValidConfig(config) && SurfaceSeen()
      requires Filed(sink, log, seen, ending, spoiled) && GapOnTop(log, eventOrdinal, lastGap)
      requires Counted(seen, eventCount, cumulativePayload, recordCount, lastGap, config)
      requires eventOrdinal == eventCount == counters.events && cumulativePayload == counters.payload
      requires gapCount == |GapList(lastGap)| && |frames| == sourceFrameCount && |seen.records| == recordCount
      requires !spoiled ==> recordCount <= config.recordLimit
      requires seen.lastTimestamp.Some? ==> seen.lastTimestamp.value <= lastTimestamp
      requires seen.phase != Reader.Recording ==> frames == [] && recordCount == 0 && !spoiled
      requires Ledgered(seen.records, frames, sourceFrameCount, type0, type1, type2)
      ensures Sound()
    {
      hide Filed, GapOnTop, Counted, Ledgered;
    }

    /** The records and the optional gap account for every source frame. */
    ghost predicate Accounted()
      reads this`sinkOpen, this`sink, this`log, this`seen, this`ending, this`spoiled, this`eventCount, this`eventOrdinal
      reads this`cumulativePayload, this`recordCount, this`lastGap, this`gapCount, this`frames, this`sourceFrameCount
      reads this`type0, this`type1, this`type2, this`lastTimestamp, this`offered, counters
      requires Sound()
    {
      Reader.SourceAfterGap(Recorded(), seen.gaps) == Ok(sourceFrameCount)
    }

    /** A terminal with this code may be written now. */
    ghost predicate MayEnd(clean: bool, code: u16, timestamp: u64)
      reads this`sinkOpen, this`sink, this`log, this`seen, this`ending, this`spoiled, this`eventCount, this`eventOrdinal
      reads this`cumulativePayload, this`recordCount, this`lastGap, this`gapCount, this`frames, this`sourceFrameCount
      reads this`type0, this`type1, this`type2, this`lastTimestamp, this`offered, counters
      requires Sound()
    {
      && CanEnd(seen, clean, code)
      && (code == 262 || code == 263 ==> lastGap.Some?)
      && (clean ==>
            && lastGap.None?
            && (spoiled || Recorded() == sourceFrameCount)
            && (code == 1 ==> timestamp >= DeadlineMicros())
            && (code == 2 ==> timestamp < DeadlineMicros() && recordCount == config.recordLimit))
    }

    lemma MayAbort(code: u16)
      requires Sound() && lastGap == None && AbortAllowed(seen.phase, code)
      ensures MayEnd(false, code, lastTimestamp)
      ensures Accounted() <==> Recorded() == sourceFrameCount
    {
      hide Filed, GapOnTop, EndsWith, Ledgered, CanEnd;
      CountedCanAbort(seen, eventCount, cumulativePayload, recordCount, config, code);
    }

    lemma MayEndClean(code: u16)
      requires Sound() && lastGap == None && seen.phase == Reader.Recording
      requires spoiled || Recorded() == sourceFrameCount
      requires code == 1 ==> lastTimestamp >= DeadlineMicros()
      requires code == 2 ==> lastTimestamp < DeadlineMicros() && recordCount == config.recordLimit
      requires code in {1, 2}
      ensures MayEnd(true, code, lastTimestamp)
      ensures Accounted() <==> Recorded() == sourceFrameCount
    {
      hide Filed, GapOnTop, EndsWith, Ledgered, CanEnd;
      CountedCanEndClean(seen, eventCount, cumulativePayload, recordCount, config, code);
    }

    /** What the terminal event does to the log and to the reader, before it is written. */
    lemma TerminalNext(clean: bool, timestamp: u64, event: RawEvent)
      requires Sound() && timestamp == lastTimestamp
      requires selectedTerminal.Some? && MayEnd(clean, selectedTerminal.value, timestamp)
      requires recordCount <= MAX_U64 && type0 + type1 + type2 <= recordCount
      requires event == TerminalEvent(clean, eventOrdinal, timestamp, selectedTerminal.value, gapCount,
                                      sourceFrameCount, recordCount, type0, type1, type2)
      ensures eventOrdinal == eventCount == counters.events < MAX_EVENTS
      ensures Encodable(event) && EndsWith(log + [event], event, lastGap)
      ensures var step := Reader.Step(seen, event);
              && step.Done?
              && step.terminal.timestamp == timestamp
              && step.state.records == seen.records
              && Filed(sink + EventBytes(event), log + [event], step.state, Some(step.terminal), spoiled)
              && Ended(step.state, step.terminal, clean, selectedTerminal.value, frames, sourceFrameCount, recordCount,
                       type0, type1, type2, lastGap, config)
              && SurfaceSeen() && gapCount == |GapList(lastGap)|
              && step.state.committed == seen.committed && step.state.requested == seen.requested
              && (!spoiled ==> (Reader.ValidTerminal(step.terminal, step.state) <==> Accounted()))
    {
      hide EndsWith, Ended, CanEnd, EventBytes, TerminalBody, Reader.Step, Reader.ValidTerminal, GapOnTop;
      hide Reader.TallyRecords, Reader.SourceAfterGap, AllMadeOf;
      CountedTerminal(seen, timestamp, config, eventCount, cumulativePayload, recordCount, lastGap,
                      frames, sourceFrameCount, type0, type1, type2, clean, selectedTerminal.value);
      FileEvent(sink, log, seen, spoiled, event);
      EndsSnoc(log, event, lastGap);
    }

    /** A sink that was given up holds a terminal: what there is to show for Closed. */
    lemma IsClosed(clean: bool, event: RawEvent)
      requires !sinkOpen && ending.Some? && selectedTerminal.Some? && ending.value.timestamp == lastTimestamp
      requires SurfaceSeen() && gapCount == |GapList(lastGap)|
      requires 0 < eventOrdinal && recordCount <= MAX_U64 && type0 + type1 + type2 <= recordCount
      requires Filed(sink, log, seen, ending, spoiled)
      requires Ended(seen, ending.value, clean, selectedTerminal.value, frames, sourceFrameCount, recordCount,
                     type0, type1, type2, lastGap, config)
      requires event == TerminalEvent(clean, eventOrdinal - 1, ending.value.timestamp, selectedTerminal.value, gapCount,
                                      sourceFrameCount, recordCount, type0, type1, type2)
      requires EndsWith(log, event, lastGap)
      requires !spoiled ==> (Reader.ValidTerminal(ending.value, seen) <==> !abandoned)
      ensures Closed(clean)
    {
      hide Filed, EndsWith, Ended, TerminalEvent, Reader.ValidTerminal;
    }

    /** The terminal event joins the log, and the reader is done. */
    method AppendTerminal(event: RawEvent, ghost st: Reader.ReaderState, ghost terminal: Terminal)
      requires Encodable(event) && counters.events == eventCount == eventOrdinal < MAX_EVENTS
      modifies this`sink, this`log, this`seen, this`ending, this`eventCount, this`eventOrdinal, counters
      ensures sink == old(sink) + EventBytes(event) && log == old(log) + [event]
      ensures seen == st && ending == Some(terminal)
      ensures eventOrdinal == old(eventOrdinal) + 1
    {
      hide EventBytes;
      sink := sink + EventBytes(event);
      log, seen, ending := log + [event], st, Some(terminal);
      eventCount := eventCount + 1;
      eventOrdinal := eventOrdinal + 1;
      var _ := counters.ReserveEvent();
    }

    /** The terminal event joins the log of a sink that was given up, and the reader is done. */
    method LayTerminal(clean: bool, event: RawEvent, ghost st: Reader.ReaderState, ghost terminal: Terminal,
                       ghost accounted: bool)
      requires Encodable(event) && counters.events == eventCount == eventOrdinal < MAX_EVENTS
      requires !sinkOpen && selectedTerminal.Some? && terminal.timestamp == lastTimestamp
      requires SurfaceSeen() && st.committed == seen.committed && st.requested == seen.requested
      requires gapCount == |GapList(lastGap)| && recordCount <= MAX_U64 && type0 + type1 + type2 <= recordCount
      requires Filed(sink + EventBytes(event), log + [event], st, Some(terminal), spoiled)
      requires Ended(st, terminal, clean, selectedTerminal.value, frames, sourceFrameCount, recordCount,
                     type0, type1, type2, lastGap, config)
      requires event == TerminalEvent(clean, eventOrdinal, terminal.timestamp, selectedTerminal.value, gapCount,
                                      sourceFrameCount, recordCount, type0, type1, type2)
      requires EndsWith(log + [event], event, lastGap)
      requires !spoiled ==> (Reader.ValidTerminal(terminal, st) <==> accounted)
      modifies this`sink, this`log, this`seen, this`ending, this`eventCount, this`eventOrdinal, this`abandoned, counters
      ensures Closed(clean) && seen == st && ending == Some(terminal) && abandoned == !accounted
    {
      hide EventBytes, Filed, EndsWith, Ended, TerminalEvent, Reader.ValidTerminal, Closed;
      AppendTerminal(event, st, terminal);
      abandoned := !accounted;
      IsClosed(clean, event);
    }

    /** Takes the sink and offers it the terminal event; a refused terminal leaves the log as it was. */
    method WriteTerminal(clean: bool, timestamp: u64, event: RawEvent) returns (written: bool)
      requires Sound() && timestamp == lastTimestamp
      requires selectedTerminal.Some? && MayEnd(clean, selectedTerminal.value, timestamp)
      requires recordCount <= MAX_U64 && type0 + type1 + type2 <= recordCount
      requires event == TerminalEvent(clean, eventOrdinal, timestamp, selectedTerminal.value, gapCount,
                                      sourceFrameCount, recordCount, type0, type1, type2)
      modifies this`sink, this`sinkOpen, this`log, this`seen, this`ending, this`eventCount, this`eventOrdinal
      modifies this`abandoned, this`writes, this`healthy, counters
      ensures Advances() && writes == old(writes) + 1 && healthy == (old(healthy) && written)
      ensures !sinkOpen
      ensures written ==>
                && Closed(clean)
                && ending.value.timestamp == timestamp
                && seen.records == old(seen.records)
                && abandoned == !old(Accounted())
      ensures !written ==> abandoned == old(abandoned)
    {
      hide Follows, Filed, EndsWith, Ended, EventBytes, TerminalEvent, MayEnd, Accounted, Sound, Closed, Reader.Step;
      hide Reader.ValidTerminal;
      TerminalNext(clean, timestamp, event);
      ghost var accounted := Accounted();
      ghost var step := Reader.Step(seen, event);
      sinkOpen := false;
      written := SinkAccepts();
      if written {
        LayTerminal(clean, event, step.state, step.terminal, accounted);
      }
    }

    /** There is always an event slot for the terminal, and its counts fit. */
    lemma TerminalFits()
      requires Sound()
      ensures eventOrdinal == eventCount < MAX_EVENTS
      ensures recordCount <= MAX_U64 && type0 + type1 + type2 <= recordCount
    {
      hide Filed, GapOnTop, AllMadeOf, Reader.TallyRecords;
    }

    method FinalizeSelected(clean: bool, timestamp: u64) returns (r: Outcome)
      requires Sound() && state == Finalizing && timestamp == lastTimestamp
      requires selectedTerminal.Some? && MayEnd(clean, selectedTerminal.value, timestamp)
      modifies this`sink, this`sinkOpen, this`log, this`seen, this`ending, this`eventCount, this`eventOrdinal
      modifies this`state, this`abandoned, this`writes, this`healthy, counters
      ensures Advances() && writes == old(writes) + 4
      ensures r.Failed? ==> r.failure == SinkFailed && state == Finalizing && !sinkOpen && !healthy
      ensures r.Finalized? ==> healthy == old(healthy)
      ensures !r.Continue?
      ensures r.Finalized? ==>
                && r.state == state == (if clean then CaptureState.Clean else CaptureState.Aborted)
                && Closed(clean)
                && ending.value.timestamp == timestamp
                && seen.records == old(seen.records)
                && abandoned == !old(Accounted())
    {
      hide Sound, MayEnd, Accounted, Closed, TerminalBody, TerminalReasonOf;
      TerminalFits();
      // The source's one-slot preflight and length check: neither can fail here.
      assert eventCount + 1 <= MAX_EVENTS;
      var body := TerminalBody(selectedTerminal.value, gapCount, sourceFrameCount, recordCount, type0, type1, type2);
      var event := EventAt(if clean then CLEAN else ABORTED, eventOrdinal, timestamp, body);
      assert Encodable(event);
      var written := WriteTerminal(clean, timestamp, event);
      var consumed := ConsumeSink(!written);
      if !consumed {
        return Failed(SinkFailed);
      }
      state := if clean then CaptureState.Clean else CaptureState.Aborted;
      return Finalized(state);
    }

    /** The source passes `clean == false` at every call of `finalize`. */
    method Finalize(reason: u16) returns (r: Outcome)
      requires Sound() && state !in {CaptureState.Finalizing, CaptureState.Clean, CaptureState.Aborted}
      requires MayEnd(false, reason, lastTimestamp)
      modifies this`sink, this`sinkOpen, this`log, this`seen, this`ending, this`eventCount, this`eventOrdinal
      requires healthy || reason in {259, 260}
      modifies this`state, this`abandoned, counters
      modifies this`lastTimestamp, this`ticks, this`writes, this`healthy, this`selectedTerminal, this`selectedAbort
      ensures Continues()
      ensures Valid() && fresh(Repr() - old(Repr()))
      ensures !r.Continue?
      ensures r.Failed? ==> r.failure in {ClockFailed, SinkFailed} && state == Finalizing && !sinkOpen && !healthy
      ensures r.Finalized? ==> healthy == old(healthy)
      ensures r.Finalized? ==>
                && r.state == state == CaptureState.Aborted
                && Closed(false)
                && selectedTerminal == selectedAbort == Some(reason)
                && seen.records == old(seen.records)
                && abandoned == !old(Accounted())
    {
      hide Follows, Reading, Sound, SurfaceSeen, ArmedSeen, PendingLinked, Closed, InRecording, AfterFrame, Quiet;
      hide Live, CanEnd, TerminalReasonOf, Reader.TallyRecords, Reader.SourceAfterGap;
      SelectTerminal(false, reason);
      var timestamp := Now();
      if timestamp.None? {
        r := FailClosed(ClockFailed);
        return;
      }
      r := FinalizeSelected(false, timestamp.value);
    }

    method FinalizeAt(clean: bool, reason: u16, timestamp: u64) returns (r: Outcome)
      requires Sound() && state !in {CaptureState.Finalizing, CaptureState.Clean, CaptureState.Aborted}
      requires timestamp == lastTimestamp && MayEnd(clean, reason, timestamp)
      modifies this`sink, this`sinkOpen, this`log, this`seen, this`ending, this`eventCount, this`eventOrdinal
      requires healthy || (!clean && reason in {259, 260})
      modifies this`state, this`abandoned, counters
      modifies this`writes, this`healthy, this`selectedTerminal, this`selectedAbort
      ensures Continues()
      ensures (clean ==> spoiled || pending == None) ==> Valid()
      ensures fresh(Repr() - old(Repr()))
      ensures !r.Continue?
      ensures r.Failed? ==> r.failure == SinkFailed && state == Finalizing && !sinkOpen && !healthy
      ensures r.Finalized? ==> healthy == old(healthy)
      ensures r.Finalized? ==>
                && r.state == state == (if clean then CaptureState.Clean else CaptureState.Aborted)
                && Closed(clean)
                && selectedTerminal == Some(reason)
                && (if clean then lastGap == None else selectedAbort == Some(reason))
                && ending.value.timestamp == timestamp
                && seen.records == old(seen.records)
                && abandoned == !old(Accounted())
    {
      hide Follows, PendingLinked, Live, Closed, Filed, GapOnTop, EndsWith, Ledgered, Reader.TallyRecords, CanEnd;
      hide TerminalReasonOf;
      SelectTerminal(clean, reason);
      r := FinalizeSelected(clean, timestamp);
    }

    /** Recording, with every source frame in the ledger and room for a gap and its terminal. */
    ghost predicate InRecording()
      reads this, counters
    {
      && Sound()
      && lastGap == None
      && state == CaptureState.Recording
      && seen.phase == Reader.Recording
      && ArmedSeen()
      && (spoiled || recordCount < config.recordLimit)
      && !abandoned
      && healthy
    }

    /** Only after a refused record can the event budget be short of the gap or record and the terminal. */
    lemma Room()
      requires InRecording() && !spoiled
      ensures eventCount + 2 <= MAX_EVENTS
    {
      hide Filed, Ledgered;
      CountedRoom(seen, eventCount, cumulativePayload, recordCount, config);
    }

    method AppendGap(diagnostic: Gap, timestamp: u64) returns (failure: Option<Failure>)
      requires InRecording() && timestamp == lastTimestamp && eventCount + 2 <= MAX_EVENTS
      requires GapStage(diagnostic.reason) == Ok(diagnostic.stage)
      requires diagnostic.first <= diagnostic.last && diagnostic.last + 1 == sourceFrameCount
      requires Reader.ValidGapFields(diagnostic, cumulativePayload)
      modifies this`sink, this`log, this`seen, this`eventCount, this`cumulativePayload, this`eventOrdinal, counters
      modifies this`gapCount, this`lastGap, this`writes, this`healthy
      ensures Advances() && healthy == failure.None?
      ensures failure.Some? ==> failure.value == SinkFailed
      ensures failure.None? ==>
                && Sound()
                && lastGap == Some(diagnostic)
                && seen.phase == Reader.Recording
                && seen.records == old(seen.records)
    {
      hide Follows, Live, Quiet, PendingLinked, Filed, Counted, Ledgered, Reader.TallyRecords, GapBody, Reader.Step;
      hide Reader.ValidGapFields;
      var body := GapBody(diagnostic);
      CountedGap(seen, timestamp, config, eventCount, cumulativePayload, recordCount, diagnostic);
      ghost var step := Reader.Step(seen, EventAt(GAP, eventOrdinal, timestamp, body));
      failure := WriteNonterminal(GAP, timestamp, body, 0);
      if failure.None? {
        seen, gapCount, lastGap := step.state, 1, Some(diagnostic);
        IsSound();
      }
    }

    method WriteGap(diagnostic: Gap) returns (failure: Option<Failure>)
      requires InRecording()
      requires GapStage(diagnostic.reason) == Ok(diagnostic.stage)
      requires diagnostic.first <= diagnostic.last && diagnostic.last + 1 == sourceFrameCount
      requires Reader.ValidGapFields(diagnostic, cumulativePayload)
      modifies this`sink, this`log, this`seen, this`eventCount, this`cumulativePayload, this`eventOrdinal, counters
      modifies this`lastTimestamp, this`ticks, this`writes, this`healthy, this`gapCount, this`lastGap
      ensures Continues()
      ensures healthy <==> failure in {None, Some(LimitExceeded)}
      ensures failure.Some? ==> failure.value in {ClockFailed, SinkFailed, LimitExceeded}
      ensures failure == Some(LimitExceeded) <==> old(eventCount) + 2 > MAX_EVENTS
      ensures old(eventCount) + 2 > MAX_EVENTS ==> spoiled
      ensures failure.None? ==>
                && Sound()
                && lastGap == Some(diagnostic)
                && seen.phase == Reader.Recording
                && seen.records == old(seen.records)
    {
      hide Filed, GapOnTop, Counted, Ledgered, Reader.TallyRecords, Reader.ValidGapFields;
      if !spoiled {
        Room();
      }
      if eventCount + 2 > MAX_EVENTS {
        return Some(LimitExceeded);
      }
      var timestamp := Now();
      if timestamp.None? {
        return Some(ClockFailed);
      }
      failure := AppendGap(diagnostic, timestamp.value);
    }

    /** A gap on the sink may be followed by the terminal it maps to, which accounts for frames as the gap does. */
    lemma GapMayEnd(terminal: u16)
      requires Sound() && lastGap.Some? && GapTerminalCode(lastGap.value.reason) == Ok(terminal)
      requires lastGap.value.last + 1 == sourceFrameCount
      ensures MayEnd(false, terminal, lastTimestamp)
      ensures Accounted() <==> lastGap.value.first == Recorded()
    {
      hide Filed, GapOnTop, Ledgered, Reader.TallyRecords, CanEnd;
      CountedCanEndAfterGap(seen, eventCount, cumulativePayload, recordCount, config, lastGap.value, false, terminal);
    }

    method DropPending()
      modifies this`pending, this`assembler
      ensures pending == None && fresh(assembler)
    {
      pending := None;
      assembler := new MvsRecordAssembler();
    }

    method EmitGap(diagnostic: Gap, terminal: u16) returns (r: Outcome)
      requires InRecording()
      requires GapStage(diagnostic.reason) == Ok(diagnostic.stage)
      requires GapTerminalCode(diagnostic.reason) == Ok(terminal)
      requires diagnostic.first <= diagnostic.last && diagnostic.last + 1 == sourceFrameCount
      requires Reader.ValidGapFields(diagnostic, cumulativePayload)
      modifies this, counters
      ensures Continues()
      ensures Valid() && fresh(Repr() - old(Repr()))
      ensures frames == old(frames) && sourceFrameCount == old(sourceFrameCount)
      ensures assembler == old(assembler) || fresh(assembler)
      ensures spoiled == old(spoiled)
      ensures !r.Continue?
      ensures r.Failed? ==> Broke(r)
      ensures r.Finalized? ==>
                && r.state == state == CaptureState.Aborted
                && Closed(false)
                && selectedTerminal == selectedAbort == Some(terminal)
                && lastGap == Some(diagnostic)
                && seen.records == old(seen.records)
                && abandoned == (diagnostic.first != old(Recorded()))
    {
      hide Follows, Sound, StateSeen, ArmedSeen, PendingLinked, Closed, MayEnd, Accounted, Live, Quiet, AfterFrame;
      hide GapTerminalCode, Reader.ValidGapFields, Reader.TallyRecords;
      var failure := WriteGap(diagnostic);
      if failure.Some? {
        r := FailClosed(failure.value);
        return;
      }
      DropPending();
      GapMayEnd(terminal);
      r := Finalize(terminal);
    }

    // ---------- How an operation can end ----------

    /**
     The clock or the sink has failed, or in a log that a refused record has spoiled the event budget is used
     up; nothing more is written.
     */
    ghost predicate Broke(r: Outcome)
      reads this
    {
      && r.Failed?
      && ((r.failure in {ClockFailed, SinkFailed} && !healthy) || (r.failure == LimitExceeded && spoiled))
      && state == Finalizing && !sinkOpen
    }

    ghost predicate EndedClean(r: Outcome, code: u16)
      reads this
    {
      || Broke(r)
      || (&& r == Finalized(CaptureState.Clean)
          && state == CaptureState.Clean
          && selectedTerminal == Some(code)
          && lastGap == None)
    }

    ghost predicate EndedAborted(r: Outcome, code: u16, gap: Option<Gap>)
      reads this
    {
      || Broke(r)
      || (&& r == Finalized(CaptureState.Aborted)
          && state == CaptureState.Aborted
          && selectedTerminal == selectedAbort == Some(code)
          && lastGap == gap)
    }

    /** Nothing pending: every source frame is in a record, and the capture has not ended. */
    ghost predicate Quiet()
      reads this, counters, assembler
    {
      && assembler.Valid()
      && Sound()
      && lastGap == None
      && pending == None
      && PendingLinked()
      && state !in {CaptureState.Finalizing, CaptureState.Clean, CaptureState.Aborted}
      && !abandoned
    }

    lemma LiveIsQuiet()
      requires Live() && !abandoned && (state == CaptureState.Recording ==> pending == None)
      ensures Quiet() && state !in {CaptureState.Finalizing, CaptureState.Clean, CaptureState.Aborted}
      ensures StateSeen() && ValidConfig(config) && pending == None && healthy
      ensures seen.phase != Reader.Recording ==> frames == [] && recordCount == 0 && sourceFrameCount == 0
    {
      hide Filed, GapOnTop, Counted, Ledgered, Reader.TallyRecords, Joined;
    }

    /** The writer's counts of frames and records are those of its ledger. */
    lemma SoundCounts()
      requires Sound()
      ensures |frames| == sourceFrameCount && |seen.records| == recordCount && ValidConfig(config)
    {
      hide Filed, GapOnTop, Counted, Ledgered;
    }

    lemma LiveIsRecording()
      requires Live() && state == CaptureState.Recording && !abandoned
      ensures InRecording() && PendingLinked() && AfterFrame() && healthy
      ensures pending == None ==> Quiet()
    {
      hide Sound, PendingLinked;
    }

    lemma QuietMayAbort(code: u16)
      requires Quiet() && AbortAllowed(seen.phase, code)
      ensures Sound() && MayEnd(false, code, lastTimestamp) && Accounted()
    {
      hide Sound, MayEnd, Accounted, AbortAllowed;
      MayAbort(code);
    }

    lemma QuietMayEndClean(code: u16)
      requires Quiet() && seen.phase == Reader.Recording
      requires code == 1 ==> lastTimestamp >= DeadlineMicros()
      requires code == 2 ==> lastTimestamp < DeadlineMicros() && recordCount == config.recordLimit
      requires code in {1, 2}
      ensures Sound() && MayEnd(true, code, lastTimestamp) && Accounted()
    {
      hide Sound, MayEnd, Accounted;
      MayEndClean(code);
    }

    lemma LiveIsPhase()
      requires Live()
      ensures StateSeen()
    {
      hide Sound, PendingLinked;
    }

    lemma QuietIsLive()
      requires Quiet() && StateSeen() && healthy
      ensures Live() && Valid()
    {
      hide Sound, PendingLinked, Closed;
    }

    lemma IsQuiet()
      requires assembler.Valid() && Sound() && lastGap == None && pending == None
      requires assembler.pending == None && frames == [] && recordCount == 0
      requires state !in {CaptureState.Finalizing, CaptureState.Clean, CaptureState.Aborted} && !abandoned
      ensures Quiet()
    {
      hide Filed, GapOnTop, Counted, Ledgered;
    }

    /** Going on in the lifecycle leaves everything on the sink and in the ledger as it was. */
    twostate lemma StaysQuiet()
      requires old(Quiet()) && state !in {CaptureState.Finalizing, CaptureState.Clean, CaptureState.Aborted}
      requires unchanged(this`sinkOpen, this`sink, this`log, this`seen, this`ending, this`spoiled, this`eventCount)
      requires unchanged(this`eventOrdinal, this`cumulativePayload, this`recordCount, this`lastGap, this`gapCount)
      requires unchanged(this`frames, this`sourceFrameCount, this`type0, this`type1, this`type2, this`lastTimestamp)
      requires unchanged(this`offered, this`assembler, this`pending, this`abandoned, counters)
      requires unchanged(assembler)
      ensures Quiet()
    {
      hide Sound;
    }

    /** Aborts with this code while every source frame is in a record. */
    method Abort(code: u16) returns (r: Outcome)
      requires Quiet() && AbortAllowed(seen.phase, code)
      requires healthy || code in {259, 260}
      modifies this`sink, this`sinkOpen, this`log, this`seen, this`ending, this`eventCount, this`eventOrdinal, counters
      modifies this`state, this`abandoned, this`lastTimestamp, this`ticks, this`selectedTerminal, this`selectedAbort
      modifies this`writes, this`healthy
      ensures Continues()
      ensures r.Finalized? ==> healthy == old(healthy)
      ensures Valid() && fresh(Repr() - old(Repr()))
      ensures EndedAborted(r, code, None)
      ensures r.Finalized? ==> !abandoned && seen.records == old(seen.records)
    {
      hide Sound, PendingLinked, Closed, MayEnd, Accounted;
      QuietMayAbort(code);
      r := Finalize(code);
    }

    function PendingGap(reason: u16): Gap
      reads this
      requires pending.Some?
    {
      GapOf(pending.value, reason)
    }

    static function GapOf(p: PendingProvenance, reason: u16): Gap {
      MakeGap(reason, p.first, p.last, p.total, p.accepted, p.rect)
    }

    method EmitPendingGap(reason: u16, terminal: u16) returns (r: Outcome)
      requires InRecording() && PendingLinked() && pending.Some?
      requires reason in {5, 6, 7, 8, 12} && GapTerminalCode(reason) == Ok(terminal)
      modifies this, counters
      ensures Continues()
      ensures Valid() && fresh(Repr() - old(Repr()))
      ensures frames == old(frames) && (r.Finalized? ==> seen.records == old(seen.records) && !abandoned)
      ensures spoiled == old(spoiled) && sourceFrameCount == old(sourceFrameCount)
      ensures EndedAborted(r, terminal, Some(old(PendingGap(reason))))
    {
      hide Filed, GapOnTop, EndsWith, Counted, Ledgered, Reader.TallyRecords;
      r := EmitGap(PendingGap(reason), terminal);
    }

    /** After a frame: a record may just have filled the limit, and the deadline may have passed. */
    ghost predicate AfterFrame()
      reads this, counters, assembler
    {
      && assembler.Valid()
      && Sound()
      && lastGap == None
      && PendingLinked()
      && state == CaptureState.Recording
      && seen.phase == Reader.Recording
      && ArmedSeen()
      && (pending.Some? ==> spoiled || recordCount < config.recordLimit)
      && !abandoned
      && healthy
    }

    method PostFrame(now: u64) returns (r: Outcome)
      requires AfterFrame() && now == lastTimestamp
      modifies this, counters
      ensures Continues()
      ensures Valid() && fresh(Repr() - old(Repr()))
      ensures frames == old(frames) && (!r.Failed? ==> seen.records == old(seen.records))
      ensures spoiled == old(spoiled) && sourceFrameCount == old(sourceFrameCount)
      ensures !r.Failed? ==> (abandoned <==> r.Finalized? && now < DeadlineMicros() && old(pending).Some?)
      ensures old(pending).None? ==> lastTimestamp == now && pending == None
      ensures
        if now >= DeadlineMicros() then
          if old(pending).Some? then EndedAborted(r, 263, Some(old(PendingGap(6)))) else EndedClean(r, 1)
        else if old(recordCount) == config.recordLimit then lastTimestamp == now && EndedClean(r, 2)
        else r == Continue && unchanged(this) && unchanged(counters)
    {
      hide Follows, Filed, GapOnTop, EndsWith, Counted, Ledgered, Reader.TallyRecords, CanEnd;
      if now >= DeadlineMicros() {
        if pending.Some? {
          r := EmitPendingGap(6, 263);
        } else {
          MayEndClean(1);
          r := FinalizeAt(true, 1, now);
        }
        return;
      }
      if recordCount == config.recordLimit {
        MayEndClean(2);
        r := FinalizeAt(true, 2, now);
        return;
      }
      return Continue;
    }

    /** Samples the clock after a frame, and lets the deadline and the record limit decide. */
    method FrameDone() returns (r: Outcome)
      requires AfterFrame()
      modifies this, counters
      ensures Continues()
      ensures Valid() && fresh(Repr() - old(Repr()))
      ensures frames == old(frames) && sourceFrameCount == old(sourceFrameCount) && spoiled == old(spoiled)
      ensures r.Failed? ==> Broke(r)
      ensures !r.Failed? ==>
                && seen.records == old(seen.records)
                && (abandoned <==> r.Finalized? && lastTimestamp < DeadlineMicros() && old(pending).Some?)
                && (old(pending).None? ==> pending == None)
                && if lastTimestamp >= DeadlineMicros() then
                     if old(pending).Some? then EndedAborted(r, 263, Some(old(PendingGap(6)))) else EndedClean(r, 1)
                   else if old(recordCount) == config.recordLimit then EndedClean(r, 2)
                   else
                     && r == Continue && state == old(state) && pending == old(pending) && armed == old(armed)
                     && ticks == old(ticks) + 1
                     && sink == old(sink) && recordCount == old(recordCount)
    {
      hide Sound, PendingLinked, Live, Quiet, Closed, InRecording, Reading, ArmedSeen;
      var now := Now();
      if now.None? {
        r := FailClosed(ClockFailed);
        return;
      }
      r := PostFrame(now.value);
    }

    /** The writer's own rectangle check: a repetition of the reader's. */
    method ValidateRecordRect(rect: MvsRect) returns (ok: bool)
      requires armed.Some?
      ensures ok == Reader.ValidRecordRect(rect, armed.value.committed)
    {
      var surface := armed.value.committed;
      if rect.width == 0 || rect.height == 0 {
        return false;
      }
      var right, bottom := rect.x + rect.width, rect.y + rect.height;
      if right > MAX_U16 || bottom > MAX_U16 {
        return false;
      }
      if right > surface.width || bottom > surface.height {
        return false;
      }
      return rect.width * rect.height <= MAX_DECODE_PIXELS;
    }

    /** What there is to show for AfterFrame while a record is pending. */
    lemma StillPending()
      requires InRecording() && assembler.Valid() && pending.Some?
      requires var p := pending.value;
               && p.first == Recorded()
               && p.last + 1 == sourceFrameCount
               && p.accepted < p.total <= MAX_PAYLOAD
               && cumulativePayload + p.total <= MAX_CUMULATIVE_PAYLOAD
               && p.startedAt <= lastTimestamp
               && IsFragmentRun(frames, p.first, p.last, p.rect, p.total)
               && var joined := Joined(frames[p.first..]);
               && |joined| == p.accepted
               && assembler.pending == Some(PendingRecord(p.rect, p.total, joined))
      ensures AfterFrame()
    {
      hide Sound, Joined, IsFragmentRun, Reader.TallyRecords;
    }

    /** A record was taken; unless it filled the limit, the writer is ready for the next frame. */
    lemma AfterFrameIsValid()
      requires AfterFrame() && (spoiled || recordCount < config.recordLimit)
      ensures Valid()
    {
      hide Sound, PendingLinked, Closed;
    }

    /** The frames of the record that is being completed, and the room there is for it. */
    ghost predicate Completes(first: u64, last: u64, record: MvsRecord)
      reads this, counters, assembler
    {
      && InRecording() && armed.Some?
      && assembler.Valid()
      && pending == None
      && assembler.pending == None
      && first == Recorded()
      && first <= last
      && last + 1 == sourceFrameCount
      && 1 <= |record.payload| <= MAX_PAYLOAD
      && cumulativePayload + |record.payload| <= MAX_CUMULATIVE_PAYLOAD
      && MadeOf(CaptureRecord(0, first, last, record), frames)
    }

    /** Appends the record event and takes the record into the reader's view. */
    method LayRecord(first: u64, last: u64, record: MvsRecord) returns (failure: Option<Failure>)
      requires Completes(first, last, record)
      modifies this`sink, this`log, this`seen, this`eventCount, this`cumulativePayload, this`eventOrdinal, counters
      modifies this`recordCount, this`spoiled, this`writes, this`healthy
      ensures Advances() && healthy == (failure != Some(SinkFailed))
      ensures failure.Some? ==> failure.value in {SinkFailed, LimitExceeded} && spoiled == old(spoiled)
      ensures failure == Some(LimitExceeded) ==> spoiled
      ensures failure.None? ==>
                && spoiled == (old(spoiled) || !Reader.ValidRecordShape(record, armed.value.committed))
                && recordCount == old(recordCount) + 1
                && Filed(sink, log, seen, ending, spoiled)
                && Counted(seen, eventCount, cumulativePayload, recordCount, None, config)
                && eventOrdinal == eventCount == counters.events && cumulativePayload == counters.payload
                && seen.phase == Reader.Recording
                && seen.committed == old(seen.committed) && seen.requested == old(seen.requested)
                && seen.lastTimestamp == Some(lastTimestamp)
                && seen.records == old(seen.records) + [CaptureRecord(0, first, last, record)]
    {
      hide Follows, Live, Quiet, AfterFrame, PendingLinked, Closed, Laid, Spoiled, Filed, Counted, Ledgered;
      hide Reader.TallyRecords, MadeOf, RecordBody, Reader.Step, Reader.ValidRecordShape, EventBytes, Taken;
      var body := RecordBody(first, last, record);
      if !spoiled {
        Room();
      }
      if eventCount + 2 <= MAX_EVENTS {
        CountedRecord(seen, lastTimestamp, config, eventCount, cumulativePayload, recordCount,
                      CaptureRecord(0, first, last, record));
      }
      ghost var before, event := seen, EventAt(RECORD, eventOrdinal, lastTimestamp, body);
      failure := WriteNonterminal(RECORD, lastTimestamp, body, |record.payload|);
      if failure.None? {
        seen, recordCount := Taken(before, event, CaptureRecord(0, first, last, record)), recordCount + 1;
        spoiled := spoiled || !Reader.ValidRecordShape(record, armed.value.committed);
        if spoiled {
          SpoiledIsFiled(sink, log, seen);
        }
      }
    }

    /** Writes the record event; afterwards the record is counted, though not yet by its tag. */
    method WriteRecord(first: u64, last: u64, record: MvsRecord) returns (failure: Option<Failure>)
      requires Completes(first, last, record)
      modifies this`sink, this`log, this`seen, this`eventCount, this`cumulativePayload, this`eventOrdinal, counters
      modifies this`lastTimestamp, this`ticks, this`writes, this`healthy, this`recordCount, this`spoiled
      ensures Continues()
      ensures healthy <==> failure in {None, Some(LimitExceeded)}
      ensures failure.Some? ==> failure.value in {ClockFailed, SinkFailed, LimitExceeded} && spoiled == old(spoiled)
      ensures failure == Some(LimitExceeded) ==> spoiled
      ensures failure.None? ==>
                && Tracked()
                && spoiled == (old(spoiled) || !Reader.ValidRecordShape(record, armed.value.committed))
                && recordCount == old(recordCount) + 1
                && seen.phase == Reader.Recording && ArmedSeen()
                && seen.records == old(seen.records) + [CaptureRecord(0, first, last, record)]
    {
      hide Follows, Live, Quiet, AfterFrame, PendingLinked, Closed, GapOnTop, Filed, Counted, Ledgered;
      hide Reader.TallyRecords, MadeOf, Reader.ValidRecordShape;
      var timestamp := Now();
      if timestamp.None? {
        return Some(ClockFailed);
      }
      failure := LayRecord(first, last, record);
      NoGapOnTop(log, eventOrdinal);
    }

    /** The source's early return: a type-2 record with a rectangle, found only after it was written. */
    static predicate ReturnsEarly(record: MvsRecord) {
      record.payload != [] && record.payload[0] == 2 && record.rect != ZERO_RECT
    }

    /** Counts the record by its tag and checks its shape, in that order. */
    method CountTag(record: MvsRecord) returns (ok: bool, early: bool)
      requires record.payload != [] && armed.Some?
      modifies this`type0, this`type1, this`type2
      ensures ok == Reader.ValidRecordShape(record, armed.value.committed)
      ensures early == ReturnsEarly(record) && (early ==> !ok)
      ensures var tag := record.payload[0];
              && type0 == old(type0) + (if tag == 0 then 1 else 0)
              && type1 == old(type1) + (if tag == 1 then 1 else 0)
              && type2 == old(type2) + (if tag == 2 then 1 else 0)
              && (ok ==> tag in {0, 1, 2})
    {
      early := false;
      match record.payload[0] {
        case 0 =>
          type0 := type0 + 1;
          ok := ValidateRecordRect(record.rect);
        case 1 =>
          type1 := type1 + 1;
          ok := ValidateRecordRect(record.rect);
        case 2 =>
          type2 := type2 + 1;
          if record.rect != ZERO_RECT {
            return false, true;
          }
          ok := true;
        case _ =>
          ok := false;
      }
    }

    /** Writes the record, counts it and its tag, and checks it, in that order. */
    method TakeRecord(first: u64, last: u64, record: MvsRecord) returns (failure: Option<Failure>, early: bool)
      requires Completes(first, last, record)
      modifies this`sink, this`log, this`seen, this`eventCount, this`cumulativePayload, this`eventOrdinal, counters
      modifies this`lastTimestamp, this`ticks, this`recordCount, this`type0, this`type1, this`type2, this`spoiled
      modifies this`writes, this`healthy
      ensures Continues()
      ensures healthy <==> failure in {None, Some(LimitExceeded), Some(InvalidRecord)}
      ensures failure.Some? ==> failure.value in {ClockFailed, SinkFailed, LimitExceeded, InvalidRecord}
      ensures failure == Some(LimitExceeded) ==> old(spoiled)
      ensures failure == Some(InvalidRecord) ==> !Reader.ValidRecordShape(record, armed.value.committed)
      ensures early <==> failure == Some(InvalidRecord) && ReturnsEarly(record)
      ensures failure.None? ==> Reader.ValidRecordShape(record, armed.value.committed)
      ensures spoiled == (old(spoiled) || failure == Some(InvalidRecord))
      ensures failure.None? || early ==>
                && recordCount == old(recordCount) + 1
                && seen.records == old(seen.records) + [CaptureRecord(0, first, last, record)]
                && AfterFrame()
    {
      hide Follows, Tracked, ArmedSeen, Live, Quiet, Closed, Ledgered, Reader.TallyRecords, MadeOf;
      hide Reader.ValidRecordShape, Joined, IsFragmentRun;
      early := false;
      failure := WriteRecord(first, last, record);
      if failure.Some? {
        return;
      }
      var ok;
      ok, early := CountTag(record);
      if ok || early {
        LedgeredRecord(old(seen.records), frames, sourceFrameCount, old(type0), old(type1), old(type2),
                       CaptureRecord(0, first, last, record));
      }
      if !ok {
        failure := Some(InvalidRecord);
      }
    }

    /**
     A record the reader refuses is written before it is looked at. A type-2 record with a rectangle then
     only makes this call fail: the writer stays in Recording with its sink open. Any other ends the capture.
     */
    method CompleteRecord(first: u64, last: u64, record: MvsRecord) returns (r: Outcome)
      requires Completes(first, last, record)
      modifies this, counters
      ensures Continues() && (r == Continue ==> ticks > old(ticks))
      ensures Valid() && fresh(Repr() - old(Repr()))
      ensures frames == old(frames)
      ensures RecordAnswer(r, old(Was()), CaptureRecord(0, first, last, record))
    {
      hide Follows, Sound, PendingLinked, ArmedSeen, StateSeen, Live, Quiet, Closed, ReturnsEarly, MadeOf;
      hide Reader.ValidRecordShape, Reader.TallyRecords;
      SoundCounts();
      var failure, early := TakeRecord(first, last, record);
      if early {
        AfterFrameIsValid();
        return Failed(InvalidRecord);
      }
      if failure.Some? {
        r := FailClosed(failure.value);
        return;
      }
      r := FrameDone();
    }

    // ---------- Before recording ----------

    method FailClosedOutput(failure: Failure) returns (r: Outcome)
      modifies this`state, this`sinkOpen, this`writes, this`healthy, this`selectedTerminal, this`selectedAbort
      ensures Valid() && Continues()
      ensures r == Failed(failure) && state == Finalizing && !sinkOpen
      ensures selectedTerminal == selectedAbort == Some(264)
    {
      SelectTerminal(false, 264);
      r := FailClosed(failure);
    }

    /** Outcomes of an operation that only looks at the clock before deciding to go on. */
    ghost predicate WentOnOrEnded(r: Outcome, code: u16)
      reads this
    {
      || (r == Continue && lastTimestamp < DeadlineMicros())
      || EndedAborted(r, code, None)
    }

    /**
     Samples the clock and aborts with this code once the deadline has passed. Until a trigger is
     being written a failed clock also selects reason 264.
     */
    method CheckDeadline(code: u16, selectsOutput: bool) returns (r: Outcome)
      requires Quiet() && AbortAllowed(seen.phase, code) && healthy
      modifies this`sink, this`sinkOpen, this`log, this`seen, this`ending, this`eventCount, this`eventOrdinal, counters
      modifies this`state, this`abandoned, this`lastTimestamp, this`ticks, this`selectedTerminal, this`selectedAbort
      modifies this`writes, this`healthy
      ensures Continues()
      ensures r == Continue ==> ticks == old(ticks) + 1 && writes == old(writes)
      ensures !r.Failed? ==> healthy
      ensures r != Continue ==> Valid()
      ensures fresh(Repr() - old(Repr()))
      ensures r == Continue ==>
                && Quiet()
                && lastTimestamp < DeadlineMicros()
                && unchanged(this`sink, this`sinkOpen, this`log, this`seen, this`ending, this`eventCount)
                && unchanged(this`eventOrdinal, this`state, this`abandoned, this`selectedTerminal, this`selectedAbort)
                && unchanged(counters)
      ensures r.Finalized? ==> Closed(false) && !abandoned && lastTimestamp >= DeadlineMicros()
      ensures r != Continue ==> EndedAborted(r, code, None)
      ensures r.Failed? && r.failure == ClockFailed && selectsOutput ==> selectedAbort == Some(264)
    {
      hide Sound, PendingLinked, Closed, MayEnd, Accounted, InRecording, AfterFrame;
      var now := Now();
      if now.None? {
        if selectsOutput {
          r := FailClosedOutput(ClockFailed);
        } else {
          r := FailClosed(ClockFailed);
        }
        return;
      }
      if now.value >= DeadlineMicros() {
        QuietMayAbort(code);
        r := FinalizeAt(false, code, now.value);
        return;
      }
      return Continue;
    }

    method PreTriggerCheckpoint() returns (r: Outcome)
      requires Valid()
      modifies this, counters
      ensures Continues()
      ensures r == Continue ==> ticks == old(ticks) + 1 && writes == old(writes)
      ensures Valid() && fresh(Repr() - old(Repr())) && frames == old(frames) && spoiled == old(spoiled)
      ensures old(state) !in {CaptureState.Created, CaptureState.Armed} ==> r == Failed(WrongState) && unchanged(this)
      ensures old(state) in {CaptureState.Created, CaptureState.Armed} ==>
                && WentOnOrEnded(r, 267)
                && (r == Continue ==> state == old(state) && log == old(log) && sink == old(sink))
                && (r.Finalized? ==> !abandoned && lastTimestamp >= DeadlineMicros())
    {
      hide Sound, Quiet, PendingLinked, Live, Closed;
      if state !in {CaptureState.Created, CaptureState.Armed} {
        return Failed(WrongState);
      }
      LiveIsQuiet();
      r := CheckDeadline(267, true);
      if r != Continue {
        return;
      }
      QuietIsLive();
      return Continue;
    }

    /** Appends an event of the lifecycle and takes it into the reader's view; the surface is known afterwards. */
    method LayStage(kind: u16, body: seq<u8>, ghost surface: Option<ArmedConfig>) returns (failure: Option<Failure>)
      requires Sound() && lastGap == None && seen.phase != Reader.Recording
      requires eventCount + 2 <= MAX_EVENTS && cumulativePayload <= MAX_CUMULATIVE_PAYLOAD && |body| <= MAX_EVENT_BODY
      requires var step := Reader.Step(seen, EventAt(kind, eventOrdinal, lastTimestamp, body));
               && step.More?
               && Counted(step.state, eventCount + 1, cumulativePayload, 0, None, config)
               && step.state.committed == (if surface.Some? then Some(surface.value.committed) else None)
               && step.state.requested == (if surface.Some? then Some(surface.value.requested) else None)
               && step.state.lastTimestamp == Some(lastTimestamp) && step.state.records == seen.records
      modifies this`sink, this`log, this`seen, this`eventCount, this`cumulativePayload, this`eventOrdinal, counters
      modifies this`offered, this`writes, this`healthy
      ensures Advances() && writes == old(writes) + 1 && healthy == (old(healthy) && failure.None?)
      ensures failure.Some? ==>
                && failure.value == SinkFailed && offered == old(offered) && seen == old(seen)
                && (old(Quiet()) ==> Quiet())
      ensures failure.None? ==>
                && Sound()
                && offered == surface
                && seen == old(Reader.Step(seen, EventAt(kind, eventOrdinal, lastTimestamp, body))).state
                && log == old(log) + [EventAt(kind, old(eventOrdinal), lastTimestamp, body)]
    {
      hide Follows, Quiet, Live, PendingLinked, Filed, Counted, Ledgered, Reader.TallyRecords, Reader.Step;
      hide EventBytes, EventAt, Encodable;
      ghost var step := Reader.Step(seen, EventAt(kind, eventOrdinal, lastTimestamp, body));
      failure := WriteNonterminal(kind, lastTimestamp, body, 0);
      if failure.None? {
        seen, offered := step.state, surface;
        IsSound();
      }
    }

    /** Writes the Armed event; the in-memory state stays Created. */
    method WriteArmed(request: ArmedConfig) returns (failure: Option<Failure>)
      requires Quiet() && seen.phase == Reader.Created && seen.committed == None && frames == [] && recordCount == 0
      requires ValidGeometry(request.committed) && ValidGeometry(request.requested)
      modifies this`sink, this`log, this`seen, this`eventCount, this`cumulativePayload, this`eventOrdinal, counters
      modifies this`offered, this`writes, this`healthy
      ensures Advances() && writes == old(writes) + 1 && healthy == (old(healthy) && failure.None?)
      ensures failure.Some? ==> failure.value == SinkFailed && offered == old(offered) && seen == old(seen)
      ensures Quiet()
      ensures failure.None? ==>
                && offered == Some(request)
                && seen.phase == Reader.Armed
                && seen.committed == Some(request.committed) && seen.requested == Some(request.requested)
                && log == old(log) + [EventAt(ARMED, old(eventOrdinal), lastTimestamp,
                                              ArmedBody(request.committed, request.requested))]
    {
      hide Follows, Filed, GapOnTop, Ledgered, Counted, Reader.Step, Reader.TallyRecords;
      var body := ArmedBody(request.committed, request.requested);
      CountedArmed(seen, lastTimestamp, config, eventCount, cumulativePayload, request.committed, request.requested);
      failure := LayStage(ARMED, body, Some(request));
      if failure.None? {
        IsQuiet();
      }
    }

    method Arm(request: ArmedConfig) returns (r: Outcome)
      requires Valid()
      modifies this, counters
      ensures Advances()
      ensures r == Continue ==> ticks == old(ticks) + 2 && writes == old(writes) + 3 && offered == Some(request)
      ensures offered in {old(offered), Some(request)}
      ensures Valid() && fresh(Repr() - old(Repr())) && frames == old(frames) && spoiled == old(spoiled)
      ensures old(state) != CaptureState.Created ==> r == Failed(WrongState) && unchanged(this)
      ensures old(state) == CaptureState.Created ==>
                && (r == Continue ==>
                      && ValidGeometry(request.committed) && ValidGeometry(request.requested)
                      && state == CaptureState.Armed && armed == Some(request) && frames == []
                      && lastTimestamp < DeadlineMicros())
                && (r != Continue && !(ValidGeometry(request.committed) && ValidGeometry(request.requested)) ==>
                      EndedAborted(r, 266, None))
                && (r.Finalized? ==>
                      && !abandoned
                      && selectedAbort.Some? && selectedAbort.value in {259, 266, 267}
                      && (selectedAbort == Some(266) ==>
                            !(ValidGeometry(request.committed) && ValidGeometry(request.requested)))
                      && (selectedAbort == Some(267) ==> lastTimestamp >= DeadlineMicros())
                      && (selectedAbort == Some(259) <==> !healthy)
                      && EndedAborted(r, selectedAbort.value, None))
                && (r.Failed? ==> Broke(r))
    {
      hide Follows, Sound, Quiet, PendingLinked, Live, Closed;
      if state != CaptureState.Created {
        return Failed(WrongState);
      }
      LiveIsQuiet();
      if !ValidGeometry(request.committed) || !ValidGeometry(request.requested) {
        r := Abort(266);
        return;
      }
      r := ArmInTime(request);
    }

    /** The part of arming that a valid surface gets to. */
    method ArmInTime(request: ArmedConfig) returns (r: Outcome)
      requires Quiet() && state == CaptureState.Created && seen.phase == Reader.Created && seen.committed == None
      requires ValidGeometry(request.committed) && ValidGeometry(request.requested)
      requires frames == [] && recordCount == 0 && triggerMask == 0 && healthy
      modifies this, counters
      ensures Advances()
      ensures r == Continue ==> ticks == old(ticks) + 2 && writes == old(writes) + 3 && offered == Some(request)
      ensures offered in {old(offered), Some(request)}
      ensures Valid() && fresh(Repr() - old(Repr())) && frames == old(frames) && spoiled == old(spoiled)
      ensures r == Continue ==>
                && state == CaptureState.Armed && armed == Some(request) && lastTimestamp < DeadlineMicros()
      ensures r.Finalized? ==>
                && !abandoned
                && selectedAbort.Some? && selectedAbort.value in {259, 267}
                && (selectedAbort == Some(267) ==> lastTimestamp >= DeadlineMicros())
                && (selectedAbort == Some(259) <==> !healthy)
                && EndedAborted(r, selectedAbort.value, None)
      ensures r.Failed? ==> Broke(r)
    {
      hide Follows, Reading, SurfaceSeen, Sound, Quiet, PendingLinked, Live, Closed;
      r := CheckDeadline(267, true);
      if r != Continue {
        return;
      }
      r := PersistArmed(request);
    }

    /** Writes the Armed event and brings it to disk. */
    method PersistArmed(request: ArmedConfig) returns (r: Outcome)
      requires Quiet() && state == CaptureState.Created && seen.phase == Reader.Created && seen.committed == None
      requires ValidGeometry(request.committed) && ValidGeometry(request.requested)
      requires frames == [] && recordCount == 0 && triggerMask == 0 && healthy
      modifies this, counters
      ensures Advances()
      ensures r == Continue ==> ticks == old(ticks) + 1 && writes == old(writes) + 3 && offered == Some(request)
      ensures offered in {old(offered), Some(request)}
      ensures Valid() && fresh(Repr() - old(Repr())) && frames == old(frames) && spoiled == old(spoiled)
      ensures r == Continue ==>
                && state == CaptureState.Armed && armed == Some(request) && lastTimestamp < DeadlineMicros()
      ensures r.Finalized? ==>
                && !abandoned
                && selectedAbort.Some? && selectedAbort.value in {259, 267}
                && (selectedAbort == Some(267) ==> lastTimestamp >= DeadlineMicros())
                && (selectedAbort == Some(259) <==> !healthy)
                && EndedAborted(r, selectedAbort.value, None)
      ensures r.Failed? ==> Broke(r)
    {
      hide Follows, Reading, SurfaceSeen, ArmedBody, Sound, Quiet, PendingLinked, Live, Closed;
      var failure := WriteArmed(request);
      if failure.Some? {
        r := Abort(259);
        return;
      }
      r := SyncArmed(request);
    }

    /** The second half of arming: the Armed event must be on disk before any trigger. */
    method SyncArmed(request: ArmedConfig) returns (r: Outcome)
      requires Quiet() && state == CaptureState.Created && seen.phase == Reader.Armed && triggerMask == 0
      requires seen.committed == Some(request.committed) && seen.requested == Some(request.requested)
      requires offered == Some(request) && healthy
      modifies this, counters
      ensures Continues()
      ensures r == Continue ==> ticks == old(ticks) + 1 && writes == old(writes) + 2
      ensures Valid() && fresh(Repr() - old(Repr())) && frames == old(frames) && spoiled == old(spoiled)
      ensures r == Continue ==>
                && state == CaptureState.Armed && armed == Some(request) && lastTimestamp < DeadlineMicros()
      ensures r.Finalized? ==>
                && !abandoned
                && selectedAbort.Some? && selectedAbort.value in {259, 267}
                && (selectedAbort == Some(267) ==> lastTimestamp >= DeadlineMicros())
                && (selectedAbort == Some(259) <==> !healthy)
                && EndedAborted(r, selectedAbort.value, None)
      ensures r.Failed? ==> Broke(r)
    {
      hide Follows, SurfaceSeen, Quiet, Sound, PendingLinked, Live, Closed;
      var flushed := SinkAccepts();
      var synced := SinkAccepts();
      if !flushed || !synced {
        r := Abort(259);
        return;
      }
      r := ConfirmArmed(request);
    }

    /** The deadline is looked at once more before the state changes. */
    method ConfirmArmed(request: ArmedConfig) returns (r: Outcome)
      requires Quiet() && state == CaptureState.Created && seen.phase == Reader.Armed && triggerMask == 0
      requires seen.committed == Some(request.committed) && seen.requested == Some(request.requested)
      requires offered == Some(request) && healthy
      modifies this, counters
      ensures Continues()
      ensures r == Continue ==> ticks == old(ticks) + 1 && writes == old(writes)
      ensures Valid() && fresh(Repr() - old(Repr())) && frames == old(frames) && spoiled == old(spoiled)
      ensures r == Continue ==>
                && state == CaptureState.Armed && armed == Some(request) && lastTimestamp < DeadlineMicros()
      ensures r.Finalized? ==> !abandoned && healthy && lastTimestamp >= DeadlineMicros()
      ensures r != Continue ==> EndedAborted(r, 267, None)
    {
      hide Follows, Reading, SurfaceSeen, Quiet, Sound, PendingLinked, Live, Closed;
      r := CheckDeadline(267, false);
      if r != Continue {
        return;
      }
      label Decided:
      armed := Some(request);
      state := CaptureState.Armed;
      StaysQuiet@Decided();
      QuietIsLive();
      return Continue;
    }

    method BeginTrigger() returns (r: Outcome)
      requires Valid()
      modifies this, counters
      ensures Continues()
      ensures r == Continue ==> ticks == old(ticks) + 1 && writes == old(writes)
      ensures Valid() && fresh(Repr() - old(Repr())) && frames == old(frames) && spoiled == old(spoiled)
      ensures old(state) != CaptureState.Armed ==> r == Failed(WrongState) && unchanged(this)
      ensures old(state) == CaptureState.Armed ==>
                && WentOnOrEnded(r, 267)
                && (r == Continue ==>
                      state == CaptureState.Triggering && log == old(log) && armed == old(armed) && triggerMask == 0)
                && (r.Finalized? ==> !abandoned && lastTimestamp >= DeadlineMicros())
    {
      hide Follows, Quiet, Sound, PendingLinked, Live, Closed;
      if state != CaptureState.Armed {
        return Failed(WrongState);
      }
      LiveIsQuiet();
      r := CheckDeadline(267, false);
      if r != Continue {
        return;
      }
      label Decided:
      state := CaptureState.Triggering;
      StaysQuiet@Decided();
      QuietIsLive();
      return Continue;
    }

    /** The one trigger bit that may come next. */
    static function NextTriggerBit(mask: u32): Option<u32> {
      match mask
      case 0 => Some(1)
      case 1 => Some(2)
      case 3 => Some(4)
      case _ => None
    }

    method TriggerWriteSucceeded(bit: u32) returns (r: Outcome)
      requires Valid()
      modifies this, counters
      ensures Continues()
      ensures r == Continue ==> ticks == old(ticks) + 1 && writes == old(writes)
      ensures Valid() && fresh(Repr() - old(Repr())) && frames == old(frames) && spoiled == old(spoiled)
      ensures old(state) != CaptureState.Triggering ==> r == Failed(WrongState) && unchanged(this)
      ensures old(state) == CaptureState.Triggering ==>
                if NextTriggerBit(old(triggerMask)) != Some(bit) then r == Failed(TriggerOrder) && unchanged(this)
                else
                  && WentOnOrEnded(r, 260)
                  && (r == Continue ==>
                        && state == old(state) && log == old(log) && armed == old(armed)
                        && triggerMask == old(triggerMask) + bit)
                  && (r.Finalized? ==> !abandoned && healthy && lastTimestamp >= DeadlineMicros())
    {
      hide Follows, Sound, PendingLinked, Live, Closed;
      if state != CaptureState.Triggering {
        return Failed(WrongState);
      }
      if NextTriggerBit(triggerMask) != Some(bit) {
        return Failed(TriggerOrder);
      }
      LiveIsQuiet();
      // The bit is not yet set, so adding it is setting it.
      triggerMask := triggerMask + bit;
      r := CheckDeadline(260, false);
      if r != Continue {
        return;
      }
      QuietIsLive();
      return Continue;
    }

    method TriggerFailed() returns (r: Outcome)
      requires Valid()
      modifies this, counters
      ensures Continues()
      ensures Valid() && fresh(Repr() - old(Repr())) && frames == old(frames) && spoiled == old(spoiled)
      ensures old(state) != CaptureState.Triggering ==> r == Failed(WrongState) && unchanged(this)
      ensures old(state) == CaptureState.Triggering ==>
                EndedAborted(r, 260, None) && (r.Finalized? ==> !abandoned && healthy)
    {
      hide Sound, Quiet, PendingLinked, Live, Closed;
      if state != CaptureState.Triggering {
        return Failed(WrongState);
      }
      LiveIsQuiet();
      r := Abort(260);
    }

    /** Triggering, with the lifecycle persisted this far and nothing recorded. */
    ghost predicate InGate(phase: Reader.Phase)
      reads this, counters, assembler
    {
      && Quiet()
      && state == CaptureState.Triggering
      && seen.phase == phase
      && ArmedSeen()
      && frames == [] && recordCount == 0 && ValidConfig(config)
    }

    method WriteTriggered() returns (failure: Option<Failure>)
      requires InGate(Reader.Armed)
      modifies this`sink, this`log, this`seen, this`eventCount, this`cumulativePayload, this`eventOrdinal, counters
      modifies this`offered, this`writes, this`healthy
      ensures Continues() && writes == old(writes) + 1 && healthy == (old(healthy) && failure.None?)
      ensures failure.Some? ==> failure.value == SinkFailed && InGate(Reader.Armed)
      ensures failure.None? ==> InGate(Reader.Triggered)
    {
      hide Follows, Filed, GapOnTop, Ledgered, Counted, Reader.Step, Reader.TallyRecords;
      var body := TriggeredBody(armed.value.requested);
      CountedTriggered(seen, lastTimestamp, config, eventCount, cumulativePayload, armed.value.requested);
      failure := LayStage(TRIGGERED, body, offered);
      if failure.None? {
        IsQuiet();
      }
    }

    method WriteRecording() returns (failure: Option<Failure>)
      requires InGate(Reader.Triggered)
      modifies this`sink, this`log, this`seen, this`eventCount, this`cumulativePayload, this`eventOrdinal, counters
      modifies this`offered, this`writes, this`healthy
      ensures Continues() && writes == old(writes) + 1 && healthy == (old(healthy) && failure.None?)
      ensures failure.Some? ==> failure.value == SinkFailed && InGate(Reader.Triggered)
      ensures failure.None? ==> InGate(Reader.Recording)
    {
      hide Follows, Filed, GapOnTop, Ledgered, Counted, Reader.Step, Reader.TallyRecords;
      var body := U64(0);
      CountedRecording(seen, lastTimestamp, config, eventCount, cumulativePayload);
      failure := LayStage(RECORDING, body, offered);
      if failure.None? {
        IsQuiet();
      }
    }

    method WriteRecordingGate() returns (r: Outcome)
      requires Valid()
      modifies this, counters
      ensures Continues()
      ensures r == Continue ==> ticks == old(ticks) + 4 && writes == old(writes) + 3
      ensures Valid() && fresh(Repr() - old(Repr())) && frames == old(frames) && spoiled == old(spoiled)
      ensures old(state) != CaptureState.Triggering ==> r == Failed(WrongState) && unchanged(this)
      ensures old(state) == CaptureState.Triggering && old(triggerMask) != 7 ==>
                r == Failed(TriggerOrder) && unchanged(this)
      ensures old(state) == CaptureState.Triggering && old(triggerMask) == 7 ==>
                && WentOnOrEnded(r, 260)
                && (r == Continue ==>
                      state == CaptureState.Recording && pending == None && frames == [] && recordCount == 0)
                && (r.Finalized? ==> !abandoned && (lastTimestamp >= DeadlineMicros() || !healthy))
    {
      hide Follows, Sound, Quiet, PendingLinked, Live, Closed;
      if state != CaptureState.Triggering {
        return Failed(WrongState);
      }
      if triggerMask != 7 {
        return Failed(TriggerOrder);
      }
      LiveIsQuiet();
      r := PassGate();
    }

    /** Three triggers are sent: the Triggered event, and then Recording. */
    method PassGate() returns (r: Outcome)
      requires InGate(Reader.Armed) && healthy
      modifies this, counters
      ensures Continues()
      ensures r == Continue ==> ticks == old(ticks) + 4 && writes == old(writes) + 3
      ensures Valid() && fresh(Repr() - old(Repr())) && frames == old(frames) && spoiled == old(spoiled)
      ensures WentOnOrEnded(r, 260)
      ensures r == Continue ==> state == CaptureState.Recording && pending == None && frames == [] && recordCount == 0
      ensures r.Finalized? ==> !abandoned && (lastTimestamp >= DeadlineMicros() || !healthy)
    {
      hide Follows, Reading, SurfaceSeen, ArmedSeen, Sound, Quiet, PendingLinked, Live, Closed, InRecording;
      hide AfterFrame;
      r := CheckDeadline(260, false);
      if r != Continue {
        return;
      }
      var failure := WriteTriggered();
      if failure.Some? {
        r := Abort(260);
        return;
      }
      r := EnterRecording();
    }

    /** The second half of the gate: from the persisted Triggered event to the Recording state. */
    method EnterRecording() returns (r: Outcome)
      requires InGate(Reader.Triggered) && healthy
      modifies this, counters
      ensures Continues()
      ensures r == Continue ==> ticks == old(ticks) + 3 && writes == old(writes) + 2
      ensures Valid() && fresh(Repr() - old(Repr())) && frames == old(frames) && spoiled == old(spoiled)
      ensures WentOnOrEnded(r, 260)
      ensures r == Continue ==> state == CaptureState.Recording && pending == None && frames == [] && recordCount == 0
      ensures r.Finalized? ==> !abandoned && (lastTimestamp >= DeadlineMicros() || !healthy)
    {
      hide Follows, Reading, ArmedSeen, Sound, Quiet, PendingLinked, Live, Closed, InRecording, AfterFrame;
      r := CheckDeadline(260, false);
      if r != Continue {
        return;
      }
      var timestamp := Now();
      if timestamp.None? {
        r := FailClosed(ClockFailed);
        return;
      }
      r := LayRecording();
    }

    method LayRecording() returns (r: Outcome)
      requires InGate(Reader.Triggered) && healthy
      modifies this, counters
      ensures Continues()
      ensures r == Continue ==> ticks == old(ticks) + 1 && writes == old(writes) + 2
      ensures Valid() && fresh(Repr() - old(Repr())) && frames == old(frames) && spoiled == old(spoiled)
      ensures WentOnOrEnded(r, 260)
      ensures r == Continue ==> state == CaptureState.Recording && pending == None && frames == [] && recordCount == 0
      ensures r.Finalized? ==> !abandoned && (lastTimestamp >= DeadlineMicros() || !healthy)
    {
      hide Follows, Sound, Quiet, PendingLinked, Live, Closed, InRecording, AfterFrame;
      var failure := WriteRecording();
      if failure.Some? {
        r := Abort(260);
        return;
      }
      r := ConfirmRecording();
    }

    /** The Recording event is flushed, and the deadline sampled once more, before the state changes. */
    method ConfirmRecording() returns (r: Outcome)
      requires InGate(Reader.Recording) && healthy
      modifies this, counters
      ensures Continues()
      ensures r == Continue ==> ticks == old(ticks) + 1 && writes == old(writes) + 1
      ensures Valid() && fresh(Repr() - old(Repr())) && frames == old(frames) && spoiled == old(spoiled)
      ensures WentOnOrEnded(r, 260)
      ensures r == Continue ==> state == CaptureState.Recording && pending == None && frames == [] && recordCount == 0
      ensures r.Finalized? ==> !abandoned && (lastTimestamp >= DeadlineMicros() || !healthy)
    {
      hide Follows, SurfaceSeen, Sound, PendingLinked, Live, Closed;
      var flushed := SinkAccepts();
      if !flushed {
        r := Abort(260);
        return;
      }
      r := CheckDeadline(260, false);
      if r != Continue {
        return;
      }
      label Decided:
      state := CaptureState.Recording;
      StaysQuiet@Decided();
      QuietIsLive();
      return Continue;
    }

    // ---------- While recording ----------

    /**
     A record that was refused may have filled the record limit without ending the capture. The next frame
     then ends it Clean, even while a record is pending.
     */
    ghost predicate EndedAtLimit(r: Outcome, before: seq<CaptureRecord>, wasPending: bool)
      reads this
    {
      spoiled && |before| == config.recordLimit && EndedClean(r, 2) && abandoned == wasPending
    }

    method AcceptNonMvs() returns (r: Outcome)
      requires Valid()
      modifies this, counters
      ensures Continues()
      ensures Valid() && fresh(Repr() - old(Repr()))
      ensures frames == old(frames) && spoiled == old(spoiled)
      ensures old(state) != CaptureState.Recording ==> r == Failed(WrongState) && unchanged(this)
      ensures old(state) == CaptureState.Recording ==>
                && (r.Failed? ==> Broke(r))
                && (!r.Failed? ==> seen.records == old(seen.records) && sourceFrameCount == old(sourceFrameCount))
                && (!r.Failed? && !spoiled ==> !abandoned)
                && (r == Continue ==>
                      && state == old(state) && pending == old(pending) && sink == old(sink)
                      && ticks == old(ticks) + 1 && lastTimestamp < DeadlineMicros())
                && (r.Finalized? ==>
                      if lastTimestamp < DeadlineMicros() then EndedAtLimit(r, old(seen.records), old(pending).Some?)
                      else if old(pending).Some? then EndedAborted(r, 263, Some(old(PendingGap(6))))
                      else EndedClean(r, 1))
    {
      hide Sound, Quiet, PendingLinked, Live, Closed;
      if state != CaptureState.Recording {
        return Failed(WrongState);
      }
      LiveIsRecording();
      LiveIsPhase();
      SoundCounts();
      r := FrameDone();
    }

    /** The frame with this ordinal is in the ledger and not yet looked at. */
    ghost predicate InFrame(ordinal: u64)
      reads this, counters, assembler
    {
      && InRecording()
      && assembler.Valid()
      && ordinal + 1 == sourceFrameCount
      && if pending.None? then assembler.pending == None && Recorded() == ordinal
         else
           var p := pending.value;
           && p.first == Recorded() && p.first <= p.last && p.last + 1 == ordinal
           && p.accepted < p.total <= MAX_PAYLOAD
           && cumulativePayload + p.total <= MAX_CUMULATIVE_PAYLOAD
           && p.startedAt <= lastTimestamp
           && IsFragmentRun(frames, p.first, p.last, p.rect, p.total)
           && var joined := Joined(frames[p.first..ordinal]);
           && |joined| == p.accepted
           && assembler.pending == Some(PendingRecord(p.rect, p.total, joined))
    }

    /** Gives the frame the next source ordinal and enters it in the ledger. */
    method AssignSourceOrdinal(ghost frame: MvsFrame) returns (ordinal: Option<u64>)
      requires Live() && state == CaptureState.Recording && !abandoned
      modifies this`sourceFrameCount, this`frames
      ensures ordinal.None? ==> unchanged(this) && sourceFrameCount == MAX_U64
      ensures ordinal.Some? ==>
                && ordinal.value == old(sourceFrameCount) == |old(frames)|
                && sourceFrameCount == ordinal.value + 1
                && frames == old(frames) + [frame]
                && InFrame(ordinal.value)
    {
      hide Joined, Filed, GapOnTop, EndsWith, Counted, Ledgered, Reader.TallyRecords, MadeOf;
      if sourceFrameCount == MAX_U64 {
        return None;
      }
      ordinal := Some(sourceFrameCount);
      sourceFrameCount := sourceFrameCount + 1;
      LedgeredFrame(seen.records, frames, sourceFrameCount - 1, type0, type1, type2, frame);
      frames := frames + [frame];
      if pending.Some? {
        assert frames[pending.value.first..ordinal.value] == old(frames)[pending.value.first..];
      }
    }

    /** Reason 1; with a record pending, the terminal it writes leaves that record's frames unaccounted for. */
    method RejectMvsEnvelope(rect: Option<MvsRect>) returns (r: Outcome)
      requires Valid()
      modifies this, counters
      ensures Continues()
      ensures Valid() && fresh(Repr() - old(Repr())) && spoiled == old(spoiled)
      ensures old(state) != CaptureState.Recording ==> r == Failed(WrongState) && unchanged(this)
      ensures old(state) == CaptureState.Recording ==>
                if old(sourceFrameCount) == MAX_U64 then RanOut(r)
                else
                  && (r.Failed? && r.failure == LimitExceeded ==> old(spoiled))
                  && (r.Finalized? ==> abandoned == old(pending).Some?)
                  && frames == old(frames) + [RejectedEnvelope(rect)]
                  && EndedAborted(r, 262, Some(MakeGap(
                       1, old(sourceFrameCount), old(sourceFrameCount), 0, 0,
                       if rect.Some? then rect.value else ZERO_RECT)))
    {
      hide Follows, Reading, Sound, Live, Quiet, Closed, PendingLinked, Joined, IsFragmentRun, Filed, GapOnTop;
      hide EndsWith, Counted, Ledgered, Reader.TallyRecords;
      if state != CaptureState.Recording {
        return Failed(WrongState);
      }
      var ordinal := AssignSourceOrdinal(RejectedEnvelope(rect));
      if ordinal.None? {
        r := FailClosed(OrdinalOverflow);
        return;
      }
      r := EmitGap(MakeGap(1, ordinal.value, ordinal.value, 0, 0, if rect.Some? then rect.value else ZERO_RECT), 262);
    }

    /** The gap a begin frame causes, if any, in the order the writer checks. */
    ghost function BeginGap(rect: MvsRect, total: u32, first: seq<u8>, ordinal: u64): Option<Gap>
      reads this
    {
      if pending.Some? then
        var p := pending.value;
        Some(MakeGap(10, p.first, ordinal, p.total, p.accepted, p.rect))
      else if total == 0 || total > MAX_PAYLOAD then Some(MakeGap(2, ordinal, ordinal, total, 0, rect))
      else if |first| > total then Some(MakeGap(3, ordinal, ordinal, total, 0, rect))
      else if cumulativePayload + total > MAX_CUMULATIVE_PAYLOAD
      then Some(MakeGap(11, ordinal, ordinal, total, 0, rect))
      else None
    }

    /** The gap of a begin frame names its first fault: an early begin, the length, the first chunk, the budget. */
    lemma BeginGapReasons(rect: MvsRect, total: u32, first: seq<u8>, ordinal: u64)
      ensures var gap := BeginGap(rect, total, first, ordinal);
              var possible := 1 <= total <= MAX_PAYLOAD;
              && (gap.None? <==>
                    pending == None && possible && |first| <= total
                    && cumulativePayload + total <= MAX_CUMULATIVE_PAYLOAD)
              && (gap.Some? ==>
                    var g := gap.value;
                    && g.last == ordinal && GapStage(g.reason) == Ok(g.stage)
                    && (g.reason == 10 <==> pending.Some?)
                    && (g.reason == 2 <==> pending == None && !possible)
                    && (g.reason == 3 <==> pending == None && possible && |first| > total)
                    && (g.reason == 11 <==> pending == None && possible && |first| <= total)
                    && (if pending.Some? then
                          && g.first == pending.value.first && g.declaredTotal == pending.value.total
                          && g.accumulated == pending.value.accepted && g.rect == pending.value.rect
                        else
                          g.first == ordinal && g.declaredTotal == total && g.accumulated == 0 && g.rect == rect))
    {
    }

    /** A continuation without a record is a gap of its own; one that overruns ends the record. */
    lemma ContinuationGapReasons(chunk: seq<u8>, ordinal: u64)
      ensures var gap := ContinuationGap(chunk, ordinal);
              && (gap.None? <==> pending.Some? && pending.value.accepted + |chunk| <= pending.value.total)
              && (gap.Some? ==>
                    var g := gap.value;
                    && g.last == ordinal && GapStage(g.reason) == Ok(g.stage)
                    && (if pending == None then
                          && g.reason == 9 && g.first == ordinal && g.declaredTotal == g.accumulated == 0
                          && g.rect == ZERO_RECT
                        else
                          && g.reason == 4 && g.first == pending.value.first && g.declaredTotal == pending.value.total
                          && g.accumulated == pending.value.accepted && g.rect == pending.value.rect))
    {
    }

    /** The record made of the frames first..last was written, and capturing went on or ended cleanly. */
    ghost predicate RecordWritten(r: Outcome, before: seq<CaptureRecord>, record: CaptureRecord,
                                  under: Option<ArmedConfig>)
      reads this
    {
      && under.Some? && record.record.payload != [] && Reader.ValidRecordShape(record.record, under.value.committed)
      && pending == None && !abandoned
      && seen.records == before + [record]
      && (r == Continue ==>
            && state == CaptureState.Recording && lastTimestamp < DeadlineMicros()
            && |before| + 1 != config.recordLimit && (spoiled || |before| + 1 < config.recordLimit))
      && (r.Finalized? ==>
            && EndedClean(r, if lastTimestamp >= DeadlineMicros() then 1 else 2)
            && (lastTimestamp < DeadlineMicros() ==> |before| + 1 == config.recordLimit))
    }

    /**
     The record was written and then refused. The capture goes on recording, with the record counted and nothing
     pending, exactly when it is a type-2 record with a rectangle.
     */
    ghost predicate RefusedRecord(r: Outcome, before: seq<CaptureRecord>, record: CaptureRecord,
                                  under: Option<ArmedConfig>)
      reads this
    {
      && under.Some? && record.record.payload != [] && !Reader.ValidRecordShape(record.record, under.value.committed)
      && r == Failed(InvalidRecord)
      && spoiled
      && state == (if ReturnsEarly(record.record) then CaptureState.Recording else Finalizing)
      && (state == CaptureState.Recording ==>
            seen.records == before + [record] && recordCount == |before| + 1 && pending == None)
    }

    /** The record stays pending with this provenance, or the deadline caught it. */
    ghost predicate StayedPending(r: Outcome, before: seq<CaptureRecord>, p: PendingProvenance)
      reads this
    {
      && seen.records == before
      && (r == Continue ==>
            !abandoned && state == CaptureState.Recording && pending == Some(p) && lastTimestamp < DeadlineMicros())
      && (r.Finalized? ==>
            if lastTimestamp < DeadlineMicros() then EndedAtLimit(r, before, true)
            else !abandoned && EndedAborted(r, 263, Some(MakeGap(6, p.first, p.last, p.total, p.accepted, p.rect))))
    }

    ghost function Was(): Before
      reads this
    {
      Before(seen.records, armed, spoiled)
    }

    /** A frame that causes a gap: unless something broke, the gap and its terminal are all that is written. */
    ghost predicate GapAnswer(r: Outcome, was: Before, gap: Gap)
      reads this
    {
      && EndedAborted(r, 262, Some(gap)) && spoiled == was.spoiled
      && (r.Finalized? ==> seen.records == was.records && (!spoiled ==> !abandoned))
    }

    /** A frame that completes its record: unless something broke, it is written, and refused if it is invalid. */
    ghost predicate RecordAnswer(r: Outcome, was: Before, record: CaptureRecord)
      reads this
    {
      if r == Failed(InvalidRecord) then RefusedRecord(r, was.records, record, was.under)
      else
        && spoiled == was.spoiled
        && if r.Failed? then Broke(r) else RecordWritten(r, was.records, record, was.under)
    }

    /** A frame that leaves its record incomplete: unless something broke, the record stays pending. */
    ghost predicate HeldAnswer(r: Outcome, was: Before, next: Option<PendingProvenance>)
      reads this
    {
      && spoiled == was.spoiled
      && if r.Failed? then Broke(r)
         else
           next.Some? && StayedPending(r, was.records, next.value) && (r.Finalized? && !spoiled ==> !abandoned)
    }

    /** What an MVS frame with an ordinal does. */
    ghost predicate Answered(r: Outcome, was: Before, gap: Option<Gap>, complete: bool, record: CaptureRecord,
                             next: Option<PendingProvenance>)
      reads this
    {
      if gap.Some? then GapAnswer(r, was, gap.value)
      else if complete then RecordAnswer(r, was, record)
      else HeldAnswer(r, was, next)
    }

    /** There is no ordinal left for the frame. */
    twostate predicate RanOut(r: Outcome)
      reads this
    {
      && r == Failed(OrdinalOverflow) && state == Finalizing
      && sourceFrameCount == old(sourceFrameCount) == MAX_U64 && frames == old(frames) && spoiled == old(spoiled)
    }

    /** The record a begin frame leaves pending; its lifetime starts with a reading of its own. */
    static function BeginNext(ordinal: u64, rect: MvsRect, total: u32, first: seq<u8>, startedAt: Option<u64>)
      : Option<PendingProvenance>
    {
      if startedAt.None? || |first| > total then None
      else Some(PendingProvenance(ordinal, ordinal, total, |first|, rect, startedAt.value))
    }

    method AcceptMvsBegin(rect: MvsRect, total: u32, first: seq<u8>) returns (r: Outcome)
      requires Valid()
      modifies this, counters, assembler
      ensures Continues() && (r == Continue ==> ticks > old(ticks))
      ensures Valid() && fresh(Repr() - old(Repr()))
      ensures old(state) != CaptureState.Recording ==> r == Failed(WrongState) && unchanged(this)
      ensures old(state) == CaptureState.Recording ==>
                var ordinal := old(sourceFrameCount);
                if ordinal == MAX_U64 then RanOut(r)
                else
                  && frames == old(frames) + [Begin(rect, total, first)]
                  && Answered(r, old(Was()), old(BeginGap(rect, total, first, sourceFrameCount)), |first| == total,
                              CaptureRecord(0, ordinal, ordinal, MvsRecord(rect, first)),
                              BeginNext(ordinal, rect, total, first, Reading(old(ticks), old(lastTimestamp))))
    {
      hide Follows, Answered, Sound, Closed, Live, Quiet, PendingLinked, InFrame, BeginNext, Filed, GapOnTop;
      hide EndsWith, Counted, Ledgered, Reader.TallyRecords, Joined;
      if state != CaptureState.Recording {
        return Failed(WrongState);
      }
      var taken := AssignSourceOrdinal(Begin(rect, total, first));
      if taken.None? {
        r := FailClosed(OrdinalOverflow);
        return;
      }
      r := BeginFrame(taken.value, rect, total, first);
    }

    /** A begin frame with its ordinal: its gap, or the start of a record. */
    method BeginFrame(ordinal: u64, rect: MvsRect, total: u32, first: seq<u8>) returns (r: Outcome)
      requires InFrame(ordinal) && frames[ordinal] == Begin(rect, total, first)
      modifies this, counters, assembler
      ensures Continues() && (r == Continue ==> ticks > old(ticks))
      ensures Valid() && fresh(Repr() - old(Repr())) && frames == old(frames)
      ensures Answered(r, old(Was()), old(BeginGap(rect, total, first, ordinal)), |first| == total,
                       CaptureRecord(0, ordinal, ordinal, MvsRecord(rect, first)),
                       BeginNext(ordinal, rect, total, first, Reading(old(ticks), old(lastTimestamp))))
    {
      hide Follows, Reading, Sound, Closed, Live, Quiet, PendingLinked, BeginNext, Filed, GapOnTop, EndsWith, Counted;
      hide Ledgered, Reader.TallyRecords, Joined, IsFragmentRun;
      if pending.Some? {
        var p := pending.value;
        r := EmitGap(MakeGap(10, p.first, ordinal, p.total, p.accepted, p.rect), 262);
        return;
      }
      if total == 0 || total > MAX_PAYLOAD {
        r := EmitGap(MakeGap(2, ordinal, ordinal, total, 0, rect), 262);
        return;
      }
      if |first| > total {
        r := EmitGap(MakeGap(3, ordinal, ordinal, total, 0, rect), 262);
        return;
      }
      if cumulativePayload + total > MAX_CUMULATIVE_PAYLOAD {
        r := EmitGap(MakeGap(11, ordinal, ordinal, total, 0, rect), 262);
        return;
      }
      r := StartRecord(ordinal, rect, total, first);
    }

    /** The accepting part of a begin frame. */
    method StartRecord(ordinal: u64, rect: MvsRect, total: u32, first: seq<u8>) returns (r: Outcome)
      requires InRecording() && assembler.Valid() && pending == None && assembler.pending == None
      requires ordinal == Recorded() && ordinal + 1 == sourceFrameCount && frames[ordinal] == Begin(rect, total, first)
      requires 1 <= total <= MAX_PAYLOAD && |first| <= total && cumulativePayload + total <= MAX_CUMULATIVE_PAYLOAD
      modifies this, counters, assembler
      ensures Continues() && (r == Continue ==> ticks > old(ticks))
      ensures Valid() && fresh(Repr() - old(Repr())) && frames == old(frames)
      ensures Answered(r, old(Was()), None, |first| == total,
                       CaptureRecord(0, ordinal, ordinal, MvsRecord(rect, first)),
                       BeginNext(ordinal, rect, total, first, Reading(old(ticks), old(lastTimestamp))))
    {
      hide Follows, Reading, Sound, Live, Quiet, Closed, AfterFrame, Reader.TallyRecords, Joined, IsFragmentRun;
      SoundCounts();
      LastFrameAlone(frames, ordinal);
      var startedAt := Now();
      if startedAt.None? {
        r := FailClosed(ClockFailed);
        return;
      }
      var assembled := assembler.Begin(rect, total, first);
      // The writer has checked everything the assembler checks.
      assert assembled.Ok?;
      match assembled.value {
        case Some(record) =>
          r := CompleteRecord(ordinal, ordinal, record);
        case None =>
          r := HoldRecord(PendingProvenance(ordinal, ordinal, total, |first|, rect, startedAt.value));
      }
    }

    /** The record is pending from now on; the deadline and the record limit are looked at as after any frame. */
    method HoldRecord(p: PendingProvenance) returns (r: Outcome)
      requires InRecording() && assembler.Valid() && pending == None && p.startedAt == lastTimestamp
      requires p.first == p.last == Recorded() && p.last + 1 == sourceFrameCount
      requires p.accepted < p.total <= MAX_PAYLOAD && cumulativePayload + p.total <= MAX_CUMULATIVE_PAYLOAD
      requires IsFragmentRun(frames, p.first, p.last, p.rect, p.total)
      requires var joined := Joined(frames[p.first..]);
               |joined| == p.accepted && assembler.pending == Some(PendingRecord(p.rect, p.total, joined))
      modifies this, counters, assembler
      ensures Continues()
      ensures Valid() && fresh(Repr() - old(Repr())) && frames == old(frames)
      ensures HeldAnswer(r, old(Was()), Some(p))
    {
      hide Follows, Reading, Sound, Live, Quiet, Closed, AfterFrame, Reader.TallyRecords, Joined, IsFragmentRun;
      pending := Some(p);
      StillPending();
      SoundCounts();
      r := PostFrame(p.startedAt);
    }

    /** The gap a continuation frame causes, if any. */
    ghost function ContinuationGap(chunk: seq<u8>, ordinal: u64): Option<Gap>
      reads this
    {
      if pending.None? then Some(MakeGap(9, ordinal, ordinal, 0, 0, ZERO_RECT))
      else
        var p := pending.value;
        if p.accepted + |chunk| > p.total then Some(MakeGap(4, p.first, ordinal, p.total, p.accepted, p.rect))
        else None
    }

    /** The bytes of the pending record so far. */
    ghost function PendingPayload(): seq<u8>
      reads this
    {
      if pending.Some? && pending.value.first <= |frames| then Joined(frames[pending.value.first..]) else []
    }

    /** The record that a continuation extends, with the bytes it then has. */
    static function Extended(p: Option<PendingProvenance>, ordinal: u64, payload: seq<u8>): CaptureRecord {
      if p.None? then CaptureRecord(0, ordinal, ordinal, MvsRecord(ZERO_RECT, []))
      else CaptureRecord(0, p.value.first, ordinal, MvsRecord(p.value.rect, payload))
    }

    /** And what is pending then, unless it has become complete. */
    static function ContinuationNext(p: Option<PendingProvenance>, ordinal: u64, payload: seq<u8>)
      : Option<PendingProvenance>
    {
      if p.None? || |payload| > p.value.total then None
      else Some(p.value.(last := ordinal, accepted := |payload|))
    }

    method AcceptMvsContinuation(chunk: seq<u8>) returns (r: Outcome)
      requires Valid()
      modifies this, counters, assembler
      ensures Continues() && (r == Continue ==> ticks > old(ticks))
      ensures Valid() && fresh(Repr() - old(Repr()))
      ensures old(state) != CaptureState.Recording ==> r == Failed(WrongState) && unchanged(this)
      ensures old(state) == CaptureState.Recording ==>
                var ordinal, p, payload := old(sourceFrameCount), old(pending), old(PendingPayload()) + chunk;
                if ordinal == MAX_U64 then RanOut(r)
                else
                  && frames == old(frames) + [Continuation(chunk)]
                  && Answered(r, old(Was()), old(ContinuationGap(chunk, sourceFrameCount)),
                              p.Some? && |payload| == p.value.total, Extended(p, ordinal, payload),
                              ContinuationNext(p, ordinal, payload))
    {
      hide Answered, Sound, Closed, Live, Quiet, PendingLinked, InFrame, Filed, GapOnTop, EndsWith, Counted, Ledgered;
      hide Reader.TallyRecords, Joined;
      if state != CaptureState.Recording {
        return Failed(WrongState);
      }
      PendingIsBefore();
      var taken := AssignSourceOrdinal(Continuation(chunk));
      if taken.None? {
        r := FailClosed(OrdinalOverflow);
        return;
      }
      if pending.Some? {
        JoinedSnoc(old(frames), pending.value.first, Continuation(chunk));
      }
      r := ContinuationFrame(taken.value, chunk);
    }

    lemma PendingIsBefore()
      requires Live()
      ensures pending.Some? ==> pending.value.first <= |frames|
    {
      hide Filed, GapOnTop, Counted, Ledgered, Reader.TallyRecords, Joined;
    }

    /** A continuation with its ordinal: its gap, or more of the pending record. */
    method ContinuationFrame(ordinal: u64, chunk: seq<u8>) returns (r: Outcome)
      requires InFrame(ordinal) && frames[ordinal] == Continuation(chunk)
      modifies this, counters, assembler
      ensures Continues() && (r == Continue ==> ticks > old(ticks))
      ensures Valid() && fresh(Repr() - old(Repr())) && frames == old(frames)
      ensures var p, payload := old(pending), old(PendingPayload());
              Answered(r, old(Was()), old(ContinuationGap(chunk, ordinal)), p.Some? && |payload| == p.value.total,
                       Extended(p, ordinal, payload), ContinuationNext(p, ordinal, payload))
    {
      hide Follows, Reading, Sound, Closed, Live, Quiet, PendingLinked, ContinuationNext, Extended, Filed, GapOnTop;
      hide EndsWith, Counted, Ledgered, Reader.TallyRecords, Joined, IsFragmentRun;
      if pending.None? {
        r := EmitGap(MakeGap(9, ordinal, ordinal, 0, 0, ZERO_RECT), 262);
        return;
      }
      var p := pending.value;
      if |chunk| > p.total - p.accepted {
        r := EmitGap(MakeGap(4, p.first, ordinal, p.total, p.accepted, p.rect), 262);
        return;
      }
      r := ExtendRecord(ordinal, chunk);
    }

    /** The accepting part of a continuation frame, already in the ledger. */
    method ExtendRecord(ordinal: u64, chunk: seq<u8>) returns (r: Outcome)
      requires InFrame(ordinal) && frames[ordinal] == Continuation(chunk)
      requires pending.Some? && pending.value.accepted + |chunk| <= pending.value.total
      modifies this, counters, assembler
      ensures Continues() && (r == Continue ==> ticks > old(ticks))
      ensures Valid() && fresh(Repr() - old(Repr())) && frames == old(frames)
      ensures var p, payload := old(pending), old(PendingPayload());
              Answered(r, old(Was()), None, |payload| == p.value.total, Extended(p, ordinal, payload),
                       ContinuationNext(p, ordinal, payload))
    {
      hide Sound, Live, Quiet, Closed, AfterFrame, Reader.TallyRecords, Joined;
      SoundCounts();
      var p := pending.value;
      JoinedSnoc(frames[..ordinal], p.first, Continuation(chunk));
      assert frames[..ordinal] + [frames[ordinal]] == frames;
      assert frames[..ordinal][p.first..] == frames[p.first..ordinal];
      var assembled := assembler.PushContinuation(chunk);
      // The writer has checked everything the assembler checks.
      assert assembled.Ok?;
      match assembled.value {
        case Some(record) =>
          pending := None;
          assert frames[p.first..ordinal + 1] == frames[p.first..];
          r := CompleteRecord(p.first, ordinal, record);
        case None =>
          pending := Some(p.(last := ordinal, accepted := p.accepted + |chunk|));
          StillPending();
          r := FrameDone();
      }
    }

    static predicate Expired(p: PendingProvenance, now: u64) {
      now >= p.startedAt && now - p.startedAt >= INCOMPLETE_RECORD_MICROS
    }

    /** What polling answers, as its reading decides: the deadline first, then the lifetime of the record. */
    ghost predicate Polled(r: Outcome, now: Option<u64>, was: Option<PendingProvenance>)
      reads this
    {
      if now.None? then r == Failed(ClockFailed)
      else if now.value >= DeadlineMicros() then
        if was.None? then EndedClean(r, 1) else EndedAborted(r, 263, Some(GapOf(was.value, 6)))
      else if was.Some? && Expired(was.value, now.value) then EndedAborted(r, 262, Some(GapOf(was.value, 5)))
      else r == Continue
    }

    method PollRecording() returns (r: Outcome)
      requires Valid()
      modifies this, counters
      ensures Continues()
      ensures Valid() && fresh(Repr() - old(Repr()))
      ensures frames == old(frames) && spoiled == old(spoiled)
      ensures old(state) != CaptureState.Recording ==> r == Failed(WrongState) && unchanged(this)
      ensures old(state) == CaptureState.Recording ==>
                && (r.Failed? ==> Broke(r))
                && (!r.Failed? ==> seen.records == old(seen.records) && !abandoned)
                && (r == Continue ==>
                      && state == old(state) && pending == old(pending) && sink == old(sink)
                      && lastTimestamp < DeadlineMicros()
                      && (pending.Some? ==> !Expired(pending.value, lastTimestamp)))
                && Polled(r, Reading(old(ticks), old(lastTimestamp)), old(pending))
                && (r == Continue ==>
                      ticks == old(ticks) + 1 && lastTimestamp == Reading(old(ticks), old(lastTimestamp)).value)
                && (r.Finalized? ==>
                      if old(pending).None? then lastTimestamp >= DeadlineMicros() && EndedClean(r, 1)
                      else
                        || (lastTimestamp >= DeadlineMicros() && EndedAborted(r, 263, Some(old(PendingGap(6)))))
                        || (&& Expired(old(pending).value, lastTimestamp)
                            && EndedAborted(r, 262, Some(old(PendingGap(5))))))
    {
      hide ArmedSeen, Reading, Sound, Quiet, PendingLinked, Live, Closed, MayEnd, Accounted, InRecording, AfterFrame;
      hide GapOf;
      if state != CaptureState.Recording {
        return Failed(WrongState);
      }
      var now := Now();
      if now.None? {
        r := FailClosed(ClockFailed);
        return;
      }
      r := PollAt(now.value);
    }

    /** The deadline and the lifetime of the pending record, at this time. */
    method PollAt(now: u64) returns (r: Outcome)
      requires Live() && state == CaptureState.Recording && !abandoned && now == lastTimestamp
      modifies this, counters
      ensures Continues()
      ensures Valid() && fresh(Repr() - old(Repr())) && frames == old(frames) && spoiled == old(spoiled)
      ensures lastTimestamp >= now
      ensures r.Failed? ==> Broke(r)
      ensures !r.Failed? ==> seen.records == old(seen.records) && !abandoned
      ensures Polled(r, Some(now), old(pending))
      ensures r == Continue ==> unchanged(this) && unchanged(counters)
    {
      hide Sound, Quiet, PendingLinked, Live, Closed, MayEnd, Accounted, InRecording, AfterFrame, GapOf;
      LiveIsRecording();
      LiveIsPhase();
      if now >= DeadlineMicros() {
        if pending.Some? {
          r := EmitPendingGap(6, 263);
        } else {
          QuietMayEndClean(1);
          r := FinalizeAt(true, 1, now);
        }
        return;
      }
      if pending.Some? && now - pending.value.startedAt >= INCOMPLETE_RECORD_MICROS {
        r := EmitPendingGap(5, 262);
        return;
      }
      return Continue;
    }

    /** Polls first; what the clock lets pass is a read failure, with the gap of the pending record. */
    method ReadFailed() returns (r: Outcome)
      requires Valid()
      modifies this, counters
      ensures Continues()
      ensures Valid() && fresh(Repr() - old(Repr()))
      ensures frames == old(frames) && spoiled == old(spoiled)
      ensures old(state) != CaptureState.Recording ==> r == Failed(WrongState) && unchanged(this)
      ensures old(state) == CaptureState.Recording ==>
                var now, was := Reading(old(ticks), old(lastTimestamp)), old(pending);
                && (r.Failed? ==> Broke(r))
                && (!r.Failed? ==> seen.records == old(seen.records) && !abandoned)
                && (if && now.Some? && now.value < DeadlineMicros()
                       && (was.Some? ==> !Expired(was.value, now.value))
                    then EndedAborted(r, 261, if was.Some? then Some(GapOf(was.value, 7)) else None)
                    else r != Continue && Polled(r, now, was))
                && (r.Finalized? && selectedTerminal in {Some(1), Some(263)} ==> lastTimestamp >= DeadlineMicros())
    {
      hide Sound, Quiet, PendingLinked, Live, Closed, InRecording, AfterFrame;
      r := PollRecording();
      if r != Continue {
        return;
      }
      LiveIsRecording();
      LiveIsPhase();
      if pending.Some? {
        r := EmitPendingGap(7, 261);
      } else {
        r := Abort(261);
      }
    }

    /** Ends an idle capture with this code, or a pending one with its gap first. */
    method EndWith(gapReason: u16, code: u16) returns (r: Outcome)
      requires Live() && state == CaptureState.Recording && !abandoned
      requires (gapReason == 8 && code == 266) || (gapReason == 12 && code == 265)
      modifies this, counters
      ensures Continues()
      ensures Valid() && fresh(Repr() - old(Repr())) && frames == old(frames) && spoiled == old(spoiled)
      ensures EndedAborted(r, code, if old(pending).Some? then Some(old(PendingGap(gapReason))) else None)
      ensures r.Finalized? ==> seen.records == old(seen.records) && !abandoned
    {
      hide Sound, Quiet, PendingLinked, Live, Closed, InRecording, AfterFrame;
      LiveIsRecording();
      LiveIsPhase();
      if pending.Some? {
        r := EmitPendingGap(gapReason, code);
      } else {
        r := Abort(code);
      }
    }

    method GenerationTransitionAttempted() returns (r: Outcome)
      requires Valid()
      modifies this, counters
      ensures Continues()
      ensures Valid() && fresh(Repr() - old(Repr())) && frames == old(frames) && spoiled == old(spoiled)
      ensures old(state) != CaptureState.Recording ==> r == Failed(WrongState) && unchanged(this)
      ensures old(state) == CaptureState.Recording ==>
                && EndedAborted(r, 266, if old(pending).Some? then Some(old(PendingGap(8))) else None)
                && (r.Finalized? ==> seen.records == old(seen.records) && !abandoned)
    {
      if state != CaptureState.Recording {
        return Failed(WrongState);
      }
      r := EndWith(8, 266);
    }

    method Cancel() returns (r: Outcome)
      requires Valid()
      modifies this, counters
      ensures Continues()
      ensures Valid() && fresh(Repr() - old(Repr())) && frames == old(frames) && spoiled == old(spoiled)
      ensures old(state) in {CaptureState.Finalizing, CaptureState.Clean, CaptureState.Aborted} ==>
                r == Failed(WrongState) && unchanged(this)
      ensures old(state) !in {CaptureState.Finalizing, CaptureState.Clean, CaptureState.Aborted} ==>
                && EndedAborted(r, 265, if old(pending).Some? then Some(old(PendingGap(12))) else None)
                && (r.Finalized? ==> seen.records == old(seen.records) && !abandoned)
    {
      hide Sound, Quiet, PendingLinked, Live, Closed;
      if state in {CaptureState.Finalizing, CaptureState.Clean, CaptureState.Aborted} {
        return Failed(WrongState);
      }
      if state == CaptureState.Recording {
        r := EndWith(12, 265);
      } else {
        LiveIsQuiet();
        r := Abort(265);
      }
    }

    /** Reason 264, or 260 while triggering; with a record pending it leaves that record's frames unaccounted for. */
    method OutputFailed() returns (r: Outcome)
      requires Valid()
      modifies this, counters
      ensures Continues()
      ensures Valid() && fresh(Repr() - old(Repr())) && frames == old(frames) && spoiled == old(spoiled)
      ensures old(state) in {CaptureState.Finalizing, CaptureState.Clean, CaptureState.Aborted} ==>
                r == Failed(WrongState) && unchanged(this)
      ensures old(state) !in {CaptureState.Finalizing, CaptureState.Clean, CaptureState.Aborted} ==>
                && EndedAborted(r, if old(state) == CaptureState.Triggering then 260 else 264, None)
                && (r.Finalized? ==> seen.records == old(seen.records) && abandoned == old(pending).Some?)
    {
      hide Follows, Filed, GapOnTop, EndsWith, Counted, Ledgered, Reader.TallyRecords, CanEnd;
      if state in {CaptureState.Finalizing, CaptureState.Clean, CaptureState.Aborted} {
        return Failed(WrongState);
      }
      MayAbort(if state == CaptureState.Triggering then 260 else 264);
      r := Finalize(if state == CaptureState.Triggering then 260 else 264);
    }

    // ---------- Failures before the session is armed ----------

    method CreatedOperationFailed(ordinaryReason: u16) returns (r: Outcome)
      requires Valid() && ordinaryReason in {257, 258}
      modifies this, counters
      ensures Continues()
      ensures Valid() && fresh(Repr() - old(Repr())) && frames == old(frames) && spoiled == old(spoiled)
      ensures old(state) != CaptureState.Created ==> r == Failed(WrongState) && unchanged(this)
      ensures old(state) == CaptureState.Created ==>
                && (|| (lastTimestamp >= DeadlineMicros() && EndedAborted(r, 267, None))
                    || (lastTimestamp < DeadlineMicros() && EndedAborted(r, ordinaryReason, None)))
                && (r.Finalized? ==> !abandoned)
    {
      hide Follows, Sound, PendingLinked, Live, Closed, MayEnd, Accounted, InRecording, AfterFrame;
      if state != CaptureState.Created {
        return Failed(WrongState);
      }
      LiveIsQuiet();
      var now := Now();
      if now.None? {
        r := FailClosedOutput(ClockFailed);
        return;
      }
      QuietMayAbort(267);
      QuietMayAbort(ordinaryReason);
      r := FinalizeAt(false, if now.value >= DeadlineMicros() then 267 else ordinaryReason, now.value);
    }

    method ConnectFailed() returns (r: Outcome)
      requires Valid()
      modifies this, counters
      ensures Continues()
      ensures Valid() && fresh(Repr() - old(Repr())) && frames == old(frames) && spoiled == old(spoiled)
      ensures old(state) != CaptureState.Created ==> r == Failed(WrongState) && unchanged(this)
      ensures old(state) == CaptureState.Created ==>
                && EndedAborted(r, if lastTimestamp >= DeadlineMicros() then 267 else 257, None)
                && (r.Finalized? ==> !abandoned)
    {
      r := CreatedOperationFailed(257);
    }

    method AuthenticationFailed() returns (r: Outcome)
      requires Valid()
      modifies this, counters
      ensures Continues()
      ensures Valid() && fresh(Repr() - old(Repr())) && frames == old(frames) && spoiled == old(spoiled)
      ensures old(state) != CaptureState.Created ==> r == Failed(WrongState) && unchanged(this)
      ensures old(state) == CaptureState.Created ==>
                && EndedAborted(r, if lastTimestamp >= DeadlineMicros() then 267 else 258, None)
                && (r.Finalized? ==> !abandoned)
    {
      r := CreatedOperationFailed(258);
    }

    method PreTriggerDeadlineFailed() returns (r: Outcome)
      requires Valid()
      modifies this, counters
      ensures Continues()
      ensures Valid() && fresh(Repr() - old(Repr())) && frames == old(frames) && spoiled == old(spoiled)
      ensures old(state) != CaptureState.Created ==> r == Failed(WrongState) && unchanged(this)
      ensures old(state) == CaptureState.Created ==> EndedAborted(r, 267, None) && (r.Finalized? ==> !abandoned)
    {
      hide Sound, Quiet, PendingLinked, Live, Closed;
      if state != CaptureState.Created {
        return Failed(WrongState);
      }
      LiveIsQuiet();
      r := Abort(267);
    }
  }
}
