/**
 The cold capture driver: src/vnc/cold_hpss.rs, with the set-up and the failure exits that
 src/main.rs puts around it.

 The connection is a script of outcomes. An idle frame's class is part of the script, because the
 media parser is outside the model; a frame that arrives while a record is pending is always a
 continuation, whatever the parser would make of it.
 */
module ColdSession {
  import opened Bytes
  import opened Results
  import opened MvsStream
  import opened CaptureFormat
  import opened FrameLedger
  import opened CaptureAgreement
  import opened CaptureWriter
  import Reader = CaptureReader
  import Log = CaptureLog
  import Theorems = CaptureTheorems

  datatype ColdFrameClass =
    | ContinuationFrame
    | MvsBegin(rect: MvsRect, total: u32, body: seq<u8>)
    | InvalidMvs(rect: MvsRect)
    | GeometryTransition
    | NonMvs
  {
    predicate IsMvs() {
      ContinuationFrame? || MvsBegin?
    }

    /** A rejected envelope and a change of geometry always end the capture. */
    predicate MayGoOn() {
      IsMvs() || NonMvs?
    }
  }

  /** A frame with the class the media parser gives it when no record is pending. */
  datatype ColdFrame = ColdFrame(bytes: seq<u8>, idle: ColdFrameClass)

  datatype ReadStep = NoFrame | ReadError | GotFrame(frame: ColdFrame)

  datatype LoopStep = LoopStep(cancelled: bool, read: ReadStep)

  /** When a step was read: how often the clock had been read by then, and the record pending at the time. */
  datatype Turn = Turn(ticks: nat, pending: Option<PendingProvenance>)

  /** A connection, as the script of what it will do; `at` is how many steps of the recording loop it has taken. */
  class ColdConnection {
    const encrypted: bool
    const triggerWrites: seq<bool>
    const displaySizeValid: bool
    const requestValid: bool
    const timeoutSet: bool
    const steps: seq<LoopStep>
    var at: nat
    ghost var turns: seq<Turn>

    /** Three trigger writes; an idle frame is never a continuation; the script has not run out. */
    ghost predicate Valid()
      reads this
    {
      |triggerWrites| == 3 && ValidSteps(steps) && at <= |steps| && |turns| == at
    }

    constructor (encrypted: bool, triggerWrites: seq<bool>, displaySizeValid: bool, requestValid: bool,
                 timeoutSet: bool,
                 steps: seq<LoopStep>)
      requires |triggerWrites| == 3 && ValidSteps(steps)
      ensures Valid() && at == 0 && this.steps == steps
    {
      this.encrypted, this.triggerWrites, this.displaySizeValid := encrypted, triggerWrites, displaySizeValid;
      this.requestValid, this.timeoutSet, this.steps, at, turns := requestValid, timeoutSet, steps, 0, [];
    }

    predicate IsCancelled()
      reads this
      requires at < |steps|
    {
      steps[at].cancelled
    }

    /** What the connection has delivered is the frames of the steps before `at`. */
    method ReadFrameStep(ghost turn: Turn) returns (read: ReadStep)
      requires Valid() && at < |steps|
      modifies this
      ensures Valid() && at == old(at) + 1 && read == steps[old(at)].read && turns == old(turns) + [turn]
    {
      read := steps[at].read;
      at, turns := at + 1, turns + [turn];
    }
  }

  /** `Unfinished`: the script ran out while the session loop was still going. */
  datatype SessionResult = Completed | Bailed | Unfinished

  /** The idle classifier never answers with a continuation. */
  predicate ValidIdleClass(c: ColdFrameClass) {
    c != ContinuationFrame
  }

  function ClassifyColdFrame(frame: ColdFrame, pending: bool): ColdFrameClass {
    if pending then ContinuationFrame else frame.idle
  }

  predicate ValidSteps(steps: seq<LoopStep>) {
    forall i :: 0 <= i < |steps| && steps[i].read.GotFrame? ==> ValidIdleClass(steps[i].read.frame.idle)
  }

  /** What a frame of this class adds to the ledger of source frames: non-MVS frames add nothing. */
  function LedgerEntry(frame: ColdFrame, pending: bool): seq<MvsFrame> {
    match ClassifyColdFrame(frame, pending)
    case ContinuationFrame => [Continuation(frame.bytes)]
    case MvsBegin(rect, total, body) => [Begin(rect, total, body)]
    case InvalidMvs(rect) => [RejectedEnvelope(Some(rect))]
    case GeometryTransition => []
    case NonMvs => []
  }

  /** The bytes a record still lacks after this frame, by the driver's own count. */
  function Missing(frame: ColdFrame, pendingRemaining: Option<nat>): Option<nat> {
    if pendingRemaining.Some? then
      if |frame.bytes| > pendingRemaining.value then None else NonZero(pendingRemaining.value - |frame.bytes|)
    else
      match frame.idle
      case MvsBegin(_, total, body) => if |body| > total then None else NonZero(total - |body|)
      case _ => None
  }

  datatype Ledger = Ledger(frames: seq<MvsFrame>, remaining: Option<nat>)

  /** The MVS frames among the steps, each read as its class says, and the bytes still missing after them. */
  ghost function LedgerOf(steps: seq<LoopStep>): Ledger
    requires ValidSteps(steps)
  {
    if steps == [] then Ledger([], None)
    else
      var before, last := LedgerOf(steps[..|steps| - 1]), steps[|steps| - 1].read;
      if last.GotFrame? then
        Ledger(before.frames + LedgerEntry(last.frame, before.remaining.Some?), Missing(last.frame, before.remaining))
      else before
  }

  lemma LedgerSnoc(steps: seq<LoopStep>, n: nat)
    requires ValidSteps(steps) && n < |steps|
    ensures var before, read := LedgerOf(steps[..n]), steps[n].read;
            LedgerOf(steps[..n + 1]) ==
            if read.GotFrame? then
              Ledger(before.frames + LedgerEntry(read.frame, before.remaining.Some?),
                     Missing(read.frame, before.remaining))
            else before
  {
    assert steps[..n + 1][..n] == steps[..n];
  }

  /** The writer's ledger holds every MVS frame the connection has delivered, in order, and nothing else. */
  ghost predicate Entered(writer: MvsCaptureV2Writer, io: ColdConnection)
    reads writer, io
  {
    io.Valid() && writer.frames == LedgerOf(io.steps[..io.at]).frames
  }

  /** The driver's own count of missing bytes says exactly what the writer's pending record says. */
  ghost predicate Lockstep(writer: MvsCaptureV2Writer, pendingRemaining: Option<nat>)
    reads writer
  {
    && (pendingRemaining.Some? <==> writer.pending.Some?)
    && (writer.pending.Some? ==>
          var p := writer.pending.value;
          p.accepted < p.total && pendingRemaining.value == p.total - p.accepted)
  }

  function NonZero(n: nat): Option<nat> {
    if n == 0 then None else Some(n)
  }

  // ---------- When the connection is read ----------

  /** The reading of the clock before this turn's read was below the deadline and within the record's lifetime. */
  ghost predicate InTime(writer: MvsCaptureV2Writer, turn: Turn) {
    && turn.ticks > 0
    && var now := writer.clock(turn.ticks - 1);
    && now.Some? && now.value < writer.DeadlineMicros()
    && (turn.pending.Some? ==> !MvsCaptureV2Writer.Expired(turn.pending.value, now.value))
  }

  /** Every read of the connection follows a reading of the clock of its own that allowed it. */
  ghost predicate Punctual(writer: MvsCaptureV2Writer, turns: seq<Turn>) {
    && (forall i :: 0 <= i < |turns| ==> InTime(writer, turns[i]))
    && forall i, j :: 0 <= i < j < |turns| ==> turns[i].ticks < turns[j].ticks
  }

  ghost predicate Before(turns: seq<Turn>, ticks: nat) {
    turns != [] ==> turns[|turns| - 1].ticks <= ticks
  }

  lemma PunctualSnoc(writer: MvsCaptureV2Writer, turns: seq<Turn>, turn: Turn, ticks: nat)
    requires Punctual(writer, turns) && Before(turns, ticks) && InTime(writer, turn) && turn.ticks == ticks + 1
    ensures Punctual(writer, turns + [turn])
  {
    hide InTime;
  }

  // ---------- Why a session ends ----------

  /** The class the driver gives the frame of this step, by the bytes missing before it. */
  ghost function ClassOf(steps: seq<LoopStep>, i: nat): ColdFrameClass
    requires ValidSteps(steps) && i < |steps| && steps[i].read.GotFrame?
  {
    ClassifyColdFrame(steps[i].read.frame, LedgerOf(steps[..i]).remaining.Some?)
  }

  /** A step after which the loop can go on. */
  ghost predicate GoesOn(steps: seq<LoopStep>, i: nat)
    requires ValidSteps(steps) && i < |steps|
  {
    && !steps[i].cancelled
    && !steps[i].read.ReadError?
    && (steps[i].read.GotFrame? ==> ClassOf(steps, i).MayGoOn())
  }

  /** Whether a frame of this class can end the capture with this code. */
  predicate FrameEnds(kind: ColdFrameClass, code: u16, expired: bool, full: bool) {
    match code
    case 1 => expired
    case 2 => kind.IsMvs() && full && !expired
    case 262 => kind.IsMvs() || kind.InvalidMvs?
    case 263 => expired
    case 266 => kind == GeometryTransition
    case _ => false
  }

  /** Whether the clock alone can end a recording with this code: the deadline, or the lifetime of a record. */
  predicate TimeEnds(code: u16, gap: Option<Gap>, expired: bool) {
    ((code == 1 || code == 263) && expired) || (code == 262 && gap.Some? && gap.value.reason == 5)
  }

  /** Whether the loop can have ended with this code when it had taken the first n steps. */
  ghost predicate StoppedBy(steps: seq<LoopStep>, n: nat, code: u16, gap: Option<Gap>, expired: bool, full: bool)
    requires ValidSteps(steps) && n <= |steps|
  {
    || TimeEnds(code, gap, expired)
    || (code == 265 && n < |steps| && steps[n].cancelled)
    || (code == 261 && n > 0 && steps[n - 1].read.ReadError?)
    || (n > 0 && steps[n - 1].read.GotFrame? && FrameEnds(ClassOf(steps, n - 1), code, expired, full))
  }

  ghost predicate DeadlinePassed(writer: MvsCaptureV2Writer)
    reads writer
  {
    writer.lastTimestamp >= writer.DeadlineMicros()
  }

  /** The writer stopped without a terminal: the clock or the sink failed, a record was refused, or ordinals ran out. */
  ghost predicate FailedClosed(writer: MvsCaptureV2Writer)
    reads writer
  {
    writer.state == Finalizing && (!writer.healthy || writer.spoiled || writer.sourceFrameCount == MAX_U64)
  }

  ghost predicate LimitReached(writer: MvsCaptureV2Writer)
    reads writer
  {
    |writer.seen.records| == writer.config.recordLimit
  }

  /**
   The loop has ended for a cause: a terminal's code has one in the step it stopped at or in the one taken
   last, and a refused record was in the last frame.
   */
  ghost predicate EndedByStep(writer: MvsCaptureV2Writer, io: ColdConnection)
    reads writer, io
  {
    && io.Valid()
    && (writer.state in {CaptureState.Clean, CaptureState.Aborted} ==>
          && writer.selectedTerminal.Some?
          && StoppedBy(io.steps, io.at, writer.selectedTerminal.value, writer.lastGap,
                       DeadlinePassed(writer), LimitReached(writer)))
    && (writer.state == CaptureState.Recording ==>
          io.at > 0 && io.steps[io.at - 1].read.GotFrame? && ClassOf(io.steps, io.at - 1).IsMvs())
  }

  /** Neither of the two gaps that only a caller out of step with the writer can cause. */
  predicate InStepGap(gap: Option<Gap>) {
    gap.Some? ==> gap.value.reason != 9 && gap.value.reason != 10
  }

  lemma PendingBytes(writer: MvsCaptureV2Writer)
    requires writer.Valid() && writer.state == CaptureState.Recording && writer.pending.Some?
    ensures writer.pending.value.first <= |writer.frames|
    ensures |Joined(writer.frames[writer.pending.value.first..])| == writer.pending.value.accepted
  {
    hide MvsCaptureV2Writer.Tracked, Ledgered, Joined;
  }

  /** How a frame of this class can leave the writer. */
  ghost predicate ProcessedAs(writer: MvsCaptureV2Writer, r: Outcome, kind: ColdFrameClass)
    reads writer
  {
    && (r == Continue ==>
          && kind.MayGoOn()
          && writer.state == CaptureState.Recording && !writer.spoiled && !DeadlinePassed(writer))
    && (r.Finalized? ==>
          && writer.state == r.state && r.state in {CaptureState.Clean, CaptureState.Aborted}
          && !writer.abandoned && !writer.spoiled && InStepGap(writer.lastGap)
          && writer.selectedTerminal.Some?
          && FrameEnds(kind, writer.selectedTerminal.value, DeadlinePassed(writer), LimitReached(writer)))
    && (r.Failed? ==>
          && r.failure !in {WrongState, LimitExceeded, AssemblerFailed}
          && (FailedClosed(writer)
              || (&& writer.state == CaptureState.Recording && writer.spoiled && r.failure == InvalidRecord
                  && kind.IsMvs())))
  }

  method ProcessContinuation(writer: MvsCaptureV2Writer, prior: nat, bytes: seq<u8>)
    returns (r: Outcome, remaining: Option<nat>)
    requires writer.Valid() && writer.state == CaptureState.Recording
    requires !writer.spoiled && Lockstep(writer, Some(prior))
    modifies writer.Repr()
    ensures writer.Continues() && (r == Continue ==> writer.ticks > old(writer.ticks))
    ensures writer.Valid() && fresh(writer.Repr() - old(writer.Repr()))
    ensures ProcessedAs(writer, r, ContinuationFrame)
    ensures writer.state != Finalizing ==> writer.frames == old(writer.frames) + [Continuation(bytes)]
    ensures r == Continue ==>
              && Lockstep(writer, remaining)
              && remaining == if |bytes| > prior then None else NonZero(prior - |bytes|)
  {
    hide MvsCaptureV2Writer.Valid, MvsCaptureV2Writer.Live, MvsCaptureV2Writer.Closed, Joined;
    hide MvsCaptureV2Writer.Advances, Follows;
    remaining := Some(prior);
    PendingBytes(writer);
    r := writer.AcceptMvsContinuation(bytes);
    if r == Continue {
      remaining := if |bytes| > prior then None else NonZero(prior - |bytes|);
    }
  }

  method ProcessBegin(writer: MvsCaptureV2Writer, rect: MvsRect, total: u32, body: seq<u8>)
    returns (r: Outcome, remaining: Option<nat>)
    requires writer.Valid() && writer.state == CaptureState.Recording
    requires !writer.spoiled && Lockstep(writer, None)
    modifies writer.Repr()
    ensures writer.Continues() && (r == Continue ==> writer.ticks > old(writer.ticks))
    ensures writer.Valid() && fresh(writer.Repr() - old(writer.Repr()))
    ensures ProcessedAs(writer, r, MvsBegin(rect, total, body))
    ensures writer.state != Finalizing ==> writer.frames == old(writer.frames) + [Begin(rect, total, body)]
    ensures r == Continue ==>
              && Lockstep(writer, remaining)
              && remaining == if |body| > total then None else NonZero(total - |body|)
  {
    hide MvsCaptureV2Writer.Valid, MvsCaptureV2Writer.Live, MvsCaptureV2Writer.Closed, Joined;
    hide MvsCaptureV2Writer.Advances, Follows;
    remaining := None;
    r := writer.AcceptMvsBegin(rect, total, body);
    if r == Continue {
      remaining := if |body| > total then None else NonZero(total - |body|);
    }
  }

  method ProcessFrame(writer: MvsCaptureV2Writer, pendingRemaining: Option<nat>, frame: ColdFrame)
    returns (r: Outcome, remaining: Option<nat>)
    requires writer.Valid() && writer.state == CaptureState.Recording
    requires !writer.spoiled && Lockstep(writer, pendingRemaining) && ValidIdleClass(frame.idle)
    modifies writer.Repr()
    ensures writer.Continues() && (r == Continue ==> writer.ticks > old(writer.ticks))
    ensures writer.Valid() && fresh(writer.Repr() - old(writer.Repr()))
    ensures ProcessedAs(writer, r, ClassifyColdFrame(frame, pendingRemaining.Some?))
    ensures writer.state != Finalizing ==>
              writer.frames == old(writer.frames) + LedgerEntry(frame, pendingRemaining.Some?)
    ensures r == Continue ==> Lockstep(writer, remaining) && remaining == Missing(frame, pendingRemaining)
  {
    hide MvsCaptureV2Writer.Valid, MvsCaptureV2Writer.Live, MvsCaptureV2Writer.Closed, MvsCaptureV2Writer.Advances;
    hide Follows;
    remaining := pendingRemaining;
    match ClassifyColdFrame(frame, pendingRemaining.Some?) {
      case ContinuationFrame =>
        r, remaining := ProcessContinuation(writer, pendingRemaining.value, frame.bytes);
      case MvsBegin(rect, total, body) =>
        r, remaining := ProcessBegin(writer, rect, total, body);
      case InvalidMvs(rect) =>
        r := writer.RejectMvsEnvelope(Some(rect));
      case GeometryTransition =>
        r := writer.GenerationTransitionAttempted();
      case NonMvs =>
        r := writer.AcceptNonMvs();
    }
  }

  // ---------- The session ----------

  /** Every trigger was taken by the connection. */
  predicate AllWritten(io: ColdConnection) {
    forall i :: 0 <= i < |io.triggerWrites| ==> io.triggerWrites[i]
  }

  method WriteTrigger(writer: MvsCaptureV2Writer, written: bool, bit: u32) returns (ok: bool)
    requires writer.Valid() && writer.state == CaptureState.Triggering
    requires MvsCaptureV2Writer.NextTriggerBit(writer.triggerMask) == Some(bit)
    modifies writer.Repr()
    ensures writer.Continues()
    ensures writer.Valid() && fresh(writer.Repr() - old(writer.Repr()))
    ensures writer.frames == old(writer.frames) && writer.spoiled == old(writer.spoiled)
    ensures ok ==> written && writer.ticks == old(writer.ticks) + 1
    ensures ok ==> writer.state == CaptureState.Triggering && writer.triggerMask == old(writer.triggerMask) + bit
    ensures !ok && !writer.spoiled ==>
              && Settled(writer) && writer.state != CaptureState.Clean
              && (writer.state == CaptureState.Aborted ==>
                    writer.selectedTerminal == Some(260) && (!written || DeadlinePassed(writer)))
  {
    hide MvsCaptureV2Writer.Valid, MvsCaptureV2Writer.Live, MvsCaptureV2Writer.Closed;
    var decision: Outcome;
    if !written {
      decision := writer.TriggerFailed();
      return false;
    }
    decision := writer.TriggerWriteSucceeded(bit);
    ok := decision == Continue;
  }

  /** The three triggers in wire order. A message that cannot be built leaves the writer triggering. */
  method WriteTriggers(writer: MvsCaptureV2Writer, io: ColdConnection) returns (ok: bool)
    requires writer.Valid() && writer.state == CaptureState.Triggering && writer.triggerMask == 0
    requires io.Valid() && !writer.spoiled
    modifies writer.Repr()
    ensures writer.Continues()
    ensures writer.Valid() && fresh(writer.Repr() - old(writer.Repr()))
    ensures writer.frames == old(writer.frames) && !writer.spoiled
    ensures ok ==> writer.ticks == old(writer.ticks) + 3
    ensures ok ==> writer.state == CaptureState.Triggering && writer.triggerMask == 7
    ensures ok ==> AllWritten(io) && io.displaySizeValid && io.requestValid
    ensures !ok ==>
              || (writer.state == CaptureState.Triggering && !(io.displaySizeValid && io.requestValid))
              || (&& Settled(writer) && writer.state != CaptureState.Clean
                  && (writer.state == CaptureState.Aborted ==>
                        writer.selectedTerminal == Some(260) && (!AllWritten(io) || DeadlinePassed(writer))))
  {
    hide MvsCaptureV2Writer.Valid, MvsCaptureV2Writer.Live, MvsCaptureV2Writer.Closed;
    ok := WriteTrigger(writer, io.triggerWrites[0], 1);
    if !ok || !io.displaySizeValid {
      return false;
    }
    ok := WriteTrigger(writer, io.triggerWrites[1], 2);
    if !ok || !io.requestValid {
      return false;
    }
    ok := WriteTrigger(writer, io.triggerWrites[2], 4);
  }

  /**
   What the first reading of a turn decides: none, and the capture fails closed; at the deadline it ends Clean
   with 1, or with gap 6 and 263 if a record is pending; a record past its lifetime ends it with gap 5 and 262.
   */
  ghost predicate ClockDecides(writer: MvsCaptureV2Writer, ended: Option<SessionResult>, now: Option<u64>,
                               pending: Option<PendingProvenance>)
    reads writer
  {
    && (now.None? ==> ended.Some? && writer.state == Finalizing)
    && (now.Some? && now.value >= writer.DeadlineMicros() ==>
          ended.Some? && (writer.state == Finalizing
                          || writer.selectedTerminal == Some(if pending.None? then 1 else 263)))
    && (now.Some? && now.value < writer.DeadlineMicros()
        && pending.Some? && MvsCaptureV2Writer.Expired(pending.value, now.value) ==>
          ended.Some? && (writer.state == Finalizing
                          || (&& writer.selectedTerminal == Some(262)
                              && writer.lastGap == Some(MvsCaptureV2Writer.GapOf(pending.value, 5)))))
  }

  /** What the reading after a failed read decides: the same, and a reading in time ends the capture with 261. */
  ghost predicate ReadFailureDecides(writer: MvsCaptureV2Writer, r: SessionResult, now: Option<u64>,
                                     pending: Option<PendingProvenance>)
    reads writer
  {
    && ClockDecides(writer, Some(r), now, pending)
    && (now.Some? && now.value < writer.DeadlineMicros()
        && (pending.Some? ==> !MvsCaptureV2Writer.Expired(pending.value, now.value)) ==>
          || writer.state == Finalizing
          || (&& writer.selectedTerminal == Some(261)
              && writer.lastGap == (if pending.Some? then Some(MvsCaptureV2Writer.GapOf(pending.value, 7)) else None)))
  }

  method FinishAfterReadFailure(writer: MvsCaptureV2Writer) returns (r: SessionResult)
    requires writer.Valid() && writer.state == CaptureState.Recording && !writer.spoiled
    modifies writer.Repr()
    ensures writer.Continues()
    ensures writer.Valid() && fresh(writer.Repr() - old(writer.Repr()))
    ensures writer.frames == old(writer.frames) && !writer.spoiled
    ensures Settled(writer) && (r == Completed <==> writer.state == CaptureState.Clean) && r != Unfinished
    ensures ReadFailureDecides(writer, r, writer.Reading(old(writer.ticks), old(writer.lastTimestamp)),
                               old(writer.pending))
    ensures writer.state in {CaptureState.Clean, CaptureState.Aborted} ==>
              && writer.selectedTerminal.Some?
              && (|| writer.selectedTerminal == Some(261)
                  || TimeEnds(writer.selectedTerminal.value, writer.lastGap, DeadlinePassed(writer)))
  {
    hide MvsCaptureV2Writer.Valid, MvsCaptureV2Writer.Live, MvsCaptureV2Writer.Closed;
    var decision := writer.ReadFailed();
    return if decision == Finalized(CaptureState.Clean) then Completed else Bailed;
  }

  /**
   The writer has failed closed for a cause, or it wrote a terminal, the reader accepts the file and nothing is left
   unaccounted for. Or a refused record was written while recording, and the driver has given up without a
   further call.
   */
  ghost predicate Settled(writer: MvsCaptureV2Writer)
    reads writer
  {
    || FailedClosed(writer)
    || (&& writer.state in {CaptureState.Clean, CaptureState.Aborted}
        && !writer.abandoned && !writer.spoiled
        && InStepGap(writer.lastGap))
    || (writer.state == CaptureState.Recording && writer.spoiled)
  }

  /** The recording loop, as far as the connection's script goes. */
  method RecordingLoop(writer: MvsCaptureV2Writer, io: ColdConnection) returns (r: SessionResult)
    requires writer.Valid() && writer.state == CaptureState.Recording && writer.pending == None && !writer.spoiled
    requires io.Valid() && io.at == 0 && writer.frames == []
    modifies writer.Repr(), io
    ensures writer.Continues()
    ensures Punctual(writer, io.turns)
    ensures io.turns != [] ==> io.turns[0].ticks == old(writer.ticks) + 1
    ensures writer.Valid() && fresh(writer.Repr() - old(writer.Repr()))
    ensures r != Unfinished ==> Settled(writer)
    ensures r == Unfinished ==> writer.state == CaptureState.Recording && !writer.spoiled && io.at == |io.steps|
    ensures r == Completed <==> writer.state == CaptureState.Clean
    ensures io.Valid() && (writer.state != Finalizing ==> Entered(writer, io))
    ensures forall i :: 0 <= i < (if r == Unfinished then io.at else io.at - 1) ==> GoesOn(io.steps, i)
    ensures forall i :: 0 <= i < io.at ==> !io.steps[i].cancelled
    ensures r != Unfinished ==> EndedByStep(writer, io)
    ensures writer.state in {CaptureState.Clean, CaptureState.Aborted} ==> writer.selectedTerminal.Some?
  {
    hide MvsCaptureV2Writer.Valid, MvsCaptureV2Writer.Live, MvsCaptureV2Writer.Closed, LedgerOf, GoesOn, EndedByStep;
    hide Punctual, InTime, ClockDecides;
    NoTurns(writer);
    var pendingRemaining: Option<nat> := None;
    NothingEntered(io.steps);
    while io.at < |io.steps|
      invariant writer.Continues()
      invariant Punctual(writer, io.turns) && Before(io.turns, writer.ticks)
      invariant if io.turns == [] then writer.ticks == old(writer.ticks)
                else io.turns[0].ticks == old(writer.ticks) + 1
      invariant writer.Valid() && fresh(writer.Repr() - old(writer.Repr()))
      invariant writer.state == CaptureState.Recording && !writer.spoiled
      invariant Lockstep(writer, pendingRemaining)
      invariant io.Valid() && LedgerOf(io.steps[..io.at]) == Ledger(writer.frames, pendingRemaining)
      invariant forall i :: 0 <= i < io.at ==> GoesOn(io.steps, i) && !io.steps[i].cancelled
      decreases |io.steps| - io.at
    {
      ghost var turns, ticks := io.turns, writer.ticks;
      ghost var turn := Turn(ticks + 1, writer.pending);
      var ended;
      ended, pendingRemaining := TakeStep(writer, io, pendingRemaining);
      if io.turns != turns {
        PunctualSnoc(writer, turns, turn, ticks);
      }
      if ended.Some? {
        return ended.value;
      }
    }
    return Unfinished;
  }

  /** Polls the writer; what the reading decides is done, and else the turn goes on in time. */
  method Poll(writer: MvsCaptureV2Writer) returns (ended: Option<SessionResult>)
    requires writer.Valid() && writer.state == CaptureState.Recording && !writer.spoiled
    modifies writer.Repr()
    ensures writer.Continues()
    ensures writer.Valid() && fresh(writer.Repr() - old(writer.Repr()))
    ensures writer.frames == old(writer.frames) && !writer.spoiled
    ensures ClockDecides(writer, ended, writer.Reading(old(writer.ticks), old(writer.lastTimestamp)),
                         old(writer.pending))
    ensures ended.None? ==>
              && writer.state == CaptureState.Recording && writer.pending == old(writer.pending)
              && writer.ticks == old(writer.ticks) + 1
              && Some(writer.lastTimestamp) == writer.Reading(old(writer.ticks), old(writer.lastTimestamp))
              && InTime(writer, Turn(writer.ticks, writer.pending))
    ensures ended.Some? ==>
              && Settled(writer)
              && ended.value != Unfinished && (ended.value == Completed <==> writer.state == CaptureState.Clean)
              && (writer.state == Finalizing
                  || (&& writer.state in {CaptureState.Clean, CaptureState.Aborted}
                      && writer.selectedTerminal.Some?
                      && TimeEnds(writer.selectedTerminal.value, writer.lastGap, DeadlinePassed(writer))))
  {
    hide MvsCaptureV2Writer.Valid, MvsCaptureV2Writer.Live, MvsCaptureV2Writer.Closed;
    var polled := writer.PollRecording();
    ended := if polled == Continue then None
             else Some(if polled == Finalized(CaptureState.Clean) then Completed else Bailed);
  }

  /** One turn of the loop: the clock, a cancellation, the next read, and the frame if there is one. */
  method TakeStep(writer: MvsCaptureV2Writer, io: ColdConnection, pendingRemaining: Option<nat>)
    returns (ended: Option<SessionResult>, remaining: Option<nat>)
    requires writer.Valid() && writer.state == CaptureState.Recording && !writer.spoiled
    requires Lockstep(writer, pendingRemaining)
    requires io.Valid() && io.at < |io.steps|
    requires LedgerOf(io.steps[..io.at]) == Ledger(writer.frames, pendingRemaining)
    requires io.at > 0 ==> !io.steps[io.at - 1].cancelled
    modifies writer.Repr(), io
    ensures writer.Continues()
    ensures ClockDecides(writer, ended, writer.Reading(old(writer.ticks), old(writer.lastTimestamp)),
                         old(writer.pending))
    ensures io.at == old(io.at) ==> io.turns == old(io.turns)
    ensures io.at > old(io.at) ==>
              var turn := Turn(old(writer.ticks) + 1, old(writer.pending));
              io.turns == old(io.turns) + [turn] && InTime(writer, turn) && turn.ticks <= writer.ticks
    ensures writer.Valid() && fresh(writer.Repr() - old(writer.Repr()))
    ensures io.Valid() && (io.at == old(io.at) || (io.at == old(io.at) + 1 && !io.steps[old(io.at)].cancelled))
    ensures io.at > old(io.at) && io.steps[old(io.at)].read.ReadError? ==>
              && ended.Some?
              && var first := writer.Reading(old(writer.ticks), old(writer.lastTimestamp));
              && first.Some?
              && ReadFailureDecides(writer, ended.value, writer.Reading(old(writer.ticks) + 1, first.value),
                                    old(writer.pending))
    ensures ended.None? ==>
              && !DeadlinePassed(writer)
              && (io.steps[old(io.at)].read.GotFrame? ==> writer.ticks > old(writer.ticks) + 1)
    ensures ended.None? ==>
              && writer.state == CaptureState.Recording && !writer.spoiled
              && Lockstep(writer, remaining)
              && io.at == old(io.at) + 1 && GoesOn(io.steps, old(io.at))
              && LedgerOf(io.steps[..io.at]) == Ledger(writer.frames, remaining)
    ensures ended.Some? ==>
              && Settled(writer) && EndedByStep(writer, io)
              && ended.value != Unfinished && (ended.value == Completed <==> writer.state == CaptureState.Clean)
              && (writer.state in {CaptureState.Clean, CaptureState.Aborted} ==> writer.selectedTerminal.Some?)
              && (writer.state != Finalizing ==> Entered(writer, io))
  {
    hide MvsCaptureV2Writer.Valid, MvsCaptureV2Writer.Live, MvsCaptureV2Writer.Closed, Missing, LedgerEntry, LedgerOf;
    remaining := pendingRemaining;
    ended := Poll(writer);
    if ended.Some? {
      return;
    }
    if io.IsCancelled() {
      var cancelled := writer.Cancel();
      ended := Some(Bailed);
      return;
    }
    ended, remaining := TakeFrame(writer, io, pendingRemaining);
  }

  /** The rest of a turn in time: the next read, and what it brought. */
  method TakeFrame(writer: MvsCaptureV2Writer, io: ColdConnection, pendingRemaining: Option<nat>)
    returns (ended: Option<SessionResult>, remaining: Option<nat>)
    requires writer.Valid() && writer.state == CaptureState.Recording && !writer.spoiled
    requires Lockstep(writer, pendingRemaining) && !DeadlinePassed(writer)
    requires io.Valid() && io.at < |io.steps| && !io.steps[io.at].cancelled
    requires LedgerOf(io.steps[..io.at]) == Ledger(writer.frames, pendingRemaining)
    modifies writer.Repr(), io
    ensures writer.Continues()
    ensures io.turns == old(io.turns) + [Turn(old(writer.ticks), old(writer.pending))]
    ensures writer.Valid() && fresh(writer.Repr() - old(writer.Repr()))
    ensures io.Valid() && io.at == old(io.at) + 1
    ensures io.steps[old(io.at)].read.ReadError? ==>
              && ended.Some?
              && ReadFailureDecides(writer, ended.value,
                                    writer.Reading(old(writer.ticks), old(writer.lastTimestamp)), old(writer.pending))
    ensures ended.None? ==>
              && !DeadlinePassed(writer)
              && (io.steps[old(io.at)].read.GotFrame? ==> writer.ticks > old(writer.ticks))
    ensures ended.None? ==>
              && writer.state == CaptureState.Recording && !writer.spoiled
              && Lockstep(writer, remaining)
              && GoesOn(io.steps, old(io.at))
              && LedgerOf(io.steps[..io.at]) == Ledger(writer.frames, remaining)
    ensures ended.Some? ==>
              && Settled(writer) && EndedByStep(writer, io)
              && ended.value != Unfinished && (ended.value == Completed <==> writer.state == CaptureState.Clean)
              && (writer.state in {CaptureState.Clean, CaptureState.Aborted} ==> writer.selectedTerminal.Some?)
              && (writer.state != Finalizing ==> Entered(writer, io))
  {
    hide MvsCaptureV2Writer.Valid, MvsCaptureV2Writer.Live, MvsCaptureV2Writer.Closed, Follows, Missing, LedgerEntry;
    hide LedgerOf;
    remaining := pendingRemaining;
    LedgerSnoc(io.steps, io.at);
    var read := io.ReadFrameStep(Turn(writer.ticks, writer.pending));
    match read {
      case NoFrame =>
      case ReadError =>
        var r := FinishAfterReadFailure(writer);
        return Some(r), remaining;
      case GotFrame(frame) =>
        var decision;
        decision, remaining := ProcessFrame(writer, pendingRemaining, frame);
        if decision != Continue {
          ended := Some(if decision == Finalized(CaptureState.Clean) then Completed else Bailed);
          return;
        }
    }
    return None, remaining;
  }

  lemma NoTurns(writer: MvsCaptureV2Writer)
    ensures Punctual(writer, [])
  {
  }

  lemma NothingEntered(steps: seq<LoopStep>)
    requires ValidSteps(steps)
    ensures LedgerOf(steps[..0]) == Ledger([], None)
  {
  }

  /** What the loop needs of the connection: encryption, a surface, three triggers sent, and its read timeout. */
  predicate Prepared(io: ColdConnection, requested: Geometry) {
    && io.encrypted && ValidGeometry(requested)
    && AllWritten(io) && io.displaySizeValid && io.requestValid
    && io.timeoutSet
  }

  /** Whether the session can have ended with this code before its loop. */
  predicate EndsBeforeLoop(io: ColdConnection, requested: Geometry, code: u16, gap: Option<Gap>, expired: bool,
                           healthy: bool) {
    if !io.encrypted then code == if expired then 267 else 258
    else if !ValidGeometry(requested) then code == 266
    else
      || (code == 259 && !healthy)
      || (code == 260 && (expired || !healthy || !AllWritten(io)))
      || (code == 267 && expired)
      || (&& AllWritten(io) && io.displaySizeValid && io.requestValid && !io.timeoutSet
          && (code == 261 || TimeEnds(code, gap, expired)))
  }

  /** The session has ended for a cause: before its loop, or in a step of the loop. */
  ghost predicate SessionEnded(writer: MvsCaptureV2Writer, io: ColdConnection, requested: Geometry)
    reads writer, io
  {
    && writer.selectedTerminal.Some?
    && (|| (Prepared(io, requested) && EndedByStep(writer, io))
        || (io.at == 0 && EndsBeforeLoop(io, requested, writer.selectedTerminal.value, writer.lastGap,
                                         DeadlinePassed(writer), writer.healthy)))
  }

  /** Why a session can stop without a terminal, and still going on when the script ran out. */
  ghost predicate SessionStopped(writer: MvsCaptureV2Writer, io: ColdConnection, requested: Geometry, r: SessionResult)
    reads writer, io
  {
    && (r == Completed <==> writer.state == CaptureState.Clean)
    && (r == Unfinished ==> writer.state == CaptureState.Recording && !writer.spoiled && io.at == |io.steps|)
    && (r == Unfinished || io.at > 0 ==> Prepared(io, requested))
    && (r == Bailed ==>
          || Settled(writer)
          || (&& writer.state == CaptureState.Triggering && io.encrypted && ValidGeometry(requested)
              && !(io.displaySizeValid && io.requestValid)))
  }

  /**
   Every run of the session: whatever the connection, the clock and the sink do, a terminal that is written
   accounts for every MVS frame the connection delivered, and the session completes exactly when the file is
   Clean.
   */
  method RunAuthenticatedColdSession(writer: MvsCaptureV2Writer, io: ColdConnection, requested: Geometry)
    returns (r: SessionResult)
    requires writer.Valid() && writer.state == CaptureState.Created && !writer.spoiled && writer.frames == []
    requires io.Valid() && io.at == 0
    modifies writer.Repr(), io
    ensures writer.Advances() && writer.offered in {old(writer.offered), Some(ArmedConfig(requested, requested))}
    ensures Punctual(writer, io.turns)
    ensures io.turns != [] ==> io.turns[0].ticks == old(writer.ticks) + 11
    ensures writer.Valid() && fresh(writer.Repr() - old(writer.Repr()))
    ensures writer.state in {CaptureState.Clean, CaptureState.Aborted} ==> Settled(writer)
    ensures SessionStopped(writer, io, requested, r)
    ensures io.Valid() && (writer.state != Finalizing ==> Entered(writer, io))
    ensures writer.state in {CaptureState.Clean, CaptureState.Aborted} ==> SessionEnded(writer, io, requested)
  {
    hide MvsCaptureV2Writer.Valid, MvsCaptureV2Writer.Live, MvsCaptureV2Writer.Closed, LedgerOf, EndedByStep;
    hide TimeEnds;
    NoTurns(writer);
    NothingEntered(io.steps);
    var decision: Outcome;
    if !io.encrypted {
      decision := writer.AuthenticationFailed();
      return Bailed;
    }
    decision := writer.Arm(ArmedConfig(requested, requested));
    if decision != Continue {
      return Bailed;
    }
    decision := writer.BeginTrigger();
    if decision != Continue {
      return Bailed;
    }
    r := TriggerAndRecord(writer, io, requested);
  }

  /** The armed session: three triggers, the recording gate, and the loop. */
  method TriggerAndRecord(writer: MvsCaptureV2Writer, io: ColdConnection, requested: Geometry)
    returns (r: SessionResult)
    requires writer.Valid() && writer.state == CaptureState.Triggering && writer.triggerMask == 0
    requires !writer.spoiled && writer.frames == []
    requires io.Valid() && io.at == 0 && io.encrypted && ValidGeometry(requested)
    modifies writer.Repr(), io
    ensures writer.Continues()
    ensures Punctual(writer, io.turns)
    ensures io.turns != [] ==> io.turns[0].ticks == old(writer.ticks) + 8
    ensures writer.Valid() && fresh(writer.Repr() - old(writer.Repr()))
    ensures writer.state in {CaptureState.Clean, CaptureState.Aborted} ==> Settled(writer)
    ensures SessionStopped(writer, io, requested, r)
    ensures io.Valid() && (writer.state != Finalizing ==> Entered(writer, io))
    ensures writer.state in {CaptureState.Clean, CaptureState.Aborted} ==> SessionEnded(writer, io, requested)
  {
    hide MvsCaptureV2Writer.Valid, MvsCaptureV2Writer.Live, MvsCaptureV2Writer.Closed, LedgerOf, EndedByStep;
    hide TimeEnds;
    NoTurns(writer);
    NothingEntered(io.steps);
    var ok := WriteTriggers(writer, io);
    if !ok {
      return Bailed;
    }
    var decision := writer.WriteRecordingGate();
    if decision != Continue {
      return Bailed;
    }
    if !io.timeoutSet {
      r := FinishAfterReadFailure(writer);
      return;
    }
    r := RecordingLoop(writer, io);
  }

  // ---------- Around the session ----------

  datatype ConnectionFailure = InputFailure | ConnectionRefused | AuthenticationRefused | DeadlineReached

  datatype ConnectResult =
    | Connected(connection: ColdConnection, geometry: Geometry)
    | NotConnected(failure: ConnectionFailure)

  function FailureCode(failure: ConnectionFailure, expired: bool): u16 {
    if failure.DeadlineReached? || expired then 267 else if failure.ConnectionRefused? then 257 else 258
  }

  /** Past the deadline that is the reason; else a refused connection is told from everything about credentials. */
  lemma FailureIsNamed(failure: ConnectionFailure, expired: bool)
    ensures TerminalReasonOf(FailureCode(failure, expired)) ==
            Ok(if expired || failure == DeadlineReached then PreTriggerDeadline
               else if failure == ConnectionRefused then ConnectFailure
               else CredentialOrAuthenticationFailure)
  {
  }

  method FinishColdConnectionFailure(writer: MvsCaptureV2Writer, failure: ConnectionFailure)
    requires writer.Valid() && writer.state == CaptureState.Created && !writer.spoiled
    modifies writer.Repr()
    ensures writer.Continues()
    ensures writer.Valid() && fresh(writer.Repr() - old(writer.Repr()))
    ensures writer.frames == old(writer.frames) && !writer.spoiled
    ensures Settled(writer) && writer.state != CaptureState.Clean
    ensures writer.state == CaptureState.Aborted ==>
              writer.selectedTerminal == Some(FailureCode(failure, DeadlinePassed(writer)))
  {
    hide MvsCaptureV2Writer.Valid, MvsCaptureV2Writer.Live, MvsCaptureV2Writer.Closed;
    var decision: Outcome;
    match failure {
      case DeadlineReached => decision := writer.PreTriggerDeadlineFailed();
      case ConnectionRefused => decision := writer.ConnectFailed();
      case InputFailure => decision := writer.AuthenticationFailed();
      case AuthenticationRefused => decision := writer.AuthenticationFailed();
    }
  }

  // ---------- What the file of a stopped writer reads back as ----------

  /** The records' ranges, then the gap's, tile the source ordinals 0..count in order. */
  ghost predicate Tiles(records: seq<CaptureRecord>, gap: Option<Gap>, count: nat) {
    && (forall k :: 0 <= k < |records| ==> records[k].first == RangeStart(records, k) <= records[k].last)
    && (if gap.Some? then
          gap.value.first == RangeStart(records, |records|) <= gap.value.last && gap.value.last + 1 == count
        else RangeStart(records, |records|) == count)
  }

  lemma LaidFileReads(sink: seq<u8>, log: seq<RawEvent>, seen: Reader.ReaderState, terminal: Terminal)
    requires Log.Laid(sink, log, seen, Some(terminal))
    ensures Reader.ReadStructural(sink) == Reader.Finish(seen, terminal, [])
    ensures Reader.ReadStrictCold(sink).Ok? <==>
            Reader.ValidTerminal(terminal, seen) && terminal.kind == TerminalKind.Clean && seen.surfaces == []
  {
    hide Reader.ReadStructural, Reader.ReadStrictCold, Log.FileBytes, Log.Run, Reader.ValidTerminal;
    Log.LogIsRead(log);
    Theorems.StrictIsCleanWithoutSurface(sink);
  }

  lemma ValidTerminalTiles(seen: Reader.ReaderState, terminal: Terminal, frames: seq<MvsFrame>, gap: Option<Gap>)
    requires Reader.ValidTerminal(terminal, seen) && AllMadeOf(seen.records, frames)
    requires seen.gaps == GapList(gap) && (gap.Some? ==> gap.value.first <= gap.value.last)
    ensures Tiles(seen.records, gap, terminal.sourceFrames)
  {
    hide Joined, Reader.TallyRecords;
    TallyTiles(seen.records);
    forall k | 0 <= k < |seen.records|
      ensures seen.records[k].first <= seen.records[k].last
    {
      assert MadeOf(seen.records[k], frames);
    }
  }

  /** The file gives back the surface armed, the configuration, and every count of the writer. */
  ghost predicate TellsOf(file: Reader.StructuralCapture, writer: MvsCaptureV2Writer)
    reads writer
  {
    && file.committed == (if writer.offered.Some? then Some(writer.offered.value.committed) else None)
    && file.requested == (if writer.offered.Some? then Some(writer.offered.value.requested) else None)
    && file.deadlineMs == Some(writer.config.deadlineMs) && file.recordLimit == Some(writer.config.recordLimit)
    && file.records == writer.seen.records
    && file.surfaces == []
    && CountsOf(file.terminal, writer)
  }

  ghost predicate CountsOf(terminal: Terminal, writer: MvsCaptureV2Writer)
    reads writer
  {
    && terminal.timestamp == writer.lastTimestamp
    && terminal.gapCount == writer.gapCount
    && terminal.sourceFrames == writer.sourceFrameCount
    && terminal.recordCount == writer.recordCount
    && terminal.type0 == writer.type0 && terminal.type1 == writer.type1 && terminal.type2 == writer.type2
  }

  ghost predicate StrictlyTellsOf(file: Reader.StrictCapture, writer: MvsCaptureV2Writer)
    reads writer
  {
    && writer.offered == Some(ArmedConfig(file.committed, file.requested))
    && file.deadlineMs == writer.config.deadlineMs && file.recordLimit == writer.config.recordLimit
    && file.records == writer.seen.records
    && CountsOf(file.terminal, writer)
  }

  /**
   The file of a writer that stopped at a terminal is accepted by the structural reader exactly when
   no refused record was written and no frame was abandoned. It then reads back as the same terminal,
   records and gap; the records are made of the frames of their ranges; ranges and gap tile all frames;
   and it is strict-cold exactly when the writer ended Clean.
   */
  lemma FileReadsBack(writer: MvsCaptureV2Writer)
    requires writer.Valid() && writer.state in {CaptureState.Clean, CaptureState.Aborted}
    ensures Reader.ReadStructural(writer.sink).Ok? <==> !writer.abandoned && !writer.spoiled
    ensures !writer.abandoned && !writer.spoiled ==>
              var file := Reader.ReadStructural(writer.sink).value;
              && (file.terminal.kind == TerminalKind.Clean <==> writer.state == CaptureState.Clean)
              && TerminalReasonOf(writer.selectedTerminal.value) == Ok(file.terminal.reason)
              && file.records == writer.seen.records
              && |file.records| == writer.recordCount
              && file.gaps == GapList(writer.lastGap)
              && file.terminal.sourceFrames == |writer.frames|
              && AllMadeOf(file.records, writer.frames)
              && Tiles(file.records, writer.lastGap, |writer.frames|)
              && TellsOf(file, writer)
    ensures Reader.ReadStrictCold(writer.sink).Ok? <==> writer.state == CaptureState.Clean && !writer.spoiled
    ensures Reader.ReadStrictCold(writer.sink).Ok? ==>
              StrictlyTellsOf(Reader.ReadStrictCold(writer.sink).value, writer)
  {
    hide Log.Laid, Log.Spoiled, Reader.ValidTerminal, Reader.ReadStructural, Reader.ReadStrictCold, AllMadeOf, Tiles;
    hide TerminalReasonOf, MvsCaptureV2Writer.Live, Log.EndsWith, TerminalEvent;
    if writer.spoiled {
      Theorems.SpoiledFileIsRefused(writer.sink, writer.log);
    } else {
      LaidFileReads(writer.sink, writer.log, writer.seen, writer.ending.value);
      Theorems.StrictIsCleanWithoutSurface(writer.sink);
      if !writer.abandoned {
        ValidTerminalTiles(writer.seen, writer.ending.value, writer.frames, writer.lastGap);
      }
    }
  }

  // ---------- Calls the driver makes only in step ----------

  /**
   Rejecting an envelope leaves a file the reader accepts exactly when no refused record was written before
   and no record was pending. With one pending, its frames are neither in a record nor in the gap.
   */
  method RejectionReadsBack(writer: MvsCaptureV2Writer, rect: Option<MvsRect>) returns (r: Outcome)
    requires writer.Valid() && writer.state == CaptureState.Recording
    modifies writer.Repr()
    ensures r.Finalized? ==>
              (Reader.ReadStructural(writer.sink).Ok? <==> old(writer.pending).None? && !old(writer.spoiled))
  {
    hide MvsCaptureV2Writer.Closed, MvsCaptureV2Writer.Sound, Reader.ReadStructural, Reader.ReadStrictCold;
    r := writer.RejectMvsEnvelope(rect);
    if r.Finalized? {
      FileReadsBack(writer);
    }
  }

  /** An output failure reported while a record is pending has the same effect. */
  method OutputFailureReadsBack(writer: MvsCaptureV2Writer) returns (r: Outcome)
    requires writer.Valid()
    modifies writer.Repr()
    ensures r.Finalized? ==>
              (Reader.ReadStructural(writer.sink).Ok? <==> old(writer.pending).None? && !old(writer.spoiled))
  {
    hide MvsCaptureV2Writer.Closed, MvsCaptureV2Writer.Sound, Reader.ReadStructural, Reader.ReadStrictCold;
    r := writer.OutputFailed();
    if r.Finalized? {
      FileReadsBack(writer);
    }
  }

  /**
   A begin frame of one byte, tag 2, with a rectangle: the call fails, and unless the clock or the sink failed
   the record is on the sink and the writer goes on recording. If the deadline then ends the capture, the
   terminal is Clean and no frame is abandoned, and still no reader accepts the file.
   */
  method TypeTwoRectangleSpoils(writer: MvsCaptureV2Writer) returns (r: Outcome, polled: Outcome)
    requires writer.Valid() && writer.state == CaptureState.Recording && writer.pending == None && !writer.spoiled
    requires writer.sourceFrameCount < MAX_U64 && writer.cumulativePayload < MAX_CUMULATIVE_PAYLOAD
    modifies writer.Repr()
    ensures r.Failed?
    ensures (r.failure == InvalidRecord && writer.spoiled) || r.failure in {ClockFailed, SinkFailed}
    ensures polled == Finalized(CaptureState.Clean) ==>
              && r == Failed(InvalidRecord)
              && !writer.abandoned && writer.spoiled
              && Reader.ReadStructural(writer.sink).Err? && Reader.ReadStrictCold(writer.sink).Err?
  {
    hide MvsCaptureV2Writer.Closed, MvsCaptureV2Writer.Sound, Reader.ReadStructural, Reader.ReadStrictCold;
    r := writer.AcceptMvsBegin(MvsRect(1, 0, 0, 0), 1, [2]);
    polled := Continue;
    if writer.state == CaptureState.Recording {
      polled := writer.PollRecording();
      if polled == Finalized(CaptureState.Clean) {
        FileReadsBack(writer);
      }
    }
  }

  // ---------- The whole command ----------

  /**
   The command has ended for a cause: the deadline, the credentials, the connection it did not get, or one
   that ended the session.
   */
  ghost predicate CommandEnded(writer: MvsCaptureV2Writer, credentialsRead: bool, connected: ConnectResult)
    reads writer, if connected.Connected? then {connected.connection} else {}
  {
    && writer.selectedTerminal.Some?
    && var code, expired := writer.selectedTerminal.value, DeadlinePassed(writer);
    || (code == 267 && expired)
    || (!credentialsRead && code == 258)
    || (credentialsRead && connected.NotConnected? && code == FailureCode(connected.failure, expired))
    || (credentialsRead && connected.Connected?
        && SessionEnded(writer, connected.connection, connected.geometry))
  }

  /** The command went through its session, or it stopped before it with the writer settled. */
  ghost predicate CommandStopped(writer: MvsCaptureV2Writer, credentialsRead: bool, connected: ConnectResult,
                                 r: SessionResult)
    reads writer, if connected.Connected? then {connected.connection} else {}
  {
    || (&& credentialsRead && connected.Connected?
        && SessionStopped(writer, connected.connection, connected.geometry, r))
    || (&& r == Bailed && Settled(writer) && writer.state != CaptureState.Clean
        && (connected.Connected? ==> connected.connection.at == 0))
  }

  /** Everything that follows the creation of the file: the credentials, the connection, the session. */
  method CaptureInto(writer: MvsCaptureV2Writer, credentialsRead: bool, connected: ConnectResult)
    returns (r: SessionResult)
    requires writer.Valid() && writer.state == CaptureState.Created && !writer.spoiled && writer.frames == []
    requires connected.Connected? ==> connected.connection.Valid() && connected.connection.at == 0
    modifies writer.Repr(), if connected.Connected? then {connected.connection} else {}
    ensures writer.Advances()
    ensures writer.offered == old(writer.offered)
            || (&& connected.Connected?
                && writer.offered == Some(ArmedConfig(connected.geometry, connected.geometry)))
    ensures connected.Connected? ==>
              var turns := connected.connection.turns;
              Punctual(writer, turns) && (turns != [] ==> turns[0].ticks == old(writer.ticks) + 13)
    ensures writer.Valid() && fresh(writer.Repr() - old(writer.Repr()))
    ensures writer.state in {CaptureState.Clean, CaptureState.Aborted} ==> Settled(writer)
    ensures CommandStopped(writer, credentialsRead, connected, r)
    ensures writer.state != Finalizing ==>
              if connected.Connected? then Entered(writer, connected.connection) else writer.frames == []
    ensures writer.state in {CaptureState.Clean, CaptureState.Aborted} ==>
              CommandEnded(writer, credentialsRead, connected)
  {
    hide MvsCaptureV2Writer.Valid, MvsCaptureV2Writer.Live, MvsCaptureV2Writer.Closed, LedgerOf, EndedByStep;
    hide EndsBeforeLoop;
    if connected.Connected? {
      NoTurns(writer);
      NothingEntered(connected.connection.steps);
    }
    var decision: Outcome;
    if !credentialsRead {
      decision := writer.AuthenticationFailed();
      return Bailed;
    }
    decision := writer.PreTriggerCheckpoint();
    if decision != Continue {
      return Bailed;
    }
    if connected.NotConnected? {
      FinishColdConnectionFailure(writer, connected.failure);
      return Bailed;
    }
    decision := writer.PreTriggerCheckpoint();
    if decision != Continue {
      return Bailed;
    }
    r := RunAuthenticatedColdSession(writer, connected.connection, connected.geometry);
  }

  /**
   The whole command. Whatever the connection, the clock and the sink do, if the writer reaches a terminal
   then the bytes on its sink are a file the structural reader accepts, which accounts for exactly the MVS
   frames the connection delivered, and the command completes exactly when the strict reader accepts the
   file as well.
   */
  method HpssCaptureV2(seconds: u32, maxRecords: u32, credentialsRead: bool, connected: ConnectResult,
                       clock: nat -> Option<u64>, disk: nat -> bool)
    returns (r: SessionResult, writer: MvsCaptureV2Writer?)
    requires connected.Connected? ==> connected.connection.Valid() && connected.connection.at == 0
    modifies if connected.Connected? then {connected.connection} else {}
    ensures writer == null <==>
              !(seconds in {5, 10, 15, 20, 30} && 1 <= maxRecords <= MAX_RECORDS && Takes(disk, 2))
    ensures writer == null ==> r == Bailed
    ensures writer != null ==>
              && fresh(writer.Repr()) && writer.Valid()
              && writer.config == CreatedConfig(seconds * 1000, maxRecords)
              && writer.clock == clock && writer.disk == disk && writer.Charted()
              && (writer.offered.Some? ==>
                    connected.Connected?
                    && writer.offered == Some(ArmedConfig(connected.geometry, connected.geometry)))
              && CommandStopped(writer, credentialsRead, connected, r)
    ensures writer != null && connected.Connected? ==>
              var turns := connected.connection.turns;
              Punctual(writer, turns) && (turns != [] ==> turns[0].ticks == 13)
    ensures writer != null && writer.state != Finalizing ==>
              if connected.Connected? then Entered(writer, connected.connection) else writer.frames == []
    ensures writer != null && writer.state in {CaptureState.Clean, CaptureState.Aborted} ==>
              && Settled(writer) && CommandEnded(writer, credentialsRead, connected)
              && Reader.ReadStructural(writer.sink).Ok?
              && (Reader.ReadStrictCold(writer.sink).Ok? <==> r == Completed)
              && var file := Reader.ReadStructural(writer.sink).value;
              && TerminalReasonOf(writer.selectedTerminal.value) == Ok(file.terminal.reason)
              && file.terminal.sourceFrames == |writer.frames|
              && file.gaps == GapList(writer.lastGap)
              && AllMadeOf(file.records, writer.frames)
              && Tiles(file.records, writer.lastGap, |writer.frames|)
              && TellsOf(file, writer)
              && (r == Completed ==> StrictlyTellsOf(Reader.ReadStrictCold(writer.sink).value, writer))
  {
    hide MvsCaptureV2Writer.Closed, MvsCaptureV2Writer.Sound, Reader.ReadStructural, Reader.ReadStrictCold, TellsOf;
    hide StrictlyTellsOf, Punctual, AllMadeOf, Tiles, TerminalReasonOf, Entered, LedgerOf, CommandEnded;
    if seconds !in {5, 10, 15, 20, 30} || !(1 <= maxRecords <= MAX_RECORDS) {
      return Bailed, null;
    }
    writer := MvsCaptureV2Writer.New(CreatedConfig(seconds * 1000, maxRecords), clock, disk);
    if writer == null {
      return Bailed, null;
    }
    r := CaptureInto(writer, credentialsRead, connected);
    if writer.state in {CaptureState.Clean, CaptureState.Aborted} {
      FileReadsBack(writer);
    }
  }
}
