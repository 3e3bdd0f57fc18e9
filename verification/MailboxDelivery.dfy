/** Which streams the mailbox delivers, over every interleaving of pushes and pops. */
module MailboxDelivery {
  import opened Bytes
  import opened Results
  import opened FrameSurface
  import opened FrameMailbox

  datatype Op = PushOp(e: Enqueued) | PopOp

  /**
   A run: the mailbox, what has been popped so far, every update that was accepted, and whether a push
   overflowed.
   */
  datatype Run = Run(mailbox: Mailbox, popped: seq<Enqueued>, accepted: seq<Enqueued>, overflowed: bool)

  function RunOps(limits: Limits, ops: seq<Op>): (run: Run)
    ensures run.mailbox.bytes == QueueBytes(run.mailbox.queue)
  {
    if ops == [] then Run(EMPTY, [], [], false)
    else
      var before := RunOps(limits, ops[..|ops| - 1]);
      match ops[|ops| - 1]
      case PushOp(e) =>
        var p := OnPush(limits, before.mailbox, e);
        PushKeepsAccount(limits, before.mailbox, e);
        Run(p.mailbox, before.popped,
            if p.outcome == Queued then before.accepted + [e] else before.accepted,
            before.overflowed || p.outcome == NeedsFullSnapshot)
      case PopOp =>
        var p := OnPop(before.mailbox);
        if before.mailbox.queue != [] then
          FrontBytes(before.mailbox.queue);
          Run(p.mailbox, before.popped + [p.popped.value], before.accepted, before.overflowed)
        else before
  }

  lemma PushKeepsAccount(limits: Limits, mb: Mailbox, e: Enqueued)
    requires mb.bytes == QueueBytes(mb.queue)
    ensures OnPush(limits, mb, e).mailbox.bytes == QueueBytes(OnPush(limits, mb, e).mailbox.queue)
  {
    hide Kept;
    QueueBytesSnoc(mb.queue, e);
    QueueBytesSnoc([], e);
    assert [] + [e] == [e];
  }

  /** The popped updates and then the queue: what a consumer that pops on without further pushes would see. */
  function Stream(run: Run): seq<Enqueued> {
    run.popped + run.mailbox.queue
  }

  // ---------- Orderly streams ----------

  /** The surface a stream has reached: session, generation and the revision of the last damage in it. */
  datatype Reached = Reached(session: u64, generation: u64, revision: u64)

  function ReachedBy(t: seq<Enqueued>): Option<Reached> {
    if t == [] then None
    else
      match t[|t| - 1].update
      case Reset(session, generation, _, _) => Some(Reached(session, generation, 0))
      case Damage(_, _, revision, _) =>
        var before := ReachedBy(t[..|t| - 1]);
        if before.Some? then Some(before.value.(revision := revision)) else None
      case FrameBoundary(_, _, _, _) => ReachedBy(t[..|t| - 1])
  }

  /** Whether this update may follow this stream. */
  predicate MayFollow(t: seq<Enqueued>, u: SurfaceUpdate) {
    var r := ReachedBy(t);
    match u
    case Reset(session, generation, size, _) =>
      && generation != 0 && size.width != 0 && size.height != 0
      && (r.Some? ==>
            || (session == r.value.session && generation > r.value.generation)
            || session > r.value.session)
    case Damage(session, generation, revision, _) =>
      && r.Some? && r.value.session == session && r.value.generation == generation && revision > r.value.revision
    case FrameBoundary(session, generation, revision, _) =>
      && t != []
      && t[|t| - 1].update.Damage?
      && t[|t| - 1].update.session == session
      && t[|t| - 1].update.generation == generation
      && t[|t| - 1].update.revision == revision
  }

  ghost predicate Orderly(t: seq<Enqueued>) {
    t != [] ==> Orderly(t[..|t| - 1]) && MayFollow(t[..|t| - 1], t[|t| - 1].update)
  }

  lemma OrderlySnoc(t: seq<Enqueued>, e: Enqueued)
    ensures Orderly(t + [e]) <==> Orderly(t) && MayFollow(t, e.update)
    ensures e.update.Reset? ==> ReachedBy(t + [e]) == Some(Reached(e.update.session, e.update.generation, 0))
    ensures e.update.Damage? && ReachedBy(t).Some? ==>
              ReachedBy(t + [e]) == Some(ReachedBy(t).value.(revision := e.update.revision))
    ensures e.update.FrameBoundary? ==> ReachedBy(t + [e]) == ReachedBy(t)
  {
    assert (t + [e])[..|t|] == t;
  }

  lemma {:induction false} OrderlyPrefix(t: seq<Enqueued>, n: nat)
    requires Orderly(t) && n <= |t|
    ensures Orderly(t[..n])
    decreases |t|
  {
    if n < |t| {
      assert t[..|t| - 1][..n] == t[..n];
      OrderlyPrefix(t[..|t| - 1], n);
    } else {
      assert t[..n] == t;
    }
  }

  /** Without a Reset in between, a longer orderly stream is still on the same surface, at a later revision. */
  lemma {:induction false} ReachedWithoutReset(t: seq<Enqueued>, n: nat)
    requires Orderly(t) && n <= |t|
    requires forall i :: n <= i < |t| ==> !t[i].update.Reset?
    requires ReachedBy(t).Some?
    ensures ReachedBy(t[..n]).Some?
    ensures ReachedBy(t[..n]).value.session == ReachedBy(t).value.session
    ensures ReachedBy(t[..n]).value.generation == ReachedBy(t).value.generation
    ensures ReachedBy(t[..n]).value.revision <= ReachedBy(t).value.revision
    decreases |t|
  {
    if n < |t| {
      var front := t[..|t| - 1];
      assert front[..n] == t[..n];
      ReachedWithoutReset(front, n);
    } else {
      assert t[..n] == t;
    }
  }

  // ---------- The invariant of every run ----------

  /** The queue: one Reset at most, at its front, and everything else of the current surface. */
  ghost predicate QueueShape(mb: Mailbox) {
    && (forall i :: 0 < i < |mb.queue| ==> !mb.queue[i].update.Reset?)
    && (mb.queue != [] ==> mb.current.Some?)
    && (mb.current.Some? ==>
          var c := mb.current.value;
          c.lastBoundary <= c.lastDamage && c.size.width != 0 && c.size.height != 0 && c.bytesPerPixel == 4)
    && forall i :: 0 <= i < |mb.queue| ==>
         MatchesCurrent(mb.current.value, mb.queue[i].update.session, mb.queue[i].update.generation)
  }

  ghost predicate CurrentAgrees(mb: Mailbox, t: seq<Enqueued>) {
    if mb.current.None? then t == []
    else
      var c, r := mb.current.value, ReachedBy(t);
      && r.Some?
      && r.value.session == c.session && r.value.generation == c.generation
      && r.value.revision <= c.lastDamage
      && (c.boundaryEligible.Some? ==>
            && t != []
            && t[|t| - 1].update.Damage?
            && MatchesCurrent(c, t[|t| - 1].update.session, t[|t| - 1].update.generation)
            && t[|t| - 1].update.revision == c.boundaryEligible.value == c.lastDamage)
  }

  ghost predicate RunInvariant(limits: Limits, run: Run) {
    && Orderly(Stream(run))
    && QueueShape(run.mailbox)
    && CurrentAgrees(run.mailbox, Stream(run))
    && |run.mailbox.queue| <= limits.entries
    && run.mailbox.bytes <= limits.pixelBytes
  }

  /** Clearing keeps just the Reset at the front, if the queue still has it. */
  lemma {:induction false} KeptIsReset(queue: seq<Enqueued>, current: SurfaceState)
    requires forall i :: 0 < i < |queue| ==> !queue[i].update.Reset?
    requires forall i :: 0 <= i < |queue| ==>
               MatchesCurrent(current, queue[i].update.session, queue[i].update.generation)
    ensures Kept(queue, current) == if queue != [] && queue[0].update.Reset? then [queue[0]] else []
  {
    if queue != [] {
      KeptIsReset(queue[..|queue| - 1], current);
    }
  }

  lemma ResetIsFree(e: Enqueued)
    requires e.update.Reset?
    ensures QueueBytes([e]) == 0
  {
    QueueBytesSnoc([], e);
    assert [] + [e] == [e];
  }

  lemma NothingIsFree()
    ensures QueueBytes([]) == 0
  {
  }

  lemma ClearKeepsInvariant(limits: Limits, run: Run, after: Run)
    requires RunInvariant(limits, run) && run.mailbox.current.Some?
    requires var kept := Kept(run.mailbox.queue, run.mailbox.current.value);
             after.mailbox == Mailbox(kept, QueueBytes(kept),
                                       Some(run.mailbox.current.value.(boundaryEligible := None)))
    requires after.popped == run.popped
    ensures RunInvariant(limits, after)
    ensures after.mailbox.queue == [] || (|after.mailbox.queue| == 1 && after.mailbox.queue[0].update.Reset?)
    ensures after.mailbox.bytes == 0
  {
    hide Orderly, ReachedBy, Kept, QueueBytes;
    var queue, c := run.mailbox.queue, run.mailbox.current.value;
    KeptIsReset(queue, c);
    var t := Stream(run);
    var n := |run.popped| + |after.mailbox.queue|;
    assert Stream(after) == t[..n];
    assert forall i :: n <= i < |t| ==> t[i] == queue[i - |run.popped|];
    OrderlyPrefix(t, n);
    ReachedWithoutReset(t, n);
    if after.mailbox.queue != [] {
      ResetIsFree(queue[0]);
    } else {
      NothingIsFree();
    }
  }

  lemma PushKeepsInvariant(limits: Limits, run: Run, e: Enqueued, after: Run)
    requires limits.entries > 0 && RunInvariant(limits, run)
    requires run.mailbox.bytes == QueueBytes(run.mailbox.queue)
    requires after.mailbox == OnPush(limits, run.mailbox, e).mailbox && after.popped == run.popped
    ensures RunInvariant(limits, after)
    ensures OnPush(limits, run.mailbox, e).outcome == Queued && !e.update.Reset? ==> Stream(after) == Stream(run) + [e]
    ensures OnPush(limits, run.mailbox, e).outcome == Queued && e.update.Reset? ==> Stream(after) == run.popped + [e]
  {
    hide Orderly, ReachedBy, Kept, QueueBytes, ValidatedBytes;
    var t := Stream(run);
    var outcome := OnPush(limits, run.mailbox, e).outcome;
    if outcome == Rejected {
    } else if outcome == NeedsFullSnapshot {
      ClearKeepsInvariant(limits, run, after);
    } else if e.update.Reset? {
      assert Stream(after) == run.popped + [e];
      assert t[..|run.popped|] == run.popped;
      OrderlyPrefix(t, |run.popped|);
      OrderlySnoc(run.popped, e);
      ResetMayFollow(limits, run, e);
    } else {
      assert Stream(after) == t + [e];
      OrderlySnoc(t, e);
    }
  }

  /** A Reset the mailbox accepts advances past whatever was popped, even when it drops the queue. */
  lemma ResetMayFollow(limits: Limits, run: Run, e: Enqueued)
    requires RunInvariant(limits, run) && e.update.Reset? && OnReset(run.mailbox, e).outcome == Queued
    ensures MayFollow(run.popped, e.update)
  {
    var t := Stream(run);
    assert t[..|run.popped|] == run.popped;
    if run.popped != [] && ReachedBy(run.popped).Some? {
      ReachedIsMonotone(t, |run.popped|);
    }
  }

  /** Along an orderly stream the session and, within it, the generation never go back. */
  lemma {:induction false} ReachedIsMonotone(t: seq<Enqueued>, n: nat)
    requires Orderly(t) && n <= |t| && ReachedBy(t[..n]).Some?
    ensures ReachedBy(t).Some?
    ensures var a, b := ReachedBy(t[..n]).value, ReachedBy(t).value;
            a.session < b.session || (a.session == b.session && a.generation <= b.generation)
    decreases |t|
  {
    if n < |t| {
      var front := t[..|t| - 1];
      assert front[..n] == t[..n];
      ReachedIsMonotone(front, n);
    } else {
      assert t[..n] == t;
    }
  }

  lemma PopKeepsInvariant(limits: Limits, run: Run, after: Run)
    requires RunInvariant(limits, run) && run.mailbox.bytes == QueueBytes(run.mailbox.queue) && run.mailbox.queue != []
    requires after.mailbox == OnPop(run.mailbox).mailbox && after.popped == run.popped + [run.mailbox.queue[0]]
    ensures RunInvariant(limits, after) && Stream(after) == Stream(run)
  {
    FrontBytes(run.mailbox.queue);
    assert run.mailbox.queue == [run.mailbox.queue[0]] + run.mailbox.queue[1..];
    assert Stream(after) == Stream(run);
  }

  /** Every run of pushes and pops keeps the invariant: limits, queue shape and an orderly stream. */
  lemma {:induction false} EveryRunKeepsInvariant(limits: Limits, ops: seq<Op>)
    requires limits.entries > 0
    ensures RunInvariant(limits, RunOps(limits, ops))
  {
    if ops != [] {
      var front := ops[..|ops| - 1];
      EveryRunKeepsInvariant(limits, front);
      var before, after := RunOps(limits, front), RunOps(limits, ops);
      match ops[|ops| - 1] {
        case PushOp(e) => PushKeepsInvariant(limits, before, e, after);
        case PopOp =>
          if before.mailbox.queue != [] {
            PopKeepsInvariant(limits, before, after);
          }
      }
    }
  }

  // ---------- What a consumer sees ----------

  /** No Reset stands strictly between these two positions. */
  predicate NoResetBetween(t: seq<Enqueued>, i: int, j: int)
    requires 0 <= i <= j <= |t|
  {
    forall k :: i < k < j ==> !t[k].update.Reset?
  }

  lemma {:induction false} ReachedHasReset(t: seq<Enqueued>) returns (r: nat)
    requires ReachedBy(t).Some?
    ensures r < |t| && t[r].update.Reset? && NoResetBetween(t, r, |t|)
    ensures t[r].update.session == ReachedBy(t).value.session
    ensures t[r].update.generation == ReachedBy(t).value.generation
  {
    if t[|t| - 1].update.Reset? {
      r := |t| - 1;
    } else {
      r := ReachedHasReset(t[..|t| - 1]);
      assert forall k :: r < k < |t| - 1 ==> t[k] == t[..|t| - 1][k];
    }
  }

  /**
   In what any run has popped, a boundary directly follows the damage of its session, generation and
   revision, and a damage follows a Reset of its session and generation with no other Reset between.
   */
  lemma PoppedStreamIsWellFormed(limits: Limits, ops: seq<Op>, i: nat)
    requires limits.entries > 0
    requires i < |RunOps(limits, ops).popped|
    ensures var t := RunOps(limits, ops).popped;
            var u := t[i].update;
            && (u.FrameBoundary? ==>
                  && i > 0 && t[i - 1].update.Damage?
                  && t[i - 1].update.session == u.session
                  && t[i - 1].update.generation == u.generation
                  && t[i - 1].update.revision == u.revision)
            && (u.Damage? ==>
                  exists r :: 0 <= r < i && t[r].update.Reset? && NoResetBetween(t, r, i)
                    && t[r].update.session == u.session && t[r].update.generation == u.generation)
  {
    hide RunOps, QueueShape, CurrentAgrees;
    EveryRunKeepsInvariant(limits, ops);
    var run := RunOps(limits, ops);
    var t := run.popped;
    assert Stream(run)[..|t|] == t;
    OrderlyPrefix(Stream(run), |t|);
    OrderlyPrefix(t, i + 1);
    assert t[..i + 1][..i] == t[..i];
    if t[i].update.Damage? {
      var r := ReachedHasReset(t[..i]);
      assert forall k :: r < k < i ==> t[k] == t[..i][k];
      assert t[r].update.Reset? && NoResetBetween(t, r, i);
    }
  }

  lemma RevisionsIncrease(t: seq<Enqueued>, i: nat, j: nat)
    requires Orderly(t) && i < j < |t| && t[i].update.Damage? && t[j].update.Damage?
    requires forall k :: i < k < j ==> !t[k].update.Reset?
    ensures t[i].update.revision < t[j].update.revision
  {
    OrderlyPrefix(t, i + 1);
    OrderlyPrefix(t, j);
    OrderlyPrefix(t, j + 1);
    assert t[..j + 1][..j] == t[..j];
    assert t[..j][..i + 1] == t[..i + 1];
    assert t[..i + 1][..i] == t[..i];
    ReachedWithoutReset(t[..j], i + 1);
  }

  /** Damage revisions in a popped stream strictly increase within a surface. */
  lemma PoppedRevisionsIncrease(limits: Limits, ops: seq<Op>, i: nat, j: nat)
    requires limits.entries > 0
    requires var t := RunOps(limits, ops).popped;
             && i < j < |t| && t[i].update.Damage? && t[j].update.Damage?
             && forall k :: i < k < j ==> !t[k].update.Reset?
    ensures var t := RunOps(limits, ops).popped;
            t[i].update.revision < t[j].update.revision
  {
    hide RunOps, QueueShape, CurrentAgrees, Orderly;
    EveryRunKeepsInvariant(limits, ops);
    var run := RunOps(limits, ops);
    assert Stream(run)[..|run.popped|] == run.popped;
    OrderlyPrefix(Stream(run), |run.popped|);
    RevisionsIncrease(run.popped, i, j);
  }

  // ---------- Overflow and recovery ----------

  function FullSurfaceDamage(c: SurfaceState, revision: u64, pixels: seq<u8>): SurfaceUpdate
    requires c.size.width * c.bytesPerPixel <= MAX_U32
  {
    Damage(c.session, c.generation, revision,
           [PixelPatch(PixelRect(0, 0, c.size.width, c.size.height), c.size.width * c.bytesPerPixel, pixels)])
  }

  /** After an overflow the queue is empty or just the Reset, and no boundary is eligible. */
  lemma OverflowLeavesReset(limits: Limits, ops: seq<Op>, e: Enqueued)
    requires limits.entries > 0
    requires OnPush(limits, RunOps(limits, ops).mailbox, e).outcome == NeedsFullSnapshot
    ensures var mb := OnPush(limits, RunOps(limits, ops).mailbox, e).mailbox;
            && QueueShape(mb)
            && mb.current.Some? && mb.current.value.boundaryEligible == None
            && mb.bytes == 0
            && (mb.queue == [] || (|mb.queue| == 1 && mb.queue[0].update.Reset?))
  {
    EveryRunKeepsInvariant(limits, ops);
    var run := RunOps(limits, ops);
    ClearKeepsInvariant(limits, run, Run(OnPush(limits, run.mailbox, e).mailbox, run.popped, [], true));
  }

  /**
   Right after an overflow, if the complete surface fits the byte budget and three entries fit, a full
   surface damage with a fresh revision is queued, and so is its boundary.
   */
  lemma OverflowRecovers(limits: Limits, ops: seq<Op>, e: Enqueued, revision: u64, pixels: seq<u8>,
                         format: PixelFormat, completeness: FrameCompleteness, at1: int, at2: int)
    requires limits.entries >= 3
    requires OnPush(limits, RunOps(limits, ops).mailbox, e).outcome == NeedsFullSnapshot
    requires var c := OnPush(limits, RunOps(limits, ops).mailbox, e).mailbox.current;
             && c.Some?
             && SupportsCompleteSurface(limits, c.value.size, format)
             && c.value.size.width * c.value.bytesPerPixel <= MAX_U32
             && |pixels| == c.value.size.width * c.value.bytesPerPixel * c.value.size.height
             && revision > c.value.lastDamage
    ensures var mb := OnPush(limits, RunOps(limits, ops).mailbox, e).mailbox;
            var damage := FullSurfaceDamage(mb.current.value, revision, pixels);
            var first := OnPush(limits, mb, Enqueued(at1, damage));
            var boundary := FrameBoundary(damage.session, damage.generation, revision, completeness);
            first.outcome == Queued && OnPush(limits, first.mailbox, Enqueued(at2, boundary)).outcome == Queued
  {
    hide RunOps, ValidatedBytes, PixelBytes;
    OverflowLeavesReset(limits, ops, e);
    var c := OnPush(limits, RunOps(limits, ops).mailbox, e).mailbox.current.value;
    FullSurfaceBytes(limits, c, revision, pixels, format);
  }

  lemma FullSurfaceBytes(limits: Limits, c: SurfaceState, revision: u64, pixels: seq<u8>, format: PixelFormat)
    requires c.size.width != 0 && c.size.height != 0 && c.bytesPerPixel == BytesPerPixel(format)
    requires SupportsCompleteSurface(limits, c.size, format)
    requires c.size.width * c.bytesPerPixel <= MAX_U32
    requires |pixels| == c.size.width * c.bytesPerPixel * c.size.height
    ensures |pixels| <= limits.pixelBytes
    ensures ValidatedBytes(FullSurfaceDamage(c, revision, pixels).patches, c) == Some(|pixels|)
  {
    var patches := FullSurfaceDamage(c, revision, pixels).patches;
    assert patches[..0] == [];
    assert PixelBytes(patches) == |pixels|;
    ReorderProduct(c.size.width, c.size.height, c.bytesPerPixel);
  }

  lemma ReorderProduct(width: int, height: int, bytesPerPixel: int)
    ensures width * bytesPerPixel * height == width * height * bytesPerPixel
  {
  }
}
