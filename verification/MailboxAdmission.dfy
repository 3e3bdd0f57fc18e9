/**
 Which pushes the mailbox admits, said of what it has taken and how often it has overflowed so far instead of
 the state it keeps.
 */
module MailboxAdmission {
  import opened Bytes
  import opened Results
  import opened FrameSurface
  import opened FrameMailbox
  import opened MailboxDelivery

  // ---------- The history of a run ----------

  /** A push that was not rejected: the update was queued, or the mailbox asked for a full snapshot. */
  datatype Event = Took(e: Enqueued) | Overflowed

  function History(limits: Limits, ops: seq<Op>): seq<Event> {
    if ops == [] then []
    else
      var front, last := ops[..|ops| - 1], ops[|ops| - 1];
      if last.PopOp? then History(limits, front)
      else
        match OnPush(limits, RunOps(limits, front).mailbox, last.e).outcome
        case Queued => History(limits, front) + [Took(last.e)]
        case NeedsFullSnapshot => History(limits, front) + [Overflowed]
        case Rejected => History(limits, front)
  }

  predicate TookReset(h: seq<Event>, i: int)
    requires 0 <= i < |h|
  {
    h[i].Took? && h[i].e.update.Reset?
  }

  predicate TookDamage(h: seq<Event>, i: int)
    requires 0 <= i < |h|
  {
    h[i].Took? && h[i].e.update.Damage?
  }

  /** A Reset by session, then generation. */
  predicate Precedes(a: SurfaceUpdate, b: SurfaceUpdate) {
    a.session < b.session || (a.session == b.session && a.generation < b.generation)
  }

  /** The Reset at i is the last one taken. */
  predicate LastReset(h: seq<Event>, i: int)
    requires 0 <= i < |h|
  {
    TookReset(h, i) && forall j :: i < j < |h| ==> !TookReset(h, j)
  }

  // ---------- What may be pushed ----------

  /** The pixel at this offset in the patch lies on the surface and has its bytes in its row of the data. */
  predicate PixelFits(patch: PixelPatch, reset: SurfaceUpdate, x: nat, y: nat)
    requires reset.Reset?
  {
    && patch.rect.x + x < reset.size.width
    && patch.rect.y + y < reset.size.height
    && (x + 1) * BytesPerPixel(reset.format) <= patch.strideBytes
  }

  predicate PatchFits(patch: PixelPatch, reset: SurfaceUpdate)
    requires reset.Reset?
  {
    && patch.rect.width > 0 && patch.rect.height > 0
    && patch.rect.width * BytesPerPixel(reset.format) <= MAX_U32
    && |patch.pixels| == patch.strideBytes * patch.rect.height
    && forall x, y :: 0 <= x < patch.rect.width && 0 <= y < patch.rect.height ==> PixelFits(patch, reset, x, y)
  }

  /** All the pixel data of an update, patch after patch. */
  function PixelData(patches: seq<PixelPatch>): seq<u8> {
    if patches == [] then [] else PixelData(patches[..|patches| - 1]) + patches[|patches| - 1].pixels
  }

  function QueuedData(queue: seq<Enqueued>): seq<u8> {
    if queue == [] then []
    else
      var last := queue[|queue| - 1].update;
      QueuedData(queue[..|queue| - 1]) + (if last.Damage? then PixelData(last.patches) else [])
  }

  predicate ResetMayCome(h: seq<Event>, u: SurfaceUpdate)
    requires u.Reset?
  {
    && u.generation != 0 && u.size.width != 0 && u.size.height != 0
    && forall i :: 0 <= i < |h| && TookReset(h, i) ==> Precedes(h[i].e.update, u)
  }

  /** Damage of the last Reset's surface, newer than any damage taken since, whose patches fit. */
  predicate DamageMayCome(h: seq<Event>, u: SurfaceUpdate)
    requires u.Damage?
  {
    exists i :: 0 <= i < |h| && LastReset(h, i)
      && h[i].e.update.session == u.session && h[i].e.update.generation == u.generation
      && u.revision != 0
      && (forall j :: i < j < |h| && TookDamage(h, j) ==> h[j].e.update.revision < u.revision)
      && (forall k :: 0 <= k < |u.patches| ==> PatchFits(u.patches[k], h[i].e.update))
      && |PixelData(u.patches)| <= MAX_U64
  }

  /** The boundary of the damage taken just before, without an overflow since. */
  predicate BoundaryMayCome(h: seq<Event>, u: SurfaceUpdate)
    requires u.FrameBoundary?
  {
    && h != [] && TookDamage(h, |h| - 1)
    && h[|h| - 1].e.update.session == u.session
    && h[|h| - 1].e.update.generation == u.generation
    && h[|h| - 1].e.update.revision == u.revision
  }

  predicate MayCome(h: seq<Event>, u: SurfaceUpdate) {
    match u
    case Reset(_, _, _, _) => ResetMayCome(h, u)
    case Damage(_, _, _, _) => DamageMayCome(h, u)
    case FrameBoundary(_, _, _, _) => BoundaryMayCome(h, u)
  }

  // ---------- The mailbox's state is its history's ----------

  lemma {:induction false} BytesAreLengths(patches: seq<PixelPatch>)
    ensures PixelBytes(patches) == |PixelData(patches)|
  {
    if patches != [] {
      BytesAreLengths(patches[..|patches| - 1]);
    }
  }

  /** The byte account of a queue is the length of the pixel data in it. */
  lemma {:induction false} QueueBytesAreLengths(queue: seq<Enqueued>)
    ensures QueueBytes(queue) == |QueuedData(queue)|
  {
    if queue != [] {
      QueueBytesAreLengths(queue[..|queue| - 1]);
      if queue[|queue| - 1].update.Damage? {
        BytesAreLengths(queue[|queue| - 1].update.patches);
      }
    }
  }

  lemma PatchFitsExactly(patch: PixelPatch, c: SurfaceState, reset: SurfaceUpdate)
    requires reset.Reset? && c.size == reset.size && c.bytesPerPixel == BytesPerPixel(reset.format)
    ensures ValidPatch(patch, c) <==> PatchFits(patch, reset)
  {
    var w, h := patch.rect.width, patch.rect.height;
    if ValidPatch(patch, c) {
      forall x: nat, y: nat | x < w && y < h
        ensures PixelFits(patch, reset, x, y)
      {
        assert (x + 1) * c.bytesPerPixel <= w * c.bytesPerPixel;
      }
    }
    if PatchFits(patch, reset) {
      assert PixelFits(patch, reset, w - 1, h - 1);
    }
  }

  /** The surface the mailbox keeps is that of the Reset at i, and its revisions are those taken since. */
  ghost predicate KeptFrom(c: SurfaceState, h: seq<Event>, i: int)
    requires 0 <= i < |h|
  {
    && LastReset(h, i)
    && var u := h[i].e.update;
    && c.session == u.session && c.generation == u.generation && c.size == u.size
    && c.bytesPerPixel == BytesPerPixel(u.format)
    && (forall j :: i < j < |h| && TookDamage(h, j) ==> h[j].e.update.revision <= c.lastDamage)
    && (c.lastDamage != 0 ==> exists j :: i < j < |h| && TookDamage(h, j) && h[j].e.update.revision == c.lastDamage)
    && (c.boundaryEligible.Some? <==> TookDamage(h, |h| - 1))
    && (c.boundaryEligible.Some? ==>
          && h[|h| - 1].e.update.session == c.session && h[|h| - 1].e.update.generation == c.generation
          && h[|h| - 1].e.update.revision == c.boundaryEligible.value == c.lastDamage > c.lastBoundary)
    && c.lastBoundary <= c.lastDamage
    && forall j :: 0 <= j < |h| && TookReset(h, j) ==> j == i || Precedes(h[j].e.update, u)
  }

  ghost predicate StateIsHistory(mb: Mailbox, h: seq<Event>) {
    if mb.current.None? then h == []
    else exists i :: 0 <= i < |h| && KeptFrom(mb.current.value, h, i)
  }

  lemma LastResetIsUnique(h: seq<Event>, i: int, j: int)
    requires 0 <= i < |h| && 0 <= j < |h| && LastReset(h, i) && LastReset(h, j)
    ensures i == j
  {
  }

  // ---------- Admission ----------

  /** Whether the limits leave room for this update behind the queue. */
  predicate HasRoom(limits: Limits, queue: seq<Enqueued>, u: SurfaceUpdate) {
    && |queue| < limits.entries
    && |QueuedData(queue)| + (if u.Damage? then |PixelData(u.patches)| else 0) <= limits.pixelBytes
  }

  function Answer(limits: Limits, queue: seq<Enqueued>, h: seq<Event>, u: SurfaceUpdate): PushOutcome {
    if !MayCome(h, u) then Rejected
    else if u.Reset? || HasRoom(limits, queue, u) then Queued
    else NeedsFullSnapshot
  }

  lemma DamageAnswer(limits: Limits, mb: Mailbox, h: seq<Event>, e: Enqueued)
    requires StateIsHistory(mb, h) && mb.bytes == QueueBytes(mb.queue) && e.update.Damage?
    ensures OnPush(limits, mb, e).outcome == Answer(limits, mb.queue, h, e.update)
  {
    hide QueueBytes, PixelBytes, ValidPatch, PatchFits;
    var u := e.update;
    QueueBytesAreLengths(mb.queue);
    BytesAreLengths(u.patches);
    if mb.current.Some? {
      var c := mb.current.value;
      var i :| 0 <= i < |h| && KeptFrom(c, h, i);
      forall k | 0 <= k < |u.patches|
        ensures ValidPatch(u.patches[k], c) <==> PatchFits(u.patches[k], h[i].e.update)
      {
        PatchFitsExactly(u.patches[k], c, h[i].e.update);
      }
      forall j | 0 <= j < |h| && LastReset(h, j)
        ensures j == i
      {
        LastResetIsUnique(h, i, j);
      }
    }
  }

  lemma ResetAnswer(limits: Limits, mb: Mailbox, h: seq<Event>, e: Enqueued)
    requires StateIsHistory(mb, h) && e.update.Reset?
    ensures OnPush(limits, mb, e).outcome == Answer(limits, mb.queue, h, e.update)
  {
    if mb.current.Some? {
      var i :| 0 <= i < |h| && KeptFrom(mb.current.value, h, i);
      assert TookReset(h, i);
    }
  }

  lemma BoundaryAnswer(limits: Limits, mb: Mailbox, h: seq<Event>, e: Enqueued)
    requires StateIsHistory(mb, h) && mb.bytes == QueueBytes(mb.queue) && e.update.FrameBoundary?
    requires forall i :: 0 <= i < |h| && TookDamage(h, i) ==> h[i].e.update.revision != 0
    ensures OnPush(limits, mb, e).outcome == Answer(limits, mb.queue, h, e.update)
  {
    hide QueueBytes;
    QueueBytesAreLengths(mb.queue);
  }

  ghost predicate Follows(mb: Mailbox, h: seq<Event>) {
    && StateIsHistory(mb, h)
    && mb.bytes == QueueBytes(mb.queue)
    && forall i :: 0 <= i < |h| && TookDamage(h, i) ==> h[i].e.update.revision != 0
  }

  lemma PushAnswer(limits: Limits, mb: Mailbox, h: seq<Event>, e: Enqueued)
    requires Follows(mb, h)
    ensures OnPush(limits, mb, e).outcome == Answer(limits, mb.queue, h, e.update)
  {
    hide OnPush, Answer;
    match e.update {
      case Reset(_, _, _, _) => ResetAnswer(limits, mb, h, e);
      case Damage(_, _, _, _) => DamageAnswer(limits, mb, h, e);
      case FrameBoundary(_, _, _, _) => BoundaryAnswer(limits, mb, h, e);
    }
  }

  function Grown(h: seq<Event>, e: Enqueued, outcome: PushOutcome): seq<Event> {
    match outcome
    case Queued => h + [Took(e)]
    case NeedsFullSnapshot => h + [Overflowed]
    case Rejected => h
  }

  lemma ResetKeeps(mb: Mailbox, h: seq<Event>, e: Enqueued)
    requires StateIsHistory(mb, h) && e.update.Reset? && OnReset(mb, e).outcome == Queued
    ensures KeptFrom(OnReset(mb, e).mailbox.current.value, h + [Took(e)], |h|)
  {
    var grown := h + [Took(e)];
    assert forall j :: 0 <= j < |h| ==> grown[j] == h[j];
    if mb.current.Some? {
      var i :| 0 <= i < |h| && KeptFrom(mb.current.value, h, i);
    }
  }

  lemma StillLast(h: seq<Event>, i: int, next: Event)
    requires 0 <= i < |h| && LastReset(h, i) && !(next.Took? && next.e.update.Reset?)
    ensures LastReset(h + [next], i)
  {
    var grown := h + [next];
    forall j | i < j < |grown|
      ensures !TookReset(grown, j)
    {
      if j < |h| {
        assert !TookReset(h, j);
      }
    }
  }

  lemma OverflowKeeps(c: SurfaceState, h: seq<Event>, i: int)
    requires 0 <= i < |h| && KeptFrom(c, h, i)
    ensures KeptFrom(c.(boundaryEligible := None), h + [Overflowed], i)
  {
    StillLast(h, i, Overflowed);
    var grown := h + [Overflowed];
    assert forall j :: 0 <= j < |h| ==> grown[j] == h[j];
    if c.lastDamage != 0 {
      var j :| i < j < |h| && TookDamage(h, j) && h[j].e.update.revision == c.lastDamage;
      assert TookDamage(grown, j);
    }
  }

  lemma DamageKeeps(c: SurfaceState, h: seq<Event>, i: int, e: Enqueued)
    requires 0 <= i < |h| && KeptFrom(c, h, i)
    requires e.update.Damage? && MatchesCurrent(c, e.update.session, e.update.generation)
    requires e.update.revision > c.lastDamage
    ensures KeptFrom(c.(lastDamage := e.update.revision, boundaryEligible := Some(e.update.revision)), h + [Took(e)], i)
  {
    StillLast(h, i, Took(e));
    var grown := h + [Took(e)];
    assert forall j :: 0 <= j < |h| ==> grown[j] == h[j];
    assert TookDamage(grown, |h|);
  }

  lemma BoundaryKeeps(c: SurfaceState, h: seq<Event>, i: int, e: Enqueued)
    requires 0 <= i < |h| && KeptFrom(c, h, i)
    requires e.update.FrameBoundary? && e.update.revision == c.lastDamage
    ensures KeptFrom(c.(lastBoundary := e.update.revision, boundaryEligible := None), h + [Took(e)], i)
  {
    StillLast(h, i, Took(e));
    var grown := h + [Took(e)];
    assert forall j :: 0 <= j < |h| ==> grown[j] == h[j];
    if c.lastDamage != 0 {
      var j :| i < j < |h| && TookDamage(h, j) && h[j].e.update.revision == c.lastDamage;
      assert TookDamage(grown, j);
    }
  }

  lemma PushKeepsHistory(limits: Limits, mb: Mailbox, h: seq<Event>, e: Enqueued)
    requires Follows(mb, h)
    ensures Follows(OnPush(limits, mb, e).mailbox, Grown(h, e, OnPush(limits, mb, e).outcome))
  {
    hide QueueBytes, ValidatedBytes, Kept, KeptFrom;
    PushKeepsAccount(limits, mb, e);
    var p := OnPush(limits, mb, e);
    if p.outcome != Rejected {
      if e.update.Reset? {
        ResetKeeps(mb, h, e);
      } else {
        var c := mb.current.value;
        var i :| 0 <= i < |h| && KeptFrom(c, h, i);
        if p.outcome == NeedsFullSnapshot {
          OverflowKeeps(c, h, i);
        } else if e.update.Damage? {
          DamageKeeps(c, h, i, e);
        } else {
          BoundaryKeeps(c, h, i, e);
        }
      }
    }
  }

  lemma {:induction false} EveryRunFollows(limits: Limits, ops: seq<Op>)
    ensures Follows(RunOps(limits, ops).mailbox, History(limits, ops))
  {
    hide OnPush, OnPop, QueueBytes, StateIsHistory;
    if ops == [] {
      NothingIsFree();
      assert StateIsHistory(EMPTY, []) by { NothingKept(); }
    } else {
      var front := ops[..|ops| - 1];
      EveryRunFollows(limits, front);
      match ops[|ops| - 1] {
        case PushOp(e) => PushKeepsHistory(limits, RunOps(limits, front).mailbox, History(limits, front), e);
        case PopOp => PopFollows(limits, ops);
      }
    }
  }

  lemma NothingKept()
    ensures StateIsHistory(EMPTY, [])
  {
  }

  lemma PopFollows(limits: Limits, ops: seq<Op>)
    requires ops != [] && ops[|ops| - 1].PopOp?
    requires Follows(RunOps(limits, ops[..|ops| - 1]).mailbox, History(limits, ops[..|ops| - 1]))
    ensures Follows(RunOps(limits, ops).mailbox, History(limits, ops))
  {
  }

  /**
   The answer to a push, in every run. A Reset is queued exactly when it is complete and comes after every
   Reset taken so far. Damage and boundaries of the last Reset's surface are turned down exactly when they are
   not newer than what was taken, do not fit, or do not complete what was taken last; and of what is not
   turned down a full snapshot is asked for exactly when a limit would be exceeded.
   */
  lemma PushedExactlyWhen(limits: Limits, ops: seq<Op>, e: Enqueued)
    ensures OnPush(limits, RunOps(limits, ops).mailbox, e).outcome
         == Answer(limits, RunOps(limits, ops).mailbox.queue, History(limits, ops), e.update)
  {
    hide OnPush, Answer, StateIsHistory;
    EveryRunFollows(limits, ops);
    PushAnswer(limits, RunOps(limits, ops).mailbox, History(limits, ops), e);
  }
}
