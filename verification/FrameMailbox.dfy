/**
 The bounded frame mailbox (crates/frd-frame/src/mailbox.rs): its operations as functions on a value,
 and the class whose methods change the queue in place as those functions say. Sizes are 64 bits wide.
 The instant an update is queued at is a parameter.
 */
module FrameMailbox {
  import opened Bytes
  import opened Results
  import opened FrameSurface

  datatype PushOutcome = Queued | Rejected | NeedsFullSnapshot

  datatype SurfaceState = SurfaceState(
    session: u64,
    generation: u64,
    size: PixelSize,
    bytesPerPixel: u32,
    lastDamage: u64,
    lastBoundary: u64,
    boundaryEligible: Option<u64>)

  datatype Limits = Limits(entries: nat, pixelBytes: u64)

  datatype Mailbox = Mailbox(queue: seq<Enqueued>, bytes: nat, current: Option<SurfaceState>)

  const EMPTY := Mailbox([], 0, None)

  predicate MatchesCurrent(current: SurfaceState, session: u64, generation: u64) {
    current.session == session && current.generation == generation
  }

  predicate ValidPatch(patch: PixelPatch, current: SurfaceState) {
    && HasBounds(patch.rect)
    && patch.rect.x + patch.rect.width <= current.size.width
    && patch.rect.y + patch.rect.height <= current.size.height
    && patch.rect.width * current.bytesPerPixel <= MAX_U32
    && patch.rect.width * current.bytesPerPixel <= patch.strideBytes
    && |patch.pixels| == patch.strideBytes * patch.rect.height
  }

  function PixelBytes(patches: seq<PixelPatch>): nat {
    if patches == [] then 0 else PixelBytes(patches[..|patches| - 1]) + |patches[|patches| - 1].pixels|
  }

  /** The bytes of the patches, unless one is invalid or the sum is not representable. */
  function ValidatedBytes(patches: seq<PixelPatch>, current: SurfaceState): Option<nat> {
    if (forall i :: 0 <= i < |patches| ==> ValidPatch(patches[i], current)) && PixelBytes(patches) <= MAX_U64
    then Some(PixelBytes(patches))
    else None
  }

  function UpdateBytes(update: SurfaceUpdate): nat {
    if update.Damage? then PixelBytes(update.patches) else 0
  }

  function QueueBytes(queue: seq<Enqueued>): nat {
    if queue == [] then 0 else QueueBytes(queue[..|queue| - 1]) + UpdateBytes(queue[|queue| - 1].update)
  }

  /** What overflow leaves of the queue: the updates that are not damage or boundaries of the current surface. */
  function Kept(queue: seq<Enqueued>, current: SurfaceState): seq<Enqueued> {
    if queue == [] then []
    else
      var last := queue[|queue| - 1];
      var front := Kept(queue[..|queue| - 1], current);
      if !last.update.Reset? && MatchesCurrent(current, last.update.session, last.update.generation)
      then front else front + [last]
  }

  datatype Pushed = Pushed(outcome: PushOutcome, mailbox: Mailbox)

  function OnReset(mb: Mailbox, e: Enqueued): Pushed
    requires e.update.Reset?
  {
    var u := e.update;
    if u.generation == 0 || u.size.width == 0 || u.size.height == 0 then Pushed(Rejected, mb)
    else if mb.current.Some?
            && !(u.session == mb.current.value.session && u.generation > mb.current.value.generation)
            && !(u.session > mb.current.value.session)
    then Pushed(Rejected, mb)
    else
      Pushed(Queued, Mailbox([e], 0, Some(SurfaceState(
               u.session, u.generation, u.size, BytesPerPixel(u.format), 0, 0, None))))
  }

  /** Queues within both limits, or clears the current surface's damage and boundaries. */
  function OnCurrent(limits: Limits, mb: Mailbox, e: Enqueued, pixelBytes: nat): Pushed
    requires mb.current.Some?
  {
    if |mb.queue| + 1 > limits.entries || mb.bytes + pixelBytes > limits.pixelBytes then
      var kept := Kept(mb.queue, mb.current.value);
      Pushed(NeedsFullSnapshot,
             Mailbox(kept, QueueBytes(kept), Some(mb.current.value.(boundaryEligible := None))))
    else Pushed(Queued, mb.(queue := mb.queue + [e], bytes := mb.bytes + pixelBytes))
  }

  function OnDamage(limits: Limits, mb: Mailbox, e: Enqueued): Pushed
    requires e.update.Damage?
  {
    var u := e.update;
    if mb.current.None? then Pushed(Rejected, mb)
    else
      var c := mb.current.value;
      if !MatchesCurrent(c, u.session, u.generation) || u.revision == 0 || u.revision <= c.lastDamage
      then Pushed(Rejected, mb)
      else
        var bytes := ValidatedBytes(u.patches, c);
        if bytes.None? then Pushed(Rejected, mb)
        else
          var r := OnCurrent(limits, mb, e, bytes.value);
          if r.outcome != Queued then r
          else
            Pushed(Queued, r.mailbox.(current := Some(r.mailbox.current.value.(
                                     lastDamage := u.revision, boundaryEligible := Some(u.revision)))))
  }

  function OnBoundary(limits: Limits, mb: Mailbox, e: Enqueued): Pushed
    requires e.update.FrameBoundary?
  {
    var u := e.update;
    if mb.current.None? then Pushed(Rejected, mb)
    else
      var c := mb.current.value;
      if || !MatchesCurrent(c, u.session, u.generation)
         || u.revision == 0
         || u.revision != c.lastDamage
         || c.boundaryEligible != Some(u.revision)
         || u.revision <= c.lastBoundary
      then Pushed(Rejected, mb)
      else
        var r := OnCurrent(limits, mb, e, 0);
        if r.outcome != Queued then r
        else
          Pushed(Queued, r.mailbox.(current := Some(r.mailbox.current.value.(
                                   lastBoundary := u.revision, boundaryEligible := None))))
  }

  function OnPush(limits: Limits, mb: Mailbox, e: Enqueued): Pushed {
    match e.update
    case Reset(_, _, _, _) => OnReset(mb, e)
    case Damage(_, _, _, _) => OnDamage(limits, mb, e)
    case FrameBoundary(_, _, _, _) => OnBoundary(limits, mb, e)
  }

  /** Whether one complete surface fits the byte budget. */
  predicate SupportsCompleteSurface(limits: Limits, size: PixelSize, format: PixelFormat) {
    && size.width != 0 && size.height != 0
    && size.width * size.height <= MAX_U64
    && size.width * size.height * BytesPerPixel(format) <= MAX_U64
    && size.width * size.height * BytesPerPixel(format) <= limits.pixelBytes
  }

  lemma QueueBytesSnoc(queue: seq<Enqueued>, e: Enqueued)
    ensures QueueBytes(queue + [e]) == QueueBytes(queue) + UpdateBytes(e.update)
  {
    assert (queue + [e])[..|queue|] == queue;
  }

  lemma {:induction false} QueueBytesCons(e: Enqueued, queue: seq<Enqueued>)
    ensures QueueBytes([e] + queue) == UpdateBytes(e.update) + QueueBytes(queue)
  {
    if queue == [] {
      assert [e] + queue == [e] && [e][..0] == [];
    } else {
      var front, last := queue[..|queue| - 1], queue[|queue| - 1];
      QueueBytesCons(e, front);
      assert [e] + queue == ([e] + front) + [last];
      QueueBytesSnoc([e] + front, last);
    }
  }

  datatype Popped = Popped(popped: Option<Enqueued>, mailbox: Mailbox)

  /** The byte account of a mailbox covers its front entry, which the source relies on with `expect`. */
  function OnPop(mb: Mailbox): Popped
    requires mb.bytes == QueueBytes(mb.queue)
  {
    if mb.queue == [] then Popped(None, mb)
    else
      FrontBytes(mb.queue);
      Popped(Some(mb.queue[0]), mb.(queue := mb.queue[1..], bytes := mb.bytes - UpdateBytes(mb.queue[0].update)))
  }

  lemma FrontBytes(queue: seq<Enqueued>)
    requires queue != []
    ensures QueueBytes(queue) == UpdateBytes(queue[0].update) + QueueBytes(queue[1..])
  {
    QueueBytesCons(queue[0], queue[1..]);
    assert queue == [queue[0]] + queue[1..];
  }

  lemma KeptSnoc(queue: seq<Enqueued>, e: Enqueued, current: SurfaceState)
    ensures Kept(queue + [e], current) ==
            if !e.update.Reset? && MatchesCurrent(current, e.update.session, e.update.generation)
            then Kept(queue, current) else Kept(queue, current) + [e]
  {
    assert (queue + [e])[..|queue|] == queue;
  }

  class FrameMailbox {
    const limits: Limits
    var queue: seq<Enqueued>
    var queuedPixelBytes: nat
    var current: Option<SurfaceState>

    ghost function View(): Mailbox
      reads this
    {
      Mailbox(queue, queuedPixelBytes, current)
    }

    /** The byte account is the sum over the queue. */
    ghost predicate Valid()
      reads this
    {
      limits.entries > 0 && queuedPixelBytes == QueueBytes(queue)
    }

    constructor (entryLimit: nat, pixelByteLimit: u64)
      requires entryLimit > 0
      ensures Valid() && View() == EMPTY && limits == Limits(entryLimit, pixelByteLimit)
    {
      limits := Limits(entryLimit, pixelByteLimit);
      queue, queuedPixelBytes, current := [], 0, None;
    }

    method Push(e: Enqueued) returns (outcome: PushOutcome)
      requires Valid()
      modifies this
      ensures Valid()
      ensures Pushed(outcome, View()) == OnPush(limits, old(View()), e)
    {
      match e.update {
        case Reset(session, generation, size, format) =>
          outcome := PushReset(session, generation, size, BytesPerPixel(format), e);
        case Damage(session, generation, revision, patches) =>
          if current.None? {
            return Rejected;
          }
          if || !MatchesCurrent(current.value, session, generation)
             || revision == 0
             || revision <= current.value.lastDamage {
            return Rejected;
          }
          var pixelBytes := PatchesPixelBytes(patches, current.value);
          if pixelBytes.None? {
            return Rejected;
          }
          outcome := PushCurrent(e, pixelBytes.value);
          if outcome == Queued {
            current := Some(current.value.(lastDamage := revision, boundaryEligible := Some(revision)));
          }
        case FrameBoundary(session, generation, revision, _) =>
          if current.None? {
            return Rejected;
          }
          if || !MatchesCurrent(current.value, session, generation)
             || revision == 0
             || revision != current.value.lastDamage
             || current.value.boundaryEligible != Some(revision)
             || revision <= current.value.lastBoundary
          {
            return Rejected;
          }
          outcome := PushCurrent(e, 0);
          if outcome == Queued {
            current := Some(current.value.(lastBoundary := revision, boundaryEligible := None));
          }
      }
    }

    method PatchesPixelBytes(patches: seq<PixelPatch>, surface: SurfaceState) returns (total: Option<nat>)
      ensures total == ValidatedBytes(patches, surface)
    {
      var sum := 0;
      for i := 0 to |patches|
        invariant forall j :: 0 <= j < i ==> ValidPatch(patches[j], surface)
        invariant sum == PixelBytes(patches[..i]) <= MAX_U64
      {
        assert patches[..i + 1][..i] == patches[..i];
        if !ValidPatch(patches[i], surface) {
          return None;
        }
        if sum + |patches[i].pixels| > MAX_U64 {
          PixelBytesGrows(patches, i + 1);
          return None;
        }
        sum := sum + |patches[i].pixels|;
      }
      assert patches[..|patches|] == patches;
      return Some(sum);
    }

    method PushReset(session: u64, generation: u64, size: PixelSize, bytesPerPixel: u32, e: Enqueued)
      returns (outcome: PushOutcome)
      requires Valid() && e.update.Reset?
      requires session == e.update.session && generation == e.update.generation && size == e.update.size
      requires bytesPerPixel == BytesPerPixel(e.update.format)
      modifies this
      ensures Valid()
      ensures Pushed(outcome, View()) == OnReset(old(View()), e)
    {
      if generation == 0 || size.width == 0 || size.height == 0 {
        return Rejected;
      }
      if current.Some? {
        var advancesCurrentSession := session == current.value.session && generation > current.value.generation;
        var startsNewerSession := session > current.value.session;
        if !advancesCurrentSession && !startsNewerSession {
          return Rejected;
        }
      }
      current := Some(SurfaceState(session, generation, size, bytesPerPixel, 0, 0, None));
      queue := [];
      queuedPixelBytes := 0;
      QueueBytesSnoc([], e);
      queue := queue + [e];
      assert queue == [e];
      return Queued;
    }

    method PushCurrent(e: Enqueued, pixelBytes: nat) returns (outcome: PushOutcome)
      requires Valid() && current.Some? && pixelBytes == UpdateBytes(e.update)
      modifies this
      ensures Valid()
      ensures Pushed(outcome, View()) == OnCurrent(limits, old(View()), e, pixelBytes)
    {
      var entryOverflow := |queue| + 1 > limits.entries;
      var byteOverflow := queuedPixelBytes + pixelBytes > limits.pixelBytes;
      if entryOverflow || byteOverflow {
        ClearCurrentDamageAndBoundaries();
        return NeedsFullSnapshot;
      }
      queuedPixelBytes := queuedPixelBytes + pixelBytes;
      QueueBytesSnoc(queue, e);
      queue := queue + [e];
      return Queued;
    }

    method ClearCurrentDamageAndBoundaries()
      requires Valid() && current.Some?
      modifies this
      ensures Valid()
      ensures queue == Kept(old(queue), old(current).value)
      ensures current == Some(old(current).value.(boundaryEligible := None))
    {
      var kept: seq<Enqueued> := [];
      for i := 0 to |queue|
        invariant unchanged(this)
        invariant kept == Kept(queue[..i], current.value)
      {
        assert queue[..i + 1] == queue[..i] + [queue[i]];
        KeptSnoc(queue[..i], queue[i], current.value);
        var u := queue[i].update;
        if u.Reset? || !MatchesCurrent(current.value, u.session, u.generation) {
          kept := kept + [queue[i]];
        }
      }
      assert queue[..|queue|] == queue;
      queue := kept;
      var total := 0;
      for i := 0 to |kept|
        invariant queue == kept && current == old(current)
        invariant total == QueueBytes(kept[..i])
      {
        assert kept[..i + 1] == kept[..i] + [kept[i]];
        QueueBytesSnoc(kept[..i], kept[i]);
        total := total + UpdateBytes(kept[i].update);
      }
      assert kept[..|kept|] == kept;
      queuedPixelBytes := total;
      current := Some(current.value.(boundaryEligible := None));
    }

    method PopEnqueued() returns (e: Option<Enqueued>)
      requires Valid()
      modifies this
      ensures Valid() && current == old(current)
      ensures old(queue) == [] ==> e == None && unchanged(this)
      ensures old(queue) != [] ==> e == Some(old(queue)[0]) && queue == old(queue)[1..]
      ensures View() == OnPop(old(View())).mailbox && e == OnPop(old(View())).popped
    {
      if queue == [] {
        return None;
      }
      var front := queue[0];
      FrontBytes(queue);
      queue := queue[1..];
      // The account never underflows.
      queuedPixelBytes := queuedPixelBytes - UpdateBytes(front.update);
      return Some(front);
    }
  }

  lemma {:induction false} PixelBytesGrows(patches: seq<PixelPatch>, i: nat)
    requires i <= |patches|
    ensures PixelBytes(patches[..i]) <= PixelBytes(patches)
    decreases |patches| - i
  {
    if i == |patches| {
      assert patches[..i] == patches;
    } else {
      assert patches[..i + 1][..i] == patches[..i];
      PixelBytesGrows(patches, i + 1);
    }
  }
}
