/** Which updates the transaction compiler accepts after a stream, and how it names the fault of one it does not. */
module CompilerAdmission {
  import opened Bytes
  import opened Results
  import opened FrameSurface
  import opened TransactionCompiler
  import opened CompiledStreams

  /** Every update accepted so far is of an earlier generation. */
  predicate AllBefore(t: seq<Enqueued>, generation: u64) {
    forall i :: 0 <= i < |t| ==> t[i].update.generation < generation
  }

  /** Every boundary of this generation accepted so far is of an earlier revision. */
  predicate Newer(t: seq<Enqueued>, generation: u64, revision: u64) {
    forall i :: 0 <= i < |t| && t[i].update.FrameBoundary? && t[i].update.generation == generation ==>
      t[i].update.revision < revision
  }

  /** Whether the update may come next in a stream of this session that was accepted so far. */
  predicate MayEnter(session: u64, t: seq<Enqueued>, u: SurfaceUpdate) {
    && u.session == session
    && match u
       case Reset(_, generation, size, _) =>
         generation != 0 && size.width != 0 && size.height != 0 && AllBefore(t, generation)
       case Damage(_, generation, revision, _) =>
         && t != [] && !t[|t| - 1].update.Damage? && t[|t| - 1].update.generation == generation
         && revision != 0 && Newer(t, generation, revision)
       case FrameBoundary(_, generation, revision, completeness) =>
         && t != [] && t[|t| - 1].update.Damage?
         && t[|t| - 1].update.generation == generation && t[|t| - 1].update.revision == revision
         && (|t| >= 2 && t[|t| - 2].update.Reset? ==> completeness == FullBaseline)
  }

  /** The generations and revisions the compiler keeps are the greatest of the stream. */
  ghost predicate Greatest(c: Compiler, t: seq<Enqueued>) {
    && Holds(c, t)
    && (t != [] ==>
          && CurrentGeneration(c) == Some(t[|t| - 1].update.generation)
          && t[|t| - 1].update.generation != 0
          && (forall i :: 0 <= i < |t| ==> t[i].update.generation <= t[|t| - 1].update.generation))
    && (c.active.Some? ==>
          && c.active.value.lastRevision != 0
          && (exists i :: 0 <= i < |t| && t[i].update.FrameBoundary?
                          && t[i].update.generation == c.active.value.generation
                          && t[i].update.revision == c.active.value.lastRevision)
          && forall i :: 0 <= i < |t| && t[i].update.FrameBoundary?
                         && t[i].update.generation == c.active.value.generation ==>
               t[i].update.revision <= c.active.value.lastRevision)
    && (forall i :: 0 <= i < |t| && t[i].update.FrameBoundary? ==>
          c.active.Some? && t[i].update.generation <= c.active.value.generation)
    && (c.startup.Some? && c.active.Some? ==> c.active.value.generation < c.startup.value.reset.generation)
    && (forall i :: 0 <= i < |t| && t[i].update.Damage? ==> t[i].update.revision != 0)
  }

  /** The stream ends with a Reset, or a Reset and its damage. */
  predicate IsStarting(t: seq<Enqueued>) {
    && t != []
    && (|| t[|t| - 1].update.Reset?
        || (t[|t| - 1].update.Damage? && |t| >= 2 && t[|t| - 2].update.Reset?))
  }

  /** Of another generation than the stream is at, or not newer than what was completed in it. */
  predicate IsStale(t: seq<Enqueued>, u: SurfaceUpdate)
    requires t != [] && !u.Reset?
  {
    || u.generation != t[|t| - 1].update.generation
    || ((u.Damage? || !IsStarting(t)) && (u.revision == 0 || !Newer(t, u.generation, u.revision)))
  }

  /** What is wrong with an update that comes next, if anything. */
  function Fault(session: u64, t: seq<Enqueued>, u: SurfaceUpdate): Option<FrameTransactionError> {
    if u.session != session then Some(ForeignSession)
    else if u.Reset? then
      if u.generation == 0 || u.size.width == 0 || u.size.height == 0 then Some(InvalidReset)
      else if !AllBefore(t, u.generation) then Some(StaleReset)
      else None
    else if t == [] then Some(UpdateBeforeReset)
    else
      var last := t[|t| - 1].update;
      if IsStale(t, u) then Some(StaleUpdate)
      else if u.Damage? then
        if !last.Damage? then None
        else Some(if u.revision == last.revision then DuplicateDamage else RevisionWhilePending)
      else if !last.Damage? then Some(BoundaryWithoutDamage)
      else if u.revision != last.revision then Some(BoundaryMismatch)
      else if IsStarting(t) && u.completeness != FullBaseline then Some(StartupBoundaryNotFullBaseline)
      else None
  }

  lemma AcceptedNext(c: Compiler, t: seq<Enqueued>, e: Enqueued)
    requires Greatest(c, t)
    ensures OnUpdate(c, e).Next? <==> MayEnter(c.session, t, e.update)
    ensures OnUpdate(c, e).Fails? ==> Fault(c.session, t, e.update) == Some(OnUpdate(c, e).error)
    ensures OnUpdate(c, e).Next? ==> Fault(c.session, t, e.update) == None
  {
  }

  lemma NextIsGreatest(c: Compiler, t: seq<Enqueued>, e: Enqueued)
    requires Greatest(c, t) && OnUpdate(c, e).Next?
    requires forall i :: 0 <= i < |t| ==> t[i].update.session == c.session
    ensures Greatest(OnUpdate(c, e).compiler, t + [e])
  {
    StepHolds(c, t, e);
    var grown := t + [e];
    assert grown[|t|] == e && forall i :: 0 <= i < |t| ==> grown[i] == t[i];
    if e.update.FrameBoundary? {
      assert grown[|t|].update.FrameBoundary?;
    } else if c.active.Some? {
      var i :| 0 <= i < |t| && t[i].update.FrameBoundary?
               && t[i].update.generation == c.active.value.generation
               && t[i].update.revision == c.active.value.lastRevision;
      assert grown[i].update.FrameBoundary?;
    }
  }

  lemma FreshIsGreatest(session: u64)
    ensures Greatest(Fresh(session), [])
  {
  }

  lemma {:induction false} AcceptedStreamIsGreatest(session: u64, t: seq<Enqueued>)
    requires CompileAll(Fresh(session), t).error == None
    ensures Greatest(CompileAll(Fresh(session), t).compiler, t)
  {
    hide OnUpdate, Greatest;
    if t == [] {
      FreshIsGreatest(session);
    } else {
      var front, last := t[..|t| - 1], t[|t| - 1];
      AcceptedStreamIsGreatest(session, front);
      EmitsAssembled(session, front);
      NextIsGreatest(CompileAll(Fresh(session), front).compiler, front, last);
      assert front + [last] == t;
    }
  }

  /**
   After any stream that was accepted, the next update is accepted exactly when the stream allows it, and one
   that is not is refused with the error that names its fault.
   */
  lemma CompiledExactlyWhen(session: u64, t: seq<Enqueued>, e: Enqueued)
    requires CompileAll(Fresh(session), t).error == None
    ensures CompileAll(Fresh(session), t + [e]).error == None <==> MayEnter(session, t, e.update)
    ensures CompileAll(Fresh(session), t + [e]).error == Fault(session, t, e.update)
  {
    hide OnUpdate, Greatest, MayEnter, Fault;
    AcceptedStreamIsGreatest(session, t);
    EmitsAssembled(session, t);
    AcceptedNext(CompileAll(Fresh(session), t).compiler, t, e);
    assert (t + [e])[..|t|] == t;
  }
}
