/** What the transaction compiler makes of whole streams, and of the streams the mailbox delivers. */
module CompiledStreams {
  import opened Bytes
  import opened Results
  import opened FrameSurface
  import opened FrameMailbox
  import opened MailboxDelivery
  import opened TransactionCompiler

  // ---------- A reference for what is emitted ----------

  function ResetOf(e: Enqueued): FrameReset
    requires e.update.Reset?
  {
    FrameReset(e.update.session, e.update.generation, e.update.size, e.update.format)
  }

  function DamageOf(e: Enqueued): PendingDamage
    requires e.update.Damage?
  {
    PendingDamage(e.update.generation, e.update.revision, e.update.patches, e.at)
  }

  function RevisionOf(damage: Enqueued, boundary: Enqueued): FrameRevision
    requires damage.update.Damage? && boundary.update.FrameBoundary?
  {
    FrameRevision(damage.update.session, damage.update.generation, damage.update.revision, damage.update.patches,
                  boundary.update.completeness)
  }

  /**
   The transaction a boundary completes, read off its neighbours: a Reset and a Damage directly before it
   make a Startup, a Damage alone makes a Revision. The enqueue time is the earliest of the parts.
   */
  function TransactionAt(t: seq<Enqueued>, i: nat): seq<FrameTransaction>
    requires i < |t|
  {
    if !t[i].update.FrameBoundary? || i == 0 || !t[i - 1].update.Damage? then []
    else if i >= 2 && t[i - 2].update.Reset? then
      [Startup(Min(Min(t[i - 2].at, t[i - 1].at), t[i].at), ResetOf(t[i - 2]), RevisionOf(t[i - 1], t[i]))]
    else [Revision(Min(t[i - 1].at, t[i].at), RevisionOf(t[i - 1], t[i]))]
  }

  /** A transaction waits since the first of its parts was queued. */
  lemma WaitsSinceTheFirst(t: seq<Enqueued>, i: nat)
    requires i < |t| && TransactionAt(t, i) != []
    ensures var earliest := TransactionAt(t, i)[0].earliest;
            var parts := if TransactionAt(t, i)[0].Startup? then 3 else 2;
            && parts == SourceUpdateCount(TransactionAt(t, i)[0]) <= i + 1
            && (forall j :: i - parts < j <= i ==> earliest <= t[j].at)
            && (exists j :: i - parts < j <= i && earliest == t[j].at)
  {
    var earliest := TransactionAt(t, i)[0].earliest;
    assert earliest == t[i].at || earliest == t[i - 1].at || (i >= 2 && earliest == t[i - 2].at);
  }

  function Assembled(t: seq<Enqueued>): seq<FrameTransaction> {
    if t == [] then [] else Assembled(t[..|t| - 1]) + TransactionAt(t, |t| - 1)
  }

  predicate HoldsAfterReset(c: Compiler, last: Enqueued)
    requires last.update.Reset?
  {
    c.startup == Some(PendingStartup(ResetOf(last), last.at, None)) && c.revision == None
  }

  predicate HoldsAfterDamage(c: Compiler, before: Enqueued, last: Enqueued)
    requires last.update.Damage?
  {
    if before.update.Reset? then
      && c.revision == None
      && c.startup == Some(PendingStartup(ResetOf(before), Min(before.at, last.at), Some(DamageOf(last))))
      && last.update.generation == before.update.generation
    else
      && c.startup == None
      && c.revision == Some(DamageOf(last))
      && c.active.Some?
      && c.active.value.generation == last.update.generation
      && c.active.value.lastRevision < last.update.revision
  }

  predicate HoldsAfterBoundary(c: Compiler, last: Enqueued)
    requires last.update.FrameBoundary?
  {
    c.startup == None && c.revision == None && c.active == Some(Active(last.update.generation, last.update.revision))
  }

  /** What the compiler holds after a stream it has compiled without error, read off the stream's end. */
  predicate Holds(c: Compiler, t: seq<Enqueued>) {
    if |t| == 0 then c.active == None && c.startup == None && c.revision == None
    else if t[|t| - 1].update.Reset? then HoldsAfterReset(c, t[|t| - 1])
    else if t[|t| - 1].update.Damage? then |t| >= 2 && HoldsAfterDamage(c, t[|t| - 2], t[|t| - 1])
    else HoldsAfterBoundary(c, t[|t| - 1])
  }

  lemma StepHolds(c: Compiler, t: seq<Enqueued>, e: Enqueued)
    requires Holds(c, t) && OnUpdate(c, e).Next?
    requires forall i :: 0 <= i < |t| ==> t[i].update.session == c.session
    ensures OnUpdate(c, e).compiler.session == c.session == e.update.session
    ensures Holds(OnUpdate(c, e).compiler, t + [e])
    ensures OnUpdate(c, e).emitted == TransactionAt(t + [e], |t|)
  {
    var u := t + [e];
    assert u[|u| - 1] == e;
    assert forall i :: 0 <= i < |t| ==> u[i] == t[i];
  }

  /** Whatever a fresh compiler accepts, it emits exactly the transactions read off the stream. */
  lemma {:induction false} EmitsAssembled(session: u64, t: seq<Enqueued>)
    requires CompileAll(Fresh(session), t).error == None
    ensures forall i :: 0 <= i < |t| ==> t[i].update.session == session
    ensures CompileAll(Fresh(session), t).compiler.session == session
    ensures Holds(CompileAll(Fresh(session), t).compiler, t)
    ensures CompileAll(Fresh(session), t).transactions == Assembled(t)
  {
    hide OnUpdate;
    if t != [] {
      var front, last := t[..|t| - 1], t[|t| - 1];
      EmitsAssembled(session, front);
      StepHolds(CompileAll(Fresh(session), front).compiler, front, last);
      assert front + [last] == t;
    }
  }

  // ---------- Order within and across generations ----------

  /** A Startup is a full baseline of a later generation; a Revision continues the generation before it. */
  ghost predicate Chained(ts: seq<FrameTransaction>) {
    ts != [] ==>
      && Chained(ts[..|ts| - 1])
      && var last := ts[|ts| - 1].revision;
      && (ts[|ts| - 1].Startup? ==>
            && last.completeness == FullBaseline
            && (|ts| >= 2 ==> last.generation > ts[|ts| - 2].revision.generation))
      && (ts[|ts| - 1].Revision? ==>
            && |ts| >= 2
            && last.generation == ts[|ts| - 2].revision.generation
            && last.revision > ts[|ts| - 2].revision.revision)
  }

  ghost predicate ActiveIsLast(c: Compiler, ts: seq<FrameTransaction>) {
    && Consistent(c)
    && (c.active.Some? <==> ts != [])
    && (ts != [] ==>
          && c.active.value.generation == ts[|ts| - 1].revision.generation
          && c.active.value.lastRevision == ts[|ts| - 1].revision.revision
          && (c.startup.Some? ==> c.startup.value.reset.generation > c.active.value.generation))
  }

  lemma StepChains(c: Compiler, ts: seq<FrameTransaction>, e: Enqueued)
    requires ActiveIsLast(c, ts) && Chained(ts) && OnUpdate(c, e).Next?
    ensures ActiveIsLast(OnUpdate(c, e).compiler, ts + OnUpdate(c, e).emitted)
    ensures Chained(ts + OnUpdate(c, e).emitted)
  {
    var step := OnUpdate(c, e);
    if step.emitted == [] {
      assert ts + step.emitted == ts;
    } else {
      assert |step.emitted| == 1;
      var longer := ts + step.emitted;
      assert longer[..|longer| - 1] == ts;
    }
  }

  lemma {:induction false} EmitsChained(session: u64, t: seq<Enqueued>)
    requires CompileAll(Fresh(session), t).error == None
    ensures ActiveIsLast(CompileAll(Fresh(session), t).compiler, CompileAll(Fresh(session), t).transactions)
    ensures Chained(CompileAll(Fresh(session), t).transactions)
  {
    hide OnUpdate, Consistent;
    if t == [] {
      assert Consistent(Fresh(session)) by { FreshIsConsistent(session); }
    } else {
      var front := t[..|t| - 1];
      EmitsChained(session, front);
      var before := CompileAll(Fresh(session), front);
      StepChains(before.compiler, before.transactions, t[|t| - 1]);
    }
  }

  lemma FreshIsConsistent(session: u64)
    ensures Consistent(Fresh(session))
  {
  }

  lemma {:induction false} ChainedOrder(ts: seq<FrameTransaction>, i: nat, j: nat)
    requires Chained(ts) && i < j < |ts|
    ensures ts[i].revision.generation <= ts[j].revision.generation
    ensures ts[i].revision.generation == ts[j].revision.generation ==>
              ts[j].Revision? && ts[i].revision.revision < ts[j].revision.revision
    decreases |ts|
  {
    var front := ts[..|ts| - 1];
    if j < |ts| - 1 {
      ChainedOrder(front, i, j);
    } else if i < |ts| - 2 {
      ChainedOrder(front, i, |ts| - 2);
    }
  }

  /**
   Among the transactions of one run generations never go back; within a generation revisions strictly
   increase and only the first transaction is a Startup, which is a full baseline.
   */
  lemma TransactionsAreOrdered(session: u64, t: seq<Enqueued>, i: nat, j: nat)
    requires CompileAll(Fresh(session), t).error == None
    requires i < j < |CompileAll(Fresh(session), t).transactions|
    ensures var ts := CompileAll(Fresh(session), t).transactions;
            && ts[0].Startup? && ts[0].revision.completeness == FullBaseline
            && (ts[j].Startup? ==> ts[j].revision.completeness == FullBaseline)
            && ts[i].revision.generation <= ts[j].revision.generation
            && (ts[i].revision.generation == ts[j].revision.generation ==>
                  ts[j].Revision? && ts[i].revision.revision < ts[j].revision.revision)
  {
    hide OnUpdate, CompileAll;
    EmitsChained(session, t);
    var ts := CompileAll(Fresh(session), t).transactions;
    ChainedOrder(ts, i, j);
    ChainedPrefix(ts, 1);
    ChainedPrefix(ts, j + 1);
    assert ts[..j + 1][|ts[..j + 1]| - 1] == ts[j];
    assert ts[..1] == [ts[0]];
  }

  lemma {:induction false} ChainedPrefix(ts: seq<FrameTransaction>, n: nat)
    requires Chained(ts) && n <= |ts|
    ensures Chained(ts[..n])
    decreases |ts|
  {
    if n < |ts| {
      assert ts[..|ts| - 1][..n] == ts[..n];
      ChainedPrefix(ts[..|ts| - 1], n);
    } else {
      assert ts[..n] == ts;
    }
  }

  // ---------- Orderly streams ----------

  /** No two damages in a row, and the boundary that would complete a Startup is a full baseline. */
  predicate PairedAt(t: seq<Enqueued>, i: int)
    requires 0 <= i < |t|
  {
    && !(i >= 1 && t[i - 1].update.Damage? && t[i].update.Damage?)
    && (i >= 2 && t[i - 2].update.Reset? && t[i - 1].update.Damage? && t[i].update.FrameBoundary? ==>
          t[i].update.completeness == FullBaseline)
  }

  predicate WellPaired(t: seq<Enqueued>) {
    forall i :: 0 <= i < |t| ==> PairedAt(t, i)
  }

  predicate AtSurface(c: Compiler, r: Reached) {
    && r.session == c.session
    && CurrentGeneration(c) == Some(r.generation)
    && (c.startup != None ==> c.startup.value.reset.generation == r.generation)
    && (c.startup == None ==> c.active.Some? && c.active.value.lastRevision <= r.revision)
  }

  /** The compiler's generations are those the stream has reached. */
  predicate Follows(c: Compiler, t: seq<Enqueued>) {
    && Holds(c, t)
    && (|t| > 0 ==>
          && ReachedBy(t).Some?
          && AtSurface(c, ReachedBy(t).value)
          && (t[|t| - 1].update.Damage? ==> t[|t| - 1].update.revision == ReachedBy(t).value.revision))
  }

  lemma NothingReached()
    ensures ReachedBy([]) == None
  {
  }

  /** The one way an orderly update can fail: it breaks the pairing, and the error says how. */
  lemma {:induction false} OrderlyUpdate(c: Compiler, t: seq<Enqueued>, e: Enqueued)
    requires Follows(c, t) && Orderly(t + [e]) && e.update.session == c.session
    ensures OnUpdate(c, e).Next? <==> PairedAt(t + [e], |t|)
    ensures OnUpdate(c, e).Fails? ==>
              OnUpdate(c, e).error == if e.update.Damage? then RevisionWhilePending else StartupBoundaryNotFullBaseline
  {
    hide Orderly, ReachedBy;
    OrderlySnoc(t, e);
    NothingReached();
    var u := t + [e];
    assert u[|t|] == e && (|t| >= 1 ==> u[|t| - 1] == t[|t| - 1]) && (|t| >= 2 ==> u[|t| - 2] == t[|t| - 2]);
  }

  lemma OrderlyFollows(c: Compiler, t: seq<Enqueued>, e: Enqueued)
    requires Follows(c, t) && Orderly(t + [e]) && OnUpdate(c, e).Next?
    requires forall i :: 0 <= i < |t| ==> t[i].update.session == c.session
    ensures Follows(OnUpdate(c, e).compiler, t + [e])
  {
    hide Orderly, ReachedBy, Holds;
    OrderlySnoc(t, e);
    StepHolds(c, t, e);
    GenerationStep(c, t, e);
  }

  /** The generation and revision the compiler is at follow the stream's. */
  lemma GenerationStep(c: Compiler, t: seq<Enqueued>, e: Enqueued)
    requires Follows(c, t) && MayFollow(t, e.update) && OnUpdate(c, e).Next?
    ensures CurrentGeneration(OnUpdate(c, e).compiler) == Some(e.update.generation)
    ensures var next := OnUpdate(c, e).compiler;
            next.startup == None && !e.update.Reset? ==>
              next.active.Some? && ReachedBy(t).Some? &&
              next.active.value.lastRevision
              <= if e.update.Damage? then e.update.revision else ReachedBy(t).value.revision
    ensures OnUpdate(c, e).compiler.startup != None ==>
              OnUpdate(c, e).compiler.startup.value.reset.generation == e.update.generation
    ensures e.update.Reset? ==> OnUpdate(c, e).compiler.startup != None
  {
    hide ReachedBy;
  }

  /**
   A fresh compiler accepts an orderly stream of its session exactly when the stream is well paired; on
   any other it stops with one of two errors.
   */
  lemma {:induction false} OrderlyStreamCompiles(session: u64, t: seq<Enqueued>)
    requires Orderly(t) && forall i :: 0 <= i < |t| ==> t[i].update.session == session
    ensures CompileAll(Fresh(session), t).error == None <==> WellPaired(t)
    ensures CompileAll(Fresh(session), t).error in
              {None, Some(RevisionWhilePending), Some(StartupBoundaryNotFullBaseline)}
    ensures CompileAll(Fresh(session), t).error == None ==>
              CompileAll(Fresh(session), t).compiler.session == session
              && Follows(CompileAll(Fresh(session), t).compiler, t)
  {
    hide OnUpdate, ReachedBy, MayFollow, Follows;
    if t == [] {
      FreshFollows(session);
    } else {
      var front, last := t[..|t| - 1], t[|t| - 1];
      OrderlyStreamCompiles(session, front);
      PairedPrefix(t);
      var before := CompileAll(Fresh(session), front);
      if before.error == None {
        assert front + [last] == t;
        OrderlyUpdate(before.compiler, front, last);
        if OnUpdate(before.compiler, last).Next? {
          OrderlyFollows(before.compiler, front, last);
        }
        SameSession(before.compiler, last);
      }
    }
  }

  lemma SameSession(c: Compiler, e: Enqueued)
    ensures OnUpdate(c, e).Next? ==> OnUpdate(c, e).compiler.session == c.session
  {
  }

  lemma FreshFollows(session: u64)
    ensures Follows(Fresh(session), [])
  {
  }

  lemma PairedPrefix(t: seq<Enqueued>)
    requires t != []
    ensures WellPaired(t) <==> WellPaired(t[..|t| - 1]) && PairedAt(t, |t| - 1)
  {
    var front := t[..|t| - 1];
    forall i | 0 <= i < |front|
      ensures PairedAt(front, i) <==> PairedAt(t, i)
    {
    }
  }

  // ---------- Delivered streams ----------

  predicate OneSession(ops: seq<Op>, session: u64) {
    forall i :: 0 <= i < |ops| && ops[i].PushOp? ==> ops[i].e.update.session == session
  }

  predicate AllOf(t: seq<Enqueued>, session: u64) {
    forall i :: 0 <= i < |t| ==> t[i].update.session == session
  }

  lemma {:induction false} KeptSubset(queue: seq<Enqueued>, current: SurfaceState, session: u64)
    requires AllOf(queue, session)
    ensures AllOf(Kept(queue, current), session)
  {
    if queue != [] {
      KeptSubset(queue[..|queue| - 1], current, session);
    }
  }

  lemma {:induction false} StreamOfOneSession(limits: Limits, ops: seq<Op>, session: u64)
    requires OneSession(ops, session)
    ensures AllOf(RunOps(limits, ops).popped, session)
    ensures AllOf(RunOps(limits, ops).mailbox.queue, session)
  {
    hide ValidatedBytes, Kept, QueueBytes;
    if ops != [] {
      var front := ops[..|ops| - 1];
      StreamOfOneSession(limits, front, session);
      var before := RunOps(limits, front);
      if before.mailbox.current.Some? {
        KeptSubset(before.mailbox.queue, before.mailbox.current.value, session);
      }
    }
  }

  /** What a caller that stops at the first failing batch is handed. */
  function CompileBatches(c: Compiler, batches: seq<seq<Enqueued>>): Compiled {
    if batches == [] then Compiled(c, [], None)
    else
      var before := CompileBatches(c, batches[..|batches| - 1]);
      if before.error.Some? then before
      else
        var next := CompileAll(before.compiler, batches[|batches| - 1]);
        next.(transactions := before.transactions + next.transactions)
  }

  function Flattened(batches: seq<seq<Enqueued>>): seq<Enqueued> {
    if batches == [] then [] else Flattened(batches[..|batches| - 1]) + batches[|batches| - 1]
  }

  /** Where the batch with the n-th update starts; behind the last update, where the last batch ends. */
  function Cut(batches: seq<seq<Enqueued>>, n: nat): (m: nat)
    ensures m <= n && m <= |Flattened(batches)|
  {
    if |Flattened(batches)| <= n then |Flattened(batches)| else Cut(batches[..|batches| - 1], n)
  }

  /**
   However a stream is cut into batches, the compiler and the error are those of the whole stream in one
   batch. What is handed out are the transactions finished before the batch that fails.
   */
  lemma {:induction false} BatchesCompileAsOne(c: Compiler, batches: seq<seq<Enqueued>>)
    ensures var t, compiled := Flattened(batches), CompileBatches(c, batches);
            && compiled.compiler == CompileAll(c, t).compiler
            && compiled.error == CompileAll(c, t).error
            && compiled.transactions == CompileAll(c, t[..Cut(batches, Accepted(c, t))]).transactions
  {
    hide CompileAll, Accepted;
    var t := Flattened(batches);
    assert t[..|t|] == t;
    if batches == [] {
      EmptyBatch(c);
    } else {
      var front, last := batches[..|batches| - 1], batches[|batches| - 1];
      var f := Flattened(front);
      BatchesCompileAsOne(c, front);
      BatchesInTurn(c, f, last);
      assert t[..Cut(front, Accepted(c, f))] == f[..Cut(front, Accepted(c, f))];
      assert t[..|f|] == f[..|f|] == f;
    }
  }

  lemma EmptyBatch(c: Compiler)
    ensures CompileAll(c, []) == Compiled(c, [], None) && Accepted(c, []) == 0
  {
  }

  /**
   Two ways of cutting a stream hand out the same transactions exactly when no boundary lies between the
   starts of the batches that fail. Otherwise the one whose failing batch starts earlier drops the rest.
   */
  lemma CuttingMattersExactlyWhen(c: Compiler, one: seq<seq<Enqueued>>, other: seq<seq<Enqueued>>)
    requires Flattened(one) == Flattened(other)
    requires Cut(one, Accepted(c, Flattened(one))) <= Cut(other, Accepted(c, Flattened(one)))
    ensures var t := Flattened(one);
            var n := Accepted(c, t);
            var from, to := Cut(one, n), Cut(other, n);
            var less, more := CompileBatches(c, one), CompileBatches(c, other);
            && less.compiler == more.compiler && less.error == more.error
            && less.transactions <= more.transactions
            && (less.transactions == more.transactions <==>
                  forall i :: from <= i < to ==> !t[i].update.FrameBoundary?)
  {
    hide CompileAll, Accepted, CompileBatches, Cut, Flattened;
    BatchesCompileAsOne(c, one);
    BatchesCompileAsOne(c, other);
    var t := Flattened(one);
    var n := Accepted(c, t);
    var from, to := Cut(one, n), Cut(other, n);
    StopsAtFirstFailure(c, t);
    assert t[..n][..to] == t[..to] && t[..to][..from] == t[..from];
    PartFinishes(c, t[..n], to);
    PartFinishes(c, t[..to], from);
    assert forall i :: from <= i < to ==> t[..to][i] == t[i];
  }

  /** The first update that breaks the pairing; behind the last one if none does. */
  function FirstUnpaired(t: seq<Enqueued>): (n: nat)
    ensures n <= |t| && (forall i :: 0 <= i < n ==> PairedAt(t, i)) && (n < |t| ==> !PairedAt(t, n))
  {
    if t == [] then 0
    else
      var front := t[..|t| - 1];
      var n := FirstUnpaired(front);
      assert forall i :: 0 <= i < |front| ==> PairedAt(front, i) == PairedAt(t, i);
      if n < |front| then n else if PairedAt(t, |front|) then |t| else |front|
  }

  /** An orderly stream is compiled up to the first update that breaks the pairing. */
  lemma OrderlyStreamStops(session: u64, t: seq<Enqueued>)
    requires Orderly(t) && AllOf(t, session)
    ensures Accepted(Fresh(session), t) == FirstUnpaired(t)
  {
    hide CompileAll, Accepted, Orderly, PairedAt;
    var n := Accepted(Fresh(session), t);
    StopsAtFirstFailure(Fresh(session), t);
    OrderlyPrefix(t, n);
    OrderlyStreamCompiles(session, t[..n]);
    PairedInPrefix(t, n);
    if n < |t| {
      OrderlyPrefix(t, n + 1);
      OrderlyStreamCompiles(session, t[..n + 1]);
      PairedInPrefix(t, n + 1);
      FailsBeyond(Fresh(session), t, n);
    }
  }

  lemma PairedInPrefix(t: seq<Enqueued>, n: nat)
    requires n <= |t|
    ensures WellPaired(t[..n]) <==> forall i :: 0 <= i < n ==> PairedAt(t, i)
  {
    assert forall i :: 0 <= i < n ==> PairedAt(t[..n], i) == PairedAt(t, i);
  }

  lemma FailsBeyond(c: Compiler, t: seq<Enqueued>, n: nat)
    requires n < |t| && CompileAll(c, t[..n]).error == None
    requires OnUpdate(CompileAll(c, t[..n]).compiler, t[n]).Fails?
    ensures CompileAll(c, t[..n + 1]).error.Some?
  {
    assert t[..n + 1][..n] == t[..n];
  }

  /**
   Whatever is pushed and popped in one session, and however the popped stream is cut into batches, the
   compiler accepts it exactly when it is well paired; otherwise it fails with a revision while one is
   pending or with a startup boundary that is not a full baseline, never in another way. The transactions
   handed out are those read off the stream up to the batch with the first update that breaks the pairing:
   the ones finished in that batch are lost, so nothing is exactly when no boundary stands in it before.
   */
  lemma DeliveredStreamCompiles(limits: Limits, ops: seq<Op>, session: u64, batches: seq<seq<Enqueued>>)
    requires limits.entries > 0 && OneSession(ops, session)
    requires Flattened(batches) == RunOps(limits, ops).popped
    ensures var popped, compiled := RunOps(limits, ops).popped, CompileBatches(Fresh(session), batches);
            && (compiled.error == None <==> WellPaired(popped))
            && compiled.error in {None, Some(RevisionWhilePending), Some(StartupBoundaryNotFullBaseline)}
            && var n := FirstUnpaired(popped);
            && compiled.transactions == Assembled(popped[..Cut(batches, n)])
            && (compiled.transactions == Assembled(popped[..n]) <==>
                  forall i :: Cut(batches, n) <= i < n ==> !popped[i].update.FrameBoundary?)
  {
    hide RunOps, CompileAll, CompileBatches, QueueShape, CurrentAgrees, Orderly, WellPaired, Assembled, Cut;
    hide Accepted, Flattened, FirstUnpaired;
    EveryRunKeepsInvariant(limits, ops);
    var run := RunOps(limits, ops);
    var t := run.popped;
    assert Stream(run)[..|t|] == t;
    OrderlyPrefix(Stream(run), |t|);
    StreamOfOneSession(limits, ops, session);
    OrderlyStreamCompiles(session, t);
    BatchesCompileAsOne(Fresh(session), batches);
    OrderlyStreamStops(session, t);
    StopsAtFirstFailure(Fresh(session), t);
    var n := FirstUnpaired(t);
    var m := Cut(batches, n);
    PartFinishes(Fresh(session), t[..n], m);
    assert t[..n][..m] == t[..m];
    assert forall i :: m <= i < n ==> t[..n][i] == t[i];
    EmitsAssembled(session, t[..m]);
    EmitsAssembled(session, t[..n]);
  }

  // ---------- Without overflow ----------

  /**
   Positions of a stream in the sequence of accepted updates: the last ones agree, and unless a Reset
   cut in, neighbours stay neighbours.
   */
  ghost predicate Tracks(accepted: seq<Enqueued>, t: seq<Enqueued>, at: seq<nat>) {
    && |at| == |t|
    && (forall i :: 0 <= i < |t| ==> at[i] < |accepted| && accepted[at[i]] == t[i])
    && (forall i :: 0 < i < |t| && !t[i].update.Reset? ==> at[i] == at[i - 1] + 1)
    && (t == [] <==> accepted == [])
    && (t != [] ==> at[|t| - 1] == |accepted| - 1)
  }

  lemma TracksSnoc(accepted: seq<Enqueued>, t: seq<Enqueued>, at: seq<nat>, n: nat, e: Enqueued)
    requires Tracks(accepted, t, at) && n <= |t| && (n == |t| || e.update.Reset?)
    ensures Tracks(accepted + [e], t[..n] + [e], at[..n] + [|accepted|])
  {
  }

  lemma {:induction false} NoOverflowTracks(limits: Limits, ops: seq<Op>) returns (at: seq<nat>)
    requires limits.entries > 0 && !RunOps(limits, ops).overflowed
    ensures |at| == |Stream(RunOps(limits, ops))|
    ensures Tracks(RunOps(limits, ops).accepted, Stream(RunOps(limits, ops)), at)
  {
    hide QueueShape, CurrentAgrees, Orderly, QueueBytes, Kept, ValidatedBytes, Tracks;
    if ops == [] {
      at := [];
      NothingTracks();
    } else {
      var front := ops[..|ops| - 1];
      at := NoOverflowTracks(limits, front);
      EveryRunKeepsInvariant(limits, front);
      var before, after := RunOps(limits, front), RunOps(limits, ops);
      match ops[|ops| - 1] {
        case PushOp(e) =>
          if OnPush(limits, before.mailbox, e).outcome == Queued {
            PushKeepsInvariant(limits, before, e, after);
            var n := if e.update.Reset? then |before.popped| else |Stream(before)|;
            assert Stream(before)[..n] == if e.update.Reset? then before.popped else Stream(before);
            TracksSnoc(before.accepted, Stream(before), at, n, e);
            at := at[..n] + [|before.accepted|];
          } else {
            assert OnPush(limits, before.mailbox, e).mailbox == before.mailbox;
          }
        case PopOp =>
          if before.mailbox.queue != [] {
            PopKeepsInvariant(limits, before, after);
          }
      }
    }
  }

  lemma NothingTracks()
    ensures Tracks([], [], [])
  {
  }

  lemma TrackedPairing(accepted: seq<Enqueued>, t: seq<Enqueued>, at: seq<nat>)
    requires Tracks(accepted, t, at) && WellPaired(accepted)
    ensures WellPaired(t)
  {
    forall i | 0 <= i < |t|
      ensures PairedAt(t, i)
    {
      assert PairedAt(accepted, at[i]);
    }
  }

  /**
   If no push ever overflowed and the accepted updates are well paired, the popped stream compiles: no
   interleaving of pops can make the compiler fail.
   */
  lemma NoOverflowNeverFails(limits: Limits, ops: seq<Op>, session: u64, batches: seq<seq<Enqueued>>)
    requires limits.entries > 0 && OneSession(ops, session)
    requires !RunOps(limits, ops).overflowed && WellPaired(RunOps(limits, ops).accepted)
    requires Flattened(batches) == RunOps(limits, ops).popped
    ensures CompileBatches(Fresh(session), batches).error == None
  {
    hide RunOps, CompileBatches;
    var run := RunOps(limits, ops);
    var at := NoOverflowTracks(limits, ops);
    TrackedPairing(run.accepted, Stream(run), at);
    forall i | 0 <= i < |run.popped|
      ensures PairedAt(run.popped, i)
    {
      assert PairedAt(Stream(run), i);
    }
    DeliveredStreamCompiles(limits, ops, session, batches);
  }

  lemma RunSnoc(limits: Limits, ops: seq<Op>, op: Op)
    ensures var before, after := RunOps(limits, ops), RunOps(limits, ops + [op]);
            match op
            case PushOp(e) =>
              var p := OnPush(limits, before.mailbox, e);
              after == Run(p.mailbox, before.popped,
                           if p.outcome == Queued then before.accepted + [e] else before.accepted,
                           before.overflowed || p.outcome == NeedsFullSnapshot)
            case PopOp =>
              after == if before.mailbox.queue == [] then before
                       else Run(OnPop(before.mailbox).mailbox, before.popped + [before.mailbox.queue[0]],
                                before.accepted, before.overflowed)
  {
    assert (ops + [op])[..|ops|] == ops;
  }

  lemma NoOps(limits: Limits)
    ensures RunOps(limits, []) == Run(EMPTY, [], [], false)
  {
  }

  lemma NoPatches(c: SurfaceState)
    ensures ValidatedBytes([], c) == Some(0)
    ensures Kept([], c) == []
  {
  }

  /**
   After an overflow the next damage breaks the pairing exactly when the queue is empty and the last update
   popped is a damage, whose boundary was then lost.
   */
  lemma OverflowBreaksExactlyWhen(limits: Limits, ops: seq<Op>, e: Enqueued, damage: Enqueued)
    requires limits.entries > 0
    requires OnPush(limits, RunOps(limits, ops).mailbox, e).outcome == NeedsFullSnapshot
    requires damage.update.Damage?
    requires OnPush(limits, OnPush(limits, RunOps(limits, ops).mailbox, e).mailbox, damage).outcome == Queued
    ensures var popped := RunOps(limits, ops).popped;
            var queue := OnPush(limits, RunOps(limits, ops).mailbox, e).mailbox.queue;
            var t := popped + queue;
            && Stream(RunOps(limits, ops + [PushOp(e)] + [PushOp(damage)])) == t + [damage]
            && (PairedAt(t + [damage], |t|) <==>
                  !(queue == [] && popped != [] && popped[|popped| - 1].update.Damage?))
  {
    hide RunOps, Kept, QueueBytes, ValidatedBytes, QueueShape;
    OverflowLeavesReset(limits, ops, e);
    RunSnoc(limits, ops, PushOp(e));
    RunSnoc(limits, ops + [PushOp(e)], PushOp(damage));
  }

  lemma QueuedExtendsStream(limits: Limits, ops: seq<Op>, e: Enqueued)
    requires OnPush(limits, RunOps(limits, ops).mailbox, e).outcome == Queued && !e.update.Reset?
    ensures Stream(RunOps(limits, ops + [PushOp(e)])) == Stream(RunOps(limits, ops)) + [e]
  {
    hide RunOps, Kept, QueueBytes, ValidatedBytes;
    RunSnoc(limits, ops, PushOp(e));
  }

  /** An operation that adds nothing to the stream and takes nothing from it. */
  predicate LeavesStream(limits: Limits, ops: seq<Op>, op: Op) {
    op.PopOp? || OnPush(limits, RunOps(limits, ops).mailbox, op.e).outcome !in {Queued, NeedsFullSnapshot}
  }

  lemma {:induction false} StreamStays(limits: Limits, ops: seq<Op>, more: seq<Op>)
    requires forall i :: 0 <= i < |more| ==> LeavesStream(limits, ops + more[..i], more[i])
    ensures Stream(RunOps(limits, ops + more)) == Stream(RunOps(limits, ops))
  {
    hide RunOps, Kept, QueueBytes, ValidatedBytes;
    if more == [] {
      assert ops + more == ops;
    } else {
      var n := |more| - 1;
      var front := more[..n];
      forall i | 0 <= i < n
        ensures LeavesStream(limits, ops + front[..i], front[i])
      {
        assert front[..i] == more[..i];
      }
      StreamStays(limits, ops, front);
      assert LeavesStream(limits, ops + more[..n], more[n]);
      RunSnoc(limits, ops + front, more[n]);
      assert ops + front + [more[n]] == ops + more;
    }
  }

  /**
   The boundary queued for a damage, however many pops and refused pushes later, breaks the pairing exactly
   when the damage follows a Reset and the boundary is no full baseline.
   */
  lemma BoundaryBreaksExactlyWhen(limits: Limits, ops: seq<Op>, damage: Enqueued, more: seq<Op>, boundary: Enqueued)
    requires damage.update.Damage? && boundary.update.FrameBoundary?
    requires OnPush(limits, RunOps(limits, ops).mailbox, damage).outcome == Queued
    requires var after := ops + [PushOp(damage)];
             && (forall i :: 0 <= i < |more| ==> LeavesStream(limits, after + more[..i], more[i]))
             && OnPush(limits, RunOps(limits, after + more).mailbox, boundary).outcome == Queued
    ensures var t := Stream(RunOps(limits, ops)) + [damage];
            && Stream(RunOps(limits, ops + [PushOp(damage)] + more + [PushOp(boundary)])) == t + [boundary]
            && (PairedAt(t + [boundary], |t|) <==>
                  (|t| >= 2 && t[|t| - 2].update.Reset? ==> boundary.update.completeness == FullBaseline))
  {
    hide RunOps, OnPush, Stream;
    var after := ops + [PushOp(damage)];
    QueuedExtendsStream(limits, ops, damage);
    StreamStays(limits, after, more);
    QueuedExtendsStream(limits, after + more, boundary);
  }

  const R := Enqueued(0, Reset(1, 1, PixelSize(1, 1), Bgrx8UnormSrgb))
  const D1 := Enqueued(1, Damage(1, 1, 1, []))
  const B1 := Enqueued(2, FrameBoundary(1, 1, 1, FullBaseline))
  const D2 := Enqueued(3, Damage(1, 1, 2, []))
  const D3 := Enqueued(4, Damage(1, 1, 3, []))
  const FIRST := SurfaceState(1, 1, PixelSize(1, 1), 4, 1, 0, Some(1))
  const COMPLETED := SurfaceState(1, 1, PixelSize(1, 1), 4, 1, 1, None)

  lemma FirstDamageDelivered(limits: Limits) returns (ops: seq<Op>)
    requires limits == Limits(1, 0)
    ensures RunOps(limits, ops) == Run(Mailbox([], 0, Some(FIRST)), [R, D1], [R, D1], false)
  {
    hide RunOps, Kept, QueueBytes, PixelBytes, ValidatedBytes;
    NoOps(limits);
    NothingIsFree();
    NoPatches(FIRST.(lastDamage := 0, boundaryEligible := None));
    RunSnoc(limits, [], PushOp(R));
    RunSnoc(limits, [] + [PushOp(R)], PopOp);
    RunSnoc(limits, [] + [PushOp(R)] + [PopOp], PushOp(D1));
    RunSnoc(limits, [] + [PushOp(R)] + [PopOp] + [PushOp(D1)], PopOp);
    ops := [] + [PushOp(R)] + [PopOp] + [PushOp(D1)] + [PopOp];
  }

  lemma FirstBoundaryLost(limits: Limits) returns (ops: seq<Op>)
    requires limits == Limits(1, 0)
    ensures RunOps(limits, ops) == Run(Mailbox([], 0, Some(COMPLETED)), [R, D1], [R, D1, B1], true)
  {
    hide RunOps, Kept, QueueBytes, PixelBytes, ValidatedBytes;
    var before := FirstDamageDelivered(limits);
    NothingIsFree();
    NoPatches(COMPLETED);
    RunSnoc(limits, before, PushOp(B1));
    RunSnoc(limits, before + [PushOp(B1)], PushOp(D2));
    KeptSnoc([], B1, COMPLETED);
    assert [] + [B1] == [B1];
    ops := before + [PushOp(B1)] + [PushOp(D2)];
  }

  /**
   With overflow it can fail: every damage here is accepted only after the boundary of the one before it,
   but the second damage overflows, which clears that boundary, and the third one is delivered right
   after the first.
   */
  lemma OverflowCanBreakPairing(limits: Limits)
    requires limits == Limits(1, 0)
    ensures exists ops :: RunOps(limits, ops).overflowed && WellPaired(RunOps(limits, ops).accepted)
                          && !WellPaired(RunOps(limits, ops).popped)
  {
    hide RunOps, Kept, QueueBytes, PixelBytes, ValidatedBytes;
    var before := FirstBoundaryLost(limits);
    NothingIsFree();
    NoPatches(COMPLETED);
    RunSnoc(limits, before, PushOp(D3));
    RunSnoc(limits, before + [PushOp(D3)], PopOp);
    var ops := before + [PushOp(D3)] + [PopOp];
    assert RunOps(limits, ops).popped == [R, D1, D3] && RunOps(limits, ops).accepted == [R, D1, B1, D3];
    assert !PairedAt([R, D1, D3], 2);
  }

  /**
   A stream of two batches hands out its Startup before the second fails; as one batch it fails in the same
   way and hands out nothing, though the compiler has gone on all the same.
   */
  lemma CuttingCanMatter()
    ensures var c, a, b := Fresh(1), [R, D1, B1], [D2, D3];
            var parts, whole := CompileBatches(c, [a, b]), CompileBatches(c, [a + b]);
            && parts.error == whole.error == Some(RevisionWhilePending)
            && parts.compiler == whole.compiler && whole.compiler.active == Some(Active(1, 1))
            && |parts.transactions| == 1 && parts.transactions[0].Startup?
            && whole.transactions == []
  {
    var c, a, b := Fresh(1), [R, D1, B1], [D2, D3];
    var one, two := [R], [R, D1];
    assert one[..0] == [] && two[..1] == one && a[..2] == two;
    assert CompileAll(c, []) == Compiled(c, [], None);
    assert CompileAll(c, one).error == None;
    assert CompileAll(c, two).error == None;
    var first := CompileAll(c, a);
    assert first.error == None && first.compiler == Compiler(1, Some(Active(1, 1)), None, None);
    assert b[..1] == [D2] && [D2][..0] == [];
    assert CompileAll(first.compiler, []) == Compiled(first.compiler, [], None);
    assert CompileAll(first.compiler, [D2]).error == None;
    assert CompileAll(first.compiler, b).error == Some(RevisionWhilePending);
    BatchesInTurn(c, a, b);
    OneBatch(c, a);
    OneBatch(c, a + b);
    assert [a, b][..1] == [a];
  }

  lemma OneBatch(c: Compiler, batch: seq<Enqueued>)
    ensures CompileBatches(c, [batch]) == CompileAll(c, batch)
  {
    assert [batch][..0] == [];
    assert CompileBatches(c, []) == Compiled(c, [], None);
  }
}
