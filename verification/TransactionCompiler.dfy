/**
 The compiler that turns drained updates into complete transactions (crates/frd-frame/src/transaction.rs):
 one update at a time as a function, and the class whose `Compile` loop changes its state in place.
 */
module TransactionCompiler {
  import opened Bytes
  import opened Results
  import opened FrameSurface

  datatype FrameReset = FrameReset(session: u64, generation: u64, size: PixelSize, format: PixelFormat)

  datatype FrameRevision = FrameRevision(
    session: u64, generation: u64, revision: u64, patches: seq<PixelPatch>, completeness: FrameCompleteness)

  datatype FrameTransaction =
    | Startup(earliest: int, reset: FrameReset, revision: FrameRevision)
    | Revision(earliest: int, revision: FrameRevision)

  datatype FrameTransactionError =
    | InvalidReset
    | ForeignSession
    | StaleReset
    | UpdateBeforeReset
    | StaleUpdate
    | DuplicateDamage
    | RevisionWhilePending
    | BoundaryWithoutDamage
    | BoundaryMismatch
    | StartupBoundaryNotFullBaseline

  datatype Active = Active(generation: u64, lastRevision: u64)

  datatype PendingDamage = PendingDamage(generation: u64, revision: u64, patches: seq<PixelPatch>, earliest: int)

  datatype PendingStartup = PendingStartup(reset: FrameReset, earliest: int, damage: Option<PendingDamage>)

  datatype Compiler = Compiler(
    session: u64,
    active: Option<Active>,
    startup: Option<PendingStartup>,
    revision: Option<PendingDamage>)

  function Fresh(session: u64): Compiler {
    Compiler(session, None, None, None)
  }

  /** What one update does: fail, or go on with at most one finished transaction. */
  datatype Step = Fails(error: FrameTransactionError) | Next(compiler: Compiler, emitted: seq<FrameTransaction>)

  function Min(a: int, b: int): int {
    if a <= b then a else b
  }

  function SourceUpdateCount(t: FrameTransaction): nat {
    if t.Startup? then 3 else 2
  }

  function BufferedCount(c: Compiler): nat {
    (if c.startup.Some? then 1 + (if c.startup.value.damage.Some? then 1 else 0) else 0)
    + (if c.revision.Some? then 1 else 0)
  }

  function CurrentGeneration(c: Compiler): Option<u64> {
    match (c.active, c.startup)
    case (None, None) => None
    case (Some(a), None) => Some(a.generation)
    case (None, Some(s)) => Some(s.reset.generation)
    case (Some(a), Some(s)) => Some(if a.generation >= s.reset.generation then a.generation else s.reset.generation)
  }

  function OnReset(c: Compiler, at: int, u: SurfaceUpdate): Step
    requires u.Reset?
  {
    if u.generation == 0 || u.size.width == 0 || u.size.height == 0 then Fails(InvalidReset)
    else
      var current := CurrentGeneration(c);
      if current.Some? && u.generation <= current.value then Fails(StaleReset)
      else
        var reset := FrameReset(u.session, u.generation, u.size, u.format);
        Next(c.(startup := Some(PendingStartup(reset, at, None)), revision := None), [])
  }

  function OnDamage(c: Compiler, at: int, u: SurfaceUpdate): Step
    requires u.Damage?
  {
    var damage := PendingDamage(u.generation, u.revision, u.patches, at);
    if c.startup.Some? then
      var startup := c.startup.value;
      if u.generation != startup.reset.generation || u.revision == 0 then Fails(StaleUpdate)
      else if startup.damage.Some? then
        Fails(if u.revision == startup.damage.value.revision then DuplicateDamage else RevisionWhilePending)
      else
        Next(c.(startup := Some(startup.(earliest := Min(startup.earliest, at), damage := Some(damage)))), [])
    else if c.active.None? then Fails(UpdateBeforeReset)
    else if u.generation != c.active.value.generation || u.revision == 0 || u.revision <= c.active.value.lastRevision
    then Fails(StaleUpdate)
    else if c.revision.Some? then
      Fails(if u.revision == c.revision.value.revision then DuplicateDamage else RevisionWhilePending)
    else Next(c.(revision := Some(damage)), [])
  }

  function OnBoundary(c: Compiler, at: int, u: SurfaceUpdate): Step
    requires u.FrameBoundary?
  {
    var active := Some(Active(u.generation, u.revision));
    if c.startup.Some? then
      var startup := c.startup.value;
      if u.generation != startup.reset.generation then Fails(StaleUpdate)
      else if startup.damage.None? then Fails(BoundaryWithoutDamage)
      else
        var d := startup.damage.value;
        if u.revision != d.revision || u.generation != d.generation then Fails(BoundaryMismatch)
        else if u.completeness != FullBaseline then Fails(StartupBoundaryNotFullBaseline)
        else
          Next(c.(startup := None, active := active),
               [Startup(Min(Min(startup.earliest, d.earliest), at), startup.reset,
                        FrameRevision(c.session, d.generation, d.revision, d.patches, u.completeness))])
    else if c.active.None? then Fails(UpdateBeforeReset)
    else if u.generation != c.active.value.generation || u.revision == 0 || u.revision <= c.active.value.lastRevision
    then Fails(StaleUpdate)
    else if c.revision.None? then Fails(BoundaryWithoutDamage)
    else
      var d := c.revision.value;
      if u.generation != d.generation || u.revision != d.revision then Fails(BoundaryMismatch)
      else
        Next(c.(revision := None, active := active),
             [Revision(Min(d.earliest, at),
                       FrameRevision(c.session, d.generation, d.revision, d.patches, u.completeness))])
  }

  function OnUpdate(c: Compiler, e: Enqueued): Step {
    if e.update.session != c.session then Fails(ForeignSession)
    else
      match e.update
      case Reset(_, _, _, _) => OnReset(c, e.at, e.update)
      case Damage(_, _, _, _) => OnDamage(c, e.at, e.update)
      case FrameBoundary(_, _, _, _) => OnBoundary(c, e.at, e.update)
  }

  /** The compiler after a batch, and its transactions or the error that stopped it. */
  datatype Compiled = Compiled(
    compiler: Compiler, transactions: seq<FrameTransaction>, error: Option<FrameTransactionError>)

  /**
   On an error the rest of the batch is not looked at, the compiler stays as the failing update found it, and
   the transactions finished earlier in the batch are dropped.
   */
  function CompileAll(c: Compiler, updates: seq<Enqueued>): (r: Compiled)
    ensures r.error.Some? ==> r.transactions == []
  {
    if updates == [] then Compiled(c, [], None)
    else
      var before := CompileAll(c, updates[..|updates| - 1]);
      if before.error.Some? then before
      else
        match OnUpdate(before.compiler, updates[|updates| - 1])
        case Fails(error) => Compiled(before.compiler, [], Some(error))
        case Next(next, emitted) => Compiled(next, before.transactions + emitted, None)
  }

  class FrameTransactionCompiler {
    const session: u64
    var active: Option<Active>
    var startup: Option<PendingStartup>
    var revision: Option<PendingDamage>

    ghost function View(): Compiler
      reads this
    {
      Compiler(session, active, startup, revision)
    }

    constructor (session: u64)
      ensures View() == Fresh(session)
    {
      this.session := session;
      active, startup, revision := None, None, None;
    }

    method CompileReset(at: int, u: SurfaceUpdate) returns (error: Option<FrameTransactionError>)
      requires u.Reset?
      modifies this
      ensures var step := OnReset(old(View()), at, u);
              if step.Fails? then error == Some(step.error) && unchanged(this)
              else error == None && View() == step.compiler && step.emitted == []
    {
      if u.generation == 0 || u.size.width == 0 || u.size.height == 0 {
        return Some(InvalidReset);
      }
      if active.Some? && u.generation <= active.value.generation {
        return Some(StaleReset);
      }
      if startup.Some? && u.generation <= startup.value.reset.generation {
        return Some(StaleReset);
      }
      startup := Some(PendingStartup(FrameReset(u.session, u.generation, u.size, u.format), at, None));
      revision := None;
      return None;
    }

    method CompileDamage(at: int, u: SurfaceUpdate) returns (error: Option<FrameTransactionError>)
      requires u.Damage?
      modifies this
      ensures var step := OnDamage(old(View()), at, u);
              if step.Fails? then error == Some(step.error) && unchanged(this)
              else error == None && View() == step.compiler && step.emitted == []
    {
      if startup.Some? {
        if u.generation != startup.value.reset.generation || u.revision == 0 {
          return Some(StaleUpdate);
        }
        if startup.value.damage.Some? {
          return Some(if u.revision == startup.value.damage.value.revision then DuplicateDamage
                      else RevisionWhilePending);
        }
        startup := Some(startup.value.(earliest := Min(startup.value.earliest, at)));
        startup := Some(startup.value.(damage := Some(PendingDamage(u.generation, u.revision, u.patches, at))));
        return None;
      }
      if active.None? {
        return Some(UpdateBeforeReset);
      }
      if u.generation != active.value.generation || u.revision == 0 || u.revision <= active.value.lastRevision {
        return Some(StaleUpdate);
      }
      if revision.Some? {
        return Some(if u.revision == revision.value.revision then DuplicateDamage else RevisionWhilePending);
      }
      revision := Some(PendingDamage(u.generation, u.revision, u.patches, at));
      return None;
    }

    method CompileBoundary(at: int, u: SurfaceUpdate)
      returns (error: Option<FrameTransactionError>, transaction: seq<FrameTransaction>)
      requires u.FrameBoundary?
      modifies this
      ensures var step := OnBoundary(old(View()), at, u);
              if step.Fails? then error == Some(step.error) && unchanged(this)
              else error == None && View() == step.compiler && transaction == step.emitted
    {
      transaction := [];
      if startup.Some? {
        var pending := startup.value;
        if u.generation != pending.reset.generation {
          return Some(StaleUpdate), [];
        }
        if pending.damage.None? {
          return Some(BoundaryWithoutDamage), [];
        }
        var damage := pending.damage.value;
        if u.revision != damage.revision || u.generation != damage.generation {
          return Some(BoundaryMismatch), [];
        }
        if u.completeness != FullBaseline {
          return Some(StartupBoundaryNotFullBaseline), [];
        }
        startup := None;
        active := Some(Active(u.generation, u.revision));
        return None, [Startup(
                        Min(Min(pending.earliest, damage.earliest), at), pending.reset,
                        FrameRevision(session, damage.generation, damage.revision, damage.patches, u.completeness))];
      }
      if active.None? {
        return Some(UpdateBeforeReset), [];
      }
      if u.generation != active.value.generation || u.revision == 0 || u.revision <= active.value.lastRevision {
        return Some(StaleUpdate), [];
      }
      if revision.None? {
        return Some(BoundaryWithoutDamage), [];
      }
      var damage := revision.value;
      if u.generation != damage.generation || u.revision != damage.revision {
        return Some(BoundaryMismatch), [];
      }
      revision := None;
      active := Some(Active(u.generation, u.revision));
      return None, [Revision(
                      Min(damage.earliest, at),
                      FrameRevision(session, damage.generation, damage.revision, damage.patches, u.completeness))];
    }

    method Compile(updates: seq<Enqueued>)
      returns (error: Option<FrameTransactionError>, transactions: seq<FrameTransaction>)
      modifies this
      ensures var compiled := CompileAll(old(View()), updates);
              View() == compiled.compiler && error == compiled.error && transactions == compiled.transactions
    {
      transactions, error := [], None;
      for i := 0 to |updates|
        invariant CompileAll(old(View()), updates[..i]) == Compiled(View(), transactions, None)
        invariant error == None
      {
        assert updates[..i + 1][..i] == updates[..i];
        var e := updates[i];
        if e.update.session != session {
          error := Some(ForeignSession);
        } else {
          match e.update {
            case Reset(_, _, _, _) =>
              error := CompileReset(e.at, e.update);
            case Damage(_, _, _, _) =>
              error := CompileDamage(e.at, e.update);
            case FrameBoundary(_, _, _, _) =>
              var transaction;
              error, transaction := CompileBoundary(e.at, e.update);
              if error.None? {
                transactions := transactions + transaction;
              }
          }
        }
        if error.Some? {
          transactions := [];
          ErrorStops(old(View()), updates, i + 1);
          return;
        }
      }
      assert updates[..|updates|] == updates;
    }
  }

  lemma {:induction false} ErrorStops(c: Compiler, updates: seq<Enqueued>, n: nat)
    requires n <= |updates| && CompileAll(c, updates[..n]).error.Some?
    ensures CompileAll(c, updates) == CompileAll(c, updates[..n])
    decreases |updates| - n
  {
    if n < |updates| {
      assert updates[..n + 1][..n] == updates[..n];
      ErrorStops(c, updates, n + 1);
    } else {
      assert updates[..n] == updates;
    }
  }

  // ---------- What a failing batch drops ----------

  /** How many updates of a batch are compiled before one fails; all of them if none does. */
  function Accepted(c: Compiler, updates: seq<Enqueued>): (n: nat)
    ensures n <= |updates|
    ensures n == |updates| <==> CompileAll(c, updates).error.None?
  {
    if CompileAll(c, updates).error.None? then |updates| else Accepted(c, updates[..|updates| - 1])
  }

  /** The compiler and the error of a batch are those of the first update that fails. */
  lemma {:induction false} StopsAtFirstFailure(c: Compiler, updates: seq<Enqueued>)
    ensures var n, compiled := Accepted(c, updates), CompileAll(c, updates);
            var before := CompileAll(c, updates[..n]);
            && before.error == None && compiled.compiler == before.compiler
            && (n < |updates| ==>
                  compiled.error.Some? && OnUpdate(before.compiler, updates[n]) == Fails(compiled.error.value))
  {
    hide OnUpdate;
    var n := Accepted(c, updates);
    if n == |updates| {
      assert updates[..n] == updates;
    } else {
      var front := updates[..|updates| - 1];
      StopsAtFirstFailure(c, front);
      assert updates[..n] == front[..n];
    }
  }

  /** The transactions that were finished in a batch before it failed. */
  function Dropped(c: Compiler, updates: seq<Enqueued>): seq<FrameTransaction> {
    if CompileAll(c, updates).error.None? then [] else CompileAll(c, updates[..Accepted(c, updates)]).transactions
  }

  // ---------- Batching ----------

  /**
   Two batches in turn leave the compiler as one batch does, with the same error. The transactions are the
   same as well exactly when nothing fails, or nothing was finished before the batch that does.
   */
  lemma {:induction false} BatchesInTurn(c: Compiler, a: seq<Enqueued>, b: seq<Enqueued>)
    ensures var first, whole := CompileAll(c, a), CompileAll(c, a + b);
            if first.error.Some? then whole == first && Accepted(c, a + b) == Accepted(c, a)
            else
              var second := CompileAll(first.compiler, b);
              && whole.compiler == second.compiler && whole.error == second.error
              && Accepted(c, a + b) == |a| + Accepted(first.compiler, b)
              && (second.error == None ==> whole.transactions == first.transactions + second.transactions)
              && (whole.transactions == first.transactions + second.transactions <==>
                    second.error == None || first.transactions == [])
  {
    hide OnUpdate;
    if b == [] {
      assert a + b == a;
    } else {
      var front, last := b[..|b| - 1], b[|b| - 1];
      BatchesInTurn(c, a, front);
      assert (a + b)[..|a + b| - 1] == a + front;
      var first := CompileAll(c, a);
      if first.error.None? {
        var second := CompileAll(first.compiler, front);
        if second.error.None? {
          var step := OnUpdate(second.compiler, last);
          if step.Next? {
            assert (first.transactions + second.transactions) + step.emitted
                == first.transactions + (second.transactions + step.emitted);
          }
        }
      }
    }
  }

  lemma EmitsAtBoundary(c: Compiler, e: Enqueued)
    ensures OnUpdate(c, e).Next? ==> (OnUpdate(c, e).emitted == [] <==> !e.update.FrameBoundary?)
  {
  }

  /** Of an accepted batch a shorter part finishes the first transactions, and all of them if no boundary is left. */
  lemma {:induction false} PartFinishes(c: Compiler, t: seq<Enqueued>, m: nat)
    requires m <= |t| && CompileAll(c, t).error == None
    ensures CompileAll(c, t[..m]).error == None
    ensures CompileAll(c, t[..m]).transactions <= CompileAll(c, t).transactions
    ensures CompileAll(c, t[..m]).transactions == CompileAll(c, t).transactions <==>
              forall i :: m <= i < |t| ==> !t[i].update.FrameBoundary?
  {
    hide OnUpdate;
    if m == |t| {
      assert t[..m] == t;
    } else {
      var front := t[..|t| - 1];
      PartFinishes(c, front, m);
      assert front[..m] == t[..m];
      EmitsAtBoundary(CompileAll(c, front).compiler, t[|t| - 1]);
      assert forall i :: m <= i < |front| ==> front[i] == t[i];
    }
  }

  // ---------- Conservation ----------

  function TotalSources(ts: seq<FrameTransaction>): nat {
    if ts == [] then 0 else TotalSources(ts[..|ts| - 1]) + SourceUpdateCount(ts[|ts| - 1])
  }

  /** The updates that were buffered when a later Reset replaced them. */
  function Discarded(c: Compiler, updates: seq<Enqueued>): nat {
    if updates == [] then 0
    else
      var front := updates[..|updates| - 1];
      Discarded(c, front) +
      (if updates[|updates| - 1].update.Reset? then BufferedCount(CompileAll(c, front).compiler) else 0)
  }

  /** Startup and revision input are never pending together, and pending damage is of the pending surface. */
  ghost predicate Consistent(c: Compiler) {
    && !(c.startup.Some? && c.revision.Some?)
    && (c.startup.Some? && c.startup.value.damage.Some? ==>
          c.startup.value.damage.value.generation == c.startup.value.reset.generation)
    && (c.revision.Some? ==>
          c.active.Some? && c.revision.value.generation == c.active.value.generation
          && c.revision.value.revision > c.active.value.lastRevision)
  }

  lemma {:induction false} AcceptedIsCounted(c: Compiler, updates: seq<Enqueued>)
    requires Consistent(c) && CompileAll(c, updates).error == None
    ensures var compiled := CompileAll(c, updates);
            && Consistent(compiled.compiler)
            && BufferedCount(c) + |updates| ==
               TotalSources(compiled.transactions) + BufferedCount(compiled.compiler) + Discarded(c, updates)
  {
    if updates != [] {
      var front, last := updates[..|updates| - 1], updates[|updates| - 1];
      AcceptedIsCounted(c, front);
      var before := CompileAll(c, front);
      var step := OnUpdate(before.compiler, last);
      if step.emitted != [] {
        assert |step.emitted| == 1;
        assert (before.transactions + step.emitted)[..|before.transactions|] == before.transactions;
      } else {
        assert before.transactions + step.emitted == before.transactions;
      }
    }
  }

  /**
   Every update that is accepted is in a transaction handed out, in one dropped because the batch failed
   later, still buffered, or was discarded by a later Reset.
   */
  lemma NothingIsLost(c: Compiler, updates: seq<Enqueued>)
    requires Consistent(c)
    ensures var compiled, n := CompileAll(c, updates), Accepted(c, updates);
            && Consistent(compiled.compiler)
            && BufferedCount(c) + n ==
               TotalSources(compiled.transactions) + TotalSources(Dropped(c, updates))
               + BufferedCount(compiled.compiler) + Discarded(c, updates[..n])
  {
    hide OnUpdate, Consistent, BufferedCount;
    var n := Accepted(c, updates);
    StopsAtFirstFailure(c, updates);
    AcceptedIsCounted(c, updates[..n]);
    if n == |updates| {
      assert updates[..n] == updates;
    }
  }
}
