/** What holds over every run of the application controller. */
module AppRuns {
  import opened Bytes
  import opened Results
  import opened FrameSurface
  import opened SavedLogins
  import opened SessionSlot
  import opened AppController

  datatype Input =
    | Connect(sub: Submission, catalog: Catalog, env: StartEnv)
    | EditForm(form: ConnectionForm)
    | SelectProfile(key: ProfileKey, loads: bool)
    | Cancel(discard: Outcome)
    | Return(listed: bool)
    | Resolve(asked: u64, id: u64, decision: Decision, store: Outcome)
    | Event(from: u64, event: SessionEvent, o: Outcomes)
    | Presented(shown: u64, generation: u64, completeness: FrameCompleteness)
    | CleanedUp(identity: Identity, listed: bool)
    | RolledBack(abort: Identity, consumed: bool, code: string, discard: Outcome)
    | PlatformChanged(capabilities: Capabilities)
    | PolicyChanged(capabilities: Capabilities)

  function Step(w: World, input: Input): World {
    match input
    case Connect(sub, catalog, env) => StartConnection(w, sub, catalog, env).world
    case EditForm(form) => if w.app.page.FormPage? then w.(app := w.app.(page := FormPage(form))) else w
    case SelectProfile(key, loads) => SelectSavedProfile(w, key, loads)
    case Cancel(discard) => CancelOrDisconnect(w, discard).world
    case Return(listed) => ReturnToConnection(w, listed)
    case Resolve(session, id, decision, store) => ResolveServerIdentity(w, session, id, decision, store).world
    case Event(session, event, o) => HandleEvent(w, session, event, o)
    case Presented(session, generation, completeness) => HandlePresented(w, session, generation, completeness)
    case CleanedUp(identity, listed) => FinishSessionCleanup(w, identity, listed).world
    case RolledBack(abort, consumed, code, discard) => ConsumeLaunchRollback(w, abort, consumed, code, discard).world
    case PlatformChanged(capabilities) => w.(app := w.app.(platformCapabilities := capabilities).Refreshed())
    case PolicyChanged(capabilities) => w.(app := w.app.(policy := capabilities).Refreshed())
  }

  /** A controller on its form, with nothing staged. */
  predicate Initial(w: World) {
    w.app.page.FormPage? && w.app == InitialApp(w.app.page.form) && w.logins.credentials.staged == map[]
  }

  function Run(start: World, inputs: seq<Input>): World {
    if inputs == [] then start else Step(Run(start, inputs[..|inputs| - 1]), inputs[|inputs| - 1])
  }

  // ---------- The invariant ----------

  /** Every input keeps the controller's invariant. */
  lemma StepKeepsSound(w: World, input: Input)
    requires Sound(w.app)
    ensures Sound(Step(w, input).app)
  {
    hide StartConnection, HandleEvent, CancelOrDisconnect, ResolveServerIdentity, ReturnToConnection;
    hide SelectSavedProfile, HandlePresented, FinishSessionCleanup, ConsumeLaunchRollback, Sound;
    match input {
      case Connect(sub, catalog, env) => StartKeepsSound(w, sub, catalog, env);
      case EditForm(form) => EditKeepsSound(w, form);
      case SelectProfile(key, loads) => SelectKeepsSound(w, key, loads);
      case Cancel(discard) => CancelKeepsSound(w, discard);
      case Return(listed) => ReturnKeepsSound(w, listed);
      case Resolve(session, id, decision, store) => ResolveKeepsSound(w, session, id, decision, store);
      case Event(session, event, o) => EventKeepsSound(w, session, event, o);
      case Presented(session, generation, completeness) => PresentedKeepsSound(w, session, generation, completeness);
      case CleanedUp(identity, listed) => CleanupKeepsSound(w, identity, listed);
      case RolledBack(abort, consumed, code, discard) => RollbackKeepsSound(w, abort, consumed, code, discard);
      case PlatformChanged(capabilities) => CapabilitiesKeepSound(w.app, capabilities);
      case PolicyChanged(capabilities) => CapabilitiesKeepSound(w.app, capabilities);
    }
  }

  lemma {:induction false} EveryRunIsSound(start: World, inputs: seq<Input>)
    requires Initial(start)
    ensures Sound(Run(start, inputs).app)
  {
    hide Step, Sound;
    if inputs != [] {
      EveryRunIsSound(start, inputs[..|inputs| - 1]);
      StepKeepsSound(Run(start, inputs[..|inputs| - 1]), inputs[|inputs| - 1]);
    } else {
      InitialIsSound(start.app.page.form);
    }
  }

  // ---------- Input goes only to what is presented ----------

  lemma RemoteSessionIsPresented(w: World, input: Input)
    requires Sound(w.app) && Step(w, input).app.page.RemoteSession?
    ensures var app := Step(w, input).app;
            app.session == w.app.session && app.session.Some? && app.generation == w.app.generation
    ensures w.app.page.RemoteSession?
            || (input.Presented? && w.app.session == Some(input.shown) && w.app.generation == input.generation
                && input.completeness == FullBaseline)
  {
    hide Rejection, KeyOf, Find, Intersection, Finish;
  }

  /**
   In every run, input that is routed goes to a session and generation for which a full baseline was
   presented at some input of the run, and since then neither has changed.
   */
  lemma {:induction false} RoutedInputWasPresented(start: World, inputs: seq<Input>, isText: bool) returns (i: nat)
    requires Initial(start) && RouteInput(Run(start, inputs).app, isText).Some?
    ensures i < |inputs| && inputs[i].Presented? && inputs[i].completeness == FullBaseline
    ensures var sent := RouteInput(Run(start, inputs).app, isText).value;
            && sent == SessionInput(inputs[i].shown, inputs[i].generation)
            && forall j :: i <= j <= |inputs| ==>
                 && Run(start, inputs[..j]).app.session == Some(sent.session)
                 && Run(start, inputs[..j]).app.generation == sent.generation
                 && (j > i ==> Run(start, inputs[..j]).app.page.RemoteSession?)
  {
    hide Step;
    i := PresentedBefore(start, inputs);
    assert inputs[..|inputs|] == inputs;
  }

  lemma {:induction false} PresentedBefore(start: World, inputs: seq<Input>) returns (i: nat)
    requires Initial(start) && Run(start, inputs).app.page.RemoteSession?
    ensures i < |inputs| && inputs[i].Presented? && inputs[i].completeness == FullBaseline
    ensures forall j :: i <= j <= |inputs| ==>
              && Run(start, inputs[..j]).app.session == Some(inputs[i].shown)
              && Run(start, inputs[..j]).app.generation == inputs[i].generation
              && (j > i ==> Run(start, inputs[..j]).app.page.RemoteSession?)
  {
    hide Step;
    var n := |inputs| - 1;
    var front := inputs[..n];
    EveryRunIsSound(start, front);
    RemoteSessionIsPresented(Run(start, front), inputs[n]);
    assert inputs[..|inputs|] == inputs;
    if Run(start, front).app.page.RemoteSession? {
      i := PresentedBefore(start, front);
      assert forall j :: 0 <= j <= n ==> front[..j] == inputs[..j];
    } else {
      i := n;
    }
  }

  // ---------- Saved logins ----------

  /** Saved logins change only when the transport of the session with a pending login becomes ready. */
  lemma SavedChangesOnlyWhenReady(w: World, input: Input)
    requires Sound(w.app)
    requires Step(w, input).logins.credentials.saved != w.logins.credentials.saved
             || Step(w, input).logins.profiles != w.logins.profiles
    ensures input.Event? && input.event == StageChanged(TransportReady)
    ensures w.app.session == Some(input.from)
    ensures w.app.pending.Some? && w.app.pending.value.session == input.from
    ensures w.app.page.ConnectingPage? || w.app.page.AwaitingFirstFrame?
    ensures Step(w, input).logins == Finish(w.logins, w.app.pending.value, input.o).logins
    ensures Step(w, input).app.pending == None
  {
    hide Rejection, KeyOf, Find, Intersection, Finish;
  }

  /**
   Becoming ready resolves the pending login except on the remote session page: when a first frame of a
   later generation is presented before the transport reports ready, the login stays pending.
   */
  lemma ReadyResolvesPending(w: World, session: u64, o: Outcomes)
    requires Sound(w.app) && w.app.session == Some(session) && w.app.pending.Some?
    ensures Step(w, Event(session, StageChanged(TransportReady), o)).app.pending == None
            <==> (w.app.page.ConnectingPage? || w.app.page.AwaitingFirstFrame?)
  {
    hide Finish;
  }

  /** Whether this pending login to remember is the one this submission opened. */
  predicate Opens(input: Input, pending: PendingProfile) {
    && input.Connect?
    && input.sub.remember
    && input.env.session == pending.session
    && input.sub.draft.port.Some?
    && pending.action.Remember?
    && KeyOf(input.sub) == Some(pending.action.profile.key)
    && Some(pending.action.profile.target) == input.sub.draft.target
  }

  predicate Holding(w: World, pending: PendingProfile, password: string) {
    && w.app.pending == Some(pending)
    && w.app.session == Some(pending.session)
    && pending.session in w.logins.credentials.staged
    && w.logins.credentials.staged[pending.session] == password
  }

  lemma PendingStep(w: World, input: Input)
    requires Sound(w.app) && Step(w, input).app.pending.Some? && Step(w, input).app.pending.value.action.Remember?
    ensures var pending := Step(w, input).app.pending.value;
            || (w.app.pending == Some(pending) && Step(w, input).app.session == w.app.session
                && Step(w, input).logins == w.logins)
            || (Opens(input, pending) && Holding(Step(w, input), pending, input.sub.password))
  {
    hide KeyOf, Find, Intersection, Finish, Described, IsBlank;
  }

  /** A login pending at the end of a run was opened by one connection of the run, whose password is still staged. */
  lemma {:induction false} PendingWasOpened(start: World, inputs: seq<Input>) returns (i: nat)
    requires Initial(start)
    requires Run(start, inputs).app.pending.Some? && Run(start, inputs).app.pending.value.action.Remember?
    ensures var pending := Run(start, inputs).app.pending.value;
            && i < |inputs| && Opens(inputs[i], pending)
            && forall j :: i < j <= |inputs| ==> Holding(Run(start, inputs[..j]), pending, inputs[i].sub.password)
  {
    hide Step, KeyOf;
    var n := |inputs| - 1;
    var front := inputs[..n];
    EveryRunIsSound(start, front);
    PendingStep(Run(start, front), inputs[n]);
    assert inputs[..|inputs|] == inputs;
    var pending := Run(start, inputs).app.pending.value;
    if Run(start, front).app.pending == Some(pending) && Run(start, inputs).logins == Run(start, front).logins
       && Run(start, inputs).app.session == Run(start, front).app.session
    {
      i := PendingWasOpened(start, front);
      assert forall j :: 0 <= j <= n ==> front[..j] == inputs[..j];
      assert front[..n] == front;
    } else {
      i := n;
    }
  }

  /**
   What a run saves is what the user submitted: when a step that ends a pending login reports no warning,
   the password of the connection that opened it is saved under its key, its profile is the newest one, and
   nothing is staged for the session.
   */
  lemma SavedLoginWasSubmitted(start: World, inputs: seq<Input>, input: Input) returns (i: nat)
    requires Initial(start)
    requires var w := Run(start, inputs);
             && w.app.pending.Some? && w.app.pending.value.action.Remember?
             && (Step(w, input).logins.credentials.saved != w.logins.credentials.saved
                 || Step(w, input).logins.profiles != w.logins.profiles)
             && Step(w, input).app.warning == None
    ensures i < |inputs| && Opens(inputs[i], Run(start, inputs).app.pending.value)
    ensures var after, key := Step(Run(start, inputs), input).logins, KeyOf(inputs[i].sub).value;
            && Load(after.credentials, key) == Some(inputs[i].sub.password)
            && inputs[i].env.session !in after.credentials.staged
            && exists newest :: newest in after.profiles && newest.key == key
                 && forall p :: p in after.profiles && p != newest ==> p.lastSuccessOrder < newest.lastSuccessOrder
  {
    hide KeyOf, FinishRemember;
    var w := Run(start, inputs);
    EveryRunIsSound(start, inputs);
    SavedChangesOnlyWhenReady(w, input);
    i := PendingWasOpened(start, inputs);
    assert inputs[..|inputs|] == inputs;
    var pending := w.app.pending.value;
    NoWarningMeansNone(w, input.from, input.o);
    RememberSucceeds(w.logins, pending.session, pending.action.profile, input.o);
    var after := Step(w, input).logins;
    assert after.profiles[|after.profiles| - 1] in after.profiles;
  }

  lemma NoWarningMeansNone(w: World, session: u64, o: Outcomes)
    requires w.app.session == Some(session) && w.app.pending.Some? && w.app.pending.value.session == session
    requires w.app.page.ConnectingPage? || w.app.page.AwaitingFirstFrame?
    requires HandleEvent(w, session, StageChanged(TransportReady), o).app.warning == None
    ensures Finish(w.logins, w.app.pending.value, o).warning == None
  {
    hide Finish;
  }

  /** The key of the login this connection remembers, or forgets because remembering was switched off. */
  function NamedBy(input: Input): Option<ProfileKey> {
    if !input.Connect? then None
    else if !input.sub.remember then input.sub.selected
    else if input.sub.draft.port.Some? then KeyOf(input.sub)
    else None
  }

  lemma PendingIsNamed(w: World, input: Input)
    requires Sound(w.app) && Step(w, input).app.pending.Some?
    ensures var pending := Step(w, input).app.pending;
            pending == w.app.pending || NamedBy(input) == Some(KeyOfAction(pending.value.action))
  {
    hide KeyOf, Find, Intersection, Finish, Described, IsBlank;
  }

  /** Over a whole run, a login whose key no connection named stays exactly as it was in both stores. */
  lemma {:induction false} OtherLoginsStay(start: World, inputs: seq<Input>, keys: set<ProfileKey>)
    requires Initial(start)
    requires forall i :: 0 <= i < |inputs| && NamedBy(inputs[i]).Some? ==> NamedBy(inputs[i]).value in keys
    ensures OthersStay(start.logins, Run(start, inputs).logins, keys)
    ensures var pending := Run(start, inputs).app.pending;
            pending.Some? ==> KeyOfAction(pending.value.action) in keys
  {
    hide Step, NamedBy, Without, Finish;
    if inputs != [] {
      var n := |inputs| - 1;
      var w := Run(start, inputs[..n]);
      OtherLoginsStay(start, inputs[..n], keys);
      EveryRunIsSound(start, inputs[..n]);
      if Step(w, inputs[n]).app.pending.Some? {
        PendingIsNamed(w, inputs[n]);
      }
      if Step(w, inputs[n]).logins.credentials.saved != w.logins.credentials.saved
         || Step(w, inputs[n]).logins.profiles != w.logins.profiles {
        SavedChangesOnlyWhenReady(w, inputs[n]);
        FinishTouchesOneKey(w.logins, w.app.pending.value, inputs[n].o, keys);
      }
    }
  }

  // ---------- Nothing stays staged ----------

  /** Staging never takes effect behind a failure report, and discarding takes effect. */
  predicate Tidy(input: Input) {
    && (input.Connect? ==> !input.env.stage.EffectUnreported?)
    && (input.Cancel? || input.RolledBack? ==> input.discard.TakesEffect())
    && (input.Event? ==> input.o.discard.TakesEffect())
  }

  /** Only a login that is still pending is staged. */
  predicate StagedIsPending(w: World) {
    forall s :: s in w.logins.credentials.staged ==>
      w.app.pending.Some? && w.app.pending.value.session == s && w.app.pending.value.action.Remember?
  }

  lemma FinishUnstages(l: Logins, pending: PendingProfile, o: Outcomes)
    requires o.discard.TakesEffect()
    ensures var after := Finish(l, pending, o).logins.credentials.staged;
            && after.Keys <= l.credentials.staged.Keys
            && (pending.action.Remember? ==> pending.session !in after)
  {
    match pending.action {
      case Remember(profile) =>
        if FinishRemember(l, pending.session, profile, o).warning == None {
          RememberSucceeds(l, pending.session, profile, o);
        } else {
          FailedRememberStaged(l, pending.session, profile, o);
        }
      case Forget(key) =>
    }
  }

  lemma TidyStep(w: World, input: Input)
    requires Sound(w.app) && StagedIsPending(w) && Tidy(input)
    ensures StagedIsPending(Step(w, input))
  {
    hide Rejection, KeyOf, Find, Intersection, Finish;
    if w.app.pending.Some? && input.Event? {
      FinishUnstages(w.logins, w.app.pending.value, input.o);
    }
  }

  /** In a run of tidy stores no credential stays staged once no login is pending. */
  lemma {:induction false} TidyRunsLeaveNothingStaged(start: World, inputs: seq<Input>)
    requires Initial(start) && forall i :: 0 <= i < |inputs| ==> Tidy(inputs[i])
    ensures StagedIsPending(Run(start, inputs))
    ensures Run(start, inputs).app.pending == None ==> Run(start, inputs).logins.credentials.staged == map[]
  {
    hide Step;
    if inputs != [] {
      var front := inputs[..|inputs| - 1];
      TidyRunsLeaveNothingStaged(start, front);
      EveryRunIsSound(start, front);
      TidyStep(Run(start, front), inputs[|inputs| - 1]);
    }
  }

  // ---------- Which entries stay staged ----------

  /** The sessions with a staged credential whose login is not pending. */
  function Orphans(w: World): set<u64> {
    set s | s in w.logins.credentials.staged.Keys && !(w.app.pending.Some? && w.app.pending.value.session == s)
  }

  /** A pending login to remember has its credential staged, one to forget has none. */
  predicate PendingStaged(w: World) {
    w.app.pending.Some? ==>
      (w.app.pending.value.session in w.logins.credentials.staged <==> w.app.pending.value.action.Remember?)
  }

  /** Whether the calls that drop or finish the pending login to remember leave its entry staged. */
  predicate LeavesStaged(w: World, input: Input, pending: PendingProfile)
    requires pending.action.Remember?
  {
    if input.Cancel? || input.RolledBack? then input.discard.NoEffect?
    else if input.Event? && input.event == StageChanged(TransportReady) then
      && FinishRemember(w.logins, pending.session, pending.action.profile, input.o).warning.Some?
      && !NothingStaged(w.logins, pending.session, pending.action.profile.key, input.o)
    else input.Event? && input.o.discard.NoEffect?
  }

  /** Whether starting a connection comes as far as staging its password. */
  predicate Stages(w: World, sub: Submission, catalog: Catalog, env: StartEnv) {
    w.app.slot.None? && Rejection(sub, catalog).None? && env.pinLoads && sub.remember && KeyOf(sub).Some?
  }

  /**
   The entry a step leaves staged without its login pending: staging took effect behind a failure report, or
   the calls that end a pending login did not remove it.
   */
  function LeakedBy(w: World, input: Input): set<u64> {
    if input.Connect? then
      if Stages(w, input.sub, input.catalog, input.env) && input.env.stage.EffectUnreported?
      then {input.env.session} else {}
    else if && w.app.pending.Some? && w.app.pending.value.action.Remember?
            && Step(w, input).app.pending == None
            && LeavesStaged(w, input, w.app.pending.value)
    then {w.app.pending.value.session} else {}
  }

  lemma RememberWarns(l: Logins, session: u64, profile: SavedProfile, o: Outcomes)
    ensures FinishRemember(l, session, profile, o).warning in {None, Some(SaveFailed)}
  {
  }

  lemma FinishStages(l: Logins, pending: PendingProfile, o: Outcomes)
    ensures var after := Finish(l, pending, o).logins.credentials.staged;
            && after - {pending.session} == l.credentials.staged - {pending.session}
            && (pending.action.Forget? ==> after == l.credentials.staged)
            && (pending.action.Remember? ==>
                  (pending.session in after <==>
                   && FinishRemember(l, pending.session, pending.action.profile, o).warning.Some?
                   && !NothingStaged(l, pending.session, pending.action.profile.key, o)))
  {
    match pending.action {
      case Remember(profile) =>
        hide NothingStaged, FinishRemember;
        RememberWarns(l, pending.session, profile, o);
        if FinishRemember(l, pending.session, profile, o).warning == None {
          RememberSucceeds(l, pending.session, profile, o);
        } else {
          FailedRememberStaged(l, pending.session, profile, o);
        }
      case Forget(key) =>
    }
  }

  lemma ConnectOrphans(w: World, sub: Submission, catalog: Catalog, env: StartEnv)
    requires Sound(w.app) && PendingStaged(w) && env.session !in w.logins.credentials.staged
    ensures var after := StartConnection(w, sub, catalog, env).world;
            && PendingStaged(after)
            && Orphans(after) == Orphans(w) + LeakedBy(w, Connect(sub, catalog, env))
  {
    hide Rejection, KeyOf, Intersection;
  }

  /** Whether the staged entries changed only as LeavesStaged says. */
  predicate OnlyPendingUnstaged(w: World, input: Input, next: World) {
    var before, after := w.logins.credentials.staged, next.logins.credentials.staged;
    && (w.app.pending.None? ==> after == before && next.app.pending.None?)
    && (w.app.pending.Some? ==>
          var p := w.app.pending.value;
          && after - {p.session} == before - {p.session}
          && next.app.pending in {None, w.app.pending}
          && (next.app.pending.Some? ==> after == before)
          && (next.app.pending.None? ==>
                (p.session in after <==> p.action.Remember? && LeavesStaged(w, input, p))))
  }

  lemma EventUnstages(w: World, input: Input)
    requires Sound(w.app) && PendingStaged(w) && input.Event?
    ensures OnlyPendingUnstaged(w, input, HandleEvent(w, input.from, input.event, input.o))
  {
    hide Intersection, Finish, FinishRemember, NothingStaged;
    if w.app.pending.Some? {
      FinishStages(w.logins, w.app.pending.value, input.o);
    }
  }

  /** A step that does not connect leaves every entry but that of the pending login alone. */
  lemma OtherEntriesStay(w: World, input: Input)
    requires Sound(w.app) && PendingStaged(w) && !input.Connect?
    ensures var before, after := w.logins.credentials.staged, Step(w, input).logins.credentials.staged;
            && (w.app.pending.None? ==> after == before && Step(w, input).app.pending.None?)
            && (w.app.pending.Some? ==>
                  var p := w.app.pending.value;
                  && after - {p.session} == before - {p.session}
                  && Step(w, input).app.pending in {None, w.app.pending}
                  && (Step(w, input).app.pending.Some? ==> after == before)
                  && (Step(w, input).app.pending.None? ==>
                        (p.session in after <==> p.action.Remember? && LeavesStaged(w, input, p))))
  {
    if input.Event? {
      hide HandleEvent, LeavesStaged;
      EventUnstages(w, input);
    } else {
      hide Find, Intersection, HandleEvent;
    }
  }

  lemma OrphanStep(w: World, input: Input)
    requires Sound(w.app) && PendingStaged(w)
    requires input.Connect? ==> input.env.session !in w.logins.credentials.staged
    ensures PendingStaged(Step(w, input))
    ensures Orphans(Step(w, input)) == Orphans(w) + LeakedBy(w, input)
  {
    if input.Connect? {
      ConnectOrphans(w, input.sub, input.catalog, input.env);
    } else {
      OtherEntriesStay(w, input);
      hide Step, LeavesStaged;
      if w.app.pending.Some? {
        var p := w.app.pending.value.session;
        var before, after := w.logins.credentials.staged, Step(w, input).logins.credentials.staged;
        assert forall s :: s != p ==> (s in before <==> s in before - {p}) && (s in after <==> s in after - {p});
      }
    }
  }

  function LeakedIn(start: World, inputs: seq<Input>): set<u64> {
    if inputs == [] then {}
    else
      var front := inputs[..|inputs| - 1];
      LeakedIn(start, front) + LeakedBy(Run(start, front), inputs[|inputs| - 1])
  }

  /** Session ids are allocated once. */
  predicate SessionsAreDistinct(inputs: seq<Input>) {
    forall i, j :: 0 <= i < j < |inputs| && inputs[i].Connect? && inputs[j].Connect? ==>
      inputs[i].env.session != inputs[j].env.session
  }

  lemma StagedGrowsByConnecting(w: World, input: Input, s: u64)
    requires Sound(w.app) && PendingStaged(w) && s in Step(w, input).logins.credentials.staged
    ensures s in w.logins.credentials.staged || (input.Connect? && input.env.session == s)
  {
    if input.Connect? {
      hide Rejection, KeyOf, Intersection;
    } else {
      OtherEntriesStay(w, input);
      hide Step, LeavesStaged;
      if w.app.pending.Some? {
        var p := w.app.pending.value.session;
        assert s != p ==> s in Step(w, input).logins.credentials.staged - {p};
      }
    }
  }

  /** What is staged was staged for one of the connections. */
  lemma {:induction false} OrphansWereLeaked(start: World, inputs: seq<Input>)
    requires Initial(start) && SessionsAreDistinct(inputs)
    ensures PendingStaged(Run(start, inputs))
    ensures forall s :: s in Run(start, inputs).logins.credentials.staged ==>
              exists i :: 0 <= i < |inputs| && inputs[i].Connect? && inputs[i].env.session == s
    ensures Orphans(Run(start, inputs)) == LeakedIn(start, inputs)
  {
    hide Step, LeakedBy;
    if inputs != [] {
      var n := |inputs| - 1;
      var front := inputs[..n];
      OrphansWereLeaked(start, front);
      EveryRunIsSound(start, front);
      var w := Run(start, front);
      OrphanStep(w, inputs[n]);
      forall s | s in Run(start, inputs).logins.credentials.staged
        ensures exists i :: 0 <= i < |inputs| && inputs[i].Connect? && inputs[i].env.session == s
      {
        if s in w.logins.credentials.staged {
          var i :| 0 <= i < n && front[i].Connect? && front[i].env.session == s;
          assert inputs[i] == front[i];
        } else {
          StagedGrowsByConnecting(w, inputs[n], s);
        }
      }
    }
  }

  /**
   Once no login is pending nothing is staged exactly when no step of the run leaked an entry; what is
   staged then are the entries that leaked.
   */
  lemma NothingStaysStagedExactlyWhen(start: World, inputs: seq<Input>)
    requires Initial(start) && SessionsAreDistinct(inputs) && Run(start, inputs).app.pending == None
    ensures Run(start, inputs).logins.credentials.staged.Keys == LeakedIn(start, inputs)
    ensures Run(start, inputs).logins.credentials.staged == map[] <==>
              forall i :: 0 <= i < |inputs| ==> LeakedBy(Run(start, inputs[..i]), inputs[i]) == {}
  {
    hide Step, LeakedBy, Run;
    OrphansWereLeaked(start, inputs);
    assert Run(start, inputs).logins.credentials.staged.Keys == Orphans(Run(start, inputs));
    NothingLeakedExactlyWhen(start, inputs);
  }

  lemma {:induction false} NothingLeakedExactlyWhen(start: World, inputs: seq<Input>)
    ensures LeakedIn(start, inputs) == {} <==>
              forall i :: 0 <= i < |inputs| ==> LeakedBy(Run(start, inputs[..i]), inputs[i]) == {}
  {
    hide Step, LeakedBy, Run;
    if inputs != [] {
      var n := |inputs| - 1;
      var front := inputs[..n];
      NothingLeakedExactlyWhen(start, front);
      assert forall i :: 0 <= i < n ==> front[..i] == inputs[..i] && front[i] == inputs[i];
      assert LeakedIn(start, inputs) == LeakedIn(start, front) + LeakedBy(Run(start, front), inputs[n]);
    }
  }

  // ---------- The slot ----------

  /** A slot is freed only by the token of its own reservation, and filled only when free. */
  lemma SlotIsExclusive(w: World, input: Input)
    requires Sound(w.app)
    ensures var before, after := w.app.slot, Step(w, input).app.slot;
            && (before.Some? && after.Some? ==>
                  after.value.session == before.value.session && after.value.owner == before.value.owner)
            && (before.Some? && after.None? ==>
                  || (&& input.CleanedUp? && input.identity == before.value.owner
                      && IsClosing(before, before.value.session))
                  || (input.RolledBack? && input.abort == before.value.owner && !input.consumed
                      && IsConnecting(before, before.value.session)))
            && (before.None? && after.Some? ==>
                  input.Connect? && after.value.owner == input.env.Owner() && after.value.phase.Connecting?)
  {
    hide Rejection, KeyOf, Find, Intersection, Finish;
  }

  /** Whatever the page, a session can be ended: disconnecting and then its cleanup free slot and session. */
  lemma EverySessionCanEnd(w: World, o: Outcome, listed: bool)
    requires Sound(w.app) && w.app.slot.Some?
    ensures var closing := Step(w, Cancel(o));
            var ended := Step(closing, CleanedUp(w.app.slot.value.owner, listed));
            && IsClosing(closing.app.slot, w.app.session.value)
            && ended.app.session == None && ended.app.slot == None && ended.app.pending == None
            && (ended.app.page.FormPage? || ended.app.page.FailedPage?)
            && ended.app.page.RetainedDraft() == w.app.page.RetainedDraft()
  {
    hide Intersection;
  }

  // ---------- Drafts and identities ----------

  /**
   A saved profile chosen and submitted again names the same login: the form resolves to its protocol, the
   submission has its key, and the password is the saved one.
   */
  lemma SelectedProfileIsResubmitted(w: World, key: ProfileKey, loads: bool, catalog: Catalog)
    requires w.app.page.FormPage? && Find(w.app.page.form.profiles, key).Some?
    ensures var form := SelectSavedProfile(w, key, loads).app.page.form;
            var id := Validated(form, catalog);
            && form.profiles == w.app.page.form.profiles
            && form.password == (if loads && key in w.logins.credentials.saved
                                 then w.logins.credentials.saved[key] else "")
            && (id.Some? ==>
                  var sub := Submission(form.draft, id.value, form.password, form.remember, form.selected);
                  && id.value == key.protocol && sub.remember && sub.selected == Some(key)
                  && sub.draft.port.Some? && KeyOf(sub) == Some(key))
  {
    hide IsBlank, Described, Find;
  }

  /**
   A submission that is turned down is back in the form as it was submitted, among the same profiles; no
   session is started and nothing that was saved or pending changes.
   */
  lemma RejectionLosesNothing(w: World, sub: Submission, catalog: Catalog, env: StartEnv)
    requires StartConnection(w, sub, catalog, env).response.InvalidSubmission?
    ensures var after := Step(w, Connect(sub, catalog, env));
            && after.app.page.FormPage?
            && Resubmitted(after.app.page.form, sub.resolvedProtocol) == sub
            && (w.app.page.FormPage? ==> after.app.page.form.profiles == w.app.page.form.profiles)
            && after.app == w.app.(page := after.app.page)
            && after.logins.profiles == w.logins.profiles && after.pins == w.pins
            && after.logins.credentials.saved == w.logins.credentials.saved
            && after.logins.credentials.staged - {env.session} == w.logins.credentials.staged - {env.session}
  {
    hide Rejection, KeyOf, IsBlank;
  }

  /** What is left of a form when its submission is taken: the password goes with it. */
  function Taken(form: ConnectionForm): ConnectionForm {
    form.(password := "")
  }

  /**
   A submission taken from a complete form starts a session exactly when the slot is free, the saved pin can
   be read, and a password to remember can be staged. Only the last refusal gives the submission back: on the
   other two nothing changes, and the password is lost with the submission.
   */
  lemma RefusalsGivingBack(w: World, form: ConnectionForm, catalog: Catalog, env: StartEnv)
    requires w.app.page == FormPage(Taken(form)) && Validated(form, catalog).Some?
    ensures var protocol := Validated(form, catalog).value;
            var sub := Resubmitted(form, protocol);
            var started := StartConnection(w, sub, catalog, env);
            && (started.response.StartSession? <==>
                  w.app.slot.None? && env.pinLoads && (form.remember ==> env.stage.Reported()))
            && (!started.response.StartSession? ==>
                  && started.world.app.page.FormPage?
                  && (Resubmitted(started.world.app.page.form, protocol) == sub <==>
                        w.app.slot.None? && env.pinLoads)
                  && (w.app.slot.Some? || !env.pinLoads ==>
                        started.world == w
                        && started.response == if w.app.slot.Some? then SessionAlreadyActive else PlatformFailed))
  {
    TakenSubmissionsAreAccepted(form, catalog);
    hide Rejection, KeyOf, IsBlank, Select;
  }

  /**
   Going back to the form leaves a running session as it is: its slot, its pending login and its generation
   stay, it gets no input, and no other session can be started until it has ended.
   */
  lemma ReturningKeepsSession(w: World, listed: bool, sub: Submission, catalog: Catalog, env: StartEnv, isText: bool)
    ensures var back := Step(w, Return(listed));
            && back.app == w.app.(page := back.app.page)
            && back.app.page == FormPage(ConnectionForm(w.app.page.RetainedDraft(),
                                                        if listed then w.logins.profiles else [], None, false, ""))
            && back.logins == w.logins && back.pins == w.pins
            && RouteInput(back.app, isText) == None
            && (w.app.slot.Some? ==> StartConnection(back, sub, catalog, env) == Stepped(back, SessionAlreadyActive))
  {
    hide Rejection, KeyOf;
  }

  /** The draft on screen is the user's: only a submission, an edit or a chosen profile replaces it. */
  lemma DraftIsRetained(w: World, input: Input)
    requires !input.Connect? && !input.EditForm? && !input.SelectProfile?
    ensures Step(w, input).app.page.RetainedDraft() == w.app.page.RetainedDraft()
  {
    hide Finish, Intersection;
  }

  /** A pin is stored only by trusting an unknown identity of the current session; a mismatch can only be rejected. */
  lemma PinsAreTrusted(w: World, input: Input)
    requires Sound(w.app)
    ensures Step(w, input).pins != w.pins ==>
              && input.Resolve? && input.decision.TrustAndRemember? && w.app.challenge.Some?
              && w.app.session == Some(input.asked)
              && var c := w.app.challenge.value;
              && c.session == input.asked && c.id == input.id && c.validation.Unknown?
              && Step(w, input).pins == w.pins[(c.protocol, c.endpoint) := c.fingerprint]
    ensures && input.Resolve?
            && ResolveServerIdentity(w, input.asked, input.id, input.decision, input.store).response.SendDecision? ==>
              && w.app.challenge.Some? && w.app.challenge.value.session == input.asked
              && (w.app.challenge.value.validation.PinMismatch? ==> input.decision == Reject)
              && Step(w, input).app.challenge == None
  {
    hide Rejection, KeyOf, Find, Intersection, Finish;
  }
}
