/** What a started session is given, and what each input leads to. */
module AppLaws {
  import opened Bytes
  import opened Results
  import opened FrameSurface
  import opened SavedLogins
  import opened SessionSlot
  import opened AppController
  import opened AppRuns

  // ---------- What a session is started with ----------

  /** The fingerprint this input stores for a site: an unknown identity of the current session, trusted for good. */
  function NewPin(w: World, input: Input, site: (string, Endpoint)): Option<seq<u8>> {
    if && input.Resolve? && input.decision == TrustAndRemember && input.store.TakesEffect()
       && w.app.session == Some(input.asked)
       && w.app.challenge.Some?
       && w.app.challenge.value.session == input.asked && w.app.challenge.value.id == input.id
       && w.app.challenge.value.validation == Unknown
       && (w.app.challenge.value.protocol, w.app.challenge.value.endpoint) == site
    then Some(w.app.challenge.value.fingerprint)
    else None
  }

  /** The fingerprint stored last for a site in a run, or the one stored when it started. */
  function LatestPin(start: World, inputs: seq<Input>, site: (string, Endpoint)): Option<seq<u8>> {
    if inputs == [] then if site in start.pins then Some(start.pins[site]) else None
    else
      var front := inputs[..|inputs| - 1];
      var pin := NewPin(Run(start, front), inputs[|inputs| - 1], site);
      if pin.Some? then pin else LatestPin(start, front, site)
  }

  lemma PinStep(w: World, input: Input, site: (string, Endpoint))
    ensures var before, after := w.pins, Step(w, input).pins;
            if NewPin(w, input, site).Some? then site in after && Some(after[site]) == NewPin(w, input, site)
            else (site in after <==> site in before) && (site in after ==> after[site] == before[site])
  {
    hide Rejection, KeyOf, Find, Intersection, Finish;
  }

  lemma {:induction false} PinsAreLatest(start: World, inputs: seq<Input>, site: (string, Endpoint))
    ensures var pins := Run(start, inputs).pins;
            (if site in pins then Some(pins[site]) else None) == LatestPin(start, inputs, site)
  {
    hide Step, NewPin;
    if inputs != [] {
      PinsAreLatest(start, inputs[..|inputs| - 1], site);
      PinStep(Run(start, inputs[..|inputs| - 1]), inputs[|inputs| - 1], site);
    }
  }

  /**
   In every run: a session is started with what was submitted and with the pin trusted last for its protocol
   and endpoint. It is then the current session, and the permit handed out is the one that owns the slot.
   */
  lemma StartedAsSubmitted(start: World, inputs: seq<Input>, sub: Submission, catalog: Catalog, env: StartEnv)
    requires StartConnection(Run(start, inputs), sub, catalog, env).response.StartSession?
    ensures var started := StartConnection(Run(start, inputs), sub, catalog, env);
            var app, request := started.world.app, started.response.request;
            && request.username == sub.draft.username
            && request.password == sub.password
            && request.endpoint.host == sub.draft.address && Some(request.endpoint.port) == sub.draft.port
            && request.protocol == sub.resolvedProtocol
            && request.pin == LatestPin(start, inputs, (request.protocol, request.endpoint))
            && request.session == env.session && app.session == Some(request.session)
            && app.slot == Some(SlotState(request.session, started.response.permit, Connecting))
            && started.response.permit.session == request.session
            && app.page == ConnectingPage(sub.draft, StageConnecting, None)
            && app.generation == 0 && app.challenge == None && app.warning == None
            && app.protocolCapabilities == NO_CAPABILITIES
            && (sub.remember ==>
                  env.session in started.world.logins.credentials.staged
                  && started.world.logins.credentials.staged[env.session] == sub.password)
  {
    hide Step, KeyOf, IsBlank, Described;
    var r := StartConnection(Run(start, inputs), sub, catalog, env).response.request;
    PinsAreLatest(start, inputs, (r.protocol, r.endpoint));
  }

  /** A registered protocol that the target system permits, named by the user or the target's default. */
  predicate Resolves(catalog: Catalog, target: TargetSystem, choice: ProtocolChoice, id: string) {
    && (exists d :: d in catalog && d.id == id)
    && (choice.Explicit? ==> choice.id == id)
    && match target
       case MacOs => id == "apple-high-performance" || (choice.Explicit? && id == "apple-hpss-mvs")
       case Windows => id == "rdp"
       case Linux => id == "rfb"
       case Custom => choice.Explicit?
  }

  lemma {:induction false} DescribedIsRegistered(catalog: Catalog, id: string)
    ensures Described(catalog, id).Some? <==> exists d :: d in catalog && d.id == id
    ensures Described(catalog, id).Some? ==> Descriptor(id, Described(catalog, id).value) in catalog
  {
    if catalog != [] && catalog[0].id != id {
      DescribedIsRegistered(catalog[1..], id);
      assert forall d :: d in catalog <==> d == catalog[0] || d in catalog[1..];
    } else if catalog != [] {
      assert catalog[0] in catalog && catalog[0] == Descriptor(id, catalog[0].requirements);
    }
  }

  lemma SelectedExactlyWhen(catalog: Catalog, target: TargetSystem, choice: ProtocolChoice, id: string)
    ensures Select(catalog, target, choice) == Selected(id) <==> Resolves(catalog, target, choice, id)
  {
    hide Described;
    DescribedIsRegistered(catalog, id);
  }

  /** A submission is turned down for none of its fields exactly when they are complete and its protocol resolves. */
  lemma AcceptedExactlyWhen(sub: Submission, catalog: Catalog)
    ensures var d := sub.draft;
            Rejection(sub, catalog) == None <==>
              && d.target.Some? && !IsBlank(d.address) && d.port.Some? && d.port.value != 0
              && Resolves(catalog, d.target.value, d.protocol, sub.resolvedProtocol)
              && var needed := Described(catalog, sub.resolvedProtocol);
              && needed.Some?
              && (needed.value.username ==> !IsBlank(d.username))
              && (needed.value.password ==> sub.password != "")
  {
    hide IsBlank, Described, Select;
    DescribedIsRegistered(catalog, sub.resolvedProtocol);
    if sub.draft.target.Some? {
      SelectedExactlyWhen(catalog, sub.draft.target.value, sub.draft.protocol, sub.resolvedProtocol);
    }
  }

  /** The code names the first field that is missing. */
  lemma RejectionNamesTheField(sub: Submission, catalog: Catalog)
    ensures var d, code := sub.draft, Rejection(sub, catalog);
            && (code == Some("target_system_required") <==> d.target.None?)
            && (code == Some("address_required") <==> d.target.Some? && IsBlank(d.address))
            && (code == Some("port_required") <==>
                  d.target.Some? && !IsBlank(d.address) && (d.port.None? || d.port == Some(0)))
            && (code in {Some("username_required"), Some("password_required")} ==>
                  && d.target.Some?
                  && Resolves(catalog, d.target.value, d.protocol, sub.resolvedProtocol)
                  && if code == Some("username_required") then IsBlank(d.username) else sub.password == "")
  {
    hide IsBlank, Described;
    DescribedIsRegistered(catalog, sub.resolvedProtocol);
    if sub.draft.target.Some? {
      SelectedExactlyWhen(catalog, sub.draft.target.value, sub.draft.protocol, sub.resolvedProtocol);
    }
  }

  lemma {:induction false} FoundIsListed(profiles: seq<SavedProfile>, key: ProfileKey)
    ensures var found := Find(profiles, key);
            if found.Some? then found.value in profiles && found.value.key == key
            else forall p :: p in profiles ==> p.key != key
  {
    if profiles != [] && profiles[0].key != key {
      FoundIsListed(profiles[1..], key);
      assert forall p :: p in profiles <==> p == profiles[0] || p in profiles[1..];
    }
  }

  /** A saved profile that is listed fills the form; one that is not changes nothing. */
  lemma ProfilesFillTheForm(w: World, key: ProfileKey, loads: bool)
    requires w.app.page.FormPage?
    ensures var listed, form := w.app.page.form.profiles, SelectSavedProfile(w, key, loads).app.page.form;
            if exists p :: p in listed && p.key == key then
              && SelectSavedProfile(w, key, loads) == w.(app := w.app.(page := FormPage(form)))
              && form.profiles == listed && form.selected == Some(key) && form.remember
              && (exists p :: p in listed && p.key == key && form.draft.target == Some(p.target))
              && form.draft.address == key.address && form.draft.port == Some(key.port)
              && form.draft.username == key.username && form.draft.protocol == Explicit(key.protocol)
              && form.password == (if loads && key in w.logins.credentials.saved
                                   then w.logins.credentials.saved[key] else "")
            else SelectSavedProfile(w, key, loads) == w
  {
    hide Find;
    FoundIsListed(w.app.page.form.profiles, key);
  }

  // ---------- How a session goes on ----------

  /** An event of another session changes nothing. */
  lemma OtherSessionsAreIgnored(w: World, from: u64, event: SessionEvent, o: Outcomes)
    requires w.app.session != Some(from)
    ensures Step(w, Event(from, event, o)) == w
  {
  }

  /** Until it is presented, a live session shows the stage it is in; readiness makes its slot active. */
  lemma StagesAreShown(w: World, from: u64, stage: Stage, o: Outcomes)
    requires Sound(w.app) && w.app.session == Some(from) && w.app.page.IsLive() && !stage.StageDisconnecting?
    ensures var before, after := w.app, Step(w, Event(from, StageChanged(stage), o)).app;
            if before.page.RemoteSession? then after == before
            else
              && after.session == before.session && after.generation == before.generation
              && after.challenge == before.challenge && after.protocolCapabilities == before.protocolCapabilities
              && after.slot.value.owner == before.slot.value.owner
              && (if stage == TransportReady then
                    && after.page == AwaitingFirstFrame(before.page.RetainedDraft(), stage, after.warning)
                    && after.slot.value.phase == Active
                    && after.pending == None
                    && var told := if before.pending.None? then None
                                   else Finish(w.logins, before.pending.value, o).warning;
                    after.warning == if told.Some? then told else before.warning
                  else
                    && after.page == ConnectingPage(before.page.RetainedDraft(), stage, before.warning)
                    && after.slot == before.slot && after.pending == before.pending && after.warning == before.warning)
  {
    hide Finish;
  }

  /** A challenge of the live session is put to the user, whatever was asked before. */
  lemma ChallengesArrive(w: World, from: u64, c: Challenge, o: Outcomes)
    requires w.app.session == Some(from)
    ensures var after := Step(w, Event(from, ServerIdentityChallenge(c), o));
            after == if w.app.page.IsLive() && c.session == from then w.(app := w.app.(challenge := Some(c))) else w
  {
  }

  /** The challenge before the user is the last one the current session sent, and it is not yet answered. */
  lemma {:induction false} ChallengeWasReceived(start: World, inputs: seq<Input>) returns (i: nat)
    requires Initial(start) && Run(start, inputs).app.challenge.Some?
    ensures var c := Run(start, inputs).app.challenge.value;
            && i < |inputs| && inputs[i].Event? && inputs[i].from == c.session
            && inputs[i].event == ServerIdentityChallenge(c)
            && forall j :: i < j <= |inputs| ==> Run(start, inputs[..j]).app.challenge == Some(c)
  {
    hide Step;
    var n := |inputs| - 1;
    var front := inputs[..n];
    EveryRunIsSound(start, front);
    ChallengeStep(Run(start, front), inputs[n]);
    assert inputs[..|inputs|] == inputs;
    if Run(start, front).app.challenge == Run(start, inputs).app.challenge {
      i := ChallengeWasReceived(start, front);
      assert forall j :: 0 <= j <= n ==> front[..j] == inputs[..j];
    } else {
      i := n;
    }
  }

  lemma ChallengeStep(w: World, input: Input)
    requires Sound(w.app) && Step(w, input).app.challenge.Some?
    ensures var c := Step(w, input).app.challenge;
            || c == w.app.challenge
            || (input.Event? && input.from == c.value.session && input.event == ServerIdentityChallenge(c.value))
  {
    hide Rejection, KeyOf, Find, Intersection, Finish;
  }

  /**
   A decision is sent exactly for the challenge before the user, as it was made: a mismatch can only be
   rejected, only an unknown identity remembered, and that only if the pin is stored.
   */
  lemma DecisionsAreSentExactlyWhen(w: World, asked: u64, id: u64, decision: Decision, store: Outcome)
    ensures var r := ResolveServerIdentity(w, asked, id, decision, store);
            && (r.response == SendDecision(asked, id, decision) <==>
                  && w.app.session == Some(asked) && w.app.challenge.Some?
                  && w.app.challenge.value.session == asked && w.app.challenge.value.id == id
                  && (w.app.challenge.value.validation == PinMismatch ==> decision == Reject)
                  && (decision == TrustAndRemember ==>
                        w.app.challenge.value.validation == Unknown && store.Reported()))
            && (r.response.SendDecision? ==> r.response == SendDecision(asked, id, decision))
            && r.world.app == w.app.(challenge := if r.response.SendDecision? then None else w.app.challenge)
            && r.world.logins == w.logins
  {
  }

  /** A session's surface generation only grows, and a new one has to be presented again. */
  lemma GenerationsGrow(w: World, from: u64, about: u64, generation: u64, o: Outcomes)
    requires w.app.session == Some(from) && w.app.page.IsLive()
    ensures var before, after := w.app, Step(w, Event(from, SurfaceGenerationChanged(about, generation), o)).app;
            if about == from && generation > before.generation then
              after == before.(generation := generation,
                               page := AwaitingFirstFrame(before.page.RetainedDraft(), TransportReady, before.warning))
            else after == before
  {
  }

  /** The remote session appears exactly when a full baseline of its current generation is presented while awaited. */
  lemma PresentedExactlyWhen(w: World, shown: u64, generation: u64, completeness: FrameCompleteness)
    ensures var before, after := w.app, Step(w, Presented(shown, generation, completeness)).app;
            if && before.page.AwaitingFirstFrame? && before.session == Some(shown)
               && generation == before.generation && completeness == FullBaseline
            then
              after == before.(page := RemoteSession(before.page.RetainedDraft(), before.Effective(), before.warning))
            else after == before
  {
  }

  // ---------- Capabilities ----------

  /** A capability is effective exactly when protocol, platform and product all grant it. */
  lemma GrantedByAllThree(app: App)
    ensures var e, a, b, c := app.Effective(), app.protocolCapabilities, app.platformCapabilities, app.policy;
            && (e.dynamicResolution <==> a.dynamicResolution && b.dynamicResolution && c.dynamicResolution)
            && (e.clipboardRead <==> a.clipboardRead && b.clipboardRead && c.clipboardRead)
            && (e.clipboardWrite <==> a.clipboardWrite && b.clipboardWrite && c.clipboardWrite)
            && (e.remoteAudio <==> a.remoteAudio && b.remoteAudio && c.remoteAudio)
            && (e.textInput <==> a.textInput && b.textInput && c.textInput)
  {
  }

  /** Whoever changes its grant, the others' grants stay, and the session on screen shows what is then effective. */
  lemma GrantsAreKept(w: World, from: u64, granted: Capabilities, failed: bool, o: Outcomes)
    requires Sound(w.app) && w.app.session == Some(from) && w.app.page.IsLive()
    ensures var reported := Step(w, Event(from, CapabilitiesChanged(granted), o)).app;
            && Grants(reported, granted, w.app.platformCapabilities, w.app.policy) && Shows(w.app, reported)
    ensures var heard := Step(w, Event(from, AudioStateChanged(failed), o)).app;
            && Shows(w.app, heard)
            && Grants(heard, w.app.protocolCapabilities,
                      if failed then w.app.platformCapabilities.(remoteAudio := false) else w.app.platformCapabilities,
                      w.app.policy)
    ensures var moved := Step(w, PlatformChanged(granted)).app;
            Grants(moved, w.app.protocolCapabilities, granted, w.app.policy) && Shows(w.app, moved)
    ensures var ruled := Step(w, PolicyChanged(granted)).app;
            Grants(ruled, w.app.protocolCapabilities, w.app.platformCapabilities, granted) && Shows(w.app, ruled)
  {
    hide Intersection;
  }

  predicate Grants(app: App, protocol: Capabilities, platform: Capabilities, policy: Capabilities) {
    app.protocolCapabilities == protocol && app.platformCapabilities == platform && app.policy == policy
  }

  /** The same page, session and login, with the capabilities on screen being the effective ones. */
  predicate Shows(before: App, after: App) {
    && after.session == before.session && after.generation == before.generation && after.slot == before.slot
    && after.challenge == before.challenge && after.pending == before.pending && after.warning == before.warning
    && (if before.page.RemoteSession?
        then after.page == RemoteSession(before.page.draft, after.Effective(), before.page.diagnostics)
        else after.page == before.page)
  }

  /** Input goes to the current session and generation exactly while the session is on screen; text needs its grant. */
  lemma RoutedExactlyWhen(app: App, isText: bool)
    requires Sound(app)
    ensures RouteInput(app, isText) ==
            if app.page.RemoteSession? && (isText ==> app.Effective().textInput)
            then Some(SessionInput(app.session.value, app.generation)) else None
  {
    hide Intersection;
  }

  // ---------- How a session ends ----------

  /** The session is over but for its cleanup: nothing of it is left to act on, and its slot awaits its own token. */
  predicate IsEnding(before: App, after: App, phase: SlotPhase) {
    && after.session == before.session
    && before.slot.Some? && after.slot == Some(SlotState(before.slot.value.session, before.slot.value.owner, phase))
    && after.pending == None
    && after.challenge == None
    && after.generation == 0
    && after.protocolCapabilities == NO_CAPABILITIES
    && after.platformCapabilities == before.platformCapabilities && after.policy == before.policy
  }

  /** An error of the session is shown, the first one if there are several. */
  lemma FailuresAreShown(w: World, from: u64, code: string, o: Outcomes)
    requires Sound(w.app) && w.app.session == Some(from)
    ensures var after := Step(w, Event(from, Failed(code), o)).app;
            && IsEnding(w.app, after, CleanupPending)
            && after.page == if w.app.page.FailedPage? then w.app.page
                             else FailedPage(w.app.page.RetainedDraft(), code)
  {
  }

  /** A session that closes is shown as disconnecting, unless it has failed. */
  lemma ClosesAreShown(w: World, from: u64, o: Outcomes)
    requires Sound(w.app) && w.app.session == Some(from)
    ensures var after := Step(w, Event(from, Closed, o)).app;
            && after.slot == Some(w.app.slot.value.(phase := CleanupPending)) && after.pending == None
            && (if w.app.page.FailedPage? then after.page == w.app.page
                else
                  IsEnding(w.app, after, CleanupPending)
                  && after.page == DisconnectingPage(w.app.page.RetainedDraft()))
  {
  }

  /** The remote side starts a disconnect. */
  lemma RemoteDisconnectsAreShown(w: World, from: u64, o: Outcomes)
    requires Sound(w.app) && w.app.session == Some(from) && w.app.page.IsLive()
    ensures var after := Step(w, Event(from, StageChanged(StageDisconnecting), o)).app;
            && IsEnding(w.app, after, Disconnecting)
            && after.page == DisconnectingPage(w.app.page.RetainedDraft())
  {
  }

  /** The user disconnects: once, and only a session that has not begun to end. */
  lemma DisconnectsOnce(w: World, o: Outcome)
    requires Sound(w.app)
    ensures var r := CancelOrDisconnect(w, o);
            if w.app.slot.Some? && w.app.slot.value.phase in {Connecting, Active} then
              && r.response == SendDisconnect
              && IsEnding(w.app, r.world.app, Disconnecting)
              && r.world.app.page == DisconnectingPage(w.app.page.RetainedDraft())
            else
              r.world == w && r.response == if w.app.slot.Some? then Nothing else NoActiveSession
  {
  }

  /** After its cleanup nothing of a session is left, and the form is back unless a failure is on screen. */
  lemma CleanupsAreFinal(w: World, identity: Identity, listed: bool)
    requires Sound(w.app)
    ensures var r := FinishSessionCleanup(w, identity, listed);
            if && w.app.slot.Some? && w.app.slot.value.owner == identity
               && w.app.slot.value.phase in {Disconnecting, CleanupPending}
            then
              && r.response == Nothing
              && r.world.app.slot == None && r.world.app.session == None
              && r.world.app.generation == 0 && r.world.app.challenge == None
              && r.world.logins == w.logins && r.world.pins == w.pins
              && r.world.app.page ==
                 if w.app.page.DisconnectingPage?
                 then FormPage(ConnectionForm(w.app.page.draft, if listed then w.logins.profiles else [],
                                              None, false, ""))
                 else w.app.page
            else r.world == w && r.response == InvalidTransition
  {
  }

  /** A launch that is rolled back gives the slot back while it is still connecting, and says why. */
  lemma RollbacksAreShown(w: World, abort: Identity, consumed: bool, code: string, o: Outcome)
    requires Sound(w.app)
    ensures var r := ConsumeLaunchRollback(w, abort, consumed, code, o);
            if && w.app.page.ConnectingPage? && !consumed
               && w.app.slot == Some(SlotState(abort.session, abort, Connecting))
            then
              && r.response == Nothing
              && r.world.app.slot == None && r.world.app.session == None && r.world.app.pending == None
              && r.world.app.page == FailedPage(w.app.page.draft, code)
            else r.world == w && r.response == InvalidTransition
  {
  }
}
