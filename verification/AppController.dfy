/**
 The application controller: pages, the current session and its surface generation, and the pending login
 to save (crates/frd-app/src/controller.rs). Each handler is a function on a value, and a method of the
 class below that changes the controller, its slot and the stores in place as that function says.
 */
module AppController {
  import opened Bytes
  import opened Results
  import opened FrameSurface
  import opened SavedLogins
  import opened SessionSlot
  import Utf8

  // ---------- What the user submits ----------

  datatype ProtocolChoice = Automatic | Explicit(id: string)

  datatype ConnectionDraft = ConnectionDraft(
    target: Option<TargetSystem>, address: string, port: Option<u16>, protocol: ProtocolChoice, username: string)

  datatype ConnectionForm = ConnectionForm(
    draft: ConnectionDraft,
    profiles: seq<SavedProfile>,
    selected: Option<ProfileKey>,
    remember: bool,
    password: string)

  datatype Submission = Submission(
    draft: ConnectionDraft,
    resolvedProtocol: string,
    password: string,
    remember: bool,
    selected: Option<ProfileKey>)

  datatype Requirements = Requirements(username: bool, password: bool)

  datatype Descriptor = Descriptor(id: string, requirements: Requirements)

  type Catalog = seq<Descriptor>

  predicate IsBlank(s: string) {
    forall i :: 0 <= i < |s| ==> Utf8.IsWhitespace(s[i] as int)
  }

  function Described(catalog: Catalog, id: string): Option<Requirements> {
    if catalog == [] then None
    else if catalog[0].id == id then Some(catalog[0].requirements)
    else Described(catalog[1..], id)
  }

  function DefaultProtocol(target: TargetSystem): Option<string> {
    match target
    case MacOs => Some("apple-high-performance")
    case Windows => Some("rdp")
    case Linux => Some("rfb")
    case Custom => None
  }

  predicate Permits(target: TargetSystem, id: string) {
    match target
    case MacOs => id == "apple-hpss-mvs" || id == "apple-high-performance"
    case Windows => id == "rdp"
    case Linux => id == "rfb"
    case Custom => true
  }

  datatype Selection = Selected(id: string) | Unselectable(code: string)

  function Select(catalog: Catalog, target: TargetSystem, choice: ProtocolChoice): Selection {
    var id := if choice.Explicit? then Some(choice.id) else DefaultProtocol(target);
    if id.None? || !Permits(target, id.value) then Unselectable("unsupported_target_protocol")
    else if Described(catalog, id.value).None? then Unselectable("unregistered_protocol")
    else Selected(id.value)
  }

  /** Why a submission is turned down before anything is changed, in the order of the checks. */
  function Rejection(sub: Submission, catalog: Catalog): Option<string> {
    var d := sub.draft;
    if d.target.None? then Some("target_system_required")
    else if IsBlank(d.address) then Some("address_required")
    else if d.port.None? || d.port == Some(0) then Some("port_required")
    else if Described(catalog, sub.resolvedProtocol).None? then Some("unregistered_protocol")
    else
      match Select(catalog, d.target.value, d.protocol)
      case Unselectable(code) => Some(code)
      case Selected(id) =>
        if id != sub.resolvedProtocol then Some("protocol_resolution_mismatch")
        else
          var needed := Described(catalog, id).value;
          if needed.username && IsBlank(d.username) then Some("username_required")
          else if needed.password && sub.password == "" then Some("password_required")
          else None
  }

  /** What the form resolves when it is complete: all fields are given and a protocol can be selected. */
  function Validated(form: ConnectionForm, catalog: Catalog): Option<string> {
    var d := form.draft;
    if || d.target.None? || IsBlank(d.address) || d.port.None? || d.port == Some(0)
       || IsBlank(d.username) || form.password == ""
    then None
    else
      match Select(catalog, d.target.value, d.protocol)
      case Selected(id) => Some(id)
      case Unselectable(_) => None
  }

  /** A submission taken from a complete form is not turned down, and with remembering it has a key. */
  lemma TakenSubmissionsAreAccepted(form: ConnectionForm, catalog: Catalog)
    requires Validated(form, catalog).Some?
    ensures var sub := Submission(form.draft, Validated(form, catalog).value,
                                  form.password, form.remember, form.selected);
            Rejection(sub, catalog) == None && sub.draft.port.Some? && KeyOf(sub).Some?
  {
  }

  // ---------- State ----------

  datatype Capabilities = Capabilities(
    dynamicResolution: bool, clipboardRead: bool, clipboardWrite: bool, remoteAudio: bool, textInput: bool)

  const NO_CAPABILITIES := Capabilities(false, false, false, false, false)

  function Intersection(a: Capabilities, b: Capabilities): Capabilities {
    Capabilities(
      a.dynamicResolution && b.dynamicResolution,
      a.clipboardRead && b.clipboardRead,
      a.clipboardWrite && b.clipboardWrite,
      a.remoteAudio && b.remoteAudio,
      a.textInput && b.textInput)
  }

  datatype Stage = StageConnecting | TransportReady | AwaitingIdentityDecision | StageDisconnecting

  datatype Page =
    | FormPage(form: ConnectionForm)
    | ConnectingPage(draft: ConnectionDraft, stage: Stage, diagnostics: Option<Warning>)
    | AwaitingFirstFrame(draft: ConnectionDraft, stage: Stage, diagnostics: Option<Warning>)
    | RemoteSession(draft: ConnectionDraft, capabilities: Capabilities, diagnostics: Option<Warning>)
    | DisconnectingPage(draft: ConnectionDraft)
    | FailedPage(draft: ConnectionDraft, code: string)
  {
    function RetainedDraft(): ConnectionDraft {
      if FormPage? then form.draft else draft
    }

    predicate IsLive() {
      ConnectingPage? || AwaitingFirstFrame? || RemoteSession?
    }
  }

  datatype Validation = Unknown | TrustedBySystem | PinMatched | PinMismatch

  datatype Endpoint = Endpoint(host: string, port: u16)

  datatype Challenge = Challenge(
    session: u64, id: u64, validation: Validation, protocol: string, endpoint: Endpoint, fingerprint: seq<u8>)

  datatype Decision = Reject | TrustOnce | TrustAndRemember

  type Pins = map<(string, Endpoint), seq<u8>>

  datatype App = App(
    session: Option<u64>,
    generation: u64,
    page: Page,
    slot: Slot,
    protocolCapabilities: Capabilities,
    platformCapabilities: Capabilities,
    policy: Capabilities,
    challenge: Option<Challenge>,
    pending: Option<PendingProfile>,
    warning: Option<Warning>)
  {
    function Effective(): Capabilities {
      Intersection(Intersection(protocolCapabilities, platformCapabilities), policy)
    }

    /** What every change of session forgets. */
    function Reset(): App {
      this.(generation := 0, challenge := None, protocolCapabilities := NO_CAPABILITIES, warning := None)
    }

    /** Shows the effective capabilities again. */
    function Refreshed(): App {
      if page.RemoteSession? then this.(page := page.(capabilities := Effective())) else this
    }
  }

  datatype World = World(app: App, logins: Logins, pins: Pins)

  datatype Request = Request(
    session: u64, endpoint: Endpoint, protocol: string, username: string, password: string, pin: Option<seq<u8>>)

  datatype Response =
    | Nothing
    | StartSession(request: Request, permit: Identity)
    | SendDisconnect
    | SendDecision(session: u64, challenge: u64, decision: Decision)
    | InvalidSubmission(code: string)
    | PlatformFailed
    | SessionAlreadyActive
    | NoActiveSession
    | NoCurrentChallenge
    | StaleChallenge
    | PinMismatchRefused
    | RememberRequiresUnknown
    | PinNotStored
    | InvalidTransition

  datatype Stepped = Stepped(world: World, response: Response)

  function EmptyForm(draft: ConnectionDraft): ConnectionForm {
    ConnectionForm(draft, [], None, false, "")
  }

  function LoadedForm(draft: ConnectionDraft, profiles: seq<SavedProfile>, listed: bool): ConnectionForm {
    EmptyForm(draft).(profiles := if listed then profiles else [])
  }

  function InitialApp(form: ConnectionForm): App {
    App(None, 0, FormPage(form), None, NO_CAPABILITIES, NO_CAPABILITIES, NO_CAPABILITIES, None, None, None)
  }

  // ---------- Intents ----------

  /** What starting a connection gets from outside: a session id, a reservation, and how the stores answer. */
  datatype StartEnv = StartEnv(session: u64, serial: nat, pinLoads: bool, stage: Outcome) {
    /** Every reservation of a session has an identity of its own. */
    function Owner(): Identity {
      Identity(session, serial)
    }
  }

  function RejectedForm(page: Page, sub: Submission): ConnectionForm {
    ConnectionForm(sub.draft, if page.FormPage? then page.form.profiles else [],
                   sub.selected, sub.remember, sub.password)
  }

  /** What submitting a form again gives, once its protocol is resolved. */
  function Resubmitted(form: ConnectionForm, protocol: string): Submission {
    Submission(form.draft, protocol, form.password, form.remember, form.selected)
  }

  function Rejected(w: World, sub: Submission, code: string): Stepped {
    Stepped(w.(app := w.app.(page := FormPage(RejectedForm(w.app.page, sub)))), InvalidSubmission(code))
  }

  function KeyOf(sub: Submission): Option<ProfileKey>
    requires sub.draft.port.Some?
  {
    if IsBlank(sub.draft.address) || sub.draft.port.value == 0 || IsBlank(sub.draft.username) then None
    else Some(ProfileKey(sub.resolvedProtocol, sub.draft.address, sub.draft.port.value, sub.draft.username))
  }

  function StartConnection(w: World, sub: Submission, catalog: Catalog, env: StartEnv): Stepped {
    if w.app.slot.Some? then Stepped(w, SessionAlreadyActive)
    else
      var rejection := Rejection(sub, catalog);
      if rejection.Some? then Rejected(w, sub, rejection.value)
      else if !env.pinLoads then Stepped(w, PlatformFailed)
      else if sub.remember then
        var key := KeyOf(sub);
        if key.None? then Rejected(w, sub, "invalid_profile")
        else
          var staged := w.(logins := w.logins.(credentials :=
                             Staged(w.logins.credentials, env.session, sub.password, env.stage)));
          if !env.stage.Reported() then Rejected(staged, sub, "credential_storage_failed")
          else
            Launched(staged, sub, env, Some(PendingProfile(env.session,
                                                Remember(SavedProfile(key.value, sub.draft.target.value, 0)))))
      else if sub.selected.Some? then
        Launched(w, sub, env, Some(PendingProfile(env.session, Forget(sub.selected.value))))
      else Launched(w, sub, env, None)
  }

  function Launched(w: World, sub: Submission, env: StartEnv, pending: Option<PendingProfile>): Stepped
    requires sub.draft.port.Some?
  {
    var endpoint := Endpoint(sub.draft.address, sub.draft.port.value);
    var site := (sub.resolvedProtocol, endpoint);
    Stepped(
      w.(app := w.app.Reset().(session := Some(env.session), pending := pending,
                               slot := Some(SlotState(env.session, env.Owner(), Connecting)),
                               page := ConnectingPage(sub.draft, StageConnecting, None))),
      StartSession(Request(env.session, endpoint, sub.resolvedProtocol, sub.draft.username, sub.password,
                           if site in w.pins then Some(w.pins[site]) else None),
                   env.Owner()))
  }

  function SelectSavedProfile(w: World, key: ProfileKey, loads: bool): World {
    if !w.app.page.FormPage? then w
    else
      var form := w.app.page.form;
      var found := Find(form.profiles, key);
      if found.None? then w
      else
        var d := ConnectionDraft(Some(found.value.target), key.address, Some(key.port),
                                 Explicit(key.protocol), key.username);
        var password := if loads then Load(w.logins.credentials, key) else None;
        w.(app := w.app.(page := FormPage(form.(draft := d, selected := Some(key), remember := true,
                                                password := if password.Some? then password.value else ""))))
  }

  function Find(profiles: seq<SavedProfile>, key: ProfileKey): Option<SavedProfile> {
    if profiles == [] then None
    else if profiles[0].key == key then Some(profiles[0])
    else Find(profiles[1..], key)
  }

  /** Drops the pending login of this session together with its staged credential. */
  function PendingDropped(w: World, session: u64, o: Outcome): World {
    if w.app.pending.Some? && w.app.pending.value.session == session then
      w.(app := w.app.(pending := None),
         logins := w.logins.(credentials := SavedLogins.Discarded(w.logins.credentials, session, o)))
    else w
  }

  /** The slot in another phase, the session-bound state forgotten, on another page. */
  function Moved(w: World, phase: SlotPhase, page: Page): World
    requires w.app.slot.Some?
  {
    w.(app := w.app.Reset().(slot := Some(w.app.slot.value.(phase := phase)), page := page))
  }

  function CancelOrDisconnect(w: World, o: Outcome): Stepped {
    if w.app.session.None? then Stepped(w, NoActiveSession)
    else
      var session := w.app.session.value;
      if SessionSlot.IsLive(w.app.slot, session) then
        Stepped(Moved(PendingDropped(w, session, o), Disconnecting, DisconnectingPage(w.app.page.RetainedDraft())),
                SendDisconnect)
      else if IsClosing(w.app.slot, session) then Stepped(w, Nothing)
      else Stepped(w, NoActiveSession)
  }

  function ReturnToConnection(w: World, listed: bool): World {
    w.(app := w.app.(page := FormPage(LoadedForm(w.app.page.RetainedDraft(), w.logins.profiles, listed))))
  }

  function ResolveServerIdentity(w: World, session: u64, id: u64, decision: Decision, o: Outcome): Stepped {
    if w.app.challenge.None? then Stepped(w, NoCurrentChallenge)
    else
      var c := w.app.challenge.value;
      if w.app.session != Some(session) || c.session != session || c.id != id then Stepped(w, StaleChallenge)
      else if c.validation.PinMismatch? && decision != Reject then Stepped(w, PinMismatchRefused)
      else if decision.TrustAndRemember? && !c.validation.Unknown? then Stepped(w, RememberRequiresUnknown)
      else
        var pinned := if decision.TrustAndRemember? && o.TakesEffect()
                      then w.(pins := w.pins[(c.protocol, c.endpoint) := c.fingerprint]) else w;
        if decision.TrustAndRemember? && !o.Reported() then Stepped(pinned, PinNotStored)
        else Stepped(pinned.(app := w.app.(challenge := None)), SendDecision(session, id, decision))
  }

  // ---------- Session events ----------

  datatype SessionEvent =
    | StageChanged(stage: Stage)
    | ServerIdentityChallenge(challenge: Challenge)
    | SurfaceGenerationChanged(surfaceSession: u64, generation: u64)
    | CapabilitiesChanged(capabilities: Capabilities)
    | AudioStateChanged(failed: bool)
    | Closed
    | Failed(code: string)

  /** An event of a session; one of another session is ignored. */
  function HandleEvent(w: World, session: u64, event: SessionEvent, o: Outcomes): World {
    if w.app.session != Some(session) then w
    else
      match event
      case Failed(code) => TerminalFailure(w, session, code, o.discard)
      case Closed => NormalClose(w, session, o.discard)
      case _ => if w.app.page.IsLive() then HandleLiveEvent(w, session, event, o) else w
  }

  function HandleLiveEvent(w: World, session: u64, event: SessionEvent, o: Outcomes): World
    requires w.app.page.IsLive() && !event.Failed? && !event.Closed?
  {
    match event
    case StageChanged(stage) =>
      if stage.StageDisconnecting? then DisconnectStage(w, session, o.discard)
      else if w.app.page.RemoteSession? then w
      else if stage.TransportReady? then ReadyStage(w, session, o)
      else
        w.(app := w.app.(page := ConnectingPage(w.app.page.RetainedDraft(), stage, w.app.warning)))
    case ServerIdentityChallenge(challenge) =>
      if challenge.session == session then w.(app := w.app.(challenge := Some(challenge))) else w
    case SurfaceGenerationChanged(surfaceSession, generation) =>
      if surfaceSession == session && generation > w.app.generation then
        w.(app := w.app.(generation := generation,
                         page := AwaitingFirstFrame(w.app.page.RetainedDraft(), TransportReady, w.app.warning)))
      else w
    case CapabilitiesChanged(capabilities) =>
      w.(app := w.app.(protocolCapabilities := capabilities).Refreshed())
    case AudioStateChanged(failed) =>
      if failed then
        w.(app := w.app.(platformCapabilities := w.app.platformCapabilities.(remoteAudio := false)).Refreshed())
      else w
  }

  /** The transport is ready: the pending login is saved or forgotten, and the slot becomes active. */
  function ReadyStage(w: World, session: u64, o: Outcomes): World {
    var finished := PendingFinished(w, session, o);
    var slot := w.app.slot;
    finished.(app := finished.app.(
                slot := if IsConnecting(slot, session) then Some(slot.value.(phase := Active)) else slot,
                page := AwaitingFirstFrame(w.app.page.RetainedDraft(), TransportReady, finished.app.warning)))
  }

  function PendingFinished(w: World, session: u64, o: Outcomes): World {
    if w.app.pending.None? || w.app.pending.value.session != session then w
    else
      var finished := Finish(w.logins, w.app.pending.value, o);
      w.(logins := finished.logins,
         app := w.app.(pending := None,
                       warning := if finished.warning.Some? then finished.warning else w.app.warning))
  }

  predicate Holds(slot: Slot, session: u64) {
    slot.Some? && slot.value.session == session
  }

  function TerminalFailure(w: World, session: u64, code: string, o: Outcome): World {
    if !Holds(w.app.slot, session) then w
    else
      Moved(PendingDropped(w, session, o), CleanupPending,
            if w.app.page.FailedPage? then w.app.page else FailedPage(w.app.page.RetainedDraft(), code))
  }

  function NormalClose(w: World, session: u64, o: Outcome): World {
    if !Holds(w.app.slot, session) then w
    else
      var dropped := PendingDropped(w, session, o);
      if w.app.page.FailedPage? then
        dropped.(app := dropped.app.(slot := Some(dropped.app.slot.value.(phase := CleanupPending))))
      else Moved(dropped, CleanupPending, DisconnectingPage(w.app.page.RetainedDraft()))
  }

  function DisconnectStage(w: World, session: u64, o: Outcome): World {
    if !Holds(w.app.slot, session) then w
    else
      Moved(PendingDropped(w, session, o),
            if SessionSlot.IsLive(w.app.slot, session) then Disconnecting else w.app.slot.value.phase,
            DisconnectingPage(w.app.page.RetainedDraft()))
  }

  // ---------- Presentation, cleanup and input ----------

  function HandlePresented(w: World, session: u64, generation: u64, completeness: FrameCompleteness): World {
    if && w.app.page.AwaitingFirstFrame?
       && w.app.session == Some(session)
       && generation == w.app.generation
       && completeness == FullBaseline
    then w.(app := w.app.(page := RemoteSession(w.app.page.draft, w.app.Effective(), w.app.warning)))
    else w
  }

  function FinishSessionCleanup(w: World, identity: Identity, listed: bool): Stepped {
    if !(IsClosing(w.app.slot, identity.session) && w.app.slot.value.owner == identity)
    then Stepped(w, InvalidTransition)
    else if w.app.session != Some(identity.session) then Stepped(w.(app := w.app.(slot := None)), Nothing)
    else
      var page := if w.app.page.DisconnectingPage?
                  then FormPage(LoadedForm(w.app.page.RetainedDraft(), w.logins.profiles, listed)) else w.app.page;
      Stepped(w.(app := w.app.Reset().(slot := None, session := None, page := page)), Nothing)
  }

  function ConsumeLaunchRollback(w: World, identity: Identity, consumed: bool, code: string, o: Outcome): Stepped {
    if || !w.app.page.ConnectingPage?
       || w.app.session != Some(identity.session)
       || !IsConnecting(w.app.slot, identity.session)
       || w.app.slot.value.owner != identity
       || consumed
    then Stepped(w, InvalidTransition)
    else
      var dropped := PendingDropped(w, identity.session, o);
      Stepped(dropped.(app := dropped.app.Reset().(slot := None, session := None,
                                                   page := FailedPage(w.app.page.RetainedDraft(), code))),
              Nothing)
  }

  datatype SessionInput = SessionInput(session: u64, generation: u64)

  /** Input goes to the session and generation that are presented; text needs the capability for it. */
  function RouteInput(app: App, isText: bool): Option<SessionInput> {
    if app.session.None? || (isText && !app.Effective().textInput) || !app.page.RemoteSession? then None
    else Some(SessionInput(app.session.value, app.generation))
  }

  // ---------- The invariant ----------

  /**
   The session is the slot's; a live page has a live slot, the disconnecting page a closing one; a pending
   login waits for the transport of the session that is connecting; the capabilities shown are the
   effective ones.
   */
  predicate Sound(app: App) {
    && (app.session.Some? <==> app.slot.Some?)
    && (app.slot.Some? ==> app.slot.value.session == app.session.value == app.slot.value.owner.session)
    && (app.page.IsLive() ==> app.session.Some? && SessionSlot.IsLive(app.slot, app.session.value))
    && (app.page.DisconnectingPage? ==> app.session.Some? && IsClosing(app.slot, app.session.value))
    && (app.page.FailedPage? && app.slot.Some? ==> IsClosing(app.slot, app.session.value))
    && (app.pending.Some? ==>
          app.session == Some(app.pending.value.session) && IsConnecting(app.slot, app.session.value))
    && (app.page.RemoteSession? ==> app.page.capabilities == app.Effective())
    && (app.challenge.Some? ==> app.session == Some(app.challenge.value.session))
  }

  lemma InitialIsSound(form: ConnectionForm)
    ensures Sound(InitialApp(form))
  {
  }

  lemma StartKeepsSound(w: World, sub: Submission, catalog: Catalog, env: StartEnv)
    requires Sound(w.app)
    ensures Sound(StartConnection(w, sub, catalog, env).world.app)
  {
    hide Rejection, KeyOf, Intersection;
  }

  lemma EditKeepsSound(w: World, form: ConnectionForm)
    requires Sound(w.app)
    ensures w.app.page.FormPage? ==> Sound(w.app.(page := FormPage(form)))
  {
  }

  lemma SelectKeepsSound(w: World, key: ProfileKey, loads: bool)
    requires Sound(w.app)
    ensures Sound(SelectSavedProfile(w, key, loads).app)
  {
    hide Find, Intersection;
  }

  lemma CancelKeepsSound(w: World, o: Outcome)
    requires Sound(w.app)
    ensures Sound(CancelOrDisconnect(w, o).world.app)
  {
    hide Intersection;
  }

  lemma ReturnKeepsSound(w: World, listed: bool)
    requires Sound(w.app)
    ensures Sound(ReturnToConnection(w, listed).app)
  {
  }

  lemma ResolveKeepsSound(w: World, session: u64, id: u64, decision: Decision, o: Outcome)
    requires Sound(w.app)
    ensures Sound(ResolveServerIdentity(w, session, id, decision, o).world.app)
  {
    hide Intersection;
  }

  lemma EventKeepsSound(w: World, session: u64, event: SessionEvent, o: Outcomes)
    requires Sound(w.app)
    ensures Sound(HandleEvent(w, session, event, o).app)
  {
    hide Finish, Intersection;
  }

  lemma PresentedKeepsSound(w: World, session: u64, generation: u64, completeness: FrameCompleteness)
    requires Sound(w.app)
    ensures Sound(HandlePresented(w, session, generation, completeness).app)
  {
  }

  lemma CleanupKeepsSound(w: World, identity: Identity, listed: bool)
    requires Sound(w.app)
    ensures Sound(FinishSessionCleanup(w, identity, listed).world.app)
  {
    hide Intersection;
  }

  lemma RollbackKeepsSound(w: World, identity: Identity, consumed: bool, code: string, o: Outcome)
    requires Sound(w.app)
    ensures Sound(ConsumeLaunchRollback(w, identity, consumed, code, o).world.app)
  {
    hide Intersection;
  }

  lemma CapabilitiesKeepSound(app: App, capabilities: Capabilities)
    requires Sound(app)
    ensures Sound(app.(platformCapabilities := capabilities).Refreshed())
    ensures Sound(app.(policy := capabilities).Refreshed())
  {
    hide Intersection;
  }

  // ---------- The controller ----------

  class IdentityStore {
    var pins: Pins

    constructor ()
      ensures pins == map[]
    {
      pins := map[];
    }

    method StorePin(protocol: string, endpoint: Endpoint, fingerprint: seq<u8>, o: Outcome) returns (ok: bool)
      modifies this
      ensures ok == o.Reported()
      ensures pins == if o.TakesEffect() then old(pins)[(protocol, endpoint) := fingerprint] else old(pins)
    {
      if o.TakesEffect() {
        pins := pins[(protocol, endpoint) := fingerprint];
      }
      ok := o.Reported();
    }
  }

  datatype Stores = Stores(identities: IdentityStore, profiles: ProfileStore, credentials: CredentialStore)

  class AppController {
    const slot: ActiveSessionSlot
    var session: Option<u64>
    var generation: u64
    var page: Page
    var protocolCapabilities: Capabilities
    var platformCapabilities: Capabilities
    var policy: Capabilities
    var challenge: Option<Challenge>
    var pending: Option<PendingProfile>
    var warning: Option<Warning>

    ghost function View(): App
      reads this, slot
    {
      App(session, generation, page, slot.state, protocolCapabilities, platformCapabilities, policy, challenge,
          pending, warning)
    }

    ghost function Whole(stores: Stores): World
      reads this, slot, stores.identities, stores.profiles, stores.credentials
    {
      World(View(), Logins(stores.credentials.View(), stores.profiles.profiles), stores.identities.pins)
    }

    /** Between calls session, page, slot, pending login, challenge and shown capabilities agree. */
    ghost predicate Valid()
      reads this, slot
    {
      Sound(View())
    }

    constructor (form: ConnectionForm)
      ensures Valid() && View() == InitialApp(form) && fresh(slot)
    {
      slot := new ActiveSessionSlot();
      session, generation, page := None, 0, FormPage(form);
      protocolCapabilities, platformCapabilities, policy := NO_CAPABILITIES, NO_CAPABILITIES, NO_CAPABILITIES;
      challenge, pending, warning := None, None, None;
    }

    method ResetSessionBoundState()
      modifies this
      ensures View() == old(View()).Reset()
    {
      generation, challenge, protocolCapabilities, warning := 0, None, NO_CAPABILITIES, None;
    }

    function EffectiveCapabilities(): Capabilities
      reads this
    {
      Intersection(Intersection(protocolCapabilities, platformCapabilities), policy)
    }

    method RefreshPresentedCapabilities()
      modifies this
      ensures View() == old(View()).Refreshed()
    {
      if page.RemoteSession? {
        page := page.(capabilities := EffectiveCapabilities());
      }
    }

    method SetPlatformCapabilities(capabilities: Capabilities)
      requires Valid()
      modifies this
      ensures Valid()
      ensures View() == old(View()).(platformCapabilities := capabilities).Refreshed()
    {
      CapabilitiesKeepSound(View(), capabilities);
      hide Sound;
      platformCapabilities := capabilities;
      RefreshPresentedCapabilities();
    }

    method SetProductPolicy(capabilities: Capabilities)
      requires Valid()
      modifies this
      ensures Valid()
      ensures View() == old(View()).(policy := capabilities).Refreshed()
    {
      CapabilitiesKeepSound(View(), capabilities);
      hide Sound;
      policy := capabilities;
      RefreshPresentedCapabilities();
    }

    method RejectSubmission(sub: Submission, code: string) returns (response: Response)
      modifies this`page
      ensures View() == old(View()).(page := FormPage(RejectedForm(old(page), sub)))
      ensures response == InvalidSubmission(code)
      ensures Resubmitted(page.form, sub.resolvedProtocol) == sub
    {
      var profiles := if page.FormPage? then page.form.profiles else [];
      page := FormPage(ConnectionForm(sub.draft, profiles, sub.selected, sub.remember, sub.password));
      return InvalidSubmission(code);
    }

    method Start(sub: Submission, catalog: Catalog, env: StartEnv, stores: Stores) returns (response: Response)
      requires Valid()
      modifies this, slot, stores.credentials
      ensures Valid()
      ensures Stepped(Whole(stores), response) == StartConnection(old(Whole(stores)), sub, catalog, env)
    {
      StartKeepsSound(Whole(stores), sub, catalog, env);
      hide Sound;
      if slot.state.Some? {
        return SessionAlreadyActive;
      }
      var rejection := Rejection(sub, catalog);
      if rejection.Some? {
        response := RejectSubmission(sub, rejection.value);
        return;
      }
      if !env.pinLoads {
        return PlatformFailed;
      }
      var site := (sub.resolvedProtocol, Endpoint(sub.draft.address, sub.draft.port.value));
      var pin := if site in stores.identities.pins then Some(stores.identities.pins[site]) else None;
      var pendingProfile: Option<PendingProfile> := None;
      if sub.remember {
        var key := KeyOf(sub);
        if key.None? {
          response := RejectSubmission(sub, "invalid_profile");
          return;
        }
        var staged := stores.credentials.Stage(env.session, sub.password, env.stage);
        if !staged {
          response := RejectSubmission(sub, "credential_storage_failed");
          return;
        }
        var profile := SavedProfile(key.value, sub.draft.target.value, 0);
        pendingProfile := Some(PendingProfile(env.session, Remember(profile)));
      } else if sub.selected.Some? {
        pendingProfile := Some(PendingProfile(env.session, Forget(sub.selected.value)));
      }
      // The slot was found free above, so the reservation cannot fail.
      var reserved := slot.BeginConnect(env.session, env.Owner());
      assert reserved;
      session := Some(env.session);
      pending := pendingProfile;
      ResetSessionBoundState();
      page := ConnectingPage(sub.draft, StageConnecting, None);
      return StartSession(
               Request(env.session, site.1, sub.resolvedProtocol, sub.draft.username, sub.password, pin),
               env.Owner());
    }

    method SelectProfile(key: ProfileKey, loads: bool, stores: Stores)
      requires Valid()
      modifies this`page
      ensures Valid()
      ensures Whole(stores) == SelectSavedProfile(old(Whole(stores)), key, loads)
    {
      SelectKeepsSound(Whole(stores), key, loads);
      hide Sound;
      if !page.FormPage? {
        return;
      }
      var found := Find(page.form.profiles, key);
      if found.None? {
        return;
      }
      var draft := ConnectionDraft(Some(found.value.target), key.address, Some(key.port),
                                   Explicit(key.protocol), key.username);
      page := FormPage(page.form.(draft := draft, password := "", selected := Some(key), remember := true));
      if loads && key in stores.credentials.saved {
        page := FormPage(page.form.(password := stores.credentials.saved[key]));
      }
    }

    method DiscardPendingProfile(session: u64, o: Outcome, credentials: CredentialStore)
      modifies this, credentials
      ensures var dropped := PendingDropped(World(old(View()), Logins(old(credentials.View()), []), map[]), session, o);
              View() == dropped.app && credentials.View() == dropped.logins.credentials
    {
      if pending.None? || pending.value.session != session {
        return;
      }
      pending := None;
      credentials.Discard(session, o);
    }

    method Cancel(o: Outcome, stores: Stores) returns (response: Response)
      requires Valid()
      modifies this, slot, stores.credentials
      ensures Valid()
      ensures Stepped(Whole(stores), response) == CancelOrDisconnect(old(Whole(stores)), o)
    {
      CancelKeepsSound(Whole(stores), o);
      hide Sound;
      if session.None? {
        return NoActiveSession;
      }
      var transition := slot.BeginDisconnect(session.value);
      if transition.None? {
        return NoActiveSession;
      }
      if transition.value == AlreadyInProgress {
        return Nothing;
      }
      DiscardPendingProfile(session.value, o, stores.credentials);
      var draft := page.RetainedDraft();
      ResetSessionBoundState();
      page := DisconnectingPage(draft);
      return SendDisconnect;
    }

    method Return(listed: bool, stores: Stores)
      requires Valid()
      modifies this`page
      ensures Valid()
      ensures Whole(stores) == ReturnToConnection(old(Whole(stores)), listed)
    {
      ReturnKeepsSound(Whole(stores), listed);
      hide Sound;
      page := FormPage(LoadedForm(page.RetainedDraft(), stores.profiles.profiles, listed));
    }

    method Resolve(session: u64, id: u64, decision: Decision, o: Outcome, stores: Stores) returns (response: Response)
      requires Valid()
      modifies this, stores.identities
      ensures Valid()
      ensures Stepped(Whole(stores), response) == ResolveServerIdentity(old(Whole(stores)), session, id, decision, o)
    {
      ResolveKeepsSound(Whole(stores), session, id, decision, o);
      hide Sound;
      if challenge.None? {
        return NoCurrentChallenge;
      }
      var c := challenge.value;
      if this.session != Some(session) || c.session != session || c.id != id {
        return StaleChallenge;
      }
      if c.validation.PinMismatch? && decision != Reject {
        return PinMismatchRefused;
      }
      if decision == TrustAndRemember {
        if !c.validation.Unknown? {
          return RememberRequiresUnknown;
        }
        var stored := stores.identities.StorePin(c.protocol, c.endpoint, c.fingerprint, o);
        if !stored {
          return PinNotStored;
        }
      }
      challenge := None;
      return SendDecision(session, id, decision);
    }

    method HandleSessionEvent(session: u64, event: SessionEvent, o: Outcomes, stores: Stores)
      requires Valid()
      modifies this, slot, stores.credentials, stores.profiles
      ensures Valid()
      ensures Whole(stores) == HandleEvent(old(Whole(stores)), session, event, o)
    {
      EventKeepsSound(Whole(stores), session, event, o);
      hide Sound;
      if this.session != Some(session) {
        return;
      }
      if event.Failed? {
        HandleTerminalFailure(event.code, o.discard, stores);
        return;
      }
      if event.Closed? {
        HandleNormalClose(o.discard, stores);
        return;
      }
      if page.FormPage? || page.DisconnectingPage? || page.FailedPage? {
        return;
      }
      HandleLiveSessionEvent(session, event, o, stores);
    }

    method HandleLiveSessionEvent(session: u64, event: SessionEvent, o: Outcomes, stores: Stores)
      requires this.session == Some(session) && page.IsLive() && !event.Failed? && !event.Closed?
      modifies this, slot, stores.credentials, stores.profiles
      ensures Whole(stores) == HandleLiveEvent(old(Whole(stores)), session, event, o)
    {
      match event {
        case StageChanged(stage) =>
          if stage == StageDisconnecting {
            HandleDisconnectStage(o.discard, stores);
          } else if !page.RemoteSession? {
            HandleStage(session, stage, o, stores);
          }
        case ServerIdentityChallenge(challenge) =>
          if challenge.session == session {
            this.challenge := Some(challenge);
          }
        case SurfaceGenerationChanged(surfaceSession, generation) =>
          if surfaceSession == session && generation > this.generation {
            this.generation := generation;
            page := AwaitingFirstFrame(page.RetainedDraft(), TransportReady, warning);
          }
        case CapabilitiesChanged(capabilities) =>
          protocolCapabilities := capabilities;
          RefreshPresentedCapabilities();
        case AudioStateChanged(failed) =>
          if failed {
            platformCapabilities := platformCapabilities.(remoteAudio := false);
            RefreshPresentedCapabilities();
          }
      }
    }

    method HandleStage(session: u64, stage: Stage, o: Outcomes, stores: Stores)
      requires this.session == Some(session) && page.IsLive() && stage != StageDisconnecting && !page.RemoteSession?
      modifies this, slot, stores.credentials, stores.profiles
      ensures Whole(stores) == HandleLiveEvent(old(Whole(stores)), session, StageChanged(stage), o)
    {
      var persistenceWarning := None;
      if stage == TransportReady {
        persistenceWarning := FinishPendingProfile(session, o, stores);
      }
      if persistenceWarning.Some? {
        warning := persistenceWarning;
      }
      if stage == TransportReady {
        var _ := slot.MarkActive(session);
      }
      var draft := page.RetainedDraft();
      page := if stage == TransportReady then AwaitingFirstFrame(draft, stage, warning)
              else ConnectingPage(draft, stage, warning);
    }

    method FinishPendingProfile(session: u64, o: Outcomes, stores: Stores) returns (persistenceWarning: Option<Warning>)
      modifies this, stores.credentials, stores.profiles
      ensures var w := old(Whole(stores));
              var finished := PendingFinished(w, session, o);
              && Whole(stores) == finished.(app := finished.app.(warning := w.app.warning))
              && finished.app.warning == if persistenceWarning.Some? then persistenceWarning else w.app.warning
    {
      if pending.None? || pending.value.session != session {
        return None;
      }
      var taken := pending.value;
      pending := None;
      persistenceWarning := FinishPending(stores.credentials, stores.profiles, taken, o);
    }

    method HandleTerminalFailure(code: string, o: Outcome, stores: Stores)
      requires session.Some?
      modifies this, slot, stores.credentials
      ensures Whole(stores) == TerminalFailure(old(Whole(stores)), old(session).value, code, o)
    {
      var begun := slot.BeginTerminal(session.value);
      if !begun {
        return;
      }
      DiscardPendingProfile(session.value, o, stores.credentials);
      var draft := page.RetainedDraft();
      var alreadyFailed := page.FailedPage?;
      ResetSessionBoundState();
      if !alreadyFailed {
        page := FailedPage(draft, code);
      }
    }

    method HandleNormalClose(o: Outcome, stores: Stores)
      requires session.Some?
      modifies this, slot, stores.credentials
      ensures Whole(stores) == NormalClose(old(Whole(stores)), old(session).value, o)
    {
      var begun := slot.BeginTerminal(session.value);
      if !begun {
        return;
      }
      DiscardPendingProfile(session.value, o, stores.credentials);
      if page.FailedPage? {
        return;
      }
      var draft := page.RetainedDraft();
      ResetSessionBoundState();
      page := DisconnectingPage(draft);
    }

    method HandleDisconnectStage(o: Outcome, stores: Stores)
      requires session.Some?
      modifies this, slot, stores.credentials
      ensures Whole(stores) == DisconnectStage(old(Whole(stores)), old(session).value, o)
    {
      var transition := slot.BeginDisconnect(session.value);
      if transition.None? {
        return;
      }
      DiscardPendingProfile(session.value, o, stores.credentials);
      var draft := page.RetainedDraft();
      ResetSessionBoundState();
      page := DisconnectingPage(draft);
    }

    method HandlePresentation(session: u64, generation: u64, completeness: FrameCompleteness, stores: Stores)
      requires Valid()
      modifies this`page
      ensures Valid()
      ensures Whole(stores) == HandlePresented(old(Whole(stores)), session, generation, completeness)
      ensures page.RemoteSession? ==> this.session.Some? && SessionSlot.IsLive(slot.state, this.session.value)
    {
      PresentedKeepsSound(Whole(stores), session, generation, completeness);
      hide Sound;
      if && page.AwaitingFirstFrame?
         && this.session == Some(session)
         && generation == this.generation
         && completeness == FullBaseline
      {
        page := RemoteSession(page.draft, EffectiveCapabilities(), warning);
      }
    }

    method FinishCleanup(identity: Identity, listed: bool, stores: Stores) returns (response: Response)
      requires Valid()
      modifies this, slot
      ensures Valid()
      ensures Stepped(Whole(stores), response) == FinishSessionCleanup(old(Whole(stores)), identity, listed)
    {
      CleanupKeepsSound(Whole(stores), identity, listed);
      hide Sound;
      var freed := slot.FinishCleanup(identity);
      if !freed {
        return InvalidTransition;
      }
      if session == Some(identity.session) {
        var draft := page.RetainedDraft();
        var returnToForm := page.DisconnectingPage?;
        session := None;
        ResetSessionBoundState();
        if returnToForm {
          page := FormPage(LoadedForm(draft, stores.profiles.profiles, listed));
        }
      }
      return Nothing;
    }

    method ConsumeRollback(abort: SessionStartAbort, code: string, o: Outcome, stores: Stores)
      returns (response: Response)
      requires Valid()
      modifies this, slot, abort, stores.credentials
      ensures Valid()
      ensures Stepped(Whole(stores), response)
           == ConsumeLaunchRollback(old(Whole(stores)), abort.identity, old(abort.consumed), code, o)
      ensures abort.consumed == (old(abort.consumed) || response == Nothing)
    {
      RollbackKeepsSound(Whole(stores), abort.identity, abort.consumed, code, o);
      hide Sound;
      if !page.ConnectingPage? || session != Some(abort.identity.session) {
        return InvalidTransition;
      }
      var freed := slot.AbortConnect(abort);
      if !freed {
        return InvalidTransition;
      }
      DiscardPendingProfile(abort.identity.session, o, stores.credentials);
      var draft := page.RetainedDraft();
      session := None;
      ResetSessionBoundState();
      page := FailedPage(draft, code);
      return Nothing;
    }

    method Route(isText: bool) returns (input: Option<SessionInput>)
      requires Valid()
      ensures input == RouteInput(View(), isText)
      ensures input.Some? ==>
                session == Some(input.value.session) && SessionSlot.IsLive(slot.state, input.value.session)
    {
      if session.None? {
        return None;
      }
      if isText && !EffectiveCapabilities().textInput {
        return None;
      }
      return if page.RemoteSession? then Some(SessionInput(session.value, generation)) else None;
    }
  }
}
