/**
 The two stores of saved logins and the transaction that keeps them in step
 (crates/frd-app/src/controller.rs, crates/frd-platform-api/src/lib.rs, crates/frd-platform-windows/src).
 How each store call turns out is a parameter: a call may report failure with or without having taken effect.
 */
module SavedLogins {
  import opened Bytes
  import opened Results

  datatype TargetSystem = MacOs | Windows | Linux | Custom

  datatype ProfileKey = ProfileKey(protocol: string, address: string, port: u16, username: string)

  datatype SavedProfile = SavedProfile(key: ProfileKey, target: TargetSystem, lastSuccessOrder: u64)

  /** How one store call turns out. */
  datatype Outcome = Works | NoEffect | EffectUnreported {
    predicate Reported() {
      Works?
    }

    predicate TakesEffect() {
      !NoEffect?
    }
  }

  /** A commit reads the staged entry, writes the saved one and then removes the staged one. */
  datatype CommitOutcome = Commits | NothingWritten | StagedLeft | CommitUnreported {
    predicate Writes() {
      !NothingWritten?
    }

    predicate Unstages() {
      Commits? || CommitUnreported?
    }
  }

  // ---------- Credentials ----------

  datatype Credentials = Credentials(saved: map<ProfileKey, string>, staged: map<u64, string>)

  function Load(c: Credentials, key: ProfileKey): Option<string> {
    if key in c.saved then Some(c.saved[key]) else None
  }

  function Staged(c: Credentials, session: u64, password: string, o: Outcome): Credentials {
    if o.TakesEffect() then c.(staged := c.staged[session := password]) else c
  }

  function Discarded(c: Credentials, session: u64, o: Outcome): Credentials {
    if o.TakesEffect() then c.(staged := c.staged - {session}) else c
  }

  function Deleted(c: Credentials, key: ProfileKey, o: Outcome): Credentials {
    if o.TakesEffect() then c.(saved := c.saved - {key}) else c
  }

  function Committed(c: Credentials, session: u64, key: ProfileKey, o: CommitOutcome): Credentials {
    if session !in c.staged || !o.Writes() then c
    else
      Credentials(c.saved[key := c.staged[session]], if o.Unstages() then c.staged - {session} else c.staged)
  }

  predicate CommitReported(c: Credentials, session: u64, o: CommitOutcome) {
    session in c.staged && o.Commits?
  }

  class CredentialStore {
    var saved: map<ProfileKey, string>
    var staged: map<u64, string>

    ghost function View(): Credentials
      reads this
    {
      Credentials(saved, staged)
    }

    constructor ()
      ensures View() == Credentials(map[], map[])
    {
      saved, staged := map[], map[];
    }

    method Stage(session: u64, password: string, o: Outcome) returns (ok: bool)
      modifies this
      ensures ok == o.Reported() && View() == Staged(old(View()), session, password, o)
    {
      if o.TakesEffect() {
        staged := staged[session := password];
      }
      ok := o.Reported();
    }

    method Commit(session: u64, key: ProfileKey, o: CommitOutcome) returns (ok: bool)
      modifies this
      ensures ok == CommitReported(old(View()), session, o) && View() == Committed(old(View()), session, key, o)
    {
      if session !in staged || o.NothingWritten? {
        return false;
      }
      saved := saved[key := staged[session]];
      if o.Unstages() {
        staged := staged - {session};
      }
      ok := o.Commits?;
    }

    method Discard(session: u64, o: Outcome)
      modifies this
      ensures View() == Discarded(old(View()), session, o)
    {
      if o.TakesEffect() {
        staged := staged - {session};
      }
    }

    method Delete(key: ProfileKey, o: Outcome) returns (ok: bool)
      modifies this
      ensures ok == o.Reported() && View() == Deleted(old(View()), key, o)
    {
      if o.TakesEffect() {
        saved := saved - {key};
      }
      ok := o.Reported();
    }
  }

  // ---------- Profiles ----------

  /** The profiles of other keys, in their order. */
  function Others(profiles: seq<SavedProfile>, key: ProfileKey): seq<SavedProfile> {
    if profiles == [] then []
    else
      var front := Others(profiles[..|profiles| - 1], key);
      if profiles[|profiles| - 1].key == key then front else front + [profiles[|profiles| - 1]]
  }

  function Upserted(profiles: seq<SavedProfile>, profile: SavedProfile, o: Outcome): seq<SavedProfile> {
    if o.TakesEffect() then Others(profiles, profile.key) + [profile] else profiles
  }

  function ProfileDeleted(profiles: seq<SavedProfile>, key: ProfileKey, o: Outcome): seq<SavedProfile> {
    if o.TakesEffect() then Others(profiles, key) else profiles
  }

  class ProfileStore {
    var profiles: seq<SavedProfile>

    constructor ()
      ensures profiles == []
    {
      profiles := [];
    }

    method Retain(key: ProfileKey)
      modifies this
      ensures profiles == Others(old(profiles), key)
    {
      var kept := [];
      for i := 0 to |profiles|
        invariant unchanged(this)
        invariant kept == Others(profiles[..i], key)
      {
        assert profiles[..i + 1][..i] == profiles[..i];
        if profiles[i].key != key {
          kept := kept + [profiles[i]];
        }
      }
      assert profiles[..|profiles|] == profiles;
      profiles := kept;
    }

    method Upsert(profile: SavedProfile, o: Outcome) returns (ok: bool)
      modifies this
      ensures ok == o.Reported() && profiles == Upserted(old(profiles), profile, o)
    {
      if o.TakesEffect() {
        Retain(profile.key);
        profiles := profiles + [profile];
      }
      ok := o.Reported();
    }

    method Delete(key: ProfileKey, o: Outcome) returns (ok: bool)
      modifies this
      ensures ok == o.Reported() && profiles == ProfileDeleted(old(profiles), key, o)
    {
      if o.TakesEffect() {
        Retain(key);
      }
      ok := o.Reported();
    }
  }

  /** The newest success order among the profiles, 0 if there are none. */
  function MaxOrder(profiles: seq<SavedProfile>): u64 {
    if profiles == [] then 0
    else
      var front, last := MaxOrder(profiles[..|profiles| - 1]), profiles[|profiles| - 1].lastSuccessOrder;
      if front >= last then front else last
  }

  // ---------- The transaction ----------

  datatype PendingAction = Remember(profile: SavedProfile) | Forget(key: ProfileKey)

  datatype PendingProfile = PendingProfile(session: u64, action: PendingAction)

  datatype Warning = SaveFailed | CredentialDeleteFailed | MetadataDeleteFailed

  /** How the store calls of one transaction turn out, in the order in which they can be made. */
  datatype Outcomes = Outcomes(
    list: bool,
    load: bool,
    commit: CommitOutcome,
    upsert: Outcome,
    delete: Outcome,
    restage: Outcome,
    recommit: CommitOutcome,
    discard: Outcome,
    forget: Outcome,
    forgetProfile: Outcome)

  datatype Logins = Logins(credentials: Credentials, profiles: seq<SavedProfile>)

  /** Undoes a commit that may have been written: the old credential is staged and committed again, or removed. */
  function Compensated(c: Credentials, session: u64, key: ProfileKey, previous: Option<string>, o: Outcomes)
    : Credentials
  {
    var cleared := Deleted(c, key, o.delete);
    var restored :=
      if previous.None? then cleared
      else
        var staged := Staged(cleared, session, previous.value, o.restage);
        if o.restage.Reported() then Committed(staged, session, key, o.recommit) else staged;
    Discarded(restored, session, o.discard)
  }

  datatype Finished = Finished(logins: Logins, warning: Option<Warning>)

  function FinishRemember(l: Logins, session: u64, profile: SavedProfile, o: Outcomes): Finished {
    var c := l.credentials;
    if !o.list || MaxOrder(l.profiles) == MAX_U64 || !o.load then
      Finished(l.(credentials := Discarded(c, session, o.discard)), Some(SaveFailed))
    else
      var ordered := profile.(lastSuccessOrder := MaxOrder(l.profiles) + 1);
      var previous := Load(c, profile.key);
      var committed := Committed(c, session, profile.key, o.commit);
      if !CommitReported(c, session, o.commit) then
        Finished(l.(credentials := Compensated(committed, session, profile.key, previous, o)), Some(SaveFailed))
      else
        var profiles := Upserted(l.profiles, ordered, o.upsert);
        if !o.upsert.Reported() then
          Finished(Logins(Compensated(committed, session, profile.key, previous, o), profiles), Some(SaveFailed))
        else Finished(Logins(committed, profiles), None)
  }

  function FinishForget(l: Logins, key: ProfileKey, o: Outcomes): Finished {
    var c := Deleted(l.credentials, key, o.forget);
    if !o.forget.Reported() then Finished(l.(credentials := c), Some(CredentialDeleteFailed))
    else
      Finished(Logins(c, ProfileDeleted(l.profiles, key, o.forgetProfile)),
               if o.forgetProfile.Reported() then None else Some(MetadataDeleteFailed))
  }

  function Finish(l: Logins, pending: PendingProfile, o: Outcomes): Finished {
    match pending.action
    case Remember(profile) => FinishRemember(l, pending.session, profile, o)
    case Forget(key) => FinishForget(l, key, o)
  }

  method CompensateCredentialCommit(store: CredentialStore, session: u64, key: ProfileKey,
                                    previous: Option<string>, o: Outcomes)
    modifies store
    ensures store.View() == Compensated(old(store.View()), session, key, previous, o)
  {
    var _ := store.Delete(key, o.delete);
    if previous.Some? {
      var staged := store.Stage(session, previous.value, o.restage);
      if staged {
        var _ := store.Commit(session, key, o.recommit);
      }
    }
    store.Discard(session, o.discard);
  }

  /** The newest order plus one, as the loop over the listed profiles computes it; None when it would overflow. */
  method NextOrder(profiles: seq<SavedProfile>) returns (order: Option<u64>)
    ensures order == if MaxOrder(profiles) == MAX_U64 then None else Some(MaxOrder(profiles) + 1)
  {
    var newest: u64 := 0;
    for i := 0 to |profiles|
      invariant newest == MaxOrder(profiles[..i])
    {
      assert profiles[..i + 1][..i] == profiles[..i];
      if profiles[i].lastSuccessOrder > newest {
        newest := profiles[i].lastSuccessOrder;
      }
    }
    assert profiles[..|profiles|] == profiles;
    return if newest == MAX_U64 then None else Some(newest + 1);
  }

  method FinishPending(credentials: CredentialStore, profiles: ProfileStore, pending: PendingProfile, o: Outcomes)
    returns (warning: Option<Warning>)
    modifies credentials, profiles
    ensures Finished(Logins(credentials.View(), profiles.profiles), warning)
         == Finish(Logins(old(credentials.View()), old(profiles.profiles)), pending, o)
  {
    match pending.action {
      case Remember(profile) =>
        var order: Option<u64> := None;
        if o.list {
          order := NextOrder(profiles.profiles);
        }
        if order.None? || !o.load {
          credentials.Discard(pending.session, o.discard);
          return Some(SaveFailed);
        }
        var previous := if profile.key in credentials.saved then Some(credentials.saved[profile.key]) else None;
        var committed := credentials.Commit(pending.session, profile.key, o.commit);
        if !committed {
          CompensateCredentialCommit(credentials, pending.session, profile.key, previous, o);
          return Some(SaveFailed);
        }
        var stored := profiles.Upsert(profile.(lastSuccessOrder := order.value), o.upsert);
        if !stored {
          CompensateCredentialCommit(credentials, pending.session, profile.key, previous, o);
          return Some(SaveFailed);
        }
        return None;
      case Forget(key) =>
        var deleted := credentials.Delete(key, o.forget);
        if !deleted {
          return Some(CredentialDeleteFailed);
        }
        var cleaned := profiles.Delete(key, o.forgetProfile);
        return if cleaned then None else Some(MetadataDeleteFailed);
    }
  }

  // ---------- Logins of other keys ----------

  /** The profiles whose key is not among these, in their order. */
  function Without(profiles: seq<SavedProfile>, keys: set<ProfileKey>): seq<SavedProfile> {
    if profiles == [] then []
    else
      var front, last := Without(profiles[..|profiles| - 1], keys), profiles[|profiles| - 1];
      if last.key in keys then front else front + [last]
  }

  /** Nothing that is saved under another key has changed, moved, come or gone. */
  ghost predicate OthersStay(before: Logins, after: Logins, keys: set<ProfileKey>) {
    && (forall k :: k !in keys ==> Load(after.credentials, k) == Load(before.credentials, k))
    && Without(after.profiles, keys) == Without(before.profiles, keys)
  }

  lemma {:induction false} OthersKeepOrder(profiles: seq<SavedProfile>, key: ProfileKey, keys: set<ProfileKey>)
    requires key in keys
    ensures Without(Others(profiles, key), keys) == Without(profiles, keys)
  {
    if profiles != [] {
      var front, last := profiles[..|profiles| - 1], profiles[|profiles| - 1];
      OthersKeepOrder(front, key, keys);
      if last.key != key {
        assert (Others(front, key) + [last])[..|Others(front, key)|] == Others(front, key);
      }
    }
  }

  lemma UpsertKeepsOthers(profiles: seq<SavedProfile>, profile: SavedProfile, o: Outcome, keys: set<ProfileKey>)
    requires profile.key in keys
    ensures Without(Upserted(profiles, profile, o), keys) == Without(profiles, keys)
  {
    OthersKeepOrder(profiles, profile.key, keys);
    var others := Others(profiles, profile.key);
    assert (others + [profile])[..|others|] == others;
  }

  function KeyOfAction(action: PendingAction): ProfileKey {
    match action
    case Remember(profile) => profile.key
    case Forget(key) => key
  }

  lemma CompensationTouchesOneKey(c: Credentials, session: u64, key: ProfileKey, previous: Option<string>, o: Outcomes)
    ensures var after := Compensated(c, session, key, previous, o);
            && after.staged - {session} == c.staged - {session}
            && forall k :: k != key ==> Load(after, k) == Load(c, k)
  {
  }

  /** However its calls turn out, a transaction touches the login of its own key and nothing else that is saved. */
  lemma FinishTouchesOneKey(l: Logins, pending: PendingProfile, o: Outcomes, keys: set<ProfileKey>)
    requires KeyOfAction(pending.action) in keys
    ensures OthersStay(l, Finish(l, pending, o).logins, keys)
    ensures Finish(l, pending, o).logins.credentials.staged - {pending.session}
         == l.credentials.staged - {pending.session}
  {
    hide Others, Without, Compensated;
    match pending.action {
      case Remember(profile) =>
        CompensationTouchesOneKey(Committed(l.credentials, pending.session, profile.key, o.commit), pending.session,
                                  profile.key, Load(l.credentials, profile.key), o);
        UpsertKeepsOthers(l.profiles, profile.(lastSuccessOrder :=
                            if MaxOrder(l.profiles) == MAX_U64 then 0 else MaxOrder(l.profiles) + 1), o.upsert, keys);
      case Forget(key) =>
        OthersKeepOrder(l.profiles, key, keys);
    }
  }

  // ---------- What the transaction achieves ----------

  lemma {:induction false} OthersHaveOtherKeys(profiles: seq<SavedProfile>, key: ProfileKey)
    ensures forall p :: p in Others(profiles, key) <==> p in profiles && p.key != key
  {
    if profiles != [] {
      var front := profiles[..|profiles| - 1];
      OthersHaveOtherKeys(front, key);
      assert profiles == front + [profiles[|profiles| - 1]];
    }
  }

  /** Whether a profile of this key is saved. */
  predicate Saves(profiles: seq<SavedProfile>, key: ProfileKey) {
    exists p :: p in profiles && p.key == key
  }

  lemma {:induction false} NoneToRemove(profiles: seq<SavedProfile>, key: ProfileKey)
    requires !Saves(profiles, key)
    ensures Others(profiles, key) == profiles
  {
    if profiles != [] {
      var front := profiles[..|profiles| - 1];
      assert forall p :: p in front ==> p in profiles;
      NoneToRemove(front, key);
      assert profiles == front + [profiles[|profiles| - 1]];
    }
  }

  lemma {:induction false} MaxOrderIsMax(profiles: seq<SavedProfile>, p: SavedProfile)
    requires p in profiles
    ensures p.lastSuccessOrder <= MaxOrder(profiles)
  {
    if p != profiles[|profiles| - 1] {
      assert p in profiles[..|profiles| - 1];
      MaxOrderIsMax(profiles[..|profiles| - 1], p);
    }
  }

  /**
   A remembered login that reports success: the staged password is the saved one and no longer staged, the
   profile is stored as the newest, and nothing else changed in either store.
   */
  lemma RememberSucceeds(l: Logins, session: u64, profile: SavedProfile, o: Outcomes)
    requires FinishRemember(l, session, profile, o).warning == None
    ensures var after := FinishRemember(l, session, profile, o).logins;
            && session in l.credentials.staged
            && Load(after.credentials, profile.key) == Some(l.credentials.staged[session])
            && OthersStay(l, after, {profile.key})
            && after.credentials.staged == l.credentials.staged - {session}
            && |after.profiles| > 0
            && var newest := after.profiles[|after.profiles| - 1];
            && newest.key == profile.key && newest.target == profile.target
            && (forall p :: p in after.profiles && p != newest ==>
                  p in l.profiles && p.key != profile.key && p.lastSuccessOrder < newest.lastSuccessOrder)
            && (forall p :: p in l.profiles && p.key != profile.key ==> p in after.profiles)
  {
    var after := FinishRemember(l, session, profile, o).logins;
    UpsertKeepsOthers(l.profiles, profile.(lastSuccessOrder := MaxOrder(l.profiles) + 1), o.upsert, {profile.key});
    OthersHaveOtherKeys(l.profiles, profile.key);
    forall p | p in l.profiles
      ensures p.lastSuccessOrder <= MaxOrder(l.profiles)
    {
      MaxOrderIsMax(l.profiles, p);
    }
  }

  /** Exactly when a remember reports success. */
  lemma RememberSucceedsExactlyWhen(l: Logins, session: u64, profile: SavedProfile, o: Outcomes)
    ensures FinishRemember(l, session, profile, o).warning == None <==>
              o.list && o.load && session in l.credentials.staged && o.commit.Commits? && o.upsert.Works?
              && forall p :: p in l.profiles ==> p.lastSuccessOrder < MAX_U64
  {
    forall p | p in l.profiles
      ensures p.lastSuccessOrder <= MaxOrder(l.profiles)
    {
      MaxOrderIsMax(l.profiles, p);
    }
    if MaxOrder(l.profiles) == MAX_U64 {
      var p := MaxOrderIsReached(l.profiles);
    }
  }

  lemma {:induction false} MaxOrderIsReached(profiles: seq<SavedProfile>) returns (p: SavedProfile)
    requires MaxOrder(profiles) > 0
    ensures p in profiles && p.lastSuccessOrder == MaxOrder(profiles)
  {
    p := profiles[|profiles| - 1];
    if p.lastSuccessOrder != MaxOrder(profiles) {
      p := MaxOrderIsReached(profiles[..|profiles| - 1]);
    }
  }

  /** Whether the transaction got as far as the commit. */
  predicate Ran(l: Logins, o: Outcomes) {
    o.list && MaxOrder(l.profiles) < MAX_U64 && o.load
  }

  /** Whether the commit ran and wrote before the transaction failed. */
  predicate CommitWrote(l: Logins, session: u64, o: Outcomes) {
    Ran(l, o) && session in l.credentials.staged && o.commit.Writes()
  }

  /** Whether the compensating calls that run undo what was saved. */
  predicate SavedIsUndone(l: Logins, session: u64, key: ProfileKey, o: Outcomes) {
    var wrote := CommitWrote(l, session, o) && Load(l.credentials, key) != Some(l.credentials.staged[session]);
    if key in l.credentials.saved then
      !Ran(l, o) || (o.restage.Works? && o.recommit.Writes()) || (o.delete.NoEffect? && !wrote)
    else o.delete.TakesEffect() || !wrote
  }

  /** Whether the session's staged entry is gone in the end. */
  predicate NothingStaged(l: Logins, session: u64, key: ProfileKey, o: Outcomes) {
    || o.discard.TakesEffect()
    || (var left := session in l.credentials.staged && !(Ran(l, o) && o.commit.Unstages());
        if Ran(l, o) && key in l.credentials.saved && o.restage.TakesEffect()
        then o.restage.Works? && o.recommit.Unstages()
        else !left)
  }

  lemma SavedAfterCompensation(c: Credentials, now: Credentials, session: u64, key: ProfileKey, o: Outcomes)
    requires now.saved == c.saved || (session in c.staged && now.saved == c.saved[key := c.staged[session]])
    ensures var wrote := now.saved != c.saved;
            Compensated(now, session, key, Load(c, key), o).saved == c.saved <==>
              if key in c.saved then (o.restage.Works? && o.recommit.Writes()) || (o.delete.NoEffect? && !wrote)
              else o.delete.TakesEffect() || !wrote
  {
    var cleared := Deleted(now, key, o.delete);
    if key in c.saved {
      var staged := Staged(cleared, session, c.saved[key], o.restage);
      assert cleared.saved[key := c.saved[key]] == c.saved;
      if o.delete.TakesEffect() {
        assert key !in cleared.saved;
      }
    } else {
      assert c.saved[key := ""] - {key} == c.saved - {key} == c.saved;
    }
  }

  lemma StagedAfterCompensation(now: Credentials, session: u64, key: ProfileKey, previous: Option<string>, o: Outcomes)
    ensures var after := Compensated(now, session, key, previous, o).staged;
            && after - {session} == now.staged - {session}
            && (session !in after <==>
                  || o.discard.TakesEffect()
                  || (if previous.Some? && o.restage.TakesEffect() then o.restage.Works? && o.recommit.Unstages()
                      else session !in now.staged))
  {
  }

  /**
   A remember that reports failure has left the saved credentials as they were exactly when the
   compensating calls undid what was written.
   */
  lemma FailedRememberSaved(l: Logins, session: u64, profile: SavedProfile, o: Outcomes)
    requires FinishRemember(l, session, profile, o).warning == Some(SaveFailed)
    ensures FinishRemember(l, session, profile, o).logins.credentials.saved == l.credentials.saved
            <==> SavedIsUndone(l, session, profile.key, o)
  {
    hide Compensated, MaxOrder;
    if Ran(l, o) {
      var c, now := l.credentials, Committed(l.credentials, session, profile.key, o.commit);
      SavedAfterCompensation(c, now, session, profile.key, o);
      if CommitWrote(l, session, o) {
        assert now.saved == c.saved <==> Load(c, profile.key) == Some(c.staged[session]);
      }
    }
  }

  /** It has left nothing staged for its session, and other sessions' entries alone, exactly when a call removed it. */
  lemma FailedRememberStaged(l: Logins, session: u64, profile: SavedProfile, o: Outcomes)
    requires FinishRemember(l, session, profile, o).warning == Some(SaveFailed)
    ensures var after := FinishRemember(l, session, profile, o).logins.credentials.staged;
            && (session !in after <==> NothingStaged(l, session, profile.key, o))
            && after - {session} == l.credentials.staged - {session}
  {
    hide Compensated, MaxOrder;
    if Ran(l, o) {
      var c, now := l.credentials, Committed(l.credentials, session, profile.key, o.commit);
      StagedAfterCompensation(now, session, profile.key, Load(c, profile.key), o);
      assert now.staged - {session} == c.staged - {session};
    }
  }

  /** It has left the profiles as they were exactly when the upsert did not take effect behind its failure report. */
  lemma FailedRememberProfiles(l: Logins, session: u64, profile: SavedProfile, o: Outcomes)
    requires FinishRemember(l, session, profile, o).warning == Some(SaveFailed)
    ensures FinishRemember(l, session, profile, o).logins.profiles == l.profiles <==>
              !(Ran(l, o) && CommitReported(l.credentials, session, o.commit) && o.upsert.EffectUnreported?)
  {
    hide Compensated, Committed;
    if Ran(l, o) && CommitReported(l.credentials, session, o.commit) {
      var ordered := profile.(lastSuccessOrder := MaxOrder(l.profiles) + 1);
      assert ordered in Others(l.profiles, profile.key) + [ordered];
      if ordered in l.profiles {
        MaxOrderIsMax(l.profiles, ordered);
      }
    }
  }

  /**
   With compensating calls that work, and an upsert that fails without effect, a failed remember restores
   both stores however the commit failed.
   */
  lemma RememberIsAtomic(l: Logins, session: u64, profile: SavedProfile, o: Outcomes)
    requires o.delete.TakesEffect() && o.restage.Works? && o.recommit.Writes() && o.discard.TakesEffect()
    requires !o.upsert.EffectUnreported?
    ensures var r := FinishRemember(l, session, profile, o);
            && session !in r.logins.credentials.staged
            && (r.warning.Some? ==>
                  r.logins.credentials.saved == l.credentials.saved && r.logins.profiles == l.profiles)
  {
    hide Compensated, MaxOrder;
    if FinishRemember(l, session, profile, o).warning.Some? {
      FailedRememberSaved(l, session, profile, o);
      FailedRememberStaged(l, session, profile, o);
      FailedRememberProfiles(l, session, profile, o);
    }
  }

  /**
   Forgetting: the credential goes first, so a profile is never removed while its credential stays. Which of
   the two is gone in the end is decided by the outcomes of the calls, and nothing of another key changes.
   */
  lemma ForgetIsOrdered(l: Logins, key: ProfileKey, o: Outcomes)
    ensures var r := FinishForget(l, key, o);
            && r.logins.credentials.staged == l.credentials.staged
            && OthersStay(l, r.logins, {key})
            && (r.logins.profiles != l.profiles ==> key !in r.logins.credentials.saved)
            && (r.warning == None <==> o.forget.Works? && o.forgetProfile.Works?)
            && (r.warning == Some(CredentialDeleteFailed) <==> !o.forget.Works?)
            && (key !in r.logins.credentials.saved <==> key !in l.credentials.saved || o.forget.TakesEffect())
            && (o.forget.NoEffect? ==> r.logins.credentials.saved == l.credentials.saved)
            && (!Saves(r.logins.profiles, key) <==>
                  !Saves(l.profiles, key) || (o.forget.Works? && o.forgetProfile.TakesEffect()))
            && (Saves(r.logins.profiles, key) ==> r.logins.profiles == l.profiles)
  {
    OthersHaveOtherKeys(l.profiles, key);
    OthersKeepOrder(l.profiles, key, {key});
    if !Saves(l.profiles, key) {
      NoneToRemove(l.profiles, key);
    }
  }
}
