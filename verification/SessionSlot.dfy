/**
 The one slot a session can occupy (crates/frd-app/src/controller.rs) and the tokens that release it
 (crates/frd-session/src/coordinator.rs). A reservation's identity is opaque: only its equality matters.
 */
module SessionSlot {
  import opened Bytes
  import opened Results

  datatype Identity = Identity(session: u64, serial: nat)

  datatype SlotPhase = Connecting | Active | Disconnecting | CleanupPending

  datatype SlotState = SlotState(session: u64, owner: Identity, phase: SlotPhase)

  type Slot = Option<SlotState>

  datatype DisconnectTransition = Started | AlreadyInProgress

  predicate IsConnecting(slot: Slot, session: u64) {
    slot.Some? && slot.value.session == session && slot.value.phase.Connecting?
  }

  predicate IsLive(slot: Slot, session: u64) {
    slot.Some? && slot.value.session == session && (slot.value.phase.Connecting? || slot.value.phase.Active?)
  }

  predicate IsClosing(slot: Slot, session: u64) {
    slot.Some? && slot.value.session == session && (slot.value.phase.Disconnecting? || slot.value.phase.CleanupPending?)
  }

  /** A one-shot capability to give a reservation back after its launch was rolled back. */
  class SessionStartAbort {
    const identity: Identity
    var consumed: bool

    constructor (identity: Identity)
      ensures this.identity == identity && !consumed
    {
      this.identity := identity;
      consumed := false;
    }

    method ConsumeFor(owner: Identity) returns (ok: bool)
      modifies this
      ensures ok == (old(!consumed) && identity == owner)
      ensures consumed == (old(consumed) || ok)
    {
      ok := identity == owner && !consumed;
      consumed := consumed || ok;
    }
  }

  class ActiveSessionSlot {
    var state: Slot

    constructor ()
      ensures state == None
    {
      state := None;
    }

    method BeginConnect(session: u64, owner: Identity) returns (ok: bool)
      modifies this
      ensures ok == (old(state) == None)
      ensures state == if ok then Some(SlotState(session, owner, Connecting)) else old(state)
    {
      if state.Some? {
        return false;
      }
      state := Some(SlotState(session, owner, Connecting));
      return true;
    }

    method MarkActive(session: u64) returns (ok: bool)
      modifies this
      ensures ok == IsConnecting(old(state), session)
      ensures state == if ok then Some(old(state).value.(phase := Active)) else old(state)
    {
      if state.None? || state.value.session != session || state.value.phase != Connecting {
        return false;
      }
      state := Some(state.value.(phase := Active));
      return true;
    }

    /** Only the abort of this very reservation, still connecting, frees the slot, and it can do so once. */
    method AbortConnect(abort: SessionStartAbort) returns (ok: bool)
      modifies this, abort
      ensures ok == (IsConnecting(old(state), abort.identity.session)
                     && old(state).value.owner == abort.identity && !old(abort.consumed))
      ensures state == if ok then None else old(state)
      ensures abort.consumed == (old(abort.consumed) || ok)
    {
      if state.None? || state.value.session != abort.identity.session || state.value.phase != Connecting {
        return false;
      }
      ok := abort.ConsumeFor(state.value.owner);
      if ok {
        state := None;
      }
    }

    method BeginDisconnect(session: u64) returns (transition: Option<DisconnectTransition>)
      modifies this
      ensures transition == if IsLive(old(state), session) then Some(Started)
                            else if IsClosing(old(state), session) then Some(AlreadyInProgress)
                            else None
      ensures state == if transition == Some(Started)
                       then Some(old(state).value.(phase := Disconnecting)) else old(state)
    {
      if state.None? || state.value.session != session {
        return None;
      }
      match state.value.phase {
        case Connecting =>
          state := Some(state.value.(phase := Disconnecting));
          return Some(Started);
        case Active =>
          state := Some(state.value.(phase := Disconnecting));
          return Some(Started);
        case _ =>
          return Some(AlreadyInProgress);
      }
    }

    method BeginTerminal(session: u64) returns (ok: bool)
      modifies this
      ensures ok == (old(state).Some? && old(state).value.session == session)
      ensures state == if ok then Some(old(state).value.(phase := CleanupPending)) else old(state)
    {
      if state.None? || state.value.session != session {
        return false;
      }
      if state.value.phase != CleanupPending {
        state := Some(state.value.(phase := CleanupPending));
      }
      return true;
    }

    /** Only the completion issued for this very reservation frees a closing slot. */
    method FinishCleanup(identity: Identity) returns (ok: bool)
      modifies this
      ensures ok == (IsClosing(old(state), identity.session) && old(state).value.owner == identity)
      ensures state == if ok then None else old(state)
    {
      if || state.None?
         || state.value.session != identity.session
         || !(state.value.phase == Disconnecting || state.value.phase == CleanupPending)
         || state.value.owner != identity
      {
        return false;
      }
      state := None;
      return true;
    }
  }
}
