/**
 The client adapter's judges of CORE-001, CORE-002 and CORE-004, drawn from the library's trace of
 its own end. They are a second copy, with a table and directions of their own, and are stated
 here without the server's definitions: each judge against what its outcome says of the trace.
 */
module ClientJudges {
  import opened Wire
  import opened ClientAudio
  import opened ServerJudges

  const CLIENT_STEPS: seq<HandshakeStep> := [
    HandshakeStep(false, false, ClientInit), HandshakeStep(true, false, ServerInit),
    HandshakeStep(true, false, NoiseHandshake), HandshakeStep(false, false, NoiseHandshake),
    HandshakeStep(true, true, ServerHello), HandshakeStep(false, true, ClientHello),
    HandshakeStep(true, true, ServerActivate)]

  const CLIENT_HANDSHAKE: set<MessageType> :=
    {ClientInit, ServerInit, NoiseHandshake, ServerHello, ClientHello, ClientGoodbye}

  const FIRST_CLIENT_ROLE_ID: byte := 4

  // ---- CORE-001 ----

  /** Message `k` is the one step `k` of the handshake asks for. */
  predicate StepSeen(events: seq<ClientEvent>, k: nat)
    requires k < 7
  {
    && k < |events|
    && events[k].inbound == CLIENT_STEPS[k].inbound
    && events[k].binary == CLIENT_STEPS[k].binary
    && events[k].kind == CLIENT_STEPS[k].kind
  }

  predicate SeenBefore(events: seq<ClientEvent>, n: nat)
    requires n <= 7
  {
    forall k :: 0 <= k < n ==> StepSeen(events, k)
  }

  predicate HandshakeSays(events: seq<ClientEvent>, r: Outcome) {
    match r
    case Passed => SeenBefore(events, 7)
    case EndedEarly(i) => i < 7 && i == |events| && SeenBefore(events, i)
    case WrongStep(i) => i < 7 && i < |events| && SeenBefore(events, i) && !StepSeen(events, i)
    case _ => false
  }

  method JudgeClientHandshake(events: seq<ClientEvent>) returns (r: Outcome)
    ensures HandshakeSays(events, r)
  {
    for i := 0 to 7
      invariant i <= |events| && SeenBefore(events, i)
    {
      if i >= |events| {
        return EndedEarly(i);
      }
      var step, event := CLIENT_STEPS[i], events[i];
      if event.inbound != step.inbound || event.binary != step.binary || event.kind != step.kind {
        return WrongStep(i);
      }
      assert StepSeen(events, i);
    }
    return Passed;
  }

  // ---- CORE-002 ----

  predicate Sees(event: ClientEvent, inbound: bool, kind: MessageType) {
    event.inbound == inbound && event.kind == kind
  }

  /** `at` is the first message of a kind and direction from index `from` on, or there is none. */
  predicate FirstSeen(events: seq<ClientEvent>, from: nat, inbound: bool, kind: MessageType, at: Option<nat>) {
    && (at.Some? ==> from <= at.value < |events| && Sees(events[at.value], inbound, kind))
    && (forall k :: from <= k < |events| && (at.Some? ==> k < at.value) ==> !Sees(events[k], inbound, kind))
  }

  method FirstEventSeen(events: seq<ClientEvent>, from: nat, inbound: bool, kind: MessageType)
    returns (at: Option<nat>)
    ensures FirstSeen(events, from, inbound, kind, at)
  {
    var i := from;
    while i < |events|
      invariant forall k :: from <= k < i && k < |events| ==> !Sees(events[k], inbound, kind)
    {
      if events[i].inbound == inbound && events[i].kind == kind {
        return Some(i);
      }
      i := i + 1;
    }
    return None;
  }

  predicate OnlyHandshake(events: seq<ClientEvent>, n: nat)
    requires n <= |events|
  {
    forall k :: 0 <= k < n ==> events[k].kind in CLIENT_HANDSHAKE
  }

  predicate NothingBeforeSays(events: seq<ClientEvent>, r: Outcome) {
    match r
    case NeverActivated => FirstSeen(events, 0, true, ServerActivate, None)
    case TooEarly(i) =>
      exists a :: i < a < |events| && FirstSeen(events, 0, true, ServerActivate, Some(a)) &&
                  OnlyHandshake(events, i) && events[i].kind !in CLIENT_HANDSHAKE
    case Passed =>
      exists a :: 0 <= a < |events| && FirstSeen(events, 0, true, ServerActivate, Some(a)) && OnlyHandshake(events, a)
    case _ => false
  }

  method JudgeNothingBeforeClient(events: seq<ClientEvent>) returns (r: Outcome)
    ensures NothingBeforeSays(events, r)
  {
    var activation := FirstEventSeen(events, 0, true, ServerActivate);
    if activation.None? {
      return NeverActivated;
    }
    for i := 0 to activation.value
      invariant OnlyHandshake(events, i)
    {
      if events[i].kind !in CLIENT_HANDSHAKE {
        assert FirstSeen(events, 0, true, ServerActivate, Some(activation.value));
        return TooEarly(i);
      }
    }
    assert FirstSeen(events, 0, true, ServerActivate, Some(activation.value));
    return Passed;
  }

  // ---- CORE-004 ----

  predicate RoleDataSeen(event: ClientEvent) {
    event.inbound && event.messageId >= FIRST_CLIENT_ROLE_ID
  }

  predicate FirstRoleDataSeen(events: seq<ClientEvent>, from: nat, at: Option<nat>) {
    && (at.Some? ==> from <= at.value < |events| && RoleDataSeen(events[at.value]))
    && (forall k :: from <= k < |events| && (at.Some? ==> k < at.value) ==> !RoleDataSeen(events[k]))
  }

  /** What an outcome says of the first client/state and the first role data after the activation. */
  predicate OrderSays(state: Option<nat>, binary: Option<nat>, r: Outcome) {
    match r
    case NoClientState => state.None?
    case NotExercised => state.Some? && binary.None?
    case DataBeforeState => state.Some? && binary.Some? && binary.value < state.value
    case Passed => state.Some? && binary.Some? && state.value <= binary.value
    case _ => false
  }

  ghost predicate InitialStateSays(events: seq<ClientEvent>, r: Outcome) {
    if r == NeverActivated then FirstSeen(events, 0, true, ServerActivate, None)
    else
      exists a: nat, state, binary ::
        && FirstSeen(events, 0, true, ServerActivate, Some(a))
        && FirstSeen(events, a, false, ClientState, state)
        && FirstRoleDataSeen(events, a, binary)
        && OrderSays(state, binary, r)
  }

  method JudgeInitialStateOfClient(events: seq<ClientEvent>) returns (r: Outcome)
    ensures InitialStateSays(events, r)
  {
    var activation := FirstEventSeen(events, 0, true, ServerActivate);
    if activation.None? {
      return NeverActivated;
    }
    var a := activation.value;
    var state := FirstEventSeen(events, a, false, ClientState);
    var binary: Option<nat> := None;
    var i := a;
    while i < |events|
      invariant a <= i <= |events| && binary.None?
      invariant forall k :: a <= k < i ==> !RoleDataSeen(events[k])
    {
      if events[i].inbound && events[i].messageId >= FIRST_CLIENT_ROLE_ID {
        binary := Some(i);
        break;
      }
      i := i + 1;
    }
    if state.None? {
      r := NoClientState;
    } else if binary.None? {
      r := NotExercised;
    } else if binary.value < state.value {
      r := DataBeforeState;
    } else {
      r := Passed;
    }
    assert FirstSeen(events, 0, true, ServerActivate, Some(a)) && FirstRoleDataSeen(events, a, binary) &&
           OrderSays(state, binary, r);
  }
}
