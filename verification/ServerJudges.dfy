/**
 The server adapter's judges of CORE-001, CORE-002 and CORE-004, drawn from its own trace of a
 connection.
 */
module ServerJudges {
  import opened Wire
  import opened RecorderSpec

  datatype HandshakeStep = HandshakeStep(inbound: bool, binary: bool, kind: MessageType)

  const STEPS: seq<HandshakeStep> := [
    HandshakeStep(true, false, ClientInit), HandshakeStep(false, false, ServerInit),
    HandshakeStep(false, false, NoiseHandshake), HandshakeStep(true, false, NoiseHandshake),
    HandshakeStep(false, true, ServerHello), HandshakeStep(true, true, ClientHello),
    HandshakeStep(false, true, ServerActivate)]

  const FIRST_ROLE_MESSAGE_ID: byte := 4

  predicate IsHandshake(kind: MessageType) {
    kind in {ClientInit, ServerInit, NoiseHandshake, ServerHello, ClientHello, ClientGoodbye}
  }

  /** A judge's outcome, with the event that decided a failure. */
  datatype Outcome =
    | Passed
    | EndedEarly(after: nat)
    | WrongStep(at: nat)
    | NeverActivated
    | TooEarly(at: nat)
    | NoClientState
    | NotExercised
    | DataBeforeState

  function Matches(step: HandshakeStep, event: WireEvent): bool {
    event.inbound == step.inbound && event.binary == step.binary && event.kind == step.kind
  }

  // ---- CORE-001 ----

  function HandshakeFrom(events: seq<WireEvent>, i: nat): Outcome
    requires i <= 7
    decreases 7 - i
  {
    if i == 7 then Passed
    else if i >= |events| then EndedEarly(i)
    else if !Matches(STEPS[i], events[i]) then WrongStep(i)
    else HandshakeFrom(events, i + 1)
  }

  function Handshake(events: seq<WireEvent>): Outcome {
    HandshakeFrom(events, 0)
  }

  method JudgeHandshake(events: seq<WireEvent>) returns (r: Outcome)
    ensures r == Handshake(events)
  {
    for i := 0 to 7
      invariant Handshake(events) == HandshakeFrom(events, i)
    {
      if i >= |events| {
        return EndedEarly(i);
      }
      if !Matches(STEPS[i], events[i]) {
        return WrongStep(i);
      }
    }
    return Passed;
  }

  predicate StepHolds(events: seq<WireEvent>, k: nat)
    requires k < 7
  {
    k < |events| && Matches(STEPS[k], events[k])
  }

  /** The handshake passes exactly when the seven messages are there, in order and framed right. */
  lemma {:induction false} HandshakeMeaning(events: seq<WireEvent>, i: nat)
    requires i <= 7
    ensures HandshakeFrom(events, i) == Passed <==>
            forall k :: i <= k < 7 ==> StepHolds(events, k)
    decreases 7 - i
  {
    hide StepHolds;
    if i < 7 {
      HandshakeMeaning(events, i + 1);
      StepIs(events, i);
    }
  }

  lemma StepIs(events: seq<WireEvent>, k: nat)
    requires k < 7
    ensures StepHolds(events, k) <==> k < |events| && Matches(STEPS[k], events[k])
  {
  }

  /** An event of a direction, a frame type and a message type. */
  predicate Shows(event: WireEvent, inbound: bool, binary: bool, kind: MessageType) {
    event.inbound == inbound && event.binary == binary && event.kind == kind
  }

  /** CORE-001 in full: the seven messages, by name. */
  lemma HandshakeIs(events: seq<WireEvent>)
    ensures Handshake(events) == Passed <==>
            && |events| >= 7
            && Shows(events[0], true, false, ClientInit) && Shows(events[1], false, false, ServerInit)
            && Shows(events[2], false, false, NoiseHandshake) && Shows(events[3], true, false, NoiseHandshake)
            && Shows(events[4], false, true, ServerHello) && Shows(events[5], true, true, ClientHello)
            && Shows(events[6], false, true, ServerActivate)
  {
    HandshakeMeaning(events, 0);
    hide HandshakeFrom;
    assert StepHolds(events, 0) && StepHolds(events, 1) && StepHolds(events, 2) && StepHolds(events, 3) &&
           StepHolds(events, 4) && StepHolds(events, 5) && StepHolds(events, 6) <==>
           forall k :: 0 <= k < 7 ==> StepHolds(events, k);
  }

  // ---- CORE-002 ----

  predicate Is(event: WireEvent, inbound: bool, kind: MessageType) {
    event.inbound == inbound && event.kind == kind
  }

  function FirstEvent(events: seq<WireEvent>, from: nat, inbound: bool, kind: MessageType): (at: Option<nat>)
    ensures at.Some? ==> from <= at.value < |events| && Is(events[at.value], inbound, kind)
    ensures forall k :: from <= k < |events| && (at.Some? ==> k < at.value) ==> !Is(events[k], inbound, kind)
    decreases if from < |events| then |events| - from else 0
  {
    if from >= |events| then None
    else if Is(events[from], inbound, kind) then Some(from)
    else FirstEvent(events, from + 1, inbound, kind)
  }

  method FindEvent(events: seq<WireEvent>, from: nat, inbound: bool, kind: MessageType) returns (at: Option<nat>)
    ensures at == FirstEvent(events, from, inbound, kind)
  {
    var i := from;
    while i < |events|
      invariant FirstEvent(events, from, inbound, kind) == FirstEvent(events, i, inbound, kind)
    {
      if events[i].inbound == inbound && events[i].kind == kind {
        return Some(i);
      }
      i := i + 1;
    }
    return None;
  }

  /** The first event from `i` on and before `n` that is no handshake message. */
  function FirstForeign(events: seq<WireEvent>, i: nat, n: nat): (at: Option<nat>)
    requires i <= n <= |events|
    ensures at.Some? ==> i <= at.value < n && !IsHandshake(events[at.value].kind)
    ensures forall k :: i <= k < n && (at.Some? ==> k < at.value) ==> IsHandshake(events[k].kind)
    decreases n - i
  {
    if i == n then None
    else if !IsHandshake(events[i].kind) then Some(i)
    else FirstForeign(events, i + 1, n)
  }

  function NothingBefore(events: seq<WireEvent>): Outcome {
    match FirstEvent(events, 0, false, ServerActivate)
    case None => NeverActivated
    case Some(a) =>
      match FirstForeign(events, 0, a)
      case Some(k) => TooEarly(k)
      case None => Passed
  }

  method JudgeNothingBeforeActivation(events: seq<WireEvent>) returns (r: Outcome)
    ensures r == NothingBefore(events)
  {
    var activation := FindEvent(events, 0, false, ServerActivate);
    if activation.None? {
      return NeverActivated;
    }
    for i := 0 to activation.value
      invariant FirstForeign(events, 0, activation.value) == FirstForeign(events, i, activation.value)
    {
      if !IsHandshake(events[i].kind) {
        return TooEarly(i);
      }
    }
    return Passed;
  }

  // ---- CORE-004 ----

  predicate RoleData(event: WireEvent) {
    !event.inbound && event.messageId >= FIRST_ROLE_MESSAGE_ID
  }

  function FirstRoleData(events: seq<WireEvent>, from: nat): (at: Option<nat>)
    ensures at.Some? ==> from <= at.value < |events| && RoleData(events[at.value])
    ensures forall k :: from <= k < |events| && (at.Some? ==> k < at.value) ==> !RoleData(events[k])
    decreases if from < |events| then |events| - from else 0
  {
    if from >= |events| then None
    else if RoleData(events[from]) then Some(from)
    else FirstRoleData(events, from + 1)
  }

  function InitialState(events: seq<WireEvent>): Outcome {
    match FirstEvent(events, 0, false, ServerActivate)
    case None => NeverActivated
    case Some(a) =>
      var state := FirstEvent(events, a, true, ClientState);
      var binary := FirstRoleData(events, a);
      if state.None? then NoClientState
      else if binary.None? then NotExercised
      else if binary.value < state.value then DataBeforeState
      else Passed
  }

  method JudgeInitialClientState(events: seq<WireEvent>) returns (r: Outcome)
    ensures r == InitialState(events)
  {
    var activation := FindEvent(events, 0, false, ServerActivate);
    if activation.None? {
      return NeverActivated;
    }
    var state := FindEvent(events, activation.value, true, ClientState);
    var binary: Option<nat> := None;
    var i := activation.value;
    while i < |events|
      invariant binary.None?
      invariant FirstRoleData(events, activation.value) == FirstRoleData(events, i)
    {
      if !events[i].inbound && events[i].messageId >= FIRST_ROLE_MESSAGE_ID {
        binary := Some(i);
        break;
      }
      i := i + 1;
    }
    if state.None? {
      return NoClientState;
    } else if binary.None? {
      return NotExercised;
    } else if binary.value < state.value {
      return DataBeforeState;
    }
    return Passed;
  }

  /** The first server/activate the server sent. */
  ghost predicate Activation(events: seq<WireEvent>, a: nat) {
    && a < |events| && !events[a].inbound && events[a].kind == ServerActivate
    && forall k :: 0 <= k < a ==> !(!events[k].inbound && events[k].kind == ServerActivate)
  }

  predicate MayPrecede(kind: MessageType) {
    kind == ClientInit || kind == ServerInit || kind == NoiseHandshake || kind == ServerHello ||
    kind == ClientHello || kind == ClientGoodbye
  }

  /** CORE-002 in full: only those six messages stand before the activation. */
  lemma NothingBeforeIs(events: seq<WireEvent>)
    ensures NothingBefore(events) == Passed <==>
            exists a: nat :: Activation(events, a) && forall k :: 0 <= k < a ==> MayPrecede(events[k].kind)
  {
    var first := FirstEvent(events, 0, false, ServerActivate);
    if first.Some? {
      assert Activation(events, first.value);
      forall a: nat | Activation(events, a) ensures a == first.value {
        assert !(a < first.value) && !(first.value < a);
      }
      assert forall k :: 0 <= k < |events| ==> (IsHandshake(events[k].kind) <==> MayPrecede(events[k].kind));
    }
    hide FirstEvent, FirstForeign, IsHandshake, MayPrecede;
  }

  /** Role binary data the server sent: a message of type 4 or above. */
  predicate SentData(event: WireEvent) {
    !event.inbound && event.messageId >= 4
  }

  predicate State(event: WireEvent) {
    event.inbound && event.kind == ClientState
  }

  /** CORE-004 in full: role data was sent after the activation, and a client/state came before it. */
  lemma InitialStateIs(events: seq<WireEvent>)
    ensures InitialState(events) == Passed <==>
            exists a: nat, s: nat, d: nat ::
              && Activation(events, a) && a <= s <= d < |events| && State(events[s]) && SentData(events[d])
              && forall k :: a <= k < d ==> !SentData(events[k])
  {
    var first := FirstEvent(events, 0, false, ServerActivate);
    if first.Some? {
      assert Activation(events, first.value);
      forall a: nat | Activation(events, a) ensures a == first.value {
        assert !(a < first.value) && !(first.value < a);
      }
      OrderIs(events, first.value);
    }
    hide FirstEvent, FirstRoleData, Activation, State, SentData;
  }

  lemma OrderIs(events: seq<WireEvent>, a: nat)
    ensures var state, data := FirstEvent(events, a, true, ClientState), FirstRoleData(events, a);
            state.Some? && data.Some? && state.value <= data.value <==>
            exists s: nat, d: nat ::
              && a <= s <= d < |events| && State(events[s]) && SentData(events[d])
              && forall k :: a <= k < d ==> !SentData(events[k])
  {
    var state, data := FirstEvent(events, a, true, ClientState), FirstRoleData(events, a);
    hide FirstEvent, FirstRoleData;
    if state.Some? && data.Some? && state.value <= data.value {
      assert State(events[state.value]) && SentData(events[data.value]);
    }
  }

  /** A clean handshake leaves nothing before the activation for CORE-002 to report. */
  lemma HandshakeImpliesNothingBefore(events: seq<WireEvent>)
    requires Handshake(events) == Passed
    ensures NothingBefore(events) == Passed
  {
    HandshakeMeaning(events, 0);
    assert StepHolds(events, 6) && Is(events[6], false, ServerActivate);
    var a := FirstEvent(events, 0, false, ServerActivate).value;
    assert a <= 6;
    forall k | 0 <= k < a ensures IsHandshake(events[k].kind) {
      assert StepHolds(events, k);
      StepsAreHandshake(k);
    }
  }

  lemma StepsAreHandshake(k: nat)
    requires k < 6
    ensures IsHandshake(STEPS[k].kind)
  {
  }
}
