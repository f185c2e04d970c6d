/**
 The two ends of one connection. The server adapter and the client adapter each carry judges of
 CORE-001, CORE-002 and CORE-004 over their own trace; `Mirrored` says they are mirror images.
 */
module TraceJudges {
  import opened Wire
  import opened RecorderSpec
  import opened ClientAudio
  import opened ServerJudges
  import opened ClientJudges

  /** One message as both ends trace it: the same but for the direction. */
  predicate SameMessage(server: WireEvent, client: ClientEvent) {
    && client.inbound == !server.inbound && client.binary == server.binary
    && client.messageId == server.messageId && client.kind == server.kind
  }

  /** Both ends traced the same messages in the same order. */
  predicate BothEnds(server: seq<WireEvent>, client: seq<ClientEvent>) {
    |server| == |client| && forall k :: 0 <= k < |server| ==> SameMessage(server[k], client[k])
  }

  lemma StepsMirrored(server: seq<WireEvent>, client: seq<ClientEvent>, k: nat)
    requires BothEnds(server, client) && k < 7
    ensures StepSeen(client, k) <==> StepHolds(server, k)
  {
    assert CLIENT_STEPS[k] == STEPS[k].(inbound := !STEPS[k].inbound);
  }

  lemma {:induction false} HandshakeMirrored(server: seq<WireEvent>, client: seq<ClientEvent>, i: nat, r: Outcome)
    requires BothEnds(server, client) && i <= 7 && SeenBefore(client, i)
    ensures HandshakeSays(client, r) <==> r == HandshakeFrom(server, i)
    decreases 7 - i
  {
    hide StepSeen, StepHolds, BothEnds;
    if i == 7 {
      AllSeen(client, r);
    } else {
      StepsMirrored(server, client, i);
      StepIs(server, i);
      SameLength(server, client);
      if StepHolds(server, i) {
        HandshakeMirrored(server, client, i + 1, r);
      } else {
        FirstMissing(client, i, r);
      }
    }
  }

  lemma SameLength(server: seq<WireEvent>, client: seq<ClientEvent>)
    requires BothEnds(server, client)
    ensures |server| == |client|
  {
  }

  lemma AllSeen(client: seq<ClientEvent>, r: Outcome)
    requires SeenBefore(client, 7)
    ensures HandshakeSays(client, r) <==> r == Passed
  {
    assert StepSeen(client, 6);
  }

  /** Once a step is missing, only one outcome fits. */
  lemma FirstMissing(client: seq<ClientEvent>, i: nat, r: Outcome)
    requires i < 7 && SeenBefore(client, i) && !StepSeen(client, i)
    ensures HandshakeSays(client, r) <==> r == if i >= |client| then EndedEarly(i) else WrongStep(i)
  {
    assert i > 0 ==> StepSeen(client, i - 1);
    assert forall n :: i < n <= 7 ==> !SeenBefore(client, n);
  }

  /** The first message of a kind is one message. */
  lemma SeenOnce(
    client: seq<ClientEvent>, from: nat, inbound: bool, kind: MessageType, a: Option<nat>, b: Option<nat>)
    requires FirstSeen(client, from, inbound, kind, a) && FirstSeen(client, from, inbound, kind, b)
    ensures a == b
  {
    hide Sees;
    if a.Some? && b.Some? {
      assert !(a.value < b.value) && !(b.value < a.value);
    }
  }

  /** It stands at the same index at both ends. */
  lemma FirstMirrored(
    server: seq<WireEvent>, client: seq<ClientEvent>, from: nat, inbound: bool, kind: MessageType, at: Option<nat>)
    requires BothEnds(server, client)
    ensures FirstSeen(client, from, !inbound, kind, at) <==> at == FirstEvent(server, from, inbound, kind)
  {
    var first := FirstEvent(server, from, inbound, kind);
    FirstIsSeen(server, client, from, inbound, kind);
    if FirstSeen(client, from, !inbound, kind, at) {
      SeenOnce(client, from, !inbound, kind, at, first);
    }
  }

  lemma FirstIsSeen(server: seq<WireEvent>, client: seq<ClientEvent>, from: nat, inbound: bool, kind: MessageType)
    requires BothEnds(server, client)
    ensures FirstSeen(client, from, !inbound, kind, FirstEvent(server, from, inbound, kind))
  {
    var first := FirstEvent(server, from, inbound, kind);
    hide FirstEvent;
    assert forall k :: 0 <= k < |server| ==> SameMessage(server[k], client[k]);
    forall k | from <= k < |client| && (first.Some? ==> k < first.value) ensures !Sees(client[k], !inbound, kind) {
      assert !Is(server[k], inbound, kind);
    }
  }

  lemma RoleDataMirrored(server: seq<WireEvent>, client: seq<ClientEvent>, from: nat, at: Option<nat>)
    requires BothEnds(server, client)
    ensures FirstRoleDataSeen(client, from, at) <==> at == FirstRoleData(server, from)
  {
    var first := FirstRoleData(server, from);
    RoleDataIsSeen(server, client, from);
    hide RoleDataSeen, BothEnds, FirstRoleData;
    if FirstRoleDataSeen(client, from, at) && at.Some? && first.Some? {
      assert !(at.value < first.value) && !(first.value < at.value);
    }
  }

  lemma RoleDataIsSeen(server: seq<WireEvent>, client: seq<ClientEvent>, from: nat)
    requires BothEnds(server, client)
    ensures FirstRoleDataSeen(client, from, FirstRoleData(server, from))
  {
    var first := FirstRoleData(server, from);
    hide FirstRoleData;
    assert forall k :: 0 <= k < |server| ==> SameMessage(server[k], client[k]);
    forall k | from <= k < |client| && (first.Some? ==> k < first.value) ensures !RoleDataSeen(client[k]) {
      assert !RoleData(server[k]);
    }
  }

  lemma NothingBeforeMirrored(server: seq<WireEvent>, client: seq<ClientEvent>, r: Outcome)
    requires BothEnds(server, client)
    ensures NothingBeforeSays(client, r) <==> r == NothingBefore(server)
  {
    forall at ensures FirstSeen(client, 0, true, ServerActivate, at) <==> at == FirstEvent(server, 0, false, ServerActivate) {
      FirstMirrored(server, client, 0, false, ServerActivate, at);
    }
    assert forall k :: 0 <= k < |server| ==> (client[k].kind in CLIENT_HANDSHAKE <==> IsHandshake(server[k].kind)) by {
      assert forall k :: 0 <= k < |server| ==> SameMessage(server[k], client[k]);
    }
    hide FirstSeen, IsHandshake, BothEnds, CLIENT_HANDSHAKE;
  }

  lemma InitialStateMirrored(server: seq<WireEvent>, client: seq<ClientEvent>, r: Outcome)
    requires BothEnds(server, client)
    ensures InitialStateSays(client, r) <==> r == InitialState(server)
  {
    var a := FirstEvent(server, 0, false, ServerActivate);
    forall at ensures FirstSeen(client, 0, true, ServerActivate, at) <==> at == a {
      FirstMirrored(server, client, 0, false, ServerActivate, at);
    }
    if a.Some? {
      forall at ensures FirstSeen(client, a.value, false, ClientState, at) <==> at == FirstEvent(server, a.value, true, ClientState) {
        FirstMirrored(server, client, a.value, true, ClientState, at);
      }
      forall at ensures FirstRoleDataSeen(client, a.value, at) <==> at == FirstRoleData(server, a.value) {
        RoleDataMirrored(server, client, a.value, at);
      }
      hide FirstSeen, FirstRoleDataSeen, BothEnds, FirstEvent, FirstRoleData;
      var state, binary := FirstEvent(server, a.value, true, ClientState), FirstRoleData(server, a.value);
      assert FirstSeen(client, 0, true, ServerActivate, Some(a.value)) && FirstSeen(client, a.value, false, ClientState, state)
        && FirstRoleDataSeen(client, a.value, binary);
    }
  }

  /**
   The client's judges are the server's, looking from the other end: on a connection both ends
   traced, an outcome meets the client's judge exactly when it is the one the server's reaches,
   down to the event that decided a failure.
   */
  lemma Mirrored(server: seq<WireEvent>, client: seq<ClientEvent>, r: Outcome)
    requires BothEnds(server, client)
    ensures HandshakeSays(client, r) <==> r == Handshake(server)
    ensures NothingBeforeSays(client, r) <==> r == NothingBefore(server)
    ensures InitialStateSays(client, r) <==> r == InitialState(server)
  {
    hide HandshakeSays, NothingBeforeSays, InitialStateSays, NothingBefore, InitialState;
    HandshakeMirrored(server, client, 0, r);
    NothingBeforeMirrored(server, client, r);
    InitialStateMirrored(server, client, r);
  }
}
