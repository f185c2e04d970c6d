/**
 Fragmentation leaves no trace: once the last fragment is processed, the recorder is where it
 would be had the whole message been traced at the moment of its first fragment.
 */
module FragmentTransparency {
  import opened Wire
  import opened RecorderSpec
  import opened StartOrder

  /** The state after further messages. */
  function RunFrom(p: Parser, c: Conn, ms: seq<Traced>): (r: Conn)
    requires Valid(c)
    ensures Valid(r)
  {
    if ms == [] then c else Step(p, RunFrom(p, c, ms[..|ms| - 1]), ms[|ms| - 1])
  }

  /** The fragments of one message, with any inbound messages between them. */
  ghost predicate Split(ms: seq<Traced>) {
    && ms != [] && First(ms[0]) && Last(ms[|ms| - 1])
    && (forall k :: 0 < k < |ms| ==> ms[k].Inbound? || (Frag(ms[k]) && !First(ms[k])))
    && (forall k :: 0 <= k < |ms| - 1 ==> !Last(ms[k]))
  }

  /** The type byte the first fragment names. */
  function KindOf(ms: seq<Traced>): byte
    requires Split(ms)
  {
    ms[0].plaintext[2]
  }

  /** What the fragments carry, concatenated. */
  function Carried(ms: seq<Traced>): seq<byte> {
    if ms == [] then []
    else
      Carried(ms[..|ms| - 1]) +
      if Frag(ms[|ms| - 1]) then FragmentPayload(ms[|ms| - 1].plaintext) else []
  }

  /** The inbound messages among the fragments. */
  function Arrivals(ms: seq<Traced>): seq<Traced> {
    if ms == [] then []
    else if ms[|ms| - 1].Inbound? then Arrivals(ms[..|ms| - 1]) + [ms[|ms| - 1]]
    else Arrivals(ms[..|ms| - 1])
  }

  /** Everything but the per-frame list and the reassembly buffer. */
  function Evidence(c: Conn): Conn {
    c.(frames := [], fragment := Fragment(None, [], Position(0, 0, 0)))
  }

  lemma RunFromLast(p: Parser, c: Conn, ms: seq<Traced>, m: Traced)
    requires Valid(c)
    ensures RunFrom(p, c, ms + [m]) == Step(p, RunFrom(p, c, ms), m)
  {
    assert (ms + [m])[..|ms|] == ms;
  }

  /** An inbound message touches neither the frames nor the buffer, and reads neither. */
  lemma InboundEvidence(p: Parser, x: Conn, z: Conn, m: Traced)
    requires Valid(x) && Valid(z) && m.Inbound? && Evidence(x) == Evidence(z)
    ensures Evidence(Step(p, x, m)) == Evidence(Step(p, z, m))
    ensures Step(p, x, m).fragment == x.fragment
  {
  }

  /** Inbound messages append, so a position stays within the lists. */
  lemma InboundWithin(p: Parser, c: Conn, m: Traced, pos: Position)
    requires Valid(c) && m.Inbound? && Within(pos, c)
    ensures Within(pos, Step(p, c, m))
  {
  }

  function AvailableAfter(p: Parser, m: Traced, before: Option<bool>): Option<bool> {
    if InboundOf(p, m, ClientState) then p(InboundText(m.binary, m.plaintext)).available else before
  }

  /** An inbound message as what it appends to each list. */
  function WithArrival(p: Parser, c: Conn, m: Traced): Conn
    requires m.Inbound?
  {
    Conn(c.events + [InboundEvent(p, m.binary, m.plaintext)],
         c.exchange + TimeArriving(p, m),
         c.streams.(trace := c.streams.trace + StateArriving(p, m)),
         c.session.(latestAvailable := AvailableAfter(p, m, c.session.latestAvailable)),
         c.audio, c.metadata, c.artwork, c.frames, c.fragment)
  }

  lemma InboundAppends(p: Parser, c: Conn, m: Traced)
    requires Valid(c) && m.Inbound?
    ensures Step(p, c, m) == WithArrival(p, c, m)
  {
  }

  /** A message inserted at its place and an inbound one appended: either order will do. */
  lemma InboundCommutes(p: Parser, c: Conn, m: Traced, id: byte, data: seq<byte>, pos: Position)
    requires Valid(c) && m.Inbound? && Within(pos, c)
    ensures Within(pos, Step(p, c, m))
    ensures Step(p, Reassembled(p, c, id, data, pos), m) == Reassembled(p, Step(p, c, m), id, data, pos)
  {
    hide Step, InboundEvent, TimeArriving, StateArriving, AvailableAfter;
    InboundWithin(p, c, m, pos);
    InboundAppends(p, c, m);
    InboundAppends(p, Reassembled(p, c, id, data, pos), m);
    var body, event := p(data), [InboundEvent(p, m.binary, m.plaintext)];
    if id == JSON_MESSAGE_ID {
      InsertThenAppend(c.events, pos.events, WireEvent(false, true, id, body.kind), event);
      InsertThenAppend(c.exchange, pos.time, Placed(TimeEntryOf(p, data), false), TimeArriving(p, m));
      InsertThenAppend(c.streams.trace, pos.availability, StreamStartEntry(false, body.roles), StateArriving(p, m));
    } else {
      InsertThenAppend(c.events, pos.events, WireEvent(false, true, id, NoType), event);
    }
  }

  /** The inbound messages commute with the reassembled one as a whole. */
  lemma {:induction false} ArrivalsCommute(
    p: Parser, c: Conn, ms: seq<Traced>, id: byte, data: seq<byte>, pos: Position)
    requires Valid(c) && Within(pos, c) && forall k :: 0 <= k < |ms| ==> ms[k].Inbound?
    ensures Within(pos, RunFrom(p, c, ms))
    ensures RunFrom(p, Reassembled(p, c, id, data, pos), ms) ==
            Reassembled(p, RunFrom(p, c, ms), id, data, pos)
  {
    hide Step, Reassembled;
    if ms != [] {
      var front, m := ms[..|ms| - 1], ms[|ms| - 1];
      ArrivalsCommute(p, c, front, id, data, pos);
      InboundCommutes(p, RunFrom(p, c, front), m, id, data, pos);
    }
  }

  lemma {:induction false} ArrivalsAreInbound(ms: seq<Traced>)
    ensures forall k :: 0 <= k < |Arrivals(ms)| ==> Arrivals(ms)[k].Inbound?
  {
    if ms != [] {
      ArrivalsAreInbound(ms[..|ms| - 1]);
    }
  }

  lemma CollectsOnly(p: Parser, c: Conn, m: Traced)
    requires Valid(c) && Frag(m) && !Last(m)
    ensures Evidence(Step(p, c, m)) == Evidence(c)
    ensures Step(p, c, m).fragment == Collected(c, m.plaintext)
  {
  }

  /** Until the last fragment, only the buffer shows that a message is under way. */
  lemma {:induction false} UnderWay(p: Parser, c: Conn, ms: seq<Traced>, k: nat)
    requires Valid(c) && Split(ms) && 0 < k < |ms|
    ensures var x := RunFrom(p, c, ms[..k]);
            && Evidence(x) == Evidence(RunFrom(p, c, Arrivals(ms[..k])))
            && x.fragment == Fragment(Some(ms[0].plaintext[2]), Carried(ms[..k]), PositionOf(c))
  {
    hide Step, Collected, Evidence, FragmentPayload, IsFirst, IsLast;
    var m, front := ms[k - 1], ms[..k - 1];
    assert ms[..k] == front + [m] && ms[..k][..k - 1] == front;
    if k == 1 {
      assert front == [];
      assert RunFrom(p, c, ms[..k]) == Step(p, c, m);
      CollectsOnly(p, c, m);
      FirstCollected(c, m);
    } else {
      UnderWay(p, c, ms, k - 1);
      var x, z := RunFrom(p, c, front), RunFrom(p, c, Arrivals(front));
      if m.Inbound? {
        RunFromLast(p, c, Arrivals(front), m);
        InboundEvidence(p, x, z, m);
      } else {
        CollectsOnly(p, x, m);
        MoreCollected(x, m);
      }
    }
  }

  lemma FirstCollected(c: Conn, m: Traced)
    requires First(m)
    ensures Collected(c, m.plaintext) ==
            Fragment(Some(m.plaintext[2]), FragmentPayload(m.plaintext), PositionOf(c))
  {
  }

  lemma MoreCollected(c: Conn, m: Traced)
    requires Frag(m) && !First(m)
    ensures Collected(c, m.plaintext) == c.fragment.(data := c.fragment.data + FragmentPayload(m.plaintext))
  {
  }

  /** Reassembly reads neither the frames nor the buffer. */
  lemma ReassembledEvidence(p: Parser, x: Conn, z: Conn, id: byte, data: seq<byte>, pos: Position)
    requires Valid(x) && Valid(z) && Evidence(x) == Evidence(z) && Within(pos, x)
    ensures Within(pos, z)
    ensures Evidence(Reassembled(p, x, id, data, pos)) == Evidence(Reassembled(p, z, id, data, pos))
  {
  }

  lemma CompletesInto(p: Parser, c: Conn, m: Traced)
    requires Valid(c) && Frag(m) && Last(m) && Collected(c, m.plaintext).kind.Some?
    ensures var f := Collected(c, m.plaintext);
            && Within(f.position, c)
            && Evidence(Step(p, c, m)) == Evidence(Reassembled(p, c, f.kind.value, f.data, f.position))
  {
  }

  /**
   The fragments of a message leave the evidence it would leave if it arrived whole, at the
   place where it began, with the inbound messages taken after it.
   */
  lemma SplitReassembles(p: Parser, c: Conn, ms: seq<Traced>)
    requires Valid(c) && Split(ms)
    ensures Evidence(RunFrom(p, c, ms)) ==
            Evidence(RunFrom(p, Reassembled(p, c, KindOf(ms), Carried(ms), PositionOf(c)), Arrivals(ms)))
  {
    hide Step, Collected, Evidence, Reassembled;
    var n := |ms| - 1;
    var front, m, id, pos := ms[..n], ms[n], KindOf(ms), PositionOf(c);
    var x, z := RunFrom(p, c, front), RunFrom(p, c, Arrivals(front));
    assert ms == front + [m];
    assert Frag(m) && Arrivals(ms) == Arrivals(front);
    assert Carried(ms) == Carried(front) + FragmentPayload(m.plaintext);
    if n == 0 {
      assert front == [];
      FirstCollected(c, m);
    } else {
      UnderWay(p, c, ms, n);
      MoreCollected(x, m);
    }
    assert Collected(x, m.plaintext) == Fragment(Some(id), Carried(ms), pos);
    CompletesInto(p, x, m);
    ReassembledEvidence(p, x, z, id, Carried(ms), pos);
    ArrivalsAreInbound(front);
    ArrivalsCommute(p, c, Arrivals(front), id, Carried(ms), pos);
  }

  /** A message that can be traced whole: neither a fragment nor an artwork frame. */
  predicate Plain(id: byte) {
    id != 1 && !(8 <= id <= 11)
  }

  /** Tracing a message whole has the effect of reassembling it on the spot. */
  lemma WholeReassembles(p: Parser, c: Conn, id: byte, data: seq<byte>, audioBytes: nat)
    requires Valid(c) && Plain(id)
    requires |data| >= FRAME_PREFIX_BYTES - 1 ==> audioBytes == |data| + 1 - FRAME_PREFIX_BYTES
    ensures Evidence(Step(p, c, Outbound(true, [id] + data, audioBytes))) ==
            Evidence(Reassembled(p, c, id, data, PositionOf(c)))
  {
    var whole := [id] + data;
    assert whole[0] == id && whole[1..] == data;
    if id != JSON_MESSAGE_ID {
      if |data| >= FRAME_PREFIX_BYTES - 1 {
        assert whole[FRAME_PREFIX_BYTES..] == data[FRAME_PREFIX_BYTES - 1..];
      }
      assert c.events + [WireEvent(false, true, id, NoType)] ==
             Insert(c.events, |c.events|, WireEvent(false, true, id, NoType));
    }
  }

  lemma {:induction false} ArrivalsEvidence(p: Parser, x: Conn, z: Conn, ms: seq<Traced>)
    requires Valid(x) && Valid(z) && Evidence(x) == Evidence(z)
    requires forall k :: 0 <= k < |ms| ==> ms[k].Inbound?
    ensures Evidence(RunFrom(p, x, ms)) == Evidence(RunFrom(p, z, ms))
  {
    hide Step, Evidence;
    if ms != [] {
      ArrivalsEvidence(p, x, z, ms[..|ms| - 1]);
      InboundEvidence(p, RunFrom(p, x, ms[..|ms| - 1]), RunFrom(p, z, ms[..|ms| - 1]), ms[|ms| - 1]);
    }
  }

  lemma WholeThenArrivals(p: Parser, c: Conn, id: byte, data: seq<byte>, audioBytes: nat, ms: seq<Traced>)
    requires Valid(c) && Plain(id)
    requires |data| >= FRAME_PREFIX_BYTES - 1 ==> audioBytes == |data| + 1 - FRAME_PREFIX_BYTES
    requires forall k :: 0 <= k < |ms| ==> ms[k].Inbound?
    ensures Evidence(RunFrom(p, Step(p, c, Outbound(true, [id] + data, audioBytes)), ms)) ==
            Evidence(RunFrom(p, Reassembled(p, c, id, data, PositionOf(c)), ms))
  {
    hide Step, Evidence, Reassembled, RunFrom;
    WholeReassembles(p, c, id, data, audioBytes);
    ArrivalsEvidence(p, Step(p, c, Outbound(true, [id] + data, audioBytes)),
                     Reassembled(p, c, id, data, PositionOf(c)), ms);
  }

  /**
   Fragment transparency: a JSON or audio message (or any other plain one) sent in any split,
   with any inbound messages in between, leaves the same events, exchange, availability trace,
   timestamps, pending audio and every other piece of evidence as the whole message traced at
   the moment of its first fragment.
   */
  lemma FragmentsLikeWhole(p: Parser, c: Conn, ms: seq<Traced>, audioBytes: nat)
    requires Valid(c) && Split(ms) && Plain(KindOf(ms))
    requires |Carried(ms)| >= FRAME_PREFIX_BYTES - 1 ==>
               audioBytes == |Carried(ms)| + 1 - FRAME_PREFIX_BYTES
    ensures var whole := Outbound(true, [KindOf(ms)] + Carried(ms), audioBytes);
            Evidence(RunFrom(p, c, ms)) == Evidence(RunFrom(p, Step(p, c, whole), Arrivals(ms)))
  {
    hide Step, Evidence, Reassembled, RunFrom, Carried, Arrivals, Split, KindOf;
    SplitReassembles(p, c, ms);
    ArrivalsAreInbound(ms);
    WholeThenArrivals(p, c, KindOf(ms), Carried(ms), audioBytes, Arrivals(ms));
  }

  /** What one more message of a split does to the per-frame list. */
  lemma FramesStep(p: Parser, c: Conn, m: Traced)
    requires Valid(c) && (m.Inbound? || Frag(m))
    ensures m.Inbound? ==> Step(p, c, m).frames == c.frames
    ensures Frag(m) && Collected(c, m.plaintext).kind == Some(JSON_MESSAGE_ID) ==>
              Step(p, c, m).frames == c.frames
  {
  }

  /** A JSON body is a text message, whatever frames carried it: no frame is listed for it. */
  lemma {:induction false} JsonListsNoFrames(p: Parser, c: Conn, ms: seq<Traced>, k: nat)
    requires Valid(c) && Split(ms) && KindOf(ms) == JSON_MESSAGE_ID && k <= |ms|
    ensures RunFrom(p, c, ms[..k]).frames == c.frames
  {
    hide Step, Evidence, Carried, Arrivals, Collected;
    if k > 0 {
      JsonListsNoFrames(p, c, ms, k - 1);
      assert ms[..k] == ms[..k - 1] + [ms[k - 1]];
      RunFromLast(p, c, ms[..k - 1], ms[k - 1]);
      if k == 1 { FirstCollected(c, ms[0]); } else {
        UnderWay(p, c, ms, k - 1);
        if Frag(ms[k - 1]) { MoreCollected(RunFrom(p, c, ms[..k - 1]), ms[k - 1]); }
      }
      FramesStep(p, RunFrom(p, c, ms[..k - 1]), ms[k - 1]);
    }
  }
}
