/**
 Two families of traces, for every parser and every text, on which a server that lets each
 stream/start go while available is misreported: one the judge cannot read, one it accuses.
 */
module GateExamples {
  import opened Wire
  import opened RecorderSpec
  import opened StartOrder
  import opened Brackets
  import opened GateComposition
  import opened WireLevel
  import G = GateJudge

  // ---- A server misreported ----

  /**
   A client/state, then a stream/start in two fragments with a whole one, and its write, in
   between. `k` is where the text is cut.
   */
  function StrayTrace(state: seq<byte>, start: seq<byte>, k: nat): seq<Traced>
    requires k <= |start|
  {
    [Inbound(false, state), Outbound(true, [1, 2, 0] + start[..k], 0), Outbound(true, [0] + start, 0), Written(0),
     Outbound(true, [1, 1] + start[k..], 0), Written(1)]
  }

  lemma StrayShape(state: seq<byte>, start: seq<byte>, k: nat)
    requires k <= |start|
    ensures var tr := StrayTrace(state, start, k);
            && |tr| == 6 && tr[0] == Inbound(false, state) && tr[3].Written? && tr[5].Written?
            && First(tr[1]) && !Last(tr[1]) && FragmentPayload(tr[1].plaintext) == start[..k]
            && tr[1].plaintext[2] == JSON_MESSAGE_ID
            && Whole(tr[2]) && WholeMessage(tr[2]) == Message(true, JSON_MESSAGE_ID, start)
            && Frag(tr[4]) && Last(tr[4]) && !First(tr[4]) && FragmentPayload(tr[4].plaintext) == start[k..]
  {
  }

  /** What a trace shaped like that carries, told from the kinds of its frames. */
  lemma CutMessages(tr: seq<Traced>, start: seq<byte>, k: nat)
    requires k <= |start| && |tr| == 6 && tr[0].Inbound? && tr[3].Written? && tr[5].Written?
    requires First(tr[1]) && !Last(tr[1]) && FragmentPayload(tr[1].plaintext) == start[..k]
    requires Whole(tr[2]) && Frag(tr[4]) && Last(tr[4]) && !First(tr[4])
    requires FragmentPayload(tr[4].plaintext) == start[k..]
    ensures Open(tr, 2) == Some(1) && Open(tr, 3) == Some(1) && Open(tr, 4) == Some(1)
    ensures Data(tr, 1, 5) == start
  {
    hide FragmentPayload, IsFirst, IsLast, IsFragment;
    assert Open(tr, 2) == Some(1);
    assert Open(tr, 3) == Some(1);
    assert Data(tr, 1, 2) == start[..k];
    assert Data(tr, 1, 3) == start[..k];
    assert Data(tr, 1, 4) == start[..k];
    assert Data(tr, 1, 5) == start[..k] + start[k..];
  }

  /** Where each message of the trace starts, and what it is. */
  lemma StrayMessages(state: seq<byte>, start: seq<byte>, k: nat)
    requires k <= |start|
    ensures var tr := StrayTrace(state, start, k);
            && |tr| == 6
            && Start(tr, 0) == None && Start(tr, 1) == None && Start(tr, 3) == None && Start(tr, 5) == None
            && Start(tr, 2) == Some(2) && MessageAt(tr, 2) == Message(true, JSON_MESSAGE_ID, start)
            && Start(tr, 4) == Some(1) && MessageAt(tr, 4) == Message(true, JSON_MESSAGE_ID, start)
  {
    var tr := StrayTrace(state, start, k);
    StrayShape(state, start, k);
    CutMessages(tr, start, k);
    hide StrayTrace, FragmentPayload, IsFirst, IsLast, IsFragment, Data, WholeMessage, Open;
  }

  /** A stream/start, and a client/state reporting available, under a given parser. */
  predicate StartAndState(p: Parser, state: seq<byte>, start: seq<byte>) {
    p(state).kind == ClientState && p(state).available == Some(true) && p(start).kind == StreamStart
  }

  /** What is pending, and since when, along the trace. */
  lemma StrayPending(p: Parser, state: seq<byte>, start: seq<byte>, k: nat)
    requires k <= |start| && StartAndState(p, state, start)
    ensures var tr, roles := StrayTrace(state, start, k), p(start).roles;
            && |tr| == 6
            && PendingStarts(p, tr, 2) == [] && PendingStarts(p, tr, 3) == [roles]
            && PendingStarts(p, tr, 4) == [] && PendingStarts(p, tr, 5) == [roles]
            && StreamStartsAt(p, tr, 2) && StreamStartsAt(p, tr, 4)
            && forall i :: 0 <= i < 6 && i != 2 && i != 4 ==> !StreamStartsAt(p, tr, i)
  {
    var tr := StrayTrace(state, start, k);
    StrayShape(state, start, k);
    StrayMessages(state, start, k);
    hide StrayTrace, Start, MessageAt;
    assert PendingStarts(p, tr, 1) == [];
    assert PendingStarts(p, tr, 2) == [];
  }

  /** Where the two `sending` entries go: the fragmented one before the whole one's bracket. */
  lemma StrayPlaces(p: Parser, state: seq<byte>, start: seq<byte>, k: nat)
    requires k <= |start| && StartAndState(p, state, start)
    ensures var tr := StrayTrace(state, start, k);
            && |tr| == 6 && StreamStartsAt(p, tr, 2) && StreamStartsAt(p, tr, 4)
            && PlaceFor(p, tr, 2) == |Run(p, tr, 2).streams.trace|
            && PlaceFor(p, tr, 4) == |Run(p, tr, 1).streams.trace|
  {
    var tr := StrayTrace(state, start, k);
    StrayShape(state, start, k);
    StrayMessages(state, start, k);
    StrayPending(p, state, start, k);
    hide StrayTrace, Start, MessageAt, StreamStartsAt, Run;
    assert Open(tr, 2) == Some(1) && Open(tr, 3) == Some(1) && Open(tr, 4) == Some(1);
    PositionKept(p, tr, 1);
    PositionKept(p, tr, 2);
    PositionKept(p, tr, 3);
  }

  /** Up to the first write the whole stream/start stands alone. */
  lemma StrayFirstHalf(p: Parser, state: seq<byte>, start: seq<byte>, k: nat)
    requires k <= |start| && StartAndState(p, state, start)
    ensures var tr, s, x := StrayTrace(state, start, k), ClientStateEntry(Some(true)),
                            StreamStartEntry(false, p(start).roles);
            && |tr| == 6
            && Run(p, tr, 1).streams.trace == [s] && Run(p, tr, 3).streams.trace == [s, x]
  {
    var tr, x := StrayTrace(state, start, k), StreamStartEntry(false, p(start).roles);
    var s := ClientStateEntry(Some(true));
    StrayShape(state, start, k);
    StrayMessages(state, start, k);
    StrayPending(p, state, start, k);
    StrayPlaces(p, state, start, k);
    assert Run(p, tr, 0).streams.trace == [] && StateArriving(p, tr[0]) == [s];
    hide StrayTrace, Start, MessageAt, StreamStartsAt, Run, PlaceFor, PendingStarts, StateArriving, SentEntries,
      First, Last, Whole, Frag, FragmentPayload, WholeMessage;
    TraceStep(p, tr, 0);
    TraceStep(p, tr, 1);
    TraceStep(p, tr, 2);
  }

  /** The first write closes its bracket; then the fragmented one is listed in front of it. */
  lemma StrayCompleted(p: Parser, state: seq<byte>, start: seq<byte>, k: nat)
    requires k <= |start| && StartAndState(p, state, start)
    ensures var tr, s := StrayTrace(state, start, k), ClientStateEntry(Some(true));
            var x, y := StreamStartEntry(false, p(start).roles), StreamStartEntry(true, p(start).roles);
            |tr| == 6 && Run(p, tr, 5).streams.trace == [s, x, x, y]
  {
    var tr, s := StrayTrace(state, start, k), ClientStateEntry(Some(true));
    var x, y := StreamStartEntry(false, p(start).roles), StreamStartEntry(true, p(start).roles);
    StrayShape(state, start, k);
    StrayMessages(state, start, k);
    StrayPending(p, state, start, k);
    StrayPlaces(p, state, start, k);
    StrayFirstHalf(p, state, start, k);
    assert SentEntries([p(start).roles]) == [y];
    assert Insert([s, x, y], 1, x) == [s, x, x, y];
    hide StrayTrace, Start, MessageAt, StreamStartsAt, Run, PlaceFor, PendingStarts, StateArriving, SentEntries,
      First, Last, Whole, Frag, FragmentPayload, WholeMessage, Insert;
    TraceStep(p, tr, 3);
    assert Run(p, tr, 4).streams.trace == [s, x, y];
    TraceStep(p, tr, 4);
  }

  lemma StrayRecorded(p: Parser, state: seq<byte>, start: seq<byte>, k: nat)
    requires k <= |start| && StartAndState(p, state, start)
    ensures var tr, x, y := StrayTrace(state, start, k),
                            StreamStartEntry(false, p(start).roles), StreamStartEntry(true, p(start).roles);
            |tr| == 6 && Run(p, tr, 6).streams.trace == [ClientStateEntry(Some(true)), x, x, y, y]
  {
    var tr := StrayTrace(state, start, k);
    StrayShape(state, start, k);
    StrayPending(p, state, start, k);
    StrayCompleted(p, state, start, k);
    assert SentEntries([p(start).roles]) == [StreamStartEntry(true, p(start).roles)];
    hide StrayTrace, Start, StreamStartsAt, Run, PendingStarts, SentEntries,
      First, Last, Whole, Frag, FragmentPayload, WholeMessage;
    TraceStep(p, tr, 5);
  }

  /**
   When a stream/start is begun before the last write that published one, the gap shows. For
   every parser, available client/state, stream/start and cut of it: the fragmented one's
   `sending` entry lands before a bracket already closed, so its `sent` entry closes nothing. The
   judge calls the trace unrecorded, though the state was available when each stream/start went
   and each write covered one.
   */
  lemma FragmentedStartStrays(p: Parser, state: seq<byte>, start: seq<byte>, k: nat)
    requires k <= |start| && StartAndState(p, state, start)
    ensures var tr := StrayTrace(state, start, k);
            && |tr| == 6
            && Gated(p, tr, 6) && (forall w :: 0 <= w < 6 && tr[w].Written? ==> |PendingStarts(p, tr, w)| == 1)
            && !NoStray(TraceAt(p, tr, 6)) && G.JudgeEntries(TraceAt(p, tr, 6)) == G.Unrecorded
  {
    StrayPending(p, state, start, k);
    StrayRecorded(p, state, start, k);
    StrayGated(p, state, start, k);
    StrayWrites(state, start, k);
    hide StrayTrace, StreamStartsAt, Run, PendingStarts, Gated, GateTrace, NoStray;
    StrayJudged(p(start).roles);
  }

  lemma StrayWrites(state: seq<byte>, start: seq<byte>, k: nat)
    requires k <= |start|
    ensures var tr := StrayTrace(state, start, k);
            |tr| == 6 && forall w :: 0 <= w < 6 && tr[w].Written? ==> w == 3 || w == 5
  {
    var tr := StrayTrace(state, start, k);
    assert tr[0].Inbound? && tr[1].Outbound? && tr[2].Outbound? && tr[4].Outbound?;
  }

  lemma StrayJudged(roles: seq<string>)
    ensures var x, y := StreamStartEntry(false, roles), StreamStartEntry(true, roles);
            var e := GateTrace([ClientStateEntry(Some(true)), x, x, y, y]);
            !NoStray(e) && G.JudgeEntries(e) == G.Unrecorded
  {
    var x, y := StreamStartEntry(false, roles), StreamStartEntry(true, roles);
    var e := GateTrace([ClientStateEntry(Some(true)), x, x, y, y]);
    assert e[0] == G.StateReceived(G.Available) && e[1].Sending? && e[2].Sending? && e[3].Sent? && e[4].Sent?;
    assert G.Opened(e, 3) == Some(2) && G.Opened(e, 4) == None;
    assert G.LatestBefore(e, 2) == Some(G.Available);
    StrayIsUnrecorded(e);
  }

  lemma StrayGated(p: Parser, state: seq<byte>, start: seq<byte>, k: nat)
    requires k <= |start| && StartAndState(p, state, start)
    ensures |StrayTrace(state, start, k)| == 6 && Gated(p, StrayTrace(state, start, k), 6)
  {
    StrayPending(p, state, start, k);
    StrayAvailable(p, state, start, k);
    hide StrayTrace, Run, StreamStartsAt, PendingStarts;
  }

  lemma StrayAvailable(p: Parser, state: seq<byte>, start: seq<byte>, k: nat)
    requires k <= |start| && StartAndState(p, state, start)
    ensures var tr := StrayTrace(state, start, k);
            && |tr| == 6
            && Run(p, tr, 2).session.latestAvailable == Some(true)
            && Run(p, tr, 4).session.latestAvailable == Some(true)
  {
    var tr := StrayTrace(state, start, k);
    StrayShape(state, start, k);
    assert InboundOf(p, tr[0], ClientState) && p(InboundText(tr[0].binary, tr[0].plaintext)).available == Some(true);
    assert tr[1].Outbound? && tr[2].Outbound?;
    hide StrayTrace, Step, First, Last, Whole, Frag, FragmentPayload, WholeMessage;
    LatestAvailableStep(p, Run(p, tr, 0), tr[0]);
    LatestAvailableStep(p, Run(p, tr, 1), tr[1]);
    LatestAvailableStep(p, Run(p, tr, 2), tr[2]);
    LatestAvailableStep(p, Run(p, tr, 3), tr[3]);
  }
  // ---- A server accused ----

  /**
   A stream/start goes while available; the client then reports unavailable, a second stream/start
   begins in fragments, the first is written, and the client reports available again before the
   second one completes.
   */
  function StaleTrace(state: seq<byte>, gone: seq<byte>, start: seq<byte>, k: nat): seq<Traced>
    requires k <= |start|
  {
    [Inbound(false, state), Outbound(true, [0] + start, 0), Inbound(false, gone),
     Outbound(true, [1, 2, 0] + start[..k], 0), Written(0), Inbound(false, state),
     Outbound(true, [1, 1] + start[k..], 0)]
  }

  predicate StartAndStates(p: Parser, state: seq<byte>, gone: seq<byte>, start: seq<byte>) {
    StartAndState(p, state, start) && p(gone).kind == ClientState && p(gone).available == Some(false)
  }

  lemma StaleShape(state: seq<byte>, gone: seq<byte>, start: seq<byte>, k: nat)
    requires k <= |start|
    ensures var tr := StaleTrace(state, gone, start, k);
            && |tr| == 7 && tr[0] == Inbound(false, state) && tr[2] == Inbound(false, gone)
            && tr[4].Written? && tr[5] == Inbound(false, state)
            && Whole(tr[1]) && WholeMessage(tr[1]) == Message(true, JSON_MESSAGE_ID, start)
            && First(tr[3]) && !Last(tr[3]) && FragmentPayload(tr[3].plaintext) == start[..k]
            && tr[3].plaintext[2] == JSON_MESSAGE_ID
            && Frag(tr[6]) && Last(tr[6]) && !First(tr[6]) && FragmentPayload(tr[6].plaintext) == start[k..]
  {
  }

  lemma StaleOpen(tr: seq<Traced>, start: seq<byte>, k: nat)
    requires k <= |start| && |tr| == 7 && tr[4].Written? && tr[5].Inbound?
    requires First(tr[3]) && !Last(tr[3]) && FragmentPayload(tr[3].plaintext) == start[..k]
    requires Frag(tr[6]) && Last(tr[6]) && !First(tr[6]) && FragmentPayload(tr[6].plaintext) == start[k..]
    ensures Open(tr, 4) == Some(3) && Open(tr, 5) == Some(3) && Open(tr, 6) == Some(3)
    ensures Data(tr, 3, 7) == start
  {
    hide FragmentPayload, IsFirst, IsLast, IsFragment;
    assert Open(tr, 4) == Some(3);
    assert Open(tr, 5) == Some(3);
    assert Data(tr, 3, 4) == start[..k];
    assert Data(tr, 3, 5) == start[..k];
    assert Data(tr, 3, 6) == start[..k];
    assert Data(tr, 3, 7) == start[..k] + start[k..];
  }

  /** Only steps 1 and 6 complete a stream/start, the latter begun at step 3. */
  lemma StaleMessages(p: Parser, state: seq<byte>, gone: seq<byte>, start: seq<byte>, k: nat)
    requires k <= |start| && StartAndStates(p, state, gone, start)
    ensures var tr := StaleTrace(state, gone, start, k);
            && |tr| == 7
            && Start(tr, 1) == Some(1) && MessageAt(tr, 1) == Message(true, JSON_MESSAGE_ID, start)
            && Start(tr, 6) == Some(3) && MessageAt(tr, 6) == Message(true, JSON_MESSAGE_ID, start)
            && StreamStartsAt(p, tr, 1) && StreamStartsAt(p, tr, 6)
            && forall i :: 0 <= i < 7 && i != 1 && i != 6 ==> !StreamStartsAt(p, tr, i)
  {
    var tr := StaleTrace(state, gone, start, k);
    StaleShape(state, gone, start, k);
    StaleOpen(tr, start, k);
    hide StaleTrace, FragmentPayload, IsFirst, IsLast, IsFragment, Data, WholeMessage, Open;
  }

  lemma StalePending(p: Parser, state: seq<byte>, gone: seq<byte>, start: seq<byte>, k: nat)
    requires k <= |start| && StartAndStates(p, state, gone, start)
    ensures var tr := StaleTrace(state, gone, start, k);
            && |tr| == 7 && PendingStarts(p, tr, 4) == [p(start).roles] && FreshAtWrites(p, tr, 7)
  {
    var tr := StaleTrace(state, gone, start, k);
    StaleShape(state, gone, start, k);
    StaleMessages(p, state, gone, start, k);
    StaleWrites(state, gone, start, k);
    hide StaleTrace, MessageAt, StreamStartsAt;
    assert PendingStarts(p, tr, 1) == [];
    assert PendingStarts(p, tr, 2) == [p(start).roles] && PendingSince(p, tr, 2) == [1];
    assert PendingStarts(p, tr, 3) == [p(start).roles] && PendingSince(p, tr, 3) == [1];
    assert PendingStarts(p, tr, 4) == [p(start).roles] && PendingSince(p, tr, 4) == [1];
    assert Published(p, tr, 2) == 0;
    assert Published(p, tr, 4) == 0;
  }

  lemma StaleWrites(state: seq<byte>, gone: seq<byte>, start: seq<byte>, k: nat)
    requires k <= |start|
    ensures var tr := StaleTrace(state, gone, start, k);
            |tr| == 7 && forall w :: 0 <= w < 7 && tr[w].Written? ==> w == 4
  {
    var tr := StaleTrace(state, gone, start, k);
    assert tr[0].Inbound? && tr[1].Outbound? && tr[2].Inbound? && tr[3].Outbound? && tr[5].Inbound? && tr[6].Outbound?;
  }

  lemma StalePlaces(p: Parser, state: seq<byte>, gone: seq<byte>, start: seq<byte>, k: nat)
    requires k <= |start| && StartAndStates(p, state, gone, start)
    ensures var tr := StaleTrace(state, gone, start, k);
            && |tr| == 7 && StreamStartsAt(p, tr, 1) && StreamStartsAt(p, tr, 6)
            && PlaceFor(p, tr, 1) == |Run(p, tr, 1).streams.trace|
            && PlaceFor(p, tr, 6) == |Run(p, tr, 3).streams.trace|
  {
    var tr := StaleTrace(state, gone, start, k);
    StaleShape(state, gone, start, k);
    StaleOpen(tr, start, k);
    StaleMessages(p, state, gone, start, k);
    hide StaleTrace, Start, MessageAt, StreamStartsAt, Run, FragmentPayload, WholeMessage;
    PositionKept(p, tr, 3);
    PositionKept(p, tr, 4);
    PositionKept(p, tr, 5);
  }

  lemma StaleFirstHalf(p: Parser, state: seq<byte>, gone: seq<byte>, start: seq<byte>, k: nat)
    requires k <= |start| && StartAndStates(p, state, gone, start)
    ensures var tr, x := StaleTrace(state, gone, start, k), StreamStartEntry(false, p(start).roles);
            var s, g := ClientStateEntry(Some(true)), ClientStateEntry(Some(false));
            |tr| == 7 && Run(p, tr, 3).streams.trace == [s, x, g] && Run(p, tr, 4).streams.trace == [s, x, g]
  {
    var tr, x := StaleTrace(state, gone, start, k), StreamStartEntry(false, p(start).roles);
    var s, g := ClientStateEntry(Some(true)), ClientStateEntry(Some(false));
    StaleShape(state, gone, start, k);
    StaleMessages(p, state, gone, start, k);
    StalePlaces(p, state, gone, start, k);
    assert Run(p, tr, 0).streams.trace == [] && StateArriving(p, tr[0]) == [s] && StateArriving(p, tr[2]) == [g];
    hide StaleTrace, Start, MessageAt, StreamStartsAt, Run, PlaceFor, PendingStarts, StateArriving, SentEntries,
      First, Last, Whole, Frag, FragmentPayload, WholeMessage;
    TraceStep(p, tr, 0);
    TraceStep(p, tr, 1);
    assert Run(p, tr, 2).streams.trace == [s, x];
    TraceStep(p, tr, 2);
    TraceStep(p, tr, 3);
  }

  /** The write closes the first one's bracket, and the client reports available again. */
  lemma StaleWritten(p: Parser, state: seq<byte>, gone: seq<byte>, start: seq<byte>, k: nat)
    requires k <= |start| && StartAndStates(p, state, gone, start)
    ensures var tr, x, y := StaleTrace(state, gone, start, k),
                            StreamStartEntry(false, p(start).roles), StreamStartEntry(true, p(start).roles);
            var s, g := ClientStateEntry(Some(true)), ClientStateEntry(Some(false));
            |tr| == 7 && Run(p, tr, 6).streams.trace == [s, x, g, y, s]
  {
    var tr, x, y := StaleTrace(state, gone, start, k),
                    StreamStartEntry(false, p(start).roles), StreamStartEntry(true, p(start).roles);
    var s, g := ClientStateEntry(Some(true)), ClientStateEntry(Some(false));
    StaleShape(state, gone, start, k);
    StalePending(p, state, gone, start, k);
    StaleFirstHalf(p, state, gone, start, k);
    assert SentEntries([p(start).roles]) == [y] && StateArriving(p, tr[5]) == [s];
    hide StaleTrace, Start, MessageAt, StreamStartsAt, Run, PlaceFor, PendingStarts, StateArriving, SentEntries,
      First, Last, Whole, Frag, FragmentPayload, WholeMessage, Insert, FreshAtWrites;
    TraceStep(p, tr, 4);
    assert Run(p, tr, 5).streams.trace == [s, x, g, y];
    TraceStep(p, tr, 5);
  }

  lemma StaleRecorded(p: Parser, state: seq<byte>, gone: seq<byte>, start: seq<byte>, k: nat)
    requires k <= |start| && StartAndStates(p, state, gone, start)
    ensures var tr, x, y := StaleTrace(state, gone, start, k),
                            StreamStartEntry(false, p(start).roles), StreamStartEntry(true, p(start).roles);
            var s, g := ClientStateEntry(Some(true)), ClientStateEntry(Some(false));
            |tr| == 7 && Run(p, tr, 7).streams.trace == [s, x, g, x, y, s]
  {
    var tr, x, y := StaleTrace(state, gone, start, k),
                    StreamStartEntry(false, p(start).roles), StreamStartEntry(true, p(start).roles);
    var s, g := ClientStateEntry(Some(true)), ClientStateEntry(Some(false));
    StaleShape(state, gone, start, k);
    StaleMessages(p, state, gone, start, k);
    StalePlaces(p, state, gone, start, k);
    StaleFirstHalf(p, state, gone, start, k);
    StaleWritten(p, state, gone, start, k);
    assert Insert([s, x, g, y, s], 3, x) == [s, x, g, x, y, s];
    hide StaleTrace, Start, MessageAt, StreamStartsAt, Run, PlaceFor, PendingStarts, StateArriving, SentEntries,
      First, Whole, FragmentPayload, WholeMessage, Insert;
    TraceStep(p, tr, 6);
  }

  lemma StaleAvailable(p: Parser, state: seq<byte>, gone: seq<byte>, start: seq<byte>, k: nat)
    requires k <= |start| && StartAndStates(p, state, gone, start)
    ensures var tr := StaleTrace(state, gone, start, k);
            && |tr| == 7
            && Run(p, tr, 1).session.latestAvailable == Some(true)
            && Run(p, tr, 6).session.latestAvailable == Some(true)
  {
    var tr := StaleTrace(state, gone, start, k);
    StaleShape(state, gone, start, k);
    assert InboundOf(p, tr[0], ClientState) && p(InboundText(tr[0].binary, tr[0].plaintext)).available == Some(true);
    assert InboundOf(p, tr[5], ClientState) && p(InboundText(tr[5].binary, tr[5].plaintext)).available == Some(true);
    hide StaleTrace, Step, First, Last, Whole, Frag, FragmentPayload, WholeMessage;
    LatestAvailableStep(p, Run(p, tr, 0), tr[0]);
    LatestAvailableStep(p, Run(p, tr, 5), tr[5]);
  }

  /**
   Settled writes alone do not clear a server that lets each stream/start go while available. In
   the state where the second one has completed but is not written, its `sending` entry stands
   inside the first one's closed bracket, after the available state that bracket had; the judge
   then says the first was sent while unavailable.
   */
  lemma StaleStartAccuses(p: Parser, state: seq<byte>, gone: seq<byte>, start: seq<byte>, k: nat)
    requires k <= |start| && StartAndStates(p, state, gone, start)
    ensures var tr := StaleTrace(state, gone, start, k);
            && |tr| == 7 && Gated(p, tr, 7) && FreshAtWrites(p, tr, 7)
            && G.JudgeEntries(TraceAt(p, tr, 7)) == G.WhileUnavailable(p(start).roles)
  {
    var tr := StaleTrace(state, gone, start, k);
    StaleMessages(p, state, gone, start, k);
    StalePending(p, state, gone, start, k);
    StaleAvailable(p, state, gone, start, k);
    StaleRecorded(p, state, gone, start, k);
    hide StaleTrace, StreamStartsAt, Run, PendingStarts, GateTrace, FreshAtWrites;
    StaleJudged(p(start).roles);
  }

  lemma StaleJudged(roles: seq<string>)
    ensures var x, y := StreamStartEntry(false, roles), StreamStartEntry(true, roles);
            var s, g := ClientStateEntry(Some(true)), ClientStateEntry(Some(false));
            G.JudgeEntries(GateTrace([s, x, g, x, y, s])) == G.WhileUnavailable(roles)
  {
    var x, y := StreamStartEntry(false, roles), StreamStartEntry(true, roles);
    var s, g := ClientStateEntry(Some(true)), ClientStateEntry(Some(false));
    var e := GateTrace([s, x, g, x, y, s]);
    assert e[0] == G.StateReceived(G.Available) && e[1].Sending? && e[2] == G.StateReceived(G.Unavailable);
    assert e[3].Sending? && e[4] == G.Sent(roles);
    assert G.Opened(e, 4) == Some(3);
    assert G.LatestBefore(e, 3) == Some(G.Unavailable);
    var j := G.PassMeaning(e);
    assert !G.PassesAt(e, 4);
    assert j == 4;
  }
  // ---- The shortest runs ----

  /** A stream/start sent and written, after one client/state or none, all under the transport. */
  function ShortRun(state: Option<seq<byte>>, start: seq<byte>): seq<Traced> {
    (if state.Some? then [Inbound(true, [0] + state.value)] else []) +
    [Outbound(true, [0] + start, 0), Written(0)]
  }

  /** The verdict a server gets by what the one client/state reported. */
  function ShortVerdict(p: Parser, state: Option<seq<byte>>, start: seq<byte>): G.Verdict {
    var roles := p(start).roles;
    if state.None? then G.BeforeAnyState(roles)
    else
      match p(state.value).available
      case None => G.ClientNoBoolean(roles)
      case Some(true) => G.Pass
      case Some(false) => G.WhileUnavailable(roles)
  }

  /** Recorder and judge on those runs, for every parser and text: each reason goes where it belongs. */
  lemma ShortestRuns(p: Parser, state: Option<seq<byte>>, start: seq<byte>)
    requires p(start).kind == StreamStart && (state.Some? ==> p(state.value).kind == ClientState)
    ensures var tr := ShortRun(state, start);
            G.JudgeEntries(TraceAt(p, tr, |tr|)) == ShortVerdict(p, state, start)
  {
    var tr, x, y := ShortRun(state, start), StreamStartEntry(false, p(start).roles), StreamStartEntry(true, p(start).roles);
    var before := if state.Some? then [ClientStateEntry(p(state.value).available)] else [];
    var n := |tr| - 2;
    StateTaken(p, state, start);
    hide Step;
    OutboundTextIs(p, Run(p, tr, n), start, 0);
    assert Run(p, tr, n + 1) == Step(p, Run(p, tr, n), tr[n]);
    WrittenIs(p, Run(p, tr, n + 1), 0, p(start).roles);
    assert Run(p, tr, n + 2) == Step(p, Run(p, tr, n + 1), tr[n + 1]);
    assert Run(p, tr, |tr|).streams.trace == before + [x] + [y];
    hide Run, TextSent, ShortRun;
    ShortJudged(p, state, start);
  }

  lemma StateTaken(p: Parser, state: Option<seq<byte>>, start: seq<byte>)
    requires state.Some? ==> p(state.value).kind == ClientState
    ensures var tr := ShortRun(state, start);
            var n := |tr| - 2;
            && n >= 0 && tr[n] == Outbound(true, [0] + start, 0) && tr[n + 1] == Written(0)
            && Run(p, tr, n).streams ==
               Streams(if state.Some? then [ClientStateEntry(p(state.value).available)] else [], [])
  {
    var tr := ShortRun(state, start);
    if state.Some? {
      InboundTextIs(p, EMPTY_CONN, state.value);
      hide Step;
      assert Run(p, tr, 0) == EMPTY_CONN;
      assert Run(p, tr, 1) == Step(p, Run(p, tr, 0), tr[0]);
    }
  }

  lemma ShortJudged(p: Parser, state: Option<seq<byte>>, start: seq<byte>)
    requires state.Some? ==> p(state.value).kind == ClientState
    ensures var x, y := StreamStartEntry(false, p(start).roles), StreamStartEntry(true, p(start).roles);
            var before := if state.Some? then [ClientStateEntry(p(state.value).available)] else [];
            G.JudgeEntries(GateTrace(before + [x] + [y])) == ShortVerdict(p, state, start)
  {
    var x, y := StreamStartEntry(false, p(start).roles), StreamStartEntry(true, p(start).roles);
    var roles := p(start).roles;
    G.ShortestVerdicts(roles);
    hide G.JudgeEntries;
    if state.None? {
      assert GateTrace([] + [x] + [y]) == [G.Sending(roles), G.Sent(roles)];
    } else {
      var s := ClientStateEntry(p(state.value).available);
      assert GateTrace([s] + [x] + [y]) == [ToGate(s), G.Sending(roles), G.Sent(roles)];
    }
  }
}
