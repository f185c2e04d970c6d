/**
 Where the recorder's entries belong, said without any insertion.

 A logical message is traced in one frame or in several. It *completes* at the step of its
 last frame and *starts* at the step of its first. The reference definition walks the trace
 from its first step to its last and lists, at each step, what started there and has
 completed by now. The recorder instead learns of a message when it completes and inserts
 its entries at a saved index; `RecordedInStartOrder` says both give the same lists.
 */
module StartOrder {
  import opened Wire
  import opened RecorderSpec

  predicate Frag(m: Traced) {
    m.Outbound? && m.binary && IsFragment(m.plaintext)
  }

  predicate First(m: Traced) {
    Frag(m) && IsFirst(m.plaintext)
  }

  predicate Last(m: Traced) {
    Frag(m) && IsLast(m.plaintext)
  }

  /** An outbound message carried by one frame of its own. */
  predicate Whole(m: Traced) {
    m.Outbound? && (m.binary ==> m.plaintext != [] && !IsFragment(m.plaintext))
  }

  /** The step whose first fragment is still being reassembled after `n` steps. */
  function Open(tr: seq<Traced>, n: nat): (s: Option<nat>)
    requires n <= |tr|
    ensures s.Some? ==> s.value < n && First(tr[s.value])
  {
    if n == 0 then None
    else if !Frag(tr[n - 1]) then Open(tr, n - 1)
    else if Last(tr[n - 1]) then None
    else if First(tr[n - 1]) then Some(n - 1)
    else Open(tr, n - 1)
  }

  /** A first fragment is open until its message ends or another first fragment replaces it. */
  lemma {:induction false} OpenMeaning(tr: seq<Traced>, n: nat, s: nat)
    requires n <= |tr|
    ensures Open(tr, n) == Some(s) <==>
            && s < n && First(tr[s]) && !Last(tr[s])
            && forall k :: s < k < n ==> !First(tr[k]) && !Last(tr[k])
  {
    if n > 0 {
      OpenMeaning(tr, n - 1, s);
    }
  }

  /** The step at which the message completing at step `j` started, if one completes there. */
  function Start(tr: seq<Traced>, j: nat): (s: Option<nat>)
    requires j < |tr|
    ensures s.Some? ==> s.value <= j && tr[s.value].Outbound? && (Whole(tr[j]) || First(tr[s.value]))
  {
    if Whole(tr[j]) || (First(tr[j]) && Last(tr[j])) then Some(j)
    else if Last(tr[j]) then Open(tr, j)
    else None
  }

  /** What the fragments traced at steps `s` to `n - 1` carry. */
  function Data(tr: seq<Traced>, s: nat, n: nat): seq<byte>
    requires n <= |tr|
  {
    if n <= s then []
    else Data(tr, s, n - 1) + if Frag(tr[n - 1]) then FragmentPayload(tr[n - 1].plaintext) else []
  }

  /** A logical message: `body` is what follows the ID byte, or the whole text of a text frame. */
  datatype Message = Message(binary: bool, id: byte, body: seq<byte>)

  function WholeMessage(m: Traced): Message
    requires Whole(m)
  {
    if !m.binary then Message(false, JSON_MESSAGE_ID, m.plaintext)
    else Message(true, m.plaintext[0], m.plaintext[1..])
  }

  function MessageAt(tr: seq<Traced>, j: nat): Message
    requires j < |tr| && Start(tr, j).Some?
  {
    if Whole(tr[j]) then WholeMessage(tr[j])
    else
      var s := Start(tr, j).value;
      Message(true, tr[s].plaintext[2], Data(tr, s, j + 1))
  }

  /** The step before `n` at which the message started at step `i` completes. */
  function Completion(tr: seq<Traced>, i: nat, n: nat): (j: Option<nat>)
    requires n <= |tr|
    ensures j.Some? ==> j.value < n && Start(tr, j.value) == Some(i)
  {
    if n == 0 then None
    else if Start(tr, n - 1) == Some(i) then Some(n - 1)
    else Completion(tr, i, n - 1)
  }

  /** At most one message starts at a step, so it completes at one step or not at all. */
  lemma {:induction false} CompletionUnique(tr: seq<Traced>, i: nat, n: nat, j: nat)
    requires j < n <= |tr| && Start(tr, j) == Some(i)
    ensures Completion(tr, i, n) == Some(j)
  {
    if j < n - 1 {
      CompletionUnique(tr, i, n - 1, j);
      if Start(tr, n - 1) == Some(i) && i < n - 1 {
        OpenMeaning(tr, n - 1, i);
        if i < j {
          OpenMeaning(tr, j, i);
        }
      }
    }
  }

  lemma {:induction false} NoneCompleted(tr: seq<Traced>, i: nat, n: nat)
    requires n <= |tr|
    requires i >= n || Open(tr, n) == Some(i)
    ensures Completion(tr, i, n) == None
  {
    if Completion(tr, i, n).Some? {
      OpenMeaning(tr, n, i);
    }
  }

  /** How many steps the last write completion before step `n` covers. */
  function LastWrite(tr: seq<Traced>, n: nat): (w: nat)
    requires n <= |tr|
    ensures w <= n && (w < n ==> w == 0 || tr[w].Written?)
  {
    if n == 0 then 0
    else if tr[n - 1].Written? then n - 1
    else LastWrite(tr, n - 1)
  }

  /** Step `j` is covered exactly when a write completion follows it. */
  lemma {:induction false} LastWriteMeaning(tr: seq<Traced>, n: nat, j: nat)
    requires j < n <= |tr|
    ensures j < LastWrite(tr, n) <==> exists w :: j < w < n && tr[w].Written?
  {
    if tr[n - 1].Written? {
      if j < n - 1 { assert tr[n - 1].Written?; }
    } else if j < n - 1 {
      LastWriteMeaning(tr, n - 1, j);
    }
  }

  // ---- The reference lists ----

  predicate InboundOf(p: Parser, m: Traced, kind: MessageType) {
    && m.Inbound?
    && InboundJson(m.binary, m.plaintext)
    && p(InboundText(m.binary, m.plaintext)).kind == kind
  }

  function OutboundEvent(p: Parser, msg: Message): WireEvent {
    WireEvent(false, msg.binary, msg.id, if msg.id == JSON_MESSAGE_ID then p(msg.body).kind else NoType)
  }

  function EventsAt(p: Parser, tr: seq<Traced>, n: nat): nat -> seq<WireEvent>
    requires n <= |tr|
  {
    (i: nat) =>
      if i >= n then []
      else if tr[i].Inbound? then [InboundEvent(p, tr[i].binary, tr[i].plaintext)]
      else
        match Completion(tr, i, n)
        case Some(j) => [OutboundEvent(p, MessageAt(tr, j))]
        case None => []
  }

  function TimeAt(p: Parser, tr: seq<Traced>, n: nat): nat -> seq<Placed>
    requires n <= |tr|
  {
    (i: nat) =>
      if i >= n then []
      else if tr[i].Inbound? then
        if InboundOf(p, tr[i], ClientTime)
        then [Placed(ClientTimeEntry(InboundText(tr[i].binary, tr[i].plaintext)), true)] else []
      else
        match Completion(tr, i, n)
        case Some(j) =>
          if MessageAt(tr, j).id == JSON_MESSAGE_ID
          then [Placed(TimeEntryOf(p, MessageAt(tr, j).body), j < LastWrite(tr, n))] else []
        case None => []
  }

  predicate StartsStream(p: Parser, msg: Message) {
    msg.id == JSON_MESSAGE_ID && p(msg.body).kind == StreamStart
  }

  /** The roles of each stream/start completed and not yet written, in completion order. */
  function PendingStarts(p: Parser, tr: seq<Traced>, n: nat): seq<seq<string>>
    requires n <= |tr|
  {
    if n == 0 || tr[n - 1].Written? then []
    else if Start(tr, n - 1).Some? && StartsStream(p, MessageAt(tr, n - 1))
    then PendingStarts(p, tr, n - 1) + [p(MessageAt(tr, n - 1).body).roles]
    else PendingStarts(p, tr, n - 1)
  }

  function AvailabilityAt(p: Parser, tr: seq<Traced>, n: nat): nat -> seq<AvailabilityEntry>
    requires n <= |tr|
  {
    (i: nat) =>
      if i >= n then []
      else if tr[i].Written? then SentEntries(PendingStarts(p, tr, i))
      else if tr[i].Inbound? then
        if InboundOf(p, tr[i], ClientState)
        then [ClientStateEntry(p(InboundText(tr[i].binary, tr[i].plaintext)).available)] else []
      else
        match Completion(tr, i, n)
        case Some(j) =>
          if StartsStream(p, MessageAt(tr, j))
          then [StreamStartEntry(false, p(MessageAt(tr, j).body).roles)] else []
        case None => []
  }

  /** What the first `k` steps list, in step order. */
  function Flatten<T>(at: nat -> seq<T>, k: nat): seq<T> {
    if k == 0 then [] else Flatten(at, k - 1) + at(k - 1)
  }

  lemma {:induction false} FlattenSame<T>(a: nat -> seq<T>, b: nat -> seq<T>, k: nat)
    requires forall i: nat :: i < k ==> a(i) == b(i)
    ensures Flatten(a, k) == Flatten(b, k)
  {
    if k > 0 {
      FlattenSame(a, b, k - 1);
    }
  }

  lemma {:induction false} FlattenMonotone<T>(a: nat -> seq<T>, s: nat, k: nat)
    requires s <= k
    ensures |Flatten(a, s)| <= |Flatten(a, k)|
  {
    if s < k {
      FlattenMonotone(a, s, k - 1);
    }
  }

  lemma InsertThenAppend<T>(s: seq<T>, at: nat, x: T, t: seq<T>)
    requires at <= |s|
    ensures Insert(s, at, x) + t == Insert(s + t, at, x)
  {
    assert (s + t)[..at] == s[..at];
    assert (s + t)[at..] == s[at..] + t;
  }

  /** Listing one thing more at step `s` inserts it after everything earlier steps list. */
  lemma {:induction false} FlattenInsert<T>(a: nat -> seq<T>, b: nat -> seq<T>, s: nat, k: nat, x: T)
    requires s < k && a(s) == [] && b(s) == [x]
    requires forall i: nat :: i < k && i != s ==> a(i) == b(i)
    ensures |Flatten(a, s)| <= |Flatten(a, k)|
    ensures Flatten(b, k) == Insert(Flatten(a, k), |Flatten(a, s)|, x)
  {
    FlattenMonotone(a, s, k);
    if s == k - 1 {
      FlattenSame(a, b, k - 1);
      assert Flatten(a, k) == Flatten(a, k - 1);
    } else {
      FlattenInsert(a, b, s, k - 1, x);
      InsertThenAppend(Flatten(a, k - 1), |Flatten(a, s)|, x, a(k - 1));
    }
  }

  /** The recorder's state after `n` steps agrees with the reference definition. */
  ghost predicate InStartOrder(p: Parser, tr: seq<Traced>, n: nat)
    requires n <= |tr|
  {
    var c := Run(p, tr, n);
    && c.events == Flatten(EventsAt(p, tr, n), n)
    && c.exchange == Flatten(TimeAt(p, tr, n), n)
    && c.streams.trace == Flatten(AvailabilityAt(p, tr, n), n)
    && c.streams.unwritten == PendingStarts(p, tr, n)
  }

  /** What is being reassembled, and where the reference lists stood when it started. */
  ghost predicate Reassembling(p: Parser, tr: seq<Traced>, n: nat)
    requires n <= |tr|
  {
    var c := Run(p, tr, n);
    match Open(tr, n)
    case None => c.fragment.kind == None
    case Some(s) =>
      && c.fragment.kind == Some(tr[s].plaintext[2])
      && c.fragment.data == Data(tr, s, n)
      && c.fragment.position == Position(|Flatten(AvailabilityAt(p, tr, n), s)|,
                                        |Flatten(TimeAt(p, tr, n), s)|,
                                        |Flatten(EventsAt(p, tr, n), s)|)
  }

  // ---- One step of the recorder ----

  /** Where the entries of the message completing at step `n` go. */
  function PositionFor(tr: seq<Traced>, n: nat, c: Conn): Position
    requires n < |tr| && Start(tr, n).Some?
  {
    if Start(tr, n).value == n then PositionOf(c) else c.fragment.position
  }

  /** The lists a message's entries go to. */
  datatype Lists = Lists(events: seq<WireEvent>, exchange: seq<Placed>, streams: Streams)

  function ListsOf(c: Conn): Lists {
    Lists(c.events, c.exchange, c.streams)
  }

  function WithMessage(p: Parser, c: Conn, msg: Message, pos: Position): Lists
    requires Within(pos, c)
  {
    Lists(
      Insert(c.events, pos.events, OutboundEvent(p, msg)),
      if msg.id == JSON_MESSAGE_ID
      then Insert(c.exchange, pos.time, Placed(TimeEntryOf(p, msg.body), false)) else c.exchange,
      if msg.id == JSON_MESSAGE_ID
      then JsonStreams(c.streams, p(msg.body), pos.availability) else c.streams)
  }

  lemma WholeEffect(p: Parser, c: Conn, m: Traced)
    requires Valid(c) && Whole(m)
    ensures ListsOf(Step(p, c, m)) == WithMessage(p, c, WholeMessage(m), PositionOf(c))
    ensures Step(p, c, m).fragment == c.fragment
  {
  }

  lemma FragmentEffect(p: Parser, c: Conn, m: Traced)
    requires Valid(c) && Frag(m)
    ensures var f, r := Collected(c, m.plaintext), Step(p, c, m);
            if Last(m) && f.kind.Some? then
              && Within(f.position, c)
              && ListsOf(r) == WithMessage(p, c, Message(true, f.kind.value, f.data), f.position)
              && r.fragment.kind == None
            else ListsOf(r) == ListsOf(c) && r.fragment == f
  {
  }

  /** Completing a message inserts exactly its entries; any other frame inserts nothing. */
  lemma StepEffect(p: Parser, tr: seq<Traced>, n: nat)
    requires n < |tr| && tr[n].Outbound? && Reassembling(p, tr, n)
    ensures Start(tr, n).None? ==> ListsOf(Run(p, tr, n + 1)) == ListsOf(Run(p, tr, n))
    ensures Start(tr, n).Some? ==>
              var c := Run(p, tr, n);
              && Within(PositionFor(tr, n, c), c)
              && ListsOf(Run(p, tr, n + 1)) == WithMessage(p, c, MessageAt(tr, n), PositionFor(tr, n, c))
  {
    var c := Run(p, tr, n);
    var m := tr[n];
    if Whole(m) {
      WholeEffect(p, c, m);
      hide Step;
    } else if Frag(m) {
      FragmentEffect(p, c, m);
      hide Step;
      if First(m) {
        assert Data(tr, n, n + 1) == FragmentPayload(m.plaintext);
      } else if Open(tr, n).Some? {
        var s := Open(tr, n).value;
        assert Data(tr, s, n + 1) == c.fragment.data + FragmentPayload(m.plaintext);
      }
    }
  }

  /** What a write completion and an inbound message add to the lists. */
  lemma ArrivalEffect(p: Parser, tr: seq<Traced>, n: nat)
    requires n < |tr| && !tr[n].Outbound?
    ensures var c, r, m := Run(p, tr, n), Run(p, tr, n + 1), tr[n];
            if m.Written? then
              ListsOf(r) == Lists(c.events, AllConfirmed(c.exchange),
                                  Streams(c.streams.trace + SentEntries(c.streams.unwritten), []))
            else
              && r.events == c.events + [InboundEvent(p, m.binary, m.plaintext)]
              && r.exchange == c.exchange + TimeAt(p, tr, n + 1)(n)
              && r.streams == c.streams.(trace := c.streams.trace + AvailabilityAt(p, tr, n + 1)(n))
    ensures tr[n].Written? ==>
              && EventsAt(p, tr, n + 1)(n) == []
              && AvailabilityAt(p, tr, n + 1)(n) == SentEntries(PendingStarts(p, tr, n))
    ensures tr[n].Inbound? ==> EventsAt(p, tr, n + 1)(n) == [InboundEvent(p, tr[n].binary, tr[n].plaintext)]
  {
    ArrivalListed(p, tr, n);
    ArrivalStep(p, Run(p, tr, n), tr[n]);
    hide Step, TimeAt, EventsAt, AvailabilityAt, InboundOf, InboundEvent, PendingStarts;
  }

  function TimeArriving(p: Parser, m: Traced): seq<Placed> {
    if InboundOf(p, m, ClientTime)
    then [Placed(ClientTimeEntry(InboundText(m.binary, m.plaintext)), true)] else []
  }

  function StateArriving(p: Parser, m: Traced): seq<AvailabilityEntry> {
    if InboundOf(p, m, ClientState)
    then [ClientStateEntry(p(InboundText(m.binary, m.plaintext)).available)] else []
  }

  /** What the reference lists hold at a step that sends nothing. */
  lemma ArrivalListed(p: Parser, tr: seq<Traced>, n: nat)
    requires n < |tr| && !tr[n].Outbound?
    ensures tr[n].Written? ==>
              && EventsAt(p, tr, n + 1)(n) == []
              && AvailabilityAt(p, tr, n + 1)(n) == SentEntries(PendingStarts(p, tr, n))
    ensures tr[n].Inbound? ==>
              && EventsAt(p, tr, n + 1)(n) == [InboundEvent(p, tr[n].binary, tr[n].plaintext)]
              && TimeAt(p, tr, n + 1)(n) == TimeArriving(p, tr[n])
              && AvailabilityAt(p, tr, n + 1)(n) == StateArriving(p, tr[n])
  {
    NoneCompleted(tr, n, n);
    hide InboundEvent, PendingStarts;
  }

  lemma ArrivalStep(p: Parser, c: Conn, m: Traced)
    requires Valid(c) && !m.Outbound?
    ensures var r := Step(p, c, m);
            if m.Written? then
              ListsOf(r) == Lists(c.events, AllConfirmed(c.exchange),
                                  Streams(c.streams.trace + SentEntries(c.streams.unwritten), []))
            else
              && r.events == c.events + [InboundEvent(p, m.binary, m.plaintext)]
              && r.exchange == c.exchange + TimeArriving(p, m)
              && r.streams == c.streams.(trace := c.streams.trace + StateArriving(p, m))
  {
    hide InboundEvent;
  }

  /** A completed message is listed at the step it started and nowhere else changes. */
  lemma {:induction false} FlattenComplete<T>(a: nat -> seq<T>, b: nat -> seq<T>, n: nat, s: nat, x: T)
    requires s <= n && a(s) == [] && b(s) == [x]
    requires forall i: nat :: i < n && i != s ==> a(i) == b(i)
    requires s < n ==> b(n) == []
    ensures |Flatten(a, s)| <= |Flatten(a, n)|
    ensures Flatten(b, n + 1) == Insert(Flatten(a, n), |Flatten(a, s)|, x)
  {
    if s < n {
      FlattenInsert(a, b, s, n, x);
      assert Flatten(b, n + 1) == Flatten(b, n);
    } else {
      FlattenSame(a, b, n);
    }
  }

  lemma {:induction false} FlattenExtend<T>(a: nat -> seq<T>, b: nat -> seq<T>, n: nat)
    requires forall i: nat :: i < n ==> a(i) == b(i)
    ensures Flatten(b, n + 1) == Flatten(a, n) + b(n)
  {
    FlattenSame(a, b, n);
  }

  /** Steps before `n` list the same after one more step, except where a message completes. */
  lemma EarlierSteps(p: Parser, tr: seq<Traced>, n: nat, i: nat)
    requires i < n < |tr| && Start(tr, n) != Some(i)
    ensures Completion(tr, i, n + 1) == Completion(tr, i, n)
    ensures EventsAt(p, tr, n + 1)(i) == EventsAt(p, tr, n)(i)
    ensures AvailabilityAt(p, tr, n + 1)(i) == AvailabilityAt(p, tr, n)(i)
    ensures !tr[n].Written? ==> TimeAt(p, tr, n + 1)(i) == TimeAt(p, tr, n)(i)
    ensures |TimeAt(p, tr, n + 1)(i)| == |TimeAt(p, tr, n)(i)|
  {
  }

  /** The message completing at step `n` is listed at its start and had not been before. */
  lemma MessageListed(p: Parser, tr: seq<Traced>, n: nat, s: nat, msg: Message)
    requires n < |tr| && Start(tr, n) == Some(s) && msg == MessageAt(tr, n)
    ensures EventsAt(p, tr, n)(s) == [] && EventsAt(p, tr, n + 1)(s) == [OutboundEvent(p, msg)]
    ensures AvailabilityAt(p, tr, n)(s) == []
    ensures AvailabilityAt(p, tr, n + 1)(s) ==
            if StartsStream(p, msg) then [StreamStartEntry(false, p(msg.body).roles)] else []
    ensures TimeAt(p, tr, n)(s) == []
    ensures TimeAt(p, tr, n + 1)(s) ==
            if msg.id == JSON_MESSAGE_ID then [Placed(TimeEntryOf(p, msg.body), false)] else []
  {
    hide PendingStarts;
    NoneCompleted(tr, s, n);
  }

  /** An outbound step that completes nothing it started lists nothing. */
  lemma NothingListed(p: Parser, tr: seq<Traced>, n: nat)
    requires n < |tr| && tr[n].Outbound? && Start(tr, n) != Some(n)
    ensures EventsAt(p, tr, n + 1)(n) == []
    ensures AvailabilityAt(p, tr, n + 1)(n) == []
    ensures TimeAt(p, tr, n + 1)(n) == []
  {
    hide PendingStarts;
    NoneCompleted(tr, n, n);
  }

  lemma EventsGrow(p: Parser, tr: seq<Traced>, n: nat)
    requires n < |tr|
    ensures var a, b := EventsAt(p, tr, n), EventsAt(p, tr, n + 1);
            match Start(tr, n)
            case Some(s) =>
              && |Flatten(a, s)| <= |Flatten(a, n)|
              && Flatten(b, n + 1) == Insert(Flatten(a, n), |Flatten(a, s)|, OutboundEvent(p, MessageAt(tr, n)))
            case None => Flatten(b, n + 1) == Flatten(a, n) + b(n)
  {
    hide EventsAt;
    var a, b := EventsAt(p, tr, n), EventsAt(p, tr, n + 1);
    forall i: nat | i < n && Start(tr, n) != Some(i) ensures a(i) == b(i) {
      EarlierSteps(p, tr, n, i);
    }
    if Start(tr, n).Some? {
      var s := Start(tr, n).value;
      MessageListed(p, tr, n, s, MessageAt(tr, n));
      if s < n { NothingListed(p, tr, n); }
      FlattenComplete(a, b, n, s, OutboundEvent(p, MessageAt(tr, n)));
    } else {
      FlattenExtend(a, b, n);
    }
  }

  lemma AvailabilityGrow(p: Parser, tr: seq<Traced>, n: nat)
    requires n < |tr|
    ensures var a, b := AvailabilityAt(p, tr, n), AvailabilityAt(p, tr, n + 1);
            if Start(tr, n).Some? && StartsStream(p, MessageAt(tr, n)) then
              var s := Start(tr, n).value;
              && |Flatten(a, s)| <= |Flatten(a, n)|
              && Flatten(b, n + 1) == Insert(Flatten(a, n), |Flatten(a, s)|,
                                             StreamStartEntry(false, p(MessageAt(tr, n).body).roles))
            else Flatten(b, n + 1) == Flatten(a, n) + b(n) && (Start(tr, n).Some? ==> b(n) == [])
  {
    hide AvailabilityAt;
    var a, b := AvailabilityAt(p, tr, n), AvailabilityAt(p, tr, n + 1);
    forall i: nat | i < n && Start(tr, n) != Some(i) ensures a(i) == b(i) {
      EarlierSteps(p, tr, n, i);
    }
    if Start(tr, n).Some? {
      var s := Start(tr, n).value;
      MessageListed(p, tr, n, s, MessageAt(tr, n));
      if s < n { NothingListed(p, tr, n); }
      if StartsStream(p, MessageAt(tr, n)) {
        FlattenComplete(a, b, n, s, StreamStartEntry(false, p(MessageAt(tr, n).body).roles));
        return;
      }
    }
    FlattenExtend(a, b, n);
  }

  lemma TimeGrow(p: Parser, tr: seq<Traced>, n: nat)
    requires n < |tr| && !tr[n].Written?
    ensures var a, b := TimeAt(p, tr, n), TimeAt(p, tr, n + 1);
            if Start(tr, n).Some? && MessageAt(tr, n).id == JSON_MESSAGE_ID then
              var s := Start(tr, n).value;
              && |Flatten(a, s)| <= |Flatten(a, n)|
              && Flatten(b, n + 1) == Insert(Flatten(a, n), |Flatten(a, s)|,
                                             Placed(TimeEntryOf(p, MessageAt(tr, n).body), false))
            else Flatten(b, n + 1) == Flatten(a, n) + b(n) && (Start(tr, n).Some? ==> b(n) == [])
  {
    hide TimeAt;
    var a, b := TimeAt(p, tr, n), TimeAt(p, tr, n + 1);
    forall i: nat | i < n && Start(tr, n) != Some(i) ensures a(i) == b(i) {
      EarlierSteps(p, tr, n, i);
    }
    if Start(tr, n).Some? {
      var s := Start(tr, n).value;
      MessageListed(p, tr, n, s, MessageAt(tr, n));
      if s < n { NothingListed(p, tr, n); }
      if MessageAt(tr, n).id == JSON_MESSAGE_ID {
        FlattenComplete(a, b, n, s, Placed(TimeEntryOf(p, MessageAt(tr, n).body), false));
        return;
      }
    }
    FlattenExtend(a, b, n);
  }

  lemma {:induction false} FlattenConfirmed(a: nat -> seq<Placed>, b: nat -> seq<Placed>, k: nat)
    requires forall i: nat :: i < k ==> b(i) == AllConfirmed(a(i))
    ensures Flatten(b, k) == AllConfirmed(Flatten(a, k))
  {
    if k > 0 {
      FlattenConfirmed(a, b, k - 1);
    }
  }

  lemma {:induction false} FlattenLength<T>(a: nat -> seq<T>, b: nat -> seq<T>, k: nat)
    requires forall i: nat :: i < k ==> |a(i)| == |b(i)|
    ensures |Flatten(a, k)| == |Flatten(b, k)|
  {
    if k > 0 {
      FlattenLength(a, b, k - 1);
    }
  }

  lemma TimeWritten(p: Parser, tr: seq<Traced>, n: nat)
    requires n < |tr| && tr[n].Written?
    ensures Flatten(TimeAt(p, tr, n + 1), n + 1) == AllConfirmed(Flatten(TimeAt(p, tr, n), n))
  {
    var a, b := TimeAt(p, tr, n), TimeAt(p, tr, n + 1);
    forall i: nat | i < n ensures b(i) == AllConfirmed(a(i)) {
      EarlierSteps(p, tr, n, i);
    }
    FlattenConfirmed(a, b, n);
    NoneCompleted(tr, n, n);
    assert b(n) == [];
  }

  /** The position the recorder uses is where the reference lists stood at the message's start. */
  lemma PositionAgrees(p: Parser, tr: seq<Traced>, n: nat)
    requires n < |tr| && Start(tr, n).Some?
    requires InStartOrder(p, tr, n) && Reassembling(p, tr, n)
    ensures var s := Start(tr, n).value;
            PositionFor(tr, n, Run(p, tr, n)) == Position(|Flatten(AvailabilityAt(p, tr, n), s)|,
                                                          |Flatten(TimeAt(p, tr, n), s)|,
                                                          |Flatten(EventsAt(p, tr, n), s)|)
  {
    hide Step;
  }

  lemma OrderStep(p: Parser, tr: seq<Traced>, n: nat)
    requires n < |tr| && InStartOrder(p, tr, n) && Reassembling(p, tr, n)
    ensures InStartOrder(p, tr, n + 1)
  {
    hide Step, EventsAt, TimeAt, AvailabilityAt;
    EventsGrow(p, tr, n);
    AvailabilityGrow(p, tr, n);
    if tr[n].Written? { TimeWritten(p, tr, n); } else { TimeGrow(p, tr, n); }
    if tr[n].Outbound? {
      StepEffect(p, tr, n);
      if Start(tr, n).Some? { PositionAgrees(p, tr, n); } else { NothingListed(p, tr, n); }
    } else {
      ArrivalEffect(p, tr, n);
    }
  }

  /** A saved position stands for the same place in the reference lists at every later step. */
  lemma PositionStep(p: Parser, tr: seq<Traced>, n: nat, s: nat)
    requires n < |tr| && Open(tr, n + 1) == Some(s)
    ensures |Flatten(AvailabilityAt(p, tr, n), s)| == |Flatten(AvailabilityAt(p, tr, n + 1), s)|
    ensures |Flatten(TimeAt(p, tr, n), s)| == |Flatten(TimeAt(p, tr, n + 1), s)|
    ensures |Flatten(EventsAt(p, tr, n), s)| == |Flatten(EventsAt(p, tr, n + 1), s)|
  {
    forall i: nat | i < s ensures Start(tr, n) != Some(i) {
      OpenMeaning(tr, n + 1, s);
    }
    forall i: nat | i < s
      ensures |AvailabilityAt(p, tr, n)(i)| == |AvailabilityAt(p, tr, n + 1)(i)|
      ensures |TimeAt(p, tr, n)(i)| == |TimeAt(p, tr, n + 1)(i)|
      ensures |EventsAt(p, tr, n)(i)| == |EventsAt(p, tr, n + 1)(i)|
    {
      EarlierSteps(p, tr, n, i);
    }
    FlattenLength(AvailabilityAt(p, tr, n), AvailabilityAt(p, tr, n + 1), s);
    FlattenLength(TimeAt(p, tr, n), TimeAt(p, tr, n + 1), s);
    FlattenLength(EventsAt(p, tr, n), EventsAt(p, tr, n + 1), s);
  }

  /** How one step changes what is being reassembled. */
  lemma FragmentFields(p: Parser, tr: seq<Traced>, n: nat)
    requires n < |tr| && Reassembling(p, tr, n)
    ensures var c, r := Run(p, tr, n), Run(p, tr, n + 1);
            match Open(tr, n + 1)
            case None => r.fragment.kind == None
            case Some(s) =>
              && r.fragment.kind == Some(tr[s].plaintext[2])
              && r.fragment.data == Data(tr, s, n + 1)
              && r.fragment.position == if s == n then PositionOf(c) else c.fragment.position
  {
    hide Step, FragmentPayload, WithMessage;
    if Frag(tr[n]) {
      FragmentEffect(p, Run(p, tr, n), tr[n]);
    } else {
      FragmentKept(p, Run(p, tr, n), tr[n]);
    }
    if First(tr[n]) && !Last(tr[n]) {
      assert Data(tr, n, n + 1) == FragmentPayload(tr[n].plaintext);
    }
  }

  lemma FragmentKept(p: Parser, c: Conn, m: Traced)
    requires Valid(c) && !Frag(m)
    ensures Step(p, c, m).fragment == c.fragment
  {
  }

  lemma ReassemblingStep(p: Parser, tr: seq<Traced>, n: nat)
    requires n < |tr| && InStartOrder(p, tr, n) && Reassembling(p, tr, n)
    ensures Reassembling(p, tr, n + 1)
  {
    FragmentFields(p, tr, n);
    if Open(tr, n + 1).Some? {
      PositionStep(p, tr, n, Open(tr, n + 1).value);
    }
  }

  lemma NothingRecorded(p: Parser, tr: seq<Traced>)
    ensures InStartOrder(p, tr, 0) && Reassembling(p, tr, 0)
  {
  }

  /**
   Start order. After any steps of any trace, `events`, `availability_trace` and
   `time_exchange` list exactly what the reference definition lists: inbound entries at the
   step they arrived, outbound entries at the step their first frame was traced (however many
   frames and other messages came before their last one), `sent` entries at the write
   completion. A saved position is the number of entries listed before its message started.
   */
  lemma {:induction false} RecordedInStartOrder(p: Parser, tr: seq<Traced>, n: nat)
    requires n <= |tr|
    ensures InStartOrder(p, tr, n)
    ensures Reassembling(p, tr, n)
  {
    hide InStartOrder, Reassembling;
    if n == 0 {
      NothingRecorded(p, tr);
    } else {
      RecordedInStartOrder(p, tr, n - 1);
      OrderStep(p, tr, n - 1);
      ReassemblingStep(p, tr, n - 1);
    }
  }
}
