/**
 The verdict on a `client/time` to `server/time` exchange.

 `TimeExchangeViolation` is the one-pass judge; `Judge` is the function it computes. The
 lemmas say what that pass decides without mentioning it: `Clean` counts answers per echoed
 value, and `Accused` picks out the messages left unanswered while the server went on.
 */
module TimeJudge {
  import opened Wire

  datatype Entry =
    | ClientTimeMsg(payload: TimePayload)
    | ServerTimeMsg(payload: TimePayload)
    | OtherSent
    | Unreadable

  datatype FieldName = ClientTransmitted | ServerReceived | ServerTransmitted

  datatype Defect = NoPayload | Omitted(name: FieldName) | Mistyped(name: FieldName)

  datatype WentOn = AnsweredLater | SentAnother

  datatype Verdict =
    | Compliant
    | Unrecorded
    | ForeignEntry
    | ClientFieldNotInteger(position: nat)
    | DefectiveAnswer(answered: nat, defects: seq<Defect>)
    | UnknownEcho(answered: nat, echoed: int)
    | ClockReversed(answered: nat, received: int, transmitted: int)
    | LeftUnanswered(position: nat, of: nat, wentOn: WentOn)

  /** A `client/time` not yet answered: its 1-based position and the value it carried. */
  datatype Pending = Pending(position: nat, value: int)

  datatype State = State(
    unanswered: seq<Pending>,
    received: nat,
    answered: nat,
    latestAnswered: nat,
    passedOver: set<nat>)

  datatype Progress = Running(state: State) | Stopped(verdict: Verdict)

  function FieldDefect(field: Field, name: FieldName): seq<Defect> {
    match field
    case Absent => [Omitted(name)]
    case NotInteger => [Mistyped(name)]
    case Integer(_) => []
  }

  function ServerTimeDefects(payload: TimePayload): seq<Defect> {
    match payload
    case NoObject => [NoPayload]
    case TimeFields(sent, received, transmitted) =>
      FieldDefect(sent, ClientTransmitted) + FieldDefect(received, ServerReceived) +
      FieldDefect(transmitted, ServerTransmitted)
  }

  /** The integer a payload's `client_transmitted` holds, if it holds one. */
  function Transmitted(payload: TimePayload): Option<int> {
    if payload.TimeFields? && payload.clientTransmitted.Integer?
    then Some(payload.clientTransmitted.n) else None
  }

  /** The oldest pending message from index `k` on that carries `value`. */
  function MatchFrom(pending: seq<Pending>, value: int, k: nat): (at: Option<nat>)
    requires k <= |pending|
    ensures at.Some? ==> k <= at.value < |pending| && pending[at.value].value == value
    ensures at.Some? ==> forall i :: k <= i < at.value ==> pending[i].value != value
    ensures at.None? ==> forall i :: k <= i < |pending| ==> pending[i].value != value
    decreases |pending| - k
  {
    if k == |pending| then None
    else if pending[k].value == value then Some(k)
    else MatchFrom(pending, value, k + 1)
  }

  function FirstMatch(pending: seq<Pending>, value: int): (at: Option<nat>)
    ensures at.Some? ==> at.value < |pending| && pending[at.value].value == value
    ensures at.Some? ==> forall i :: 0 <= i < at.value ==> pending[i].value != value
    ensures at.None? ==> forall i :: 0 <= i < |pending| ==> pending[i].value != value
  {
    MatchFrom(pending, value, 0)
  }

  function RemoveAt<T>(s: seq<T>, at: nat): seq<T>
    requires at < |s|
  {
    s[..at] + s[at + 1..]
  }

  function Positions(pending: seq<Pending>): set<nat> {
    set i | 0 <= i < |pending| :: pending[i].position
  }

  function Max(a: nat, b: nat): nat {
    if a < b then b else a
  }

  function Answer(s: State, payload: TimePayload): Progress {
    var defects := ServerTimeDefects(payload);
    if defects != [] then Stopped(DefectiveAnswer(s.answered + 1, defects))
    else
      var echoed := payload.clientTransmitted.n;
      var at := FirstMatch(s.unanswered, echoed);
      if at.None? then Stopped(UnknownEcho(s.answered + 1, echoed))
      else if payload.serverReceived.n > payload.serverTransmitted.n then
        Stopped(ClockReversed(s.answered + 1, payload.serverReceived.n, payload.serverTransmitted.n))
      else
        Running(State(RemoveAt(s.unanswered, at.value), s.received, s.answered + 1,
                      Max(s.latestAnswered, s.unanswered[at.value].position), s.passedOver))
  }

  function Advance(s: State, entry: Entry): Progress {
    match entry
    case OtherSent => Running(s.(passedOver := s.passedOver + Positions(s.unanswered)))
    case Unreadable => Stopped(ForeignEntry)
    case ClientTimeMsg(payload) =>
      var sent := Transmitted(payload);
      if sent.None? then Stopped(ClientFieldNotInteger(s.received + 1))
      else Running(s.(received := s.received + 1,
                      unanswered := s.unanswered + [Pending(s.received + 1, sent.value)]))
    case ServerTimeMsg(payload) => Answer(s, payload)
  }

  const START := State([], 0, 0, 0, {})

  /** The judge's state after the first `n` entries, or the verdict that ended it. */
  function Scan(e: seq<Entry>, n: nat): Progress
    requires n <= |e|
  {
    if n == 0 then Running(START)
    else
      match Scan(e, n - 1)
      case Stopped(v) => Stopped(v)
      case Running(s) => Advance(s, e[n - 1])
  }

  predicate Named(s: State, pending: Pending) {
    || pending.position < s.latestAnswered
    || (pending.position in s.passedOver && pending.position < s.received)
  }

  /** The verdict on the pending messages from index `k` on. */
  function Remaining(s: State, k: nat): Verdict
    requires k <= |s.unanswered|
    decreases |s.unanswered| - k
  {
    if k == |s.unanswered| then Compliant
    else if Named(s, s.unanswered[k]) then Naming(s, s.unanswered[k])
    else Remaining(s, k + 1)
  }

  function Naming(s: State, pending: Pending): Verdict {
    LeftUnanswered(pending.position, s.received,
                   if pending.position < s.latestAnswered then AnsweredLater else SentAnother)
  }

  function Conclude(progress: Progress): Verdict {
    match progress
    case Stopped(v) => v
    case Running(s) => Remaining(s, 0)
  }

  function Judge(exchange: Option<seq<Entry>>): Verdict {
    match exchange
    case None => Unrecorded
    case Some(e) => Conclude(Scan(e, |e|))
  }

  lemma {:induction false} ScanStopped(e: seq<Entry>, k: nat, n: nat)
    requires k <= n <= |e| && Scan(e, k).Stopped?
    ensures Scan(e, n) == Scan(e, k)
  {
    if k < n {
      ScanStopped(e, k, n - 1);
    }
  }

  method TimeExchangeViolation(exchange: Option<seq<Entry>>) returns (v: Verdict)
    ensures v == Judge(exchange)
  {
    hide FirstMatch, RemoveAt, Positions, Max, ServerTimeDefects;
    if exchange.None? {
      return Unrecorded;
    }
    var e := exchange.value;
    var unanswered: seq<Pending> := [];
    var received: nat, answered: nat, latestAnswered: nat := 0, 0, 0;
    var passedOver: set<nat> := {};
    for i := 0 to |e|
      invariant Scan(e, i) == Running(State(unanswered, received, answered, latestAnswered, passedOver))
    {
      assert Scan(e, i + 1).Stopped? ==> Scan(e, |e|) == Scan(e, i + 1) by {
        if Scan(e, i + 1).Stopped? { ScanStopped(e, i + 1, |e|); }
      }
      match e[i] {
        case OtherSent =>
          passedOver := passedOver + Positions(unanswered);
        case Unreadable =>
          return ForeignEntry;
        case ClientTimeMsg(payload) =>
          received := received + 1;
          var sent := Transmitted(payload);
          if sent.None? {
            return ClientFieldNotInteger(received);
          }
          unanswered := unanswered + [Pending(received, sent.value)];
        case ServerTimeMsg(payload) =>
          answered := answered + 1;
          var defects := ServerTimeDefects(payload);
          DefectsMeaning(payload);
          if defects != [] {
            return DefectiveAnswer(answered, defects);
          }
          var echoed := payload.clientTransmitted.n;
          var at := FirstMatch(unanswered, echoed);
          if at.None? {
            return UnknownEcho(answered, echoed);
          }
          latestAnswered := Max(latestAnswered, unanswered[at.value].position);
          unanswered := RemoveAt(unanswered, at.value);
          if payload.serverReceived.n > payload.serverTransmitted.n {
            return ClockReversed(answered, payload.serverReceived.n, payload.serverTransmitted.n);
          }
      }
    }
    ghost var s := State(unanswered, received, answered, latestAnswered, passedOver);
    for i := 0 to |unanswered|
      invariant Remaining(s, 0) == Remaining(s, i)
    {
      var position := unanswered[i].position;
      if position < latestAnswered {
        return LeftUnanswered(position, received, AnsweredLater);
      } else if position in passedOver && position < received {
        return LeftUnanswered(position, received, SentAnother);
      }
    }
    return Compliant;
  }

  // ---- What the pass decides ----

  predicate IsClientTime(entry: Entry) {
    entry.ClientTimeMsg? && Transmitted(entry.payload).Some?
  }

  predicate HasEveryField(payload: TimePayload) {
    && payload.TimeFields?
    && payload.clientTransmitted.Integer?
    && payload.serverReceived.Integer?
    && payload.serverTransmitted.Integer?
  }

  /** A payload is defective exactly when it lacks one of the three integers. */
  lemma DefectsMeaning(payload: TimePayload)
    ensures ServerTimeDefects(payload) == [] <==> HasEveryField(payload)
  {
    if payload.TimeFields? && ServerTimeDefects(payload) == [] {
      var first := FieldDefect(payload.clientTransmitted, ClientTransmitted);
      var second := FieldDefect(payload.serverReceived, ServerReceived);
      var third := FieldDefect(payload.serverTransmitted, ServerTransmitted);
      assert |first| + |second| + |third| == |ServerTimeDefects(payload)|;
    }
  }

  /** A field that is absent is omitted; one that is there and no integer is mistyped. */
  predicate Lists(defects: seq<Defect>, field: Field, name: FieldName) {
    && (Omitted(name) in defects <==> field == Absent)
    && (Mistyped(name) in defects <==> field == NotInteger)
  }

  function Rank(defect: Defect): nat {
    match defect
    case NoPayload => 0
    case Omitted(name) => RankOf(name)
    case Mistyped(name) => RankOf(name)
  }

  function RankOf(name: FieldName): nat {
    match name
    case ClientTransmitted => 1
    case ServerReceived => 2
    case ServerTransmitted => 3
  }

  /** Which defects a payload has. */
  lemma DefectsAre(payload: TimePayload)
    ensures payload == NoObject ==> ServerTimeDefects(payload) == [NoPayload]
    ensures payload.TimeFields? ==>
              var defects := ServerTimeDefects(payload);
              && NoPayload !in defects
              && Lists(defects, payload.clientTransmitted, ClientTransmitted)
              && Lists(defects, payload.serverReceived, ServerReceived)
              && Lists(defects, payload.serverTransmitted, ServerTransmitted)
  {
    if payload.TimeFields? {
      ListedApart(payload);
    }
  }

  lemma ListedApart(payload: TimePayload)
    requires payload.TimeFields?
    ensures forall d :: d in ServerTimeDefects(payload) <==>
              || d in FieldDefect(payload.clientTransmitted, ClientTransmitted)
              || d in FieldDefect(payload.serverReceived, ServerReceived)
              || d in FieldDefect(payload.serverTransmitted, ServerTransmitted)
  {
    hide FieldDefect;
  }

  /** They are listed once each, in the order of the fields. */
  lemma DefectsInOrder(payload: TimePayload)
    ensures var defects := ServerTimeDefects(payload);
            forall i, j :: 0 <= i < j < |defects| ==> Rank(defects[i]) < Rank(defects[j])
  {
  }

  predicate IsAnswer(entry: Entry) {
    entry.ServerTimeMsg? && HasEveryField(entry.payload)
  }

  predicate Carries(entry: Entry, value: int) {
    IsClientTime(entry) && Transmitted(entry.payload) == Some(value)
  }

  predicate Echoes(entry: Entry, value: int) {
    IsAnswer(entry) && Transmitted(entry.payload) == Some(value)
  }

  /** How many of the first `n` entries are a `client/time` carrying `value`. */
  function Sent(e: seq<Entry>, value: int, n: nat): nat
    requires n <= |e|
  {
    if n == 0 then 0 else Sent(e, value, n - 1) + if Carries(e[n - 1], value) then 1 else 0
  }

  /** How many of the first `n` entries are a `server/time` echoing `value`. */
  function Echoed(e: seq<Entry>, value: int, n: nat): nat
    requires n <= |e|
  {
    if n == 0 then 0 else Echoed(e, value, n - 1) + if Echoes(e[n - 1], value) then 1 else 0
  }

  /** How many of the first `n` entries are a `client/time`. */
  function Received(e: seq<Entry>, n: nat): nat
    requires n <= |e|
  {
    if n == 0 then 0 else Received(e, n - 1) + if e[n - 1].ClientTimeMsg? then 1 else 0
  }

  predicate WellFormed(entry: Entry) {
    match entry
    case OtherSent => true
    case Unreadable => false
    case ClientTimeMsg(payload) => Transmitted(payload).Some?
    case ServerTimeMsg(payload) =>
      HasEveryField(payload) && payload.serverReceived.n <= payload.serverTransmitted.n
  }

  /**
   No defect among the first `n` entries: each is readable and well formed, and in every
   prefix no value has been echoed more often than it had been sent.
   */
  ghost predicate Clean(e: seq<Entry>, n: nat)
    requires n <= |e|
  {
    && (forall k :: 0 <= k < n ==> WellFormed(e[k]))
    && (forall k: nat, value :: k <= n ==> Echoed(e, value, k) <= Sent(e, value, k))
  }

  /**
   Answers to a value are matched first in, first out: the `client/time` at index `a` has
   been answered once as many echoes of its value came as it and its elders were sent.
   */
  predicate Answered(e: seq<Entry>, a: nat, n: nat)
    requires a < n <= |e| && IsClientTime(e[a])
  {
    var value := Transmitted(e[a].payload).value;
    Sent(e, value, a + 1) <= Echoed(e, value, n)
  }

  /** The `client/time` messages among the first `b` entries still unanswered after `n`. */
  function Outstanding(e: seq<Entry>, n: nat, b: nat): seq<Pending>
    requires b <= n <= |e|
  {
    if b == 0 then []
    else
      Outstanding(e, n, b - 1) +
      if IsClientTime(e[b - 1]) && !Answered(e, b - 1, n)
      then [Pending(Received(e, b), Transmitted(e[b - 1].payload).value)] else []
  }

  lemma {:induction false} SentMonotone(e: seq<Entry>, value: int, a: nat, n: nat)
    requires a <= n <= |e|
    ensures Sent(e, value, a) <= Sent(e, value, n)
    ensures Received(e, a) <= Received(e, n)
    ensures Echoed(e, value, a) <= Echoed(e, value, n)
  {
    if a < n {
      SentMonotone(e, value, a, n - 1);
    }
  }

  /** Positions rank the `client/time` messages by arrival. */
  lemma PositionOrder(e: seq<Entry>, a: nat, b: nat)
    requires a < b < |e| && e[b].ClientTimeMsg?
    ensures Received(e, a + 1) < Received(e, b + 1)
  {
    SentMonotone(e, 0, a + 1, b);
  }

  /** An entry other than a further echo of a value changes nothing that is outstanding. */
  lemma {:induction false} OutstandingKept(e: seq<Entry>, n: nat, b: nat)
    requires b <= n < |e| && !IsAnswer(e[n])
    ensures Outstanding(e, n + 1, b) == Outstanding(e, n, b)
  {
    if b > 0 {
      OutstandingKept(e, n, b - 1);
    }
  }

  /** Which `client/time` the next echo of `value` answers: the oldest outstanding one. */
  predicate NextAnswered(e: seq<Entry>, value: int, n: nat, a: nat)
    requires n <= |e|
  {
    a < n && Carries(e[a], value) && Sent(e, value, a + 1) == Echoed(e, value, n) + 1
  }

  /** `after` is `before` without its oldest message carrying `value`, which stood at `gone`. */
  predicate Matched(before: seq<Pending>, after: seq<Pending>, value: int, gone: nat) {
    var at := FirstMatch(before, value);
    at.Some? && after == RemoveAt(before, at.value) && before[at.value].position == gone
  }

  lemma MatchAppend(before: seq<Pending>, after: seq<Pending>, value: int, gone: nat, x: Pending)
    ensures Matched(before, after, value, gone) ==> Matched(before + [x], after + [x], value, gone)
    ensures FirstMatch(before, value).None? ==>
              if x.value == value then Matched(before + [x], before, value, x.position)
              else FirstMatch(before + [x], value).None?
  {
    var more := before + [x];
    assert forall i :: 0 <= i < |before| ==> more[i] == before[i];
    assert more[|before|] == x;
    var at := FirstMatch(more, value);
    if Matched(before, after, value, gone) {
      assert more[FirstMatch(before, value).value].value == value;
      assert at == FirstMatch(before, value);
      assert RemoveAt(more, at.value) == after + [x];
    } else if FirstMatch(before, value).None? && x.value == value {
      assert at == Some(|before|);
      assert RemoveAt(more, |before|) == before;
    }
  }

  lemma OutstandingEchoed(e: seq<Entry>, n: nat, value: int, b: nat)
    requires 0 < b <= n < |e| && Echoes(e[n], value)
    ensures var before, after := Outstanding(e, n, b - 1), Outstanding(e, n + 1, b - 1);
            if IsClientTime(e[b - 1]) then
              var x := Pending(Received(e, b), Transmitted(e[b - 1].payload).value);
              var ranks := Sent(e, x.value, b) as int - Echoed(e, x.value, n);
              && Outstanding(e, n, b) == (if ranks > 0 then before + [x] else before)
              && Outstanding(e, n + 1, b) ==
                 if ranks > (if x.value == value then 1 else 0) then after + [x] else after
            else Outstanding(e, n, b) == before && Outstanding(e, n + 1, b) == after
  {
  }

  /** What the echo at index `n` does to the first `b` entries; `a` is the message it answers. */
  ghost predicate EchoEffect(e: seq<Entry>, n: nat, value: int, b: nat, a: nat)
    requires b <= n < |e|
  {
    a <= b &&
    if Sent(e, value, b) > Echoed(e, value, n) then
      && a < b && NextAnswered(e, value, n, a)
      && Matched(Outstanding(e, n, b), Outstanding(e, n + 1, b), value, Received(e, a + 1))
    else
      && FirstMatch(Outstanding(e, n, b), value).None?
      && Outstanding(e, n + 1, b) == Outstanding(e, n, b)
  }

  lemma EchoStep(e: seq<Entry>, n: nat, value: int, b: nat, a: nat) returns (r: nat)
    requires 0 < b <= n < |e| && Echoes(e[n], value) && EchoEffect(e, n, value, b - 1, a)
    ensures EchoEffect(e, n, value, b, r)
  {
    hide FirstMatch, Matched, Outstanding, Answered, IsAnswer;
    r := a;
    OutstandingEchoed(e, n, value, b);
    if IsClientTime(e[b - 1]) {
      var x := Pending(Received(e, b), Transmitted(e[b - 1].payload).value);
      MatchAppend(Outstanding(e, n, b - 1), Outstanding(e, n + 1, b - 1), value, Received(e, a + 1), x);
      if x.value == value && Sent(e, value, b) == Echoed(e, value, n) + 1 {
        r := b - 1;
      }
    }
  }

  /**
   Matching by value is first in, first out: the echo at index `n` removes the one message
   whose rank among those carrying the value is the rank of the echo.
   */
  lemma {:induction false} EchoRemovesOldest(e: seq<Entry>, n: nat, value: int, b: nat) returns (a: nat)
    requires b <= n < |e| && Echoes(e[n], value)
    ensures EchoEffect(e, n, value, b, a)
  {
    hide FirstMatch, Matched, NextAnswered;
    if b == 0 {
      a := 0;
    } else {
      a := EchoRemovesOldest(e, n, value, b - 1);
      a := EchoStep(e, n, value, b, a);
    }
  }

  // ---- The pass and the counts agree ----

  predicate Open(e: seq<Entry>, a: nat, n: nat)
    requires n <= |e|
  {
    a < n && IsClientTime(e[a]) && !Answered(e, a, n)
  }

  predicate Closed(e: seq<Entry>, a: nat, n: nat)
    requires n <= |e|
  {
    a < n && IsClientTime(e[a]) && Answered(e, a, n)
  }

  /** `latest` is the highest position answered, or 0. */
  ghost predicate LatestIs(e: seq<Entry>, n: nat, latest: nat)
    requires n <= |e|
  {
    && (forall a: nat :: Closed(e, a, n) ==> Received(e, a + 1) <= latest)
    && (latest > 0 ==> exists a: nat :: Closed(e, a, n) && Received(e, a + 1) == latest)
  }

  predicate SentAfter(e: seq<Entry>, a: nat, n: nat)
    requires n <= |e|
  {
    exists o :: a < o < n && e[o].OtherSent?
  }

  /** Among open messages, `passed` holds those something else was sent after. */
  ghost predicate PassedIs(e: seq<Entry>, n: nat, passed: set<nat>)
    requires n <= |e|
  {
    && (forall a: nat :: Open(e, a, n) ==> (Received(e, a + 1) in passed <==> SentAfter(e, a, n)))
    && (forall q :: q in passed ==> q <= Received(e, n))
  }

  /** What the judge's state holds after a clean prefix. */
  ghost predicate Tracks(e: seq<Entry>, n: nat, s: State)
    requires n <= |e|
  {
    && s.unanswered == Outstanding(e, n, n)
    && s.received == Received(e, n)
    && LatestIs(e, n, s.latestAnswered)
    && PassedIs(e, n, s.passedOver)
  }

  /** Every `client/time` among the first `b` that is unanswered is outstanding. */
  lemma {:induction false} OutstandingHas(e: seq<Entry>, n: nat, b: nat, a: nat)
    requires a < b <= n <= |e| && IsClientTime(e[a]) && !Answered(e, a, n)
    ensures Pending(Received(e, a + 1), Transmitted(e[a].payload).value) in Outstanding(e, n, b)
  {
    if a < b - 1 {
      OutstandingHas(e, n, b - 1, a);
    }
  }

  /** Every outstanding message is an unanswered `client/time`, and they stand in order. */
  lemma {:induction false} OutstandingIs(e: seq<Entry>, n: nat, b: nat, i: nat) returns (a: nat)
    requires b <= n <= |e| && i < |Outstanding(e, n, b)|
    ensures a < b && IsClientTime(e[a]) && !Answered(e, a, n)
    ensures Outstanding(e, n, b)[i].position == Received(e, a + 1)
    ensures |Outstanding(e, n, a)| == i
  {
    if i < |Outstanding(e, n, b - 1)| {
      a := OutstandingIs(e, n, b - 1, i);
    } else {
      a := b - 1;
    }
  }

  lemma CleanStep(e: seq<Entry>, n: nat)
    requires n < |e| && Clean(e, n)
    ensures Clean(e, n + 1) <==>
            && WellFormed(e[n])
            && (e[n].ServerTimeMsg? ==>
                  var value := Transmitted(e[n].payload).value;
                  Echoed(e, value, n) < Sent(e, value, n))
  {
    if WellFormed(e[n]) {
      forall value
        ensures Sent(e, value, n) <= Sent(e, value, n + 1)
        ensures Echoed(e, value, n + 1) == Echoed(e, value, n) + if Echoes(e[n], value) then 1 else 0
      {
      }
      if e[n].ServerTimeMsg? {
        var v := Transmitted(e[n].payload).value;
        assert Clean(e, n + 1) ==> Echoed(e, v, n + 1) <= Sent(e, v, n + 1);
      }
    }
  }

  /** Only an answer changes what is open among earlier entries. */
  lemma OpenKept(e: seq<Entry>, n: nat, a: nat)
    requires a < n < |e| && !IsAnswer(e[n])
    ensures Open(e, a, n + 1) == Open(e, a, n) && Closed(e, a, n + 1) == Closed(e, a, n)
  {
  }

  lemma LatestKept(e: seq<Entry>, n: nat, latest: nat)
    requires n < |e| && !IsAnswer(e[n]) && Clean(e, n + 1) && LatestIs(e, n, latest)
    ensures LatestIs(e, n + 1, latest)
  {
    var m := n + 1;
    forall a: nat | Closed(e, a, m) ensures Received(e, a + 1) <= latest {
      if a < n { OpenKept(e, n, a); } else { NewIsOpen(e, n); }
    }
    if latest > 0 {
      var a: nat :| Closed(e, a, n) && Received(e, a + 1) == latest;
      OpenKept(e, n, a);
    }
  }

  /** A `client/time` is open when it arrives: its value cannot have been echoed that often. */
  lemma NewIsOpen(e: seq<Entry>, n: nat)
    requires n < |e| && Clean(e, n + 1) && IsClientTime(e[n])
    ensures Open(e, n, n + 1)
  {
    var value := Transmitted(e[n].payload).value;
    assert Echoed(e, value, n) <= Sent(e, value, n);
  }

  lemma TracksClientTime(e: seq<Entry>, n: nat, s: State)
    requires n < |e| && Clean(e, n + 1) && IsClientTime(e[n]) && Tracks(e, n, s)
    ensures Advance(s, e[n]).Running? && Tracks(e, n + 1, Advance(s, e[n]).state)
  {
    OutstandingKept(e, n, n);
    NewIsOpen(e, n);
    LatestKept(e, n, s.latestAnswered);
    var m := n + 1;
    forall a: nat | Open(e, a, m) ensures Received(e, a + 1) in s.passedOver <==> SentAfter(e, a, m)
    {
      if a < n { OpenKept(e, n, a); }
      assert SentAfter(e, a, n + 1) == (a < n && SentAfter(e, a, n));
    }
  }

  lemma TracksOtherSent(e: seq<Entry>, n: nat, s: State)
    requires n < |e| && Clean(e, n + 1) && e[n].OtherSent? && Tracks(e, n, s)
    ensures Advance(s, e[n]).Running? && Tracks(e, n + 1, Advance(s, e[n]).state)
  {
    OutstandingKept(e, n, n);
    LatestKept(e, n, s.latestAnswered);
    var passed := s.passedOver + Positions(s.unanswered);
    var m := n + 1;
    forall a: nat | Open(e, a, m) ensures Received(e, a + 1) in passed <==> SentAfter(e, a, m)
    {
      OpenKept(e, n, a);
      OutstandingHas(e, n, n, a);
      assert SentAfter(e, a, n + 1);
    }
    forall q | q in passed ensures q <= Received(e, n + 1) {
      if q !in s.passedOver {
        var i :| 0 <= i < |s.unanswered| && s.unanswered[i].position == q;
        var a := OutstandingIs(e, n, n, i);
        SentMonotone(e, 0, a + 1, n);
      }
    }
  }

  /** An answer closes the one message it is matched with. */
  lemma ClosedByEcho(e: seq<Entry>, n: nat, value: int, a: nat, c: nat)
    requires c < n < |e| && Echoes(e[n], value) && NextAnswered(e, value, n, a)
    ensures Closed(e, c, n + 1) <==> Closed(e, c, n) || c == a
    ensures Open(e, c, n + 1) ==> Open(e, c, n)
  {
    if IsClientTime(e[c]) && Transmitted(e[c].payload) == Some(value) && c != a {
      if c < a { SentMonotone(e, value, c + 1, a); } else { SentMonotone(e, value, a + 1, c); }
    }
  }

  lemma LatestEcho(e: seq<Entry>, n: nat, value: int, a: nat, latest: nat)
    requires n < |e| && Echoes(e[n], value) && NextAnswered(e, value, n, a) && LatestIs(e, n, latest)
    ensures LatestIs(e, n + 1, Max(latest, Received(e, a + 1)))
  {
    var now, m := Max(latest, Received(e, a + 1)), n + 1;
    forall c: nat | Closed(e, c, m) ensures Received(e, c + 1) <= now {
      ClosedByEcho(e, n, value, a, c);
    }
    if now == Received(e, a + 1) {
      ClosedByEcho(e, n, value, a, a);
    } else {
      var c: nat :| Closed(e, c, n) && Received(e, c + 1) == latest;
      ClosedByEcho(e, n, value, a, c);
    }
  }

  lemma PassedEcho(e: seq<Entry>, n: nat, value: int, a: nat, passed: set<nat>)
    requires n < |e| && Echoes(e[n], value) && NextAnswered(e, value, n, a) && PassedIs(e, n, passed)
    ensures PassedIs(e, n + 1, passed)
  {
    var m := n + 1;
    forall c: nat | Open(e, c, m) ensures Received(e, c + 1) in passed <==> SentAfter(e, c, m)
    {
      ClosedByEcho(e, n, value, a, c);
      assert SentAfter(e, c, n + 1) == SentAfter(e, c, n);
    }
  }

  lemma AnswerAdvances(s: State, payload: TimePayload, after: seq<Pending>, gone: nat)
    requires HasEveryField(payload) && payload.serverReceived.n <= payload.serverTransmitted.n
    requires Matched(s.unanswered, after, payload.clientTransmitted.n, gone)
    ensures Answer(s, payload) ==
            Running(State(after, s.received, s.answered + 1, Max(s.latestAnswered, gone), s.passedOver))
  {
    DefectsMeaning(payload);
  }

  lemma TracksAnswer(e: seq<Entry>, n: nat, s: State)
    requires n < |e| && Clean(e, n + 1) && e[n].ServerTimeMsg? && Tracks(e, n, s)
    ensures Advance(s, e[n]).Running? && Tracks(e, n + 1, Advance(s, e[n]).state)
  {
    hide LatestIs, PassedIs, Matched, NextAnswered, Answer;
    var value := Transmitted(e[n].payload).value;
    assert Echoed(e, value, n + 1) <= Sent(e, value, n + 1);
    var a := EchoRemovesOldest(e, n, value, n);
    LatestEcho(e, n, value, a, s.latestAnswered);
    PassedEcho(e, n, value, a, s.passedOver);
    AnswerAdvances(s, e[n].payload, Outstanding(e, n + 1, n), Received(e, a + 1));
  }

  /**
   The pass runs to the end of a prefix exactly when the prefix is clean, and then its state
   is what the counts say. Until the end, no reply is ever called late: every defect is one
   `Clean` names.
   */
  lemma {:induction false} ScanMeaning(e: seq<Entry>, n: nat)
    requires n <= |e|
    ensures Scan(e, n).Running? <==> Clean(e, n)
    ensures Scan(e, n).Running? ==> Tracks(e, n, Scan(e, n).state)
  {
    hide Tracks, Advance;
    if n == 0 {
      EmptyScan(e);
    } else {
      ScanMeaning(e, n - 1);
      if Clean(e, n - 1) {
        ScanMeaningStep(e, n - 1);
      } else {
        CleanPrefix(e, n - 1, n);
      }
    }
  }

  lemma EmptyScan(e: seq<Entry>)
    ensures Clean(e, 0) && Tracks(e, 0, START)
  {
  }

  lemma CleanPrefix(e: seq<Entry>, k: nat, n: nat)
    requires k <= n <= |e|
    ensures Clean(e, n) ==> Clean(e, k)
  {
  }

  lemma ScanMeaningStep(e: seq<Entry>, n: nat)
    requires n < |e| && Clean(e, n) && Scan(e, n).Running? && Tracks(e, n, Scan(e, n).state)
    ensures Scan(e, n + 1).Running? <==> Clean(e, n + 1)
    ensures Scan(e, n + 1).Running? ==> Tracks(e, n + 1, Scan(e, n + 1).state)
  {
    var s := Scan(e, n).state;
    CleanStep(e, n);
    if Clean(e, n + 1) {
      match e[n]
      case ClientTimeMsg(_) => TracksClientTime(e, n, s);
      case OtherSent => TracksOtherSent(e, n, s);
      case ServerTimeMsg(_) => TracksAnswer(e, n, s);
    } else {
      StoppedStep(e, n, s);
    }
  }

  /** How many of the first `n` entries are a `server/time`. */
  function Answers(e: seq<Entry>, n: nat): nat
    requires n <= |e|
  {
    if n == 0 then 0 else Answers(e, n - 1) + if e[n - 1].ServerTimeMsg? then 1 else 0
  }

  lemma {:induction false} AnswersCounted(e: seq<Entry>, n: nat)
    requires n <= |e| && Scan(e, n).Running?
    ensures Scan(e, n).state.answered == Answers(e, n)
  {
    if n > 0 {
      AnswersCounted(e, n - 1);
    }
  }

  /** What is wrong with entry `k`, the first to break a clean exchange, told by the counts. */
  function Defective(e: seq<Entry>, k: nat): Verdict
    requires k < |e|
  {
    match e[k]
    case OtherSent => Compliant
    case Unreadable => ForeignEntry
    case ClientTimeMsg(_) => ClientFieldNotInteger(Received(e, k + 1))
    case ServerTimeMsg(payload) =>
      if !HasEveryField(payload) then DefectiveAnswer(Answers(e, k + 1), ServerTimeDefects(payload))
      else
        var value := payload.clientTransmitted.n;
        if Echoed(e, value, k + 1) > Sent(e, value, k + 1) then UnknownEcho(Answers(e, k + 1), value)
        else ClockReversed(Answers(e, k + 1), payload.serverReceived.n, payload.serverTransmitted.n)
  }

  lemma StoppedStep(e: seq<Entry>, n: nat, s: State)
    requires n < |e| && Clean(e, n) && !Clean(e, n + 1)
    requires s.unanswered == Outstanding(e, n, n) && s.received == Received(e, n)
    ensures Advance(s, e[n]).Stopped?
    ensures s.answered == Answers(e, n) ==> Advance(s, e[n]) == Stopped(Defective(e, n))
  {
    CleanStep(e, n);
    if e[n].ServerTimeMsg? {
      var payload := e[n].payload;
      DefectsMeaning(payload);
      if IsAnswer(e[n]) {
        EchoFound(e, n, payload.clientTransmitted.n);
      }
    }
  }

  /** An echo finds a message exactly when its value had been sent more often than echoed. */
  lemma EchoFound(e: seq<Entry>, n: nat, value: int)
    requires n < |e| && Echoes(e[n], value)
    ensures FirstMatch(Outstanding(e, n, n), value).None? <==> Echoed(e, value, n + 1) > Sent(e, value, n + 1)
  {
    var a := EchoRemovesOldest(e, n, value, n);
    hide FirstMatch, Outstanding, Answered;
  }

  /**
   Any other verdict on an exchange names its first defect: the entry that first breaks the
   counts, its place among its kind, and what is wrong with it.
   */
  lemma FirstDefect(e: seq<Entry>, n: nat) returns (k: nat)
    requires n <= |e| && !Clean(e, n)
    ensures k < n && Clean(e, k) && !Clean(e, k + 1)
    ensures Scan(e, n) == Stopped(Defective(e, k))
    ensures n == |e| ==> Judge(Some(e)) == Defective(e, k)
  {
    hide Defective, Advance, Clean;
    EmptyScan(e);
    if Clean(e, n - 1) {
      k := n - 1;
      ScanMeaning(e, k);
      AnswersCounted(e, k);
      StoppedStep(e, k, Scan(e, k).state);
    } else {
      k := FirstDefect(e, n - 1);
    }
  }

  // ---- Who is named ----

  predicate TimeAfter(e: seq<Entry>, a: nat) {
    exists b :: a < b < |e| && e[b].ClientTimeMsg?
  }

  predicate AnsweredAfter(e: seq<Entry>, a: nat) {
    exists b: nat :: a < b < |e| && Closed(e, b, |e|)
  }

  /**
   A `client/time` the server went on without answering: one received later was answered, or
   something else was sent after it and a further `client/time` was received. The further
   `client/time` need not follow what was sent.
   */
  predicate Accused(e: seq<Entry>, a: nat) {
    Open(e, a, |e|) && (AnsweredAfter(e, a) || (SentAfter(e, a, |e|) && TimeAfter(e, a)))
  }

  function Accusation(e: seq<Entry>, a: nat): Verdict
    requires a < |e|
  {
    LeftUnanswered(Received(e, a + 1), Received(e, |e|),
                   if AnsweredAfter(e, a) then AnsweredLater else SentAnother)
  }

  lemma LaterPosition(e: seq<Entry>, a: nat, b: nat)
    requires a < |e| && b < |e| && e[a].ClientTimeMsg? && e[b].ClientTimeMsg?
    ensures Received(e, a + 1) < Received(e, b + 1) <==> a < b
  {
    if a < b { PositionOrder(e, a, b); }
    if b < a { PositionOrder(e, b, a); }
  }

  lemma {:induction false} TimeFound(e: seq<Entry>, a: nat, n: nat)
    requires a < n <= |e|
    ensures Received(e, a + 1) < Received(e, n) <==> exists b :: a < b < n && e[b].ClientTimeMsg?
  {
    if a + 1 < n {
      TimeFound(e, a, n - 1);
      SentMonotone(e, 0, a + 1, n - 1);
    }
  }

  /** The state names an outstanding message exactly when the counts accuse it. */
  lemma NamedMeaning(e: seq<Entry>, s: State, a: nat, pending: Pending)
    requires Tracks(e, |e|, s) && Open(e, a, |e|) && pending.position == Received(e, a + 1)
    ensures Named(s, pending) <==> Accused(e, a)
    ensures Accused(e, a) ==> Naming(s, pending) == Accusation(e, a)
  {
    var n := |e|;
    assert pending.position < s.latestAnswered <==> AnsweredAfter(e, a) by {
      if pending.position < s.latestAnswered {
        var b: nat :| Closed(e, b, n) && Received(e, b + 1) == s.latestAnswered;
        LaterPosition(e, a, b);
      }
      if AnsweredAfter(e, a) {
        var b: nat :| a < b && Closed(e, b, n);
        LaterPosition(e, a, b);
      }
    }
    TimeFound(e, a, n);
  }

  lemma {:induction false} OutstandingPrefix(e: seq<Entry>, n: nat, a: nat, b: nat)
    requires a <= b <= n <= |e|
    ensures Outstanding(e, n, a) <= Outstanding(e, n, b)
  {
    if a < b {
      OutstandingPrefix(e, n, a, b - 1);
    }
  }

  /** The pending list is strictly ascending in position. */
  lemma UnansweredAscending(e: seq<Entry>, n: nat, i: nat, j: nat)
    requires n <= |e| && i < j < |Outstanding(e, n, n)|
    ensures Outstanding(e, n, n)[i].position < Outstanding(e, n, n)[j].position
  {
    var a := OutstandingIs(e, n, n, i);
    var b := OutstandingIs(e, n, n, j);
    if b <= a {
      OutstandingPrefix(e, n, b, a);
    }
    PositionOrder(e, a, b);
  }

  lemma {:induction false} RemainingMeaning(s: State, k: nat)
    requires k <= |s.unanswered|
    ensures if Remaining(s, k) == Compliant
            then forall i :: k <= i < |s.unanswered| ==> !Named(s, s.unanswered[i])
            else exists i :: k <= i < |s.unanswered| && Named(s, s.unanswered[i]) &&
                             Remaining(s, k) == Naming(s, s.unanswered[i]) &&
                             (forall h :: k <= h < i ==> !Named(s, s.unanswered[h]))
    decreases |s.unanswered| - k
  {
    if k < |s.unanswered| && !Named(s, s.unanswered[k]) {
      RemainingMeaning(s, k + 1);
    }
  }

  lemma CompliantMeaning(e: seq<Entry>, s: State)
    requires Clean(e, |e|) && Tracks(e, |e|, s)
    ensures Remaining(s, 0) == Compliant <==> forall a: nat :: !Accused(e, a)
  {
    var n := |e|;
    RemainingMeaning(s, 0);
    if Remaining(s, 0) == Compliant {
      forall a: nat ensures !Accused(e, a) {
        if Open(e, a, n) {
          OutstandingHas(e, n, n, a);
          var i :| 0 <= i < |s.unanswered| && s.unanswered[i].position == Received(e, a + 1);
          NamedMeaning(e, s, a, s.unanswered[i]);
        }
      }
    } else {
      var i :| 0 <= i < |s.unanswered| && Named(s, s.unanswered[i]);
      var a := OutstandingIs(e, n, n, i);
      NamedMeaning(e, s, a, s.unanswered[i]);
    }
  }

  /** The first message named is the first one accused. */
  lemma FirstAccused(e: seq<Entry>, s: State) returns (a: nat)
    requires Clean(e, |e|) && Tracks(e, |e|, s) && Remaining(s, 0) != Compliant
    ensures Accused(e, a) && Remaining(s, 0) == Accusation(e, a)
    ensures forall b: nat :: b < a ==> !Accused(e, b)
  {
    var n := |e|;
    RemainingMeaning(s, 0);
    var i :| 0 <= i < |s.unanswered| && Named(s, s.unanswered[i]) &&
             Remaining(s, 0) == Naming(s, s.unanswered[i]) &&
             (forall h :: 0 <= h < i ==> !Named(s, s.unanswered[h]));
    a := OutstandingIs(e, n, n, i);
    NamedMeaning(e, s, a, s.unanswered[i]);
    OutstandingPrefix(e, n, a, n);
    forall b: nat | b < a ensures !Accused(e, b) {
      if Open(e, b, n) {
        OutstandingHas(e, n, a, b);
        var h :| 0 <= h < i && Outstanding(e, n, a)[h].position == Received(e, b + 1);
        assert s.unanswered[h] == Outstanding(e, n, a)[h];
        NamedMeaning(e, s, b, s.unanswered[h]);
      }
    }
  }

  /**
   The verdict, on every exchange: compliant exactly when it is clean and nobody is accused;
   when it is clean and somebody is, the verdict names the earliest one accused.
   */
  lemma VerdictMeaning(e: seq<Entry>) returns (a: nat)
    ensures Judge(Some(e)) == Compliant <==> Clean(e, |e|) && forall b: nat :: !Accused(e, b)
    ensures Clean(e, |e|) && Judge(Some(e)) != Compliant ==>
              && Accused(e, a) && Judge(Some(e)) == Accusation(e, a)
              && forall b: nat :: b < a ==> !Accused(e, b)
  {
    a := 0;
    ScanMeaning(e, |e|);
    match Scan(e, |e|)
    case Running(s) =>
      CompliantMeaning(e, s);
      if Remaining(s, 0) != Compliant {
        a := FirstAccused(e, s);
      }
    case Stopped(v) =>
      StoppedIsViolation(e, |e|);
  }

  lemma {:induction false} StoppedIsViolation(e: seq<Entry>, n: nat)
    requires n <= |e| && Scan(e, n).Stopped?
    ensures Scan(e, n).verdict != Compliant && !Scan(e, n).verdict.LeftUnanswered?
  {
    if n > 0 && Scan(e, n - 1).Stopped? {
      StoppedIsViolation(e, n - 1);
    }
  }
}
