/**
 The Python recorder of the exchange, under overlapping sends.

 A send captures the length of the list when it begins and inserts its `other-sent` there when
 it returns, by when other sends may have inserted before that index and the index is stale.
 The machine below runs any interleaving of sends beginning, returning and failing with
 messages being received; the lemmas say the entries stand where the contract wants them.
 */
module AsyncRecorder {
  import opened Wire
  import J = TimeJudge
  import L = TimeLaws

  // ---- One list ----

  /**
   The entry for a send that began when the list had `began` elements: none at the very
   front, and none beside an other-sent that already speaks for it.
   */
  function RecordOtherSent<T>(s: seq<T>, other: T -> bool, began: nat, x: T): (r: seq<T>)
    requires began <= |s| && other(x)
    ensures |r| >= |s|
    ensures began > 0 ==> other(r[began - 1]) || (began < |r| && other(r[began]))
    ensures r == s || r == Insert(s, began, x)
  {
    if began == 0 || other(s[began - 1]) || (began < |s| && other(s[began])) then s
    else Insert(s, began, x)
  }

  function Current(exchange: Option<seq<J.Entry>>): seq<J.Entry> {
    if exchange.Some? then exchange.value else []
  }

  /** What a returning send does to a list. */
  function AfterReturn(e: seq<J.Entry>, answer: Option<TimePayload>, beganAt: nat): seq<J.Entry>
    requires beganAt <= |e|
  {
    match answer
    case Some(payload) => e + [J.ServerTimeMsg(payload)]
    case None => RecordOtherSent(e, L.IsOther, beganAt, J.OtherSent)
  }

  /** What received text does to a list. */
  function AfterText(e: seq<J.Entry>, clientTime: Option<TimePayload>): seq<J.Entry> {
    match clientTime
    case Some(payload) => e + [J.ClientTimeMsg(payload)]
    case None => e
  }

  /**
   The recorder's exchange lists, one a socket. An async send is two calls: `BeginSend` up to
   where it awaits the transport, `ReturnSend` from where the transport comes back.
   */
  class ControlMessageRecorder {
    var exchanges: map<nat, seq<J.Entry>>

    constructor ()
      ensures exchanges == map[]
    {
      exchanges := map[];
    }

    function Exchange(socket: nat): Option<seq<J.Entry>>
      reads this
    {
      if socket in exchanges then Some(exchanges[socket]) else None
    }

    /** Where the exchange stands when a send begins. */
    method BeginSend(socket: nat) returns (beganAt: nat)
      ensures beganAt == |Current(Exchange(socket))|
    {
      beganAt := if socket in exchanges then |exchanges[socket]| else 0;
    }

    /** A send returned: a server/time is appended, anything else recorded where it began. */
    method ReturnSend(socket: nat, answer: Option<TimePayload>, beganAt: nat)
      requires beganAt <= |Current(Exchange(socket))|
      modifies this
      ensures Current(Exchange(socket)) == AfterReturn(old(Current(Exchange(socket))), answer, beganAt)
      ensures exchanges - {socket} == old(exchanges) - {socket}
      ensures socket in exchanges <==> socket in old(exchanges) || answer.Some?
    {
      if answer.Some? {
        exchanges := exchanges[socket := Current(Exchange(socket)) + [J.ServerTimeMsg(answer.value)]];
        return;
      }
      if beganAt == 0 {
        return;
      }
      var exchange := exchanges[socket];
      var beside := exchange[beganAt - 1 .. if beganAt < |exchange| then beganAt + 1 else beganAt];
      if J.OtherSent in beside {
        assert beside[0] == exchange[beganAt - 1] && (|beside| > 1 ==> beside[1] == exchange[beganAt]);
        return;
      }
      assert exchange[beganAt - 1] in beside && (beganAt < |exchange| ==> exchange[beganAt] == beside[1]);
      exchanges := exchanges[socket := Insert(exchange, beganAt, J.OtherSent)];
    }

    /** Text arrived: a client/time is appended; any text marks the socket as observed. */
    method Observe(socket: nat, clientTime: Option<TimePayload>)
      modifies this
      ensures Exchange(socket) == Some(AfterText(old(Current(Exchange(socket))), clientTime))
      ensures exchanges - {socket} == old(exchanges) - {socket}
    {
      var exchange := Current(Exchange(socket));
      if clientTime.Some? {
        exchange := exchange + [J.ClientTimeMsg(clientTime.value)];
      }
      exchanges := exchanges[socket := exchange];
    }
  }

  // ---- Interleavings ----

  /** What happens on one socket. A send is named by the step at which it began. */
  datatype Op =
    | Begin(answer: Option<TimePayload>)
    | Return(begun: nat)
    | Fail(begun: nat)
    | Receive(clientTime: Option<TimePayload>)

  /**
   An entry with the step it stands for: when a client/time was received, when a server/time
   returned, and, for an other-sent, when the send it was recorded for began.
   */
  datatype Mark = Mark(entry: J.Entry, step: nat)

  datatype Send = Send(answer: Option<TimePayload>, beganAt: nat)

  datatype State = State(marks: seq<Mark>, sends: map<nat, Send>)

  const IsOtherMark: Mark -> bool := (x: Mark) => x.entry.OtherSent?

  /** An index captured when a send began is still within the list. */
  predicate Valid(s: State) {
    forall b :: b in s.sends ==> s.sends[b].beganAt <= |s.marks|
  }

  function Step(s: State, op: Op, t: nat): (r: State)
    requires Valid(s)
    ensures Valid(r)
  {
    match op
    case Begin(answer) => s.(sends := s.sends[t := Send(answer, |s.marks|)])
    case Fail(b) => s.(sends := s.sends - {b})
    case Receive(None) => s
    case Receive(Some(payload)) => s.(marks := s.marks + [Mark(J.ClientTimeMsg(payload), t)])
    case Return(b) =>
      if b !in s.sends then s
      else
        var rest := s.sends - {b};
        match s.sends[b].answer
        case Some(payload) => State(s.marks + [Mark(J.ServerTimeMsg(payload), t)], rest)
        case None =>
          State(RecordOtherSent(s.marks, IsOtherMark, s.sends[b].beganAt, Mark(J.OtherSent, b)), rest)
  }

  function Run(ops: seq<Op>, n: nat): (s: State)
    requires n <= |ops|
    ensures Valid(s)
  {
    if n == 0 then State([], map[]) else Step(Run(ops, n - 1), ops[n - 1], n - 1)
  }

  /** The list as the class keeps it. */
  function Entries(marks: seq<Mark>): (r: seq<J.Entry>)
    ensures |r| == |marks|
  {
    seq(|marks|, i requires 0 <= i < |marks| => marks[i].entry)
  }

  /** The machine moves the list exactly as the recorder's methods do. */
  lemma StepIsRecorded(s: State, op: Op, t: nat)
    requires Valid(s)
    ensures var before, after := Entries(s.marks), Entries(Step(s, op, t).marks);
            match op
            case Return(b) =>
              after == if b in s.sends then AfterReturn(before, s.sends[b].answer, s.sends[b].beganAt) else before
            case Receive(clientTime) => after == AfterText(before, clientTime)
            case _ => after == before
  {
  }

  // ---- Soundness ----

  /** Every client/time before index `k` had been received by step `t`. */
  ghost predicate ReceivedBefore(m: seq<Mark>, k: nat, t: nat) {
    forall a :: 0 <= a < k && a < |m| && m[a].entry.ClientTimeMsg? ==> m[a].step < t
  }

  ghost predicate Ordered(m: seq<Mark>) {
    forall b :: 0 <= b < |m| && m[b].entry.OtherSent? ==> ReceivedBefore(m, b, m[b].step)
  }

  /** No other-sent at the front or right after another. */
  predicate Spread(m: seq<Mark>) {
    forall b :: 0 <= b < |m| && m[b].entry.OtherSent? ==> b > 0 && !m[b - 1].entry.OtherSent?
  }

  /** Where each entry comes from. */
  ghost predicate Genuine(ops: seq<Op>, n: nat, m: seq<Mark>)
    requires n <= |ops|
  {
    forall a :: 0 <= a < |m| ==>
      && m[a].step < n
      && match m[a].entry
         case ClientTimeMsg(payload) => ops[m[a].step] == Receive(Some(payload))
         case OtherSent => ops[m[a].step] == Begin(None) && exists r :: m[a].step < r < n && ops[r] == Return(m[a].step)
         case ServerTimeMsg(_) => ops[m[a].step].Return?
         case Unreadable => false
  }

  /** What holds between steps: also of each send still under way. */
  ghost predicate Sound(ops: seq<Op>, n: nat, s: State)
    requires n <= |ops|
  {
    && Ordered(s.marks)
    && Spread(s.marks)
    && Genuine(ops, n, s.marks)
    && (forall b :: b in s.sends ==>
          && b < n && ops[b] == Begin(s.sends[b].answer)
          && s.sends[b].beganAt <= |s.marks|
          && ReceivedBefore(s.marks, s.sends[b].beganAt, b))
  }

  lemma InsertedIndex<T>(s: seq<T>, at: nat, x: T, i: nat)
    requires at <= |s| && i <= |s|
    ensures Insert(s, at, x)[i] == if i < at then s[i] else if i == at then x else s[i - 1]
  {
  }

  /** An other-sent inserted anywhere pushes entries back, never forward. */
  lemma ReceivedBeforeInsert(m: seq<Mark>, at: nat, x: Mark, k: nat, t: nat)
    requires at <= |m| && x.entry.OtherSent? && ReceivedBefore(m, k, t)
    ensures ReceivedBefore(Insert(m, at, x), k, t)
    ensures at < k ==> ReceivedBefore(Insert(m, at, x), k + 1, t)
  {
    var r := Insert(m, at, x);
    forall a | 0 <= a < |r| ensures r[a] == if a < at then m[a] else if a == at then x else m[a - 1] {
      InsertedIndex(m, at, x, a);
    }
  }

  lemma OrderedInsert(m: seq<Mark>, at: nat, x: Mark)
    requires at <= |m| && Ordered(m) && x.entry.OtherSent? && ReceivedBefore(m, at, x.step)
    ensures Ordered(Insert(m, at, x))
  {
    var r := Insert(m, at, x);
    forall b | 0 <= b < |r| && r[b].entry.OtherSent? ensures ReceivedBefore(r, b, r[b].step) {
      InsertedIndex(m, at, x, b);
      if b <= at {
        ReceivedBeforeInsert(m, at, x, b, r[b].step);
      } else {
        ReceivedBeforeInsert(m, at, x, b - 1, r[b].step);
        if b - 1 == at { ReceivedBeforeInsert(m, at, x, at, r[b].step); }
      }
    }
  }

  lemma SpreadInsert(m: seq<Mark>, at: nat, x: Mark)
    requires 0 < at <= |m| && Spread(m) && x.entry.OtherSent?
    requires !m[at - 1].entry.OtherSent? && (at < |m| ==> !m[at].entry.OtherSent?)
    ensures Spread(Insert(m, at, x))
  {
    var r := Insert(m, at, x);
    forall b | 0 <= b < |r| && r[b].entry.OtherSent? ensures b > 0 && !r[b - 1].entry.OtherSent? {
      InsertedIndex(m, at, x, b);
      if b > 0 { InsertedIndex(m, at, x, b - 1); }
    }
  }

  lemma GenuineInsert(ops: seq<Op>, n: nat, m: seq<Mark>, at: nat, x: Mark)
    requires n < |ops| && at <= |m| && Genuine(ops, n, m)
    requires x.entry.OtherSent? && x.step < n && ops[x.step] == Begin(None) && ops[n] == Return(x.step)
    ensures Genuine(ops, n + 1, Insert(m, at, x))
  {
    var r := Insert(m, at, x);
    GenuineLater(ops, n, m);
    forall a | 0 <= a < |r| ensures r[a] == if a < at then m[a] else if a == at then x else m[a - 1] {
      InsertedIndex(m, at, x, a);
    }
    assert ops[n] == Return(x.step);
  }

  lemma GenuineLater(ops: seq<Op>, n: nat, m: seq<Mark>)
    requires n < |ops| && Genuine(ops, n, m)
    ensures Genuine(ops, n + 1, m)
  {
  }

  lemma AppendSound(ops: seq<Op>, n: nat, s: State, x: Mark)
    requires n < |ops| && Sound(ops, n, s) && !x.entry.OtherSent? && x.step == n
    requires Genuine(ops, n + 1, [x])
    ensures Sound(ops, n + 1, s.(marks := s.marks + [x]))
  {
    GenuineLater(ops, n, s.marks);
    var r := s.marks + [x];
    assert forall a :: 0 <= a < |s.marks| ==> r[a] == s.marks[a];
    assert r[|s.marks|] == x && [x][0] == x;
  }

  lemma OtherSentSound(ops: seq<Op>, n: nat, s: State, b: nat)
    requires n < |ops| && Sound(ops, n, s) && Valid(s)
    requires b in s.sends && s.sends[b].answer.None? && ops[n] == Return(b)
    ensures Sound(ops, n + 1, Step(s, ops[n], n))
  {
    var at, x := s.sends[b].beganAt, Mark(J.OtherSent, b);
    var m, r := s.marks, RecordOtherSent(s.marks, IsOtherMark, at, x);
    GenuineLater(ops, n, m);
    if r != m {
      OrderedInsert(m, at, x);
      SpreadInsert(m, at, x);
      GenuineInsert(ops, n, m, at, x);
      forall c | c in s.sends ensures ReceivedBefore(r, s.sends[c].beganAt, c) {
        ReceivedBeforeInsert(m, at, x, s.sends[c].beganAt, c);
      }
    }
  }

  lemma StepSound(ops: seq<Op>, n: nat, s: State)
    requires n < |ops| && Sound(ops, n, s) && Valid(s)
    ensures Sound(ops, n + 1, Step(s, ops[n], n))
  {
    GenuineLater(ops, n, s.marks);
    match ops[n] {
      case Receive(Some(payload)) =>
        AppendSound(ops, n, s, Mark(J.ClientTimeMsg(payload), n));
      case Return(b) =>
        if b in s.sends {
          if s.sends[b].answer.None? {
            OtherSentSound(ops, n, s, b);
          } else {
            AppendSound(ops, n, s, Mark(J.ServerTimeMsg(s.sends[b].answer.value), n));
          }
        }
      case Begin(_) =>
        assert forall a :: 0 <= a < |s.marks| ==> s.marks[a].step < n;
      case _ =>
    }
  }

  lemma NothingRecorded(ops: seq<Op>)
    ensures Sound(ops, 0, State([], map[]))
  {
  }

  /**
   Overlapping sends are recorded soundly, for any interleaving: every client/time listed
   before an other-sent had been received when a send that entry stands for began, and that
   send has returned; the list never starts with an other-sent and never holds two in a row.
   */
  lemma {:induction false} OverlappingSendsAreSound(ops: seq<Op>, n: nat)
    requires n <= |ops|
    ensures Sound(ops, n, Run(ops, n))
  {
    hide Sound, Step;
    if n == 0 {
      NothingRecorded(ops);
    } else {
      OverlappingSendsAreSound(ops, n - 1);
      StepSound(ops, n - 1, Run(ops, n - 1));
    }
  }

  /**
   What the verdict says of a message passed over is true: something else was begun after the
   client/time had been received, and was sent.
   */
  lemma PassedOverWasOvertaken(ops: seq<Op>, n: nat, a: nat) returns (b: nat)
    requires n <= |ops|
    requires var e := Entries(Run(ops, n).marks);
             a < |e| && e[a].ClientTimeMsg? && J.SentAfter(e, a, |e|)
    ensures Run(ops, n).marks[a].step < b < n
    ensures ops[b] == Begin(None) && exists r :: b < r < n && ops[r] == Return(b)
    ensures ops[Run(ops, n).marks[a].step].Receive?
  {
    OverlappingSendsAreSound(ops, n);
    hide Run;
    var m := Run(ops, n).marks;
    var o :| a < o < |m| && Entries(m)[o].OtherSent?;
    assert m[o].entry.OtherSent? && m[a].entry.ClientTimeMsg?;
    b := m[o].step;
  }
}
