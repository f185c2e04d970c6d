/**
 The Python recorder and the judge together: a polite server, under any interleaving of its sends,
 is found free of every defect; and once every answer has returned, of every omission.
 */
module AsyncJudged {
  import opened Wire
  import opened AsyncRecorder
  import J = TimeJudge

  /** Step `k` receives a client/time carrying `value`. */
  predicate Arrives(op: Op, value: int) {
    op.Receive? && op.clientTime.Some? && J.Transmitted(op.clientTime.value) == Some(value)
  }

  /** Step `k` begins to answer `value`. */
  predicate Answering(answer: Option<TimePayload>, value: int) {
    answer.Some? && J.Transmitted(answer.value) == Some(value)
  }

  function Arrived(ops: seq<Op>, value: int, n: nat): nat
    requires n <= |ops|
  {
    if n == 0 then 0 else Arrived(ops, value, n - 1) + if Arrives(ops[n - 1], value) then 1 else 0
  }

  function Begun(ops: seq<Op>, value: int, n: nat): nat
    requires n <= |ops|
  {
    if n == 0 then 0
    else Begun(ops, value, n - 1) +
         if ops[n - 1].Begin? && Answering(ops[n - 1].answer, value) then 1 else 0
  }

  /** The client sends integers; an answer has every field, and an ordered clock. */
  predicate PoliteOp(op: Op) {
    match op
    case Receive(Some(payload)) => J.Transmitted(payload).Some?
    case Begin(Some(payload)) => J.WellFormed(J.ServerTimeMsg(payload))
    case _ => true
  }

  /** And each answer is begun after the client/time it echoes, once for each. */
  ghost predicate Polite(ops: seq<Op>, n: nat)
    requires n <= |ops|
  {
    && (forall k :: 0 <= k < n ==> PoliteOp(ops[k]))
    && (forall k: nat, value :: k <= n ==> Begun(ops, value, k) <= Arrived(ops, value, k))
  }

  /** The sends under way that answer `value`. */
  function UnderWay(s: State, value: int): set<nat> {
    set b | b in s.sends && Answering(s.sends[b].answer, value)
  }

  /** What the recorded list holds, against what has happened on the socket. */
  ghost predicate Balanced(ops: seq<Op>, n: nat, s: State)
    requires n <= |ops|
  {
    var e := Entries(s.marks);
    && J.Clean(e, |e|)
    && (forall value :: J.Sent(e, value, |e|) == Arrived(ops, value, n))
    && (forall value :: J.Echoed(e, value, |e|) + |UnderWay(s, value)| <= Begun(ops, value, n))
    && (forall b :: b in s.sends ==> b < n && PoliteOp(Begin(s.sends[b].answer)))
  }

  // ---- The judge's counts, as the list grows ----

  lemma {:induction false} CountsPrefix(a: seq<J.Entry>, b: seq<J.Entry>, value: int, k: nat)
    requires k <= |a|
    ensures J.Sent(a + b, value, k) == J.Sent(a, value, k)
    ensures J.Echoed(a + b, value, k) == J.Echoed(a, value, k)
  {
    if k > 0 {
      CountsPrefix(a, b, value, k - 1);
    }
  }

  lemma CountsAppend(e: seq<J.Entry>, x: J.Entry, value: int)
    ensures J.Sent(e + [x], value, |e| + 1) == J.Sent(e, value, |e|) + if J.Carries(x, value) then 1 else 0
    ensures J.Echoed(e + [x], value, |e| + 1) == J.Echoed(e, value, |e|) + if J.Echoes(x, value) then 1 else 0
  {
    CountsPrefix(e, [x], value, |e|);
  }

  lemma CleanAppend(e: seq<J.Entry>, x: J.Entry)
    requires J.Clean(e, |e|) && J.WellFormed(x)
    requires x.ServerTimeMsg? ==>
               var value := x.payload.clientTransmitted.n;
               J.Echoed(e, value, |e|) < J.Sent(e, value, |e|)
    ensures J.Clean(e + [x], |e| + 1)
  {
    CleanPrefix(e, [x], |e|);
    if x.ServerTimeMsg? {
      CountsPrefix(e, [x], x.payload.clientTransmitted.n, |e|);
    }
    J.CleanStep(e + [x], |e|);
  }

  lemma CleanPrefix(a: seq<J.Entry>, b: seq<J.Entry>, n: nat)
    requires n <= |a|
    ensures J.Clean(a + b, n) <==> J.Clean(a, n)
  {
    forall k: nat, value | k <= n
      ensures J.Sent(a + b, value, k) == J.Sent(a, value, k) && J.Echoed(a + b, value, k) == J.Echoed(a, value, k)
    {
      CountsPrefix(a, b, value, k);
    }
    assert forall k :: 0 <= k < n ==> (a + b)[k] == a[k];
  }

  /** An other-sent inserted anywhere counts for nothing. */
  lemma {:induction false} CountsInsert(e: seq<J.Entry>, at: nat, value: int, k: nat)
    requires at <= |e| && k <= |e| + 1
    ensures var r, h := Insert(e, at, J.OtherSent), if k <= at then k else k - 1;
            J.Sent(r, value, k) == J.Sent(e, value, h) && J.Echoed(r, value, k) == J.Echoed(e, value, h)
  {
    if k > 0 {
      CountsInsert(e, at, value, k - 1);
      InsertedIndex(e, at, J.OtherSent, k - 1);
    }
  }

  lemma CleanInsert(e: seq<J.Entry>, at: nat)
    requires at <= |e| && J.Clean(e, |e|)
    ensures J.Clean(Insert(e, at, J.OtherSent), |e| + 1)
  {
    var r := Insert(e, at, J.OtherSent);
    forall k: nat, value | k <= |r| ensures J.Echoed(r, value, k) <= J.Sent(r, value, k) {
      CountsInsert(e, at, value, k);
      assert J.Echoed(e, value, if k <= at then k else k - 1) <= J.Sent(e, value, if k <= at then k else k - 1);
    }
    forall k | 0 <= k < |r| ensures J.WellFormed(r[k]) {
      InsertedIndex(e, at, J.OtherSent, k);
    }
  }

  // ---- One step ----

  lemma EntriesAppend(marks: seq<Mark>, x: Mark)
    ensures Entries(marks + [x]) == Entries(marks) + [x.entry]
  {
  }

  lemma ReceiveStep(ops: seq<Op>, n: nat, s: State)
    requires n < |ops| && Polite(ops, n + 1) && Valid(s) && Balanced(ops, n, s)
    requires ops[n].Receive? && ops[n].clientTime.Some?
    ensures Balanced(ops, n + 1, Step(s, ops[n], n))
  {
    var r, e, x := Step(s, ops[n], n), Entries(s.marks), J.ClientTimeMsg(ops[n].clientTime.value);
    EntriesAppend(s.marks, Mark(x, n));
    var after := Entries(r.marks);
    assert after == e + [x] && r.sends == s.sends;
    assert PoliteOp(ops[n]);
    CleanAppend(e, x);
    forall value
      ensures J.Sent(after, value, |after|) == Arrived(ops, value, n + 1)
      ensures J.Echoed(after, value, |after|) == J.Echoed(e, value, |e|)
      ensures Begun(ops, value, n + 1) == Begun(ops, value, n)
      ensures UnderWay(r, value) == UnderWay(s, value)
    {
      CountsAppend(e, x, value);
    }
    hide J.Clean, J.Sent, J.Echoed, Begun, Arrived, UnderWay, Polite, Step;
  }

  lemma MoreUnderWay(s: State, r: State, n: nat, answer: Option<TimePayload>, value: int)
    requires n !in s.sends && exists at :: r.sends == s.sends[n := Send(answer, at)]
    ensures |UnderWay(r, value)| == |UnderWay(s, value)| + if Answering(answer, value) then 1 else 0
  {
    assert UnderWay(r, value) == if Answering(answer, value) then UnderWay(s, value) + {n} else UnderWay(s, value);
  }

  lemma BeginStep(ops: seq<Op>, n: nat, s: State)
    requires n < |ops| && Polite(ops, n + 1) && Valid(s) && Balanced(ops, n, s) && ops[n].Begin?
    ensures Balanced(ops, n + 1, Step(s, ops[n], n))
  {
    var r := Step(s, ops[n], n);
    assert PoliteOp(ops[n]) && n !in s.sends && r.marks == s.marks;
    assert r.sends == s.sends[n := Send(ops[n].answer, |s.marks|)];
    hide Step, Polite, J.Clean;
    forall value
      ensures |UnderWay(r, value)| == |UnderWay(s, value)| + if Answering(ops[n].answer, value) then 1 else 0
      ensures Arrived(ops, value, n + 1) == Arrived(ops, value, n)
      ensures Begun(ops, value, n + 1) == Begun(ops, value, n) + if Answering(ops[n].answer, value) then 1 else 0
    {
      MoreUnderWay(s, r, n, ops[n].answer, value);
    }
    hide UnderWay, Answering, Begun, Arrived, Entries;
  }

  lemma LessUnderWay(s: State, r: State, b: nat, value: int)
    requires b in s.sends && r.sends == s.sends - {b}
    ensures |UnderWay(r, value)| == |UnderWay(s, value)| - if Answering(s.sends[b].answer, value) then 1 else 0
  {
    assert UnderWay(r, value) == UnderWay(s, value) - {b};
  }

  lemma OtherReturns(ops: seq<Op>, n: nat, s: State, b: nat)
    requires n < |ops| && Valid(s) && Balanced(ops, n, s) && ops[n] == Return(b)
    requires b in s.sends && s.sends[b].answer.None?
    ensures Balanced(ops, n + 1, Step(s, ops[n], n))
  {
    var r, e, at := Step(s, ops[n], n), Entries(s.marks), s.sends[b].beganAt;
    if r.marks != s.marks {
      assert Entries(r.marks) == Insert(e, at, J.OtherSent);
      CleanInsert(e, at);
    }
    forall value
      ensures J.Sent(Entries(r.marks), value, |r.marks|) == J.Sent(e, value, |e|)
      ensures J.Echoed(Entries(r.marks), value, |r.marks|) == J.Echoed(e, value, |e|)
      ensures |UnderWay(r, value)| == |UnderWay(s, value)|
    {
      LessUnderWay(s, r, b, value);
      if r.marks != s.marks {
        CountsInsert(e, at, value, |e| + 1);
      }
    }
    hide J.Clean, J.Sent, J.Echoed, UnderWay, RecordOtherSent;
  }

  lemma AnswerReturns(ops: seq<Op>, n: nat, s: State, b: nat)
    requires n < |ops| && Polite(ops, n + 1) && Valid(s) && Balanced(ops, n, s) && ops[n] == Return(b)
    requires b in s.sends && s.sends[b].answer.Some?
    ensures Balanced(ops, n + 1, Step(s, ops[n], n))
  {
    var r, e, x := Step(s, ops[n], n), Entries(s.marks), J.ServerTimeMsg(s.sends[b].answer.value);
    EntriesAppend(s.marks, Mark(x, n));
    assert PoliteOp(Begin(s.sends[b].answer));
    var echoed := x.payload.clientTransmitted.n;
    forall value ensures |UnderWay(r, value)| == |UnderWay(s, value)| - if J.Echoes(x, value) then 1 else 0 {
      LessUnderWay(s, r, b, value);
    }
    assert Begun(ops, echoed, n) <= Arrived(ops, echoed, n);
    assert |UnderWay(s, echoed)| > 0 by {
      assert b in UnderWay(s, echoed);
    }
    CleanAppend(e, x);
    forall value
      ensures J.Sent(e + [x], value, |e| + 1) == J.Sent(e, value, |e|)
      ensures J.Echoed(e + [x], value, |e| + 1) == J.Echoed(e, value, |e|) + if J.Echoes(x, value) then 1 else 0
    {
      CountsAppend(e, x, value);
    }
    hide J.Clean, J.Sent, J.Echoed, UnderWay, Polite, J.Echoes;
  }

  lemma FailStep(ops: seq<Op>, n: nat, s: State, b: nat)
    requires n < |ops| && Valid(s) && Balanced(ops, n, s) && ops[n] == Fail(b)
    ensures Balanced(ops, n + 1, Step(s, ops[n], n))
  {
    var r := Step(s, ops[n], n);
    if b in s.sends {
      forall value ensures |UnderWay(r, value)| <= |UnderWay(s, value)| {
        LessUnderWay(s, r, b, value);
      }
    } else {
      assert r.sends == s.sends;
    }
    hide J.Clean, UnderWay;
  }

  lemma BalancedStep(ops: seq<Op>, n: nat, s: State)
    requires n < |ops| && Polite(ops, n + 1) && Valid(s) && Balanced(ops, n, s)
    ensures Balanced(ops, n + 1, Step(s, ops[n], n))
  {
    match ops[n] {
      case Receive(clientTime) =>
        if clientTime.Some? { ReceiveStep(ops, n, s); } else { IdleStep(ops, n, s); }
      case Begin(_) => BeginStep(ops, n, s);
      case Fail(b) => FailStep(ops, n, s, b);
      case Return(b) =>
        if b !in s.sends { IdleStep(ops, n, s); }
        else if s.sends[b].answer.None? { OtherReturns(ops, n, s, b); }
        else { AnswerReturns(ops, n, s, b); }
    }
  }

  lemma IdleStep(ops: seq<Op>, n: nat, s: State)
    requires n < |ops| && Valid(s) && Balanced(ops, n, s)
    requires ops[n] == Receive(None) || (ops[n].Return? && ops[n].begun !in s.sends)
    ensures Balanced(ops, n + 1, Step(s, ops[n], n))
  {
    hide J.Clean, UnderWay;
  }

  lemma NothingYet(ops: seq<Op>)
    ensures Balanced(ops, 0, State([], map[]))
  {
  }

  lemma {:induction false} PoliteIsBalanced(ops: seq<Op>, n: nat)
    requires n <= |ops| && Polite(ops, n)
    ensures Balanced(ops, n, Run(ops, n))
  {
    hide Balanced, Step;
    if n == 0 {
      NothingYet(ops);
    } else {
      PolitePrefix(ops, n - 1);
      PoliteIsBalanced(ops, n - 1);
      hide Polite;
      BalancedStep(ops, n - 1, Run(ops, n - 1));
    }
  }

  lemma PolitePrefix(ops: seq<Op>, n: nat)
    requires n < |ops| && Polite(ops, n + 1)
    ensures Polite(ops, n)
  {
  }

  // ---- The verdict ----

  /**
   Whatever the interleaving, a polite server is found free of every defect, in every state: the
   verdict is compliant, or names the first client/time the record leaves unanswered and
   overtaken, and says so exactly when there is one.
   */
  lemma OnlyOmissions(ops: seq<Op>, n: nat) returns (a: nat)
    requires n <= |ops| && Polite(ops, n)
    ensures var e := Entries(Run(ops, n).marks);
            && (J.Judge(Some(e)) == J.Compliant <==> forall b: nat :: !J.Accused(e, b))
            && (J.Judge(Some(e)) != J.Compliant ==>
                  && J.Accused(e, a) && J.Judge(Some(e)) == J.Accusation(e, a)
                  && forall b: nat :: b < a ==> !J.Accused(e, b))
  {
    PoliteIsBalanced(ops, n);
    a := J.VerdictMeaning(Entries(Run(ops, n).marks));
    hide J.Judge, J.Accused, J.Accusation;
  }

  /** Every client/time received has an answer on record. */
  ghost predicate AllAnswered(ops: seq<Op>, n: nat)
    requires n <= |ops|
  {
    var e := Entries(Run(ops, n).marks);
    forall value :: J.Echoed(e, value, |e|) >= Arrived(ops, value, n)
  }

  lemma NoneOpen(ops: seq<Op>, n: nat, a: nat)
    requires n <= |ops| && Polite(ops, n) && AllAnswered(ops, n)
    ensures !J.Open(Entries(Run(ops, n).marks), a, |Run(ops, n).marks|)
  {
    PoliteIsBalanced(ops, n);
    var e := Entries(Run(ops, n).marks);
    hide Run;
    if a < |e| && J.IsClientTime(e[a]) {
      var value := J.Transmitted(e[a].payload).value;
      J.SentMonotone(e, value, a + 1, |e|);
      assert J.Echoed(e, value, |e|) >= Arrived(ops, value, n);
    }
  }

  /** Nothing unanswered, nobody named: whatever else was sent, and in whatever order it returned. */
  lemma AnsweredIsCompliant(ops: seq<Op>, n: nat)
    requires n <= |ops| && Polite(ops, n) && AllAnswered(ops, n)
    ensures J.Judge(Some(Entries(Run(ops, n).marks))) == J.Compliant
  {
    var e := Entries(Run(ops, n).marks);
    var named := OnlyOmissions(ops, n);
    forall a: nat ensures !J.Accused(e, a) {
      NoneOpen(ops, n, a);
    }
    hide J.Judge, Run;
  }

  /**
   A message named while sends are under way really is unanswered on record, and really was gone
   past: one received later has its answer on record, or another send, begun after the message
   was received, has returned and a further client/time has arrived.
   */
  lemma NamedWasGonePast(ops: seq<Op>, n: nat, a: nat) returns (b: nat)
    requires n <= |ops| && Polite(ops, n) && J.Accused(Entries(Run(ops, n).marks), a)
    ensures var m := Run(ops, n).marks;
            var e := Entries(m);
            && a < |m| && J.Open(e, a, |e|)
            && (J.AnsweredAfter(e, a) ||
                (&& J.TimeAfter(e, a) && m[a].step < b < n && ops[b] == Begin(None)
                 && exists r :: b < r < n && ops[r] == Return(b)))
  {
    b := 0;
    var e := Entries(Run(ops, n).marks);
    if !J.AnsweredAfter(e, a) {
      b := PassedOverWasOvertaken(ops, n, a);
    }
  }

  function Reading(value: int): TimePayload {
    TimeFields(Integer(value), Absent, Absent)
  }

  /** An answer is begun; another send begins and returns; a further client/time arrives. */
  function MidSend(first: int, second: int, received: int, transmitted: int): seq<Op> {
    [Receive(Some(Reading(first))), Begin(Some(TimeFields(Integer(first), Integer(received), Integer(transmitted)))),
     Begin(None), Return(2), Receive(Some(Reading(second)))]
  }

  /**
   So a snapshot between steps can name a server that has only not finished sending: its answer
   is under way and the record cannot show it.
   */
  lemma MidSendIsNamed(first: int, second: int, received: int, transmitted: int)
    requires received <= transmitted
    ensures var ops := MidSend(first, second, received, transmitted);
            && |ops| == 5 && Polite(ops, 5)
            && Entries(Run(ops, 5).marks) ==
               [J.ClientTimeMsg(Reading(first)), J.OtherSent, J.ClientTimeMsg(Reading(second))]
            && J.Judge(Some(Entries(Run(ops, 5).marks))) == J.LeftUnanswered(1, 2, J.SentAnother)
  {
    var ops := MidSend(first, second, received, transmitted);
    MidSendPolite(first, second, received, transmitted);
    MidSendMarks(first, second, received, transmitted);
    NamedThere(first, second);
    hide Run, Polite, J.Judge;
  }

  lemma MidSendPolite(first: int, second: int, received: int, transmitted: int)
    requires received <= transmitted
    ensures var ops := MidSend(first, second, received, transmitted);
            |ops| == 5 && Polite(ops, 5)
  {
    var ops := MidSend(first, second, received, transmitted);
    assert PoliteOp(ops[0]) && PoliteOp(ops[1]) && PoliteOp(ops[4]);
    forall value
      ensures Begun(ops, value, 1) == 0 && Begun(ops, value, 2) <= Arrived(ops, value, 2)
      ensures Arrived(ops, value, 1) == Arrived(ops, value, 2) == Arrived(ops, value, 3) == Arrived(ops, value, 4)
      ensures Begun(ops, value, 2) == Begun(ops, value, 3) == Begun(ops, value, 4) == Begun(ops, value, 5)
      ensures Arrived(ops, value, 4) <= Arrived(ops, value, 5)
    {
    }
    forall k: nat, value | k <= 5 ensures Begun(ops, value, k) <= Arrived(ops, value, k) {
      assert k == 0 || k == 1 || k == 2 || k == 3 || k == 4 || k == 5;
    }
  }

  lemma MidSendMarks(first: int, second: int, received: int, transmitted: int)
    ensures var ops := MidSend(first, second, received, transmitted);
            |ops| == 5 &&
            Entries(Run(ops, 5).marks) == [J.ClientTimeMsg(Reading(first)), J.OtherSent, J.ClientTimeMsg(Reading(second))]
  {
    var ops := MidSend(first, second, received, transmitted);
    var c, d, o := Mark(J.ClientTimeMsg(Reading(first)), 0), Mark(J.ClientTimeMsg(Reading(second)), 4), Mark(J.OtherSent, 2);
    assert Run(ops, 1) == State([c], map[]);
    assert Run(ops, 2) == State([c], map[1 := Send(ops[1].answer, 1)]);
    assert Run(ops, 3) == State([c], map[1 := Send(ops[1].answer, 1), 2 := Send(None, 1)]);
    assert Run(ops, 4).marks == [c, o];
    assert Run(ops, 5).marks == [c, o, d];
  }

  lemma NamedThere(first: int, second: int)
    ensures J.Judge(Some([J.ClientTimeMsg(Reading(first)), J.OtherSent, J.ClientTimeMsg(Reading(second))])) ==
            J.LeftUnanswered(1, 2, J.SentAnother)
  {
    var e := [J.ClientTimeMsg(Reading(first)), J.OtherSent, J.ClientTimeMsg(Reading(second))];
    var s := J.State([J.Pending(1, first)], 1, 0, 0, {});
    assert J.Scan(e, 1) == J.Running(s);
    assert J.Positions(s.unanswered) == {1} by {
      assert s.unanswered[0].position == 1;
    }
    assert J.Scan(e, 2) == J.Running(s.(passedOver := {1}));
    assert J.Scan(e, 3) == J.Running(J.State([J.Pending(1, first), J.Pending(2, second)], 2, 0, 0, {1}));
  }
}
