/**
 The rule for an unanswered `client/time` as the judge's docstring words it, and where the judge
 departs from it: the docstring asks for a further `client/time` received after the other message
 was sent, the judge only for one received later than the unanswered one.
 */
module DocumentedRule {
  import opened Wire
  import opened TimeJudge

  /** Something else was sent after entry `a`, and a `client/time` was received after that. */
  predicate SentThenTime(e: seq<Entry>, a: nat) {
    exists o, b :: a < o < b < |e| && e[o].OtherSent? && e[b].ClientTimeMsg?
  }

  /** A message the docstring's wording accuses. */
  predicate WordedAccused(e: seq<Entry>, a: nat) {
    Open(e, a, |e|) && (AnsweredAfter(e, a) || SentThenTime(e, a))
  }

  /** The last `client/time` among the first `n` entries. */
  function LastTime(e: seq<Entry>, n: nat): (t: Option<nat>)
    requires n <= |e|
    ensures t.Some? ==> t.value < n && e[t.value].ClientTimeMsg?
    ensures forall k :: 0 <= k < n && e[k].ClientTimeMsg? ==> t.Some? && k <= t.value
  {
    if n == 0 then None
    else if e[n - 1].ClientTimeMsg? then Some(n - 1)
    else LastTime(e, n - 1)
  }

  /** Something else was sent after entry `a`, but only once the last `client/time` was in. */
  predicate SentTooLate(e: seq<Entry>, a: nat) {
    var last := LastTime(e, |e|);
    last.Some? && a < last.value && SentAfter(e, a, |e|) && !SentAfter(e, a, last.value)
  }

  lemma TimeAfterIs(e: seq<Entry>, a: nat)
    ensures TimeAfter(e, a) <==> LastTime(e, |e|).Some? && a < LastTime(e, |e|).value
  {
  }

  lemma SentThenTimeIs(e: seq<Entry>, a: nat)
    ensures SentThenTime(e, a) <==>
            LastTime(e, |e|).Some? && SentAfter(e, a, LastTime(e, |e|).value)
  {
    if SentThenTime(e, a) {
      var o, b :| a < o < b < |e| && e[o].OtherSent? && e[b].ClientTimeMsg?;
      assert b <= LastTime(e, |e|).value;
    }
  }

  /** What the judge asks beyond the docstring's wording, message by message. */
  lemma AccusedIs(e: seq<Entry>, a: nat)
    ensures Accused(e, a) <==>
            WordedAccused(e, a) || (Open(e, a, |e|) && !AnsweredAfter(e, a) && SentTooLate(e, a))
    ensures WordedAccused(e, a) ==> !(!AnsweredAfter(e, a) && SentTooLate(e, a))
  {
    TimeAfterIs(e, a);
    SentThenTimeIs(e, a);
    hide LastTime, Open;
    var last := LastTime(e, |e|);
    if last.Some? && SentAfter(e, a, last.value) {
      var o :| a < o < last.value && e[o].OtherSent?;
      assert SentAfter(e, a, |e|);
    }
  }

  /**
   The two accuse the same messages if and only if every unanswered `client/time` that stands
   before the last one, that no later answer overtook and that something else was sent after,
   had something else sent after it before that last one.
   */
  lemma WordingAgrees(e: seq<Entry>)
    ensures (forall a: nat :: Accused(e, a) <==> WordedAccused(e, a)) <==>
            (forall a: nat :: Open(e, a, |e|) && !AnsweredAfter(e, a) ==> !SentTooLate(e, a))
  {
    forall a: nat
      ensures (Accused(e, a) <==> WordedAccused(e, a)) <==>
              (Open(e, a, |e|) && !AnsweredAfter(e, a) ==> !SentTooLate(e, a))
    {
      AccusedIs(e, a);
    }
    hide Accused, WordedAccused, Open, AnsweredAfter, SentTooLate;
  }

  /** The first `client/time` from entry `k` on that is left unanswered. */
  function FirstOpen(e: seq<Entry>, k: nat): (a: Option<nat>)
    requires k <= |e|
    ensures a.Some? ==> k <= a.value < |e| && Open(e, a.value, |e|)
    ensures forall b :: k <= b < |e| && Open(e, b, |e|) ==> a.Some? && a.value <= b
    decreases |e| - k
  {
    if k == |e| then None
    else if Open(e, k, |e|) then Some(k)
    else FirstOpen(e, k + 1)
  }

  /** The verdict on a clean exchange under the docstring's wording: the first one accused is named. */
  function WordedVerdict(e: seq<Entry>): Verdict {
    match FirstOpen(e, 0)
    case None => Compliant
    case Some(a) => if WordedAccused(e, a) then Accusation(e, a) else Compliant
  }

  /** An accusation extends to every message left open before it, under either rule. */
  lemma EarlierOpen(e: seq<Entry>, a: nat, b: nat)
    requires a <= b && Open(e, a, |e|)
    ensures Accused(e, b) ==> Accused(e, a)
    ensures WordedAccused(e, b) ==> WordedAccused(e, a)
  {
    hide Open, Closed;
    if AnsweredAfter(e, b) {
      var c: nat :| b < c < |e| && Closed(e, c, |e|);
      assert AnsweredAfter(e, a);
    }
    if SentAfter(e, b, |e|) {
      var o :| b < o < |e| && e[o].OtherSent?;
      assert SentAfter(e, a, |e|);
    }
    if SentThenTime(e, b) {
      var o, t :| b < o < t < |e| && e[o].OtherSent? && e[t].ClientTimeMsg?;
      assert SentThenTime(e, a);
    }
  }

  /** `WordedVerdict` is what it says: compliant when nobody is accused, else the first one is named. */
  lemma WordedVerdictIs(e: seq<Entry>) returns (a: nat)
    ensures WordedVerdict(e) == Compliant <==> forall b: nat :: !WordedAccused(e, b)
    ensures WordedVerdict(e) != Compliant ==>
              && WordedAccused(e, a) && WordedVerdict(e) == Accusation(e, a)
              && forall b: nat :: b < a ==> !WordedAccused(e, b)
  {
    a := 0;
    if FirstOpen(e, 0).Some? {
      a := FirstOpen(e, 0).value;
      forall b: nat | WordedAccused(e, b) ensures a <= b && WordedAccused(e, a) {
        EarlierOpen(e, a, b);
      }
    }
  }

  /**
   The verdicts differ exactly when the first unanswered `client/time` was overtaken by no later
   answer, stands before the last one, and had something else sent after it only once that last
   one was in. Then the docstring's wording is silent and the judge names the message.
   */
  lemma VerdictsAgree(e: seq<Entry>)
    requires Clean(e, |e|)
    ensures Judge(Some(e)) == WordedVerdict(e) <==>
            match FirstOpen(e, 0)
            case None => true
            case Some(a) => AnsweredAfter(e, a) || !SentTooLate(e, a)
    ensures Judge(Some(e)) != WordedVerdict(e) ==>
            WordedVerdict(e) == Compliant && Judge(Some(e)).LeftUnanswered? && Judge(Some(e)).wentOn == SentAnother
  {
    var named := VerdictMeaning(e);
    hide Clean, Judge, Accused, WordedAccused, Open, AnsweredAfter, SentTooLate, Accusation;
    match FirstOpen(e, 0)
    case None =>
      NobodyOpen(e);
    case Some(a) =>
      forall b: nat | Accused(e, b) ensures a <= b && Accused(e, a) {
        AccusedIsOpen(e, b);
        EarlierOpen(e, a, b);
      }
      AccusedIs(e, a);
      AccusationIs(e, a);
  }

  lemma AccusedIsOpen(e: seq<Entry>, a: nat)
    ensures Accused(e, a) ==> a < |e| && Open(e, a, |e|)
  {
  }

  lemma NobodyOpen(e: seq<Entry>)
    requires FirstOpen(e, 0).None?
    ensures forall a: nat :: !Accused(e, a)
  {
    forall a: nat ensures !Accused(e, a) {
      AccusedIsOpen(e, a);
    }
  }

  lemma AccusationIs(e: seq<Entry>, a: nat)
    requires a < |e|
    ensures Accusation(e, a).LeftUnanswered?
    ensures Accusation(e, a).wentOn == if AnsweredAfter(e, a) then AnsweredLater else SentAnother
  {
  }

  function ClientTime(value: int): Entry {
    ClientTimeMsg(TimeFields(Integer(value), Absent, Absent))
  }

  /** Two unanswered messages and then another one sent: the judge names the first of them. */
  lemma SentAfterTheLast(first: int, second: int)
    ensures var e := [ClientTime(first), ClientTime(second), OtherSent];
            && Judge(Some(e)) == LeftUnanswered(1, 2, SentAnother)
            && !SentThenTime(e, 0) && Clean(e, 3) && WordedVerdict(e) == Compliant
  {
    var e := [ClientTime(first), ClientTime(second), OtherSent];
    var s := State([Pending(1, first), Pending(2, second)], 2, 0, 0, {});
    assert Scan(e, 1) == Running(State([Pending(1, first)], 1, 0, 0, {}));
    assert Scan(e, 2) == Running(s);
    assert Positions(s.unanswered) == {1, 2} by {
      assert s.unanswered[0].position == 1 && s.unanswered[1].position == 2;
    }
    assert Scan(e, 3) == Running(s.(passedOver := {1, 2}));
    ScanMeaning(e, 3);
    assert !SentThenTime(e, 0);
    SilentWording(e);
  }

  lemma SilentWording(e: seq<Entry>)
    requires |e| == 3 && e[0].ClientTimeMsg? && e[1].ClientTimeMsg? && e[2].OtherSent?
    ensures WordedVerdict(e) == Compliant
  {
    var a := WordedVerdictIs(e);
    forall b: nat ensures !WordedAccused(e, b) {
      NothingEchoed(e, 3);
    }
  }

  lemma {:induction false} NothingEchoed(e: seq<Entry>, n: nat)
    requires n <= |e| && forall k :: 0 <= k < n ==> !e[k].ServerTimeMsg?
    ensures forall b: nat :: !Closed(e, b, n)
  {
    forall b: nat | b < n && IsClientTime(e[b]) ensures !Closed(e, b, n) {
      var value := Transmitted(e[b].payload).value;
      NoEcho(e, value, n);
      SentMonotone(e, value, b, b + 1);
      assert Sent(e, value, b + 1) > 0;
    }
  }

  lemma {:induction false} NoEcho(e: seq<Entry>, value: int, n: nat)
    requires n <= |e| && forall k :: 0 <= k < n ==> !e[k].ServerTimeMsg?
    ensures Echoed(e, value, n) == 0
  {
    if n > 0 {
      NoEcho(e, value, n - 1);
    }
  }
}
