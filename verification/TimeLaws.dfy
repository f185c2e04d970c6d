/**
 What an adapter may do with `other-sent` entries without changing the verdict on the
 exchange: merge them, place them early, or leave them out.
 */
module TimeLaws {
  import opened Wire
  import opened TimeJudge

  // ---- Merging ----

  /** One pass keeping an entry unless it repeats the last one kept, or nothing was kept. */
  function Compress<T>(s: seq<T>, other: T -> bool): (r: seq<T>) {
    if s == [] then []
    else
      var kept := Compress(s[..|s| - 1], other);
      var x := s[|s| - 1];
      if other(x) && (kept == [] || other(kept[|kept| - 1])) then kept else kept + [x]
  }

  lemma CompressLast<T>(front: seq<T>, x: T, other: T -> bool)
    ensures var kept := Compress(front, other);
            Compress(front + [x], other) ==
            if other(x) && (kept == [] || other(kept[|kept| - 1])) then kept else kept + [x]
  {
    assert (front + [x])[..|front|] == front;
  }

  /** The entry at `i` is an other-sent with nothing, or another other-sent, right before it. */
  predicate Redundant<T>(s: seq<T>, other: T -> bool, i: nat)
    requires i < |s|
  {
    other(s[i]) && (i == 0 || other(s[i - 1]))
  }

  /** The first `n` entries without the redundant ones. */
  function Thin<T>(s: seq<T>, other: T -> bool, n: nat): seq<T>
    requires n <= |s|
  {
    if n == 0 then []
    else Thin(s, other, n - 1) + if Redundant(s, other, n - 1) then [] else [s[n - 1]]
  }

  lemma {:induction false} ThinPrefix<T>(s: seq<T>, k: nat, other: T -> bool, n: nat)
    requires n <= k <= |s|
    ensures Thin(s[..k], other, n) == Thin(s, other, n)
  {
    if n > 0 {
      ThinPrefix(s, k, other, n - 1);
    }
  }

  /**
   The pass drops exactly the leading and the repeated entries: what it remembers, the last
   entry it kept, is as good as looking at the entry just before.
   */
  lemma {:induction false} CompressDropsRedundant<T>(s: seq<T>, other: T -> bool)
    ensures Compress(s, other) == Thin(s, other, |s|)
    ensures s != [] ==> (other(s[|s| - 1]) <==>
                           var r := Compress(s, other); r == [] || other(r[|r| - 1]))
  {
    if s != [] {
      var front := s[..|s| - 1];
      CompressDropsRedundant(front, other);
      ThinPrefix(s, |front|, other, |front|);
    }
  }

  const IsOther: Entry -> bool := (x: Entry) => x.OtherSent?

  lemma {:induction false} ScanPrefix(e: seq<Entry>, k: nat, n: nat)
    requires n <= k <= |e|
    ensures Scan(e[..k], n) == Scan(e, n)
  {
    if n > 0 {
      ScanPrefix(e, k, n - 1);
    }
  }

  function Next(p: Progress, x: Entry): Progress {
    if p.Running? then Advance(p.state, x) else p
  }

  lemma ScanLast(front: seq<Entry>, x: Entry)
    ensures Scan(front + [x], |front| + 1) == Next(Scan(front, |front|), x)
  {
    assert (front + [x])[..|front|] == front;
    ScanPrefix(front + [x], |front|, |front|);
  }

  /** After an other-sent, or with nothing received, a further other-sent changes nothing. */
  predicate Idle(e: seq<Entry>, p: Progress) {
    p.Running? && (e == [] || e[|e| - 1].OtherSent?) ==> Positions(p.state.unanswered) <= p.state.passedOver
  }

  lemma IdleStep(p: Progress)
    ensures var r := Next(p, OtherSent);
            && (p.Running? ==> r.Running? && Positions(r.state.unanswered) <= r.state.passedOver)
            && (p.Running? && Positions(p.state.unanswered) <= p.state.passedOver ==> r == p)
            && (p.Stopped? ==> r == p)
  {
  }

  lemma {:induction false} CompressionKeepsScan(e: seq<Entry>)
    ensures var r := Compress(e, IsOther);
            && Scan(r, |r|) == Scan(e, |e|)
            && Idle(r, Scan(r, |r|))
  {
    if e != [] {
      var front, x := e[..|e| - 1], e[|e| - 1];
      CompressionKeepsScan(front);
      var kept := Compress(front, IsOther);
      assert e == front + [x];
      hide Scan, Compress, Next;
      CompressLast(front, x, IsOther);
      ScanLast(front, x);
      ScanLast(kept, x);
      IdleStep(Scan(kept, |kept|));
    }
  }

  /** Merging other-sent entries keeps the verdict, its position and its reason included. */
  lemma CompressionKeepsVerdict(e: seq<Entry>)
    ensures Judge(Some(Compress(e, IsOther))) == Judge(Some(e))
  {
    CompressionKeepsScan(e);
  }

  // ---- Placing early, or leaving out ----

  /**
   `p` witnesses no more than `q`: they differ at most in what was passed over, and every
   message still unanswered that `p` passes over, `q` does too.
   */
  predicate Milder(p: Progress, q: Progress) {
    match (p, q)
    case (Running(s), Running(t)) =>
      && s == t.(passedOver := s.passedOver)
      && Positions(s.unanswered) * s.passedOver <= t.passedOver
    case (Stopped(v), Stopped(w)) => v == w
    case _ => false
  }

  lemma RemovedPositions(pending: seq<Pending>, at: nat)
    requires at < |pending|
    ensures Positions(RemoveAt(pending, at)) <= Positions(pending)
  {
    var rest := RemoveAt(pending, at);
    forall i | 0 <= i < |rest| ensures rest[i].position in Positions(pending) {
      assert rest[i] == pending[if i < at then i else i + 1];
    }
  }

  lemma AddedPosition(pending: seq<Pending>, x: Pending)
    ensures Positions(pending + [x]) == Positions(pending) + {x.position}
  {
    var more := pending + [x];
    assert forall i :: 0 <= i < |pending| ==> more[i] == pending[i];
    assert more[|pending|] == x;
  }

  /** The positions a state speaks of are among those received. */
  predicate Bounded(p: Progress) {
    p.Running? ==>
      && (forall q :: q in Positions(p.state.unanswered) ==> q <= p.state.received)
      && (forall q :: q in p.state.passedOver ==> q <= p.state.received)
  }

  /** The judge going on from `p` over further entries. */
  function Continue(p: Progress, b: seq<Entry>): Progress {
    if b == [] then p else Next(Continue(p, b[..|b| - 1]), b[|b| - 1])
  }

  lemma {:induction false} ScanAppend(a: seq<Entry>, b: seq<Entry>)
    ensures Scan(a + b, |a + b|) == Continue(Scan(a, |a|), b)
  {
    if b == [] {
      assert a + b == a;
    } else {
      var n := |a + b| - 1;
      ScanAppend(a, b[..|b| - 1]);
      assert (a + b)[..n] == a + b[..|b| - 1];
      ScanPrefix(a + b, n, n);
    }
  }

  lemma BoundedStep(p: Progress, x: Entry)
    requires Bounded(p)
    ensures Bounded(Next(p, x))
  {
    if p.Running? && Next(p, x).Running? {
      match x
      case OtherSent =>
      case ServerTimeMsg(payload) =>
        RemovedPositions(p.state.unanswered, FirstMatch(p.state.unanswered, payload.clientTransmitted.n).value);
      case ClientTimeMsg(payload) =>
        var sent := Pending(p.state.received + 1, Transmitted(payload).value);
        AddedPosition(p.state.unanswered, sent);
        assert Positions(Next(p, x).state.unanswered) == Positions(p.state.unanswered) + {sent.position};
    }
  }

  lemma MilderStep(p: Progress, q: Progress, x: Entry)
    requires Milder(p, q) && Bounded(p)
    ensures Milder(Next(p, x), Next(q, x))
  {
    if p.Running? && Next(p, x).Running? {
      match x
      case OtherSent =>
      case ServerTimeMsg(payload) =>
        RemovedPositions(p.state.unanswered, FirstMatch(p.state.unanswered, payload.clientTransmitted.n).value);
      case ClientTimeMsg(payload) =>
        var sent := Pending(p.state.received + 1, Transmitted(payload).value);
        AddedPosition(p.state.unanswered, sent);
        assert Positions(Next(p, x).state.unanswered) == Positions(p.state.unanswered) + {sent.position};
    }
  }

  /** What follows does not undo mildness. */
  lemma {:induction false} MilderContinue(p: Progress, q: Progress, b: seq<Entry>)
    requires Milder(p, q) && Bounded(p)
    ensures Milder(Continue(p, b), Continue(q, b)) && Bounded(Continue(p, b))
  {
    if b != [] {
      MilderContinue(p, q, b[..|b| - 1]);
      MilderStep(Continue(p, b[..|b| - 1]), Continue(q, b[..|b| - 1]), b[|b| - 1]);
      BoundedStep(Continue(p, b[..|b| - 1]), b[|b| - 1]);
    }
  }

  lemma {:induction false} MilderRemaining(s: State, t: State, k: nat)
    requires Milder(Running(s), Running(t)) && k <= |s.unanswered|
    requires Remaining(t, k) == Compliant
    ensures Remaining(s, k) == Compliant
    decreases |s.unanswered| - k
  {
    if k < |s.unanswered| {
      assert s.unanswered[k].position in Positions(s.unanswered);
      MilderRemaining(s, t, k + 1);
    }
  }

  lemma MilderVerdict(p: Progress, q: Progress)
    requires Milder(p, q) && Conclude(q) == Compliant
    ensures Conclude(p) == Compliant
  {
    if p.Running? {
      MilderRemaining(p.state, q.state, 0);
    }
  }

  lemma {:induction false} ScanBounded(a: seq<Entry>)
    ensures Bounded(Scan(a, |a|))
  {
    assert [] + a == a;
    ScanAppend([], a);
    MilderContinue(Scan([], 0), Scan([], 0), a);
  }

  lemma Appended(p: Progress, x: Entry)
    ensures Continue(p, [x]) == Next(p, x)
  {
    assert [x][..0] == [];
  }

  /** Leaving an other-sent out never makes a compliant exchange a violation. */
  lemma DroppedOtherSentIsSafe(a: seq<Entry>, b: seq<Entry>)
    requires Judge(Some(a + [OtherSent] + b)) == Compliant
    ensures Judge(Some(a + b)) == Compliant
  {
    hide Scan, Continue, Conclude;
    var p := Scan(a, |a|);
    var q := Next(p, OtherSent);
    ScanAppend(a, b);
    ScanAppend(a, [OtherSent]);
    ScanAppend(a + [OtherSent], b);
    Appended(p, OtherSent);
    ScanBounded(a);
    MilderContinue(p, q, b);
    MilderVerdict(Continue(p, b), Continue(q, b));
  }

  /** Two runs agreeing in everything but what was passed over. */
  predicate SameButPassed(p: Progress, q: Progress) {
    match (p, q)
    case (Running(s), Running(t)) => s == t.(passedOver := s.passedOver)
    case (Stopped(v), Stopped(w)) => v == w
    case _ => false
  }

  lemma SamePassedStep(p: Progress, q: Progress, x: Entry)
    requires SameButPassed(p, q)
    ensures SameButPassed(Next(p, x), Next(q, x))
  {
  }

  lemma {:induction false} PassedOnlyDiffers(p: Progress, q: Progress, b: seq<Entry>)
    requires SameButPassed(p, q)
    ensures SameButPassed(Continue(p, b), Continue(q, b))
  {
    hide SameButPassed, Next;
    if b != [] {
      PassedOnlyDiffers(p, q, b[..|b| - 1]);
      SamePassedStep(Continue(p, b[..|b| - 1]), Continue(q, b[..|b| - 1]), b[|b| - 1]);
    }
  }

  /** An other-sent counted last passes over whatever is unanswered, so early is milder. */
  lemma EarlyIsMilder(p: Progress, b: seq<Entry>)
    ensures Milder(Continue(Next(p, OtherSent), b), Next(Continue(p, b), OtherSent))
  {
    PassedOnlyDiffers(Next(p, OtherSent), p, b);
  }

  /** Placing an other-sent earlier never makes a compliant exchange a violation. */
  lemma EarlyOtherSentIsSafe(a: seq<Entry>, b: seq<Entry>, c: seq<Entry>)
    requires Judge(Some(a + b + [OtherSent] + c)) == Compliant
    ensures Judge(Some(a + [OtherSent] + b + c)) == Compliant
  {
    hide Scan, Continue, Conclude;
    var p := Scan(a, |a|);
    var early, late := Continue(Next(p, OtherSent), b), Next(Continue(p, b), OtherSent);
    ScanAppend(a, b);
    ScanAppend(a, [OtherSent]);
    ScanAppend(a + [OtherSent], b);
    ScanAppend(a + b, [OtherSent]);
    Appended(p, OtherSent);
    Appended(Continue(p, b), OtherSent);
    ScanAppend(a + [OtherSent] + b, c);
    ScanAppend(a + b + [OtherSent], c);
    EarlyIsMilder(p, b);
    ScanBounded(a + [OtherSent] + b);
    MilderContinue(early, late, c);
    MilderVerdict(Continue(early, c), Continue(late, c));
  }
}
