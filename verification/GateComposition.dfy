/**
 The recorder and the gate judge together: when the judge can read the recorded brackets, and
 which servers it never names.
 */
module GateComposition {
  import opened Wire
  import opened RecorderSpec
  import opened StartOrder
  import opened Brackets
  import G = GateJudge

  /** The judge calls a readable trace unrecorded exactly when its first failure is a stray `sent`. */
  lemma StrayIsUnrecorded(e: seq<G.Entry>)
    ensures G.JudgeEntries(e) == G.Unrecorded <==>
            exists j :: 0 <= j < |e| && e[j].Sent? && G.Opened(e, j).None? && forall k :: 0 <= k < j ==> G.PassesAt(e, k)
    ensures NoStray(e) ==> G.JudgeEntries(e) != G.Unrecorded
  {
    var j := G.PassMeaning(e);
    if G.JudgeEntries(e) == G.Unrecorded {
      assert e[j].Sent? && G.FailureAt(e, j) == G.Unrecorded;
    }
    if k :| 0 <= k < |e| && e[k].Sent? && G.Opened(e, k).None? && forall h :: 0 <= h < k ==> G.PassesAt(e, h) {
      assert !G.PassesAt(e, k);
      assert j == k;
    }
  }

  /** Only an arriving client/state changes the latest one. */
  lemma LatestAvailableStep(p: Parser, c: Conn, m: Traced)
    requires Valid(c)
    ensures Step(p, c, m).session.latestAvailable ==
            if InboundOf(p, m, ClientState) then p(InboundText(m.binary, m.plaintext)).available
            else c.session.latestAvailable
  {
    if m.Outbound? {
      SendKeepsLatest(p, c, m);
      hide Step;
    }
  }

  lemma SendKeepsLatest(p: Parser, c: Conn, m: Traced)
    requires Valid(c) && m.Outbound?
    ensures Step(p, c, m).session.latestAvailable == c.session.latestAvailable
  {
    hide JsonStreams, JsonMetadata, OnArtwork, BinaryAudio, ReassembledAudio, TimeEntryOf, ReadBe;
  }

  function Judged(t: seq<AvailabilityEntry>): G.Progress {
    G.Scan(GateTrace(t), |t|)
  }

  lemma JudgedAppend(t: seq<AvailabilityEntry>, x: AvailabilityEntry)
    ensures Judged(t + [x]) == G.Next(Judged(t), ToGate(x))
  {
    assert GateTrace(t + [x]) == GateTrace(t) + [ToGate(x)];
    assert (GateTrace(t) + [ToGate(x)])[..|t|] == GateTrace(t);
    G.ScanPrefix(GateTrace(t) + [ToGate(x)], |t|, |t|);
  }

  /** Neither a violation nor a gap: the verdicts that name nobody. */
  predicate Unnamed(v: G.Verdict) {
    v == G.Pass || v == G.NothingSent
  }

  lemma {:induction false} StoppedNames(e: seq<G.Entry>, n: nat)
    requires n <= |e|
    ensures G.Scan(e, n).Stopped? ==> !Unnamed(G.Scan(e, n).verdict)
  {
    if n > 0 {
      StoppedNames(e, n - 1);
    }
  }

  lemma UnnamedIsRunning(e: seq<G.Entry>)
    ensures Unnamed(G.JudgeEntries(e)) <==> G.Scan(e, |e|).Running?
  {
    StoppedNames(e, |e|);
    hide G.Scan;
  }

  // ---- A `sending` entry inserted ----

  /**
   Whether a `sending` entry fits in front of `b`, the latest state before it being available or
   not: when a `sent` comes next, the bracket that now opens here has to see an available state.
   */
  predicate Fits(available: bool, b: seq<G.Entry>) {
    forall k :: 0 <= k < |b| && b[k].Sent? && G.StatesOnly(b[..k]) ==> available || G.SeesAvailable(b[..k])
  }

  /** A bracket opened at `b`'s start and not closed within it has seen the state `b` ends on. */
  lemma {:induction false} OpenedEarlier(q: G.State, x: G.Entry, b: seq<G.Entry>)
    requires x.Sending? && NoSent(b)
    ensures var s, r := G.Continue(G.Running(q), b), G.Continue(G.Advance(q, x), b);
            && s.Running? && r.Running? && r.state.latest == s.state.latest
            && r.state.inFlight.Some?
            && (s.state.latest == Some(G.Available) ==> r.state.inFlight == Some(true))
  {
    if b != [] {
      OpenedEarlier(q, x, b[..|b| - 1]);
    }
  }

  predicate SameButHeld(p: G.Progress, q: G.Progress) {
    && p.Running? && q.Running?
    && p.state.latest == q.state.latest && p.state.inFlight == q.state.inFlight && p.state.starts == q.state.starts
  }

  /** What a closed bracket held back is read no more. */
  lemma {:induction false} HeldIsSpent(p: G.Progress, q: G.Progress, b: seq<G.Entry>)
    requires SameButHeld(p, q)
    ensures G.Continue(q, b).Running? ==> SameButHeld(G.Continue(p, b), G.Continue(q, b))
    ensures G.Continue(q, b).Stopped? ==> G.Continue(p, b).Stopped?
  {
    if b != [] {
      HeldIsSpent(p, q, b[..|b| - 1]);
    }
  }

  /** The first entry that is no state. */
  lemma {:induction false} FirstMove(b: seq<G.Entry>) returns (k: nat)
    requires !G.StatesOnly(b)
    ensures k < |b| && !b[k].StateReceived? && G.StatesOnly(b[..k])
    ensures b == b[..k] + [b[k]] + b[k + 1..]
  {
    if G.StatesOnly(b[..|b| - 1]) {
      k := |b| - 1;
    } else {
      k := FirstMove(b[..|b| - 1]);
      assert b[..|b| - 1][..k] == b[..k];
    }
  }

  lemma FitsAtMove(available: bool, b: seq<G.Entry>, k: nat)
    requires k < |b| && !b[k].StateReceived? && G.StatesOnly(b[..k])
    ensures Fits(available, b) <==> (b[k].Sent? ==> available || G.SeesAvailable(b[..k]))
  {
    PrefixStates(b, k);
    forall h | 0 <= h < |b| && b[h].Sent? && G.StatesOnly(b[..h]) ensures h == k {
      PrefixStates(b, h);
    }
  }

  lemma PrefixStates(b: seq<G.Entry>, k: nat)
    requires k <= |b|
    ensures G.StatesOnly(b[..k]) <==> forall i :: 0 <= i < k ==> b[i].StateReceived?
  {
    assert forall i :: 0 <= i < k ==> b[..k][i] == b[i];
  }

  /** One bracket reopened: what the entry that follows makes of it. */
  lemma Reopened(q: G.State, x: G.Entry, u: seq<G.Entry>, y: G.Entry)
    requires x.Sending? && G.StatesOnly(u) && !y.StateReceived?
    requires G.Next(G.Continue(G.Running(q), u), y).Running?
    ensures var s, r := G.Next(G.Continue(G.Running(q), u), y), G.Next(G.Continue(G.Advance(q, x), u), y);
            if y.Sent? ==> q.latest == Some(G.Available) || G.SeesAvailable(u) then SameButHeld(r, s)
            else r.Stopped?
  {
    G.OverStates(q, u);
    G.OverStates(G.Advance(q, x).state, u);
    hide G.Continue, G.SeesAvailable, G.StatesOnly;
  }

  /** A `sending` entry inserted before a `sent` one leaves the judge running exactly when it fits. */
  lemma InsertedExactly(q: G.State, x: G.Entry, b: seq<G.Entry>)
    requires x.Sending? && !NoSent(b) && G.Continue(G.Running(q), b).Running?
    ensures var s, r := G.Continue(G.Running(q), b), G.Continue(G.Advance(q, x), b);
            && (r.Running? <==> Fits(q.latest == Some(G.Available), b))
            && (r.Running? ==> SameButHeld(r, s))
  {
    var k := FirstMove(b);
    var u, y, v := b[..k], b[k], b[k + 1..];
    FitsAtMove(q.latest == Some(G.Available), b, k);
    SplitRun(G.Running(q), u, y, v);
    SplitRun(G.Advance(q, x), u, y, v);
    hide G.Continue, G.Advance, G.StatesOnly, G.SeesAvailable, Fits;
    var s, r := G.Next(G.Continue(G.Running(q), u), y), G.Next(G.Continue(G.Advance(q, x), u), y);
    if s.Stopped? {
      G.StaysStopped(s, v);
    }
    Reopened(q, x, u, y);
    if r.Stopped? {
      G.StaysStopped(r, v);
    } else {
      HeldIsSpent(r, s, v);
    }
  }

  lemma SplitRun(p: G.Progress, u: seq<G.Entry>, y: G.Entry, v: seq<G.Entry>)
    ensures G.Continue(p, u + [y] + v) == G.Continue(G.Next(G.Continue(p, u), y), v)
  {
    G.ContinueAppend(p, u + [y], v);
    G.ContinueAppend(p, u, [y]);
    G.ContinueOne(G.Continue(p, u), y);
  }

  /** The latest state of a list is what the judge holds at its end. */
  lemma {:induction false} HoldsLatest(e: seq<G.Entry>, n: nat)
    requires n <= |e| && G.Scan(e, n).Running?
    ensures G.Scan(e, n).state.latest == G.LatestBefore(e, n)
  {
    if n > 0 {
      HoldsLatest(e, n - 1);
    }
  }

  // ---- The judge along a run ----

  /** The server let each stream/start go while it held an available state. */
  predicate Gated(p: Parser, tr: seq<Traced>, n: nat)
    requires n <= |tr|
  {
    forall j :: 0 <= j < n && StreamStartsAt(p, tr, j) ==> Run(p, tr, j).session.latestAvailable == Some(true)
  }

  /**
   Judging has named nobody, and the judge's state mirrors the recorder's: the latest state, and
   a bracket, if one is open, that has seen an available state.
   */
  ghost predicate Mirrors(available: Option<bool>, t: seq<AvailabilityEntry>) {
    var progress := Judged(t);
    && progress.Running?
    && (available == Some(true) ==> progress.state.latest == Some(G.Available))
    && progress.state.inFlight == if IsOpen(GateTrace(t)) then Some(true) else None
  }

  predicate FitsAt(t: seq<AvailabilityEntry>, at: nat)
    requires at <= |t|
  {
    Fits(G.LatestBefore(GateTrace(t[..at]), at) == Some(G.Available), GateTrace(t[at..]))
  }

  lemma FreshFits(t: seq<AvailabilityEntry>, at: nat)
    requires at <= |t| && NoSentFrom(t, at)
    ensures FitsAt(t, at)
  {
  }

  /** What inserting a `sending` entry does to the judge. */
  lemma JudgedInsert(t: seq<AvailabilityEntry>, at: nat, roles: seq<string>)
    requires at <= |t| && Mirrors(Some(true), t)
    ensures var r := Insert(t, at, StreamStartEntry(false, roles));
            && (Judged(r).Running? <==> FitsAt(t, at))
            && (FitsAt(t, at) ==> Mirrors(Some(true), r))
  {
    var a, x, b := GateTrace(t[..at]), G.Sending(roles), GateTrace(t[at..]);
    GateInsert(t, at, roles);
    InsertedSending(t, at, roles);
    hide NoSent, GateTrace, IsOpen, NoStray, Alternating, G.Advance, G.LatestBefore, Fits, G.Continue, G.Scan;
    JudgedParts(a, x, b);
    var q := G.Scan(a, |a|);
    if q.Stopped? {
      G.StaysStopped(q, b);
    } else {
      HoldsLatest(a, |a|);
      if NoSent(b) {
        OpenedEarlier(q.state, x, b);
        FreshFits(t, at);
      } else {
        InsertedExactly(q.state, x, b);
      }
    }
  }

  lemma JudgedParts(a: seq<G.Entry>, x: G.Entry, b: seq<G.Entry>)
    ensures G.Scan(a + b, |a + b|) == G.Continue(G.Scan(a, |a|), b)
    ensures G.Scan(a + [x] + b, |a + [x] + b|) == G.Continue(G.Next(G.Scan(a, |a|), x), b)
  {
    G.ScanAppend(a, b);
    G.ScanAppend(a + [x], b);
    G.ScanAppend(a, [x]);
    G.ContinueOne(G.Scan(a, |a|), x);
  }

  /** What a write adds closes a good bracket exactly when one was open and one was waiting. */
  lemma JudgedWrite(t: seq<AvailabilityEntry>, starts: seq<seq<string>>, available: Option<bool>)
    requires Mirrors(available, t)
    ensures var r := t + SentEntries(starts);
            && (Judged(r).Running? <==> starts == [] || (|starts| == 1 && IsOpen(GateTrace(t))))
            && (Judged(r).Running? ==> Mirrors(available, r))
    decreases |starts|
  {
    hide Judged, IsOpen, GateTrace;
    if starts == [] {
      assert t + SentEntries(starts) == t;
    } else {
      var front, x := starts[..|starts| - 1], StreamStartEntry(true, starts[|starts| - 1]);
      assert t + SentEntries(starts) == t + SentEntries(front) + [x];
      JudgedWrite(t, front, available);
      JudgedAppend(t + SentEntries(front), x);
      SentCloses(t + SentEntries(front), x);
      if front == [] {
        assert t + SentEntries(front) == t;
      } else {
        AppendedSents(t, front);
      }
    }
  }

  lemma SentCloses(t: seq<AvailabilityEntry>, x: AvailabilityEntry)
    requires x.StreamStartEntry? && x.sent
    ensures !IsOpen(GateTrace(t + [x]))
  {
    assert GateTrace(t + [x]) == GateTrace(t) + [ToGate(x)];
    SameBefore(GateTrace(t), ToGate(x));
  }

  lemma JudgedArrival(p: Parser, t: seq<AvailabilityEntry>, m: Traced, available: Option<bool>)
    requires Mirrors(available, t)
    ensures var after := if InboundOf(p, m, ClientState)
                         then p(InboundText(m.binary, m.plaintext)).available else available;
            Mirrors(after, t + StateArriving(p, m))
  {
    hide Judged, IsOpen, GateTrace;
    AppendedState(p, t, m);
    var d := StateArriving(p, m);
    if d == [] {
      assert t + d == t;
    } else {
      assert d == [d[0]];
      JudgedAppend(t, d[0]);
    }
  }

  ghost predicate MirrorsRun(p: Parser, tr: seq<Traced>, n: nat)
    requires n <= |tr|
  {
    Mirrors(Run(p, tr, n).session.latestAvailable, Run(p, tr, n).streams.trace)
  }

  /** What a step has to meet: a write finds one fresh stream/start, and a stream/start fits. */
  ghost predicate GoodStep(p: Parser, tr: seq<Traced>, n: nat)
    requires n < |tr|
  {
    && (tr[n].Written? ==> OneFresh(p, tr, n))
    && (StreamStartsAt(p, tr, n) ==> FitsInPlace(p, tr, n))
  }

  /** The stream/start completing at step `n` fits where it goes. */
  ghost predicate FitsInPlace(p: Parser, tr: seq<Traced>, n: nat)
    requires n < |tr| && StreamStartsAt(p, tr, n)
  {
    && PlaceFor(p, tr, n) <= |Run(p, tr, n).streams.trace|
    && FitsAt(Run(p, tr, n).streams.trace, PlaceFor(p, tr, n))
  }

  lemma MirrorsStep(p: Parser, tr: seq<Traced>, n: nat)
    requires n < |tr| && Gated(p, tr, n + 1) && MirrorsRun(p, tr, n)
    ensures Judged(Run(p, tr, n + 1).streams.trace).Running? <==> GoodStep(p, tr, n)
    ensures GoodStep(p, tr, n) ==> MirrorsRun(p, tr, n + 1)
  {
    var c := Run(p, tr, n);
    var t, available, starts := c.streams.trace, c.session.latestAvailable, PendingStarts(p, tr, n);
    PlacementHolds(p, tr, n);
    TraceStep(p, tr, n);
    FreshStep(p, tr, n);
    LatestAvailableStep(p, c, tr[n]);
    assert StreamStartsAt(p, tr, n) ==> available == Some(true);
    hide Gated, AnyFresh, Published, Step, IsOpen, FitsAt, Judged, GateTrace, AllFresh, NoSentFrom;
    assert tr[n].Written? || tr[n].Inbound? ==> !StreamStartsAt(p, tr, n) by { assert Start(tr, n).Some? ==> tr[n].Outbound?; }
    if tr[n].Written? {
      JudgedWrite(t, starts, available);
    } else if tr[n].Inbound? {
      JudgedArrival(p, t, tr[n], available);
    } else if StreamStartsAt(p, tr, n) {
      JudgedInsert(t, PlaceFor(p, tr, n), p(MessageAt(tr, n).body).roles);
    }
  }

  ghost predicate NeverNamed(p: Parser, tr: seq<Traced>, n: nat)
    requires n <= |tr|
  {
    forall m :: 0 <= m <= n ==> Unnamed(G.JudgeEntries(TraceAt(p, tr, m)))
  }

  ghost predicate AllGood(p: Parser, tr: seq<Traced>, n: nat)
    requires n <= |tr|
  {
    forall j :: 0 <= j < n ==> GoodStep(p, tr, j)
  }

  /**
   The gate verdict on a server that lets each stream/start go only while it holds an available
   state, exactly: no state up to step `n` is reported, as a violation or a gap, if and only if
   each write found at most one stream/start waiting, begun since one was last published, and
   each stream/start, where its `sending` entry went, did not leave a bracket already closed
   without an available state.
   */
  lemma {:induction false} NamedExactly(p: Parser, tr: seq<Traced>, n: nat)
    requires n <= |tr| && Gated(p, tr, n)
    ensures NeverNamed(p, tr, n) <==> AllGood(p, tr, n)
    ensures AllGood(p, tr, n) ==> MirrorsRun(p, tr, n)
  {
    hide GoodStep, MirrorsRun, Run, G.JudgeEntries, StreamStartsAt, Judged;
    UnnamedIsRunning(TraceAt(p, tr, n));
    if n == 0 {
      MirrorsNothing(p, tr);
    } else {
      NamedExactly(p, tr, n - 1);
      assert AllGood(p, tr, n) <==> AllGood(p, tr, n - 1) && GoodStep(p, tr, n - 1);
      assert NeverNamed(p, tr, n) <==> NeverNamed(p, tr, n - 1) && Unnamed(G.JudgeEntries(TraceAt(p, tr, n)));
      JudgedIs(p, tr, n);
      if AllGood(p, tr, n - 1) {
        MirrorsStep(p, tr, n - 1);
      }
    }
  }

  lemma JudgedIs(p: Parser, tr: seq<Traced>, n: nat)
    requires n <= |tr|
    ensures Judged(Run(p, tr, n).streams.trace) == G.Scan(TraceAt(p, tr, n), |TraceAt(p, tr, n)|)
  {
  }

  lemma MirrorsNothing(p: Parser, tr: seq<Traced>)
    ensures MirrorsRun(p, tr, 0) && Unnamed(G.JudgeEntries(TraceAt(p, tr, 0)))
  {
  }

  /** Whatever began since the last write that published one fits where it goes. */
  lemma FreshIsGood(p: Parser, tr: seq<Traced>, n: nat)
    requires n < |tr| && (tr[n].Written? ==> OneFresh(p, tr, n))
    requires StreamStartsAt(p, tr, n) ==> Start(tr, n).value >= Published(p, tr, n)
    ensures GoodStep(p, tr, n)
  {
    PlacementHolds(p, tr, n);
    TraceStep(p, tr, n);
    hide Run, Published, Placement, FitsAt, NoSentFrom, OneFresh;
    assert tr[n].Written? || tr[n].Inbound? ==> !StreamStartsAt(p, tr, n) by { assert Start(tr, n).Some? ==> tr[n].Outbound?; }
    if StreamStartsAt(p, tr, n) {
      PlacedFresh(p, tr, n);
      FreshFits(Run(p, tr, n).streams.trace, PlaceFor(p, tr, n));
    }
  }

  /** Each write found at most one stream/start waiting, and each was begun since the last publishing write. */
  predicate Settled(p: Parser, tr: seq<Traced>, n: nat)
    requires n <= |tr|
  {
    FreshAtWrites(p, tr, n) && AllFresh(p, tr, n)
  }

  lemma LastStep(p: Parser, tr: seq<Traced>, n: nat)
    requires n < |tr| && Settled(p, tr, n + 1)
    ensures Settled(p, tr, n) && (tr[n].Written? ==> OneFresh(p, tr, n))
    ensures StreamStartsAt(p, tr, n) ==> Start(tr, n).value >= Published(p, tr, n)
  {
    FreshStep(p, tr, n);
    hide AllFresh, StreamStartsAt, Published, PendingStarts;
    assert tr[n].Written? ==> OneFresh(p, tr, n);
  }

  lemma {:induction false} SettledIsGood(p: Parser, tr: seq<Traced>, n: nat)
    requires n <= |tr| && Settled(p, tr, n)
    ensures AllGood(p, tr, n)
  {
    hide Settled, GoodStep, Published, OneFresh, StreamStartsAt;
    if n > 0 {
      LastStep(p, tr, n - 1);
      SettledIsGood(p, tr, n - 1);
      FreshIsGood(p, tr, n - 1);
    }
  }

  /**
   No false accusation at the gate: a server that lets each stream/start go only while it holds
   an available state, and whose stream/starts are settled, in however many frames, is never
   reported in any state.
   */
  lemma GateNeverAccuses(p: Parser, tr: seq<Traced>, n: nat)
    requires n <= |tr| && Settled(p, tr, n) && Gated(p, tr, n)
    ensures NeverNamed(p, tr, n)
  {
    SettledIsGood(p, tr, n);
    NamedExactly(p, tr, n);
  }
}
