/**
 How the recorded brackets around stream/starts stand to each other, for every trace: they are
 always balanced; and they close, and alternate, exactly when each stream/start was begun after
 the last write that published one.
 */
module Brackets {
  import opened Wire
  import opened RecorderSpec
  import opened StartOrder
  import G = GateJudge

  // ---- Counting ----

  function Sendings(t: seq<AvailabilityEntry>): nat {
    if t == [] then 0
    else Sendings(t[..|t| - 1]) + if t[|t| - 1].StreamStartEntry? && !t[|t| - 1].sent then 1 else 0
  }

  function Sents(t: seq<AvailabilityEntry>): nat {
    if t == [] then 0
    else Sents(t[..|t| - 1]) + if t[|t| - 1].StreamStartEntry? && t[|t| - 1].sent then 1 else 0
  }

  lemma {:induction false} CountsAppend(a: seq<AvailabilityEntry>, b: seq<AvailabilityEntry>)
    ensures Sendings(a + b) == Sendings(a) + Sendings(b)
    ensures Sents(a + b) == Sents(a) + Sents(b)
  {
    if b == [] {
      assert a + b == a;
    } else {
      CountsAppend(a, b[..|b| - 1]);
      assert (a + b)[..|a + b| - 1] == a + b[..|b| - 1];
    }
  }

  /** In every prefix, no more stream/starts were written than began to be sent. */
  ghost predicate Balanced(t: seq<AvailabilityEntry>) {
    forall k :: 0 <= k <= |t| ==> Sents(t[..k]) <= Sendings(t[..k])
  }

  lemma {:induction false} SentEntriesCount(starts: seq<seq<string>>)
    ensures Sents(SentEntries(starts)) == |starts| && Sendings(SentEntries(starts)) == 0
  {
    if starts != [] {
      SentEntriesCount(starts[..|starts| - 1]);
      assert SentEntries(starts)[..|starts| - 1] == SentEntries(starts[..|starts| - 1]);
    }
  }

  lemma OneCount(x: AvailabilityEntry)
    ensures Sendings([x]) == if x.StreamStartEntry? && !x.sent then 1 else 0
    ensures Sents([x]) == if x.StreamStartEntry? && x.sent then 1 else 0
  {
    assert [x][..0] == [];
  }

  lemma InsertCounts(t: seq<AvailabilityEntry>, at: nat, x: AvailabilityEntry)
    requires at <= |t|
    ensures Sendings(Insert(t, at, x)) == Sendings(t) + Sendings([x])
    ensures Sents(Insert(t, at, x)) == Sents(t) + Sents([x])
  {
    hide Sendings, Sents;
    assert t == t[..at] + t[at..];
    CountsAppend(t[..at], t[at..]);
    CountsAppend(t[..at], [x]);
    CountsAppend(t[..at] + [x], t[at..]);
  }

  /** A `sending` entry may be inserted anywhere. */
  lemma InsertSending(t: seq<AvailabilityEntry>, at: nat, roles: seq<string>)
    requires at <= |t| && Balanced(t)
    ensures var r := Insert(t, at, StreamStartEntry(false, roles));
            Balanced(r) && Sendings(r) == Sendings(t) + 1 && Sents(r) == Sents(t)
  {
    var x := StreamStartEntry(false, roles);
    var r := Insert(t, at, x);
    OneCount(x);
    InsertCounts(t, at, x);
    hide Sendings, Sents;
    forall k | 0 <= k <= |r| ensures Sents(r[..k]) <= Sendings(r[..k]) {
      InsertPrefix(t, at, x, k);
      if k > at { InsertCounts(t[..k - 1], at, x); }
    }
  }

  lemma InsertPrefix<T>(t: seq<T>, at: nat, x: T, k: nat)
    requires at <= |t| && k <= |t| + 1
    ensures Insert(t, at, x)[..k] == if k <= at then t[..k] else Insert(t[..k - 1], at, x)
  {
  }

  lemma AppendState(t: seq<AvailabilityEntry>, x: AvailabilityEntry)
    requires Balanced(t) && x.ClientStateEntry?
    ensures Balanced(t + [x]) && Sendings(t + [x]) == Sendings(t) && Sents(t + [x]) == Sents(t)
  {
    OneCount(x);
    CountsAppend(t, [x]);
    forall k | 0 <= k <= |t + [x]| ensures Sents((t + [x])[..k]) <= Sendings((t + [x])[..k]) {
      if k <= |t| {
        assert (t + [x])[..k] == t[..k];
      } else {
        assert (t + [x])[..k] == t + [x] && t[..|t|] == t;
      }
    }
  }

  /** As many `sent` entries may follow as there are sends not yet written. */
  lemma AppendSents(t: seq<AvailabilityEntry>, starts: seq<seq<string>>)
    requires Balanced(t) && Sendings(t) == Sents(t) + |starts|
    ensures var r := t + SentEntries(starts);
            Balanced(r) && Sendings(r) == Sents(r)
  {
    var b := SentEntries(starts);
    SentEntriesCount(starts);
    CountsAppend(t, b);
    forall k | 0 <= k <= |t + b| ensures Sents((t + b)[..k]) <= Sendings((t + b)[..k]) {
      if k <= |t| {
        assert (t + b)[..k] == t[..k];
      } else {
        var m := k - |t|;
        assert (t + b)[..k] == t + b[..m] && b[..m] == SentEntries(starts[..m]);
        SentEntriesCount(starts[..m]);
        CountsAppend(t, b[..m]);
      }
    }
  }

  ghost predicate StreamsBalanced(s: Streams) {
    Balanced(s.trace) && Sendings(s.trace) == Sents(s.trace) + |s.unwritten|
  }

  /** What one step does to the brackets. */
  lemma StreamsStep(p: Parser, c: Conn, m: Traced)
    requires Valid(c)
    ensures var s, r := c.streams, Step(p, c, m).streams;
            || r == s
            || r == Streams(s.trace + SentEntries(s.unwritten), [])
            || (exists x: AvailabilityEntry :: x.ClientStateEntry? && r == Streams(s.trace + [x], s.unwritten))
            || (exists at: nat, roles :: at <= |s.trace| &&
                  r == Streams(Insert(s.trace, at, StreamStartEntry(false, roles)), s.unwritten + [roles]))
  {
    var s, r := c.streams, Step(p, c, m).streams;
    match m {
      case Written(_) =>
      case Inbound(binary, plaintext) =>
        if InboundOf(p, m, ClientState) {
          var x := ClientStateEntry(p(InboundText(binary, plaintext)).available);
          assert r == Streams(s.trace + [x], s.unwritten);
        }
      case Outbound(_, _, _) =>
        if Whole(m) && WholeMessage(m).id == JSON_MESSAGE_ID {
          JsonStreamsStep(s, p(WholeMessage(m).body), |s.trace|);
        } else if Frag(m) {
          FragmentEffect(p, c, m);
          var f := Collected(c, m.plaintext);
          if Last(m) && f.kind == Some(JSON_MESSAGE_ID) {
            JsonStreamsStep(s, p(f.data), f.position.availability);
          }
        }
    }
  }

  lemma JsonStreamsStep(s: Streams, body: Body, at: nat)
    requires at <= |s.trace|
    ensures var r := JsonStreams(s, body, at);
            || r == s
            || (exists at: nat, roles :: at <= |s.trace| &&
                  r == Streams(Insert(s.trace, at, StreamStartEntry(false, roles)), s.unwritten + [roles]))
  {
  }

  /**
   Recorder brackets are balanced: in every prefix of every reachable availability trace there
   are at most as many `sent` as `sending` entries, and their difference over the whole trace
   is the number of stream/starts not yet written.
   */
  lemma {:induction false} BracketsBalanced(p: Parser, tr: seq<Traced>, n: nat)
    requires n <= |tr|
    ensures StreamsBalanced(Run(p, tr, n).streams)
  {
    hide Step;
    if n > 0 {
      BracketsBalanced(p, tr, n - 1);
      var s, r := Run(p, tr, n - 1).streams, Run(p, tr, n).streams;
      StreamsStep(p, Run(p, tr, n - 1), tr[n - 1]);
      if r == s {
      } else if r == Streams(s.trace + SentEntries(s.unwritten), []) {
        AppendSents(s.trace, s.unwritten);
      } else if x: AvailabilityEntry :| x.ClientStateEntry? && r == Streams(s.trace + [x], s.unwritten) {
        AppendState(s.trace, x);
      } else {
        var at: nat, roles :| at <= |s.trace| &&
          r == Streams(Insert(s.trace, at, StreamStartEntry(false, roles)), s.unwritten + [roles]);
        InsertSending(s.trace, at, roles);
      }
    }
  }

  // ---- The trace as the judge reads it ----

  function ToGate(x: AvailabilityEntry): G.Entry {
    match x
    case ClientStateEntry(None) => G.StateReceived(G.NoBoolean)
    case ClientStateEntry(Some(v)) => G.StateReceived(if v then G.Available else G.Unavailable)
    case StreamStartEntry(sent, roles) => if sent then G.Sent(roles) else G.Sending(roles)
  }

  /** The availability trace as the judge reads it. */
  function GateTrace(t: seq<AvailabilityEntry>): (r: seq<G.Entry>)
    ensures |r| == |t|
  {
    seq(|t|, i requires 0 <= i < |t| => ToGate(t[i]))
  }

  function TraceAt(p: Parser, tr: seq<Traced>, n: nat): seq<G.Entry>
    requires n <= |tr|
  {
    GateTrace(Run(p, tr, n).streams.trace)
  }

  predicate IsOpen(e: seq<G.Entry>) {
    G.Opened(e, |e|).Some?
  }

  /** Every `sent` closes a bracket. */
  ghost predicate NoStray(e: seq<G.Entry>) {
    forall j :: 0 <= j < |e| && e[j].Sent? ==> G.Opened(e, j).Some?
  }

  /** Brackets alternate: every `sent` closes one, and no `sending` opens one inside another. */
  ghost predicate Alternating(e: seq<G.Entry>) {
    forall j :: 0 <= j < |e| ==> InTurn(e, j)
  }

  predicate InTurn(e: seq<G.Entry>, j: nat)
    requires j < |e|
  {
    && (e[j].Sent? ==> G.Opened(e, j).Some?)
    && (e[j].Sending? ==> G.Opened(e, j).None?)
  }

  predicate NoSent(b: seq<G.Entry>) {
    forall j :: 0 <= j < |b| ==> !b[j].Sent?
  }

  // ---- What follows, given whether a bracket is open ----

  /** Whether a bracket is open after `b`, given whether one was before. */
  predicate OpenAfter(open: bool, b: seq<G.Entry>) {
    if b == [] then open
    else
      match b[|b| - 1]
      case Sending(_) => true
      case Sent(_) => false
      case StateReceived(_) => OpenAfter(open, b[..|b| - 1])
  }

  predicate NoStrayAfter(open: bool, b: seq<G.Entry>) {
    b != [] ==>
      var front := b[..|b| - 1];
      NoStrayAfter(open, front) && (b[|b| - 1].Sent? ==> OpenAfter(open, front))
  }

  predicate AlternatingAfter(open: bool, b: seq<G.Entry>) {
    b != [] ==>
      var front := b[..|b| - 1];
      && AlternatingAfter(open, front)
      && (b[|b| - 1].Sent? ==> OpenAfter(open, front))
      && (b[|b| - 1].Sending? ==> !OpenAfter(open, front))
  }

  lemma {:induction false} OpenedPrefix(a: seq<G.Entry>, b: seq<G.Entry>, j: nat)
    requires j <= |a|
    ensures G.Opened(a + b, j) == G.Opened(a, j)
  {
    if j > 0 {
      OpenedPrefix(a, b, j - 1);
    }
  }

  lemma SameBefore(e: seq<G.Entry>, x: G.Entry)
    ensures IsOpen(e + [x]) == match x case Sending(_) => true case Sent(_) => false case _ => IsOpen(e)
    ensures forall j :: 0 <= j <= |e| ==> G.Opened(e + [x], j) == G.Opened(e, j)
  {
    OpenedPrefix(e, [x], |e|);
    forall j | 0 <= j <= |e| ensures G.Opened(e + [x], j) == G.Opened(e, j) {
      OpenedPrefix(e, [x], j);
    }
  }

  lemma StrayAppend(e: seq<G.Entry>, x: G.Entry)
    ensures NoStray(e + [x]) <==> NoStray(e) && (x.Sent? ==> IsOpen(e))
  {
    SameBefore(e, x);
    hide G.Opened;
    var r := e + [x];
    assert r[|e|] == x && forall j :: 0 <= j < |e| ==> r[j] == e[j];
    if NoStray(r) {
      forall j | 0 <= j < |e| && e[j].Sent? ensures G.Opened(e, j).Some? {
        assert r[j].Sent?;
      }
    }
  }

  lemma TurnAppend(e: seq<G.Entry>, x: G.Entry)
    ensures Alternating(e + [x]) <==> Alternating(e) && (x.Sent? ==> IsOpen(e)) && (x.Sending? ==> !IsOpen(e))
  {
    SameBefore(e, x);
    hide G.Opened;
    var r := e + [x];
    assert forall j :: 0 <= j < |e| ==> r[j] == e[j] && InTurn(r, j) == InTurn(e, j);
    assert r[|e|] == x;
    hide InTurn;
    assert InTurn(r, |e|) <==> (x.Sent? ==> IsOpen(e)) && (x.Sending? ==> !IsOpen(e)) by { LastInTurn(e, x); }
    if Alternating(r) {
      forall j | 0 <= j < |e| ensures InTurn(e, j) {
        assert InTurn(r, j);
      }
    }
  }

  lemma LastInTurn(e: seq<G.Entry>, x: G.Entry)
    ensures InTurn(e + [x], |e|) <==> (x.Sent? ==> IsOpen(e)) && (x.Sending? ==> !IsOpen(e))
  {
    SameBefore(e, x);
    hide G.Opened;
  }

  lemma AppendOne(e: seq<G.Entry>, x: G.Entry)
    ensures IsOpen(e + [x]) == match x case Sending(_) => true case Sent(_) => false case _ => IsOpen(e)
    ensures NoStray(e + [x]) <==> NoStray(e) && (x.Sent? ==> IsOpen(e))
    ensures Alternating(e + [x]) <==> Alternating(e) && (x.Sent? ==> IsOpen(e)) && (x.Sending? ==> !IsOpen(e))
  {
    hide NoStray, Alternating;
    SameBefore(e, x);
    StrayAppend(e, x);
    TurnAppend(e, x);
  }

  lemma {:induction false} AppendAll(a: seq<G.Entry>, b: seq<G.Entry>)
    ensures IsOpen(a + b) == OpenAfter(IsOpen(a), b)
    ensures NoStray(a + b) <==> NoStray(a) && NoStrayAfter(IsOpen(a), b)
    ensures Alternating(a + b) <==> Alternating(a) && AlternatingAfter(IsOpen(a), b)
  {
    hide IsOpen, NoStray, Alternating;
    if b == [] {
      assert a + b == a;
    } else {
      var front, x := b[..|b| - 1], b[|b| - 1];
      AppendAll(a, front);
      AppendOne(a + front, x);
      assert a + b == (a + front) + [x];
    }
  }

  /** What an open bracket before `b` changes. */
  lemma {:induction false} OpenBefore(open: bool, b: seq<G.Entry>)
    ensures OpenAfter(true, b) == (OpenAfter(open, b) || NoSent(b))
    ensures NoStrayAfter(open, b) ==> NoStrayAfter(true, b)
    ensures AlternatingAfter(open, b) ==>
              (AlternatingAfter(true, b) && !open <==> !OpenAfter(open, b) && NoSent(b))
  {
    if b != [] {
      var front := b[..|b| - 1];
      OpenBefore(open, front);
      assert NoSent(b) <==> NoSent(front) && !b[|b| - 1].Sent? by {
        assert b == front + [b[|b| - 1]];
      }
    }
  }

  /** A `sending` inserted between `a` and `b`. */
  lemma InsertedBetween(a: seq<G.Entry>, b: seq<G.Entry>, x: G.Entry)
    requires x.Sending?
    ensures IsOpen(a + [x] + b) == (IsOpen(a + b) || NoSent(b))
    ensures NoStray(a + b) ==> NoStray(a + [x] + b)
    ensures Alternating(a + b) ==> (Alternating(a + [x] + b) <==> !IsOpen(a + b) && NoSent(b))
  {
    hide IsOpen, NoStray, Alternating, OpenAfter, NoStrayAfter, AlternatingAfter, NoSent;
    AppendAll(a, b);
    AppendOne(a, x);
    AppendAll(a + [x], b);
    OpenBefore(IsOpen(a), b);
  }

  // ---- What is pending, and since when ----

  /** A stream/start completes at step `n`. */
  predicate StreamStartsAt(p: Parser, tr: seq<Traced>, n: nat)
    requires n < |tr|
  {
    Start(tr, n).Some? && StartsStream(p, MessageAt(tr, n))
  }

  /** The steps at which the stream/starts completed and not yet written were begun. */
  function PendingSince(p: Parser, tr: seq<Traced>, n: nat): (r: seq<nat>)
    requires n <= |tr|
    ensures |r| == |PendingStarts(p, tr, n)|
  {
    if n == 0 || tr[n - 1].Written? then []
    else if StreamStartsAt(p, tr, n - 1) then PendingSince(p, tr, n - 1) + [Start(tr, n - 1).value]
    else PendingSince(p, tr, n - 1)
  }

  /** How many steps the last write that published a stream/start had behind it, itself included. */
  function Published(p: Parser, tr: seq<Traced>, n: nat): (w: nat)
    requires n <= |tr|
    ensures w <= n
  {
    if n == 0 then 0
    else if tr[n - 1].Written? && PendingSince(p, tr, n - 1) != [] then n
    else Published(p, tr, n - 1)
  }

  predicate AllFrom(steps: seq<nat>, w: nat) {
    forall i :: 0 <= i < |steps| ==> steps[i] >= w
  }

  predicate AnyFrom(steps: seq<nat>, w: nat) {
    exists i :: 0 <= i < |steps| && steps[i] >= w
  }

  lemma OneStepMore(steps: seq<nat>, s: nat, w: nat)
    ensures AllFrom(steps + [s], w) <==> AllFrom(steps, w) && s >= w
    ensures AnyFrom(steps + [s], w) <==> AnyFrom(steps, w) || s >= w
  {
    var r := steps + [s];
    assert r[|steps|] == s && forall i :: 0 <= i < |steps| ==> r[i] == steps[i];
  }

  lemma OnlyOneStep(steps: seq<nat>, w: nat)
    requires |steps| == 1
    ensures AnyFrom(steps, w) == AllFrom(steps, w)
  {
    assert steps[0] >= w ==> AnyFrom(steps, w);
  }

  /** Every pending stream/start was begun after the last write that published one. */
  predicate AllFresh(p: Parser, tr: seq<Traced>, n: nat)
    requires n <= |tr|
  {
    AllFrom(PendingSince(p, tr, n), Published(p, tr, n))
  }

  predicate AnyFresh(p: Parser, tr: seq<Traced>, n: nat)
    requires n <= |tr|
  {
    AnyFrom(PendingSince(p, tr, n), Published(p, tr, n))
  }

  /** At most one stream/start is pending, and it was begun after the last one was published. */
  predicate OneFresh(p: Parser, tr: seq<Traced>, n: nat)
    requires n <= |tr|
  {
    |PendingSince(p, tr, n)| <= 1 && AllFresh(p, tr, n)
  }

  predicate NoSentFrom(t: seq<AvailabilityEntry>, at: nat)
    requires at <= |t|
  {
    NoSent(GateTrace(t[at..]))
  }

  /** What the trace shows of what is pending, and what a saved position divides. */
  ghost predicate Placement(p: Parser, tr: seq<Traced>, n: nat)
    requires n <= |tr|
  {
    var c := Run(p, tr, n);
    && IsOpen(GateTrace(c.streams.trace)) == AnyFresh(p, tr, n)
    && (Open(tr, n).Some? ==>
          && c.fragment.position.availability <= |c.streams.trace|
          && (NoSentFrom(c.streams.trace, c.fragment.position.availability) <==>
              Published(p, tr, n) <= Open(tr, n).value))
  }

  /** Where the entry of a stream/start completing at step `n` goes. */
  function PlaceFor(p: Parser, tr: seq<Traced>, n: nat): nat
    requires n < |tr| && Start(tr, n).Some?
  {
    PositionFor(tr, n, Run(p, tr, n)).availability
  }

  /** What one step does to the availability trace. */
  lemma TraceStep(p: Parser, tr: seq<Traced>, n: nat)
    requires n < |tr|
    ensures var t, r := Run(p, tr, n).streams.trace, Run(p, tr, n + 1).streams.trace;
            if tr[n].Written? then r == t + SentEntries(PendingStarts(p, tr, n))
            else if tr[n].Inbound? then r == t + StateArriving(p, tr[n])
            else if StreamStartsAt(p, tr, n) then
              PlaceFor(p, tr, n) <= |t| &&
              r == Insert(t, PlaceFor(p, tr, n), StreamStartEntry(false, p(MessageAt(tr, n).body).roles))
            else r == t
  {
    RecordedInStartOrder(p, tr, n);
    hide Run, Step, Reassembling, InboundEvent;
    if tr[n].Outbound? {
      StepEffect(p, tr, n);
    } else {
      ArrivalEffect(p, tr, n);
      ArrivalListed(p, tr, n);
    }
  }

  /** What one step does to a saved position, and to the message that could complete there. */
  lemma PositionKept(p: Parser, tr: seq<Traced>, n: nat)
    requires n < |tr| && Open(tr, n + 1).Some?
    ensures var c, s := Run(p, tr, n), Open(tr, n + 1).value;
            && Run(p, tr, n + 1).fragment.position.availability ==
               (if s == n then |c.streams.trace| else c.fragment.position.availability)
            && (s == n || Open(tr, n) == Some(s))
            && (StreamStartsAt(p, tr, n) ==> Start(tr, n) == Some(n) && s < n)
  {
    RecordedInStartOrder(p, tr, n);
    FragmentFields(p, tr, n);
    hide Run, Reassembling, InStartOrder, MessageAt;
  }

  lemma GateAppend(t: seq<AvailabilityEntry>, d: seq<AvailabilityEntry>)
    ensures GateTrace(t + d) == GateTrace(t) + GateTrace(d)
  {
  }

  lemma GateInsert(t: seq<AvailabilityEntry>, at: nat, roles: seq<string>)
    requires at <= |t|
    ensures GateTrace(t) == GateTrace(t[..at]) + GateTrace(t[at..])
    ensures GateTrace(Insert(t, at, StreamStartEntry(false, roles))) ==
            GateTrace(t[..at]) + [G.Sending(roles)] + GateTrace(t[at..])
  {
    assert t == t[..at] + t[at..];
    GateAppend(t[..at], t[at..]);
    var x := [StreamStartEntry(false, roles)];
    GateAppend(t[..at] + x, t[at..]);
    GateAppend(t[..at], x);
    assert GateTrace(x) == [G.Sending(roles)];
  }

  /** What inserting a `sending` entry does to the brackets. */
  lemma InsertedSending(t: seq<AvailabilityEntry>, at: nat, roles: seq<string>)
    requires at <= |t|
    ensures var e, r := GateTrace(t), GateTrace(Insert(t, at, StreamStartEntry(false, roles)));
            && IsOpen(r) == (IsOpen(e) || NoSentFrom(t, at))
            && (NoStray(e) ==> NoStray(r))
            && (Alternating(e) ==> (Alternating(r) <==> !IsOpen(e) && NoSentFrom(t, at)))
  {
    hide IsOpen, NoStray, Alternating, NoSent, GateTrace;
    GateInsert(t, at, roles);
    InsertedBetween(GateTrace(t[..at]), GateTrace(t[at..]), G.Sending(roles));
  }

  /** What appending the `sent` entries of a write does. */
  lemma AppendedSents(t: seq<AvailabilityEntry>, starts: seq<seq<string>>)
    requires starts != []
    ensures var e, r := GateTrace(t), GateTrace(t + SentEntries(starts));
            && !IsOpen(r)
            && (NoStray(r) <==> NoStray(e) && IsOpen(e) && |starts| == 1)
            && (Alternating(r) <==> Alternating(e) && IsOpen(e) && |starts| == 1)
    decreases |starts|
  {
    hide IsOpen, NoStray, Alternating;
    var front, x := starts[..|starts| - 1], G.Sent(starts[|starts| - 1]);
    assert GateTrace(t + SentEntries(starts)) == GateTrace(t + SentEntries(front)) + [x];
    AppendOne(GateTrace(t + SentEntries(front)), x);
    if front == [] {
      assert t + SentEntries(front) == t;
    } else {
      AppendedSents(t, front);
    }
  }

  lemma AppendedState(p: Parser, t: seq<AvailabilityEntry>, m: Traced)
    ensures var e, r := GateTrace(t), GateTrace(t + StateArriving(p, m));
            && IsOpen(r) == IsOpen(e)
            && (NoStray(r) <==> NoStray(e)) && (Alternating(r) <==> Alternating(e))
  {
    hide IsOpen, NoStray, Alternating;
    var d := StateArriving(p, m);
    if d == [] {
      assert t + d == t;
    } else {
      assert GateTrace(t + d) == GateTrace(t) + [ToGate(d[0])];
      AppendOne(GateTrace(t), ToGate(d[0]));
    }
  }

  /** Appending keeps what stands after a position, and adds to it. */
  lemma SuffixAppend(t: seq<AvailabilityEntry>, d: seq<AvailabilityEntry>, at: nat)
    requires at <= |t|
    ensures NoSentFrom(t + d, at) <==> NoSentFrom(t, at) && NoSent(GateTrace(d))
  {
    assert (t + d)[at..] == t[at..] + d;
    GateAppend(t[at..], d);
    var a, b := GateTrace(t[at..]), GateTrace(d);
    hide GateTrace;
    if NoSent(a + b) {
      forall j | 0 <= j < |a| ensures !a[j].Sent? { assert (a + b)[j] == a[j]; }
      forall j | 0 <= j < |b| ensures !b[j].Sent? { assert (a + b)[|a| + j] == b[j]; }
    }
  }

  lemma SuffixKinds(p: Parser, starts: seq<seq<string>>, roles: seq<string>, m: Traced)
    ensures NoSent(GateTrace(SentEntries(starts))) <==> starts == []
    ensures NoSent(GateTrace([StreamStartEntry(false, roles)]))
    ensures NoSent(GateTrace(StateArriving(p, m)))
  {
    if starts != [] {
      assert GateTrace(SentEntries(starts))[0].Sent?;
    }
  }

  /** One step moves the first half of `Placement`. */
  lemma OpenStep(p: Parser, tr: seq<Traced>, n: nat)
    requires n < |tr| && Placement(p, tr, n)
    ensures IsOpen(TraceAt(p, tr, n + 1)) == AnyFresh(p, tr, n + 1)
  {
    TraceStep(p, tr, n);
    FreshStep(p, tr, n);
    hide IsOpen, AnyFresh, GateTrace, Insert;
    var t := Run(p, tr, n).streams.trace;
    hide Run, StreamStartsAt, PendingStarts;
    if tr[n].Written? {
      if PendingStarts(p, tr, n) == [] {
        assert t + SentEntries(PendingStarts(p, tr, n)) == t;
      } else {
        AppendedSents(t, PendingStarts(p, tr, n));
      }
    } else if tr[n].Inbound? {
      AppendedState(p, t, tr[n]);
    } else if StreamStartsAt(p, tr, n) {
      InsertedSending(t, PlaceFor(p, tr, n), p(MessageAt(tr, n).body).roles);
      PlacedFresh(p, tr, n);
    }
  }

  /** A stream/start is placed after every `sent` entry exactly when it is fresh. */
  lemma PlacedFresh(p: Parser, tr: seq<Traced>, n: nat)
    requires n < |tr| && Placement(p, tr, n) && StreamStartsAt(p, tr, n)
    requires PlaceFor(p, tr, n) <= |Run(p, tr, n).streams.trace|
    ensures NoSentFrom(Run(p, tr, n).streams.trace, PlaceFor(p, tr, n)) <==>
            Start(tr, n).value >= Published(p, tr, n)
  {
    hide Run, Published, MessageAt;
    var t := Run(p, tr, n).streams.trace;
    if Start(tr, n).value == n {
      assert t[|t|..] == [];
    }
  }

  /** How one step changes what is fresh. */
  lemma FreshStep(p: Parser, tr: seq<Traced>, n: nat)
    requires n < |tr|
    ensures tr[n].Written? ==>
              && PendingSince(p, tr, n + 1) == []
              && Published(p, tr, n + 1) == if PendingStarts(p, tr, n) == [] then Published(p, tr, n) else n + 1
    ensures !tr[n].Written? ==>
              && Published(p, tr, n + 1) == Published(p, tr, n)
              && PendingSince(p, tr, n + 1) ==
                 PendingSince(p, tr, n) + if StreamStartsAt(p, tr, n) then [Start(tr, n).value] else []
    ensures AnyFresh(p, tr, n + 1) <==>
            && !tr[n].Written?
            && (AnyFresh(p, tr, n) ||
                (StreamStartsAt(p, tr, n) && Start(tr, n).value >= Published(p, tr, n)))
    ensures AllFresh(p, tr, n + 1) <==>
            || tr[n].Written?
            || (AllFresh(p, tr, n) &&
                (StreamStartsAt(p, tr, n) ==> Start(tr, n).value >= Published(p, tr, n)))
    ensures PendingStarts(p, tr, n) == [] ==> !AnyFresh(p, tr, n)
    ensures |PendingStarts(p, tr, n)| == 1 ==> AnyFresh(p, tr, n) == AllFresh(p, tr, n)
  {
    assert PendingSince(p, tr, n) + [] == PendingSince(p, tr, n);
    if StreamStartsAt(p, tr, n) {
      OneStepMore(PendingSince(p, tr, n), Start(tr, n).value, Published(p, tr, n));
    }
    if |PendingSince(p, tr, n)| == 1 {
      OnlyOneStep(PendingSince(p, tr, n), Published(p, tr, n));
    }
    hide StreamStartsAt, Start;
  }

  /** One step moves the second half. */
  lemma DividesStep(p: Parser, tr: seq<Traced>, n: nat)
    requires n < |tr| && Placement(p, tr, n) && Open(tr, n + 1).Some?
    ensures var t, at := Run(p, tr, n + 1).streams.trace, Run(p, tr, n + 1).fragment.position.availability;
            at <= |t| && (NoSentFrom(t, at) <==> Published(p, tr, n + 1) <= Open(tr, n + 1).value)
  {
    TraceStep(p, tr, n);
    PositionKept(p, tr, n);
    FreshStep(p, tr, n);
    var t, at, s := Run(p, tr, n).streams.trace, Run(p, tr, n + 1).fragment.position.availability, Open(tr, n + 1).value;
    assert StreamStartsAt(p, tr, n) ==> PlaceFor(p, tr, n) == |t|;
    hide Run, NoSent, GateTrace, PendingStarts, StreamStartsAt, PendingSince, AnyFresh, StateArriving, Published, Start;
    if s == n {
      assert t[|t|..] == [];
      NothingStands();
    }
    if tr[n].Written? {
      SuffixAppend(t, SentEntries(PendingStarts(p, tr, n)), at);
      SuffixKinds(p, PendingStarts(p, tr, n), [], tr[n]);
    } else if tr[n].Inbound? {
      SuffixAppend(t, StateArriving(p, tr[n]), at);
      SuffixKinds(p, [], [], tr[n]);
    } else if StreamStartsAt(p, tr, n) {
      var roles := p(MessageAt(tr, n).body).roles;
      SuffixAppend(t, [StreamStartEntry(false, roles)], at);
      SuffixKinds(p, [], roles, tr[n]);
      assert Insert(t, |t|, StreamStartEntry(false, roles)) == t + [StreamStartEntry(false, roles)];
    }
  }

  lemma NothingStands()
    ensures NoSent(GateTrace([]))
  {
  }

  lemma {:induction false} PlacementHolds(p: Parser, tr: seq<Traced>, n: nat)
    requires n <= |tr|
    ensures Placement(p, tr, n)
  {
    hide Run, Published, AnyFresh, IsOpen, GateTrace, NoSentFrom;
    if n == 0 {
      NothingPlaced(p, tr);
    } else {
      PlacementHolds(p, tr, n - 1);
      OpenStep(p, tr, n - 1);
      if Open(tr, n).Some? {
        DividesStep(p, tr, n - 1);
      }
    }
  }

  lemma NothingPlaced(p: Parser, tr: seq<Traced>)
    ensures Placement(p, tr, 0)
  {
  }
  // ---- When brackets close, and when they alternate ----

  lemma StrayStep(p: Parser, tr: seq<Traced>, n: nat)
    requires n < |tr| && NoStray(TraceAt(p, tr, n))
    ensures NoStray(TraceAt(p, tr, n + 1)) <==> (tr[n].Written? ==> OneFresh(p, tr, n))
  {
    PlacementHolds(p, tr, n);
    TraceStep(p, tr, n);
    FreshStep(p, tr, n);
    var t := Run(p, tr, n).streams.trace;
    hide IsOpen, NoStray, GateTrace, AnyFresh, Run, StreamStartsAt, PendingStarts, Published;
    if tr[n].Written? {
      if PendingStarts(p, tr, n) == [] {
        assert t + SentEntries(PendingStarts(p, tr, n)) == t;
      } else {
        AppendedSents(t, PendingStarts(p, tr, n));
      }
    } else if tr[n].Inbound? {
      AppendedState(p, t, tr[n]);
    } else if StreamStartsAt(p, tr, n) {
      InsertedSending(t, PlaceFor(p, tr, n), p(MessageAt(tr, n).body).roles);
    }
  }

  /** At every write completion, at most one stream/start was waiting, begun since the last one. */
  predicate FreshAtWrites(p: Parser, tr: seq<Traced>, n: nat)
    requires n <= |tr|
  {
    forall w :: 0 <= w < n && tr[w].Written? ==> OneFresh(p, tr, w)
  }

  ghost predicate NeverStray(p: Parser, tr: seq<Traced>, n: nat)
    requires n <= |tr|
  {
    forall m :: 0 <= m <= n ==> NoStray(TraceAt(p, tr, m))
  }

  /**
   Strays, exactly, for every trace: no state up to step `n` records a `sent` that closes nothing
   if and only if each write completion found at most one stream/start waiting, and that one
   begun after the last write that published one. A fragmented stream/start is no exception.
   */
  lemma {:induction false} StraysExactly(p: Parser, tr: seq<Traced>, n: nat)
    requires n <= |tr|
    ensures NeverStray(p, tr, n) <==> FreshAtWrites(p, tr, n)
  {
    hide NoStray, OneFresh, Run;
    if n == 0 {
      EmptyTrace(p, tr);
    } else {
      StraysExactly(p, tr, n - 1);
      assert NeverStray(p, tr, n) <==> NeverStray(p, tr, n - 1) && NoStray(TraceAt(p, tr, n));
      if NeverStray(p, tr, n - 1) {
        assert NoStray(TraceAt(p, tr, n - 1));
        StrayStep(p, tr, n - 1);
      }
    }
  }

  lemma EmptyTrace(p: Parser, tr: seq<Traced>)
    ensures TraceAt(p, tr, 0) == [] && NoStray([]) && Alternating([])
    ensures OneFresh(p, tr, 0)
  {
  }

  lemma AlternateStep(p: Parser, tr: seq<Traced>, n: nat)
    requires n < |tr| && Alternating(TraceAt(p, tr, n)) && OneFresh(p, tr, n)
    ensures Alternating(TraceAt(p, tr, n + 1)) <==> OneFresh(p, tr, n + 1)
  {
    PlacementHolds(p, tr, n);
    TraceStep(p, tr, n);
    FreshStep(p, tr, n);
    var t := Run(p, tr, n).streams.trace;
    hide IsOpen, Alternating, GateTrace, AnyFresh, AllFresh, Run, StreamStartsAt, PendingStarts, Published;
    if tr[n].Written? {
      if PendingStarts(p, tr, n) == [] {
        assert t + SentEntries(PendingStarts(p, tr, n)) == t;
      } else {
        AppendedSents(t, PendingStarts(p, tr, n));
      }
    } else if tr[n].Inbound? {
      AppendedState(p, t, tr[n]);
    } else if StreamStartsAt(p, tr, n) {
      InsertedSending(t, PlaceFor(p, tr, n), p(MessageAt(tr, n).body).roles);
      PlacedFresh(p, tr, n);
    }
  }

  ghost predicate AlwaysAlternating(p: Parser, tr: seq<Traced>, n: nat)
    requires n <= |tr|
  {
    forall m :: 0 <= m <= n ==> Alternating(TraceAt(p, tr, m))
  }

  predicate AlwaysOneFresh(p: Parser, tr: seq<Traced>, n: nat)
    requires n <= |tr|
  {
    forall m :: 0 <= m <= n ==> OneFresh(p, tr, m)
  }

  /**
   Alternation, exactly, for every trace: every state up to step `n` records `sending` and `sent`
   strictly in turn if and only if at no time two stream/starts were pending together or one was
   that had begun before the last write that published one.
   */
  lemma {:induction false} BracketsAlternate(p: Parser, tr: seq<Traced>, n: nat)
    requires n <= |tr|
    ensures AlwaysAlternating(p, tr, n) <==> AlwaysOneFresh(p, tr, n)
  {
    hide Alternating, OneFresh, Run;
    if n == 0 {
      EmptyTrace(p, tr);
    } else {
      BracketsAlternate(p, tr, n - 1);
      assert AlwaysAlternating(p, tr, n) <==> AlwaysAlternating(p, tr, n - 1) && Alternating(TraceAt(p, tr, n));
      assert AlwaysOneFresh(p, tr, n) <==> AlwaysOneFresh(p, tr, n - 1) && OneFresh(p, tr, n);
      if AlwaysAlternating(p, tr, n - 1) {
        assert Alternating(TraceAt(p, tr, n - 1)) && OneFresh(p, tr, n - 1);
        AlternateStep(p, tr, n - 1);
      }
    }
  }

  /** In an alternating trace a `sent` stands between any two `sending`, and the other way round. */
  lemma AlternatingMeaning(e: seq<G.Entry>, i: nat, j: nat)
    requires Alternating(e) && i < j < |e|
    ensures e[i].Sending? && e[j].Sending? ==> exists k :: i < k < j && e[k].Sent?
    ensures e[i].Sent? && e[j].Sent? ==> exists k :: i < k < j && e[k].Sending?
  {
    assert InTurn(e, j);
    if e[i].Sending? && e[j].Sending? && forall k :: i < k < j ==> !e[k].Sent? {
      StaysOpen(e, i, j);
    }
    if e[j].Sent? {
      var k := G.Opened(e, j).value;
      G.OpenedMeaning(e, j, k);
    }
  }

  lemma {:induction false} StaysOpen(e: seq<G.Entry>, i: nat, j: nat)
    requires i < j <= |e| && e[i].Sending? && forall k :: i < k < j ==> !e[k].Sent?
    ensures G.Opened(e, j).Some?
  {
    if i < j - 1 {
      StaysOpen(e, i, j - 1);
    }
  }

  // ---- Stream/starts in one frame ----

  /** Every stream/start among the first `n` steps was traced in one frame. */
  predicate Unfragmented(p: Parser, tr: seq<Traced>, n: nat)
    requires n <= |tr|
  {
    forall j :: 0 <= j < n && StreamStartsAt(p, tr, j) ==> Start(tr, j) == Some(j)
  }

  /** In one frame, a stream/start is always fresh: only how many wait together matters. */
  lemma {:induction false} OneFrameIsFresh(p: Parser, tr: seq<Traced>, n: nat)
    requires n <= |tr| && Unfragmented(p, tr, n)
    ensures AllFresh(p, tr, n)
    ensures OneFresh(p, tr, n) <==> |PendingStarts(p, tr, n)| <= 1
  {
    hide StreamStartsAt, AllFresh, PendingSince, PendingStarts, Published;
    if n == 0 {
      EmptyTrace(p, tr);
    } else {
      OneFrameIsFresh(p, tr, n - 1);
      FreshStep(p, tr, n - 1);
      assert StreamStartsAt(p, tr, n - 1) ==> Start(tr, n - 1) == Some(n - 1);
    }
  }
}
