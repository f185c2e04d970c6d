/**
 The recorder and the time-exchange judge together.

 A snapshot reports the confirmed exchange entries, merged; the summary turns each into what
 the judge reads. A server that answers in order and keeps quiet while it owes an answer is
 never named, whatever snapshot is taken.
 */
module NoFalseAccusation {
  import opened Wire
  import opened RecorderSpec
  import opened StartOrder
  import opened TimeJudge
  import opened TimeLaws

  // ---- The snapshot ----

  function Confirmed(s: seq<Placed>): seq<TimeEntry> {
    if s == [] then []
    else Confirmed(s[..|s| - 1]) + if s[|s| - 1].confirmed then [s[|s| - 1].entry] else []
  }

  lemma ConfirmedLast(s: seq<Placed>, x: Placed)
    ensures Confirmed(s + [x]) == if x.confirmed then Confirmed(s) + [x.entry] else Confirmed(s)
  {
    assert (s + [x])[..|s|] == s;
  }

  const IsOtherEntry: TimeEntry -> bool := (x: TimeEntry) => x.OtherSentEntry?

  /** What `snapshot()` reports of the exchange. */
  function Snapshot(c: Conn): seq<TimeEntry> {
    Compress(Confirmed(c.exchange), IsOtherEntry)
  }

  /** One summary entry: the recorded text parsed again, or a bare other-sent. */
  function Summarize(p: Parser, entry: TimeEntry): Entry {
    match entry
    case OtherSentEntry => OtherSent
    case _ =>
      match p(entry.json).kind
      case ClientTime => ClientTimeMsg(p(entry.json).time)
      case ServerTime => ServerTimeMsg(p(entry.json).time)
      case _ => Unreadable
  }

  function Summary(p: Parser, entries: seq<TimeEntry>): (r: seq<Entry>)
    ensures |r| == |entries|
  {
    if entries == [] then []
    else Summary(p, entries[..|entries| - 1]) + [Summarize(p, entries[|entries| - 1])]
  }

  lemma SummaryAppend(p: Parser, a: seq<TimeEntry>, x: TimeEntry)
    ensures Summary(p, a + [x]) == Summary(p, a) + [Summarize(p, x)]
  {
    assert (a + [x])[..|a|] == a;
  }

  lemma {:induction false} LastSummarized(p: Parser, s: seq<TimeEntry>)
    requires s != []
    ensures IsOther(Summary(p, s)[|s| - 1]) == IsOtherEntry(s[|s| - 1])
    ensures forall x :: IsOther(Summarize(p, x)) == IsOtherEntry(x)
  {
  }

  /** Merging before or after summarizing is the same. */
  lemma {:induction false} SummaryCompress(p: Parser, s: seq<TimeEntry>)
    ensures Summary(p, Compress(s, IsOtherEntry)) == Compress(Summary(p, s), IsOther)
  {
    if s != [] {
      var front, x := s[..|s| - 1], s[|s| - 1];
      SummaryCompress(p, front);
      var kept := Compress(front, IsOtherEntry);
      assert Summary(p, []) == [];
      assert front + [x] == s;
      if kept != [] { LastSummarized(p, kept); }
      LastSummarized(p, s);
      hide Compress, Summary, Summarize, IsOther, IsOtherEntry;
      SummaryAppend(p, front, x);
      SummaryAppend(p, kept, x);
      CompressLast(front, x, IsOtherEntry);
      CompressLast(Summary(p, front), Summarize(p, x), IsOther);
    }
  }

  /** What the judge is given of the entries recorded, before merging. */
  function Reported(p: Parser, s: seq<Placed>): seq<Entry> {
    Summary(p, Confirmed(s))
  }

  lemma {:induction false} ReportedAppend(p: Parser, a: seq<Placed>, b: seq<Placed>)
    requires |b| <= 1
    ensures Reported(p, a + b) ==
            if b != [] && b[0].confirmed then Reported(p, a) + [Summarize(p, b[0].entry)]
            else Reported(p, a)
  {
    if b == [] {
      assert a + b == a;
    } else {
      assert (a + b)[..|a|] == a;
      if b[0].confirmed {
        SummaryAppend(p, Confirmed(a), b[0].entry);
      } else {
        assert Confirmed(a + b) == Confirmed(a);
      }
    }
  }

  /** The judge's verdict on a recorder state. */
  function VerdictOn(p: Parser, c: Conn): Verdict {
    Judge(Some(Summary(p, Snapshot(c))))
  }

  /** Snapshot compression preserves the verdict drawn from the confirmed entries. */
  lemma SnapshotKeepsVerdict(p: Parser, c: Conn)
    ensures VerdictOn(p, c) == Judge(Some(Reported(p, c.exchange)))
  {
    SummaryCompress(p, Confirmed(c.exchange));
    CompressionKeepsVerdict(Reported(p, c.exchange));
  }

  // ---- Well-behaved servers ----

  /** The value of the `client/time` arriving at step `i`, if that is what arrives. */
  function ArrivingTime(p: Parser, m: Traced): Option<Option<int>> {
    if InboundOf(p, m, ClientTime)
    then Some(Transmitted(p(InboundText(m.binary, m.plaintext)).time))
    else None
  }

  /** The text message completing at step `j`, if one completes there. */
  function TextAt(p: Parser, tr: seq<Traced>, j: nat): Option<Body>
    requires j < |tr|
  {
    if Start(tr, j).Some? && MessageAt(tr, j).id == JSON_MESSAGE_ID
    then Some(p(MessageAt(tr, j).body)) else None
  }

  predicate AnswersAt(p: Parser, tr: seq<Traced>, j: nat)
    requires j < |tr|
  {
    TextAt(p, tr, j).Some? && TextAt(p, tr, j).value.kind == ServerTime
  }

  /** The values received and not answered after `i` steps, counting answers before step `w` only. */
  function Queue(p: Parser, tr: seq<Traced>, w: nat, i: nat): seq<int>
    requires i <= |tr|
  {
    if i == 0 then []
    else
      var q := Queue(p, tr, w, i - 1);
      if ArrivingTime(p, tr[i - 1]).Some? then
        match ArrivingTime(p, tr[i - 1]).value
        case Some(v) => q + [v]
        case None => q
      else if i - 1 < w && AnswersAt(p, tr, i - 1) && q != [] then q[1..]
      else q
  }

  /** Every `client/time` among the first `i` steps carries an integer. */
  predicate HonestClient(p: Parser, tr: seq<Traced>, i: nat)
    requires i <= |tr|
  {
    forall k :: 0 <= k < i ==> ArrivingTime(p, tr[k]) != Some(None)
  }

  /**
   At step `j` the server behaves: an answer goes out in one frame, echoes the oldest
   unanswered value and carries ordered integer timestamps; any other text message began
   when nothing was unanswered.
   */
  predicate BehavesAt(p: Parser, tr: seq<Traced>, j: nat)
    requires j < |tr|
  {
    TextAt(p, tr, j).Some? ==>
      var body, s := TextAt(p, tr, j).value, Start(tr, j).value;
      if body.kind == ServerTime then
        && s == j
        && HasEveryField(body.time)
        && body.time.serverReceived.n <= body.time.serverTransmitted.n
        && Queue(p, tr, j, j) != []
        && body.time.clientTransmitted.n == Queue(p, tr, j, j)[0]
      else Queue(p, tr, s, s) == []
  }

  /** The server behaves in every message it began while the client did. */
  predicate WellBehaved(p: Parser, tr: seq<Traced>, n: nat)
    requires n <= |tr|
  {
    forall j :: 0 <= j < n && Start(tr, j).Some? && HonestClient(p, tr, Start(tr, j).value) ==>
                  BehavesAt(p, tr, j)
  }

  /** Answers from step `i` on do not matter to the first `i` steps. */
  lemma {:induction false} QueueAgrees(p: Parser, tr: seq<Traced>, v: nat, w: nat, i: nat)
    requires i <= |tr| && i <= v && i <= w
    ensures Queue(p, tr, v, i) == Queue(p, tr, w, i)
  {
    hide AnswersAt, ArrivingTime;
    if i > 0 {
      QueueAgrees(p, tr, v, w, i - 1);
    }
  }

  /** The judge holds the queue, answered nothing out of order and passed nothing over. */
  ghost predicate Serene(s: State, q: seq<int>) {
    && |s.unanswered| == |q|
    && (forall k :: 0 <= k < |q| ==> s.unanswered[k].value == q[k])
    && (forall k :: 0 <= k < |q| ==> s.latestAnswered < s.unanswered[k].position <= s.received)
    && (forall k, l :: 0 <= k < l < |q| ==> s.unanswered[k].position < s.unanswered[l].position)
    && s.latestAnswered <= s.received
    && s.passedOver == {}
  }

  lemma SereneReceives(s: State, q: seq<int>, payload: TimePayload)
    requires Serene(s, q) && Transmitted(payload).Some?
    ensures var r := Advance(s, ClientTimeMsg(payload));
            r.Running? && Serene(r.state, q + [Transmitted(payload).value])
  {
  }

  lemma SereneAnswers(s: State, q: seq<int>, payload: TimePayload)
    requires Serene(s, q) && q != []
    requires HasEveryField(payload) && payload.serverReceived.n <= payload.serverTransmitted.n
    requires payload.clientTransmitted.n == q[0]
    ensures var r := Advance(s, ServerTimeMsg(payload));
            r.Running? && Serene(r.state, q[1..])
  {
    DefectsMeaning(payload);
    assert s.unanswered[0].value == q[0];
    assert FirstMatch(s.unanswered, q[0]) == Some(0);
    assert RemoveAt(s.unanswered, 0) == s.unanswered[1..];
  }

  lemma SereneSends(s: State)
    requires Serene(s, [])
    ensures Advance(s, OtherSent) == Running(s)
  {
    assert Positions(s.unanswered) == {};
  }

  /** The judge's progress over what the first `i` steps of an `n`-step trace reported. */
  function JudgedAt(p: Parser, tr: seq<Traced>, n: nat, i: nat): Progress
    requires n <= |tr|
  {
    var e := Reported(p, Flatten(TimeAt(p, tr, n), i));
    Scan(e, |e|)
  }

  /** What step `i` contributed to the judge's list, if it is confirmed. */
  function EntryAt(p: Parser, tr: seq<Traced>, n: nat, i: nat): Option<Entry>
    requires i < n <= |tr|
  {
    var at := TimeAt(p, tr, n)(i);
    if at != [] && at[0].confirmed then Some(Summarize(p, at[0].entry)) else None
  }

  lemma JudgedStep(p: Parser, tr: seq<Traced>, n: nat, i: nat)
    requires i < n <= |tr|
    ensures JudgedAt(p, tr, n, i + 1) ==
            match EntryAt(p, tr, n, i)
            case None => JudgedAt(p, tr, n, i)
            case Some(x) => Next(JudgedAt(p, tr, n, i), x)
  {
    var at := TimeAt(p, tr, n)(i);
    var before := Flatten(TimeAt(p, tr, n), i);
    assert |at| <= 1;
    hide TimeAt, Summarize, Reported, Scan, Next;
    ReportedAppend(p, before, at);
    if EntryAt(p, tr, n, i).Some? {
      ScanLast(Reported(p, before), EntryAt(p, tr, n, i).value);
    }
  }

  /** An answer to an honest client completes where it started. */
  lemma AnswerInOneFrame(p: Parser, tr: seq<Traced>, n: nat, i: nat)
    requires i < n <= |tr| && WellBehaved(p, tr, n) && HonestClient(p, tr, i) && AnswersAt(p, tr, i)
    ensures Start(tr, i) == Some(i) && Completion(tr, i, n) == Some(i)
  {
    CompletionUnique(tr, Start(tr, i).value, n, i);
  }

  lemma InboundEntry(p: Parser, tr: seq<Traced>, n: nat, i: nat)
    requires i < n <= |tr| && !tr[i].Outbound?
    ensures EntryAt(p, tr, n, i) ==
            if InboundOf(p, tr[i], ClientTime)
            then Some(ClientTimeMsg(p(InboundText(tr[i].binary, tr[i].plaintext)).time)) else None
  {
    if tr[i].Written? && Completion(tr, i, n).Some? {
      assert false;
    }
  }

  lemma OutboundEntry(p: Parser, tr: seq<Traced>, n: nat, i: nat)
    requires i < n <= |tr| && tr[i].Outbound?
    ensures EntryAt(p, tr, n, i) ==
            match Completion(tr, i, n)
            case None => None
            case Some(j) =>
              if TextAt(p, tr, j).None? || j >= LastWrite(tr, n) then None
              else if AnswersAt(p, tr, j) then Some(ServerTimeMsg(TextAt(p, tr, j).value.time))
              else Some(OtherSent)
  {
  }

  lemma OutboundQueue(p: Parser, tr: seq<Traced>, n: nat, i: nat)
    requires i < n <= |tr| && WellBehaved(p, tr, n) && HonestClient(p, tr, i) && tr[i].Outbound?
    ensures var w := LastWrite(tr, n);
            var q, r := Queue(p, tr, w, i), Queue(p, tr, w, i + 1);
            match EntryAt(p, tr, n, i)
            case Some(ServerTimeMsg(payload)) =>
              && q != [] && r == q[1..]
              && HasEveryField(payload) && payload.serverReceived.n <= payload.serverTransmitted.n
              && payload.clientTransmitted.n == q[0]
            case Some(x) => x == OtherSent && q == [] && r == []
            case None => r == q
  {
    hide MessageAt, StartOrder.Open, TimeAt, EntryAt;
    OutboundEntry(p, tr, n, i);
    if AnswersAt(p, tr, i) { AnswerInOneFrame(p, tr, n, i); }
    if EntryAt(p, tr, n, i).Some? {
      var j := Completion(tr, i, n).value;
      QueueAgrees(p, tr, i, LastWrite(tr, n), i);
      QueueAgrees(p, tr, j, LastWrite(tr, n), i);
    }
  }

  lemma SereneStep(p: Parser, tr: seq<Traced>, n: nat, i: nat, s: State)
    requires i < n <= |tr| && WellBehaved(p, tr, n) && HonestClient(p, tr, i + 1)
    requires JudgedAt(p, tr, n, i) == Running(s)
    requires Serene(s, Queue(p, tr, LastWrite(tr, n), i))
    ensures JudgedAt(p, tr, n, i + 1).Running?
    ensures Serene(JudgedAt(p, tr, n, i + 1).state, Queue(p, tr, LastWrite(tr, n), i + 1))
  {
    hide JudgedAt, Serene, Advance, EntryAt, MessageAt, WellBehaved;
    var q := Queue(p, tr, LastWrite(tr, n), i);
    JudgedStep(p, tr, n, i);
    if tr[i].Outbound? {
      OutboundQueue(p, tr, n, i);
      match EntryAt(p, tr, n, i) {
        case Some(ServerTimeMsg(payload)) => SereneAnswers(s, q, payload);
        case Some(_) => SereneSends(s);
        case None =>
      }
    } else {
      InboundEntry(p, tr, n, i);
      NotAnswering(p, tr, i);
      if ArrivingTime(p, tr[i]).Some? {
        SereneReceives(s, q, p(InboundText(tr[i].binary, tr[i].plaintext)).time);
      }
    }
  }

  lemma NotAnswering(p: Parser, tr: seq<Traced>, i: nat)
    requires i < |tr| && !tr[i].Outbound?
    ensures !AnswersAt(p, tr, i)
  {
  }

  lemma SereneStart(p: Parser, tr: seq<Traced>, n: nat)
    requires n <= |tr|
    ensures JudgedAt(p, tr, n, 0) == Running(TimeJudge.START) && Serene(TimeJudge.START, [])
  {
  }

  lemma {:induction false} SereneThroughout(p: Parser, tr: seq<Traced>, n: nat, i: nat)
    requires i <= n <= |tr| && WellBehaved(p, tr, n) && HonestClient(p, tr, i)
    ensures JudgedAt(p, tr, n, i).Running?
    ensures Serene(JudgedAt(p, tr, n, i).state, Queue(p, tr, LastWrite(tr, n), i))
  {
    hide WellBehaved, TimeAt, JudgedAt, Serene;
    if i == 0 {
      SereneStart(p, tr, n);
    } else {
      SereneThroughout(p, tr, n, i - 1);
      SereneStep(p, tr, n, i - 1, JudgedAt(p, tr, n, i - 1).state);
    }
  }

  lemma SereneIsCompliant(s: State, q: seq<int>)
    requires Serene(s, q)
    ensures Conclude(Running(s)) == Compliant
  {
    RemainingMeaning(s, 0);
  }

  lemma {:induction false} JudgedStopped(p: Parser, tr: seq<Traced>, n: nat, i: nat, k: nat)
    requires i <= k <= n <= |tr| && JudgedAt(p, tr, n, i).Stopped?
    ensures JudgedAt(p, tr, n, k) == JudgedAt(p, tr, n, i)
  {
    hide JudgedAt, EntryAt;
    if i < k {
      JudgedStopped(p, tr, n, i, k - 1);
      JudgedStep(p, tr, n, k - 1);
    }
  }

  /** The verdict on the recorder's state is the judge's conclusion on what the trace reported. */
  lemma VerdictOnRun(p: Parser, tr: seq<Traced>, n: nat)
    requires n <= |tr|
    ensures VerdictOn(p, Run(p, tr, n)) == Conclude(JudgedAt(p, tr, n, n))
  {
    RecordedInStartOrder(p, tr, n);
    SnapshotKeepsVerdict(p, Run(p, tr, n));
  }

  /**
   No false accusation. In every reachable state, whatever fragments, inbound messages and
   write completions interleave, the verdict on the snapshot of a server that behaved is
   compliant while every `client/time` carried an integer, and otherwise names the client.
   */
  lemma NeverAccused(p: Parser, tr: seq<Traced>, n: nat)
    requires n <= |tr| && WellBehaved(p, tr, n)
    ensures if HonestClient(p, tr, n) then VerdictOn(p, Run(p, tr, n)) == Compliant
            else VerdictOn(p, Run(p, tr, n)).ClientFieldNotInteger?
  {
    hide Run, JudgedAt, Queue, WellBehaved, HonestClient, VerdictOn;
    VerdictOnRun(p, tr, n);
    if HonestClient(p, tr, n) {
      SereneThroughout(p, tr, n, n);
      SereneIsCompliant(JudgedAt(p, tr, n, n).state, Queue(p, tr, LastWrite(tr, n), n));
    } else {
      DishonestIsNamed(p, tr, n);
    }
  }

  /** The first `client/time` without an integer ends the judging, before any blame. */
  lemma DishonestIsNamed(p: Parser, tr: seq<Traced>, n: nat)
    requires n <= |tr| && WellBehaved(p, tr, n) && !HonestClient(p, tr, n)
    ensures JudgedAt(p, tr, n, n).Stopped? && JudgedAt(p, tr, n, n).verdict.ClientFieldNotInteger?
  {
    hide JudgedAt, EntryAt, Queue, WellBehaved, HonestClient, LastWrite;
    var b := FirstDishonest(p, tr, n);
    SereneThroughout(p, tr, n, b);
    JudgedStep(p, tr, n, b);
    InboundEntry(p, tr, n, b);
    JudgedStopped(p, tr, n, b + 1, n);
  }

  lemma {:induction false} FirstDishonest(p: Parser, tr: seq<Traced>, n: nat) returns (b: nat)
    requires n <= |tr| && !HonestClient(p, tr, n)
    ensures b < n && HonestClient(p, tr, b) && ArrivingTime(p, tr[b]) == Some(None)
  {
    if HonestClient(p, tr, n - 1) {
      b := n - 1;
    } else {
      b := FirstDishonest(p, tr, n - 1);
    }
  }
}
