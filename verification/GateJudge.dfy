/**
 The verdict on the available gate: a `stream/start` is allowed only while the latest
 `client/state` reported `available: true`.

 Each stream/start is bracketed by a `sending` and a `sent` entry. `StreamStartGateViolation`
 is the one-pass judge; `PassMeaning` says it decides exactly whether every completed bracket
 opens with, or contains, an available state.
 */
module GateJudge {
  import opened Wire

  datatype Availability = Available | Unavailable | NoBoolean

  datatype Entry =
    | StateReceived(available: Availability)
    | Sending(roles: seq<string>)
    | Sent(roles: seq<string>)

  /** One element of the reported list, as far as it can be read. */
  datatype Reported = Readable(entry: Entry) | Malformed

  datatype Verdict =
    | Pass
    | Unrecorded
    | NothingSent
    | BeforeAnyState(roles: seq<string>)
    | WhileUnavailable(roles: seq<string>)
    | ClientNoBoolean(roles: seq<string>)

  /** `inFlight` is set while a stream/start is: whether available has been the latest since. */
  datatype State = State(
    latest: Option<Availability>, held: Option<Availability>, inFlight: Option<bool>, starts: nat)

  datatype Progress = Running(state: State) | Stopped(verdict: Verdict)

  function Reason(held: Option<Availability>, roles: seq<string>): Verdict {
    match held
    case None => BeforeAnyState(roles)
    case Some(Unavailable) => WhileUnavailable(roles)
    case Some(_) => ClientNoBoolean(roles)
  }

  function Advance(s: State, x: Entry): Progress {
    match x
    case StateReceived(available) =>
      Running(s.(latest := Some(available),
                 inFlight := if s.inFlight.Some? then Some(s.inFlight.value || available == Available)
                             else None))
    case Sending(_) => Running(s.(held := s.latest, inFlight := Some(s.latest == Some(Available))))
    case Sent(roles) =>
      if s.inFlight.None? then Stopped(Unrecorded)
      else if !s.inFlight.value then Stopped(Reason(s.held, roles))
      else Running(s.(inFlight := None, starts := s.starts + 1))
  }

  const START := State(None, None, None, 0)

  function Next(p: Progress, x: Entry): Progress {
    if p.Running? then Advance(p.state, x) else p
  }

  function Scan(e: seq<Entry>, n: nat): Progress
    requires n <= |e|
  {
    if n == 0 then Running(START) else Next(Scan(e, n - 1), e[n - 1])
  }

  function Conclude(p: Progress): Verdict {
    match p
    case Stopped(v) => v
    case Running(s) => if s.starts == 0 then NothingSent else Pass
  }

  function JudgeEntries(e: seq<Entry>): Verdict {
    Conclude(Scan(e, |e|))
  }

  /** The entries of a reported list, element by element, if every element can be read. */
  function ReadEntries(trace: seq<Reported>): (r: Option<seq<Entry>>)
    ensures r.Some? <==> forall i :: 0 <= i < |trace| ==> trace[i].Readable?
    ensures r.Some? ==> |r.value| == |trace| && forall i :: 0 <= i < |trace| ==> r.value[i] == trace[i].entry
  {
    if trace == [] then Some([])
    else
      var front := ReadEntries(trace[..|trace| - 1]);
      var x := trace[|trace| - 1];
      if front.Some? && x.Readable? then Some(front.value + [x.entry]) else None
  }

  function Judge(trace: Option<seq<Reported>>): Verdict {
    if trace.None? || ReadEntries(trace.value).None? then Unrecorded
    else JudgeEntries(ReadEntries(trace.value).value)
  }

  method GateEntries(trace: Option<seq<Reported>>) returns (entries: Option<seq<Entry>>)
    ensures entries == if trace.Some? then ReadEntries(trace.value) else None
    ensures entries.Some? <==> trace.Some? && forall i :: 0 <= i < |trace.value| ==> trace.value[i].Readable?
    ensures entries.Some? ==>
              && |entries.value| == |trace.value|
              && forall i :: 0 <= i < |trace.value| ==> entries.value[i] == trace.value[i].entry
  {
    if trace.None? {
      return None;
    }
    var read: seq<Entry> := [];
    for i := 0 to |trace.value|
      invariant |read| == i
      invariant forall h :: 0 <= h < i ==> trace.value[h].Readable? && read[h] == trace.value[h].entry
    {
      var x := trace.value[i];
      if x.Malformed? {
        return None;
      }
      read := read + [x.entry];
    }
    assert ReadEntries(trace.value).value == read;
    return Some(read);
  }

  lemma {:induction false} ScanStopped(e: seq<Entry>, k: nat, n: nat)
    requires k <= n <= |e| && Scan(e, k).Stopped?
    ensures Scan(e, n) == Scan(e, k)
  {
    if k < n {
      ScanStopped(e, k, n - 1);
    }
  }

  method StreamStartGateViolation(trace: Option<seq<Reported>>) returns (v: Verdict)
    ensures v == Judge(trace)
  {
    var entries := GateEntries(trace);
    if entries.None? {
      return Unrecorded;
    }
    var e := entries.value;
    var latest: Option<Availability> := None;
    var held: Option<Availability> := None;
    var inFlight: Option<bool> := None;
    var starts: nat := 0;
    for i := 0 to |e|
      invariant Scan(e, i) == Running(State(latest, held, inFlight, starts))
    {
      match e[i] {
        case StateReceived(available) =>
          latest := Some(available);
          if inFlight.Some? {
            inFlight := Some(inFlight.value || available == Available);
          }
        case Sending(_) =>
          held := latest;
          inFlight := Some(latest == Some(Available));
        case Sent(roles) =>
          if inFlight.None? {
            ScanStopped(e, i + 1, |e|);
            return Unrecorded;
          }
          starts := starts + 1;
          if !inFlight.value {
            ScanStopped(e, i + 1, |e|);
            return Reason(held, roles);
          }
          inFlight := None;
      }
    }
    if starts == 0 {
      return NothingSent;
    }
    return Pass;
  }

  // ---- Brackets ----

  /** The `sending` entry open just before index `j`: the last one, when no `sent` follows it. */
  function Opened(e: seq<Entry>, j: nat): (i: Option<nat>)
    requires j <= |e|
    ensures i.Some? ==> i.value < j && e[i.value].Sending?
  {
    if j == 0 then None
    else
      match e[j - 1]
      case Sending(_) => Some(j - 1)
      case Sent(_) => None
      case StateReceived(_) => Opened(e, j - 1)
  }

  lemma {:induction false} OpenedMeaning(e: seq<Entry>, j: nat, i: nat)
    requires j <= |e|
    ensures Opened(e, j) == Some(i) <==>
            i < j && e[i].Sending? && forall k :: i < k < j ==> e[k].StateReceived?
  {
    if j > 0 {
      OpenedMeaning(e, j - 1, i);
    }
  }

  /** The latest state received before index `i`. */
  function LatestBefore(e: seq<Entry>, i: nat): Option<Availability>
    requires i <= |e|
  {
    if i == 0 then None
    else if e[i - 1].StateReceived? then Some(e[i - 1].available)
    else LatestBefore(e, i - 1)
  }

  /** The latest state was available at some point between indices `i` and `j`. */
  predicate Witnessed(e: seq<Entry>, i: nat, j: nat)
    requires i < j <= |e|
  {
    LatestBefore(e, i) == Some(Available) || exists k :: i < k < j && e[k] == StateReceived(Available)
  }

  /** A `sent` entry closes a bracket in which the gate was open. */
  predicate PassesAt(e: seq<Entry>, j: nat)
    requires j < |e|
  {
    e[j].Sent? ==> Opened(e, j).Some? && Witnessed(e, Opened(e, j).value, j)
  }

  function FailureAt(e: seq<Entry>, j: nat): Verdict
    requires j < |e| && e[j].Sent?
  {
    match Opened(e, j)
    case None => Unrecorded
    case Some(i) => Reason(LatestBefore(e, i), e[j].roles)
  }

  ghost predicate Tracks(e: seq<Entry>, n: nat, s: State)
    requires n <= |e|
  {
    && s.latest == LatestBefore(e, n)
    && (s.starts == 0 <==> forall j :: 0 <= j < n ==> !e[j].Sent?)
    && match Opened(e, n)
       case None => s.inFlight == None
       case Some(i) => s.held == LatestBefore(e, i) && s.inFlight == Some(Witnessed(e, i, n))
  }

  lemma WitnessedStep(e: seq<Entry>, i: nat, n: nat)
    requires i < n < |e|
    ensures Witnessed(e, i, n + 1) == (Witnessed(e, i, n) || e[n] == StateReceived(Available))
  {
  }

  lemma TracksStep(e: seq<Entry>, n: nat, s: State)
    requires n < |e| && Tracks(e, n, s)
    ensures if PassesAt(e, n) then Advance(s, e[n]).Running? && Tracks(e, n + 1, Advance(s, e[n]).state)
            else Advance(s, e[n]) == Stopped(FailureAt(e, n))
  {
    if e[n].StateReceived? && Opened(e, n).Some? {
      WitnessedStep(e, Opened(e, n).value, n);
    }
  }

  /** The pass stops at the first `sent` that does not pass, and tracks the brackets until then. */
  lemma {:induction false} ScanMeaning(e: seq<Entry>, n: nat) returns (j: nat)
    requires n <= |e|
    ensures if forall k :: 0 <= k < n ==> PassesAt(e, k)
            then Scan(e, n).Running? && Tracks(e, n, Scan(e, n).state)
            else && j < n && !PassesAt(e, j) && (forall k :: 0 <= k < j ==> PassesAt(e, k))
                 && Scan(e, n) == Stopped(FailureAt(e, j))
  {
    j := 0;
    if n > 0 {
      j := ScanMeaning(e, n - 1);
      if forall k :: 0 <= k < n - 1 ==> PassesAt(e, k) {
        TracksStep(e, n - 1, Scan(e, n - 1).state);
        j := n - 1;
      }
    }
  }

  /**
   What the judge decides: it passes exactly when something was sent and every `sent` closes a
   bracket in which the gate was open; otherwise the first one that does not is reported, or,
   when all do, that nothing was sent.
   */
  lemma PassMeaning(e: seq<Entry>) returns (j: nat)
    ensures JudgeEntries(e) == Pass <==>
            && (exists k :: 0 <= k < |e| && e[k].Sent?)
            && (forall k :: 0 <= k < |e| ==> PassesAt(e, k))
    ensures if forall k :: 0 <= k < |e| ==> PassesAt(e, k)
            then JudgeEntries(e) == Pass || JudgeEntries(e) == NothingSent
            else && j < |e| && !PassesAt(e, j) && (forall k :: 0 <= k < j ==> PassesAt(e, k))
                 && JudgeEntries(e) == FailureAt(e, j)
  {
    j := ScanMeaning(e, |e|);
  }

  // ---- Who is blamed ----

  /** No state stands before entry `i`. */
  predicate NoStateBefore(e: seq<Entry>, i: nat)
    requires i <= |e|
  {
    forall k :: 0 <= k < i ==> !e[k].StateReceived?
  }

  /** The last state before entry `i` is this one. */
  predicate LastStateIs(e: seq<Entry>, i: nat, available: Availability)
    requires i <= |e|
  {
    exists k :: 0 <= k < i && e[k] == StateReceived(available) && forall h :: k < h < i ==> !e[h].StateReceived?
  }

  lemma {:induction false} LatestMeaning(e: seq<Entry>, i: nat)
    requires i <= |e|
    ensures LatestBefore(e, i) == None <==> NoStateBefore(e, i)
    ensures forall available :: LatestBefore(e, i) == Some(available) <==> LastStateIs(e, i, available)
  {
    if i > 0 {
      LatestMeaning(e, i - 1);
      if e[i - 1].StateReceived? {
        LatestHere(e, i);
      } else {
        assert NoStateBefore(e, i) <==> NoStateBefore(e, i - 1);
        forall available ensures LastStateIs(e, i, available) <==> LastStateIs(e, i - 1, available) {
          LatestEarlier(e, i, available);
        }
      }
    }
  }

  lemma LatestHere(e: seq<Entry>, i: nat)
    requires 0 < i <= |e| && e[i - 1].StateReceived?
    ensures !NoStateBefore(e, i)
    ensures forall available :: LastStateIs(e, i, available) <==> e[i - 1].available == available
  {
    assert e[i - 1] == StateReceived(e[i - 1].available);
  }

  lemma LatestEarlier(e: seq<Entry>, i: nat, available: Availability)
    requires 0 < i <= |e| && !e[i - 1].StateReceived?
    ensures LastStateIs(e, i, available) <==> LastStateIs(e, i - 1, available)
  {
  }

  /**
   The reason, told from the entries: at the first `sent` that does not pass, whose bracket opened
   at entry `i`, the server is blamed when no state or an unavailable one was the last before `i`,
   and the client when the last one had no boolean; the roles are those of that `sent`.
   */
  lemma ReasonMeaning(e: seq<Entry>, j: nat, i: nat)
    requires j < |e| && !PassesAt(e, j) && (forall k :: 0 <= k < j ==> PassesAt(e, k))
    requires i < j && e[i].Sending? && forall k :: i < k < j ==> e[k].StateReceived?
    ensures e[j].Sent?
    ensures JudgeEntries(e) == BeforeAnyState(e[j].roles) <==> NoStateBefore(e, i)
    ensures JudgeEntries(e) == WhileUnavailable(e[j].roles) <==> LastStateIs(e, i, Unavailable)
    ensures JudgeEntries(e) == ClientNoBoolean(e[j].roles) <==> LastStateIs(e, i, NoBoolean)
    ensures !LastStateIs(e, i, Available)
  {
    var first := PassMeaning(e);
    assert first == j;
    OpenedMeaning(e, j, i);
    LatestMeaning(e, i);
    hide JudgeEntries, NoStateBefore, LastStateIs;
  }

  /** The shortest exchanges: a stream/start alone, and one after each kind of state. */
  lemma ShortestVerdicts(roles: seq<string>)
    ensures JudgeEntries([Sending(roles), Sent(roles)]) == BeforeAnyState(roles)
    ensures JudgeEntries([StateReceived(Unavailable), Sending(roles), Sent(roles)]) == WhileUnavailable(roles)
    ensures JudgeEntries([StateReceived(NoBoolean), Sending(roles), Sent(roles)]) == ClientNoBoolean(roles)
    ensures JudgeEntries([StateReceived(Available), Sending(roles), Sent(roles)]) == Pass
  {
    ShortRun([Sending(roles), Sent(roles)]);
    forall x | x == Unavailable || x == NoBoolean || x == Available
      ensures JudgeEntries([StateReceived(x), Sending(roles), Sent(roles)]) ==
              if x == Available then Pass else if x == Unavailable then WhileUnavailable(roles) else ClientNoBoolean(roles)
    {
      ShortRun([StateReceived(x), Sending(roles), Sent(roles)]);
    }
  }

  lemma ShortRun(e: seq<Entry>)
    requires |e| == 2 || |e| == 3
    ensures var one := Next(Next(Running(START), e[0]), e[1]);
            JudgeEntries(e) == Conclude(if |e| == 2 then one else Next(one, e[2]))
  {
    assert Scan(e, 1) == Next(Running(START), e[0]);
    assert Scan(e, 2) == Next(Scan(e, 1), e[1]);
  }

  // ---- Widening a bracket ----

  function Continue(p: Progress, b: seq<Entry>): Progress {
    if b == [] then p else Next(Continue(p, b[..|b| - 1]), b[|b| - 1])
  }

  lemma {:induction false} ScanPrefix(e: seq<Entry>, k: nat, n: nat)
    requires n <= k <= |e|
    ensures Scan(e[..k], n) == Scan(e, n)
  {
    if n > 0 {
      ScanPrefix(e, k, n - 1);
    }
  }

  lemma {:induction false} ScanAppend(a: seq<Entry>, b: seq<Entry>)
    ensures Scan(a + b, |a + b|) == Continue(Scan(a, |a|), b)
  {
    if b == [] {
      assert a + b == a;
    } else {
      var n := |a + b| - 1;
      ScanAppend(a, b[..|b| - 1]);
      assert (a + b)[..n] == a + b[..|b| - 1];
      ScanPrefix(a + b, n, n);
    }
  }

  lemma ContinueOne(p: Progress, x: Entry)
    ensures Continue(p, [x]) == Next(p, x)
  {
    assert [x][..0] == [];
  }

  /** If `q` has not failed, neither has `p`, which has seen at least as much availability. */
  predicate Wider(p: Progress, q: Progress) {
    q.Running? ==>
      && p.Running?
      && p.state.latest == q.state.latest && p.state.starts == q.state.starts
      && p.state.inFlight.Some? == q.state.inFlight.Some?
      && (q.state.inFlight == Some(true) ==> p.state.inFlight == Some(true))
  }

  lemma {:induction false} WiderContinue(p: Progress, q: Progress, b: seq<Entry>)
    requires Wider(p, q)
    ensures Wider(Continue(p, b), Continue(q, b))
  {
    if b != [] {
      WiderContinue(p, q, b[..|b| - 1]);
    }
  }

  predicate StatesOnly(b: seq<Entry>) {
    forall k :: 0 <= k < |b| ==> b[k].StateReceived?
  }

  predicate SeesAvailable(b: seq<Entry>) {
    StateReceived(Available) in b
  }

  /** What a run of received states does to the judge. */
  lemma {:induction false} OverStates(s: State, b: seq<Entry>)
    requires StatesOnly(b)
    ensures var r := Continue(Running(s), b);
            && r.Running? && r.state.starts == s.starts
            && r.state.latest == (if b == [] then s.latest else Some(b[|b| - 1].available))
            && r.state.inFlight == if s.inFlight.Some? then Some(s.inFlight.value || SeesAvailable(b)) else None
  {
    if b != [] {
      OverStates(s, b[..|b| - 1]);
      assert b == b[..|b| - 1] + [b[|b| - 1]];
    }
  }

  lemma {:induction false} NeverStoppedPassing(e: seq<Entry>, n: nat)
    requires n <= |e|
    ensures Scan(e, n).Stopped? ==> Scan(e, n).verdict != Pass
  {
    if n > 0 {
      NeverStoppedPassing(e, n - 1);
    }
  }

  lemma {:induction false} StaysStopped(p: Progress, b: seq<Entry>)
    requires p.Stopped?
    ensures Continue(p, b) == p
  {
    if b != [] {
      StaysStopped(p, b[..|b| - 1]);
    }
  }

  /** Opening a bracket earlier witnesses no less. */
  lemma EarlierSending(p: Progress, b: seq<Entry>, roles: seq<string>)
    requires StatesOnly(b)
    ensures Wider(Continue(Next(p, Sending(roles)), b), Next(Continue(p, b), Sending(roles)))
  {
    if p.Running? {
      OverStates(p.state, b);
      OverStates(Next(p, Sending(roles)).state, b);
      if b != [] { assert b[|b| - 1] in b; }
    } else {
      StaysStopped(p, b);
    }
  }

  /** Closing a bracket later witnesses no less. */
  lemma LaterSent(p: Progress, b: seq<Entry>, roles: seq<string>)
    requires StatesOnly(b)
    ensures Wider(Next(Continue(p, b), Sent(roles)), Continue(Next(p, Sent(roles)), b))
  {
    if p.Running? {
      OverStates(p.state, b);
      if Next(p, Sent(roles)).Running? {
        OverStates(Next(p, Sent(roles)).state, b);
      } else {
        StaysStopped(Next(p, Sent(roles)), b);
      }
    } else {
      StaysStopped(p, b);
    }
  }

  lemma Reordered(a: seq<Entry>, d: seq<Entry>, e: seq<Entry>, c: seq<Entry>)
    requires Wider(Continue(Scan(a, |a|), d), Continue(Scan(a, |a|), e))
    requires JudgeEntries(a + e + c) == Pass
    ensures JudgeEntries(a + d + c) == Pass
  {
    ScanAppend(a, d);
    ScanAppend(a, e);
    ScanAppend(a + d, c);
    ScanAppend(a + e, c);
    NeverStoppedPassing(a + e + c, |a + e + c|);
    hide Continue, Scan;
    WiderContinue(Continue(Scan(a, |a|), d), Continue(Scan(a, |a|), e), c);
  }

  lemma {:induction false} ContinueAppend(p: Progress, a: seq<Entry>, b: seq<Entry>)
    ensures Continue(p, a + b) == Continue(Continue(p, a), b)
  {
    if b == [] {
      assert a + b == a;
    } else {
      ContinueAppend(p, a, b[..|b| - 1]);
      assert (a + b)[..|a + b| - 1] == a + b[..|b| - 1];
    }
  }

  /**
   A wider bracket witnesses less: moving a `sending` entry earlier, or a `sent` entry later,
   across client/state entries never turns a pass into a violation or a harness gap.
   */
  lemma WideningIsSafe(a: seq<Entry>, b: seq<Entry>, roles: seq<string>, c: seq<Entry>)
    requires StatesOnly(b)
    ensures JudgeEntries(a + (b + [Sending(roles)]) + c) == Pass ==>
              JudgeEntries(a + ([Sending(roles)] + b) + c) == Pass
    ensures JudgeEntries(a + ([Sent(roles)] + b) + c) == Pass ==>
              JudgeEntries(a + (b + [Sent(roles)]) + c) == Pass
  {
    hide Continue, Scan, JudgeEntries;
    var p := Scan(a, |a|);
    forall x | x == Sending(roles) || x == Sent(roles)
      ensures Continue(p, b + [x]) == Next(Continue(p, b), x)
      ensures Continue(p, [x] + b) == Continue(Next(p, x), b)
    {
      ContinueAppend(p, b, [x]);
      ContinueAppend(p, [x], b);
      ContinueOne(p, x);
      ContinueOne(Continue(p, b), x);
    }
    EarlierSending(p, b, roles);
    LaterSent(p, b, roles);
    if JudgeEntries(a + (b + [Sending(roles)]) + c) == Pass {
      Reordered(a, [Sending(roles)] + b, b + [Sending(roles)], c);
    }
    if JudgeEntries(a + ([Sent(roles)] + b) + c) == Pass {
      Reordered(a, b + [Sent(roles)], [Sent(roles)] + b, c);
    }
  }
}
