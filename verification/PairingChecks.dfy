/**
 The validator's checks of pairing with a code: which index answers an activation, whether five
 wrong codes close the window, and which verification stage failed. Each is judged from the
 frames recorded after frame `since`.
 */
module PairingChecks {
  import opened Wire

  datatype FrameKind =
    | ServerActivation | Handshake | PairInit | PairPending | PairAbort | Goodbye
    | PairConfirm | PairFinalize | TimeMessage | OtherKind

  /**
   One recorded frame. `pairing` says a server/activate lists the pairing activity, `mismatch`
   that the reason it carries is `pairing_code_mismatch`, `index` its integer pairing_index.
   */
  datatype Frame = Frame(
    id: nat, inbound: bool, transport: bool, kind: FrameKind, pairing: bool, mismatch: bool, index: Option<int>)

  datatype Event =
    | PairingFailed(afterFrame: nat, stage: Option<nat>)
    | Keyed(afterFrame: nat, longTerm: bool)
    | OtherEvent

  datatype Record = Record(frames: seq<Frame>, events: seq<Event>, rejected: bool)

  datatype Verdict = Pass | Fail | NotApplicable | ToolError

  const LOCKOUT_ATTEMPTS := 5
  const UNWRAP: nat := 3
  const CLIENT_KC: nat := 0

  predicate IsOut(f: Frame, kind: FrameKind) {
    !f.inbound && f.transport && f.kind == kind
  }

  predicate IsIn(f: Frame, kind: FrameKind) {
    f.inbound && f.transport && f.kind == kind
  }

  predicate IsActivation(f: Frame) {
    IsOut(f, ServerActivation) && f.pairing
  }

  /** The pairing activations sent after frame `since`, in recording order. */
  function Activations(frames: seq<Frame>, since: nat): (r: seq<Frame>)
    ensures forall a :: a in r ==> a in frames && a.id > since && IsActivation(a)
  {
    if frames == [] then []
    else
      var rest, last := Activations(frames[..|frames| - 1], since), frames[|frames| - 1];
      if last.id > since && IsActivation(last) then rest + [last] else rest
  }

  /** A pairing activation sent after frame `since`. */
  predicate Activates(f: Frame, since: nat) {
    f.id > since && !f.inbound && f.transport && f.kind == ServerActivation && f.pairing
  }

  /** How many of the first `n` frames are such activations. */
  function ActivationsIn(frames: seq<Frame>, since: nat, n: nat): set<nat>
    requires n <= |frames|
  {
    set i | 0 <= i < n && Activates(frames[i], since)
  }

  lemma InPrefix(frames: seq<Frame>, since: nat, n: nat)
    requires n < |frames|
    ensures ActivationsIn(frames, since, n) == ActivationsIn(frames[..|frames| - 1], since, n)
  {
    assert forall h :: 0 <= h < n ==> frames[h] == frames[..|frames| - 1][h];
  }

  lemma OneMoreIn(frames: seq<Frame>, since: nat, n: nat)
    requires n < |frames|
    ensures |ActivationsIn(frames, since, n + 1)| ==
            |ActivationsIn(frames, since, n)| + if Activates(frames[n], since) then 1 else 0
  {
    var all := ActivationsIn(frames, since, n + 1);
    assert all == ActivationsIn(frames, since, n) + if Activates(frames[n], since) then {n} else {};
  }

  /** As many are listed as there are. */
  lemma {:induction false} ActivationsCounted(frames: seq<Frame>, since: nat)
    ensures |Activations(frames, since)| == |ActivationsIn(frames, since, |frames|)|
  {
    hide ActivationsIn;
    if frames == [] {
      NoneIn(frames, since);
    } else {
      var n := |frames| - 1;
      ActivationsCounted(frames[..n], since);
      OneMoreIn(frames, since, n);
      InPrefix(frames, since, n);
    }
  }

  lemma NoneIn(frames: seq<Frame>, since: nat)
    ensures ActivationsIn(frames, since, 0) == {}
  {
  }

  /** And in recording order: the one with `k` before it is the `k`-th. */
  lemma {:induction false} ActivationIs(frames: seq<Frame>, since: nat, i: nat)
    requires i < |frames| && Activates(frames[i], since)
    ensures var k := |ActivationsIn(frames, since, i)|;
            k < |Activations(frames, since)| && Activations(frames, since)[k] == frames[i]
  {
    hide ActivationsIn, Activates;
    var n := |frames| - 1;
    InPrefix(frames, since, i);
    if i == n {
      ActivationsCounted(frames[..n], since);
      LastListed(frames, since);
    } else {
      assert frames[..n][i] == frames[i];
      ActivationIs(frames[..n], since, i);
      EarlierListed(frames, since);
    }
  }

  lemma LastListed(frames: seq<Frame>, since: nat)
    requires frames != [] && Activates(frames[|frames| - 1], since)
    ensures Activations(frames, since) == Activations(frames[..|frames| - 1], since) + [frames[|frames| - 1]]
  {
  }

  lemma EarlierListed(frames: seq<Frame>, since: nat)
    requires frames != []
    ensures Activations(frames[..|frames| - 1], since) <= Activations(frames, since)
  {
  }

  /** The first frame, from index `k` on, that satisfies a test. */
  function FirstFrom(frames: seq<Frame>, holds: Frame -> bool, k: nat): (f: Option<Frame>)
    requires k <= |frames|
    ensures f.Some? ==> exists i :: k <= i < |frames| && frames[i] == f.value && holds(f.value) &&
                                    forall h :: k <= h < i ==> !holds(frames[h])
    ensures f.None? ==> forall i :: k <= i < |frames| ==> !holds(frames[i])
    decreases |frames| - k
  {
    if k == |frames| then None
    else if holds(frames[k]) then Some(frames[k])
    else FirstFrom(frames, holds, k + 1)
  }

  function First(frames: seq<Frame>, holds: Frame -> bool): Option<Frame> {
    FirstFrom(frames, holds, 0)
  }

  /** Frames are recorded with ever higher ids. */
  ghost predicate Ascending(frames: seq<Frame>) {
    forall i, j :: 0 <= i < j < |frames| ==> frames[i].id < frames[j].id
  }

  // ---- Lockout ----

  /** Where the window of the `k`-th activation ends: at the next one, if there is one. */
  function WindowEnd(activations: seq<Frame>, k: nat): Option<nat>
    requires k < |activations|
  {
    if k + 1 < |activations| then Some(activations[k + 1].id) else None
  }

  predicate InWindow(f: Frame, start: nat, end: Option<nat>) {
    f.id > start && (end.Some? ==> f.id < end.value)
  }

  /** The first pair/abort the client sent in the window of the `k`-th activation. */
  function AbortOf(frames: seq<Frame>, activations: seq<Frame>, k: nat): Option<Frame>
    requires k < |activations|
  {
    var start, end := activations[k].id, WindowEnd(activations, k);
    First(frames, (f: Frame) => InWindow(f, start, end) && IsIn(f, PairAbort))
  }

  predicate Mismatched(frames: seq<Frame>, activations: seq<Frame>, k: nat)
    requires k < |activations|
  {
    AbortOf(frames, activations, k).Some? && AbortOf(frames, activations, k).value.mismatch
  }

  predicate AnswersPairing(f: Frame) {
    f.kind == PairInit || f.kind == PairPending || f.kind == PairAbort || f.kind == Goodbye
  }

  /** The client's first answer to the sixth activation. */
  function SixthAnswer(frames: seq<Frame>, activations: seq<Frame>): Option<Frame>
    requires |activations| > LOCKOUT_ATTEMPTS
  {
    var start := activations[LOCKOUT_ATTEMPTS].id;
    First(frames, (f: Frame) => f.id > start && f.inbound && f.transport && AnswersPairing(f))
  }

  /** Each of the first `n` activations ended in a pair/abort for a wrong code. */
  predicate AllMismatched(frames: seq<Frame>, activations: seq<Frame>, n: nat)
    requires n <= |activations|
  {
    forall k :: 0 <= k < n ==> Mismatched(frames, activations, k)
  }

  /** How many activations are attempts of the lockout check. */
  function Attempts(activations: seq<Frame>): (n: nat)
    ensures n <= |activations|
  {
    if |activations| < LOCKOUT_ATTEMPTS then |activations| else LOCKOUT_ATTEMPTS
  }

  /** The two lockout findings: that five wrong codes failed cleanly, and that a sixth was held. */
  method CheckLockout(record: Record, since: nat) returns (failed: Verdict, held: Verdict)
    ensures var a := Activations(record.frames, since);
            && (failed == Fail <==> !AllMismatched(record.frames, a, if |a| < 5 then |a| else 5))
            && (failed == Pass <==> |a| >= 5 && AllMismatched(record.frames, a, 5))
            && failed != ToolError
            && held == (if failed != Pass || |a| == 5 then NotApplicable
                        else if SixthAnswer(record.frames, a).Some? &&
                                SixthAnswer(record.frames, a).value.kind == PairPending then Pass
                        else Fail)
  {
    hide Activations, First, Mismatched;
    var activations := Activations(record.frames, since);
    for k := 0 to Attempts(activations)
      invariant AllMismatched(record.frames, activations, k)
    {
      var abort := AbortOf(record.frames, activations, k);
      MismatchIs(record.frames, activations, k);
      if abort.None? || !abort.value.mismatch {
        return Fail, NotApplicable;
      }
    }
    if |activations| < LOCKOUT_ATTEMPTS {
      return NotApplicable, NotApplicable;
    }
    if |activations| <= LOCKOUT_ATTEMPTS {
      return Pass, NotApplicable;
    }
    var answer := SixthAnswer(record.frames, activations);
    if answer.Some? && answer.value.kind == PairPending {
      return Pass, Pass;
    }
    return Pass, Fail;
  }

  /** Frame `i` is the client's first pair/abort in the window of the `k`-th activation. */
  predicate EndsAttempt(frames: seq<Frame>, activations: seq<Frame>, k: nat, i: nat) {
    && k < |activations| && i < |frames| && AbortsIn(frames[i], activations, k)
    && forall h :: 0 <= h < i ==> !AbortsIn(frames[h], activations, k)
  }

  predicate AbortsIn(f: Frame, activations: seq<Frame>, k: nat)
    requires k < |activations|
  {
    && f.inbound && f.transport && f.kind == PairAbort && f.id > activations[k].id
    && (k + 1 < |activations| ==> f.id < activations[k + 1].id)
  }

  lemma EndsOnce(frames: seq<Frame>, activations: seq<Frame>, k: nat, i: nat, j: nat)
    requires EndsAttempt(frames, activations, k, i) && EndsAttempt(frames, activations, k, j)
    ensures i == j
  {
  }

  /** An attempt counts when the pair/abort that ended it, the first in its window, names a mismatch. */
  lemma MismatchMeaning(frames: seq<Frame>, activations: seq<Frame>, k: nat)
    requires k < |activations|
    ensures Mismatched(frames, activations, k) <==>
            exists i: nat :: EndsAttempt(frames, activations, k, i) && frames[i].mismatch
  {
    var abort := AbortOf(frames, activations, k);
    if abort.Some? {
      var i: nat :| i < |frames| && frames[i] == abort.value && EndsAttempt(frames, activations, k, i);
      forall j: nat | EndsAttempt(frames, activations, k, j) ensures j == i {
        EndsOnce(frames, activations, k, i, j);
      }
    }
    hide AbortOf;
  }

  /** Frame `i` is the client's first answer to the sixth activation. */
  predicate AnswersSixth(frames: seq<Frame>, activations: seq<Frame>, i: nat) {
    && |activations| > 5 && i < |frames| && AfterSixth(frames[i], activations)
    && forall h :: 0 <= h < i ==> !AfterSixth(frames[h], activations)
  }

  predicate AfterSixth(f: Frame, activations: seq<Frame>)
    requires |activations| > 5
  {
    f.id > activations[5].id && f.inbound && f.transport && f.kind in {PairInit, PairPending, PairAbort, Goodbye}
  }

  lemma AnswersOnce(frames: seq<Frame>, activations: seq<Frame>, i: nat, j: nat)
    requires AnswersSixth(frames, activations, i) && AnswersSixth(frames, activations, j)
    ensures i == j
  {
  }

  /** The sixth attempt was held back: its first answer is client/pair-pending. */
  lemma HeldMeaning(frames: seq<Frame>, activations: seq<Frame>)
    requires |activations| > 5
    ensures SixthAnswer(frames, activations).Some? && SixthAnswer(frames, activations).value.kind == PairPending <==>
            exists i: nat :: AnswersSixth(frames, activations, i) && frames[i].kind == PairPending
  {
    var answer := SixthAnswer(frames, activations);
    if answer.Some? {
      var i: nat :| i < |frames| && frames[i] == answer.value && AnswersSixth(frames, activations, i);
      forall j: nat | AnswersSixth(frames, activations, j) ensures j == i {
        AnswersOnce(frames, activations, i, j);
      }
    }
    hide SixthAnswer;
  }

  lemma MismatchIs(frames: seq<Frame>, activations: seq<Frame>, k: nat)
    requires k < |activations|
    ensures Mismatched(frames, activations, k) <==>
            AbortOf(frames, activations, k).Some? && AbortOf(frames, activations, k).value.mismatch
  {
  }

  lemma {:induction false} ActivationsAscend(frames: seq<Frame>, since: nat)
    requires Ascending(frames)
    ensures Ascending(Activations(frames, since))
    ensures frames != [] ==> forall a :: a in Activations(frames[..|frames| - 1], since) ==>
              a.id < frames[|frames| - 1].id
  {
    if frames != [] {
      var front := frames[..|frames| - 1];
      ActivationsAscend(front, since);
      forall a | a in Activations(front, since) ensures a.id < frames[|frames| - 1].id {
        assert a in front;
      }
    }
  }

  /** The abort that ended an attempt lies in its window. */
  lemma AbortInWindow(frames: seq<Frame>, activations: seq<Frame>, k: nat)
    requires k < |activations| && Mismatched(frames, activations, k)
    ensures var abort := AbortOf(frames, activations, k).value;
            && abort in frames && IsIn(abort, PairAbort) && abort.mismatch
            && InWindow(abort, activations[k].id, WindowEnd(activations, k))
  {
  }

  /**
   Passing the lockout check takes five different aborts: each a `pairing_code_mismatch` the
   client sent, each inside the window of its own activation, before the next one began.
   */
  lemma FiveDistinctAborts(frames: seq<Frame>, since: nat, k: nat, l: nat)
    requires Ascending(frames) && k < l < 5 <= |Activations(frames, since)|
    requires AllMismatched(frames, Activations(frames, since), 5)
    ensures var a := Activations(frames, since);
            var x, y := AbortOf(frames, a, k), AbortOf(frames, a, l);
            && x.Some? && y.Some?
            && x.value in frames && IsIn(x.value, PairAbort) && x.value.mismatch
            && y.value in frames && IsIn(y.value, PairAbort) && y.value.mismatch
            && a[k].id < x.value.id < a[l].id < y.value.id
  {
    var a := Activations(frames, since);
    ActivationsAscend(frames, since);
    AbortInWindow(frames, a, k);
    AbortInWindow(frames, a, l);
    hide AbortOf, Activations;
    assert a[k + 1].id <= a[l].id;
  }

  // ---- Verification stages ----

  predicate IsConfirm(f: Frame, since: nat) {
    f.id > since && IsIn(f, PairConfirm)
  }

  /** The last client/pair-confirm received after frame `since`. */
  function LastConfirm(frames: seq<Frame>, since: nat): (f: Option<Frame>)
    ensures f.Some? ==> exists k: nat :: IsLastConfirm(frames, since, k) && frames[k] == f.value
    ensures f.None? ==> forall k :: 0 <= k < |frames| ==> !IsConfirm(frames[k], since)
  {
    if frames == [] then None
    else
      var last, front := frames[|frames| - 1], frames[..|frames| - 1];
      if IsConfirm(last, since) then assert IsLastConfirm(frames, since, |frames| - 1); Some(last)
      else
        assert forall k: nat :: IsLastConfirm(front, since, k) ==> IsLastConfirm(frames, since, k);
        LastConfirm(front, since)
  }

  predicate IsLastConfirm(frames: seq<Frame>, since: nat, k: nat) {
    && k < |frames| && IsConfirm(frames[k], since)
    && forall h :: k < h < |frames| ==> !IsConfirm(frames[h], since)
  }

  /** The validator aborted for a wrong code after frame `id`. */
  predicate Aborted(frames: seq<Frame>, id: nat) {
    exists k :: 0 <= k < |frames| && frames[k].id > id && IsOut(frames[k], PairAbort) && frames[k].mismatch
  }

  /** Frame `k` is the first server/pair-finalize after frame `id`. */
  predicate Acknowledges(frames: seq<Frame>, id: nat, k: nat) {
    && k < |frames| && frames[k].id > id && IsOut(frames[k], PairFinalize)
    && forall h :: 0 <= h < k ==> !(frames[h].id > id && IsOut(frames[h], PairFinalize))
  }

  predicate IsFailure(e: Event, from: nat) {
    e.PairingFailed? && e.afterFrame >= from
  }

  predicate IsKeyed(e: Event, after: nat) {
    e.Keyed? && e.afterFrame > after
  }

  function FirstFailure(events: seq<Event>, from: nat, k: nat): (e: Option<Event>)
    requires k <= |events|
    ensures e.Some? ==> exists i :: k <= i < |events| && events[i] == e.value && IsFailure(e.value, from) &&
                                    forall h :: k <= h < i ==> !IsFailure(events[h], from)
    ensures e.None? ==> forall i :: k <= i < |events| ==> !IsFailure(events[i], from)
    decreases |events| - k
  {
    if k == |events| then None
    else if IsFailure(events[k], from) then Some(events[k])
    else FirstFailure(events, from, k + 1)
  }

  function FirstKeyed(events: seq<Event>, after: nat, k: nat): (e: Option<Event>)
    requires k <= |events|
    ensures e.Some? ==> exists i :: k <= i < |events| && events[i] == e.value && IsKeyed(e.value, after) &&
                                    forall h :: k <= h < i ==> !IsKeyed(events[h], after)
    ensures e.None? ==> forall i :: k <= i < |events| ==> !IsKeyed(events[i], after)
    decreases |events| - k
  {
    if k == |events| then None
    else if IsKeyed(events[k], after) then Some(events[k])
    else FirstKeyed(events, after, k + 1)
  }

  /** The first keying of the session after frame `after` was by a long-term key. */
  predicate KeyedLongTerm(events: seq<Event>, after: nat) {
    exists i :: 0 <= i < |events| && IsKeyed(events[i], after) && events[i].longTerm &&
                forall h :: 0 <= h < i ==> !IsKeyed(events[h], after)
  }

  /** The first pairing failure from frame `from` on names `stage`. */
  predicate FirstFailureNames(events: seq<Event>, from: nat, stage: nat) {
    exists i :: 0 <= i < |events| && IsFailure(events[i], from) && events[i].stage == Some(stage) &&
                forall h :: 0 <= h < i ==> !IsFailure(events[h], from)
  }

  /** What was established after a confirm: the stage that failed, if any, or nothing certain. */
  datatype Decision = Undecided | Decided(failed: Option<nat>)

  /**
   What the frames and events after the confirm, frame `id`, establish. An abort for a wrong code
   comes first; then a finalize, which passes when the session was next keyed by a long-term key;
   then the first failure that names a stage.
   */
  ghost predicate Establishes(record: Record, id: nat, d: Decision) {
    if Aborted(record.frames, id) then d == Decided(Some(0))
    else if exists k: nat :: Acknowledges(record.frames, id, k) then
      exists k: nat :: Acknowledges(record.frames, id, k) &&
                       d == Decided(if KeyedLongTerm(record.events, record.frames[k].id) then None else Some(3))
    else
      match d
      case Undecided => forall stage: nat :: !FirstFailureNames(record.events, id, stage)
      case Decided(None) => false
      case Decided(Some(stage)) => FirstFailureNames(record.events, id, stage)
  }

  /** No two decisions can be established by the same record. */
  lemma EstablishedOnce(record: Record, id: nat, a: Decision, b: Decision)
    requires Establishes(record, id, a) && Establishes(record, id, b)
    ensures a == b
  {
    forall j: nat, k: nat | Acknowledges(record.frames, id, j) && Acknowledges(record.frames, id, k) ensures j == k {
      assert !(j < k) && !(k < j);
    }
    forall s: nat, t: nat | FirstFailureNames(record.events, id, s) && FirstFailureNames(record.events, id, t) ensures s == t {
      FailureOnce(record.events, id, s, t);
    }
    hide Aborted, Acknowledges, KeyedLongTerm, FirstFailureNames;
  }

  lemma FailureOnce(events: seq<Event>, from: nat, s: nat, t: nat)
    requires FirstFailureNames(events, from, s) && FirstFailureNames(events, from, t)
    ensures s == t
  {
    var i :| 0 <= i < |events| && IsFailure(events[i], from) && events[i].stage == Some(s) &&
             forall h :: 0 <= h < i ==> !IsFailure(events[h], from);
    var j :| 0 <= j < |events| && IsFailure(events[j], from) && events[j].stage == Some(t) &&
             forall h :: 0 <= h < j ==> !IsFailure(events[h], from);
    assert !(i < j) && !(j < i);
  }

  function StageVerdict(stage: nat, failed: Option<nat>): Verdict {
    if failed.None? || stage < failed.value then Pass
    else if stage == failed.value then Fail
    else NotApplicable
  }

  predicate Increasing(stages: seq<nat>) {
    forall i, j :: 0 <= i < j < |stages| ==> stages[i] < stages[j]
  }

  /** One finding a stage, in stage order. */
  function FindingsOf(stages: seq<nat>, d: Decision): (r: seq<Verdict>)
    ensures |r| == |stages|
  {
    match d
    case Undecided => seq(|stages|, _ => ToolError)
    case Decided(failed) => StageFindings(stages, failed)
  }

  /** The last confirm, and the decision on what followed it; not applicable without one. */
  ghost predicate Verified(record: Record, since: nat, stages: seq<nat>, findings: seq<Verdict>) {
    if forall k :: 0 <= k < |record.frames| ==> !IsConfirm(record.frames[k], since)
    then findings == seq(|stages|, _ => NotApplicable)
    else
      exists k: nat, d :: IsLastConfirm(record.frames, since, k) &&
                          Establishes(record, record.frames[k].id, d) && findings == FindingsOf(stages, d)
  }

  method CheckVerification(record: Record, since: nat, stages: seq<nat>) returns (findings: seq<Verdict>)
    requires Increasing(stages)
    ensures |findings| == |stages|
    ensures Verified(record, since, stages, findings)
  {
    var confirm := LastConfirm(record.frames, since);
    if confirm.None? {
      return seq(|stages|, _ => NotApplicable);
    }
    var decision := DecideFrom(record, confirm.value.id);
    ghost var k: nat :| IsLastConfirm(record.frames, since, k) && record.frames[k] == confirm.value;
    hide Establishes;
    assert Establishes(record, record.frames[k].id, decision);
    if decision.Undecided? {
      findings := seq(|stages|, _ => ToolError);
    } else {
      findings := ListStages(stages, decision.failed);
    }
    assert findings == FindingsOf(stages, decision);
  }

  /** The three lookups after the confirm, and which of them decides. */
  method DecideFrom(record: Record, id: nat) returns (d: Decision)
    ensures Establishes(record, id, d)
  {
    var abort := First(record.frames, (f: Frame) => f.id > id && IsOut(f, PairAbort) && f.mismatch);
    var failure := FirstFailure(record.events, id, 0);
    var acknowledged := First(record.frames, (f: Frame) => f.id > id && IsOut(f, PairFinalize));
    if abort.Some? {
      return Decided(Some(CLIENT_KC));
    }
    if acknowledged.Some? {
      ghost var k: nat :| Acknowledges(record.frames, id, k) && record.frames[k] == acknowledged.value;
      var failed := PromotionFailure(record.events, acknowledged.value.id);
      return Decided(failed);
    }
    if failure.Some? && failure.value.stage.Some? {
      assert FirstFailureNames(record.events, id, failure.value.stage.value);
      return Decided(failure.value.stage);
    }
    return Undecided;
  }

  /** UNWRAP, unless the session was next keyed by a long-term key. */
  method PromotionFailure(events: seq<Event>, after: nat) returns (failed: Option<nat>)
    ensures failed == if KeyedLongTerm(events, after) then None else Some(UNWRAP)
  {
    var keyed := FirstKeyed(events, after, 0);
    return if keyed.Some? && keyed.value.longTerm then None else Some(UNWRAP);
  }

  method ListStages(stages: seq<nat>, failed: Option<nat>) returns (findings: seq<Verdict>)
    ensures findings == StageFindings(stages, failed)
  {
    findings := [];
    for i := 0 to |stages|
      invariant |findings| == i
      invariant forall h :: 0 <= h < i ==> findings[h] == StageVerdict(stages[h], failed)
    {
      if failed.None? || stages[i] < failed.value {
        findings := findings + [Pass];
      } else if stages[i] == failed.value {
        findings := findings + [Fail];
      } else {
        findings := findings + [NotApplicable];
      }
    }
  }

  /** The findings of a decided verification, one a stage. */
  function StageFindings(stages: seq<nat>, failed: Option<nat>): (r: seq<Verdict>)
    ensures |r| == |stages|
  {
    seq(|stages|, i requires 0 <= i < |stages| => StageVerdict(stages[i], failed))
  }

  lemma {:induction false} StagesBelow(stages: seq<nat>, failed: nat) returns (p: nat)
    requires Increasing(stages)
    ensures p <= |stages|
    ensures forall i :: 0 <= i < p ==> stages[i] < failed
    ensures forall i :: p <= i < |stages| ==> stages[i] >= failed
  {
    if stages == [] || stages[|stages| - 1] < failed {
      p := |stages|;
    } else {
      p := StagesBelow(stages[..|stages| - 1], failed);
    }
  }

  /** A decided verification reads passes, then at most one failure, then what was not reached. */
  lemma DecidedInStageOrder(stages: seq<nat>, failed: Option<nat>) returns (p: nat, q: nat)
    requires Increasing(stages)
    ensures p <= q <= |stages| && q <= p + 1
    ensures forall i :: 0 <= i < |stages| ==>
              StageFindings(stages, failed)[i] == if i < p then Pass else if i < q then Fail else NotApplicable
    ensures failed.None? ==> p == |stages|
    ensures failed.Some? ==> forall i :: 0 <= i < |stages| ==> (i < p <==> stages[i] < failed.value)
    ensures failed.Some? ==> forall i :: 0 <= i < |stages| ==> (p <= i < q <==> stages[i] == failed.value)
  {
    p, q := |stages|, |stages|;
    if failed.Some? {
      p := StagesBelow(stages, failed.value);
      q := if p < |stages| && stages[p] == failed.value then p + 1 else p;
    }
  }

  // ---- The pairing index ----

  predicate IsRestart(f: Frame) {
    !f.inbound && f.kind == Handshake
  }

  /** Frame `k` lies before the first frame later than `upTo`. */
  predicate Reached(frames: seq<Frame>, upTo: nat, k: nat) {
    k < |frames| && forall i :: 0 <= i <= k ==> frames[i].id <= upTo
  }

  /** A pairing activation up to frame `upTo` that no outbound handshake follows by then. */
  predicate Counts(frames: seq<Frame>, upTo: nat, k: nat) {
    && Reached(frames, upTo, k) && IsActivation(frames[k])
    && forall i :: k < i < |frames| && Reached(frames, upTo, i) ==> !IsRestart(frames[i])
  }

  /** How many pairing activations were sent since the last handshake, up to frame `upTo`. */
  function ActivationCount(frames: seq<Frame>, upTo: nat): nat {
    |set k | 0 <= k < |frames| && Counts(frames, upTo, k)|
  }

  /** The activations among the first `n` frames that no handshake follows among them. */
  function CountedBy(frames: seq<Frame>, n: nat): set<nat>
    requires n <= |frames|
  {
    set k | 0 <= k < n && IsActivation(frames[k]) && NoRestart(frames, k, n)
  }

  predicate NoRestart(frames: seq<Frame>, k: nat, n: nat)
    requires n <= |frames|
  {
    forall i :: k < i < n ==> !IsRestart(frames[i])
  }

  method CountActivations(record: Record, activation: Frame) returns (count: nat)
    ensures count == ActivationCount(record.frames, activation.id)
  {
    count := 0;
    for i := 0 to |record.frames|
      invariant count == |CountedBy(record.frames, i)|
      invariant forall k :: 0 <= k < i ==> record.frames[k].id <= activation.id
    {
      var f := record.frames[i];
      if f.id > activation.id {
        CountedIs(record.frames, activation.id, i);
        return;
      }
      CountedStep(record.frames, i);
      if !f.inbound && f.kind == Handshake {
        count := 0;
      } else if IsActivation(f) {
        count := count + 1;
      }
    }
    CountedIs(record.frames, activation.id, |record.frames|);
  }

  lemma CountedStep(frames: seq<Frame>, i: nat)
    requires i < |frames|
    ensures CountedBy(frames, i + 1) ==
            if IsRestart(frames[i]) then {}
            else if IsActivation(frames[i]) then CountedBy(frames, i) + {i} else CountedBy(frames, i)
    ensures i !in CountedBy(frames, i)
  {
    var n := i + 1;
    assert forall k :: 0 <= k < i ==> (NoRestart(frames, k, n) <==> NoRestart(frames, k, i) && !IsRestart(frames[i]));
    assert NoRestart(frames, i, n);
  }

  /** What the loop has counted when it stops is what counts. */
  lemma CountedIs(frames: seq<Frame>, upTo: nat, n: nat)
    requires n <= |frames| && forall k :: 0 <= k < n ==> frames[k].id <= upTo
    requires n < |frames| ==> frames[n].id > upTo
    ensures |CountedBy(frames, n)| == ActivationCount(frames, upTo)
  {
    forall k: nat ensures Reached(frames, upTo, k) <==> k < n {
    }
    hide Reached;
    assert CountedBy(frames, n) == set k | 0 <= k < |frames| && Counts(frames, upTo, k);
  }

  /** The client's answers in the window of the `k`-th activation. */
  predicate IsAnswer(f: Frame, activations: seq<Frame>, k: nat)
    requires k < |activations|
  {
    InWindow(f, activations[k].id, WindowEnd(activations, k)) && f.inbound &&
    (f.kind == PairInit || f.kind == PairPending)
  }

  function AnswersTo(frames: seq<Frame>, activations: seq<Frame>, k: nat): (r: seq<Frame>)
    requires k < |activations|
    ensures forall f :: f in r <==> f in frames && IsAnswer(f, activations, k)
  {
    if frames == [] then []
    else
      var rest, last := AnswersTo(frames[..|frames| - 1], activations, k), frames[|frames| - 1];
      assert forall f :: f in frames <==> f in frames[..|frames| - 1] || f == last;
      if IsAnswer(last, activations, k) then rest + [last] else rest
  }

  /** An answer with a lower index is a leftover; one with no index, or a higher one, is wrong. */
  predicate Tolerable(f: Frame, expected: int) {
    f.index.Some? && f.index.value <= expected
  }

  /** An activation is answered well: one answer carries its index and none is wrong. */
  predicate AnsweredWell(frames: seq<Frame>, activations: seq<Frame>, k: nat)
    requires k < |activations|
  {
    var answers := AnswersTo(frames, activations, k);
    var expected := ActivationCount(frames, activations[k].id);
    answers == [] ||
    ((forall f :: f in answers ==> Tolerable(f, expected)) &&
     exists f :: f in answers && f.index == Some(expected))
  }

  /** Client/pair-init or client/pair-pending, between the `k`-th activation and the next. */
  predicate Answers(f: Frame, activations: seq<Frame>, k: nat)
    requires k < |activations|
  {
    && f.inbound && f.kind in {PairInit, PairPending} && f.id > activations[k].id
    && (k + 1 < |activations| ==> f.id < activations[k + 1].id)
  }

  /**
   An activation is answered well when nothing answers it, or when no answer has an index above
   its own or none at all, and some answer has its own.
   */
  lemma AnsweredWellMeaning(frames: seq<Frame>, activations: seq<Frame>, k: nat)
    requires k < |activations|
    ensures var own := ActivationCount(frames, activations[k].id);
            AnsweredWell(frames, activations, k) <==>
            || (forall f :: f in frames ==> !Answers(f, activations, k))
            || (&& (forall f :: f in frames && Answers(f, activations, k) ==> f.index.Some? && f.index.value <= own)
                && (exists f :: f in frames && Answers(f, activations, k) && f.index == Some(own)))
  {
    var answers := AnswersTo(frames, activations, k);
    hide AnswersTo, ActivationCount;
    assert forall f :: f in answers <==> f in frames && Answers(f, activations, k);
    if answers != [] {
      assert answers[0] in answers;
    }
  }

  predicate AllWell(frames: seq<Frame>, activations: seq<Frame>, n: nat)
    requires n <= |activations|
  {
    forall k :: 0 <= k < n ==> AnsweredWell(frames, activations, k)
  }

  predicate SomeAnswered(frames: seq<Frame>, activations: seq<Frame>, n: nat)
    requires n <= |activations|
  {
    exists k :: 0 <= k < n && AnswersTo(frames, activations, k) != []
  }

  method JudgeAnswers(record: Record, activations: seq<Frame>, k: nat) returns (well: bool)
    requires k < |activations|
    ensures well <==> AnsweredWell(record.frames, activations, k)
  {
    var answers := AnswersTo(record.frames, activations, k);
    hide AnswersTo;
    if answers == [] {
      return true;
    }
    var expected := CountActivations(record, activations[k]);
    var wrong := exists f :: f in answers && !Tolerable(f, expected);
    return !wrong && exists f :: f in answers && f.index == Some(expected);
  }

  /** Each pairing activation is answered with its own index. */
  method CheckPairingIndex(record: Record, since: nat) returns (v: Verdict)
    ensures var a := Activations(record.frames, since);
            v == (if !AllWell(record.frames, a, |a|) then Fail
                  else if SomeAnswered(record.frames, a, |a|) then Pass
                  else if record.rejected then NotApplicable else Fail)
  {
    hide Activations, AnsweredWell, AnswersTo;
    var activations := Activations(record.frames, since);
    var judged := false;
    for k := 0 to |activations|
      invariant AllWell(record.frames, activations, k)
      invariant judged <==> SomeAnswered(record.frames, activations, k)
    {
      var well := JudgeAnswers(record, activations, k);
      if !well {
        return Fail;
      }
      judged := judged || AnswersTo(record.frames, activations, k) != [];
    }
    if !judged {
      return if record.rejected then NotApplicable else Fail;
    }
    return Pass;
  }
}
