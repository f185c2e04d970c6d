/**
 What was traced and what was written.

 Audio and metadata are held back until a write completion covers them. These lemmas say what
 has been published after any number of steps: exactly what completed before the last write.
 */
module Deferred {
  import opened Wire
  import opened RecorderSpec
  import opened StartOrder

  // ---- Audio ----

  /** The size of the rest of the chunk header once the ID byte is gone. */
  const HEADER_AFTER_ID := FRAME_PREFIX_BYTES - 1

  predicate ChunkAt(tr: seq<Traced>, j: nat)
    requires j < |tr|
  {
    Start(tr, j).Some? && MessageAt(tr, j).id == AUDIO_CHUNK_MESSAGE_ID
  }

  /**
   The audio of the chunk completing at step `j`, when it is accepted: the header must be
   complete, and a chunk in one frame must have the length the trace's count implies.
   */
  function AcceptedAt(tr: seq<Traced>, j: nat): seq<seq<byte>>
    requires j < |tr|
  {
    if ChunkAt(tr, j) then
      var body := MessageAt(tr, j).body;
      if |body| >= HEADER_AFTER_ID && (Whole(tr[j]) ==> |body| - HEADER_AFTER_ID == tr[j].audioBytes)
      then [body[HEADER_AFTER_ID..]] else []
    else []
  }

  function TimestampAt(tr: seq<Traced>, j: nat): seq<int>
    requires j < |tr|
  {
    if ChunkAt(tr, j) && |MessageAt(tr, j).body| >= TIMESTAMP_BYTES
    then [ReadBeInt64(MessageAt(tr, j).body)] else []
  }

  /** The audio accepted by the first `n` steps, in the order the chunks completed. */
  function Accepted(tr: seq<Traced>, n: nat): seq<seq<byte>>
    requires n <= |tr|
  {
    if n == 0 then [] else Accepted(tr, n - 1) + AcceptedAt(tr, n - 1)
  }

  function Timestamps(tr: seq<Traced>, n: nat): seq<int>
    requires n <= |tr|
  {
    if n == 0 then [] else Timestamps(tr, n - 1) + TimestampAt(tr, n - 1)
  }

  /** What has been published and what is pending, of everything accepted so far. */
  ghost predicate AudioConserved(tr: seq<Traced>, n: nat, a: Audio)
    requires n <= |tr|
  {
    && Accepted(tr, n) == Accepted(tr, LastWrite(tr, n)) + a.unwritten
    && a.sent == Concat(Accepted(tr, LastWrite(tr, n)))
    && a.chunkCount == |Accepted(tr, LastWrite(tr, n))|
    && a.timestamps == Timestamps(tr, n)
  }

  lemma WholeAudio(p: Parser, c: Conn, m: Traced)
    requires Valid(c) && Whole(m)
    ensures var msg, r := WholeMessage(m), Step(p, c, m).audio;
            if msg.id != AUDIO_CHUNK_MESSAGE_ID then r == c.audio
            else
              && r.timestamps == c.audio.timestamps +
                 (if |msg.body| >= TIMESTAMP_BYTES then [ReadBeInt64(msg.body)] else [])
              && r.unwritten == c.audio.unwritten +
                 (if |msg.body| >= HEADER_AFTER_ID && |msg.body| - HEADER_AFTER_ID == m.audioBytes
                  then [msg.body[HEADER_AFTER_ID..]] else [])
              && r.sent == c.audio.sent && r.chunkCount == c.audio.chunkCount
  {
    if WholeMessage(m).id == AUDIO_CHUNK_MESSAGE_ID && |m.plaintext| >= FRAME_PREFIX_BYTES {
      assert m.plaintext[1..][HEADER_AFTER_ID..] == m.plaintext[FRAME_PREFIX_BYTES..];
    }
  }

  lemma FragmentAudio(p: Parser, c: Conn, m: Traced)
    requires Valid(c) && Frag(m)
    ensures var f, r := Collected(c, m.plaintext), Step(p, c, m).audio;
            if Last(m) && f.kind == Some(AUDIO_CHUNK_MESSAGE_ID)
            then r == ReassembledAudio(c.audio, AUDIO_CHUNK_MESSAGE_ID, f.data)
            else r == c.audio
  {
  }

  lemma OtherAudio(p: Parser, c: Conn, m: Traced)
    requires Valid(c) && !Whole(m) && !Frag(m)
    ensures Step(p, c, m).audio ==
            if m.Written? then Audio(c.audio.timestamps, [], c.audio.sent + Concat(c.audio.unwritten),
                                     c.audio.chunkCount + |c.audio.unwritten|)
            else c.audio
  {
  }

  /** One step adds the chunk that completes there, and nothing else. */
  lemma AudioStep(p: Parser, tr: seq<Traced>, n: nat)
    requires n < |tr| && !tr[n].Written? && Reassembling(p, tr, n)
    ensures var a, r := Run(p, tr, n).audio, Run(p, tr, n + 1).audio;
            && r.timestamps == a.timestamps + TimestampAt(tr, n)
            && r.unwritten == a.unwritten + AcceptedAt(tr, n)
            && r.sent == a.sent && r.chunkCount == a.chunkCount
  {
    hide Step;
    var c, m := Run(p, tr, n), tr[n];
    assert Run(p, tr, n + 1) == Step(p, c, m);
    if Whole(m) {
      WholeAudio(p, c, m);
    } else if Frag(m) {
      FragmentAudio(p, c, m);
      CompletedFragment(p, tr, n);
    } else {
      OtherAudio(p, c, m);
    }
  }

  /** What the buffer holds at the last fragment is the message. */
  lemma CompletedFragment(p: Parser, tr: seq<Traced>, n: nat)
    requires n < |tr| && Frag(tr[n]) && Reassembling(p, tr, n)
    ensures var f := Collected(Run(p, tr, n), tr[n].plaintext);
            if Start(tr, n).Some? then MessageAt(tr, n) == Message(true, f.kind.value, f.data) && f.kind.Some?
            else !Last(tr[n]) || f.kind.None?
  {
    hide Step;
    var c, m := Run(p, tr, n), tr[n];
    if First(m) {
      assert Data(tr, n, n + 1) == FragmentPayload(m.plaintext);
    } else if Open(tr, n).Some? {
      assert Data(tr, Open(tr, n).value, n + 1) == c.fragment.data + FragmentPayload(m.plaintext);
    }
  }

  /**
   No audio is lost, duplicated or reordered: what is published, followed by what is pending,
   is what was accepted, in completion order; and what is published is what was accepted
   before the last write completion.
   */
  lemma {:induction false} AudioIsConserved(p: Parser, tr: seq<Traced>, n: nat)
    requires n <= |tr|
    ensures AudioConserved(tr, n, Run(p, tr, n).audio)
  {
    hide Step, InStartOrder, Reassembling, AudioConserved;
    if n == 0 {
      NothingYet(tr);
    } else {
      AudioIsConserved(p, tr, n - 1);
      if tr[n - 1].Written? {
        OtherAudio(p, Run(p, tr, n - 1), tr[n - 1]);
        AudioWritten(tr, n - 1, Run(p, tr, n - 1).audio);
      } else {
        RecordedInStartOrder(p, tr, n - 1);
        AudioStep(p, tr, n - 1);
        AudioTraced(tr, n - 1, Run(p, tr, n - 1).audio, Run(p, tr, n).audio);
      }
    }
  }

  lemma NothingYet(tr: seq<Traced>)
    ensures AudioConserved(tr, 0, EMPTY_CONN.audio)
  {
  }

  lemma AudioTraced(tr: seq<Traced>, n: nat, a: Audio, r: Audio)
    requires n < |tr| && !tr[n].Written? && AudioConserved(tr, n, a)
    requires r.timestamps == a.timestamps + TimestampAt(tr, n)
    requires r.unwritten == a.unwritten + AcceptedAt(tr, n)
    requires r.sent == a.sent && r.chunkCount == a.chunkCount
    ensures AudioConserved(tr, n + 1, r)
  {
    hide TimestampAt, AcceptedAt, Concat;
  }

  lemma AudioWritten(tr: seq<Traced>, n: nat, a: Audio)
    requires n < |tr| && tr[n].Written? && AudioConserved(tr, n, a)
    ensures AudioConserved(tr, n + 1, Audio(a.timestamps, [], a.sent + Concat(a.unwritten),
                                            a.chunkCount + |a.unwritten|))
  {
    hide Concat, Accepted, Timestamps, LastWrite;
    ConcatAppend(Accepted(tr, LastWrite(tr, n)), a.unwritten);
    WrittenAcceptsNothing(tr, n);
  }

  lemma WrittenAcceptsNothing(tr: seq<Traced>, n: nat)
    requires n < |tr| && tr[n].Written?
    ensures Accepted(tr, n + 1) == Accepted(tr, n) && Timestamps(tr, n + 1) == Timestamps(tr, n)
    ensures LastWrite(tr, n + 1) == n
  {
    assert AcceptedAt(tr, n) == [] && TimestampAt(tr, n) == [];
  }

  lemma PublishedThenPending(p: Parser, tr: seq<Traced>, n: nat)
    requires n <= |tr|
    ensures var a := Run(p, tr, n).audio;
            && a.sent + Concat(a.unwritten) == Concat(Accepted(tr, n))
            && a.chunkCount + |a.unwritten| == |Accepted(tr, n)|
  {
    AudioIsConserved(p, tr, n);
    ConcatAppend(Accepted(tr, LastWrite(tr, n)), Run(p, tr, n).audio.unwritten);
  }

  // ---- Metadata ----

  /** The metadata object of the server/state completing at step `j`, if it carries one. */
  function MetadataAt(p: Parser, tr: seq<Traced>, j: nat): seq<Metadata>
    requires j < |tr|
  {
    if Start(tr, j).Some? && MessageAt(tr, j).id == JSON_MESSAGE_ID then
      var body := p(MessageAt(tr, j).body);
      if body.kind == ServerState && body.metadata.Some? then [body.metadata.value] else []
    else []
  }

  /** The metadata objects completed at steps `a` to `n - 1`. */
  function Batch(p: Parser, tr: seq<Traced>, a: nat, n: nat): seq<Metadata>
    requires n <= |tr|
  {
    if n <= a then [] else Batch(p, tr, a, n - 1) + MetadataAt(p, tr, n - 1)
  }

  predicate Timestamped(p: Parser, tr: seq<Traced>, j: nat)
    requires j < |tr|
  {
    MetadataAt(p, tr, j) != [] && MetadataAt(p, tr, j)[0].timestamp.Some?
  }

  /** The first step before `n` at which a timestamped metadata object completed. */
  function FirstStamped(p: Parser, tr: seq<Traced>, n: nat): (j: Option<nat>)
    requires n <= |tr|
    ensures j.Some? ==> j.value < n && Timestamped(p, tr, j.value)
    ensures forall k :: 0 <= k < n && (j.Some? ==> k < j.value) ==> !Timestamped(p, tr, k)
  {
    if n == 0 then None
    else if FirstStamped(p, tr, n - 1).Some? then FirstStamped(p, tr, n - 1)
    else if Timestamped(p, tr, n - 1) then Some(n - 1)
    else None
  }

  /** The first write completion after step `j` and before step `n`. */
  function NextWrite(tr: seq<Traced>, j: nat, n: nat): (w: Option<nat>)
    requires n <= |tr|
    ensures w.Some? ==> j < w.value < n && tr[w.value].Written?
    ensures forall k :: j < k < n && (w.Some? ==> k < w.value) ==> !tr[k].Written?
  {
    if n == 0 then None
    else if NextWrite(tr, j, n - 1).Some? then NextWrite(tr, j, n - 1)
    else if j < n - 1 && tr[n - 1].Written? then Some(n - 1)
    else None
  }

  lemma JsonMetadataStep(p: Parser, c: Conn, m: Traced)
    requires Valid(c)
    ensures var r := Step(p, c, m).metadata;
            if m.Written? then r == MetadataWritten(c.metadata, m.stamp)
            else if Whole(m) && WholeMessage(m).id == JSON_MESSAGE_ID
            then r == JsonMetadata(c.metadata, p(WholeMessage(m).body))
            else if Frag(m) && Last(m) && Collected(c, m.plaintext).kind == Some(JSON_MESSAGE_ID)
            then r == JsonMetadata(c.metadata, p(Collected(c, m.plaintext).data))
            else r == c.metadata
  {
  }

  lemma MetadataStep(p: Parser, tr: seq<Traced>, n: nat)
    requires n < |tr| && Reassembling(p, tr, n)
    ensures var a, r := Run(p, tr, n).metadata, Run(p, tr, n + 1).metadata;
            if tr[n].Written? then r == MetadataWritten(a, tr[n].stamp)
            else r == a.(unwritten := a.unwritten + MetadataAt(p, tr, n))
  {
    hide Step;
    var c := Run(p, tr, n);
    assert Run(p, tr, n + 1) == Step(p, c, tr[n]);
    assert c.metadata.unwritten + [] == c.metadata.unwritten;
    JsonMetadataStep(p, c, tr[n]);
    if Frag(tr[n]) {
      CompletedFragment(p, tr, n);
    }
  }

  /** What is pending is what completed since the last write. */
  lemma {:induction false} PendingMetadata(p: Parser, tr: seq<Traced>, n: nat)
    requires n <= |tr|
    ensures Run(p, tr, n).metadata.unwritten == Batch(p, tr, LastWrite(tr, n), n)
  {
    hide Step, MetadataAt, InStartOrder, Reassembling;
    if n > 0 {
      PendingMetadata(p, tr, n - 1);
      RecordedInStartOrder(p, tr, n - 1);
      MetadataStep(p, tr, n - 1);
      if tr[n - 1].Written? { WrittenCarriesNothing(p, tr, n - 1); }
    }
  }

  lemma WrittenCarriesNothing(p: Parser, tr: seq<Traced>, n: nat)
    requires n < |tr| && tr[n].Written?
    ensures MetadataAt(p, tr, n) == [] && Batch(p, tr, n, n + 1) == []
  {
  }

  /** The first timestamped object of a batch is the first timestamped step it covers. */
  lemma {:induction false} BatchFirst(p: Parser, tr: seq<Traced>, a: nat, n: nat, stamp: int)
    requires a <= n <= |tr| && FirstStamped(p, tr, a).None?
    ensures FirstTimestamped(None, Batch(p, tr, a, n), stamp) ==
            match FirstStamped(p, tr, n)
            case None => None
            case Some(j) => Some(FirstMetadataState(MetadataAt(p, tr, j)[0].timestamp.value, stamp))
  {
    hide MetadataAt, FirstTimestamped;
    if a == n {
      FirstOfNone(stamp);
    } else {
      BatchFirst(p, tr, a, n - 1, stamp);
      AtMostOne(p, tr, n - 1);
      FirstOfMore(Batch(p, tr, a, n - 1), MetadataAt(p, tr, n - 1), stamp);
      OneStampedMore(p, tr, n - 1);
      hide FirstStamped;
    }
  }

  lemma FirstOfNone(stamp: int)
    ensures FirstTimestamped(None, [], stamp) == None
  {
  }

  lemma OneStampedMore(p: Parser, tr: seq<Traced>, n: nat)
    requires n < |tr|
    ensures FirstStamped(p, tr, n + 1) ==
            if FirstStamped(p, tr, n).Some? then FirstStamped(p, tr, n)
            else if Timestamped(p, tr, n) then Some(n) else None
  {
    hide Timestamped;
  }

  lemma FirstOfMore(front: seq<Metadata>, more: seq<Metadata>, stamp: int)
    requires |more| <= 1
    ensures var first := FirstTimestamped(None, front, stamp);
            FirstTimestamped(None, front + more, stamp) ==
            if first.None? && more != [] && more[0].timestamp.Some?
            then Some(FirstMetadataState(more[0].timestamp.value, stamp)) else first
  {
    if more == [] {
      assert front + more == front;
    } else {
      assert (front + more)[..|front|] == front;
    }
  }

  lemma AtMostOne(p: Parser, tr: seq<Traced>, j: nat)
    requires j < |tr|
    ensures |MetadataAt(p, tr, j)| <= 1
  {
  }

  /** A first state already taken is kept. */
  lemma {:induction false} FirstKept(first: Option<FirstMetadataState>, batch: seq<Metadata>, stamp: int)
    requires first.Some?
    ensures FirstTimestamped(first, batch, stamp) == first
  {
    if batch != [] {
      FirstKept(first, batch[..|batch| - 1], stamp);
    }
  }

  /** The first metadata state published: which object, and bounded by which clock reading. */
  function FirstPublished(p: Parser, tr: seq<Traced>, n: nat): Option<FirstMetadataState>
    requires n <= |tr|
  {
    match FirstStamped(p, tr, n)
    case None => None
    case Some(j) =>
      match NextWrite(tr, j, n)
      case None => None
      case Some(w) => Some(FirstMetadataState(MetadataAt(p, tr, j)[0].timestamp.value, tr[w].stamp))
  }

  lemma {:induction false} NotYetWritten(tr: seq<Traced>, j: nat, n: nat)
    requires j < n <= |tr|
    ensures NextWrite(tr, j, n).None? <==> LastWrite(tr, n) <= j
  {
    if tr[n - 1].Written? {
    } else if j < n - 1 {
      NotYetWritten(tr, j, n - 1);
    }
  }

  lemma {:induction false} FirstStampedPrefix(p: Parser, tr: seq<Traced>, a: nat, n: nat)
    requires a <= n <= |tr|
    ensures FirstStamped(p, tr, a) ==
            if FirstStamped(p, tr, n).Some? && FirstStamped(p, tr, n).value < a
            then FirstStamped(p, tr, n) else None
  {
    if a < n {
      FirstStampedPrefix(p, tr, a, n - 1);
    }
  }

  /**
   `first_metadata_state` is the earliest traced metadata object carrying a timestamp, once it
   has been written, bounded by the first write completion after it.
   */
  lemma {:induction false} FirstMetadataIs(p: Parser, tr: seq<Traced>, n: nat)
    requires n <= |tr|
    ensures Run(p, tr, n).metadata.first == FirstPublished(p, tr, n)
  {
    hide Step, MetadataAt, InStartOrder, Reassembling;
    if n > 0 {
      FirstMetadataIs(p, tr, n - 1);
      RecordedInStartOrder(p, tr, n - 1);
      MetadataStep(p, tr, n - 1);
      FirstPublishedStep(p, tr, n - 1);
      if tr[n - 1].Written? {
        PendingMetadata(p, tr, n - 1);
      }
    }
  }

  /** How the first published state changes with one step. */
  lemma FirstPublishedStep(p: Parser, tr: seq<Traced>, n: nat)
    requires n < |tr|
    ensures FirstPublished(p, tr, n + 1) ==
            if tr[n].Written?
            then FirstTimestamped(FirstPublished(p, tr, n), Batch(p, tr, LastWrite(tr, n), n), tr[n].stamp)
            else FirstPublished(p, tr, n)
  {
    hide MetadataAt;
    var w := LastWrite(tr, n);
    if tr[n].Written? {
      WrittenCarriesNothing(p, tr, n);
      if FirstPublished(p, tr, n).Some? {
        FirstKept(FirstPublished(p, tr, n), Batch(p, tr, w, n), tr[n].stamp);
      } else {
        if FirstStamped(p, tr, n).Some? { NotYetWritten(tr, FirstStamped(p, tr, n).value, n); }
        FirstStampedPrefix(p, tr, w, n);
        BatchFirst(p, tr, w, n, tr[n].stamp);
      }
    }
  }

  /** What the client summary says of the first metadata object it observed. */
  datatype Observed = NoObservation | NoTimestampKey | NullTimestamp | UnusableTimestamp | Stamped(us: int)

  datatype MetadataVerdict = NotJudged | MissingTimestamp | Scheduled(ahead: int) | Current

  /** The verdict on the first metadata state: only a timestamp both sides name is judged. */
  function FirstMetadataVerdict(client: Observed, sent: Option<FirstMetadataState>): MetadataVerdict {
    match client
    case NoObservation => NotJudged
    case NoTimestampKey => NotJudged
    case NullTimestamp => MissingTimestamp
    case UnusableTimestamp => NotJudged
    case Stamped(us) =>
      if sent.None? || us != sent.value.timestamp then NotJudged
      else if us > sent.value.bound then Scheduled(us - sent.value.bound)
      else Current
  }

  /** When each verdict is given. */
  lemma VerdictTable(client: Observed, sent: Option<FirstMetadataState>)
    ensures FirstMetadataVerdict(client, sent) == MissingTimestamp <==> client == NullTimestamp
    ensures forall ahead :: FirstMetadataVerdict(client, sent) == Scheduled(ahead) <==>
              exists us, bound :: client == Stamped(us) && sent == Some(FirstMetadataState(us, bound)) &&
                                  us > bound && ahead == us - bound
    ensures FirstMetadataVerdict(client, sent) == Current <==>
            exists us, bound :: client == Stamped(us) && sent == Some(FirstMetadataState(us, bound)) && us <= bound
    ensures FirstMetadataVerdict(client, sent) == NotJudged <==>
            client != NullTimestamp && (client.Stamped? ==> sent.None? || sent.value.timestamp != client.us)
  {
    if sent.Some? {
      assert sent == Some(FirstMetadataState(sent.value.timestamp, sent.value.bound));
    }
  }

  /** Step `j` completes the first metadata object with a timestamp, and step `w` is the first write after it. */
  predicate FirstThenWritten(p: Parser, tr: seq<Traced>, n: nat, j: nat, w: nat)
    requires n <= |tr|
  {
    && j < w < n && Timestamped(p, tr, j) && (forall k :: 0 <= k < j ==> !Timestamped(p, tr, k))
    && tr[w].Written? && (forall k :: j < k < w ==> !tr[k].Written?)
  }

  lemma PublishedWhen(p: Parser, tr: seq<Traced>, n: nat, j: nat, w: nat)
    requires n <= |tr| && FirstThenWritten(p, tr, n, j, w)
    ensures Run(p, tr, n).metadata.first ==
            Some(FirstMetadataState(MetadataAt(p, tr, j)[0].timestamp.value, tr[w].stamp))
  {
    FirstMetadataIs(p, tr, n);
    hide Run, MetadataAt, FirstStamped, NextWrite;
    StampedIs(p, tr, n, j);
    WriteIs(tr, j, n, w);
  }

  lemma WriteIs(tr: seq<Traced>, j: nat, n: nat, w: nat)
    requires j < w < n <= |tr| && tr[w].Written? && forall k :: j < k < w ==> !tr[k].Written?
    ensures NextWrite(tr, j, n) == Some(w)
  {
    var written := NextWrite(tr, j, n);
    hide NextWrite;
    assert written.Some? ==> !(written.value < w) && !(w < written.value);
  }

  lemma StampedIs(p: Parser, tr: seq<Traced>, n: nat, j: nat)
    requires n <= |tr| && j < n && Timestamped(p, tr, j) && forall k :: 0 <= k < j ==> !Timestamped(p, tr, k)
    ensures FirstStamped(p, tr, n) == Some(j)
  {
    hide Timestamped;
    var first := FirstStamped(p, tr, n);
    assert first.Some? ==> !(first.value < j) && !(j < first.value);
  }

  lemma PublishedFrom(p: Parser, tr: seq<Traced>, n: nat) returns (j: nat, w: nat)
    requires n <= |tr|
    ensures Run(p, tr, n).metadata.first.Some? ==> FirstThenWritten(p, tr, n, j, w)
  {
    FirstMetadataIs(p, tr, n);
    hide Run, MetadataAt;
    j, w := 0, 0;
    if FirstPublished(p, tr, n).Some? {
      j := FirstStamped(p, tr, n).value;
      w := NextWrite(tr, j, n).value;
    }
  }

  /** A run whose first timestamped metadata object carried `us` and was first written by clock `bound`. */
  ghost predicate FirstSent(p: Parser, tr: seq<Traced>, n: nat, us: int, bound: int)
    requires n <= |tr|
  {
    exists j: nat, w: nat :: FirstThenWritten(p, tr, n, j, w) &&
                             MetadataAt(p, tr, j)[0].timestamp == Some(us) && tr[w].stamp == bound
  }

  lemma FirstSentIs(p: Parser, tr: seq<Traced>, n: nat, us: int, bound: int)
    requires n <= |tr|
    ensures FirstSent(p, tr, n, us, bound) <==>
            Run(p, tr, n).metadata.first == Some(FirstMetadataState(us, bound))
  {
    var a, b := PublishedFrom(p, tr, n);
    if Run(p, tr, n).metadata.first.Some? {
      PublishedWhen(p, tr, n, a, b);
    }
    if j: nat, w: nat :| FirstThenWritten(p, tr, n, j, w) && MetadataAt(p, tr, j)[0].timestamp == Some(us) && tr[w].stamp == bound {
      PublishedWhen(p, tr, n, j, w);
    }
    hide Run, MetadataAt;
  }

  /**
   Who is said to have scheduled the first state, end to end: exactly the server whose first
   timestamped metadata object carried the time the client reports, later than the clock read at
   the first write after it. The distance reported is between those two.
   */
  lemma ScheduledExactly(p: Parser, tr: seq<Traced>, n: nat, client: Observed, ahead: int)
    requires n <= |tr|
    ensures FirstMetadataVerdict(client, Run(p, tr, n).metadata.first) == Scheduled(ahead) <==>
            exists us, bound :: client == Stamped(us) && FirstSent(p, tr, n, us, bound) &&
                                us > bound && ahead == us - bound
    ensures FirstMetadataVerdict(client, Run(p, tr, n).metadata.first) == Current <==>
            exists us, bound :: client == Stamped(us) && FirstSent(p, tr, n, us, bound) && us <= bound
  {
    forall us, bound ensures FirstSent(p, tr, n, us, bound) <==>
                             Run(p, tr, n).metadata.first == Some(FirstMetadataState(us, bound)) {
      FirstSentIs(p, tr, n, us, bound);
    }
    VerdictTable(client, Run(p, tr, n).metadata.first);
    hide Run, FirstSent, FirstMetadataVerdict;
  }

  /** Clock readings never go backwards, and a write completion is stamped with the clock. */
  ghost predicate Monotonic(tr: seq<Traced>, n: nat, clock: nat -> int)
    requires n <= |tr|
  {
    && (forall a: nat, b: nat :: a <= b < n ==> clock(a) <= clock(b))
    && (forall w: nat :: w < n && tr[w].Written? ==> tr[w].stamp == clock(w))
  }

  /**
   A server whose first metadata timestamp was not in the future when the state was traced is
   never said to have scheduled it, whatever the client reports.
   */
  lemma PresentNeverAccused(p: Parser, tr: seq<Traced>, n: nat, clock: nat -> int, client: Observed)
    requires n <= |tr| && Monotonic(tr, n, clock)
    requires forall j: nat :: FirstStamped(p, tr, n) == Some(j) ==>
               MetadataAt(p, tr, j)[0].timestamp.value <= clock(j)
    ensures !FirstMetadataVerdict(client, Run(p, tr, n).metadata.first).Scheduled?
  {
    hide Run, MetadataAt;
    FirstMetadataIs(p, tr, n);
    if FirstPublished(p, tr, n).Some? {
      var j := FirstStamped(p, tr, n).value;
      var w := NextWrite(tr, j, n).value;
      assert clock(j) <= clock(w) && tr[w].stamp == clock(w);
    }
  }
}
