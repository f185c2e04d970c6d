/**
 What else the recorder reports of a run, each list or value said without the recorder: the
 frames sent, the metadata the client holds, and whether the stream was ended. The frames are
 what the framing judge reads, so the two are put together at the end.
 */
module SentEvidence {
  import opened Wire
  import opened RecorderSpec
  import opened StartOrder
  import opened Deferred
  import opened ClientAudio
  import F = ChunkFraming

  // ---- Frames ----

  /** The type of the message the fragment traced at step `j` belongs to, if its start was traced. */
  function KindAt(tr: seq<Traced>, j: nat): Option<byte>
    requires j < |tr| && Frag(tr[j])
  {
    if First(tr[j]) then Some(tr[j].plaintext[2])
    else if Open(tr, j).Some? then Some(tr[Open(tr, j).value].plaintext[2])
    else None
  }

  /**
   The frame traced at step `j`, when it is listed: every binary one that carries no part of a
   JSON body. The audio it carried is known only for a chunk in one frame.
   */
  function FrameAt(tr: seq<Traced>, j: nat): seq<SentFrame>
    requires j < |tr|
  {
    var m := tr[j];
    if Whole(m) && m.binary && m.plaintext[0] != JSON_MESSAGE_ID then
      [SentFrame(|m.plaintext|, Leading(m.plaintext),
                 if m.plaintext[0] == AUDIO_CHUNK_MESSAGE_ID then Some(m.audioBytes) else None)]
    else if Frag(m) && KindAt(tr, j) != Some(JSON_MESSAGE_ID) then
      [SentFrame(|m.plaintext|, Leading(m.plaintext), None)]
    else []
  }

  function FramesUpTo(tr: seq<Traced>, n: nat): seq<SentFrame>
    requires n <= |tr|
  {
    if n == 0 then [] else FramesUpTo(tr, n - 1) + FrameAt(tr, n - 1)
  }

  lemma FrameStep(p: Parser, c: Conn, m: Traced)
    requires Valid(c)
    ensures Step(p, c, m).frames ==
            if Whole(m) && m.binary && m.plaintext[0] != JSON_MESSAGE_ID then
              c.frames + [SentFrame(|m.plaintext|, Leading(m.plaintext),
                                    if m.plaintext[0] == AUDIO_CHUNK_MESSAGE_ID then Some(m.audioBytes) else None)]
            else if Frag(m) && Collected(c, m.plaintext).kind != Some(JSON_MESSAGE_ID) then
              c.frames + [SentFrame(|m.plaintext|, Leading(m.plaintext), None)]
            else c.frames
  {
  }

  lemma KindCollected(p: Parser, tr: seq<Traced>, n: nat)
    requires n < |tr| && Frag(tr[n]) && Reassembling(p, tr, n)
    ensures Collected(Run(p, tr, n), tr[n].plaintext).kind == KindAt(tr, n)
  {
    hide Run;
  }

  /** A step lists the frame traced there. */
  lemma FrameTraced(p: Parser, tr: seq<Traced>, n: nat)
    requires n < |tr| && Reassembling(p, tr, n)
    ensures Step(p, Run(p, tr, n), tr[n]).frames == Run(p, tr, n).frames + FrameAt(tr, n)
  {
    FrameStep(p, Run(p, tr, n), tr[n]);
    if Frag(tr[n]) {
      KindCollected(p, tr, n);
    }
    hide Step, Run, Reassembling, KindAt, Leading, Collected;
  }

  /** The frames reported are the frames sent, in order, JSON bodies apart. */
  lemma {:induction false} FramesListed(p: Parser, tr: seq<Traced>, n: nat)
    requires n <= |tr|
    ensures Run(p, tr, n).frames == FramesUpTo(tr, n)
  {
    hide Step, FrameAt, Reassembling, InStartOrder;
    if n > 0 {
      FramesListed(p, tr, n - 1);
      RecordedInStartOrder(p, tr, n - 1);
      FrameTraced(p, tr, n - 1);
    }
  }

  // ---- Metadata ----

  function LastOf(batch: seq<Metadata>): Option<Metadata> {
    if batch == [] then None else Some(batch[|batch| - 1])
  }

  lemma {:induction false} BatchSplit(p: Parser, tr: seq<Traced>, a: nat, b: nat, n: nat)
    requires a <= b <= n <= |tr|
    ensures Batch(p, tr, a, n) == Batch(p, tr, a, b) + Batch(p, tr, b, n)
  {
    hide MetadataAt;
    if b < n {
      BatchSplit(p, tr, a, b, n - 1);
    }
  }

  /** The latest metadata reported is the last object completed before the last write completion. */
  lemma {:induction false} LatestMetadataIs(p: Parser, tr: seq<Traced>, n: nat)
    requires n <= |tr|
    ensures Run(p, tr, n).metadata.latest == LastOf(Batch(p, tr, 0, LastWrite(tr, n)))
  {
    hide Step, MetadataAt, InStartOrder, Reassembling, Batch;
    if n == 0 {
      NoBatch(p, tr);
    } else {
      LatestMetadataIs(p, tr, n - 1);
      RecordedInStartOrder(p, tr, n - 1);
      MetadataStep(p, tr, n - 1);
      if tr[n - 1].Written? {
        PendingMetadata(p, tr, n - 1);
        BatchSplit(p, tr, 0, LastWrite(tr, n - 1), n - 1);
      }
    }
  }

  lemma NoBatch(p: Parser, tr: seq<Traced>)
    ensures Batch(p, tr, 0, 0) == []
  {
  }

  // ---- The end of the stream ----

  /** A stream/end completes at step `j`. */
  predicate EndsStream(p: Parser, tr: seq<Traced>, j: nat)
    requires j < |tr|
  {
    && Start(tr, j).Some? && MessageAt(tr, j).id == JSON_MESSAGE_ID
    && p(MessageAt(tr, j).body).kind == StreamEnd
  }

  predicate Ended(p: Parser, tr: seq<Traced>, n: nat)
    requires n <= |tr|
  {
    exists j :: 0 <= j < n && EndsStream(p, tr, j)
  }

  /** Whether a step completes a stream/end, told by the recorder's own buffer. */
  predicate EndsAt(p: Parser, c: Conn, m: Traced) {
    if Whole(m) then WholeMessage(m).id == JSON_MESSAGE_ID && p(WholeMessage(m).body).kind == StreamEnd
    else
      && Frag(m) && Last(m) && Collected(c, m.plaintext).kind == Some(JSON_MESSAGE_ID)
      && p(Collected(c, m.plaintext).data).kind == StreamEnd
  }

  lemma WholeEnd(p: Parser, c: Conn, m: Traced)
    requires Valid(c) && Whole(m)
    ensures var s, r := c.session, Step(p, c, m).session;
            r.streamEndTraced == (s.streamEndTraced || EndsAt(p, c, m)) && r.streamEndWritten == s.streamEndWritten
  {
  }

  lemma FragmentEnd(p: Parser, c: Conn, m: Traced)
    requires Valid(c) && Frag(m)
    ensures var s, r := c.session, Step(p, c, m).session;
            r.streamEndTraced == (s.streamEndTraced || EndsAt(p, c, m)) && r.streamEndWritten == s.streamEndWritten
  {
  }

  lemma OtherEnd(p: Parser, c: Conn, m: Traced)
    requires Valid(c) && !Whole(m) && !Frag(m)
    ensures var s, r := c.session, Step(p, c, m).session;
            && r.streamEndTraced == s.streamEndTraced
            && r.streamEndWritten == (s.streamEndWritten || (m.Written? && s.streamEndTraced))
  {
  }

  lemma EndTraced(p: Parser, tr: seq<Traced>, n: nat)
    requires n < |tr| && Reassembling(p, tr, n)
    ensures Run(p, tr, n + 1).session.streamEndTraced <==>
            Run(p, tr, n).session.streamEndTraced || EndsStream(p, tr, n)
    ensures Run(p, tr, n + 1).session.streamEndWritten <==>
            || Run(p, tr, n).session.streamEndWritten
            || (tr[n].Written? && Run(p, tr, n).session.streamEndTraced)
  {
    hide Step;
    var c, m := Run(p, tr, n), tr[n];
    if Whole(m) {
      WholeEnd(p, c, m);
    } else if Frag(m) {
      FragmentEnd(p, c, m);
      CompletedFragment(p, tr, n);
    } else {
      OtherEnd(p, c, m);
    }
  }

  /** The stream is reported ended exactly when a stream/end completed before the last write. */
  lemma {:induction false} StreamEndWrittenIs(p: Parser, tr: seq<Traced>, n: nat)
    requires n <= |tr|
    ensures Run(p, tr, n).session.streamEndTraced <==> Ended(p, tr, n)
    ensures Run(p, tr, n).session.streamEndWritten <==> Ended(p, tr, LastWrite(tr, n))
  {
    hide Step, Reassembling, InStartOrder, EndsStream;
    if n > 0 {
      StreamEndWrittenIs(p, tr, n - 1);
      RecordedInStartOrder(p, tr, n - 1);
      EndTraced(p, tr, n - 1);
      assert EndsStream(p, tr, n - 1) ==> Ended(p, tr, n);
      EndedOnce(p, tr, LastWrite(tr, n - 1), n - 1);
    }
  }

  lemma EndedOnce(p: Parser, tr: seq<Traced>, a: nat, n: nat)
    requires a <= n <= |tr|
    ensures Ended(p, tr, a) ==> Ended(p, tr, n)
  {
    hide EndsStream;
  }

  // ---- The activation ----

  /** The text completing at step `j`, if one completes there. */
  function TextAt(tr: seq<Traced>, j: nat): Option<seq<byte>>
    requires j < |tr|
  {
    if Start(tr, j).Some? && MessageAt(tr, j).id == 0 then Some(MessageAt(tr, j).body) else None
  }

  predicate SentOf(p: Parser, tr: seq<Traced>, j: nat, kind: MessageType)
    requires j < |tr|
  {
    TextAt(tr, j).Some? && p(TextAt(tr, j).value).kind == kind
  }

  /** Step `j` completes the first server/activate. */
  ghost predicate FirstActivation(p: Parser, tr: seq<Traced>, n: nat, j: nat)
    requires n <= |tr|
  {
    j < n && SentOf(p, tr, j, ServerActivate) && forall k :: 0 <= k < j ==> !SentOf(p, tr, k, ServerActivate)
  }

  predicate Activated(p: Parser, tr: seq<Traced>, n: nat)
    requires n <= |tr|
  {
    exists j :: 0 <= j < n && SentOf(p, tr, j, ServerActivate)
  }

  /** The group/update texts completed once a server/activate had. */
  function GroupUpdates(p: Parser, tr: seq<Traced>, n: nat): seq<seq<byte>>
    requires n <= |tr|
  {
    if n == 0 then []
    else GroupUpdates(p, tr, n - 1) +
         if Activated(p, tr, n - 1) && SentOf(p, tr, n - 1, GroupUpdate) then [TextAt(tr, n - 1).value] else []
  }

  /** The text a step completes, told by the recorder's own buffer. */
  function TextNow(c: Conn, m: Traced): Option<seq<byte>> {
    if Whole(m) then if WholeMessage(m).id == JSON_MESSAGE_ID then Some(WholeMessage(m).body) else None
    else if Frag(m) && Last(m) && Collected(c, m.plaintext).kind == Some(JSON_MESSAGE_ID)
    then Some(Collected(c, m.plaintext).data)
    else None
  }

  /** What of the session one text changes. */
  function TakenIn(p: Parser, s: Session, text: Option<seq<byte>>): (Option<seq<byte>>, seq<seq<byte>>) {
    if text.None? then (s.activation, s.groupUpdates)
    else
      var kind := p(text.value).kind;
      (if kind == ServerActivate && s.activation.None? then text else s.activation,
       if kind == GroupUpdate && s.activation.Some? then s.groupUpdates + [text.value] else s.groupUpdates)
  }

  lemma WholeTaken(p: Parser, c: Conn, m: Traced)
    requires Valid(c) && Whole(m)
    ensures var r := Step(p, c, m).session;
            (r.activation, r.groupUpdates) == TakenIn(p, c.session, TextNow(c, m))
  {
  }

  lemma FragmentTaken(p: Parser, c: Conn, m: Traced)
    requires Valid(c) && Frag(m)
    ensures var r := Step(p, c, m).session;
            (r.activation, r.groupUpdates) == TakenIn(p, c.session, TextNow(c, m))
  {
  }

  lemma OtherTaken(p: Parser, c: Conn, m: Traced)
    requires Valid(c) && !Whole(m) && !Frag(m)
    ensures var r := Step(p, c, m).session;
            (r.activation, r.groupUpdates) == TakenIn(p, c.session, TextNow(c, m))
  {
  }

  lemma SessionStep(p: Parser, tr: seq<Traced>, n: nat)
    requires n < |tr| && Reassembling(p, tr, n)
    ensures var s, r := Run(p, tr, n).session, Run(p, tr, n + 1).session;
            (r.activation, r.groupUpdates) == TakenIn(p, s, TextAt(tr, n))
  {
    hide Step, TakenIn;
    var c, m := Run(p, tr, n), tr[n];
    if Whole(m) {
      WholeTaken(p, c, m);
    } else if Frag(m) {
      FragmentTaken(p, c, m);
      CompletedFragment(p, tr, n);
    } else {
      OtherTaken(p, c, m);
    }
  }

  /** The activation reported is the first server/activate, and the group updates those after it. */
  lemma {:induction false} ActivationIs(p: Parser, tr: seq<Traced>, n: nat)
    requires n <= |tr|
    ensures Run(p, tr, n).session.activation.Some? <==> Activated(p, tr, n)
    ensures forall j: nat :: FirstActivation(p, tr, n, j) ==> Run(p, tr, n).session.activation == TextAt(tr, j)
    ensures Run(p, tr, n).session.groupUpdates == GroupUpdates(p, tr, n)
  {
    hide Step, Reassembling, InStartOrder, TextAt;
    if n > 0 {
      ActivationIs(p, tr, n - 1);
      RecordedInStartOrder(p, tr, n - 1);
      SessionStep(p, tr, n - 1);
      hide Run;
      forall j: nat | FirstActivation(p, tr, n, j)
        ensures j < n - 1 ==> FirstActivation(p, tr, n - 1, j)
        ensures j == n - 1 ==> !Activated(p, tr, n - 1)
      {
      }
      assert Activated(p, tr, n) <==> Activated(p, tr, n - 1) || SentOf(p, tr, n - 1, ServerActivate);
      if Activated(p, tr, n - 1) {
        var k :| 0 <= k < n - 1 && SentOf(p, tr, k, ServerActivate);
        assert !FirstActivation(p, tr, n, n - 1);
      }
    }
  }

  // ---- The framing judge ----

  /** The frames as the framing judge reads them. */
  function Reported(frames: seq<SentFrame>): (r: seq<F.Frame>)
    ensures |r| == |frames|
  {
    seq(|frames|, i requires 0 <= i < |frames| =>
      F.Frame(frames[i].byteCount, frames[i].leading, frames[i].payloadByteCount))
  }

  /**
   A player stream framed as the role demands: every frame listed is a chunk in one frame, with
   a 13-byte header in front of the audio the library counted.
   */
  predicate FramedRight(tr: seq<Traced>, n: nat)
    requires n <= |tr|
  {
    forall j :: 0 <= j < n && FrameAt(tr, j) != [] ==> ChunkInOneFrame(tr[j])
  }

  predicate ChunkInOneFrame(m: Traced) {
    && Whole(m) && m.binary && m.plaintext[0] == AUDIO_CHUNK_MESSAGE_ID
    && |m.plaintext| == FRAME_PREFIX_BYTES + m.audioBytes
  }

  /** A chunk framed right is accepted whole; nothing else completes a chunk. */
  lemma FrameIsAccepted(tr: seq<Traced>, j: nat)
    requires j < |tr| && (FrameAt(tr, j) != [] ==> ChunkInOneFrame(tr[j]))
    ensures FrameAt(tr, j) == [] ==> AcceptedAt(tr, j) == []
    ensures FrameAt(tr, j) != [] ==>
              && FrameAt(tr, j) == [SentFrame(|tr[j].plaintext|, Leading(tr[j].plaintext), Some(tr[j].audioBytes))]
              && |AcceptedAt(tr, j)| == 1 && |AcceptedAt(tr, j)[0]| == tr[j].audioBytes
              && Leading(tr[j].plaintext)[0] == AUDIO_CHUNK_MESSAGE_ID
  {
    if Frag(tr[j]) && Last(tr[j]) && !First(tr[j]) && Open(tr, j).Some? {
      assert Start(tr, j) == Open(tr, j);
    }
  }

  lemma ReportedOneMore(frames: seq<SentFrame>, x: SentFrame)
    ensures var y := F.Frame(x.byteCount, x.leading, x.payloadByteCount);
            && Reported(frames + [x]) == Reported(frames) + [y]
            && F.AudioBytes(Reported(frames + [x])) == F.AudioBytes(Reported(frames)) + F.Carried(y)
  {
    var y := F.Frame(x.byteCount, x.leading, x.payloadByteCount);
    assert Reported(frames + [x]) == Reported(frames) + [y];
    assert (Reported(frames) + [y])[..|frames|] == Reported(frames);
  }

  lemma ConcatOneMore(parts: seq<seq<byte>>, more: seq<seq<byte>>)
    requires |more| == 1
    ensures |Concat(parts + more)| == |Concat(parts)| + |more[0]|
  {
    assert parts + more == parts + [more[0]];
    assert (parts + [more[0]])[..|parts|] == parts;
  }

  /**
   A stream framed right gives frames with the right type and header, carrying between them
   exactly the audio the recorder accepted.
   */
  lemma {:induction false} FramesCarryAccepted(tr: seq<Traced>, n: nat)
    requires n <= |tr| && FramedRight(tr, n)
    ensures var frames := Reported(FramesUpTo(tr, n));
            && F.AudioTyped(frames, |frames|) && F.HeadersRight(frames)
            && F.AudioBytes(frames) == |Concat(Accepted(tr, n))|
  {
    hide FrameAt, AcceptedAt, Concat, F.AudioBytes, Reported;
    if n == 0 {
      NoFrames();
    } else {
      FramesCarryAccepted(tr, n - 1);
      FrameIsAccepted(tr, n - 1);
      if FrameAt(tr, n - 1) == [] {
        assert FramesUpTo(tr, n) == FramesUpTo(tr, n - 1) && Accepted(tr, n) == Accepted(tr, n - 1);
      } else {
        ReportedOneMore(FramesUpTo(tr, n - 1), FrameAt(tr, n - 1)[0]);
        ConcatOneMore(Accepted(tr, n - 1), AcceptedAt(tr, n - 1));
      }
    }
  }

  lemma NoFrames()
    ensures Reported([]) == [] && F.AudioBytes([]) == 0 && Concat([]) == []
  {
  }

  /**
   Recorder, client report and judge together: on a lossless transport, a stream framed right
   gives a client report whose total never convicts the client, whatever was written so far.
   */
  lemma TotalNeverConvicts(p: Parser, tr: seq<Traced>, n: nat, events: seq<ClientEvent>)
    requires n <= |tr| && FramedRight(tr, n) && Delivers(events, tr, n)
    ensures F.UnobservedClient(Some(|Concat(Received(events, |events|))|), Reported(Run(p, tr, n).frames)) ==
            F.ReceivedUnobserved
  {
    FramesListed(p, tr, n);
    FramesCarryAccepted(tr, n);
    ReceivedIsSent(p, tr, n, events);
    PublishedThenPending(p, tr, n);
    hide *;
    assert |Concat(Received(events, |events|))| == F.AudioBytes(Reported(Run(p, tr, n).frames));
  }
  /** The records a summary holds of the frames. */
  function Records(frames: seq<F.Frame>): (r: seq<F.Reported>)
    ensures |r| == |frames|
  {
    seq(|frames|, i requires 0 <= i < |frames| => F.Record(frames[i]))
  }

  /** What every listed frame has: the bytes it starts with, up to 13 of them. */
  predicate Prefixed(f: SentFrame) {
    f.leading != [] && |f.leading| == if f.byteCount < 13 then f.byteCount else 13
  }

  lemma {:induction false} FramesPrefixed(tr: seq<Traced>, n: nat)
    requires n <= |tr|
    ensures forall i :: 0 <= i < |FramesUpTo(tr, n)| ==> Prefixed(FramesUpTo(tr, n)[i])
  {
    if n > 0 {
      FramesPrefixed(tr, n - 1);
      FramePrefixed(tr, n - 1);
      hide FrameAt, Prefixed;
    }
  }

  lemma FramePrefixed(tr: seq<Traced>, j: nat)
    requires j < |tr|
    ensures forall i :: 0 <= i < |FrameAt(tr, j)| ==> Prefixed(FrameAt(tr, j)[i])
  {
    hide KindAt;
  }

  /** The prefix listed for a frame is the frame itself or its first 13 bytes. */
  lemma LeadingIs(frame: seq<byte>)
    ensures |frame| <= 13 ==> Leading(frame) == frame
    ensures |frame| > 13 ==> Leading(frame) == frame[..13]
  {
  }

  /**
   Whatever was sent, the framing judge can use the frames the recorder reports, all and in order,
   unless the library counted more audio in a chunk than its frame has bytes.
   */
  lemma FramesUsable(p: Parser, tr: seq<Traced>, n: nat)
    requires n <= |tr|
    ensures var frames := Reported(Run(p, tr, n).frames);
            F.Transported(Some(Records(frames))) ==
            if exists i :: 0 <= i < |frames| && frames[i].payload.Some? && frames[i].payload.value > frames[i].byteCount
            then None else Some(frames)
  {
    FramesListed(p, tr, n);
    FramesPrefixed(tr, n);
    var frames := Reported(Run(p, tr, n).frames);
    hide Run, FramesUpTo;
    F.TransportedMeaning(Records(frames));
    assert forall i :: 0 <= i < |frames| ==> Prefixed(Run(p, tr, n).frames[i]);
    assert forall i :: 0 <= i < |frames| ==>
      (F.Broken(Records(frames)[i]) <==> frames[i].payload.Some? && frames[i].payload.value > frames[i].byteCount);
    hide F.Transported, F.Broken;
    if F.Transported(Some(Records(frames))).Some? {
      assert F.Transported(Some(Records(frames))).value == frames;
    }
  }

  /** The server and the client summary of a stream, both adapters reporting the frames alike. */
  function ServerSummary(frames: seq<F.Frame>): F.Server {
    F.Server(true, Some(F.ServerAudio(Some(Records(frames)), F.ByAdapter)), None)
  }

  function ClientSummary(frames: seq<F.Frame>): F.Client {
    F.Client(true, Some(F.ClientAudio(Some(Records(frames)), None)))
  }

  /**
   From the wire to a pass: a stream framed right, cut by the adapter, passes the framing judge when
   the client's adapter reports the frames the recorder does.
   */
  lemma FramedRightPasses(p: Parser, tr: seq<Traced>, n: nat)
    requires n <= |tr| && FramedRight(tr, n) && Run(p, tr, n).frames != []
    ensures var frames := Reported(Run(p, tr, n).frames);
            F.Passes(ServerSummary(frames), ClientSummary(frames))
  {
    FramesUsable(p, tr, n);
    FramesListed(p, tr, n);
    FramesCarryAccepted(tr, n);
    var frames := Reported(Run(p, tr, n).frames);
    hide Run, FramesUpTo, Accepted, F.AudioBytes, F.Transported, F.Passes, F.AudioTyped;
    forall i | 0 <= i < |frames| && frames[i].payload.Some? ensures frames[i].payload.value <= frames[i].byteCount {
      assert F.HeaderRight(frames[i]);
    }
    UsablePasses(frames);
  }

  lemma UsablePasses(frames: seq<F.Frame>)
    requires frames != [] && F.AudioTyped(frames, |frames|) && F.HeadersRight(frames)
    requires F.Transported(Some(Records(frames))) == Some(frames)
    ensures F.Passes(ServerSummary(frames), ClientSummary(frames))
  {
    hide F.Transported, F.AudioTyped, F.HeadersRight, Records;
    assert F.SameFrames(frames, frames, |frames|);
  }
}
