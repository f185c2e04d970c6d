/**
 What the client adapter reports of the audio it received, read off the library's trace of its
 own connection, and how that relates to what the server adapter reports as sent.
 */
module ClientAudio {
  import opened Wire
  import opened RecorderSpec
  import opened StartOrder
  import opened Deferred
  import opened Pcm

  /**
   One message of the client library's trace: cleartext or under the transport, and, of a chunk,
   the audio length by the library's own count.
   */
  datatype ClientEvent = ClientEvent(
    inbound: bool, binary: bool, messageId: byte, kind: MessageType, plaintext: seq<byte>, audioBytes: nat)

  /** The player object of a stream/start; a missing codec is empty and a missing depth 0. */
  datatype PlayerFormat = PlayerFormat(codec: string, bitDepth: int)

  /** Reads the player object out of a stream/start, if it has one. */
  type Formats = seq<byte> -> Option<PlayerFormat>

  /** The hashes are opaque: what is reported is what was hashed. */
  datatype Report = Report(
    chunkCount: nat, timestamps: seq<int>, encoded: seq<byte>, byteCount: nat, pcm: Option<seq<real>>)

  predicate IsStart(e: ClientEvent) {
    e.inbound && e.kind == StreamStart
  }

  predicate IsAudio(e: ClientEvent) {
    !IsStart(e) && e.inbound && e.messageId == AUDIO_CHUNK_MESSAGE_ID
  }

  /** A chunk is counted when its timestamp is there and its audio fits the message. */
  predicate Counted(e: ClientEvent) {
    IsAudio(e) && |e.plaintext| >= 1 + TIMESTAMP_BYTES && e.audioBytes <= |e.plaintext|
  }

  function Payload(e: ClientEvent): seq<byte>
    requires Counted(e)
  {
    e.plaintext[|e.plaintext| - e.audioBytes..]
  }

  function Received(events: seq<ClientEvent>, n: nat): seq<seq<byte>>
    requires n <= |events|
  {
    if n == 0 then []
    else Received(events, n - 1) + if Counted(events[n - 1]) then [Payload(events[n - 1])] else []
  }

  function ReceivedTimestamps(events: seq<ClientEvent>, n: nat): seq<int>
    requires n <= |events|
  {
    if n == 0 then []
    else ReceivedTimestamps(events, n - 1) +
         if Counted(events[n - 1]) then [ReadBeInt64(events[n - 1].plaintext[1..])] else []
  }

  /** The format of the latest stream/start with a player object. */
  function FormatAt(formats: Formats, events: seq<ClientEvent>, n: nat): Option<PlayerFormat>
    requires n <= |events|
  {
    if n == 0 then None
    else if IsStart(events[n - 1]) && formats(events[n - 1].plaintext).Some? then formats(events[n - 1].plaintext)
    else FormatAt(formats, events, n - 1)
  }

  /**
   Whether an event leaves the PCM hash standing: every format named is PCM, and every chunk of
   a stream whose format is known is a whole number of samples.
   */
  predicate Hashable(formats: Formats, events: seq<ClientEvent>, k: nat)
    requires k < |events|
  {
    var e := events[k];
    if IsStart(e) then formats(e.plaintext).Some? ==> formats(e.plaintext).value.codec == "pcm"
    else
      Counted(e) && FormatAt(formats, events, k).Some? ==>
        WholeBuffer(FormatAt(formats, events, k).value.bitDepth, |Payload(e)|)
  }

  predicate AllHashable(formats: Formats, events: seq<ClientEvent>, n: nat)
    requires n <= |events|
  {
    forall k :: 0 <= k < n ==> Hashable(formats, events, k)
  }

  /** The canonical samples of the chunks whose format was known when they arrived. */
  function PcmSamples(formats: Formats, events: seq<ClientEvent>, n: nat): seq<real>
    requires n <= |events|
  {
    if n == 0 then []
    else PcmSamples(formats, events, n - 1) + SamplesAt(formats, events, n - 1)
  }

  function SamplesAt(formats: Formats, events: seq<ClientEvent>, k: nat): seq<real>
    requires k < |events|
  {
    var format := FormatAt(formats, events, k);
    if Counted(events[k]) && format.Some? then
      match CppHashed(Payload(events[k]), format.value.bitDepth)
      case Some(samples) => samples
      case None => []
    else []
  }

  /** What the loop's codec and bit depth stand for after `n` events. */
  predicate Tracks(format: Option<PlayerFormat>, codec: string, bitDepth: int, pcmHashable: bool) {
    match format
    case None => codec == ""
    case Some(f) => f == PlayerFormat(codec, bitDepth) && (pcmHashable ==> codec == "pcm")
  }

  /** What a report says of the events it was drawn from. */
  predicate Reports(formats: Formats, events: seq<ClientEvent>, report: Report) {
    var all := Received(events, |events|);
    && report.encoded == Concat(all)
    && report.chunkCount == |all| && report.byteCount == |Concat(all)|
    && report.timestamps == ReceivedTimestamps(events, |events|)
    && (report.pcm.Some? <==>
        AllHashable(formats, events, |events|) && FormatAt(formats, events, |events|).Some?)
    && (report.pcm.Some? ==> report.pcm.value == PcmSamples(formats, events, |events|))
  }

  method ReceivedAudio(formats: Formats, events: seq<ClientEvent>) returns (report: Report)
    ensures Reports(formats, events, report)
  {
    hide CppHashed, ReadBeInt64, Concat, Received, ReceivedTimestamps, PcmSamples, FormatAt, AllHashable;
    NoEvents(formats, events);
    var count, timestamps, encoded, byteCount := 0, [], [], 0;
    var codec, bitDepth, pcmHashable := "", 0, true;
    var pcm: seq<real> := [];
    for i := 0 to |events|
      invariant count == |Received(events, i)| && encoded == Concat(Received(events, i))
      invariant byteCount == |encoded| && timestamps == ReceivedTimestamps(events, i)
      invariant pcmHashable == AllHashable(formats, events, i)
      invariant pcmHashable ==> pcm == PcmSamples(formats, events, i)
      invariant Tracks(FormatAt(formats, events, i), codec, bitDepth, pcmHashable)
    {
      var e := events[i];
      OneMore(formats, events, i);
      if e.inbound && e.kind == StreamStart {
        var player := formats(e.plaintext);
        if player.Some? {
          codec, bitDepth := player.value.codec, player.value.bitDepth;
          pcmHashable := pcmHashable && codec == "pcm";
        }
        continue;
      }
      if !e.inbound || e.messageId != AUDIO_CHUNK_MESSAGE_ID {
        continue;
      }
      var size := |e.plaintext|;
      if size < 1 + TIMESTAMP_BYTES || e.audioBytes > size {
        continue;
      }
      count := count + 1;
      timestamps := timestamps + [ReadBeInt64(e.plaintext[1..])];
      var payload := e.plaintext[size - e.audioBytes..];
      encoded := encoded + payload;
      byteCount := byteCount + e.audioBytes;
      if codec == "pcm" && pcmHashable {
        var hashed := HashCanonicalPcm(payload, bitDepth);
        pcmHashable := hashed.Some?;
        if hashed.Some? {
          pcm := pcm + hashed.value;
        }
      }
    }
    report := Report(count, timestamps, encoded, byteCount,
                     if pcmHashable && codec != "" then Some(pcm) else None);
  }

  lemma NoEvents(formats: Formats, events: seq<ClientEvent>)
    ensures Received(events, 0) == [] && Concat([]) == [] && ReceivedTimestamps(events, 0) == []
    ensures FormatAt(formats, events, 0) == None && PcmSamples(formats, events, 0) == []
    ensures AllHashable(formats, events, 0)
  {
  }

  /** What one more event does to everything reported. */
  lemma OneMore(formats: Formats, events: seq<ClientEvent>, i: nat)
    requires i < |events|
    ensures AllHashable(formats, events, i + 1) <==>
            AllHashable(formats, events, i) && Hashable(formats, events, i)
    ensures Counted(events[i]) ==>
              && |Received(events, i + 1)| == |Received(events, i)| + 1
              && Concat(Received(events, i + 1)) == Concat(Received(events, i)) + Payload(events[i])
              && ReceivedTimestamps(events, i + 1) ==
                 ReceivedTimestamps(events, i) + [ReadBeInt64(events[i].plaintext[1..])]
    ensures !Counted(events[i]) ==>
              && Received(events, i + 1) == Received(events, i)
              && ReceivedTimestamps(events, i + 1) == ReceivedTimestamps(events, i)
    ensures PcmSamples(formats, events, i + 1) == PcmSamples(formats, events, i) + SamplesAt(formats, events, i)
    ensures FormatAt(formats, events, i + 1) ==
            if IsStart(events[i]) && formats(events[i].plaintext).Some? then formats(events[i].plaintext)
            else FormatAt(formats, events, i)
  {
    hide Hashable, SamplesAt, ReadBeInt64;
    var m := i + 1;
    assert AllHashable(formats, events, m) ==> Hashable(formats, events, i);
    if Counted(events[i]) {
      assert Received(events, m) == Received(events, i) + [Payload(events[i])];
      assert Received(events, m)[..|Received(events, i)|] == Received(events, i);
    }
  }

  /** What one message adds to what is received: the audio its length names, at its end. */
  lemma ReceivedChunk(events: seq<ClientEvent>, k: nat)
    requires k < |events|
    ensures var e := events[k];
            Received(events, k + 1) == Received(events, k) +
            if e.inbound && e.kind != StreamStart && e.messageId == 4 && |e.plaintext| >= 9 && e.audioBytes <= |e.plaintext|
            then [e.plaintext[|e.plaintext| - e.audioBytes..]] else []
  {
  }

  /** Event `k` is the last stream/start before `n` that names a format, and names this one. */
  predicate LastNamed(formats: Formats, events: seq<ClientEvent>, n: nat, k: nat, format: PlayerFormat)
    requires n <= |events|
  {
    && k < n && events[k].inbound && events[k].kind == StreamStart && formats(events[k].plaintext) == Some(format)
    && forall h :: k < h < n && events[h].inbound && events[h].kind == StreamStart ==> formats(events[h].plaintext).None?
  }

  lemma {:induction false} FormatIsLatest(formats: Formats, events: seq<ClientEvent>, n: nat, format: PlayerFormat)
    requires n <= |events|
    ensures FormatAt(formats, events, n) == Some(format) <==> exists k: nat :: LastNamed(formats, events, n, k, format)
  {
    if n > 0 {
      FormatIsLatest(formats, events, n - 1, format);
      var e := events[n - 1];
      if IsStart(e) && formats(e.plaintext).Some? {
        assert formats(e.plaintext) == Some(format) ==> LastNamed(formats, events, n, n - 1, format);
      } else {
        NamedEarlier(formats, events, n - 1, n, format);
      }
    }
  }

  lemma NamedEarlier(formats: Formats, events: seq<ClientEvent>, m: nat, n: nat, format: PlayerFormat)
    requires n == m + 1 <= |events| && !(IsStart(events[m]) && formats(events[m].plaintext).Some?)
    ensures (exists k: nat :: LastNamed(formats, events, n, k, format)) <==>
            (exists k: nat :: LastNamed(formats, events, m, k, format))
  {
    if k: nat :| LastNamed(formats, events, n, k, format) {
      assert LastNamed(formats, events, m, k, format);
    }
    if k: nat :| LastNamed(formats, events, m, k, format) {
      assert LastNamed(formats, events, n, k, format);
    }
  }

  /** Event `k`, if it is a stream/start that names a format, names PCM. */
  predicate NamesPcm(formats: Formats, e: ClientEvent) {
    e.inbound && e.kind == StreamStart ==>
      match formats(e.plaintext)
      case None => true
      case Some(format) => format.codec == "pcm"
  }

  /** Event `k`, if it is a chunk counted under a named format, is a whole number of its samples. */
  predicate WholeChunk(formats: Formats, events: seq<ClientEvent>, k: nat)
    requires k < |events|
  {
    Counted(events[k]) ==>
      match FormatAt(formats, events, k)
      case None => true
      case Some(format) => WholeBuffer(format.bitDepth, events[k].audioBytes)
  }

  /**
   When a hash is reported: some stream/start named a format, every one named is PCM, and every
   chunk counted under one is a whole number of its samples.
   */
  lemma HashReported(formats: Formats, events: seq<ClientEvent>, report: Report)
    requires Reports(formats, events, report)
    ensures report.pcm.Some? <==>
            && FormatAt(formats, events, |events|).Some?
            && (forall k :: 0 <= k < |events| ==> NamesPcm(formats, events[k]) && WholeChunk(formats, events, k))
  {
    forall k | 0 <= k < |events|
      ensures Hashable(formats, events, k) <==> NamesPcm(formats, events[k]) && WholeChunk(formats, events, k)
    {
      HashableIs(formats, events, k);
    }
    hide Hashable, NamesPcm, WholeChunk, FormatAt;
  }

  lemma HashableIs(formats: Formats, events: seq<ClientEvent>, k: nat)
    requires k < |events|
    ensures Hashable(formats, events, k) <==> NamesPcm(formats, events[k]) && WholeChunk(formats, events, k)
  {
    hide FormatAt, WholeBuffer;
  }

  // ---- A lossless transport ----

  /** The bytes of the chunk accepted at step `j`, its ID byte included. */
  function SentAt(tr: seq<Traced>, j: nat): seq<seq<byte>>
    requires j < |tr|
  {
    if ChunkAt(tr, j) && AcceptedAt(tr, j) != [] then [[AUDIO_CHUNK_MESSAGE_ID] + MessageAt(tr, j).body]
    else []
  }

  /** The accepted chunks, in completion order. */
  function SentChunks(tr: seq<Traced>, n: nat): seq<seq<byte>>
    requires n <= |tr|
  {
    if n == 0 then [] else SentChunks(tr, n - 1) + SentAt(tr, n - 1)
  }

  /** The chunk messages a client's trace holds. */
  function ChunkMessages(events: seq<ClientEvent>, n: nat): seq<seq<byte>>
    requires n <= |events|
  {
    if n == 0 then []
    else ChunkMessages(events, n - 1) + if IsAudio(events[n - 1]) then [events[n - 1].plaintext] else []
  }

  /** The audio and the timestamp of a whole chunk; a shorter one has none. */
  function AudioIn(chunk: seq<byte>): seq<byte> {
    if |chunk| >= FRAME_PREFIX_BYTES then chunk[FRAME_PREFIX_BYTES..] else []
  }

  function TimestampIn(chunk: seq<byte>): int {
    if |chunk| >= FRAME_PREFIX_BYTES then ReadBeInt64(chunk[1..]) else 0
  }

  function AudioOf(chunks: seq<seq<byte>>): seq<seq<byte>> {
    if chunks == [] then []
    else AudioOf(chunks[..|chunks| - 1]) + [AudioIn(chunks[|chunks| - 1])]
  }

  function TimestampsOf(chunks: seq<seq<byte>>): seq<int> {
    if chunks == [] then []
    else TimestampsOf(chunks[..|chunks| - 1]) + [TimestampIn(chunks[|chunks| - 1])]
  }

  lemma OneMoreChunk(chunks: seq<seq<byte>>, chunk: seq<byte>)
    ensures AudioOf(chunks + [chunk]) == AudioOf(chunks) + [AudioIn(chunk)]
    ensures TimestampsOf(chunks + [chunk]) == TimestampsOf(chunks) + [TimestampIn(chunk)]
  {
    assert (chunks + [chunk])[..|chunks|] == chunks;
  }

  /**
   The chunks arrive whole and in order among whatever else the client traced, and the
   client's library counts as audio what follows the 13-byte header.
   */
  ghost predicate Delivers(events: seq<ClientEvent>, tr: seq<Traced>, n: nat)
    requires n <= |tr|
  {
    && ChunkMessages(events, |events|) == SentChunks(tr, n)
    && forall e <- events :: IsAudio(e) ==> e.audioBytes + FRAME_PREFIX_BYTES == |e.plaintext|
  }

  lemma {:induction false} SentAudio(tr: seq<Traced>, n: nat)
    requires n <= |tr|
    ensures AudioOf(SentChunks(tr, n)) == Accepted(tr, n)
  {
    hide AcceptedAt, AudioOf, SentAt;
    if n == 0 {
      NoChunks();
    } else {
      SentAudio(tr, n - 1);
      AcceptedChunk(tr, n - 1, SentChunks(tr, n - 1));
    }
  }

  lemma AcceptedChunk(tr: seq<Traced>, j: nat, before: seq<seq<byte>>)
    requires j < |tr|
    ensures AudioOf(before + SentAt(tr, j)) == AudioOf(before) + AcceptedAt(tr, j)
    ensures (ChunkAt(tr, j) ==> AcceptedAt(tr, j) != []) ==>
              TimestampsOf(before + SentAt(tr, j)) == TimestampsOf(before) + TimestampAt(tr, j)
  {
    hide Start, MessageAt, ReadBeInt64, AudioOf, TimestampsOf;
    if AcceptedAt(tr, j) == [] {
      assert before + SentAt(tr, j) == before;
    } else {
      assert ChunkAt(tr, j);
      var body := MessageAt(tr, j).body;
      var chunk := [AUDIO_CHUNK_MESSAGE_ID] + body;
      assert chunk[1..] == body && chunk[FRAME_PREFIX_BYTES..] == body[HEADER_AFTER_ID..];
      OneMoreChunk(before, chunk);
    }
  }

  lemma {:induction false} ReceivedOf(events: seq<ClientEvent>, n: nat)
    requires n <= |events|
    requires forall e <- events :: IsAudio(e) ==> e.audioBytes + FRAME_PREFIX_BYTES == |e.plaintext|
    ensures Received(events, n) == AudioOf(ChunkMessages(events, n))
    ensures ReceivedTimestamps(events, n) == TimestampsOf(ChunkMessages(events, n))
  {
    hide ReadBeInt64, AudioOf, TimestampsOf;
    if n == 0 {
      NoChunks();
    } else {
      ReceivedOf(events, n - 1);
      var e := events[n - 1];
      assert e in events;
      if IsAudio(e) {
        assert Counted(e) && Payload(e) == AudioIn(e.plaintext);
        OneMoreChunk(ChunkMessages(events, n - 1), events[n - 1].plaintext);
      } else {
        assert ChunkMessages(events, n) == ChunkMessages(events, n - 1);
      }
    }
  }

  lemma NoChunks()
    ensures AudioOf([]) == [] && TimestampsOf([]) == []
  {
  }

  /** A server whose every audio chunk was accepted: then the timestamps agree too. */
  ghost predicate AllAccepted(tr: seq<Traced>, n: nat)
    requires n <= |tr|
  {
    forall j :: 0 <= j < n && ChunkAt(tr, j) ==> AcceptedAt(tr, j) != []
  }

  lemma {:induction false} SentTimestamps(tr: seq<Traced>, n: nat)
    requires n <= |tr| && AllAccepted(tr, n)
    ensures TimestampsOf(SentChunks(tr, n)) == Timestamps(tr, n)
  {
    hide AcceptedAt, TimestampsOf, SentAt, ChunkAt, TimestampAt;
    if n == 0 {
      NoChunks();
    } else {
      SentTimestamps(tr, n - 1);
      AcceptedChunk(tr, n - 1, SentChunks(tr, n - 1));
    }
  }

  /**
   On a lossless transport the client hashes the bytes the server published followed by the
   ones it still holds back; with every chunk covered by a write, exactly the published ones.
   */
  lemma ReceivedIsSent(p: Parser, tr: seq<Traced>, n: nat, events: seq<ClientEvent>)
    requires n <= |tr| && Delivers(events, tr, n)
    ensures var all, a := Received(events, |events|), Run(p, tr, n).audio;
            && Concat(all) == a.sent + Concat(a.unwritten)
            && |all| == a.chunkCount + |a.unwritten|
            && (AllAccepted(tr, n) ==> ReceivedTimestamps(events, |events|) == a.timestamps)
            && (a.unwritten == [] ==> Concat(all) == a.sent && |all| == a.chunkCount)
  {
    hide Run, Received, ReceivedTimestamps, Accepted, Timestamps;
    ReceivedOf(events, |events|);
    SentAudio(tr, n);
    PublishedThenPending(p, tr, n);
    AudioIsConserved(p, tr, n);
    if AllAccepted(tr, n) {
      SentTimestamps(tr, n);
    }
  }

  // ---- What the canonical hash covers ----

  /** The payload of event `k`, when it reaches the hash: a counted chunk whose format is known. */
  function HashedAt(formats: Formats, events: seq<ClientEvent>, k: nat): seq<seq<byte>>
    requires k < |events|
  {
    if Counted(events[k]) && FormatAt(formats, events, k).Some? then [Payload(events[k])] else []
  }

  function HashedChunks(formats: Formats, events: seq<ClientEvent>, n: nat): seq<seq<byte>>
    requires n <= |events|
  {
    if n == 0 then [] else HashedChunks(formats, events, n - 1) + HashedAt(formats, events, n - 1)
  }

  /** Chunk `k` carries audio, and no stream/start has named a format yet. */
  predicate Uncovered(formats: Formats, events: seq<ClientEvent>, k: nat)
    requires k < |events|
  {
    Counted(events[k]) && Payload(events[k]) != [] && FormatAt(formats, events, k).None?
  }

  lemma ConcatMore(parts: seq<seq<byte>>, more: seq<seq<byte>>)
    requires |more| <= 1
    ensures Concat(parts + more) == Concat(parts) + if more == [] then [] else more[0]
  {
    if more == [] {
      assert parts + more == parts;
    } else {
      assert (parts + more)[..|parts|] == parts;
    }
  }

  predicate NoneUncovered(formats: Formats, events: seq<ClientEvent>, n: nat)
    requires n <= |events|
  {
    forall k :: 0 <= k < n ==> !Uncovered(formats, events, k)
  }

  lemma {:induction false} CoverageGrows(formats: Formats, events: seq<ClientEvent>, n: nat)
    requires n <= |events|
    ensures var hashed, all := Concat(HashedChunks(formats, events, n)), Concat(Received(events, n));
            && |hashed| <= |all|
            && (|hashed| == |all| <==> NoneUncovered(formats, events, n))
            && (NoneUncovered(formats, events, n) ==> hashed == all)
  {
    hide Concat, FormatAt;
    if n > 0 {
      CoverageGrows(formats, events, n - 1);
      var e := events[n - 1];
      assert NoneUncovered(formats, events, n) <==>
             NoneUncovered(formats, events, n - 1) && !Uncovered(formats, events, n - 1);
      ConcatMore(Received(events, n - 1), if Counted(e) then [Payload(e)] else []);
      ConcatMore(HashedChunks(formats, events, n - 1), HashedAt(formats, events, n - 1));
    }
  }

  /**
   Whatever the formats, what reaches the hash is all the audio received if and only if no chunk
   with audio came before a stream/start had named a format.
   */
  lemma CoverageIs(formats: Formats, events: seq<ClientEvent>, n: nat)
    requires n <= |events|
    ensures Concat(HashedChunks(formats, events, n)) == Concat(Received(events, n)) <==>
            NoneUncovered(formats, events, n)
  {
    CoverageGrows(formats, events, n);
  }

  /** Every stream/start that names a format names this one. */
  ghost predicate OnePcmFormat(formats: Formats, events: seq<ClientEvent>, bitDepth: int) {
    forall e <- events :: IsStart(e) && formats(e.plaintext).Some? ==>
      formats(e.plaintext).value == PlayerFormat("pcm", bitDepth)
  }

  lemma {:induction false} FormatIs(formats: Formats, events: seq<ClientEvent>, bitDepth: int, n: nat)
    requires n <= |events| && OnePcmFormat(formats, events, bitDepth)
    ensures FormatAt(formats, events, n).Some? ==>
            FormatAt(formats, events, n).value == PlayerFormat("pcm", bitDepth)
  {
    if n > 0 {
      FormatIs(formats, events, bitDepth, n - 1);
      assert events[n - 1] in events;
    }
  }

  lemma {:induction false} SamplesOf(formats: Formats, events: seq<ClientEvent>, bitDepth: int, n: nat)
    requires n <= |events| && OnePcmFormat(formats, events, bitDepth) && Depth(bitDepth)
    requires Aligned(Received(events, n), bitDepth / 8)
    ensures AllHashable(formats, events, n)
    ensures Aligned(HashedChunks(formats, events, n), bitDepth / 8)
    ensures PcmSamples(formats, events, n) == CanonicalOf(HashedChunks(formats, events, n), bitDepth / 8)
  {
    hide Canonical, CppHashed;
    if n > 0 {
      var before := Received(events, n - 1);
      assert Aligned(before, bitDepth / 8) by {
        assert forall i :: 0 <= i < |before| ==> before[i] == Received(events, n)[i];
      }
      SamplesOf(formats, events, bitDepth, n - 1);
      SampleStep(formats, events, bitDepth, n - 1);
      OneMore(formats, events, n - 1);
      OneChunkMore(HashedChunks(formats, events, n - 1), HashedAt(formats, events, n - 1), bitDepth / 8);
    }
  }

  lemma OneChunkMore(parts: seq<seq<byte>>, more: seq<seq<byte>>, width: nat)
    requires Width(width) && |more| <= 1 && Aligned(parts, width) && Aligned(more, width)
    ensures Aligned(parts + more, width)
    ensures CanonicalOf(parts + more, width) ==
            CanonicalOf(parts, width) + if more == [] then [] else Canonical(more[0], width)
  {
    hide Canonical;
    if more == [] {
      assert parts + more == parts;
    } else {
      assert (parts + more)[..|parts|] == parts;
    }
  }

  lemma SampleStep(formats: Formats, events: seq<ClientEvent>, bitDepth: int, k: nat)
    requires k < |events| && OnePcmFormat(formats, events, bitDepth) && Depth(bitDepth)
    requires Aligned(Received(events, k + 1), bitDepth / 8)
    ensures Hashable(formats, events, k) && Aligned(HashedAt(formats, events, k), bitDepth / 8)
    ensures SamplesAt(formats, events, k) ==
            if HashedAt(formats, events, k) == [] then [] else Canonical(Payload(events[k]), bitDepth / 8)
  {
    hide Canonical;
    FormatIs(formats, events, bitDepth, k);
    assert events[k] in events;
    if Counted(events[k]) {
      var all := Received(events, k + 1);
      assert all[|all| - 1] == Payload(events[k]);
    }
  }

  lemma {:induction false} SampleCount(pcm: seq<byte>, width: nat)
    requires Width(width) && |pcm| % width == 0
    ensures |Canonical(pcm, width)| * width == |pcm|
    decreases |pcm|
  {
    if pcm != [] {
      WholeSamples(|pcm|, width);
      SampleCount(pcm[width..], width);
    }
  }

  /**
   The reported hash, exactly: on a PCM stream in sample-aligned chunks a report drawn from the
   events carries a hash whenever a format was named, and that hash is over the canonical samples
   of all the audio received if and only if every chunk with audio followed a stream/start.
   */
  lemma HashCovers(formats: Formats, events: seq<ClientEvent>, bitDepth: int, report: Report)
    requires OnePcmFormat(formats, events, bitDepth) && Depth(bitDepth)
    requires Aligned(Received(events, |events|), bitDepth / 8) && Reports(formats, events, report)
    ensures report.pcm.Some? <==> FormatAt(formats, events, |events|).Some?
    ensures report.pcm.Some? ==>
              (report.pcm.value == Canonical(report.encoded, bitDepth / 8) <==>
               NoneUncovered(formats, events, |events|))
  {
    var n, width := |events|, bitDepth / 8;
    var hashed, all := HashedChunks(formats, events, n), Received(events, n);
    SamplesOf(formats, events, bitDepth, n);
    ChunkingIsInvisible(hashed, width);
    ChunkingIsInvisible(all, width);
    CoverageGrows(formats, events, n);
    SampleCount(Concat(hashed), width);
    SampleCount(Concat(all), width);
    hide HashedChunks, Received, Concat, Canonical, CanonicalOf, PcmSamples, AllHashable, FormatAt, NoneUncovered, Aligned;
  }

  /**
   When the server streams the PCM of a fixture in sample-aligned chunks after a stream/start, the
   client reports the hash over the fixture's samples, however the stream was cut.
   */
  lemma CanonicalHashSurvives(formats: Formats, events: seq<ClientEvent>, bitDepth: int, fixture: seq<byte>, report: Report)
    requires OnePcmFormat(formats, events, bitDepth) && Depth(bitDepth)
    requires Aligned(Received(events, |events|), bitDepth / 8) && Reports(formats, events, report)
    requires FormatAt(formats, events, |events|).Some? && NoneUncovered(formats, events, |events|)
    requires Concat(Received(events, |events|)) == fixture
    ensures report.pcm == Some(Canonical(fixture, bitDepth / 8))
  {
    HashCovers(formats, events, bitDepth, report);
  }

  /**
   From the server's fixture to the client's report: on a lossless transport, with every chunk
   written, the client reports the hash over what the server published.
   */
  lemma PublishedHashSurvives(
    p: Parser, tr: seq<Traced>, n: nat, formats: Formats, events: seq<ClientEvent>, bitDepth: int, report: Report)
    requires n <= |tr| && Delivers(events, tr, n) && Run(p, tr, n).audio.unwritten == []
    requires OnePcmFormat(formats, events, bitDepth) && Depth(bitDepth)
    requires Aligned(Accepted(tr, n), bitDepth / 8) && Reports(formats, events, report)
    requires FormatAt(formats, events, |events|).Some? && NoneUncovered(formats, events, |events|)
    ensures report.pcm == Some(Canonical(Run(p, tr, n).audio.sent, bitDepth / 8))
    ensures report.encoded == Run(p, tr, n).audio.sent && report.chunkCount == Run(p, tr, n).audio.chunkCount
  {
    ReceivedOf(events, |events|);
    SentAudio(tr, n);
    ReceivedIsSent(p, tr, n, events);
    hide Run, Aligned, Received, Accepted, FormatAt, OnePcmFormat;
    CanonicalHashSurvives(formats, events, bitDepth, Run(p, tr, n).audio.sent, report);
  }

  /** A chunk before the first stream/start is received and counted, and the hash leaves it out. */
  lemma EarlyChunkIsLeftOut(formats: Formats, events: seq<ClientEvent>, report: Report)
    requires |events| == 2 && Counted(events[0]) && Payload(events[0]) != [] && IsStart(events[1])
    requires formats(events[1].plaintext) == Some(PlayerFormat("pcm", 16)) && |Payload(events[0])| % 2 == 0
    requires Reports(formats, events, report)
    ensures report.encoded == Payload(events[0]) && report.pcm == Some([])
    ensures Canonical(report.encoded, 2) != []
  {
    hide Canonical;
    assert FormatAt(formats, events, 1) == None;
    assert Hashable(formats, events, 0) && Hashable(formats, events, 1);
    assert Received(events, 1) == [Payload(events[0])] && Received(events, 2) == Received(events, 1);
    assert PcmSamples(formats, events, 1) == [] && PcmSamples(formats, events, 2) == [];
    assert Concat([Payload(events[0])]) == Concat([]) + Payload(events[0]);
    SampleCount(Payload(events[0]), 2);
  }
}
