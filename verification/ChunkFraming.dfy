/**
 The verdict on the audio chunk header and on chunk durations, drawn from the frames both
 adapters saw: each frame's header is what it carries beyond its audio.
 */
module ChunkFraming {
  import opened Wire

  const MAX_CHUNK_US := 150_000
  const MIN_CHUNK_US := 15_000
  const US_PER_SECOND := 1_000_000

  /** One binary frame; the audio it carried is unknown where the adapter could not tell. */
  datatype Frame = Frame(byteCount: nat, leading: seq<byte>, payload: Option<nat>)

  /** A frame record as reported; `Unusable` when it is no object or a field cannot be read. */
  datatype Reported = Unusable | Record(frame: Frame)

  datatype ChunkedBy = ByAdapter | ByImplementation | Unsaid

  datatype Stream = Stream(pcm: bool, sampleRate: int, channels: int, bitDepth: int)

  datatype ServerAudio = ServerAudio(sent: Option<seq<Reported>>, chunkedBy: ChunkedBy)

  datatype ClientAudio = ClientAudio(received: Option<seq<Reported>>, encodedBytes: Option<nat>)

  datatype Server = Server(ok: bool, audio: Option<ServerAudio>, stream: Option<Stream>)

  datatype Client = Client(ok: bool, audio: Option<ClientAudio>)

  datatype Side = ServerSide | ClientSide

  datatype Verdict =
    | Pass
    | BadStatus(side: Side)
    | NoAudio(side: Side)
    | SentUnobserved
    | NothingSent
    | WrongType(at: nat)
    | Unpaired(side: Side)
    | WrongHeader(side: Side)
    | CutUnattributed
    | NoStreamFormat
    | NotPcm
    | TooLong(at: nat)
    | TooShort(at: nat)
    | ClientMisread(delivered: nat, sent: nat)
    | ReceivedUnobserved
    | CountsDiffer
    | AdaptersDisagree(at: nat)

  /** A record is usable when its prefix has the length it must and its audio fits. */
  predicate Usable(r: Reported) {
    && r.Record?
    && r.frame.leading != []
    && |r.frame.leading| == Min(r.frame.byteCount, FRAME_PREFIX_BYTES)
    && (r.frame.payload.Some? ==> r.frame.payload.value <= r.frame.byteCount)
  }

  predicate AllUsable(value: seq<Reported>, n: nat)
    requires n <= |value|
  {
    forall i :: 0 <= i < n ==> Usable(value[i])
  }

  function Frames(value: seq<Reported>): (r: seq<Frame>)
    requires AllUsable(value, |value|)
    ensures |r| == |value|
  {
    seq(|value|, i requires 0 <= i < |value| => assert Usable(value[i]); value[i].frame)
  }

  /** The frames a field records, or nothing when one record cannot be used. */
  function Transported(value: Option<seq<Reported>>): Option<seq<Frame>> {
    if value.Some? && AllUsable(value.value, |value.value|) then Some(Frames(value.value)) else None
  }

  /** What makes a record unusable, in numbers. */
  predicate Broken(r: Reported) {
    || r.Unusable?
    || r.frame.leading == []
    || |r.frame.leading| != (if r.frame.byteCount < 13 then r.frame.byteCount else 13)
    || (r.frame.payload.Some? && r.frame.payload.value > r.frame.byteCount)
  }

  /** One broken record discards the field; otherwise its frames are the records', in order. */
  lemma TransportedMeaning(value: seq<Reported>)
    ensures Transported(Some(value)).None? <==> exists i :: 0 <= i < |value| && Broken(value[i])
    ensures Transported(Some(value)).Some? ==>
              var frames := Transported(Some(value)).value;
              |frames| == |value| && forall i :: 0 <= i < |value| ==> value[i] == Record(frames[i])
  {
    assert forall i :: 0 <= i < |value| ==> (Usable(value[i]) <==> !Broken(value[i]));
  }

  method TransportedFrames(value: Option<seq<Reported>>) returns (frames: Option<seq<Frame>>)
    ensures frames == Transported(value)
  {
    if value.None? {
      return None;
    }
    var read: seq<Frame> := [];
    for i := 0 to |value.value|
      invariant AllUsable(value.value, i)
      invariant |read| == i && forall h :: 0 <= h < i ==> read[h] == value.value[h].frame
    {
      if !Usable(value.value[i]) {
        return None;
      }
      read := read + [value.value[i].frame];
    }
    assert read == Frames(value.value);
    return Some(read);
  }

  /** The frame carries the 13-byte header and nothing else beside its audio. */
  predicate HeaderRight(f: Frame) {
    f.payload.Some? && f.byteCount - f.payload.value == FRAME_PREFIX_BYTES
  }

  predicate Paired(frames: seq<Frame>) {
    forall i :: 0 <= i < |frames| ==> frames[i].payload.Some?
  }

  predicate HeadersRight(frames: seq<Frame>) {
    forall i :: 0 <= i < |frames| ==> HeaderRight(frames[i])
  }

  function HeaderViolation(side: Side, frames: seq<Frame>): Option<Verdict> {
    if !Paired(frames) then Some(Unpaired(side))
    else if !HeadersRight(frames) then Some(WrongHeader(side))
    else None
  }

  /** The audio the frames carried; an unknown amount counts as none. */
  function AudioBytes(frames: seq<Frame>): nat {
    if frames == [] then 0 else AudioBytes(frames[..|frames| - 1]) + Carried(frames[|frames| - 1])
  }

  function Carried(f: Frame): nat {
    if f.payload.Some? then f.payload.value else 0
  }

  /** The verdict on a client whose adapter saw no frame: only its total can convict it. */
  function UnobservedClient(delivered: Option<nat>, sent: seq<Frame>): Verdict {
    if delivered.Some? && delivered.value != AudioBytes(sent)
    then ClientMisread(delivered.value, AudioBytes(sent)) else ReceivedUnobserved
  }

  function BytesPerSecond(s: Stream): int {
    if s.bitDepth > 0 && s.bitDepth % 8 == 0 then s.sampleRate * s.channels * (s.bitDepth / 8) else 0
  }

  /** A chunk's duration against its bounds, cross-multiplied. */
  predicate LongerThanMax(f: Frame, rate: int) {
    Carried(f) * US_PER_SECOND > MAX_CHUNK_US * rate
  }

  predicate ShorterThanMin(f: Frame, rate: int) {
    Carried(f) * US_PER_SECOND < MIN_CHUNK_US * rate
  }

  predicate DurationRight(frames: seq<Frame>, rate: int, i: nat)
    requires i < |frames|
  {
    !LongerThanMax(frames[i], rate) && (ShorterThanMin(frames[i], rate) ==> i == |frames| - 1)
  }

  /** No chunk outlasts the maximum and only the last falls short of the minimum. */
  predicate DurationsRight(frames: seq<Frame>, rate: int, n: nat)
    requires n <= |frames|
  {
    forall i :: 0 <= i < n ==> DurationRight(frames, rate, i)
  }

  /** How many bytes a number of frames of a format takes. */
  function FrameBytes(s: Stream, frames: nat): int {
    frames * (s.channels * (s.bitDepth / 8))
  }

  /** A format whose rate can be read: whole bytes a sample, and all counts positive. */
  predicate Readable(s: Stream) {
    s.bitDepth > 0 && s.bitDepth % 8 == 0 && s.sampleRate > 0 && s.channels > 0
  }

  /**
   A chunk of `count` frames lasts `count` over the sample rate: it is too long above 150 ms and
   short below 15 ms, whatever the channels and the depth.
   */
  lemma DurationMeaning(f: Frame, s: Stream, count: nat)
    requires Readable(s) && f.payload.Some? && f.payload.value == FrameBytes(s, count)
    ensures LongerThanMax(f, BytesPerSecond(s)) <==> count * 1000 > 150 * s.sampleRate
    ensures ShorterThanMin(f, BytesPerSecond(s)) <==> count * 1000 < 15 * s.sampleRate
  {
    var unit := s.channels * (s.bitDepth / 8);
    assert unit > 0 by {
      assert s.bitDepth / 8 >= 1;
      Positive(s.channels, s.bitDepth / 8);
    }
    Regrouped(s.sampleRate, s.channels, s.bitDepth / 8);
    Regrouped(count, unit, US_PER_SECOND);
    Regrouped(MAX_CHUNK_US, s.sampleRate, unit);
    Regrouped(MIN_CHUNK_US, s.sampleRate, unit);
    Compared(count * US_PER_SECOND, MAX_CHUNK_US * s.sampleRate, unit);
    Compared(count * US_PER_SECOND, MIN_CHUNK_US * s.sampleRate, unit);
  }

  lemma Positive(a: int, b: int)
    requires a > 0 && b > 0
    ensures a * b > 0
  {
  }

  lemma Regrouped(a: int, b: int, c: int)
    ensures a * b * c == a * (b * c) && a * (b * c) == a * c * b
  {
  }

  lemma Compared(a: int, b: int, unit: int)
    requires unit > 0
    ensures a < b <==> a * unit < b * unit
    ensures a > b <==> a * unit > b * unit
  {
    if a < b {
      Positive(b - a, unit);
    } else if a > b {
      Positive(a - b, unit);
    }
  }

  /** The rate is that of one second's frames, and no usable format has none. */
  lemma RateMeaning(s: Stream)
    ensures Readable(s) ==> BytesPerSecond(s) == FrameBytes(s, s.sampleRate) && BytesPerSecond(s) > 0
    ensures s.bitDepth <= 0 || s.bitDepth % 8 != 0 ==> BytesPerSecond(s) == 0
  {
    Regrouped(s.sampleRate, s.channels, s.bitDepth / 8);
    if Readable(s) {
      assert s.bitDepth / 8 >= 1;
      Positive(s.channels, s.bitDepth / 8);
      Positive(s.sampleRate, s.channels * (s.bitDepth / 8));
    }
  }

  /** What the durations of chunks the implementation cut must meet. */
  predicate DurationsPass(server: Server, chunkedBy: ChunkedBy, sent: seq<Frame>) {
    || chunkedBy == ByAdapter
    || (&& chunkedBy == ByImplementation
        && server.stream.Some? && BytesPerSecond(server.stream.value) > 0 && server.stream.value.pcm
        && DurationsRight(sent, BytesPerSecond(server.stream.value), |sent|))
  }

  /** What each verdict on the durations says of the chunks: the first one out of bounds. */
  predicate DurationFault(server: Server, chunkedBy: ChunkedBy, sent: seq<Frame>, v: Verdict) {
    match v
    case CutUnattributed => chunkedBy == Unsaid
    case NoStreamFormat =>
      chunkedBy == ByImplementation && (server.stream.Some? ==> BytesPerSecond(server.stream.value) <= 0)
    case NotPcm => chunkedBy == ByImplementation && server.stream.Some? && !server.stream.value.pcm
    case TooLong(at) =>
      && chunkedBy == ByImplementation && server.stream.Some? && at < |sent|
      && DurationsRight(sent, BytesPerSecond(server.stream.value), at)
      && LongerThanMax(sent[at], BytesPerSecond(server.stream.value))
    case TooShort(at) =>
      && chunkedBy == ByImplementation && server.stream.Some? && at < |sent| - 1
      && DurationsRight(sent, BytesPerSecond(server.stream.value), at)
      && ShorterThanMin(sent[at], BytesPerSecond(server.stream.value))
    case _ => false
  }

  method ChunkDurations(server: Server, chunkedBy: ChunkedBy, sent: seq<Frame>) returns (v: Verdict)
    ensures v == Pass <==> DurationsPass(server, chunkedBy, sent)
    ensures v == Pass || DurationFault(server, chunkedBy, sent, v)
  {
    if chunkedBy == ByAdapter {
      return Pass;
    }
    if chunkedBy != ByImplementation {
      return CutUnattributed;
    }
    if server.stream.None? || BytesPerSecond(server.stream.value) <= 0 {
      return NoStreamFormat;
    }
    if !server.stream.value.pcm {
      return NotPcm;
    }
    var rate := BytesPerSecond(server.stream.value);
    for i := 0 to |sent|
      invariant DurationsRight(sent, rate, i)
    {
      if LongerThanMax(sent[i], rate) {
        assert !DurationRight(sent, rate, i);
        return TooLong(i);
      }
      if ShorterThanMin(sent[i], rate) && i != |sent| - 1 {
        assert !DurationRight(sent, rate, i);
        return TooShort(i);
      }
    }
    return Pass;
  }

  predicate AudioTyped(frames: seq<Frame>, n: nat)
    requires n <= |frames|
  {
    forall i :: 0 <= i < n ==> frames[i].leading != [] && frames[i].leading[0] == AUDIO_CHUNK_MESSAGE_ID
  }

  predicate SameFrame(a: Frame, b: Frame) {
    a.byteCount == b.byteCount && a.leading == b.leading
  }

  predicate SameFrames(a: seq<Frame>, b: seq<Frame>, n: nat)
    requires n <= |a| && n <= |b|
  {
    forall i :: 0 <= i < n ==> SameFrame(a[i], b[i])
  }

  /** What the server's half of a pass takes. */
  predicate ServerPasses(server: Server) {
    && server.ok && server.audio.Some?
    && Transported(server.audio.value.sent).Some?
    && var sent := Transported(server.audio.value.sent).value;
       && sent != [] && AudioTyped(sent, |sent|) && HeadersRight(sent)
       && DurationsPass(server, server.audio.value.chunkedBy, sent)
  }

  /** What a pass takes in full: the client saw the same frames and read the same header. */
  predicate Passes(server: Server, client: Client) {
    && client.ok && ServerPasses(server)
    && client.audio.Some?
    && Transported(client.audio.value.received).Some?
    && var sent := Transported(server.audio.value.sent).value;
       var received := Transported(client.audio.value.received).value;
       && |received| == |sent| && SameFrames(sent, received, |sent|) && HeadersRight(received)
  }

  /** What each verdict on the frames a server sent says of them. */
  predicate SentFault(server: Server, chunkedBy: ChunkedBy, sent: seq<Frame>, v: Verdict) {
    match v
    case NothingSent => sent == []
    case WrongType(at) => at < |sent| && AudioTyped(sent, at) && !AudioTyped(sent, at + 1)
    case Unpaired(side) => side == ServerSide && !Paired(sent)
    case WrongHeader(side) => side == ServerSide && Paired(sent) && !HeadersRight(sent)
    case _ => AudioTyped(sent, |sent|) && HeadersRight(sent) && DurationFault(server, chunkedBy, sent, v)
  }

  predicate ServerFault(server: Server, v: Verdict) {
    if server.audio.None? then v == NoAudio(ServerSide)
    else
      match Transported(server.audio.value.sent)
      case None => v == SentUnobserved
      case Some(sent) => SentFault(server, server.audio.value.chunkedBy, sent, v)
  }

  /** What each verdict against the client says, the server having passed. */
  predicate ClientFault(server: Server, client: Client, v: Verdict)
    requires ServerPasses(server)
  {
    var sent := Transported(server.audio.value.sent).value;
    if client.audio.None? then v == NoAudio(ClientSide)
    else
      match Transported(client.audio.value.received)
      case None => v == UnobservedClient(client.audio.value.encodedBytes, sent)
      case Some(received) => ReceivedFault(sent, received, v)
  }

  predicate ReceivedFault(sent: seq<Frame>, received: seq<Frame>, v: Verdict) {
    match v
    case CountsDiffer => |received| != |sent|
    case AdaptersDisagree(at) =>
      |received| == |sent| && at < |sent| && SameFrames(sent, received, at) && !SameFrame(sent[at], received[at])
    case Unpaired(side) => side == ClientSide && |received| == |sent| && !Paired(received)
    case WrongHeader(side) =>
      side == ClientSide && |received| == |sent| && Paired(received) && !HeadersRight(received)
    case _ => false
  }

  /** The server's half, judged first: `Pass` and the frames, or what is wrong. */
  method JudgeServer(server: Server) returns (v: Verdict, sent: seq<Frame>)
    requires server.ok
    ensures v == Pass <==> ServerPasses(server)
    ensures v == Pass ==> Some(sent) == Transported(server.audio.value.sent)
    ensures v == Pass || ServerFault(server, v)
  {
    sent := [];
    if server.audio.None? {
      return NoAudio(ServerSide), sent;
    }
    var frames := TransportedFrames(server.audio.value.sent);
    if frames.None? {
      return SentUnobserved, sent;
    }
    sent := frames.value;
    if sent == [] {
      return NothingSent, sent;
    }
    for i := 0 to |sent|
      invariant AudioTyped(sent, i)
    {
      assert sent[i].leading != [] by { assert Usable(server.audio.value.sent.value[i]); }
      if sent[i].leading[0] != AUDIO_CHUNK_MESSAGE_ID {
        return WrongType(i), sent;
      }
    }
    var violation := HeaderViolation(ServerSide, sent);
    if violation.Some? {
      return violation.value, sent;
    }
    v := ChunkDurations(server, server.audio.value.chunkedBy, sent);
  }

  /**
   The verdict on a case: it passes exactly when both halves do, says nothing of the client
   while the server is at fault, and every other verdict is what it says.
   */
  method ChunkFramingVerdict(server: Server, client: Client) returns (v: Verdict)
    ensures v == Pass <==> Passes(server, client)
    ensures v == Pass ||
            (if !server.ok then v == BadStatus(ServerSide)
             else if !client.ok then v == BadStatus(ClientSide)
             else if !ServerPasses(server) then ServerFault(server, v)
             else ClientFault(server, client, v))
  {
    if !server.ok {
      return BadStatus(ServerSide);
    }
    if !client.ok {
      return BadStatus(ClientSide);
    }
    var sent: seq<Frame>;
    v, sent := JudgeServer(server);
    if v != Pass {
      return;
    }
    if client.audio.None? {
      return NoAudio(ClientSide);
    }
    var received := TransportedFrames(client.audio.value.received);
    if received.None? {
      return UnobservedClient(client.audio.value.encodedBytes, sent);
    }
    if |received.value| != |sent| {
      return CountsDiffer;
    }
    for i := 0 to |sent|
      invariant SameFrames(sent, received.value, i)
    {
      if !SameFrame(sent[i], received.value[i]) {
        return AdaptersDisagree(i);
      }
    }
    var violation := HeaderViolation(ClientSide, received.value);
    if violation.Some? {
      return violation.value;
    }
    return Pass;
  }

  /**
   What else a pass needs: both summaries, at least one frame, and a say on who cut the audio; of
   audio the implementation cut, a PCM stream with a rate, and no chunk but the last under 15 ms.
   */
  lemma PassNeeds(server: Server, client: Client)
    requires Passes(server, client)
    ensures server.ok && client.ok && server.audio.Some? && client.audio.Some?
    ensures Transported(server.audio.value.sent).Some? && Transported(server.audio.value.sent).value != []
    ensures server.audio.value.chunkedBy == ByAdapter || server.audio.value.chunkedBy == ByImplementation
    ensures server.audio.value.chunkedBy == ByImplementation ==>
              && server.stream.Some? && server.stream.value.pcm
              && server.stream.value.bitDepth > 0 && server.stream.value.bitDepth % 8 == 0
              && var sent, rate := Transported(server.audio.value.sent).value, BytesPerSecond(server.stream.value);
                 forall i :: 0 <= i < |sent| ==>
                   && !LongerThanMax(sent[i], rate) && (i < |sent| - 1 ==> !ShorterThanMin(sent[i], rate))
  {
    if server.audio.value.chunkedBy == ByImplementation {
      var sent, rate := Transported(server.audio.value.sent).value, BytesPerSecond(server.stream.value);
      forall i | 0 <= i < |sent|
        ensures !LongerThanMax(sent[i], rate) && (i < |sent| - 1 ==> !ShorterThanMin(sent[i], rate))
      {
        assert DurationRight(sent, rate, i);
      }
    }
  }

  /** What stripping the header off every frame delivers. */
  function Stripped(frames: seq<Frame>): int {
    if frames == [] then 0
    else Stripped(frames[..|frames| - 1]) + frames[|frames| - 1].byteCount - FRAME_PREFIX_BYTES
  }

  lemma {:induction false} StrippedIsCarried(frames: seq<Frame>)
    requires HeadersRight(frames)
    ensures Stripped(frames) == AudioBytes(frames)
  {
    if frames != [] {
      assert HeaderRight(frames[|frames| - 1]);
      StrippedIsCarried(frames[..|frames| - 1]);
    }
  }

  /** A client that strips exactly 13 bytes off every frame is never convicted from its total. */
  lemma HonestTotalNeverConvicts(server: Server, delivered: nat)
    requires ServerPasses(server)
    requires delivered as int == Stripped(Transported(server.audio.value.sent).value)
    ensures UnobservedClient(Some(delivered), Transported(server.audio.value.sent).value) == ReceivedUnobserved
  {
    StrippedIsCarried(Transported(server.audio.value.sent).value);
  }

  /** One that delivers any other total is, and one that reports none is not judged. */
  lemma OtherTotalConvicts(server: Server, delivered: Option<nat>)
    requires ServerPasses(server)
    ensures var stripped := Stripped(Transported(server.audio.value.sent).value);
            var v := UnobservedClient(delivered, Transported(server.audio.value.sent).value);
            if delivered.Some? && delivered.value as int != stripped
            then v.ClientMisread? && v.delivered == delivered.value && v.sent as int == stripped
            else v == ReceivedUnobserved
  {
    StrippedIsCarried(Transported(server.audio.value.sent).value);
  }

  lemma {:induction false} AudioAtMost(frames: seq<Frame>, rate: int, n: nat)
    requires n <= |frames| && DurationsRight(frames, rate, n)
    ensures AudioBytes(frames[..n]) * US_PER_SECOND <= MAX_CHUNK_US * rate * n
  {
    if n > 0 {
      AudioAtMost(frames, rate, n - 1);
      assert frames[..n][..n - 1] == frames[..n - 1];
      assert DurationRight(frames, rate, n - 1);
      assert MAX_CHUNK_US * rate * n == MAX_CHUNK_US * rate * (n - 1) + MAX_CHUNK_US * rate;
    }
  }

  lemma {:induction false} AudioAtLeast(frames: seq<Frame>, rate: int, n: nat)
    requires n < |frames| && DurationsRight(frames, rate, |frames|)
    ensures AudioBytes(frames[..n]) * US_PER_SECOND >= MIN_CHUNK_US * rate * n
  {
    if n > 0 {
      AudioAtLeast(frames, rate, n - 1);
      assert frames[..n][..n - 1] == frames[..n - 1];
      assert DurationRight(frames, rate, n - 1);
      assert MIN_CHUNK_US * rate * n == MIN_CHUNK_US * rate * (n - 1) + MIN_CHUNK_US * rate;
    }
  }

  /**
   What a pass on audio the implementation cut shows: every frame sent, and every frame
   received, carries its audio behind exactly 13 bytes; and the whole of it lasts at most
   150 ms a chunk and at least 15 ms for every chunk but the last.
   */
  lemma PassBoundsAudio(server: Server, client: Client)
    requires Passes(server, client) && server.audio.value.chunkedBy == ByImplementation
    ensures var sent := Transported(server.audio.value.sent).value;
            var received := Transported(client.audio.value.received).value;
            var format := server.stream.value;
            var rate := format.sampleRate * format.channels * (format.bitDepth / 8);
            && rate > 0 && |received| == |sent|
            && (forall i :: 0 <= i < |sent| ==>
                  && sent[i].payload.Some? && sent[i].payload.value == sent[i].byteCount - 13
                  && received[i].payload == sent[i].payload
                  && received[i].byteCount == sent[i].byteCount && received[i].leading == sent[i].leading
                  && sent[i].leading != [] && sent[i].leading[0] == 4)
            && 15_000 * rate * (|sent| - 1) <= AudioBytes(sent) * 1_000_000 <= 150_000 * rate * |sent|
  {
    var sent := Transported(server.audio.value.sent).value;
    var received := Transported(client.audio.value.received).value;
    var rate := BytesPerSecond(server.stream.value);
    forall i | 0 <= i < |sent|
      ensures sent[i].payload.Some? && sent[i].payload.value == sent[i].byteCount - 13
      ensures received[i].payload == sent[i].payload
      ensures received[i].byteCount == sent[i].byteCount && received[i].leading == sent[i].leading
      ensures sent[i].leading != [] && sent[i].leading[0] == 4
    {
      assert HeaderRight(sent[i]) && HeaderRight(received[i]) && SameFrame(sent[i], received[i]);
    }
    AudioAtMost(sent, rate, |sent|);
    assert sent[..|sent|] == sent;
    AudioAtLeast(sent, rate, |sent| - 1);
  }
}
