/**
 The server adapter's trace recorder for one connection, as a state machine on values.

 `Step` is one traced message, `Run(p, tr, n)` the state after the first `n` steps of a
 trace. The classes in `Recorder` are proved to compute exactly these functions.
 */
module RecorderSpec {
  import opened Wire

  datatype WireEvent = WireEvent(inbound: bool, binary: bool, messageId: byte, kind: MessageType)

  datatype AvailabilityEntry =
    | ClientStateEntry(available: Option<bool>)
    | StreamStartEntry(sent: bool, roles: seq<string>)

  datatype TimeEntry =
    | ClientTimeEntry(json: seq<byte>)
    | ServerTimeEntry(json: seq<byte>)
    | OtherSentEntry

  datatype SentFrame = SentFrame(byteCount: nat, leading: seq<byte>, payloadByteCount: Option<nat>)

  datatype FirstMetadataState = FirstMetadataState(timestamp: int, bound: int)

  datatype SentArtwork = SentArtwork(channel: int, bytes: seq<byte>)

  /** Where an outbound message's entries go: the lists' sizes when its first frame was traced. */
  datatype Position = Position(availability: nat, time: nat, events: nat)

  /** One exchange entry with the flag saying whether a write completion confirmed it. */
  datatype Placed = Placed(entry: TimeEntry, confirmed: bool)

  datatype Session = Session(
    activation: Option<seq<byte>>, groupUpdates: seq<seq<byte>>, latestAvailable: Option<bool>,
    streamEndTraced: bool, streamEndWritten: bool)

  datatype Streams = Streams(trace: seq<AvailabilityEntry>, unwritten: seq<seq<string>>)

  datatype Audio = Audio(
    timestamps: seq<int>, unwritten: seq<seq<byte>>, sent: seq<byte>, chunkCount: nat)

  datatype MetadataTrack = MetadataTrack(
    unwritten: seq<Metadata>, latest: Option<Metadata>, first: Option<FirstMetadataState>)

  datatype Artwork = Artwork(
    transfer: Option<SentArtwork>, total: nat, unwritten: seq<SentArtwork>, images: seq<SentArtwork>)

  datatype Fragment = Fragment(kind: Option<byte>, data: seq<byte>, position: Position)

  datatype Conn = Conn(
    events: seq<WireEvent>,
    exchange: seq<Placed>,
    streams: Streams,
    session: Session,
    audio: Audio,
    metadata: MetadataTrack,
    artwork: Artwork,
    frames: seq<SentFrame>,
    fragment: Fragment)

  const EMPTY_CONN := Conn(
    [], [], Streams([], []), Session(None, [], None, false, false), Audio([], [], [], 0),
    MetadataTrack([], None, None), Artwork(None, 0, [], []), [], Fragment(None, [], Position(0, 0, 0)))

  function PositionOf(c: Conn): Position {
    Position(|c.streams.trace|, |c.exchange|, |c.events|)
  }

  predicate Within(pos: Position, c: Conn) {
    pos.availability <= |c.streams.trace| && pos.time <= |c.exchange| && pos.events <= |c.events|
  }

  /** A transfer in flight holds fewer bytes than its announced total. */
  predicate ArtworkValid(a: Artwork) {
    a.transfer.Some? ==> |a.transfer.value.bytes| < a.total
  }

  /** What every reachable state keeps. */
  predicate Valid(c: Conn) {
    && (c.fragment.kind.Some? ==> Within(c.fragment.position, c))
    && ArtworkValid(c.artwork)
  }

  /** The first timestamped metadata object of a batch becomes the first state, once only. */
  function FirstTimestamped(first: Option<FirstMetadataState>, batch: seq<Metadata>, stamp: int)
    : Option<FirstMetadataState>
  {
    if batch == [] then first
    else
      var before := FirstTimestamped(first, batch[..|batch| - 1], stamp);
      var timestamp := batch[|batch| - 1].timestamp;
      if before.None? && timestamp.Some? then Some(FirstMetadataState(timestamp.value, stamp))
      else before
  }

  function SentEntries(starts: seq<seq<string>>): (r: seq<AvailabilityEntry>)
    ensures |r| == |starts|
  {
    seq(|starts|, i requires 0 <= i < |starts| => StreamStartEntry(true, starts[i]))
  }

  function AllConfirmed(s: seq<Placed>): (r: seq<Placed>)
    ensures |r| == |s|
  {
    seq(|s|, i requires 0 <= i < |s| => Placed(s[i].entry, true))
  }

  function MetadataWritten(m: MetadataTrack, stamp: int): MetadataTrack {
    MetadataTrack(
      [],
      if m.unwritten == [] then m.latest else Some(m.unwritten[|m.unwritten| - 1]),
      FirstTimestamped(m.first, m.unwritten, stamp))
  }

  /** A write completion covers every outbound message traced before it on the connection. */
  function OnWritten(c: Conn, stamp: int): (r: Conn)
    requires Valid(c)
    ensures Valid(r)
  {
    Conn(c.events,
         AllConfirmed(c.exchange),
         Streams(c.streams.trace + SentEntries(c.streams.unwritten), []),
         c.session.(streamEndWritten := c.session.streamEndWritten || c.session.streamEndTraced),
         Audio(c.audio.timestamps, [], c.audio.sent + Concat(c.audio.unwritten),
               c.audio.chunkCount + |c.audio.unwritten|),
         MetadataWritten(c.metadata, stamp),
         c.artwork.(unwritten := [], images := c.artwork.images + c.artwork.unwritten),
         c.frames,
         c.fragment)
  }

  function InboundEvent(p: Parser, binary: bool, plaintext: seq<byte>): WireEvent
    requires binary ==> plaintext != []
  {
    if InboundJson(binary, plaintext)
    then WireEvent(true, binary, JSON_MESSAGE_ID, p(InboundText(binary, plaintext)).kind)
    else WireEvent(true, true, plaintext[0], NoType)
  }

  predicate InboundJson(binary: bool, plaintext: seq<byte>)
    requires binary ==> plaintext != []
  {
    binary ==> plaintext[0] == JSON_MESSAGE_ID
  }

  function InboundText(binary: bool, plaintext: seq<byte>): seq<byte>
    requires binary ==> plaintext != []
  {
    if binary then plaintext[1..] else plaintext
  }

  function OnInbound(p: Parser, c: Conn, binary: bool, plaintext: seq<byte>): (r: Conn)
    requires Valid(c)
    requires binary ==> plaintext != []
    ensures Valid(r)
  {
    var c1 := c.(events := c.events + [InboundEvent(p, binary, plaintext)]);
    if !InboundJson(binary, plaintext) then c1
    else
      var text := InboundText(binary, plaintext);
      var body := p(text);
      match body.kind
      case ClientState =>
        c1.(streams := c1.streams.(trace := c1.streams.trace + [ClientStateEntry(body.available)]),
            session := c1.session.(latestAvailable := body.available))
      case ClientTime => c1.(exchange := c1.exchange + [Placed(ClientTimeEntry(text), true)])
      case _ => c1
  }

  function TimeEntryOf(p: Parser, text: seq<byte>): TimeEntry {
    if p(text).kind == ServerTime then ServerTimeEntry(text) else OtherSentEntry
  }

  function JsonSession(s: Session, text: seq<byte>, kind: MessageType): Session {
    match kind
    case ServerActivate => if s.activation.None? then s.(activation := Some(text)) else s
    case GroupUpdate =>
      if s.activation.Some? then s.(groupUpdates := s.groupUpdates + [text]) else s
    case StreamEnd => s.(streamEndTraced := true)
    case _ => s
  }

  function JsonStreams(s: Streams, body: Body, at: nat): (r: Streams)
    requires at <= |s.trace|
    ensures |r.trace| >= |s.trace|
  {
    if body.kind == StreamStart
    then Streams(Insert(s.trace, at, StreamStartEntry(false, body.roles)), s.unwritten + [body.roles])
    else s
  }

  function JsonMetadata(m: MetadataTrack, body: Body): MetadataTrack {
    if body.kind == ServerState && body.metadata.Some?
    then m.(unwritten := m.unwritten + [body.metadata.value]) else m
  }

  /** An outbound JSON body, whatever frames carried it, placed where its send began. */
  function OnOutboundJson(p: Parser, c: Conn, text: seq<byte>, pos: Position, binary: bool): (r: Conn)
    requires Valid(c) && Within(pos, c)
    ensures Valid(r)
  {
    var body := p(text);
    Conn(Insert(c.events, pos.events, WireEvent(false, binary, JSON_MESSAGE_ID, body.kind)),
         Insert(c.exchange, pos.time, Placed(TimeEntryOf(p, text), false)),
         JsonStreams(c.streams, body, pos.availability),
         JsonSession(c.session, text, body.kind),
         c.audio,
         JsonMetadata(c.metadata, body),
         c.artwork,
         c.frames,
         c.fragment)
  }

  predicate IsFragment(plaintext: seq<byte>) {
    |plaintext| >= 2 && plaintext[0] == FRAGMENT_MESSAGE_ID
  }

  /** A first fragment names the type of the message it opens in its third byte. */
  predicate IsFirst(plaintext: seq<byte>)
    requires IsFragment(plaintext)
  {
    HasFlag(plaintext[1], FIRST_FRAGMENT_FLAG) && |plaintext| >= 3
  }

  predicate IsLast(plaintext: seq<byte>)
    requires IsFragment(plaintext)
  {
    HasFlag(plaintext[1], LAST_FRAGMENT_FLAG)
  }

  function FragmentPayload(plaintext: seq<byte>): seq<byte>
    requires IsFragment(plaintext)
  {
    if IsFirst(plaintext) then plaintext[3..] else plaintext[2..]
  }

  function Leading(plaintext: seq<byte>): seq<byte> {
    if |plaintext| <= FRAME_PREFIX_BYTES then plaintext else plaintext[..FRAME_PREFIX_BYTES]
  }

  function Collected(c: Conn, plaintext: seq<byte>): Fragment
    requires IsFragment(plaintext)
  {
    if IsFirst(plaintext) then Fragment(Some(plaintext[2]), FragmentPayload(plaintext), PositionOf(c))
    else c.fragment.(data := c.fragment.data + FragmentPayload(plaintext))
  }

  /** Takes one fragment in, without completing the message it may end. */
  function Collect(c: Conn, plaintext: seq<byte>): (r: Conn)
    requires Valid(c) && IsFragment(plaintext)
    ensures Valid(r)
  {
    var fragment := Collected(c, plaintext);
    c.(fragment := fragment,
       frames := if fragment.kind != Some(JSON_MESSAGE_ID)
                 then c.frames + [SentFrame(|plaintext|, Leading(plaintext), None)] else c.frames)
  }

  /** The timestamp and the audio of a reassembled chunk, which has lost its ID byte. */
  function ReassembledAudio(a: Audio, id: byte, data: seq<byte>): Audio {
    if id != AUDIO_CHUNK_MESSAGE_ID then a
    else a.(
      timestamps := if |data| >= TIMESTAMP_BYTES then a.timestamps + [ReadBeInt64(data)] else a.timestamps,
      unwritten := if |data| >= FRAME_PREFIX_BYTES - 1
                   then a.unwritten + [data[FRAME_PREFIX_BYTES - 1..]] else a.unwritten)
  }

  /** A message whose type byte is `id` has been reassembled; it began at `pos`. */
  function Reassembled(p: Parser, c: Conn, id: byte, data: seq<byte>, pos: Position): (r: Conn)
    requires Valid(c) && Within(pos, c)
    ensures Valid(r)
  {
    if id == JSON_MESSAGE_ID then OnOutboundJson(p, c, data, pos, true)
    else
      c.(events := Insert(c.events, pos.events, WireEvent(false, true, id, NoType)),
         audio := ReassembledAudio(c.audio, id, data))
  }

  function OnFragment(p: Parser, c: Conn, plaintext: seq<byte>): (r: Conn)
    requires Valid(c) && IsFragment(plaintext)
    ensures Valid(r)
  {
    var c1 := Collect(c, plaintext);
    if !IsLast(plaintext) || c1.fragment.kind.None? then c1
    else
      Reassembled(p, c1.(fragment := c1.fragment.(kind := None, data := [])),
                  c1.fragment.kind.value, c1.fragment.data, c1.fragment.position)
  }

  function ArtworkTotal(announce: seq<byte>): nat
    requires |announce| == ARTWORK_ANNOUNCE_BYTES
  {
    ReadBe(announce[ARTWORK_HEADER_BYTES + TIMESTAMP_BYTES..])
  }

  /** A transfer holding at least its announced total is complete. */
  function Settle(a: Artwork, transfer: SentArtwork, total: nat): (r: Artwork)
    ensures ArtworkValid(r)
  {
    if |transfer.bytes| >= total
    then a.(transfer := None, total := total, unwritten := a.unwritten + [transfer])
    else a.(transfer := Some(transfer), total := total)
  }

  function ChannelOf(plaintext: seq<byte>): int
    requires plaintext != []
  {
    plaintext[0] as int - FIRST_ARTWORK_MESSAGE_ID as int
  }

  function OnArtwork(a: Artwork, plaintext: seq<byte>): (r: Artwork)
    requires ArtworkValid(a) && plaintext != []
    ensures ArtworkValid(r)
  {
    if |plaintext| < ARTWORK_HEADER_BYTES then a
    else
      var channel := ChannelOf(plaintext);
      var inFlight := a.transfer.Some? && a.transfer.value.channel == channel;
      if HasFlag(plaintext[1], ARTWORK_CANCEL_FLAG) then
        if inFlight then a.(transfer := None) else a
      else if HasFlag(plaintext[1], ARTWORK_ANNOUNCE_FLAG) then
        if |plaintext| != ARTWORK_ANNOUNCE_BYTES then a
        else Settle(a, SentArtwork(channel, []), ArtworkTotal(plaintext))
      else if inFlight then
        Settle(a, SentArtwork(channel, a.transfer.value.bytes + plaintext[ARTWORK_HEADER_BYTES..]), a.total)
      else a
  }

  predicate IsArtworkId(id: byte) {
    FIRST_ARTWORK_MESSAGE_ID <= id <= LAST_ARTWORK_MESSAGE_ID
  }

  /**
   The audio of a chunk sent in one frame: its timestamp, and what follows the header only
   when the trace's audio length agrees.
   */
  function BinaryAudio(a: Audio, plaintext: seq<byte>, audioBytes: nat): Audio
    requires plaintext != []
  {
    if plaintext[0] != AUDIO_CHUNK_MESSAGE_ID then a
    else a.(
      timestamps := if |plaintext| >= 1 + TIMESTAMP_BYTES
                    then a.timestamps + [ReadBeInt64(plaintext[1..])] else a.timestamps,
      unwritten := if |plaintext| >= FRAME_PREFIX_BYTES && |plaintext| - FRAME_PREFIX_BYTES == audioBytes
                   then a.unwritten + [plaintext[FRAME_PREFIX_BYTES..]] else a.unwritten)
  }

  /** A binary message sent in one frame that is neither a JSON body nor a fragment. */
  function OnBinary(c: Conn, plaintext: seq<byte>, audioBytes: nat): (r: Conn)
    requires Valid(c) && plaintext != []
    ensures Valid(r)
  {
    var id := plaintext[0];
    c.(events := c.events + [WireEvent(false, true, id, NoType)],
       artwork := if IsArtworkId(id) then OnArtwork(c.artwork, plaintext) else c.artwork,
       frames := c.frames + [SentFrame(|plaintext|, Leading(plaintext),
                                       if id == AUDIO_CHUNK_MESSAGE_ID then Some(audioBytes) else None)],
       audio := BinaryAudio(c.audio, plaintext, audioBytes))
  }

  function OnOutbound(p: Parser, c: Conn, binary: bool, plaintext: seq<byte>, audioBytes: nat): (r: Conn)
    requires Valid(c)
    ensures Valid(r)
  {
    if !binary then OnOutboundJson(p, c, plaintext, PositionOf(c), false)
    else if plaintext == [] then c
    else if plaintext[0] == JSON_MESSAGE_ID then
      OnOutboundJson(p, c, plaintext[1..], PositionOf(c), true)
    else if IsFragment(plaintext) then OnFragment(p, c, plaintext)
    else OnBinary(c, plaintext, audioBytes)
  }

  function Step(p: Parser, c: Conn, m: Traced): (r: Conn)
    requires Valid(c)
    ensures Valid(r)
  {
    match m
    case Written(stamp) => OnWritten(c, stamp)
    case Inbound(binary, plaintext) => OnInbound(p, c, binary, plaintext)
    case Outbound(binary, plaintext, audioBytes) => OnOutbound(p, c, binary, plaintext, audioBytes)
  }

  /**
   The state after the first `n` steps of a trace. In every such state a saved position lies
   within the lists, and a transfer in flight holds fewer bytes than its announced total.
   */
  function Run(p: Parser, tr: seq<Traced>, n: nat): (c: Conn)
    requires n <= |tr|
    ensures Valid(c)
  {
    if n == 0 then EMPTY_CONN else Step(p, Run(p, tr, n - 1), tr[n - 1])
  }

  /** A run depends only on the steps it has taken. */
  lemma {:induction false} RunPrefix(p: Parser, tr: seq<Traced>, more: seq<Traced>, n: nat)
    requires n <= |tr|
    ensures Run(p, tr + more, n) == Run(p, tr, n)
  {
    if n > 0 {
      RunPrefix(p, tr, more, n - 1);
      assert (tr + more)[n - 1] == tr[n - 1];
    }
  }
}
