/**
 The recorder's steps on the bytes that cross the wire, told in numbers: which text an inbound
 frame carries, what an outbound one adds, where a chunk's header ends and how fragments are
 marked. No definition the recorder reads its frames with is used here.
 */
module WireLevel {
  import opened Wire
  import opened RecorderSpec
  import R = Recorder

  // ---- Inbound ----

  /** What an inbound text adds to the exchange, and to the availability trace. */
  function TimeOf(p: Parser, text: seq<byte>): seq<Placed> {
    if p(text).kind == ClientTime then [Placed(ClientTimeEntry(text), true)] else []
  }

  function StateOf(p: Parser, text: seq<byte>): seq<AvailabilityEntry> {
    if p(text).kind == ClientState then [ClientStateEntry(p(text).available)] else []
  }

  /** The connection after an inbound text, in a cleartext frame or under the transport. */
  function WithText(p: Parser, c: Conn, text: seq<byte>, binary: bool): Conn {
    c.(events := c.events + [WireEvent(true, binary, 0, p(text).kind)],
       exchange := c.exchange + TimeOf(p, text),
       streams := Streams(c.streams.trace + StateOf(p, text), c.streams.unwritten),
       session := if p(text).kind == ClientState then c.session.(latestAvailable := p(text).available)
                  else c.session)
  }

  /** A text frame carries its text, and a binary one the text after its zero byte. */
  lemma InboundTextIs(p: Parser, c: Conn, text: seq<byte>)
    requires Valid(c)
    ensures Step(p, c, Inbound(false, text)) == WithText(p, c, text, false)
    ensures Step(p, c, Inbound(true, [0] + text)) == WithText(p, c, text, true)
  {
    assert ([0] + text)[1..] == text;
    assert c.exchange + [] == c.exchange && c.streams.trace + [] == c.streams.trace;
  }

  /** A role's binary message leaves its event and nothing else. */
  lemma InboundRoleData(p: Parser, c: Conn, id: byte, data: seq<byte>)
    requires Valid(c) && id != 0
    ensures Step(p, c, Inbound(true, [id] + data)) ==
            c.(events := c.events + [WireEvent(true, true, id, NoType)])
  {
  }

  /** A client/hello is recognised by the type of that text, in either frame, and by nothing else. */
  lemma HelloIs(p: Parser, text: seq<byte>, id: byte, data: seq<byte>)
    ensures R.IsHello(p, Inbound(false, text)) <==> p(text).kind == ClientHello
    ensures R.IsHello(p, Inbound(true, [0] + text)) <==> p(text).kind == ClientHello
    ensures id != 0 ==> !R.IsHello(p, Inbound(true, [id] + data))
  {
    assert ([0] + text)[1..] == text;
  }

  // ---- Outbound text ----

  /** The entry an outbound text leaves in the exchange, unconfirmed. */
  function AnswerOf(p: Parser, text: seq<byte>): Placed {
    Placed(if p(text).kind == ServerTime then ServerTimeEntry(text) else OtherSentEntry, false)
  }

  /** A text sent in one frame: at the end of the lists, and pending until a write covers it. */
  ghost predicate TextSent(p: Parser, c: Conn, text: seq<byte>, binary: bool, r: Conn) {
    var body := p(text);
    && r.events == c.events + [WireEvent(false, binary, 0, body.kind)]
    && r.exchange == c.exchange + [AnswerOf(p, text)]
    && r.streams == (if body.kind == StreamStart
                     then Streams(c.streams.trace + [StreamStartEntry(false, body.roles)],
                                  c.streams.unwritten + [body.roles])
                     else c.streams)
    && r.metadata.unwritten == c.metadata.unwritten +
                               (if body.kind == ServerState && body.metadata.Some? then [body.metadata.value] else [])
    && r.session.streamEndTraced == (c.session.streamEndTraced || body.kind == StreamEnd)
    && r.audio == c.audio && r.artwork == c.artwork && r.frames == c.frames && r.fragment == c.fragment
  }

  lemma OutboundTextIs(p: Parser, c: Conn, text: seq<byte>, audioBytes: nat)
    requires Valid(c)
    ensures TextSent(p, c, text, false, Step(p, c, Outbound(false, text, audioBytes)))
    ensures TextSent(p, c, text, true, Step(p, c, Outbound(true, [0] + text, audioBytes)))
  {
    assert ([0] + text)[1..] == text;
    AppendedText(p, c, text, false);
    AppendedText(p, c, text, true);
    hide OnOutboundJson, TextSent;
  }

  lemma AppendedText(p: Parser, c: Conn, text: seq<byte>, binary: bool)
    requires Valid(c)
    ensures TextSent(p, c, text, binary, OnOutboundJson(p, c, text, PositionOf(c), binary))
  {
    AtTheEnd(c.events, WireEvent(false, binary, 0, p(text).kind));
    AtTheEnd(c.exchange, AnswerOf(p, text));
    AtTheEnd(c.streams.trace, StreamStartEntry(false, p(text).roles));
    hide Insert;
  }

  lemma AtTheEnd<T>(s: seq<T>, x: T)
    ensures Insert(s, |s|, x) == s + [x]
  {
  }

  /** A write marks a stream/start sent with the roles it named, and its other lists as held back. */
  lemma WrittenIs(p: Parser, c: Conn, stamp: int, roles: seq<string>)
    requires Valid(c) && c.streams.unwritten == [roles]
    ensures Step(p, c, Written(stamp)).streams == Streams(c.streams.trace + [StreamStartEntry(true, roles)], [])
  {
  }

  // ---- Chunks ----

  /** A chunk under its ID byte: timestamp, send_ahead and audio. */
  function ChunkBody(timestamp: seq<byte>, sendAhead: seq<byte>, audio: seq<byte>): seq<byte> {
    timestamp + sendAhead + audio
  }

  /** A timestamp as the wire carries it. */
  predicate StampBytes(timestamp: int, data: seq<byte>) {
    && -0x8000_0000_0000_0000 <= timestamp < 0x8000_0000_0000_0000
    && data == BigEndian(if timestamp < 0 then timestamp + 0x1_0000_0000_0000_0000 else timestamp, 8)
  }

  /**
   A chunk in one frame, ID 4: eight bytes of timestamp, four of send_ahead and then audio, taken
   when the trace counts that much of it; its frame is listed with its first 13 bytes.
   */
  lemma ChunkIs(p: Parser, c: Conn, timestamp: int, stamp: seq<byte>, sendAhead: seq<byte>, audio: seq<byte>, counted: nat)
    requires Valid(c) && StampBytes(timestamp, stamp) && |sendAhead| == 4
    ensures var frame := [4] + ChunkBody(stamp, sendAhead, audio);
            var r := Step(p, c, Outbound(true, frame, counted));
            && r.audio.timestamps == c.audio.timestamps + [timestamp]
            && r.audio.unwritten == c.audio.unwritten + (if counted == |audio| then [audio] else [])
            && r.frames == c.frames + [SentFrame(13 + |audio|, [4] + stamp + sendAhead, Some(counted))]
            && r.events == c.events + [WireEvent(false, true, 4, NoType)]
  {
    var frame := [4] + ChunkBody(stamp, sendAhead, audio);
    assert frame[1..] == stamp + (sendAhead + audio);
    TimestampRoundTrip(timestamp, sendAhead + audio);
    assert frame[13..] == audio && frame[..13] == [4] + stamp + sendAhead;
    assert |frame| == 13 + |audio| && frame[0] == 4;
    assert Leading(frame) == [4] + stamp + sendAhead;
    assert c.audio.unwritten + [] == c.audio.unwritten;
    hide ReadBeInt64, BigEndian, ChunkBody, Leading;
  }

  /** A reassembled chunk has lost its ID byte; its audio begins at the thirteenth byte. */
  lemma ReassembledChunkIs(p: Parser, c: Conn, timestamp: int, stamp: seq<byte>, sendAhead: seq<byte>, audio: seq<byte>, pos: Position)
    requires Valid(c) && Within(pos, c) && StampBytes(timestamp, stamp) && |sendAhead| == 4
    ensures var r := Reassembled(p, c, 4, ChunkBody(stamp, sendAhead, audio), pos);
            && r.audio.timestamps == c.audio.timestamps + [timestamp]
            && r.audio.unwritten == c.audio.unwritten + [audio]
  {
    var body := ChunkBody(stamp, sendAhead, audio);
    assert body == stamp + (sendAhead + audio);
    TimestampRoundTrip(timestamp, sendAhead + audio);
    assert body[12..] == audio;
    hide ReadBeInt64, BigEndian;
  }

  // ---- Fragments ----

  /** A binary frame of type 1: bit 1 of its flags marks the first fragment, bit 0 the last. */
  lemma FragmentIs(flags: byte, rest: seq<byte>)
    ensures IsFragment([1, flags] + rest)
    ensures IsLast([1, flags] + rest) <==> flags % 2 == 1
    ensures IsFirst([1, flags] + rest) <==> (flags % 4 == 2 || flags % 4 == 3) && rest != []
    ensures FragmentPayload([1, flags] + rest) ==
            if (flags % 4 == 2 || flags % 4 == 3) && rest != [] then rest[1..] else rest
  {
    var frame := [1, flags] + rest;
    assert frame[2..] == rest;
    if rest != [] {
      assert frame[3..] == rest[1..];
    }
  }

  /** Any other frame is whole: of another type, or too short for its flags. */
  lemma NoFragmentIs(frame: seq<byte>)
    ensures IsFragment(frame) <==> |frame| >= 2 && frame[0] == 1
  {
  }

  /** A message in two fragments: the first names its type and nothing is listed for it yet. */
  lemma TwoFragments(p: Parser, c: Conn, id: byte, head: seq<byte>, tail: seq<byte>)
    requires Valid(c)
    ensures var c1 := Step(p, c, Outbound(true, [1, 2, id] + head, 0));
            && c1.events == c.events && c1.exchange == c.exchange && c1.audio == c.audio
            && c1.fragment == Fragment(Some(id), head, PositionOf(c))
            && Within(PositionOf(c), c1)
            && Step(p, c1, Outbound(true, [1, 1] + tail, 0)).events ==
               Reassembled(p, c1, id, head + tail, PositionOf(c)).events
            && Step(p, c1, Outbound(true, [1, 1] + tail, 0)).audio ==
               Reassembled(p, c1, id, head + tail, PositionOf(c)).audio
            && Step(p, c1, Outbound(true, [1, 1] + tail, 0)).exchange ==
               Reassembled(p, c1, id, head + tail, PositionOf(c)).exchange
  {
    var first, last := [1, 2, id] + head, [1, 1] + tail;
    FragmentIs(2, [id] + head);
    assert first == [1, 2] + ([id] + head) && ([id] + head)[1..] == head;
    FragmentIs(1, tail);
    hide IsFirst, IsLast, FragmentPayload, ReassembledAudio, JsonSession, JsonMetadata, JsonStreams, TimeEntryOf;
  }
}
