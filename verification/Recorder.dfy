/**
 The trace recorder as it is written: connections whose lists are updated in place, one traced
 message at a time. Each method is proved to compute the function of the same name in
 `RecorderSpec`, so everything proved of `Run` holds of every reachable recorder.
 */
module Recorder {
  import opened Wire
  import Spec = RecorderSpec
  import N = NoFalseAccusation
  import L = TimeLaws

  /** Big-endian bytes accumulated in a 64-bit register. */
  method ReadBigEndian(data: seq<byte>) returns (value: nat)
    requires |data| <= TIMESTAMP_BYTES
    ensures value == ReadBe(data)
  {
    value := 0;
    for i := 0 to |data|
      invariant value == ReadBe(data[..i])
    {
      assert data[..i + 1][..i] == data[..i];
      ShiftFits(data[..i]);
      value := value * 256 % 0x1_0000_0000_0000_0000 + data[i] as int;
    }
    assert data[..|data|] == data;
  }

  lemma ShiftFits(data: seq<byte>)
    requires |data| < TIMESTAMP_BYTES
    ensures ReadBe(data) * 256 < 0x1_0000_0000_0000_0000
  {
    ReadBeBound(data);
    Pow256Of8();
    PowMonotone(|data| + 1, TIMESTAMP_BYTES);
  }

  lemma {:induction false} PowMonotone(a: nat, b: nat)
    requires a <= b
    ensures Pow256(a) <= Pow256(b)
  {
    if a < b {
      PowMonotone(a, b - 1);
    }
  }

  method ReadSigned(data: seq<byte>) returns (value: int)
    requires |data| >= TIMESTAMP_BYTES
    ensures value == ReadBeInt64(data)
  {
    value := ReadBigEndian(data[..TIMESTAMP_BYTES]);
    if value >= 0x8000_0000_0000_0000 {
      value := value - 0x1_0000_0000_0000_0000;
    }
  }

  function Zip(entries: seq<Spec.TimeEntry>, flags: seq<bool>): (r: seq<Spec.Placed>)
    requires |entries| == |flags|
    ensures |r| == |entries|
  {
    seq(|entries|, i requires 0 <= i < |entries| => Spec.Placed(entries[i], flags[i]))
  }

  /**
   One connection. The exchange and its confirmation flags are two lists kept in step, as the
   recorder keeps them; `View` pairs them up.
   */
  class Connection {
    const parse: Parser
    var events: seq<Spec.WireEvent>
    var timeExchange: seq<Spec.TimeEntry>
    var timeConfirmed: seq<bool>
    var streams: Spec.Streams
    var session: Spec.Session
    var audio: Spec.Audio
    var metadata: Spec.MetadataTrack
    var artwork: Spec.Artwork
    var frames: seq<Spec.SentFrame>
    var fragment: Spec.Fragment

    /** The connection as a value. */
    function View(): Spec.Conn
      reads this
      requires |timeConfirmed| == |timeExchange|
    {
      Spec.Conn(events, Zip(timeExchange, timeConfirmed), streams, session, audio, metadata, artwork,
                frames, fragment)
    }

    ghost predicate Valid()
      reads this
    {
      |timeConfirmed| == |timeExchange| && Spec.Valid(View())
    }

    constructor (parse: Parser)
      ensures Valid() && View() == Spec.EMPTY_CONN && this.parse == parse
    {
      this.parse := parse;
      events, timeExchange, timeConfirmed := [], [], [];
      streams := Spec.Streams([], []);
      session := Spec.Session(None, [], None, false, false);
      audio := Spec.Audio([], [], [], 0);
      metadata := Spec.MetadataTrack([], None, None);
      artwork := Spec.Artwork(None, 0, [], []);
      frames := [];
      fragment := Spec.Fragment(None, [], Spec.Position(0, 0, 0));
    }

    function PositionOf(): Spec.Position
      reads this
    {
      Spec.Position(|streams.trace|, |timeExchange|, |events|)
    }

    method PublishMetadata(stamp: int)
      modifies `metadata
      ensures metadata == Spec.MetadataWritten(old(metadata), stamp)
    {
      var batch := metadata.unwritten;
      for i := 0 to |batch|
        invariant metadata.first == Spec.FirstTimestamped(old(metadata.first), batch[..i], stamp)
        invariant metadata.latest == if i == 0 then old(metadata.latest) else Some(batch[i - 1])
      {
        assert batch[..i + 1][..i] == batch[..i];
        if metadata.first.None? && batch[i].timestamp.Some? {
          metadata := metadata.(first := Some(Spec.FirstMetadataState(batch[i].timestamp.value, stamp)));
        }
        metadata := metadata.(latest := Some(batch[i]));
      }
      assert batch[..|batch|] == batch;
      metadata := metadata.(unwritten := []);
    }

    method PublishArtwork()
      modifies `artwork
      ensures artwork == old(artwork).(unwritten := [], images := old(artwork.images) + old(artwork.unwritten))
    {
      var batch := artwork.unwritten;
      for i := 0 to |batch|
        invariant artwork == old(artwork).(images := old(artwork.images) + batch[..i])
      {
        artwork := artwork.(images := artwork.images + [batch[i]]);
      }
      artwork := artwork.(unwritten := []);
    }

    method PublishAudio()
      modifies `audio
      ensures audio == Spec.Audio(old(audio.timestamps), [], old(audio.sent) + Concat(old(audio.unwritten)),
                                  old(audio.chunkCount) + |old(audio.unwritten)|)
    {
      var batch := audio.unwritten;
      for i := 0 to |batch|
        invariant audio == old(audio).(sent := old(audio.sent) + Concat(batch[..i]),
                                       chunkCount := old(audio.chunkCount) + i)
      {
        assert batch[..i + 1][..i] == batch[..i];
        audio := audio.(sent := audio.sent + batch[i], chunkCount := audio.chunkCount + 1);
      }
      assert batch[..|batch|] == batch;
      audio := audio.(unwritten := []);
    }

    method PublishStreamStarts()
      modifies `streams
      ensures streams == Spec.Streams(old(streams.trace) + Spec.SentEntries(old(streams.unwritten)), [])
    {
      var batch := streams.unwritten;
      for i := 0 to |batch|
        invariant streams == old(streams).(trace := old(streams.trace) + Spec.SentEntries(batch)[..i])
      {
        streams := streams.(trace := streams.trace + [Spec.StreamStartEntry(true, batch[i])]);
      }
      streams := streams.(unwritten := []);
    }

    method ConfirmAll()
      requires |timeConfirmed| == |timeExchange|
      modifies `timeConfirmed
      ensures |timeConfirmed| == |timeExchange|
      ensures Zip(timeExchange, timeConfirmed) == Spec.AllConfirmed(old(Zip(timeExchange, timeConfirmed)))
    {
      timeConfirmed := seq(|timeConfirmed|, _ => true);
    }

    method OnWritten(stamp: int)
      requires Valid()
      modifies this
      ensures Valid() && View() == Spec.OnWritten(old(View()), stamp)
    {
      PublishMetadata(stamp);
      PublishArtwork();
      PublishAudio();
      ConfirmAll();
      PublishStreamStarts();
      if session.streamEndTraced {
        session := session.(streamEndWritten := true);
      }
    }

    method Receive(event: Spec.WireEvent)
      requires |timeConfirmed| == |timeExchange|
      modifies `events
      ensures View() == old(View()).(events := old(events) + [event])
    {
      events := events + [event];
    }

    /** An entry and its flag go in at the same place, so the lists stay in step. */
    method Place(at: nat, entry: Spec.TimeEntry, confirmed: bool)
      requires |timeConfirmed| == |timeExchange| && at <= |timeExchange|
      modifies `timeExchange, `timeConfirmed
      ensures |timeConfirmed| == |timeExchange|
      ensures Zip(timeExchange, timeConfirmed) ==
              Insert(old(Zip(timeExchange, timeConfirmed)), at, Spec.Placed(entry, confirmed))
    {
      timeExchange := Insert(timeExchange, at, entry);
      timeConfirmed := Insert(timeConfirmed, at, confirmed);
    }

    /** Returns whether the message was a client/hello, which makes this the case connection. */
    method OnInbound(binary: bool, plaintext: seq<byte>) returns (hello: bool)
      requires Valid() && (binary ==> plaintext != [])
      modifies this
      ensures Valid() && View() == Spec.OnInbound(parse, old(View()), binary, plaintext)
      ensures hello == IsHello(parse, Inbound(binary, plaintext))
    {
      if binary && plaintext[0] != JSON_MESSAGE_ID {
        Receive(Spec.WireEvent(true, binary, plaintext[0], NoType));
        return false;
      }
      var text := if binary then plaintext[1..] else plaintext;
      var body := parse(text);
      Receive(Spec.WireEvent(true, binary, JSON_MESSAGE_ID, body.kind));
      if body.kind == ClientState {
        streams := streams.(trace := streams.trace + [Spec.ClientStateEntry(body.available)]);
        session := session.(latestAvailable := body.available);
      } else if body.kind == ClientTime {
        Place(|timeExchange|, Spec.ClientTimeEntry(text), true);
      }
      return body.kind == ClientHello;
    }

    method NoteJson(text: seq<byte>, body: Body, at: nat)
      requires at <= |streams.trace|
      modifies `session, `streams, `metadata
      ensures streams == Spec.JsonStreams(old(streams), body, at)
      ensures session == Spec.JsonSession(old(session), text, body.kind)
      ensures metadata == Spec.JsonMetadata(old(metadata), body)
    {
      match body.kind {
        case ServerActivate =>
          if session.activation.None? {
            session := session.(activation := Some(text));
          }
        case GroupUpdate =>
          if session.activation.Some? {
            session := session.(groupUpdates := session.groupUpdates + [text]);
          }
        case StreamStart =>
          streams := Spec.Streams(Insert(streams.trace, at, Spec.StreamStartEntry(false, body.roles)),
                                  streams.unwritten + [body.roles]);
        case StreamEnd =>
          session := session.(streamEndTraced := true);
        case ServerState =>
          if body.metadata.Some? {
            metadata := metadata.(unwritten := metadata.unwritten + [body.metadata.value]);
          }
        case _ =>
      }
    }

    method OnOutboundJson(text: seq<byte>, position: Spec.Position, binary: bool)
      requires Valid() && Spec.Within(position, View())
      modifies this
      ensures Valid() && View() == Spec.OnOutboundJson(parse, old(View()), text, position, binary)
    {
      var body := parse(text);
      events := Insert(events, position.events, Spec.WireEvent(false, binary, JSON_MESSAGE_ID, body.kind));
      Place(position.time, if body.kind == ServerTime then Spec.ServerTimeEntry(text) else Spec.OtherSentEntry,
            false);
      NoteJson(text, body, position.availability);
    }

    method CollectFragment(plaintext: seq<byte>)
      requires Valid() && Spec.IsFragment(plaintext)
      modifies `fragment, `frames
      ensures Valid() && View() == Spec.Collect(old(View()), plaintext)
    {
      var dataStart := 2;
      if HasFlag(plaintext[1], FIRST_FRAGMENT_FLAG) && |plaintext| >= 3 {
        fragment := Spec.Fragment(Some(plaintext[2]), [], PositionOf());
        dataStart := 3;
      }
      assert [] + plaintext[dataStart..] == plaintext[dataStart..];
      fragment := fragment.(data := fragment.data + plaintext[dataStart..]);
      if fragment.kind != Some(JSON_MESSAGE_ID) {
        frames := frames + [Spec.SentFrame(|plaintext|, Spec.Leading(plaintext), None)];
      }
    }

    method NoteReassembledAudio(id: byte, data: seq<byte>)
      modifies `audio
      ensures audio == Spec.ReassembledAudio(old(audio), id, data)
    {
      if id == AUDIO_CHUNK_MESSAGE_ID && |data| >= TIMESTAMP_BYTES {
        var timestamp := ReadSigned(data);
        audio := audio.(timestamps := audio.timestamps + [timestamp]);
      }
      if id == AUDIO_CHUNK_MESSAGE_ID && |data| >= FRAME_PREFIX_BYTES - 1 {
        audio := audio.(unwritten := audio.unwritten + [data[FRAME_PREFIX_BYTES - 1..]]);
      }
    }

    method OnFragment(plaintext: seq<byte>)
      requires Valid() && Spec.IsFragment(plaintext)
      modifies this
      ensures Valid() && View() == Spec.OnFragment(parse, old(View()), plaintext)
    {
      CollectFragment(plaintext);
      if !HasFlag(plaintext[1], LAST_FRAGMENT_FLAG) || fragment.kind.None? {
        return;
      }
      var id, data := fragment.kind.value, fragment.data;
      fragment := fragment.(kind := None, data := []);
      if id == JSON_MESSAGE_ID {
        OnOutboundJson(data, fragment.position, true);
      } else {
        events := Insert(events, fragment.position.events, Spec.WireEvent(false, true, id, NoType));
        NoteReassembledAudio(id, data);
      }
    }

    method OnOutboundArtwork(plaintext: seq<byte>)
      requires Spec.ArtworkValid(artwork) && plaintext != []
      modifies `artwork
      ensures artwork == Spec.OnArtwork(old(artwork), plaintext)
    {
      if |plaintext| < ARTWORK_HEADER_BYTES {
        return;
      }
      var channel := Spec.ChannelOf(plaintext);
      if HasFlag(plaintext[1], ARTWORK_CANCEL_FLAG) {
        if artwork.transfer.Some? && artwork.transfer.value.channel == channel {
          artwork := artwork.(transfer := None);
        }
        return;
      }
      if HasFlag(plaintext[1], ARTWORK_ANNOUNCE_FLAG) {
        if |plaintext| != ARTWORK_ANNOUNCE_BYTES {
          return;
        }
        var total := ReadBigEndian(plaintext[ARTWORK_HEADER_BYTES + TIMESTAMP_BYTES..]);
        artwork := artwork.(transfer := Some(Spec.SentArtwork(channel, [])), total := total);
      } else if artwork.transfer.Some? && artwork.transfer.value.channel == channel {
        var bytes := artwork.transfer.value.bytes + plaintext[ARTWORK_HEADER_BYTES..];
        artwork := artwork.(transfer := Some(Spec.SentArtwork(channel, bytes)));
      } else {
        return;
      }
      if |artwork.transfer.value.bytes| >= artwork.total {
        artwork := artwork.(unwritten := artwork.unwritten + [artwork.transfer.value], transfer := None);
      }
    }

    method NoteBinaryAudio(plaintext: seq<byte>, audioBytes: nat)
      requires plaintext != []
      modifies `audio
      ensures audio == Spec.BinaryAudio(old(audio), plaintext, audioBytes)
    {
      if plaintext[0] == AUDIO_CHUNK_MESSAGE_ID && |plaintext| >= 1 + TIMESTAMP_BYTES {
        var timestamp := ReadSigned(plaintext[1..]);
        audio := audio.(timestamps := audio.timestamps + [timestamp]);
      }
      if plaintext[0] == AUDIO_CHUNK_MESSAGE_ID && |plaintext| >= FRAME_PREFIX_BYTES &&
         |plaintext| - FRAME_PREFIX_BYTES == audioBytes {
        audio := audio.(unwritten := audio.unwritten + [plaintext[FRAME_PREFIX_BYTES..]]);
      }
    }

    method OnBinary(plaintext: seq<byte>, audioBytes: nat)
      requires Valid() && plaintext != []
      modifies this
      ensures Valid() && View() == Spec.OnBinary(old(View()), plaintext, audioBytes)
    {
      var id := plaintext[0];
      Receive(Spec.WireEvent(false, true, id, NoType));
      if Spec.IsArtworkId(id) {
        OnOutboundArtwork(plaintext);
      }
      frames := frames + [Spec.SentFrame(|plaintext|, Spec.Leading(plaintext),
                                         if id == AUDIO_CHUNK_MESSAGE_ID then Some(audioBytes) else None)];
      NoteBinaryAudio(plaintext, audioBytes);
    }

    method OnOutbound(binary: bool, plaintext: seq<byte>, audioBytes: nat)
      requires Valid()
      modifies this
      ensures Valid() && View() == Spec.OnOutbound(parse, old(View()), binary, plaintext, audioBytes)
    {
      if !binary {
        OnOutboundJson(plaintext, PositionOf(), false);
      } else if plaintext == [] {
        return;
      } else if plaintext[0] == JSON_MESSAGE_ID {
        OnOutboundJson(plaintext[1..], PositionOf(), true);
      } else if Spec.IsFragment(plaintext) {
        OnFragment(plaintext);
      } else {
        OnBinary(plaintext, audioBytes);
      }
    }

    /** One traced message; says whether it was a client/hello. */
    method Take(m: Traced) returns (hello: bool)
      requires Valid()
      modifies this
      ensures Valid() && View() == Spec.Step(parse, old(View()), m)
      ensures hello == IsHello(parse, m)
    {
      hello := false;
      match m {
        case Written(stamp) =>
          OnWritten(stamp);
        case Inbound(binary, plaintext) =>
          hello := OnInbound(binary, plaintext);
        case Outbound(binary, plaintext, audioBytes) =>
          OnOutbound(binary, plaintext, audioBytes);
      }
    }

    /** The connection has run exactly these steps. */
    ghost predicate Follows(p: Parser, tr: seq<Traced>)
      reads this
    {
      parse == p && Valid() && View() == Spec.Run(p, tr, |tr|)
    }

    /** One traced message more. */
    method Follow(m: Traced, ghost tr: seq<Traced>) returns (hello: bool)
      requires Follows(parse, tr)
      modifies this
      ensures Follows(parse, tr + [m])
      ensures hello == IsHello(parse, m)
    {
      hide Spec.Step;
      hello := Take(m);
      RunStep(parse, tr, m);
    }

    /** The confirmed entries, without a leading or repeated other-sent. */
    method ReportExchange() returns (exchange: seq<Spec.TimeEntry>)
      requires Valid()
      ensures exchange == N.Snapshot(View())
    {
      exchange := [];
      ghost var placed := Zip(timeExchange, timeConfirmed);
      assert L.Compress(N.Confirmed([]), N.IsOtherEntry) == [];
      hide L.Compress, N.Confirmed;
      for i := 0 to |timeExchange|
        invariant exchange == L.Compress(N.Confirmed(placed[..i]), N.IsOtherEntry)
      {
        var entry := timeExchange[i];
        assert placed[..i + 1] == placed[..i] + [Spec.Placed(entry, timeConfirmed[i])];
        N.ConfirmedLast(placed[..i], Spec.Placed(entry, timeConfirmed[i]));
        L.CompressLast(N.Confirmed(placed[..i]), entry, N.IsOtherEntry);
        if !timeConfirmed[i] {
          continue;
        }
        if entry.OtherSentEntry? && (exchange == [] || exchange[|exchange| - 1].OtherSentEntry?) {
          continue;
        }
        exchange := exchange + [entry];
      }
      assert placed[..|placed|] == placed;
    }
  }

  predicate IsHello(p: Parser, m: Traced) {
    && m.Inbound?
    && Spec.InboundJson(m.binary, m.plaintext)
    && p(Spec.InboundText(m.binary, m.plaintext)).kind == ClientHello
  }

  /** The steps traced on one connection. */
  function Project(history: seq<(nat, Traced)>, id: nat): seq<Traced> {
    if history == [] then []
    else
      var front := Project(history[..|history| - 1], id);
      var last := history[|history| - 1];
      if last.0 == id then front + [last.1] else front
  }

  /** The latest connection to carry a client/hello. */
  function LatestHello(p: Parser, history: seq<(nat, Traced)>): Option<nat> {
    if history == [] then None
    else
      var last := history[|history| - 1];
      if IsHello(p, last.1) then Some(last.0) else LatestHello(p, history[..|history| - 1])
  }

  /** What the summary is built from: the case connection, its exchange merged as reported. */
  datatype Report = Report(record: Spec.Conn, exchange: seq<Spec.TimeEntry>)

  lemma ProjectStep(history: seq<(nat, Traced)>, id: nat, m: Traced, other: nat)
    ensures Project(history + [(id, m)], other) ==
            if other == id then Project(history, other) + [m] else Project(history, other)
  {
    assert (history + [(id, m)])[..|history|] == history;
  }

  lemma HelloStep(p: Parser, history: seq<(nat, Traced)>, id: nat, m: Traced)
    ensures LatestHello(p, history + [(id, m)]) == if IsHello(p, m) then Some(id) else LatestHello(p, history)
  {
    assert (history + [(id, m)])[..|history|] == history;
  }

  lemma RunStep(p: Parser, tr: seq<Traced>, m: Traced)
    ensures Spec.Run(p, tr + [m], |tr| + 1) == Spec.Step(p, Spec.Run(p, tr, |tr|), m)
  {
    Spec.RunPrefix(p, tr, [m], |tr|);
    hide Spec.Step;
  }

  lemma FollowsParser(connection: Connection, p: Parser, tr: seq<Traced>)
    requires connection.Follows(p, tr)
    ensures connection.parse == p
  {
  }

  class TraceRecorder {
    const parse: Parser
    var connections: map<nat, Connection>
    var caseConnection: Option<nat>
    ghost var history: seq<(nat, Traced)>

    /** Each connection is its own object and has run the steps traced on it. */
    ghost predicate Valid()
      reads this, connections.Values
    {
      && (forall a, b :: a in connections && b in connections && a != b ==> connections[a] != connections[b])
      && (forall id :: id in connections ==> connections[id].Follows(parse, Project(history, id)))
      && (forall id :: id !in connections ==> Project(history, id) == [])
      && caseConnection == LatestHello(parse, history)
      && (caseConnection.Some? ==> caseConnection.value in connections)
    }

    constructor (parse: Parser)
      ensures Valid() && history == [] && this.parse == parse
    {
      this.parse := parse;
      connections := map[];
      caseConnection := None;
      history := [];
    }

    /** The connection a message belongs to, new at its first message. */
    method Find(id: nat) returns (connection: Connection)
      requires Valid()
      modifies this`connections
      ensures Valid()
      ensures id in connections && connections[id] == connection
      ensures connections == old(connections)[id := connection]
      ensures id in old(connections) ==> connection == old(connections)[id]
      ensures id !in old(connections) ==> fresh(connection)
    {
      if id in connections {
        connection := connections[id];
      } else {
        connection := new Connection(parse);
        connections := connections[id := connection];
      }
    }

    /** Every traced message moves its own connection one step and leaves the others alone. */
    method OnMessage(id: nat, m: Traced)
      requires Valid()
      modifies this, connections.Values
      ensures Valid() && history == old(history) + [(id, m)]
      ensures fresh(connections.Values - old(connections.Values))
    {
      hide Project, LatestHello, IsHello, Connection.Follows;
      var connection := Find(id);
      ghost var h := history;
      FollowsParser(connection, parse, Project(h, id));
      var hello := connection.Follow(m, Project(h, id));
      if hello {
        caseConnection := Some(id);
      }
      history := history + [(id, m)];
      HelloStep(parse, h, id, m);
      forall other: nat
        ensures Project(history, other) == if other == id then Project(h, other) + [m] else Project(h, other)
      {
        ProjectStep(h, id, m, other);
      }
    }

    /** The case connection as the summary reports it. */
    method Snapshot() returns (report: Option<Report>)
      requires Valid()
      ensures report ==
              match LatestHello(parse, history)
              case None => None
              case Some(id) =>
                var c := Spec.Run(parse, Project(history, id), |Project(history, id)|);
                Some(Report(c, N.Snapshot(c)))
    {
      if caseConnection.None? {
        return None;
      }
      var connection := connections[caseConnection.value];
      assert connection.Follows(parse, Project(history, caseConnection.value));
      var exchange := connection.ReportExchange();
      return Some(Report(connection.View(), exchange));
    }
  }
}
