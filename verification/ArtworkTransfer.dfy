/**
 Artwork sent in parts: the recorder completes exactly the image that was cut up, and
 publishes it at the next write completion.
 */
module ArtworkTransfer {
  import opened Wire
  import opened RecorderSpec
  import opened StartOrder
  import opened FragmentTransparency

  // ---- Artwork frames, in the bytes of the wire ----

  /** A binary message of one of the four artwork types, 8 to 11. */
  predicate ArtworkFrame(m: Traced) {
    m.Outbound? && m.binary && m.plaintext != [] && 8 <= m.plaintext[0] <= 11
  }

  /** One with flags, for a channel counted from type 8. */
  predicate OnChannel(m: Traced, channel: int) {
    ArtworkFrame(m) && |m.plaintext| >= 2 && m.plaintext[0] as int == 8 + channel
  }

  /** Bit 0 of the flags cancels. */
  predicate Cancels(m: Traced, channel: int) {
    OnChannel(m, channel) && m.plaintext[1] % 2 == 1
  }

  /** Bit 1 announces: eight bytes of timestamp, then the image's size in four. */
  predicate Announces(m: Traced, channel: int, total: nat) {
    && OnChannel(m, channel) && m.plaintext[1] % 4 == 2
    && |m.plaintext| == 14 && total < 0x1_0000_0000 && m.plaintext[10..] == BigEndian(total, 4)
  }

  /** Neither bit: image bytes follow the flags. */
  predicate IsPart(m: Traced, channel: int) {
    OnChannel(m, channel) && m.plaintext[1] % 4 == 0
  }

  lemma FlagBits(flags: byte)
    ensures HasFlag(flags, ARTWORK_CANCEL_FLAG) <==> flags % 2 == 1
    ensures !HasFlag(flags, ARTWORK_CANCEL_FLAG) && HasFlag(flags, ARTWORK_ANNOUNCE_FLAG) <==> flags % 4 == 2
    ensures !HasFlag(flags, ARTWORK_CANCEL_FLAG) && !HasFlag(flags, ARTWORK_ANNOUNCE_FLAG) <==> flags % 4 == 0
  {
  }

  /** The announced size is the one the recorder reads. */
  lemma SizeIsRead(m: Traced, channel: int, total: nat)
    requires Announces(m, channel, total)
    ensures ArtworkTotal(m.plaintext) == total && ChannelOf(m.plaintext) == channel
  {
    assert Pow256(4) == 0x1_0000_0000;
    ReadBackUnsigned(total, 4);
  }

  /** An announcement as a sender builds it: type, flags, timestamp and size. */
  lemma AnnouncementIs(channel: nat, timestamp: seq<byte>, total: nat, counted: nat)
    requires channel < 4 && |timestamp| == 8 && total < 0x1_0000_0000
    ensures Announces(Outbound(true, [8 + channel as byte, 2] + timestamp + BigEndian(total, 4), counted), channel, total)
  {
    var frame := [8 + channel as byte, 2] + timestamp + BigEndian(total, 4);
    assert frame[10..] == BigEndian(total, 4);
  }

  function PartBytes(m: Traced): seq<byte> {
    if m.Outbound? && |m.plaintext| >= 2 then m.plaintext[2..] else []
  }

  /** What the artwork frames among further messages carry, concatenated. */
  function Assembled(ms: seq<Traced>): seq<byte> {
    if ms == [] then []
    else Assembled(ms[..|ms| - 1]) + if ArtworkFrame(ms[|ms| - 1]) then PartBytes(ms[|ms| - 1]) else []
  }

  /** Every image completed so far, written or not. */
  function Finished(a: Artwork): seq<SentArtwork> {
    a.images + a.unwritten
  }

  lemma ArtworkStep(p: Parser, c: Conn, m: Traced)
    requires Valid(c)
    ensures var a, r := c.artwork, Step(p, c, m).artwork;
            if ArtworkFrame(m) then r == OnArtwork(a, m.plaintext)
            else if m.Written? then r == a.(unwritten := [], images := a.images + a.unwritten)
            else r == a
  {
  }

  /** Only artwork frames complete images or touch the transfer in flight. */
  lemma OtherTraffic(p: Parser, c: Conn, m: Traced)
    requires Valid(c) && !ArtworkFrame(m)
    ensures var a, r := c.artwork, Step(p, c, m).artwork;
            Finished(r) == Finished(a) && r.transfer == a.transfer && r.total == a.total
  {
    hide Step;
    ArtworkStep(p, c, m);
    assert (c.artwork.images + c.artwork.unwritten) + [] == c.artwork.images + c.artwork.unwritten;
  }

  /** An image cut into parts on one channel, with other traffic in between. */
  ghost predicate Cut(ms: seq<Traced>, channel: int) {
    forall k :: 0 <= k < |ms| && ArtworkFrame(ms[k]) ==> IsPart(ms[k], channel)
  }

  /** While bytes are missing, the transfer holds what has been sent and nothing is completed. */
  lemma {:induction false} InFlight(p: Parser, c: Conn, ms: seq<Traced>, channel: int)
    requires Valid(c) && Cut(ms, channel)
    requires c.artwork.transfer == Some(SentArtwork(channel, [])) && |Assembled(ms)| < c.artwork.total
    ensures var r := RunFrom(p, c, ms).artwork;
            && r.transfer == Some(SentArtwork(channel, Assembled(ms)))
            && r.total == c.artwork.total
            && Finished(r) == Finished(c.artwork)
  {
    hide Step, OnArtwork;
    if ms != [] {
      var front, m := ms[..|ms| - 1], ms[|ms| - 1];
      InFlight(p, c, front, channel);
      if ArtworkFrame(m) {
        ArtworkStep(p, RunFrom(p, c, front), m);
        PartTaken(RunFrom(p, c, front).artwork, m, channel);
      } else {
        OtherTraffic(p, RunFrom(p, c, front), m);
        assert Assembled(ms) == Assembled(front);
      }
    }
  }

  /** A part is appended; the transfer completes when the announced total is reached. */
  lemma PartTaken(a: Artwork, m: Traced, channel: int)
    requires ArtworkValid(a) && IsPart(m, channel)
    requires a.transfer.Some? && a.transfer.value.channel == channel
    ensures var bytes := a.transfer.value.bytes + PartBytes(m);
            OnArtwork(a, m.plaintext) ==
            if |bytes| < a.total then a.(transfer := Some(SentArtwork(channel, bytes)))
            else a.(transfer := None, unwritten := a.unwritten + [SentArtwork(channel, bytes)])
  {
    FlagBits(m.plaintext[1]);
  }

  lemma Announced(a: Artwork, m: Traced, channel: int, total: nat)
    requires ArtworkValid(a) && Announces(m, channel, total)
    ensures OnArtwork(a, m.plaintext) ==
            if total > 0 then a.(transfer := Some(SentArtwork(channel, [])), total := total)
            else a.(transfer := None, total := 0, unwritten := a.unwritten + [SentArtwork(channel, [])])
  {
    FlagBits(m.plaintext[1]);
    SizeIsRead(m, channel, total);
    hide ArtworkTotal;
  }

  /** A cancel drops the transfer on its own channel, and only there; nothing is completed. */
  lemma CancelDrops(p: Parser, c: Conn, m: Traced, channel: int)
    requires Valid(c) && Cancels(m, channel)
    ensures Step(p, c, m).artwork ==
            if c.artwork.transfer.Some? && c.artwork.transfer.value.channel == channel
            then c.artwork.(transfer := None) else c.artwork
  {
    ArtworkStep(p, c, m);
    FlagBits(m.plaintext[1]);
    hide Step, ArtworkTotal, Settle;
  }

  /** A part on a channel with no transfer in flight changes nothing. */
  lemma StrayPart(p: Parser, c: Conn, m: Traced, channel: int)
    requires Valid(c) && IsPart(m, channel)
    requires c.artwork.transfer.Some? ==> c.artwork.transfer.value.channel != channel
    ensures Step(p, c, m).artwork == c.artwork
  {
    ArtworkStep(p, c, m);
    FlagBits(m.plaintext[1]);
    hide Step, ArtworkTotal, Settle;
  }

  /** An announcement of another length, or a frame without flags, changes nothing. */
  lemma MalformedArtwork(p: Parser, c: Conn, m: Traced)
    requires Valid(c) && ArtworkFrame(m)
    requires |m.plaintext| < 2 || (m.plaintext[1] % 4 == 2 && |m.plaintext| != 14)
    ensures Step(p, c, m).artwork == c.artwork
  {
    ArtworkStep(p, c, m);
    if |m.plaintext| >= 2 {
      FlagBits(m.plaintext[1]);
    }
    hide Step, ArtworkTotal, Settle;
  }

  /**
   One image in, the same image out: whatever state it starts in, an announced image cut into
   parts on one channel, interleaved with any other traffic and ending with the part that
   completes it, adds exactly one completed image with exactly those bytes. It is pending
   until the next write completion.
   */
  lemma ImageReassembled(p: Parser, c: Conn, announce: Traced, ms: seq<Traced>, last: Traced, channel: int)
    requires Valid(c) && Cut(ms, channel) && IsPart(last, channel) && PartBytes(last) != []
    requires var image := Assembled(ms) + PartBytes(last);
             Announces(announce, channel, |image|)
    ensures var r := Step(p, RunFrom(p, Step(p, c, announce), ms), last).artwork;
            var image := SentArtwork(channel, Assembled(ms) + PartBytes(last));
            && r.transfer == None
            && Finished(r) == Finished(c.artwork) + [image]
            && r.unwritten != [] && r.unwritten[|r.unwritten| - 1] == image
    ensures Finished(RunFrom(p, Step(p, c, announce), ms).artwork) == Finished(c.artwork)
  {
    hide Step, OnArtwork;
    var total := |Assembled(ms) + PartBytes(last)|;
    ArtworkStep(p, c, announce);
    Announced(c.artwork, announce, channel, total);
    var c1 := Step(p, c, announce);
    InFlight(p, c1, ms, channel);
    var c2 := RunFrom(p, c1, ms);
    ArtworkStep(p, c2, last);
    PartTaken(c2.artwork, last, channel);
    assert (c2.artwork.images + c2.artwork.unwritten) + [SentArtwork(channel, Assembled(ms) + PartBytes(last))] ==
           c2.artwork.images + (c2.artwork.unwritten + [SentArtwork(channel, Assembled(ms) + PartBytes(last))]);
  }

  /** An empty image is complete when it is announced. */
  lemma EmptyImage(p: Parser, c: Conn, announce: Traced, channel: int)
    requires Valid(c) && Announces(announce, channel, 0)
    ensures var r := Step(p, c, announce).artwork;
            r.transfer == None && Finished(r) == Finished(c.artwork) + [SentArtwork(channel, [])]
  {
    ArtworkStep(p, c, announce);
    Announced(c.artwork, announce, channel, 0);
  }

  /**
   Published once, at the first write completion after the last part: the images published
   after `n` steps are those completed before the last write, in order.
   */
  lemma {:induction false} PublishedAtWrites(p: Parser, tr: seq<Traced>, n: nat)
    requires n <= |tr|
    ensures Run(p, tr, n).artwork.images == Finished(Run(p, tr, LastWrite(tr, n)).artwork)
  {
    hide Step;
    if n > 0 {
      PublishedAtWrites(p, tr, n - 1);
      ArtworkStep(p, Run(p, tr, n - 1), tr[n - 1]);
      if ArtworkFrame(tr[n - 1]) { ImagesKept(Run(p, tr, n - 1).artwork, tr[n - 1].plaintext); }
    }
  }

  lemma ImagesKept(a: Artwork, plaintext: seq<byte>)
    requires ArtworkValid(a) && plaintext != []
    ensures OnArtwork(a, plaintext).images == a.images
  {
  }
}
