/**
 The data that crosses the transport: bytes, logical messages and traced steps.

 JSON text is left as the bytes that carried it. Whatever a parser makes of those bytes is
 a `Body`, and every definition that needs one takes the parser as an argument, so each
 result holds for any deterministic parser.
 */
module Wire {

  datatype Option<+T> = None | Some(value: T)

  newtype byte = b: int | 0 <= b < 256

  // Section "Binary Message ID Structure" and "Fragmentation" of the Sendspin messaging spec
  const JSON_MESSAGE_ID: byte := 0
  const FRAGMENT_MESSAGE_ID: byte := 1
  const AUDIO_CHUNK_MESSAGE_ID: byte := 4
  const FIRST_ARTWORK_MESSAGE_ID: byte := 8
  const LAST_ARTWORK_MESSAGE_ID: byte := 11
  const ARTWORK_CANCEL_FLAG: int := 1
  const ARTWORK_ANNOUNCE_FLAG: int := 2
  const ARTWORK_ANNOUNCE_BYTES := 14
  const ARTWORK_HEADER_BYTES := 2
  const FIRST_FRAGMENT_FLAG: int := 2
  const LAST_FRAGMENT_FLAG: int := 1
  const FRAME_PREFIX_BYTES := 13
  const TIMESTAMP_BYTES := 8

  /** Whether a one-bit flag (a power of two) is set. */
  predicate HasFlag(flags: byte, flag: int)
    requires flag > 0
  {
    (flags as int / flag) % 2 == 1
  }

  /** The unsigned value of big-endian bytes. */
  function ReadBe(data: seq<byte>): (value: nat) {
    if data == [] then 0 else ReadBe(data[..|data| - 1]) * 256 + data[|data| - 1] as int
  }

  /** The signed value of the first eight bytes, reinterpreted as two's complement. */
  function ReadBeInt64(data: seq<byte>): (value: int)
    requires |data| >= TIMESTAMP_BYTES
  {
    var raw := ReadBe(data[..TIMESTAMP_BYTES]);
    if raw < 0x8000_0000_0000_0000 then raw else raw - 0x1_0000_0000_0000_0000
  }

  /** The JSON `type` a message carries; `NoType` for one that is not JSON or names none. */
  datatype MessageType =
    | ClientInit | ServerInit | NoiseHandshake | ServerHello | ClientHello | ClientGoodbye
    | ServerActivate | ClientState | ClientTime | ServerTime | GroupUpdate
    | StreamStart | StreamEnd | ServerState | OtherType(name: string) | NoType

  /** One field of a JSON object, as far as the time exchange reads it. */
  datatype Field = Absent | NotInteger | Integer(n: int)

  datatype TimePayload =
    | NoObject
    | TimeFields(clientTransmitted: Field, serverReceived: Field, serverTransmitted: Field)

  /** A metadata object; the timestamp is present only when it is an integer. */
  datatype Metadata = Metadata(text: seq<byte>, timestamp: Option<int>)

  /** What a parser makes of one message. Fields a message does not carry are unused. */
  datatype Body = Body(
    kind: MessageType,
    time: TimePayload,
    available: Option<bool>,
    roles: seq<string>,
    metadata: Option<Metadata>)

  type Parser = seq<byte> -> Body

  /**
   One step the library's trace reports on a connection. An empty inbound binary message is left
   out: the recorder takes it for JSON and skips a byte it does not have, which C++ leaves undefined.
   */
  datatype RawTraced =
    | Written(stamp: int)
    | Inbound(binary: bool, plaintext: seq<byte>)
    | Outbound(binary: bool, plaintext: seq<byte>, audioBytes: nat)

  type Traced = m: RawTraced | m.Inbound? && m.binary ==> m.plaintext != []
    witness Written(0)

  /** The concatenation of a sequence of byte strings. */
  function Concat(parts: seq<seq<byte>>): seq<byte> {
    if parts == [] then [] else Concat(parts[..|parts| - 1]) + parts[|parts| - 1]
  }

  lemma {:induction false} ConcatAppend(a: seq<seq<byte>>, b: seq<seq<byte>>)
    ensures Concat(a + b) == Concat(a) + Concat(b)
  {
    if b == [] {
      assert a + b == a;
    } else {
      ConcatAppend(a, b[..|b| - 1]);
      assert (a + b)[..|a + b| - 1] == a + b[..|b| - 1] && (a + b)[|a + b| - 1] == b[|b| - 1];
    }
  }

  function Min(a: nat, b: nat): nat {
    if a <= b then a else b
  }

  function Insert<T>(s: seq<T>, at: nat, x: T): (r: seq<T>)
    requires at <= |s|
    ensures |r| == |s| + 1
  {
    s[..at] + [x] + s[at..]
  }

  function Pow256(k: nat): (r: nat)
    ensures r > 0
  {
    if k == 0 then 1 else 256 * Pow256(k - 1)
  }

  lemma {:induction false} ReadBeBound(data: seq<byte>)
    ensures ReadBe(data) < Pow256(|data|)
  {
    if data != [] {
      ReadBeBound(data[..|data| - 1]);
    }
  }

  /** The `size` low bytes of a value, most significant first. */
  function BigEndian(value: nat, size: nat): (r: seq<byte>)
    ensures |r| == size
  {
    if size == 0 then [] else BigEndian(value / 256, size - 1) + [(value % 256) as byte]
  }

  lemma {:induction false} ReadBackUnsigned(value: nat, size: nat)
    requires value < Pow256(size)
    ensures ReadBe(BigEndian(value, size)) == value
  {
    if size > 0 {
      ReadBackUnsigned(value / 256, size - 1);
      assert BigEndian(value, size)[..size - 1] == BigEndian(value / 256, size - 1);
    }
  }

  lemma Pow256Of8()
    ensures Pow256(8) == 0x1_0000_0000_0000_0000
  {
    assert Pow256(4) == 0x1_0000_0000;
    assert Pow256(6) == 0x1_0000_0000_0000;
  }

  /** A 64-bit timestamp, negative ones included, survives the header it is read back from. */
  lemma TimestampRoundTrip(timestamp: int, rest: seq<byte>)
    requires -0x8000_0000_0000_0000 <= timestamp < 0x8000_0000_0000_0000
    ensures var raw := if timestamp < 0 then timestamp + 0x1_0000_0000_0000_0000 else timestamp;
            ReadBeInt64(BigEndian(raw, TIMESTAMP_BYTES) + rest) == timestamp
  {
    var raw := if timestamp < 0 then timestamp + 0x1_0000_0000_0000_0000 else timestamp;
    var data := BigEndian(raw, TIMESTAMP_BYTES);
    Pow256Of8();
    ReadBackUnsigned(raw, TIMESTAMP_BYTES);
    assert (data + rest)[..TIMESTAMP_BYTES] == data;
  }
}
