/**
 Integer PCM to canonical float samples, written three times: in Python, in C++ and in Go.

 A decoder turns little-endian bytes into signed integers; a canonical sample is the integer
 over its full scale, rounded to binary32. Bytes that are or-ed together never overlap, so the
 or is written as a sum; a language's integer width is written as the wrap it causes. The section
 on bits says why a sum will do.
 */
module Pcm {
  import opened Wire

  /** Full scale of a sample of `width` bytes: half the range of its unsigned value. */
  function FullScale(width: nat): (r: int)
    requires width == 2 || width == 3 || width == 4
    ensures r > 0
  {
    if width == 2 then 0x8000 else if width == 3 then 0x80_0000 else 0x8000_0000
  }

  predicate Width(width: nat) {
    width == 2 || width == 3 || width == 4
  }

  /** The little-endian unsigned value of some bytes. */
  function Unsigned(data: seq<byte>): nat {
    if data == [] then 0 else data[0] as int + 256 * Unsigned(data[1..])
  }

  /** The two's complement value of a whole sample. */
  function Signed(data: seq<byte>): int
    requires Width(|data|)
  {
    if Unsigned(data) < FullScale(|data|) then Unsigned(data) else Unsigned(data) - 2 * FullScale(|data|)
  }

  lemma UnsignedBytes(data: seq<byte>)
    requires Width(|data|)
    ensures |data| == 2 ==> Unsigned(data) == data[0] as int + data[1] as int * 0x100
    ensures |data| == 3 ==> Unsigned(data) == data[0] as int + data[1] as int * 0x100 + data[2] as int * 0x1_0000
    ensures |data| == 4 ==>
              Unsigned(data) == data[0] as int + data[1] as int * 0x100 + data[2] as int * 0x1_0000 +
                                data[3] as int * 0x100_0000
  {
    assert data[1..][1..] == data[2..];
    assert Unsigned(data) == data[0] as int + 256 * (data[1] as int + 256 * Unsigned(data[2..]));
    if |data| == 2 {
      assert data[2..] == [];
    } else {
      assert data[2..][1..] == data[3..];
      if |data| == 3 { assert data[3..] == []; } else {
        assert data[3..][1..] == data[4..] && data[4..] == [];
      }
    }
  }

  // ---- Bits ----

  /** Bytes shifted apart do not overlap, so or-ing them adds them up. */
  lemma OrIsSum16(a: bv16, b: bv16)
    requires a < 0x100 && b < 0x100
    ensures a | (b << 8) == a + b * 0x100
  {
  }

  lemma OrIsSum24(a: bv32, b: bv32, c: bv32)
    requires a < 0x100 && b < 0x100 && c < 0x100
    ensures a | (b << 8) | (c << 16) == a + b * 0x100 + c * 0x1_0000
  {
  }

  lemma OrIsSum32(a: bv32, b: bv32, c: bv32, d: bv32)
    requires a < 0x100 && b < 0x100 && c < 0x100 && d < 0x100
    ensures a | (b << 8) | (c << 16) | (d << 24) == a + b * 0x100 + c * 0x1_0000 + d * 0x100_0000
  {
  }

  /** The sign bit is read by a division, and or-ing the bits above it in subtracts full range. */
  lemma SignExtends24(v: bv32)
    requires v < 0x100_0000
    ensures v & 0x80_0000 != 0 <==> v / 0x80_0000 % 2 == 1
    ensures v & 0x80_0000 != 0 ==> v | 0xFF00_0000 == v - 0x100_0000
  {
  }

  // ---- Python ----

  /** `struct.unpack` for 16 and 32 bits; or-ed bytes and a sign or-ed above them for 24. */
  function PythonSample(data: seq<byte>): int
    requires Width(|data|)
  {
    if |data| == 3 then
      var value := data[0] as int + data[1] as int * 0x100 + data[2] as int * 0x1_0000;
      if value / 0x80_0000 % 2 == 1 then value - 0x100_0000 else value
    else Signed(data)
  }

  // ---- Go ----

  function WrapInt16(x: int): int {
    (x + 0x8000) % 0x1_0000 - 0x8000
  }

  function WrapInt32(x: int): int {
    (x + 0x8000_0000) % 0x1_0000_0000 - 0x8000_0000
  }

  function GoSample(data: seq<byte>): int
    requires Width(|data|)
  {
    if |data| == 2 then WrapInt16(data[0] as int + WrapInt16(data[1] as int * 0x100))
    else if |data| == 3 then
      var value := WrapInt32(data[0] as int + data[1] as int * 0x100 + data[2] as int * 0x1_0000);
      if value / 0x80_0000 % 2 == 1 then WrapInt32(value - 0x100_0000) else value
    else
      WrapInt32(data[0] as int + data[1] as int * 0x100 + data[2] as int * 0x1_0000 +
                WrapInt32(data[3] as int * 0x100_0000))
  }

  // ---- C++ ----

  /** The first bytes of a sample, weighed. */
  function PrefixValue(data: seq<byte>, n: nat): int
    requires n <= |data| <= 4
  {
    (if n > 0 then data[0] as int else 0) + (if n > 1 then data[1] as int * 0x100 else 0) +
    (if n > 2 then data[2] as int * 0x1_0000 else 0) + (if n > 3 then data[3] as int * 0x100_0000 else 0)
  }

  function Shift(i: nat): int
    requires i < 4
  {
    if i == 0 then 1 else if i == 1 then 0x100 else if i == 2 then 0x1_0000 else 0x100_0000
  }

  /** The bytes shifted into a 32-bit register, then the sign bit taken back out. */
  method CppSample(data: seq<byte>) returns (value: int)
    requires Width(|data|)
    ensures value == Signed(data)
  {
    var bits := 0;
    for i := 0 to |data|
      invariant bits == PrefixValue(data, i)
    {
      bits := (bits + data[i] as int * Shift(i)) % 0x1_0000_0000;
    }
    UnsignedBytes(data);
    assert bits == Unsigned(data);
    value := bits;
    var sign := FullScale(|data|);
    SignBit(data);
    if value / sign % 2 == 1 {
      value := value - 2 * sign;
    }
  }

  lemma SignBit(data: seq<byte>)
    requires Width(|data|)
    ensures Unsigned(data) < 2 * FullScale(|data|)
    ensures Unsigned(data) / FullScale(|data|) % 2 == 1 <==> Unsigned(data) >= FullScale(|data|)
  {
    UnsignedBytes(data);
  }

  /** The three decoders read the same signed value from every sample. */
  lemma DecodersAgree(data: seq<byte>)
    requires Width(|data|)
    ensures PythonSample(data) == Signed(data)
    ensures GoSample(data) == Signed(data)
  {
    UnsignedBytes(data);
    SignBit(data);
    hide Unsigned;
    if |data| == 2 {
      GoAgrees16(data);
    } else if |data| == 4 {
      GoAgrees32(data);
    }
  }

  lemma GoAgrees16(data: seq<byte>)
    requires |data| == 2
    ensures GoSample(data) == Signed(data)
  {
    UnsignedBytes(data);
    hide Unsigned;
    if data[1] < 128 {
      assert WrapInt16(data[1] as int * 0x100) == data[1] as int * 0x100;
    } else {
      assert WrapInt16(data[1] as int * 0x100) == data[1] as int * 0x100 - 0x1_0000;
    }
  }

  lemma GoAgrees32(data: seq<byte>)
    requires |data| == 4
    ensures GoSample(data) == Signed(data)
  {
    UnsignedBytes(data);
    hide Unsigned;
    if data[3] < 128 {
      assert WrapInt32(data[3] as int * 0x100_0000) == data[3] as int * 0x100_0000;
    } else {
      assert WrapInt32(data[3] as int * 0x100_0000) == data[3] as int * 0x100_0000 - 0x1_0000_0000;
    }
  }

  // ---- binary32 ----

  /** The nearest integer, an even one when two are equally near. */
  function NearestEven(x: real): (r: int)
    ensures -0.5 <= r as real - x <= 0.5
    ensures x - x.Floor as real == 0.5 ==> r % 2 == 0
  {
    var down := x.Floor;
    if x - down as real < 0.5 || (x - down as real == 0.5 && down % 2 == 0) then down else down + 1
  }

  function Magnitude(x: real): real {
    if x < 0.0 then -x else x
  }

  /** The doublings that bring a value to 24 bits, or more than enough halvings. */
  ghost function Distance(x: real): nat {
    if Magnitude(x) >= 16777216.0 then Magnitude(x).Floor
    else if x == 0.0 then 0 else (16777216.0 / Magnitude(x)).Floor
  }

  lemma Doubling(x: real)
    requires x != 0.0 && Magnitude(x) < 8388608.0
    ensures Distance(x * 2.0) < Distance(x)
  {
    var m := Magnitude(x);
    var q := 16777216.0 / m;
    assert q * m == 16777216.0;
    assert q > 2.0 by {
      if q <= 2.0 { Scaled(q, 2.0, m); }
    }
    assert q / 2.0 * (m * 2.0) == q * m;
    assert 16777216.0 / (m * 2.0) == q / 2.0;
    assert Magnitude(x * 2.0) == m * 2.0;
  }

  lemma Scaled(a: real, b: real, m: real)
    requires a <= b && m >= 0.0
    ensures a * m <= b * m
  {
  }

  /**
   Rounding to binary32 (IEEE 754-2019, section 3.4): to the nearest value of 24 significant
   bits, ties to even. A canonical sample is zero or lies between 2^-31 and 2^31, far inside the
   normal range, so the exponent is not bounded here.
   */
  function Binary32(x: real): real
    decreases Distance(x)
  {
    if x == 0.0 then 0.0
    else if Magnitude(x) >= 16777216.0 then Binary32(x / 2.0) * 2.0
    else if Magnitude(x) < 8388608.0 then Doubling(x); Binary32(x * 2.0) / 2.0
    else NearestEven(x) as real
  }

  /** Two to the power `k`. */
  function Power(k: nat): (r: int)
    ensures r > 0
  {
    if k == 0 then 1 else 2 * Power(k - 1)
  }

  /** `n` is a multiple of 2^k: which one is given. */
  predicate MultipleOf(n: int, k: nat, m: int) {
    n == m * Power(k)
  }

  /** `r` is the multiple of 2^k nearest to `n`, and an even multiple when two are equally near. */
  ghost predicate NearestMultiple(n: int, k: nat, r: int) {
    exists m: int ::
      && MultipleOf(r, k, m)
      && -Power(k) <= 2 * (n - r) <= Power(k)
      && (2 * (n - r) == Power(k) || 2 * (r - n) == Power(k) ==> m % 2 == 0)
  }

  /** A value whose magnitude takes `24 + k` bits. */
  predicate HasBits(x: real, k: nat) {
    8388608.0 * Power(k) as real <= Magnitude(x) < 16777216.0 * Power(k) as real
  }

  /** The nearest multiple of 2^k. */
  function Rounded(x: real, k: nat): real {
    NearestEven(x / Power(k) as real) as real * Power(k) as real
  }

  /** A value of `24 + k` bits is halved `k` times, rounded, and doubled again as often. */
  lemma {:induction false} HalvedRounded(x: real, k: nat)
    requires HasBits(x, k)
    ensures Binary32(x) == Rounded(x, k)
    decreases k
  {
    hide Binary32, Rounded, HasBits;
    if k == 0 {
      NotHalved(x);
    } else {
      HalvedBits(x, k);
      HalvedRounded(x / 2.0, k - 1);
      RoundedHalves(x, k);
    }
  }

  lemma NotHalved(x: real)
    requires HasBits(x, 0)
    ensures Binary32(x) == Rounded(x, 0)
  {
    assert Power(0) as real == 1.0;
    assert x / Power(0) as real == x;
    hide NearestEven, Power;
    assert Binary32(x) == NearestEven(x) as real;
  }

  lemma HalvedBits(x: real, k: nat)
    requires k > 0 && HasBits(x, k)
    ensures HasBits(x / 2.0, k - 1) && Binary32(x) == Binary32(x / 2.0) * 2.0
  {
    var p := Power(k - 1) as real;
    assert Power(k) as real == 2.0 * p && p >= 1.0;
    hide NearestEven, Power;
  }

  lemma RoundedHalves(x: real, k: nat)
    requires k > 0
    ensures Rounded(x / 2.0, k - 1) * 2.0 == Rounded(x, k)
  {
    var p := Power(k - 1) as real;
    assert Power(k) as real == 2.0 * p;
    hide NearestEven, Power;
    Quotients(x, p);
    Regrouped(NearestEven(x / 2.0 / p) as real, p);
  }

  lemma Regrouped(r: real, p: real)
    ensures r * p * 2.0 == r * (2.0 * p)
  {
  }

  lemma Quotients(x: real, p: real)
    requires p > 0.0
    ensures x / 2.0 / p == x / (2.0 * p)
  {
    var q := x / 2.0 / p;
    assert q * p == x / 2.0;
    assert q * (2.0 * p) == x;
  }

  /** A product, to be reasoned about by the lemmas on it alone. */
  function Times(a: real, b: real): real {
    a * b
  }

  /** The tie of a quotient by a power of two is the tie of the integer between two multiples. */
  lemma TiesAlike(n: int, d: int, m: int)
    requires d > 0 && m == NearestEven(n as real / d as real)
    ensures -d <= 2 * (n - m * d) <= d
    ensures 2 * (n - m * d) == d || 2 * (m * d - n) == d ==> m % 2 == 0
  {
    hide Times;
    var q := n as real / d as real;
    var apart, gap := m as real - q, m * d - n;
    GapIs(n, d, m, apart);
    Apart(apart, d);
    Doubled(gap, d, Times(apart, d as real));
    if 2 * gap == d || -2 * gap == d {
      HalfWay(apart, gap, d);
    }
  }

  lemma GapIs(n: int, d: int, m: int, apart: real)
    requires d > 0 && apart == m as real - n as real / d as real
    ensures Times(apart, d as real) == (m * d - n) as real
  {
    var q := n as real / d as real;
    assert q * d as real == n as real;
    assert (m as real - q) * d as real == m as real * d as real - q * d as real;
    Multiplied(m, d);
  }

  lemma Apart(apart: real, d: int)
    requires d > 0 && -0.5 <= apart <= 0.5
    ensures -0.5 * d as real <= Times(apart, d as real) <= 0.5 * d as real
  {
    Scaled(-0.5, apart, d as real);
    Scaled(apart, 0.5, d as real);
  }

  lemma Doubled(gap: int, d: int, product: real)
    requires product == gap as real && -0.5 * d as real <= product <= 0.5 * d as real
    ensures -d <= 2 * gap <= d
  {
    assert (-d) as real <= (2 * gap) as real <= d as real;
  }

  lemma HalfWay(apart: real, gap: int, d: int)
    requires d > 0 && Times(apart, d as real) == gap as real && (2 * gap == d || -2 * gap == d)
    ensures apart == 0.5 || apart == -0.5
  {
    assert gap as real == 0.5 * d as real || gap as real == -0.5 * d as real;
    Cancelled(apart, 0.5, d as real);
    Cancelled(apart, -0.5, d as real);
  }

  lemma Cancelled(a: real, b: real, d: real)
    requires d > 0.0
    ensures a * d == b * d ==> a == b
  {
    if a < b {
      assert (b - a) * d > 0.0;
    } else if b < a {
      assert (a - b) * d > 0.0;
    }
  }

  /**
   An integer of more than 24 bits, and every 32-bit sample is of 32 at most, rounds to the nearest
   multiple of the power of two its last bits leave, and to the even multiple on a tie.
   */
  lemma IntegerRounded(n: int, k: nat)
    requires Power(23 + k) <= (if n < 0 then -n else n) < Power(24 + k)
    ensures exists r: int :: Binary32(n as real) == r as real && NearestMultiple(n, k, r)
  {
    TwentyThree(k);
    hide Power, NearestEven, Binary32;
    var d := Power(k);
    var m := NearestEven(n as real / d as real);
    assert Magnitude(n as real) == (if n < 0 then -n else n) as real;
    HalvedRounded(n as real, k);
    TiesAlike(n, d, m);
    Multiplied(m, d);
    assert Binary32(n as real) == (m * d) as real;
    IsNearest(n, k, m);
  }

  lemma Multiplied(m: int, d: int)
    ensures m as real * d as real == (m * d) as real
  {
  }

  lemma IsNearest(n: int, k: nat, m: int)
    requires -Power(k) <= 2 * (n - m * Power(k)) <= Power(k)
    requires 2 * (n - m * Power(k)) == Power(k) || 2 * (m * Power(k) - n) == Power(k) ==> m % 2 == 0
    ensures NearestMultiple(n, k, m * Power(k))
  {
    assert MultipleOf(m * Power(k), k, m);
  }

  lemma TwentyThree(k: nat)
    ensures Power(23 + k) == 8388608 * Power(k) && Power(24 + k) == 16777216 * Power(k)
  {
    PowerSum(23, k);
    PowerSum(24, k);
    assert Power(8) == 256;
    PowerSum(8, 8);
    PowerSum(16, 7);
    PowerSum(16, 8);
    assert Power(7) == 128;
  }

  lemma {:induction false} PowerSum(a: nat, b: nat)
    ensures Power(a + b) == Power(a) * Power(b)
  {
    if a > 0 {
      PowerSum(a - 1, b);
      assert Power(a + b) == 2 * Power(a + b - 1) && a - 1 + b == a + b - 1;
      assert 2 * (Power(a - 1) * Power(b)) == Power(a) * Power(b);
    }
  }

  /** The first integers that lie half way between two values: each goes to the even one. */
  lemma TieSamples()
    ensures Binary32(16777217.0) == 16777216.0 && Binary32(16777219.0) == 16777220.0
    ensures Binary32(-16777217.0) == -16777216.0
  {
    assert NearestEven(8388608.5) == 8388608 && NearestEven(8388609.5) == 8388610;
    assert NearestEven(-8388608.5) == -8388608;
    assert Binary32(8388608.5) == 8388608.0 && Binary32(8388609.5) == 8388610.0 && Binary32(-8388608.5) == -8388608.0;
  }

  /** Rounding commutes with halving. */
  lemma RoundHalves(x: real)
    ensures Binary32(x / 2.0) == Binary32(x) / 2.0
  {
    if x != 0.0 && Magnitude(x) < 16777216.0 {
      assert Binary32(x / 2.0) == Binary32(x / 2.0 * 2.0) / 2.0;
    }
  }

  lemma RoundScales256(x: real)
    ensures Binary32(x / 128.0) == Binary32(x) / 128.0
    ensures Binary32(x / 256.0) == Binary32(x) / 256.0
  {
    hide Binary32;
    RoundHalves(x);
    RoundHalves(x / 2.0);
    RoundHalves(x / 4.0);
    RoundHalves(x / 8.0);
    RoundHalves(x / 16.0);
    RoundHalves(x / 32.0);
    RoundHalves(x / 64.0);
    RoundHalves(x / 128.0);
  }

  /** So rounding before or after a division by full scale is the same. */
  lemma RoundScales(x: real, width: nat)
    requires Width(width)
    ensures Binary32(x / FullScale(width) as real) == Binary32(x) / FullScale(width) as real
  {
    hide Binary32;
    RoundScales256(x);
    RoundScales256(x / 128.0);
    RoundScales256(x / 32768.0);
    RoundScales256(x / 8388608.0);
    assert Binary32(x / 32768.0) == Binary32(x) / 32768.0;
    assert Binary32(x / 8388608.0) == Binary32(x) / 8388608.0;
    assert Binary32(x / 2147483648.0) == Binary32(x) / 2147483648.0;
    if width == 2 {
      assert x / FullScale(width) as real == x / 32768.0;
    } else if width == 3 {
      assert x / FullScale(width) as real == x / 8388608.0;
    } else {
      assert x / FullScale(width) as real == x / 2147483648.0;
    }
  }

  /** An integer of at most 24 bits is exact. */
  lemma {:induction false} SmallIsExact(n: int)
    requires -0x100_0000 < n < 0x100_0000
    ensures Binary32(n as real) == n as real
    decreases 0x100_0000 - (if n < 0 then -n else n)
  {
    if n != 0 && -0x80_0000 < n < 0x80_0000 {
      SmallIsExact(2 * n);
      assert (2 * n) as real == n as real * 2.0;
    }
  }

  // ---- Buffers ----

  /** A sample over its full scale. */
  function Value(data: seq<byte>): real
    requires Width(|data|)
  {
    Signed(data) as real / FullScale(|data|) as real
  }

  /** The canonical samples of a buffer; bytes short of a whole one are left. */
  function Canonical(pcm: seq<byte>, width: nat): (r: seq<real>)
    requires Width(width)
    decreases |pcm|
  {
    if |pcm| < width then []
    else [Binary32(Value(pcm[..width]))] + Canonical(pcm[width..], width)
  }

  /** Sample-aligned chunks hash like the whole. */
  lemma {:induction false} ChunksLikeWhole(a: seq<byte>, b: seq<byte>, width: nat)
    requires Width(width) && |a| % width == 0
    ensures Canonical(a + b, width) == Canonical(a, width) + Canonical(b, width)
    decreases |a|
  {
    hide Value, Binary32;
    if a == [] {
      assert a + b == b;
    } else {
      WholeSamples(|a|, width);
      assert (a + b)[..width] == a[..width] && (a + b)[width..] == a[width..] + b;
      ChunksLikeWhole(a[width..], b, width);
    }
  }

  lemma WholeSamples(length: nat, width: nat)
    requires Width(width) && length > 0 && length % width == 0
    ensures length >= width && (length - width) % width == 0
  {
    if width == 2 { assert (length - 2) % 2 == 0; }
    else if width == 3 { assert (length - 3) % 3 == 0; }
    else { assert (length - 4) % 4 == 0; }
  }

  /** The depths the copies convert. */
  predicate Depth(bitDepth: int) {
    bitDepth == 16 || bitDepth == 24 || bitDepth == 32
  }

  /** Sample `i` of a buffer, in order, is that of its own bytes. */
  lemma {:induction false} CanonicalAt(pcm: seq<byte>, width: nat, i: nat)
    requires Width(width) && (i + 1) * width <= |pcm|
    ensures i < |Canonical(pcm, width)|
    ensures Canonical(pcm, width)[i] == Binary32(Value(pcm[i * width..(i + 1) * width]))
    decreases i
  {
    hide Binary32, Value;
    if i > 0 {
      var rest := pcm[width..];
      assert (i + 1) * width == i * width + width && i * width == (i - 1) * width + width;
      CanonicalAt(rest, width, i - 1);
      assert rest[(i - 1) * width..i * width] == pcm[i * width..(i + 1) * width];
    }
  }

  /** Python and C++ reject a partial sample; Go leaves it out. */
  predicate WholeBuffer(bitDepth: int, length: nat) {
    Depth(bitDepth) && length % (bitDepth / 8) == 0
  }

  lemma WholeBufferIs(bitDepth: int, length: nat)
    ensures WholeBuffer(bitDepth, length) <==>
            || (bitDepth == 16 && length % 2 == 0)
            || (bitDepth == 24 && length % 3 == 0)
            || (bitDepth == 32 && length % 4 == 0)
  {
  }

  /**
   The Python hash helper: the samples hashed so far and their number. The digest is a function
   of the samples, so equal samples have equal digests.
   */
  class FloatPcmHasher {
    var sampleCount: nat
    var samples: seq<real>

    constructor ()
      ensures sampleCount == 0 && samples == []
    {
      sampleCount, samples := 0, [];
    }

    /** Takes a buffer in; false when it is rejected, and then nothing changes. */
    method UpdateFromPcmBytes(pcm: seq<byte>, bitDepth: int) returns (ok: bool)
      modifies this
      ensures ok == WholeBuffer(bitDepth, |pcm|)
      ensures ok ==> samples == old(samples) + Canonical(pcm, bitDepth / 8)
      ensures ok ==> sampleCount == old(sampleCount) + |Canonical(pcm, bitDepth / 8)|
      ensures !ok ==> samples == old(samples) && sampleCount == old(sampleCount)
    {
      if !Depth(bitDepth) || |pcm| % (bitDepth / 8) != 0 {
        return false;
      }
      var floats := PythonFloats(pcm, bitDepth / 8);
      samples := samples + floats;
      sampleCount := sampleCount + |floats|;
      return true;
    }
  }

  /** An integer over its full scale in binary32, as Python and C++ compute it. */
  function Scaled32(value: int, width: nat): real
    requires Width(width)
  {
    Binary32(value as real / FullScale(width) as real)
  }

  /** The same in Go, which rounds the integer before it divides. */
  function RoundedFirst(value: int, width: nat): real
    requires Width(width)
  {
    Binary32(value as real) / FullScale(width) as real
  }

  predicate WholeLength(length: int, width: nat)
    requires Width(width)
  {
    length % width == 0
  }

  lemma WholeRest(length: nat, width: nat)
    requires Width(width) && WholeLength(length, width)
    ensures WholeLength(0, width)
    ensures length > 0 ==> length >= width && WholeLength(length - width, width)
  {
    if length > 0 { WholeSamples(length, width); }
  }

  /** Every language's float of the next sample, and what follows it. */
  lemma NextSample(pcm: seq<byte>, at: nat, width: nat)
    requires Width(width) && at + width <= |pcm|
    ensures var data := pcm[at..at + width];
            && Canonical(pcm[at..], width) == [Scaled32(Signed(data), width)] + Canonical(pcm[at + width..], width)
            && Scaled32(PythonSample(data), width) == Scaled32(Signed(data), width)
            && RoundedFirst(GoSample(data), width) == Scaled32(Signed(data), width)
  {
    var data := pcm[at..at + width];
    assert pcm[at..][..width] == data && pcm[at..][width..] == pcm[at + width..];
    DecodersAgree(data);
    RoundScales(Signed(data) as real, width);
    hide Signed, PythonSample, GoSample, Binary32;
  }

  lemma NoSample(pcm: seq<byte>, at: nat, width: nat)
    requires Width(width) && at <= |pcm| < at + width
    ensures Canonical(pcm[at..], width) == []
  {
  }

  method PythonFloats(pcm: seq<byte>, width: nat) returns (floats: seq<real>)
    requires Width(width) && WholeLength(|pcm|, width)
    ensures floats == Canonical(pcm, width)
  {
    hide Signed, PythonSample, GoSample, Scaled32, RoundedFirst, Canonical, WholeLength;
    floats := [];
    assert pcm[0..] == pcm;
    var offset := 0;
    while offset < |pcm|
      invariant offset <= |pcm| && WholeLength(|pcm| - offset, width)
      invariant floats + Canonical(pcm[offset..], width) == Canonical(pcm, width)
    {
      WholeRest(|pcm| - offset, width);
      NextSample(pcm, offset, width);
      var value := PythonSample(pcm[offset..offset + width]);
      floats := floats + [Scaled32(value, width)];
      offset := offset + width;
    }
    NoSample(pcm, offset, width);
  }

  /** The C++ client's hashing of a buffer: the samples hashed, or none when it is rejected. */
  method HashCanonicalPcm(pcm: seq<byte>, bitDepth: int) returns (hashed: Option<seq<real>>)
    ensures hashed == CppHashed(pcm, bitDepth)
  {
    if !Depth(bitDepth) || |pcm| % (bitDepth / 8) != 0 {
      return None;
    }
    var floats := CppFloats(pcm, bitDepth / 8);
    return Some(floats);
  }

  function CppHashed(pcm: seq<byte>, bitDepth: int): (r: Option<seq<real>>)
    ensures r.Some? <==> WholeBuffer(bitDepth, |pcm|)
  {
    if WholeBuffer(bitDepth, |pcm|) then Some(Canonical(pcm, bitDepth / 8)) else None
  }

  method CppFloats(pcm: seq<byte>, width: nat) returns (floats: seq<real>)
    requires Width(width) && WholeLength(|pcm|, width)
    ensures floats == Canonical(pcm, width)
  {
    hide Signed, PythonSample, GoSample, Scaled32, RoundedFirst, Canonical, WholeLength;
    floats := [];
    assert pcm[0..] == pcm;
    var at := 0;
    while at < |pcm|
      invariant at <= |pcm| && WholeLength(|pcm| - at, width)
      invariant floats + Canonical(pcm[at..], width) == Canonical(pcm, width)
    {
      WholeRest(|pcm| - at, width);
      NextSample(pcm, at, width);
      var value := CppSample(pcm[at..at + width]);
      floats := floats + [Scaled32(value, width)];
      at := at + width;
    }
    NoSample(pcm, at, width);
  }

  function GoHashed(pcm: seq<byte>, bitDepth: int): Option<seq<real>> {
    if Depth(bitDepth) then Some(Canonical(pcm, bitDepth / 8)) else None
  }

  /** The copies agree on a buffer exactly when it is whole samples, or of a depth none converts. */
  lemma CopiesAgree(pcm: seq<byte>, bitDepth: int)
    ensures GoHashed(pcm, bitDepth) == CppHashed(pcm, bitDepth) <==>
            !Depth(bitDepth) || |pcm| % (bitDepth / 8) == 0
  {
    hide Canonical;
  }

  /** The Go helper leaves a partial sample out. */
  method GoFloats(pcm: seq<byte>, bitDepth: int) returns (floats: Option<seq<real>>)
    ensures floats == GoHashed(pcm, bitDepth)
  {
    if !Depth(bitDepth) {
      return None;
    }
    var written := GoSamples(pcm, bitDepth / 8);
    return Some(written);
  }

  method GoSamples(pcm: seq<byte>, width: nat) returns (written: seq<real>)
    requires Width(width)
    ensures written == Canonical(pcm, width)
  {
    hide Signed, PythonSample, GoSample, Scaled32, RoundedFirst, Canonical;
    written := [];
    assert pcm[0..] == pcm;
    var offset := 0;
    while offset + width - 1 < |pcm|
      invariant offset <= |pcm|
      invariant written + Canonical(pcm[offset..], width) == Canonical(pcm, width)
    {
      NextSample(pcm, offset, width);
      var value := GoSample(pcm[offset..offset + width]);
      written := written + [RoundedFirst(value, width)];
      offset := offset + width;
    }
    NoSample(pcm, offset, width);
  }

  // ---- Blocks ----

  predicate Aligned(parts: seq<seq<byte>>, width: nat)
    requires width > 0
  {
    forall i :: 0 <= i < |parts| ==> |parts[i]| % width == 0
  }

  /** The samples of buffers taken in one after another. */
  function CanonicalOf(parts: seq<seq<byte>>, width: nat): seq<real>
    requires Width(width)
  {
    if parts == [] then []
    else CanonicalOf(parts[..|parts| - 1], width) + Canonical(parts[|parts| - 1], width)
  }

  /** Any sample-aligned chunking of a buffer hashes like the buffer. */
  lemma {:induction false} ChunkingIsInvisible(parts: seq<seq<byte>>, width: nat)
    requires Width(width) && Aligned(parts, width)
    ensures CanonicalOf(parts, width) == Canonical(Concat(parts), width)
    ensures |Concat(parts)| % width == 0
  {
    hide Canonical;
    if parts == [] {
      EmptyBuffer(width);
    } else {
      var before, last := parts[..|parts| - 1], parts[|parts| - 1];
      ChunkingIsInvisible(before, width);
      ChunksLikeWhole(Concat(before), last, width);
      SumAligned(|Concat(before)|, |last|, width);
    }
  }

  lemma EmptyBuffer(width: nat)
    requires Width(width)
    ensures Canonical([], width) == []
  {
  }

  lemma SumAligned(a: nat, b: nat, width: nat)
    requires Width(width) && a % width == 0 && b % width == 0
    ensures (a + b) % width == 0
  {
    if width == 2 { assert (a + b) % 2 == 0; }
    else if width == 3 { assert (a + b) % 3 == 0; }
    else { assert (a + b) % 4 == 0; }
  }

  /** The blocks a server feeds its encoder: nothing lost, and only the last one may be short. */
  method IterPcmBlocks(pcm: seq<byte>, bytesPerBlock: nat) returns (blocks: seq<seq<byte>>)
    requires bytesPerBlock > 0
    ensures Concat(blocks) == pcm
    ensures forall i :: 0 <= i < |blocks| - 1 ==> |blocks[i]| == bytesPerBlock
    ensures forall i :: 0 <= i < |blocks| ==> 0 < |blocks[i]| <= bytesPerBlock
  {
    blocks := [];
    var offset := 0;
    while offset < |pcm|
      invariant Concat(blocks) == pcm[..if offset < |pcm| then offset else |pcm|]
      invariant offset < |pcm| ==> forall i :: 0 <= i < |blocks| ==> |blocks[i]| == bytesPerBlock
      invariant forall i :: 0 <= i < |blocks| - 1 ==> |blocks[i]| == bytesPerBlock
      invariant forall i :: 0 <= i < |blocks| ==> 0 < |blocks[i]| <= bytesPerBlock
    {
      var end := if offset + bytesPerBlock <= |pcm| then offset + bytesPerBlock else |pcm|;
      assert blocks + [pcm[offset..end]] != [] &&
             (blocks + [pcm[offset..end]])[..|blocks|] == blocks;
      blocks := blocks + [pcm[offset..end]];
      offset := offset + bytesPerBlock;
    }
  }

  /** A buffer of whole frames is cut on frame boundaries, so its blocks hash like the whole. */
  lemma BlocksHashAlike(pcm: seq<byte>, blocks: seq<seq<byte>>, bytesPerBlock: nat, width: nat)
    requires Width(width) && bytesPerBlock > 0 && bytesPerBlock % width == 0 && |pcm| % width == 0
    requires Concat(blocks) == pcm
    requires forall i :: 0 <= i < |blocks| - 1 ==> |blocks[i]| == bytesPerBlock
    ensures CanonicalOf(blocks, width) == Canonical(pcm, width)
  {
    hide Canonical;
    if blocks != [] {
      var before, last := blocks[..|blocks| - 1], blocks[|blocks| - 1];
      ChunkingIsInvisible(before, width);
      assert |pcm| == |Concat(before)| + |last|;
      RestAligned(|Concat(before)|, |last|, width);
    }
    ChunkingIsInvisible(blocks, width);
  }

  lemma RestAligned(a: nat, b: nat, width: nat)
    requires Width(width) && a % width == 0 && (a + b) % width == 0
    ensures b % width == 0
  {
    if width == 2 { assert b % 2 == 0; } else if width == 3 { assert b % 3 == 0; } else { assert b % 4 == 0; }
  }

  // ---- Widening ----

  /**
   16-bit samples re-packed as 32-bit ones. Of a partial sample the low byte has no place to go,
   and the strided assignment is rejected.
   */
  method ExpandPcm16To32(pcm: seq<byte>) returns (expanded: Option<seq<byte>>)
    ensures expanded.Some? <==> |pcm| % 2 == 0
    ensures expanded.Some? ==> Expands(pcm, expanded.value)
  {
    if |pcm| % 2 != 0 {
      return None;
    }
    var count := |pcm| / 2;
    var out := new byte[4 * count](_ => 0);
    PutStrided(out, 2, pcm, 0);
    PutStrided(out, 3, pcm, 1);
    return Some(out[..]);
  }

  /** Python's `out[at::4] = pcm[from::2]`. */
  method PutStrided(out: array<byte>, at: nat, pcm: seq<byte>, from: nat)
    requires at < 4 && from < 2 && out.Length == 2 * |pcm| && |pcm| % 2 == 0
    modifies out
    ensures forall i :: 0 <= i < |pcm| / 2 ==> out[4 * i + at] == pcm[2 * i + from]
    ensures forall h :: 0 <= h < out.Length && h % 4 != at ==> out[h] == old(out[h])
  {
    for i := 0 to |pcm| / 2
      invariant forall k :: 0 <= k < i ==> out[4 * k + at] == pcm[2 * k + from]
      invariant forall h :: 0 <= h < out.Length && h % 4 != at ==> out[h] == old(out[h])
    {
      out[4 * i + at] := pcm[2 * i + from];
    }
  }

  /** Widening keeps a sample's value over full scale, so its canonical float is the same. */
  lemma WideningKeepsValue(low: byte, high: byte)
    ensures Value([0, 0, low, high]) == Value([low, high])
  {
    UnsignedBytes([0, 0, low, high]);
    UnsignedBytes([low, high]);
    hide Unsigned;
    assert Signed([0, 0, low, high]) == Signed([low, high]) * 0x1_0000;
    assert 0x8000_0000 as real == 0x8000 as real * 0x1_0000 as real;
  }

  /** A whole expanded buffer hashes like the original. */
  lemma {:induction false} ExpandedHashesAlike(pcm: seq<byte>, expanded: seq<byte>)
    requires |pcm| % 2 == 0 && Expands(pcm, expanded)
    ensures Canonical(expanded, 4) == Canonical(pcm, 2)
    decreases |pcm|
  {
    hide Binary32, Value;
    if pcm != [] {
      assert ExpandsAt(pcm, expanded, 0);
      assert expanded[..4] == [0, 0, pcm[0], pcm[1]] && pcm[..2] == [pcm[0], pcm[1]];
      WideningKeepsValue(pcm[0], pcm[1]);
      ExpandsRest(pcm, expanded);
      ExpandedHashesAlike(pcm[2..], expanded[4..]);
    }
  }

  predicate ExpandsAt(pcm: seq<byte>, expanded: seq<byte>, i: nat)
    requires |expanded| == 2 * |pcm| && 2 * i + 1 < |pcm|
  {
    && expanded[4 * i] == 0 && expanded[4 * i + 1] == 0
    && expanded[4 * i + 2] == pcm[2 * i] && expanded[4 * i + 3] == pcm[2 * i + 1]
  }

  /** Each 16-bit sample became the high half of a 32-bit one. */
  predicate Expands(pcm: seq<byte>, expanded: seq<byte>) {
    && |expanded| == 2 * |pcm|
    && forall i :: 0 <= i < |pcm| / 2 ==> ExpandsAt(pcm, expanded, i)
  }

  lemma ExpandsRest(pcm: seq<byte>, expanded: seq<byte>)
    requires |pcm| >= 2 && Expands(pcm, expanded)
    ensures Expands(pcm[2..], expanded[4..])
  {
    forall i | 0 <= i < |pcm[2..]| / 2 ensures ExpandsAt(pcm[2..], expanded[4..], i) {
      var j := i + 1;
      assert ExpandsAt(pcm, expanded, j);
    }
  }

  /** The least 32-bit sample that is not exact: its canonical sample is the even neighbour's. */
  lemma LeastInexactSample()
    ensures Canonical([1, 0, 0, 1], 4) == [16777216.0 / 2147483648.0]
  {
    var data: seq<byte> := [1, 0, 0, 1];
    UnsignedBytes(data);
    assert Signed(data) == 16777217 && FullScale(4) as real == 2147483648.0;
    TieSamples();
    RoundScales(16777217.0, 4);
    assert data[..4] == data && data[4..] == [];
    hide Binary32, Unsigned, Signed;
    assert Value(data) == 16777217.0 / 2147483648.0;
    OneSample(data, 4);
  }

  lemma OneSample(data: seq<byte>, width: nat)
    requires Width(width) && |data| == width
    ensures Canonical(data, width) == [Binary32(Value(data))]
  {
    assert data[..width] == data && data[width..] == [];
    assert Canonical([], width) == [];
    hide Binary32, Value;
  }

  /** Every 16- and 24-bit sample, and every widened one, is exact in binary32. */
  lemma SamplesAreExact(data: seq<byte>)
    requires |data| == 2 || |data| == 3
    ensures Binary32(Value(data)) == Value(data)
    ensures |data| == 2 ==> Binary32(Value([0, 0, data[0], data[1]])) == Value([0, 0, data[0], data[1]])
  {
    SignBit(data);
    SmallIsExact(Signed(data));
    RoundScales(Signed(data) as real, |data|);
    hide Signed, Binary32;
    if |data| == 2 {
      WideningKeepsValue(data[0], data[1]);
      assert data == [data[0], data[1]];
    }
  }
}
