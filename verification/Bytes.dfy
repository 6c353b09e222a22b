/** Machine words as the programs hold them: bytes and 16- and 32-bit words are
    bit vectors, timestamps are integers below 2^64. */
module Bytes {

  type byte = bv8

  const TWO64: int := 0x1_0000_0000_0000_0000

  type u64 = x: int | 0 <= x < 0x1_0000_0000_0000_0000

  datatype Option<+T> = None | Some(value: T)

  /** Big-endian 16-bit load and store. */
  function Be16(hi: byte, lo: byte): bv16 {
    ((hi as bv16) << 8) | (lo as bv16)
  }

  function PutBe16(w: bv16): seq<byte> {
    [((w >> 8) & 0xff) as bv8, (w & 0xff) as bv8]
  }

  /** `htons` and `ntohs` on a little-endian host. */
  function Swap16(w: bv16): bv16 {
    (w << 8) | (w >> 8)
  }

  /** Little-endian 16- and 32-bit load and store. */
  function Le16(lo: byte, hi: byte): bv16 {
    ((hi as bv16) << 8) | (lo as bv16)
  }

  function PutLe16(w: bv16): seq<byte> {
    [(w & 0xff) as bv8, ((w >> 8) & 0xff) as bv8]
  }

  function Le32(b0: byte, b1: byte, b2: byte, b3: byte): bv32 {
    (b0 as bv32) | ((b1 as bv32) << 8) | ((b2 as bv32) << 16) | ((b3 as bv32) << 24)
  }

  function PutLe32(w: bv32): seq<byte> {
    [(w & 0xff) as bv8, ((w >> 8) & 0xff) as bv8, ((w >> 16) & 0xff) as bv8, ((w >> 24) & 0xff) as bv8]
  }

  function ByteOf(t: nat): byte
    requires t < 256
  {
    t as byte
  }

  /** Little-endian integers of any width, least significant byte first. */
  function LeEncode(t: nat, n: nat): (b: seq<byte>)
    ensures |b| == n
  {
    if n == 0 then [] else [ByteOf(t % 256)] + LeEncode(t / 256, n - 1)
  }

  function LeDecode(b: seq<byte>): nat {
    if |b| == 0 then 0 else b[0] as int + 256 * LeDecode(b[1..])
  }

  function Pow256(n: nat): nat {
    if n == 0 then 1 else 256 * Pow256(n - 1)
  }

  lemma NextByte(b: byte)
    requires b as int < 255
    ensures (b + 1) as int == b as int + 1
  {
  }

  lemma {:induction false} ByteWithValue(t: nat) returns (b: byte)
    requires t < 256
    ensures b as int == t
  {
    if t == 0 {
      b := 0;
    } else {
      var c := ByteWithValue(t - 1);
      NextByte(c);
      b := c + 1;
    }
  }

  lemma ByteOfIsExact(t: nat)
    requires t < 256
    ensures ByteOf(t) as int == t
  {
    var b := ByteWithValue(t);
    assert ByteOf(b as int) == b;
  }

  lemma {:induction false} LeDecodeEncode(t: nat, n: nat)
    requires t < Pow256(n)
    ensures LeDecode(LeEncode(t, n)) == t
    decreases n
  {
    if n > 0 {
      LeDecodeEncode(t / 256, n - 1);
      ByteOfIsExact(t % 256);
      assert LeEncode(t, n)[1..] == LeEncode(t / 256, n - 1);
    }
  }

  lemma LeEncodeStep(low: nat, rest: nat, n: nat)
    requires low < 256
    ensures LeEncode(low + 256 * rest, n + 1) == [ByteOf(low)] + LeEncode(rest, n)
  {
    assert (low + 256 * rest) % 256 == low;
    assert (low + 256 * rest) / 256 == rest;
  }

  lemma ByteOfValue(b: byte)
    ensures b as int < 256 && ByteOf(b as int) == b
  {
  }

  lemma {:induction false} LeDecodeBound(b: seq<byte>)
    ensures LeDecode(b) < Pow256(|b|)
    decreases |b|
  {
    if |b| > 0 {
      LeDecodeBound(b[1..]);
      ByteOfValue(b[0]);
    }
  }

  lemma {:induction false} LeEncodeDecode(b: seq<byte>)
    ensures LeEncode(LeDecode(b), |b|) == b
    decreases |b|
  {
    if |b| > 0 {
      LeEncodeDecode(b[1..]);
      ByteOfValue(b[0]);
      var low: nat := b[0] as int;
      LeEncodeStep(low, LeDecode(b[1..]), |b| - 1);
      assert b == [b[0]] + b[1..];
    }
  }

  lemma Pow256Of8()
    ensures Pow256(8) == 0x1_0000_0000_0000_0000
  {
    assert Pow256(4) == 0x1_0000_0000;
  }

  /** The eight bytes of a 64-bit timestamp and back. */
  function PutLe64(t: u64): (b: seq<byte>)
    ensures |b| == 8
  {
    LeEncode(t, 8)
  }

  function Le64(b: seq<byte>): u64
    requires |b| == 8
  {
    LeDecodeBound(b);
    Pow256Of8();
    LeDecode(b)
  }

  lemma Le64RoundTrip(t: u64, b: seq<byte>)
    requires |b| == 8
    ensures Le64(PutLe64(t)) == t
    ensures PutLe64(Le64(b)) == b
  {
    Pow256Of8();
    LeDecodeEncode(t, 8);
    LeEncodeDecode(b);
  }

  lemma LeDecodeStep(b: seq<byte>)
    requires |b| > 0
    ensures LeDecode(b) == b[0] as int + 256 * LeDecode(b[1..])
  {
  }

  /** The value of eight bytes, least significant first. */
  lemma Le64Value(b: seq<byte>)
    requires |b| == 8
    ensures Le64(b) == b[0] as int + 0x100 * (b[1] as int) + 0x1_0000 * (b[2] as int) + 0x100_0000 * (b[3] as int)
                       + 0x1_0000_0000 * (b[4] as int) + 0x100_0000_0000 * (b[5] as int)
                       + 0x1_0000_0000_0000 * (b[6] as int) + 0x100_0000_0000_0000 * (b[7] as int)
  {
    LeDecodeStep(b);
    LeDecodeStep(b[1..]);
    LeDecodeStep(b[1..][1..]);
    LeDecodeStep(b[1..][1..][1..]);
    LeDecodeStep(b[1..][1..][1..][1..]);
    LeDecodeStep(b[1..][1..][1..][1..][1..]);
    LeDecodeStep(b[1..][1..][1..][1..][1..][1..]);
    LeDecodeStep(b[1..][1..][1..][1..][1..][1..][1..]);
  }

  /** A slice is known by its elements. */
  lemma SliceIs<T>(s: seq<T>, from: nat, part: seq<T>)
    requires from + |part| <= |s|
    requires forall i :: 0 <= i < |part| ==> s[from + i] == part[i]
    ensures s[from..from + |part|] == part
  {
  }

  lemma Be16Value(hi: byte, lo: byte)
    ensures Be16(hi, lo) == (hi as bv16) * 256 + lo as bv16
  {
  }

  lemma Be16RoundTrip(w: bv16, hi: byte, lo: byte)
    ensures Be16(PutBe16(w)[0], PutBe16(w)[1]) == w
    ensures PutBe16(Be16(hi, lo)) == [hi, lo]
  {
  }

  lemma Le16RoundTrip(lo: byte, hi: byte)
    ensures PutLe16(Le16(lo, hi)) == [lo, hi]
  {
  }

  lemma Le32RoundTrip(b0: byte, b1: byte, b2: byte, b3: byte)
    ensures PutLe32(Le32(b0, b1, b2, b3)) == [b0, b1, b2, b3]
  {
  }

  /** Wrapping 64-bit addition and subtraction. */
  function Add(a: bv64, b: bv64): bv64 {
    a + b
  }

  function Subtract(a: bv64, b: bv64): bv64 {
    a - b
  }

  lemma SubtractAdded(a: bv64, b: bv64)
    ensures Subtract(Add(a, b), b) == a
  {
    assert Subtract(a + b, b) == a;
  }

  lemma AddSubtracted(a: bv64, b: bv64)
    ensures Add(Subtract(a, b), b) == a
  {
    assert Add(a - b, b) == a;
  }

  lemma SubtractInAnyOrder(a: bv64, b: bv64, c: bv64)
    ensures Subtract(Subtract(a, b), c) == Subtract(Subtract(a, c), b)
  {
    assert Subtract(a - b, c) == a - b - c == a - c - b == Subtract(a - c, b);
  }

  lemma AddInAnyOrder(a: bv64, b: bv64, c: bv64)
    ensures Add(Add(a, b), c) == Add(Add(a, c), b)
  {
    assert Add(a + b, c) == a + b + c == Add(a + c, b);
  }

  lemma AddCommutes(a: bv64, b: bv64)
    ensures Add(a, b) == Add(b, a)
  {
  }

  lemma AddCancels(a: bv64, b: bv64, c: bv64)
    ensures Add(a, c) == Add(b, c) <==> a == b
  {
    SubtractAdded(a, c);
    SubtractAdded(b, c);
  }

  lemma EqualSumsGiveEqualDifferences(a: bv64, b: bv64, c: bv64, d: bv64)
    requires Add(a, b) == Add(c, d)
    ensures Subtract(a, d) == Subtract(c, b)
  {
    SubtractAdded(a, b);
    SubtractAdded(c, d);
    SubtractInAnyOrder(Add(a, b), b, d);
  }

  lemma EqualDifferencesGiveEqualSums(a: bv64, b: bv64, c: bv64, d: bv64)
    requires Subtract(a, d) == Subtract(c, b)
    ensures Add(a, b) == Add(c, d)
  {
    AddSubtracted(a, d);
    AddSubtracted(c, b);
    AddInAnyOrder(Subtract(a, d), d, b);
  }
}
