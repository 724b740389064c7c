/** Bytes as numbers, bit by bit, and little-endian 32-bit words. */
module Bytes {

  function Pack(t0: bool, t1: bool, t2: bool, t3: bool, t4: bool, t5: bool, t6: bool, t7: bool): bv8 {
    (if t0 then 1 else 0) | (if t1 then 2 else 0) | (if t2 then 4 else 0) | (if t3 then 8 else 0) |
    (if t4 then 16 else 0) | (if t5 then 32 else 0) | (if t6 then 64 else 0) | (if t7 then 128 else 0)
  }

  function Half(x: nat): nat {
    x / 2
  }

  predicate Odd(x: nat) {
    x % 2 == 1
  }

  function Halves(x: nat): (nat, nat, nat, nat, nat, nat, nat) {
    var x1 := Half(x);
    var x2 := Half(x1);
    var x3 := Half(x2);
    var x4 := Half(x3);
    var x5 := Half(x4);
    var x6 := Half(x5);
    (x1, x2, x3, x4, x5, x6, Half(x6))
  }

  /** The byte with value x. */
  function ByteOf(x: nat): bv8
    requires x < 256
  {
    var (x1, x2, x3, x4, x5, x6, x7) := Halves(x);
    Pack(Odd(x), Odd(x1), Odd(x2), Odd(x3), Odd(x4), Odd(x5), Odd(x6), Odd(x7))
  }

  function Bit(t: bool): nat {
    if t then 1 else 0
  }

  function Sum(t0: bool, t1: bool, t2: bool, t3: bool, t4: bool, t5: bool, t6: bool, t7: bool): (r: nat)
    ensures r < 256
  {
    Bit(t0) + 2 * (Bit(t1) + 2 * (Bit(t2) + 2 * (Bit(t3) + 2 * (Bit(t4) + 2 * (Bit(t5) + 2 * (Bit(t6) + 2 * Bit(t7)))))))
  }

  /** The value of a byte. */
  function NatOf(b: bv8): (r: nat)
    ensures r < 256
  {
    Sum(b & 1 != 0, b & 2 != 0, b & 4 != 0, b & 8 != 0, b & 16 != 0, b & 32 != 0, b & 64 != 0, b & 128 != 0)
  }

  lemma PackedBits(t0: bool, t1: bool, t2: bool, t3: bool, t4: bool, t5: bool, t6: bool, t7: bool)
    ensures var b := Pack(t0, t1, t2, t3, t4, t5, t6, t7);
      && (b & 1 != 0) == t0 && (b & 2 != 0) == t1 && (b & 4 != 0) == t2 && (b & 8 != 0) == t3
      && (b & 16 != 0) == t4 && (b & 32 != 0) == t5 && (b & 64 != 0) == t6 && (b & 128 != 0) == t7
  {
  }

  lemma HalfStep(x: nat, n: nat)
    requires x < 2 * n
    ensures x == Bit(Odd(x)) + 2 * Half(x) && Half(x) < n
  {
  }

  lemma BinaryDigits(x: nat)
    requires x < 256
    ensures var (x1, x2, x3, x4, x5, x6, x7) := Halves(x);
      Sum(Odd(x), Odd(x1), Odd(x2), Odd(x3), Odd(x4), Odd(x5), Odd(x6), Odd(x7)) == x
  {
    hide Bit, Half, Odd;
    var (x1, x2, x3, x4, x5, x6, x7) := Halves(x);
    HalfStep(x, 128);
    HalfStep(x1, 64);
    HalfStep(x2, 32);
    HalfStep(x3, 16);
    HalfStep(x4, 8);
    HalfStep(x5, 4);
    HalfStep(x6, 2);
    HalfStep(x7, 1);
  }

  lemma ByteNat(x: nat)
    requires x < 256
    ensures NatOf(ByteOf(x)) == x
  {
    hide Sum, Pack, Halves, Half, Odd;
    var (x1, x2, x3, x4, x5, x6, x7) := Halves(x);
    PackedBits(Odd(x), Odd(x1), Odd(x2), Odd(x3), Odd(x4), Odd(x5), Odd(x6), Odd(x7));
    BinaryDigits(x);
  }

  // --- 32-bit words ----------------------------------------------------------------------

  function Digits(v: nat): (nat, nat, nat, nat) {
    var q1 := v / 0x100;
    var q2 := q1 / 0x100;
    var q3 := q2 / 0x100;
    (v % 0x100, q1 % 0x100, q2 % 0x100, q3 % 0x100)
  }

  function Value(d0: nat, d1: nat, d2: nat, d3: nat): nat {
    d0 + 0x100 * (d1 + 0x100 * (d2 + 0x100 * d3))
  }

  lemma DigitsValue(v: nat)
    requires v < 0x1_0000_0000
    ensures var (d0, d1, d2, d3) := Digits(v);
            Value(d0, d1, d2, d3) == v && d0 < 256 && d1 < 256 && d2 < 256 && d3 < 256
  {
  }

  function WrU32(v: nat): seq<bv8>
    requires v < 0x1_0000_0000
  {
    DigitsValue(v);
    var (d0, d1, d2, d3) := Digits(v);
    [ByteOf(d0), ByteOf(d1), ByteOf(d2), ByteOf(d3)]
  }

  function RdU32(p: seq<bv8>): (r: nat)
    requires |p| == 4
    ensures r < 0x1_0000_0000
  {
    Value(NatOf(p[0]), NatOf(p[1]), NatOf(p[2]), NatOf(p[3]))
  }

  lemma U32RoundTrip(v: nat)
    requires v < 0x1_0000_0000
    ensures |WrU32(v)| == 4 && RdU32(WrU32(v)) == v
  {
    hide ByteOf, NatOf, Digits, Value;
    DigitsValue(v);
    var (d0, d1, d2, d3) := Digits(v);
    ByteNat(d0);
    ByteNat(d1);
    ByteNat(d2);
    ByteNat(d3);
  }

  lemma ByteValue(b: bv8)
    ensures NatOf(b) == b as nat
  {
  }

  /** The lowest byte comes first. */
  lemma LittleEndian(p: seq<bv8>)
    requires |p| == 4
    ensures RdU32(p) == (p[0] as nat) + 0x100 * (p[1] as nat) + 0x1_0000 * (p[2] as nat) + 0x100_0000 * (p[3] as nat)
  {
    hide NatOf;
    ByteValue(p[0]);
    ByteValue(p[1]);
    ByteValue(p[2]);
    ByteValue(p[3]);
  }
}
