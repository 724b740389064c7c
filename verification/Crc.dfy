/**
 CRC-16/CCITT-FALSE and CRC-32 (the frame check sequence of clause 3.2.9 of IEEE
 802.3-2018), bit by bit as the firmware computes them. Both error-detection results rest
 on two facts about the bit step: it is linear over XOR, and it is injective.
 */
module Crc {

  type byte = bv8

  // --- CRC-16 --------------------------------------------------------------------------

  function Xor16(a: bv16, b: bv16): bv16 {
    a ^ b
  }

  /** One bit: shift left, reduce by x^16 + x^12 + x^5 + 1. */
  function Step16(c: bv16): bv16 {
    if Top16(c) then Xor16(Shl16(c), 0x1021) else Shl16(c)
  }

  predicate Top16(c: bv16) {
    c & 0x8000 != 0
  }

  function Shl16(c: bv16): bv16 {
    c << 1
  }

  /** The register after n bits. */
  function Steps16(c: bv16, n: nat): bv16
    decreases n
  {
    if n == 0 then c else Step16(Steps16(c, n - 1))
  }

  function Eight16(c: bv16): bv16 {
    Steps16(c, 8)
  }

  function High(b: byte): bv16 {
    (b as bv16) << 8
  }

  function Byte16(c: bv16, b: byte): bv16 {
    Eight16(Xor16(c, High(b)))
  }

  function Crc16From(c: bv16, data: seq<byte>): bv16
    decreases |data|
  {
    if data == [] then c else Crc16From(Byte16(c, data[0]), data[1..])
  }

  function Crc16(data: seq<byte>): bv16 {
    Crc16From(0xFFFF, data)
  }

  method ComputeCrc16(data: array<byte>, len: nat) returns (crc: bv16)
    requires len <= data.Length
    ensures crc == Crc16(data[..len])
  {
    hide Step16;
    crc := 0xFFFF;
    for i := 0 to len
      invariant Crc16From(0xFFFF, data[..len]) == Crc16From(crc, data[i..len])
    {
      assert data[i..len][1..] == data[i + 1..len];
      crc := Xor16(crc, High(data[i]));
      ghost var start := crc;
      for b := 0 to 8
        invariant crc == Steps16(start, b)
      {
        crc := Step16(crc);
      }
    }
  }

  lemma Step16Linear(a: bv16, b: bv16)
    ensures Step16(Xor16(a, b)) == Xor16(Step16(a), Step16(b))
  {
    hide Top16, Xor16, Shl16;
    TopOfXor(a, b);
    ShiftOfXor(a, b);
    PolyXor(Shl16(a), Shl16(b), 0x1021);
  }

  lemma TopOfXor(a: bv16, b: bv16)
    ensures Top16(Xor16(a, b)) <==> Top16(a) != Top16(b)
  {
  }

  lemma ShiftOfXor(a: bv16, b: bv16)
    ensures Shl16(Xor16(a, b)) == Xor16(Shl16(a), Shl16(b))
  {
  }

  lemma PolyXor(a: bv16, b: bv16, p: bv16)
    ensures Xor16(Xor16(a, b), p) == Xor16(Xor16(a, p), b) == Xor16(a, Xor16(b, p))
    ensures Xor16(Xor16(a, p), Xor16(b, p)) == Xor16(a, b)
  {
  }

  lemma Step16Kernel(a: bv16)
    ensures Step16(a) == 0 ==> a == 0
  {
  }

  lemma Xor16Twice(a: bv16, b: bv16)
    ensures Xor16(Xor16(a, b), b) == a
  {
  }

  lemma Xor16Self(a: bv16)
    ensures Xor16(a, a) == 0 && Xor16(0, a) == a
  {
  }

  lemma Xor16Comm(a: bv16, b: bv16)
    ensures Xor16(a, b) == Xor16(b, a)
  {
  }

  lemma Xor16Zero(a: bv16, b: bv16)
    ensures Xor16(a, b) == 0 <==> a == b
  {
    hide Xor16;
    Xor16Twice(a, b);
    Xor16Self(a);
    Xor16Self(b);
  }

  lemma Step16Injective(a: bv16, b: bv16)
    requires Step16(a) == Step16(b)
    ensures a == b
  {
    hide Step16, Xor16;
    Step16Linear(a, b);
    Xor16Zero(Step16(a), Step16(b));
    Step16Kernel(Xor16(a, b));
    Xor16Zero(a, b);
  }

  lemma EightSteps16(c: bv16)
    ensures Eight16(c)
         == Step16(Step16(Step16(Step16(Step16(Step16(Step16(Step16(c))))))))
  {
    hide Step16;
    assert Steps16(c, 2) == Step16(Step16(c));
    assert Steps16(c, 4) == Step16(Step16(Steps16(c, 2)));
    assert Steps16(c, 6) == Step16(Step16(Steps16(c, 4)));
  }

  lemma {:induction false} Steps16Injective(a: bv16, b: bv16, n: nat)
    requires Steps16(a, n) == Steps16(b, n)
    ensures a == b
    decreases n
  {
    hide Step16;
    if n > 0 {
      Step16Injective(Steps16(a, n - 1), Steps16(b, n - 1));
      Steps16Injective(a, b, n - 1);
    }
  }

  lemma Eight16Injective(a: bv16, b: bv16)
    requires Eight16(a) == Eight16(b)
    ensures a == b
  {
    hide Steps16;
    Steps16Injective(a, b, 8);
  }

  lemma {:induction false} Steps16Linear(a: bv16, b: bv16, n: nat)
    ensures Steps16(Xor16(a, b), n) == Xor16(Steps16(a, n), Steps16(b, n))
    decreases n
  {
    hide Step16, Xor16;
    if n > 0 {
      Steps16Linear(a, b, n - 1);
      Step16Linear(Steps16(a, n - 1), Steps16(b, n - 1));
    }
  }

  lemma Eight16Linear(a: bv16, b: bv16)
    ensures Eight16(Xor16(a, b)) == Xor16(Eight16(a), Eight16(b))
  {
    hide Steps16, Xor16;
    Steps16Linear(a, b, 8);
  }

  lemma Eight16OfLow(b: byte)
    ensures Eight16(b as bv16) == High(b)
  {
    EightSteps16(b as bv16);
    hide Steps16;
  }

  lemma Xor16Assoc(a: bv16, b: bv16, c: bv16)
    ensures Xor16(Xor16(a, b), c) == Xor16(a, Xor16(b, c))
  {
  }

  lemma Xor16Cancel(c: bv16, a: bv16, b: bv16)
    ensures Xor16(c, a) == Xor16(c, b) <==> a == b
  {
  }

  /** Two bytes in a row enter the register as one 16-bit word. */
  lemma TwoBytesAreAWord(c: bv16, x: byte, y: byte)
    ensures Byte16(Byte16(c, x), y) == Eight16(Eight16(Xor16(c, Xor16(High(x), y as bv16))))
  {
    hide Eight16, Xor16, High;
    Eight16Linear(Xor16(c, High(x)), y as bv16);
    Eight16OfLow(y);
    Xor16Assoc(c, High(x), y as bv16);
  }

  lemma WordIsItsBytes(x: byte, y: byte, x': byte, y': byte)
    requires Xor16(High(x), y as bv16) == Xor16(High(x'), y' as bv16)
    ensures x == x' && y == y'
  {
  }

  lemma TwoBytesInjective(c: bv16, x: byte, y: byte, x': byte, y': byte)
    requires Byte16(Byte16(c, x), y) == Byte16(Byte16(c, x'), y')
    ensures x == x' && y == y'
  {
    hide Eight16, Xor16, High, Byte16;
    TwoBytesAreAWord(c, x, y);
    TwoBytesAreAWord(c, x', y');
    var w, w' := Xor16(High(x), y as bv16), Xor16(High(x'), y' as bv16);
    Eight16Injective(Eight16(Xor16(c, w)), Eight16(Xor16(c, w')));
    Eight16Injective(Xor16(c, w), Xor16(c, w'));
    Xor16Cancel(c, w, w');
    WordIsItsBytes(x, y, x', y');
  }

  lemma Byte16Injective(c: bv16, c': bv16, b: byte)
    requires Byte16(c, b) == Byte16(c', b)
    ensures c == c'
  {
    hide Eight16, Xor16, High;
    Eight16Injective(Xor16(c, High(b)), Xor16(c', High(b)));
    Xor16Comm(c, High(b));
    Xor16Comm(c', High(b));
    Xor16Cancel(High(b), c, c');
  }

  lemma {:induction false} Crc16Append(c: bv16, a: seq<byte>, b: seq<byte>)
    ensures Crc16From(c, a + b) == Crc16From(Crc16From(c, a), b)
    decreases |a|
  {
    hide Byte16;
    if a == [] {
      assert a + b == b;
    } else {
      Crc16Append(Byte16(c, a[0]), a[1..], b);
      assert (a + b)[1..] == a[1..] + b;
    }
  }

  lemma {:induction false} Crc16Injective(c: bv16, c': bv16, data: seq<byte>)
    requires Crc16From(c, data) == Crc16From(c', data)
    ensures c == c'
    decreases |data|
  {
    hide Byte16;
    if data != [] {
      Crc16Injective(Byte16(c, data[0]), Byte16(c', data[0]), data[1..]);
      Byte16Injective(c, c', data[0]);
    }
  }

  lemma TwoByteRun(c: bv16, x: byte, y: byte)
    ensures Crc16From(c, [x, y]) == Byte16(Byte16(c, x), y)
  {
    hide Byte16;
    assert [x, y][1..] == [y];
    assert [y][1..] == [];
    assert Crc16From(Byte16(Byte16(c, x), y), []) == Byte16(Byte16(c, x), y);
    assert Crc16From(Byte16(c, x), [y]) == Byte16(Byte16(c, x), y);
  }

  /** Changing anything inside two adjacent bytes always changes the CRC-16. */
  lemma BurstChangesCrc16(c: bv16, a: seq<byte>, w: seq<byte>, w': seq<byte>, b: seq<byte>)
    requires |w| == |w'| == 2 && w != w'
    ensures Crc16From(c, a + w + b) != Crc16From(c, a + w' + b)
  {
    hide Byte16;
    var r := Crc16From(c, a);
    Crc16Append(c, a + w, b);
    Crc16Append(c, a, w);
    Crc16Append(c, a + w', b);
    Crc16Append(c, a, w');
    assert w == [w[0], w[1]] && w' == [w'[0], w'[1]];
    TwoByteRun(r, w[0], w[1]);
    TwoByteRun(r, w'[0], w'[1]);
    if Crc16From(c, a + w + b) == Crc16From(c, a + w' + b) {
      Crc16Injective(Crc16From(r, w), Crc16From(r, w'), b);
      TwoBytesInjective(r, w[0], w[1], w'[0], w'[1]);
      assert false;
    }
  }

  // --- CRC-32 --------------------------------------------------------------------------

  function Xor32(a: bv32, b: bv32): bv32 {
    a ^ b
  }

  predicate Low32(c: bv32) {
    c & 1 != 0
  }

  function Shr32(c: bv32): bv32 {
    c >> 1
  }

  /** One bit: shift right, reduce by the reflected polynomial. */
  function Step32(c: bv32): bv32 {
    if Low32(c) then Xor32(Shr32(c), 0xEDB8_8320) else Shr32(c)
  }

  /** The register after n bits. */
  function Steps32(c: bv32, n: nat): bv32
    decreases n
  {
    if n == 0 then c else Step32(Steps32(c, n - 1))
  }

  function Eight32(c: bv32): bv32 {
    Steps32(c, 8)
  }

  /** A byte at byte position k of the register. */
  function At(b: byte, k: nat): bv32 {
    if k == 0 then b as bv32
    else if k == 1 then (b as bv32) << 8
    else if k == 2 then (b as bv32) << 16
    else (b as bv32) << 24
  }

  function Byte32(c: bv32, b: byte): bv32 {
    Eight32(Xor32(c, At(b, 0)))
  }

  function Raw32(c: bv32, data: seq<byte>): bv32
    decreases |data|
  {
    if data == [] then c else Raw32(Byte32(c, data[0]), data[1..])
  }

  function Not32(c: bv32): bv32 {
    c ^ 0xFFFF_FFFF
  }

  function Crc32(crc: bv32, data: seq<byte>): bv32 {
    Not32(Raw32(Not32(crc), data))
  }

  method ComputeCrc32(crc0: bv32, data: seq<byte>) returns (crc: bv32)
    ensures crc == Crc32(crc0, data)
  {
    hide Step32;
    crc := Not32(crc0);
    for i := 0 to |data|
      invariant Raw32(Not32(crc0), data) == Raw32(crc, data[i..])
    {
      assert data[i..][1..] == data[i + 1..];
      crc := Xor32(crc, data[i] as bv32);
      ghost var start := crc;
      for b := 0 to 8
        invariant crc == Steps32(start, b)
      {
        crc := Step32(crc);
      }
    }
    crc := Not32(crc);
  }

  lemma Step32Linear(a: bv32, b: bv32)
    ensures Step32(Xor32(a, b)) == Xor32(Step32(a), Step32(b))
  {
    hide Low32, Xor32, Shr32;
    LowAndShift(a, b);
    PolyXor32(Shr32(a), Shr32(b), 0xEDB8_8320);
  }

  lemma LowAndShift(a: bv32, b: bv32)
    ensures Low32(Xor32(a, b)) <==> Low32(a) != Low32(b)
    ensures Shr32(Xor32(a, b)) == Xor32(Shr32(a), Shr32(b))
  {
  }

  lemma Xor32Assoc(a: bv32, b: bv32, c: bv32)
    ensures Xor32(Xor32(a, b), c) == Xor32(a, Xor32(b, c))
  {
  }

  lemma Xor32Comm(a: bv32, b: bv32)
    ensures Xor32(a, b) == Xor32(b, a)
  {
  }

  lemma Xor32Self(a: bv32)
    ensures Xor32(a, a) == 0 && Xor32(a, 0) == a && Xor32(0, a) == a
  {
  }

  lemma PolyXor32(a: bv32, b: bv32, p: bv32)
    ensures Xor32(Xor32(a, b), p) == Xor32(Xor32(a, p), b) == Xor32(a, Xor32(b, p))
    ensures Xor32(Xor32(a, p), Xor32(b, p)) == Xor32(a, b)
  {
    hide Xor32;
    Xor32Assoc(a, b, p);
    Xor32Assoc(a, p, b);
    Xor32Comm(b, p);
    Xor32Assoc(Xor32(a, p), b, p);
    Xor32Assoc(Xor32(a, b), p, p);
    Xor32Self(p);
    Xor32Self(Xor32(a, b));
    Xor32Assoc(a, Xor32(b, p), p);
  }

  lemma Step32Kernel(a: bv32)
    ensures Step32(a) == 0 ==> a == 0
  {
  }

  lemma Xor32Twice(a: bv32, b: bv32)
    ensures Xor32(Xor32(a, b), b) == a
  {
  }

  lemma Xor32Zero(a: bv32, b: bv32)
    ensures Xor32(a, b) == 0 <==> a == b
  {
    hide Xor32;
    Xor32Twice(a, b);
    Xor32Self(a);
    Xor32Self(b);
  }

  lemma Not32Twice(a: bv32)
    ensures Not32(Not32(a)) == a
  {
  }

  lemma Step32Injective(a: bv32, b: bv32)
    requires Step32(a) == Step32(b)
    ensures a == b
  {
    hide Step32, Xor32;
    Step32Linear(a, b);
    Xor32Zero(Step32(a), Step32(b));
    Step32Kernel(Xor32(a, b));
    Xor32Zero(a, b);
  }

  lemma EightSteps32(c: bv32)
    ensures Eight32(c)
         == Step32(Step32(Step32(Step32(Step32(Step32(Step32(Step32(c))))))))
  {
    hide Step32;
    assert Steps32(c, 2) == Step32(Step32(c));
    assert Steps32(c, 4) == Step32(Step32(Steps32(c, 2)));
    assert Steps32(c, 6) == Step32(Step32(Steps32(c, 4)));
  }

  lemma {:induction false} Steps32Injective(a: bv32, b: bv32, n: nat)
    requires Steps32(a, n) == Steps32(b, n)
    ensures a == b
    decreases n
  {
    hide Step32;
    if n > 0 {
      Step32Injective(Steps32(a, n - 1), Steps32(b, n - 1));
      Steps32Injective(a, b, n - 1);
    }
  }

  lemma Eight32Injective(a: bv32, b: bv32)
    requires Eight32(a) == Eight32(b)
    ensures a == b
  {
    hide Steps32;
    Steps32Injective(a, b, 8);
  }

  lemma {:induction false} Steps32Linear(a: bv32, b: bv32, n: nat)
    ensures Steps32(Xor32(a, b), n) == Xor32(Steps32(a, n), Steps32(b, n))
    decreases n
  {
    hide Step32, Xor32;
    if n > 0 {
      Steps32Linear(a, b, n - 1);
      Step32Linear(Steps32(a, n - 1), Steps32(b, n - 1));
    }
  }

  lemma Eight32Linear(a: bv32, b: bv32)
    ensures Eight32(Xor32(a, b)) == Xor32(Eight32(a), Eight32(b))
  {
    hide Steps32, Xor32;
    Steps32Linear(a, b, 8);
  }

  function Shr8(c: bv32): bv32 {
    Shr32(Shr32(Shr32(Shr32(Shr32(Shr32(Shr32(Shr32(c))))))))
  }

  predicate LowByteZero(c: bv32) {
    c & 0xFF == 0
  }

  lemma NothingFallsOut(c: bv32)
    requires LowByteZero(c)
    ensures !Low32(c) && !Low32(Shr32(c)) && !Low32(Shr32(Shr32(c))) && !Low32(Shr32(Shr32(Shr32(c))))
    ensures var d := Shr32(Shr32(Shr32(Shr32(c))));
            !Low32(d) && !Low32(Shr32(d)) && !Low32(Shr32(Shr32(d))) && !Low32(Shr32(Shr32(Shr32(d))))
  {
  }

  lemma EightEvenSteps(c: bv32)
    requires LowByteZero(c)
    ensures Eight32(c) == Shr8(c)
  {
    EightSteps32(c);
    NothingFallsOut(c);
    hide Low32, Shr32, LowByteZero, Xor32, Steps32;
  }

  lemma BytePositions(b: byte)
    ensures LowByteZero(At(b, 1)) && LowByteZero(At(b, 2)) && LowByteZero(At(b, 3))
    ensures Shr8(At(b, 1)) == At(b, 0) && Shr8(At(b, 2)) == At(b, 1) && Shr8(At(b, 3)) == At(b, 2)
  {
  }

  /** Eight shifts move a byte one position down when nothing falls out. */
  lemma Eight32OfHigh(b: byte)
    ensures Eight32(At(b, 1)) == At(b, 0) && Eight32(At(b, 2)) == At(b, 1) && Eight32(At(b, 3)) == At(b, 2)
  {
    hide Eight32, At, Shr8, LowByteZero;
    BytePositions(b);
    EightEvenSteps(At(b, 1));
    EightEvenSteps(At(b, 2));
    EightEvenSteps(At(b, 3));
  }

  /** The word that four bytes in a row put into the register. */
  function Word32(c: bv32, w: seq<byte>): bv32
    requires |w| == 4
  {
    Xor32(Xor32(Xor32(Xor32(c, At(w[0], 0)), At(w[1], 1)), At(w[2], 2)), At(w[3], 3))
  }

  lemma FourBytesAreAWord(c: bv32, w: seq<byte>)
    requires |w| == 4
    ensures Byte32(Byte32(Byte32(Byte32(c, w[0]), w[1]), w[2]), w[3])
         == Eight32(Eight32(Eight32(Eight32(Word32(c, w)))))
  {
    hide Eight32, Xor32, At;
    var w1 := Xor32(c, At(w[0], 0));
    var w2 := Xor32(w1, At(w[1], 1));
    var w3 := Xor32(w2, At(w[2], 2));
    Eight32OfHigh(w[1]);
    Eight32OfHigh(w[2]);
    Eight32OfHigh(w[3]);
    Eight32Linear(w1, At(w[1], 1));
    Eight32Linear(w2, At(w[2], 2));
    Eight32Linear(Eight32(w2), At(w[2], 1));
    Eight32Linear(w3, At(w[3], 3));
    Eight32Linear(Eight32(w3), At(w[3], 2));
    Eight32Linear(Eight32(Eight32(w3)), At(w[3], 1));
  }

  lemma Word32Bytes(c: bv32, w: seq<byte>, w': seq<byte>)
    requires |w| == |w'| == 4 && Word32(c, w) == Word32(c, w')
    ensures w == w'
  {
    BytesOfWord(c, w[0], w[1], w[2], w[3], w'[0], w'[1], w'[2], w'[3]);
  }

  lemma BytesOfWord(c: bv32, a0: byte, a1: byte, a2: byte, a3: byte, b0: byte, b1: byte, b2: byte, b3: byte)
    requires Xor32(Xor32(Xor32(Xor32(c, At(a0, 0)), At(a1, 1)), At(a2, 2)), At(a3, 3))
          == Xor32(Xor32(Xor32(Xor32(c, At(b0, 0)), At(b1, 1)), At(b2, 2)), At(b3, 3))
    ensures a0 == b0 && a1 == b1 && a2 == b2 && a3 == b3
  {
  }

  lemma {:induction false} Raw32Append(c: bv32, a: seq<byte>, b: seq<byte>)
    ensures Raw32(c, a + b) == Raw32(Raw32(c, a), b)
    decreases |a|
  {
    hide Byte32;
    if a == [] {
      assert a + b == b;
    } else {
      Raw32Append(Byte32(c, a[0]), a[1..], b);
      assert (a + b)[1..] == a[1..] + b;
    }
  }

  lemma {:induction false} Raw32Injective(c: bv32, c': bv32, data: seq<byte>)
    requires Raw32(c, data) == Raw32(c', data)
    ensures c == c'
    decreases |data|
  {
    hide Byte32;
    if data != [] {
      Raw32Injective(Byte32(c, data[0]), Byte32(c', data[0]), data[1..]);
      Byte32Injective(c, c', data[0]);
    }
  }

  lemma Byte32Injective(c: bv32, c': bv32, b: byte)
    requires Byte32(c, b) == Byte32(c', b)
    ensures c == c'
  {
    hide Eight32, Xor32, At;
    Eight32Injective(Xor32(c, At(b, 0)), Xor32(c', At(b, 0)));
    Xor32Cancel(c, c', At(b, 0));
  }

  lemma Xor32Cancel(a: bv32, b: bv32, c: bv32)
    ensures Xor32(a, c) == Xor32(b, c) <==> a == b
  {
  }

  lemma FourByteRun(c: bv32, w: seq<byte>)
    requires |w| == 4
    ensures Raw32(c, w) == Byte32(Byte32(Byte32(Byte32(c, w[0]), w[1]), w[2]), w[3])
  {
    hide Byte32;
    var r1 := Byte32(c, w[0]);
    var r2 := Byte32(r1, w[1]);
    var r3 := Byte32(r2, w[2]);
    var r4 := Byte32(r3, w[3]);
    assert w[1..][1..] == w[2..] && w[2..][1..] == w[3..] && w[3..][1..] == [];
    EmptyRun(r4);
    assert Raw32(r3, w[3..]) == Raw32(r4, []);
    assert Raw32(r2, w[2..]) == Raw32(r3, w[3..]);
    assert Raw32(r1, w[1..]) == Raw32(r2, w[2..]);
  }

  lemma FourBytesInjective(c: bv32, w: seq<byte>, w': seq<byte>)
    requires |w| == |w'| == 4 && Raw32(c, w) == Raw32(c, w')
    ensures w == w'
  {
    hide Eight32, Word32, Byte32;
    FourByteRun(c, w);
    FourByteRun(c, w');
    FourBytesAreAWord(c, w);
    FourBytesAreAWord(c, w');
    var v, v' := Word32(c, w), Word32(c, w');
    Eight32Injective(Eight32(Eight32(Eight32(v))), Eight32(Eight32(Eight32(v'))));
    Eight32Injective(Eight32(Eight32(v)), Eight32(Eight32(v')));
    Eight32Injective(Eight32(v), Eight32(v'));
    Eight32Injective(v, v');
    Word32Bytes(c, w, w');
  }

  /** Images of equal length that differ only within four consecutive bytes differ in CRC-32. */
  lemma BurstChangesCrc32(crc: bv32, a: seq<byte>, w: seq<byte>, w': seq<byte>, b: seq<byte>)
    requires |w| == |w'| <= 4 && w != w'
    ensures Crc32(crc, a + w + b) != Crc32(crc, a + w' + b)
  {
    hide Byte32, Not32;
    var c := Not32(crc);
    var r := Raw32(c, a);
    Raw32Append(c, a + w, b);
    Raw32Append(c, a, w);
    Raw32Append(c, a + w', b);
    Raw32Append(c, a, w');
    Not32Twice(Raw32(c, a + w + b));
    Not32Twice(Raw32(c, a + w' + b));
    var pad: seq<byte> := seq(4 - |w|, _ => 0);
    assert w + pad != w' + pad by {
      assert w == (w + pad)[..|w|] && w' == (w' + pad)[..|w'|];
    }
    if Raw32(c, a + w + b) == Raw32(c, a + w' + b) {
      Raw32Injective(Raw32(r, w), Raw32(r, w'), b);
      Raw32Append(r, w, pad);
      Raw32Append(r, w', pad);
      FourBytesInjective(r, w + pad, w' + pad);
    }
  }

  /** Feeding an image piece by piece gives the CRC of the whole. */
  lemma Crc32Composes(crc: bv32, a: seq<byte>, b: seq<byte>)
    ensures Crc32(Crc32(crc, a), b) == Crc32(crc, a + b)
    ensures Crc32(crc, []) == crc
  {
    hide Raw32, Not32;
    Raw32Append(Not32(crc), a, b);
    Not32Twice(Raw32(Not32(crc), a));
    EmptyRun(Not32(crc));
    Not32Twice(crc);
  }

  lemma EmptyRun(c: bv32)
    ensures Raw32(c, []) == c
  {
  }
}
