/**
 The IR shot telegram: version, shooter id and damage under a CRC-4, sent as 35 timed
 mark/space phases and read back by an edge-fed decoder.
 */
module IrTelegram {

  const VERSION: bv16 := 1
  const BITS: nat := 16
  const PULSES: nat := 35

  datatype Option<T> = None | Some(value: T)

  // --- words ----------------------------------------------------------------------------

  /** Bit operations under a name, so that proofs can treat them as atoms. */
  function Xor(a: bv16, b: bv16): bv16 {
    a ^ b
  }

  function Half(d: bv16): bv16 {
    d >> 1
  }

  function Low(d: bv16): bv16 {
    d & 1
  }

  /** d >> i, one position at a time. */
  function Shr(d: bv16, i: nat): bv16
    decreases i
  {
    if i == 0 then d else Shr(Half(d), i - 1)
  }

  function BitAt(d: bv16, i: nat): bv16 {
    Low(Shr(d, i))
  }

  // --- CRC-4 and the frame ---------------------------------------------------------------

  /** One shift of the CRC register with polynomial x^4 + x + 1. */
  function CrcBit(crc: bv16, bit: bv16): bv16 {
    var top := (crc >> 3) & 1;
    var shifted := (crc << 1) & 0x0F;
    if top ^ bit != 0 then shifted ^ 0x03 else shifted
  }

  /** The register after the k low bits of d, most significant first. */
  function Crc4From(d: bv16, k: nat, crc: bv16): bv16
    decreases k
  {
    if k == 0 then crc else Crc4From(d, k - 1, CrcBit(crc, BitAt(d, k - 1)))
  }

  function Crc4(data12: bv16): bv16 {
    Crc4From(data12, 12, 0)
  }

  method ComputeCrc4(data12: bv16) returns (crc: bv16)
    ensures crc == Crc4(data12)
  {
    crc := 0;
    for i := 12 downto 0
      invariant Crc4From(data12, 12, 0) == Crc4From(data12, i, crc)
    {
      var bit := Shr(data12, i) & 1;
      var top := (crc >> 3) & 1;
      crc := (crc << 1) & 0x0F;
      if top ^ bit != 0 { crc := crc ^ 0x03; }
    }
  }

  function Data12(shooterId: bv8, damage: bv8): bv16 {
    ((VERSION & 0x0F) << 8) | (((shooterId & 0x0F) as bv16) << 4) | ((damage & 0x0F) as bv16)
  }

  function Encode(shooterId: bv8, damage: bv8): bv16 {
    var dmg := if damage == 0 then 1 else damage;
    Assemble(Data12(shooterId, dmg), Crc4(Data12(shooterId, dmg)))
  }

  function Assemble(data12: bv16, crc: bv16): bv16 {
    (data12 << 4) | crc
  }

  /** The 12 checked bits of a frame, and its CRC nibble. */
  function Payload(frame: bv16): bv16 {
    frame >> 4
  }

  function CrcField(frame: bv16): bv16 {
    frame & 0x0F
  }

  function VersionField(frame: bv16): bv16 {
    (frame >> 12) & 0x0F
  }

  predicate ValidFrame(frame: bv16) {
    Crc4(Payload(frame)) == CrcField(frame) && VersionField(frame) == VERSION
  }

  /** Version and CRC check, then (shooter id, damage). */
  function DecodeFrame(frame: bv16): Option<(bv8, bv8)> {
    if !ValidFrame(frame) then None
    else Some((ShooterField(frame), DamageField(frame)))
  }

  function ShooterField(frame: bv16): bv8 {
    ((frame >> 8) & 0x0F) as bv8
  }

  function DamageField(frame: bv16): bv8 {
    ((frame >> 4) & 0x0F) as bv8
  }

  // --- linearity of the CRC -----------------------------------------------------------------

  lemma HalfOfXor(a: bv16, b: bv16)
    ensures Half(Xor(a, b)) == Xor(Half(a), Half(b))
  {
  }

  lemma PayloadOfXor(a: bv16, b: bv16)
    ensures Payload(Xor(a, b)) == Xor(Payload(a), Payload(b))
  {
  }

  lemma CrcFieldOfXor(a: bv16, b: bv16)
    ensures CrcField(Xor(a, b)) == Xor(CrcField(a), CrcField(b))
  {
  }

  lemma LowOfXor(a: bv16, b: bv16)
    ensures Low(Xor(a, b)) == Xor(Low(a), Low(b)) && Low(a) <= 1
  {
  }

  lemma XorComm(a: bv16, b: bv16)
    ensures Xor(a, b) == Xor(b, a)
  {
  }

  lemma XorSelf(a: bv16)
    ensures Xor(0, a) == a && Xor(a, a) == 0
  {
  }

  lemma XorTwice(a: bv16, b: bv16)
    ensures Xor(Xor(a, b), b) == a
  {
  }

  lemma XorLaws(a: bv16, b: bv16)
    ensures Half(Xor(a, b)) == Xor(Half(a), Half(b))
    ensures Payload(Xor(a, b)) == Xor(Payload(a), Payload(b))
    ensures CrcField(Xor(a, b)) == Xor(CrcField(a), CrcField(b))
    ensures Low(Xor(a, b)) == Xor(Low(a), Low(b)) && Low(a) <= 1
    ensures Xor(a, b) == Xor(b, a) && Xor(0, a) == a && Xor(0, 0) == 0
    ensures Xor(a, b) == 0 <==> a == b
  {
    hide Xor, Half, Payload, CrcField, Low;
    HalfOfXor(a, b);
    PayloadOfXor(a, b);
    CrcFieldOfXor(a, b);
    LowOfXor(a, b);
    XorComm(a, b);
    XorSelf(a);
    XorSelf(b);
    XorSelf(0);
    XorTwice(a, b);
  }

  lemma XorAssoc(a: bv16, b: bv16, c: bv16)
    ensures Xor(Xor(a, b), c) == Xor(a, Xor(b, c))
  {
  }

  lemma XorRegroups(a: bv16, b: bv16, c: bv16, d: bv16)
    ensures Xor(Xor(a, b), Xor(c, d)) == Xor(Xor(a, c), Xor(b, d))
  {
    hide Xor;
    XorAssoc(Xor(a, b), c, d);
    XorAssoc(a, b, c);
    XorLaws(b, c);
    XorAssoc(a, c, b);
    XorAssoc(Xor(a, c), b, d);
  }

  lemma {:induction false} BitsXor(a: bv16, b: bv16, i: nat)
    ensures Shr(Xor(a, b), i) == Xor(Shr(a, i), Shr(b, i))
    ensures BitAt(Xor(a, b), i) == Xor(BitAt(a, i), BitAt(b, i)) && BitAt(a, i) <= 1
    decreases i
  {
    hide Xor, Half, Low;
    XorLaws(a, b);
    XorLaws(Shr(a, i), Shr(b, i));
    if i > 0 { BitsXor(Half(a), Half(b), i - 1); }
  }

  lemma CrcBitXor(a: bv16, b: bv16, x: bv16, y: bv16)
    requires a < 16 && b < 16 && x <= 1 && y <= 1
    ensures CrcBit(Xor(a, b), Xor(x, y)) == Xor(CrcBit(a, x), CrcBit(b, y)) && CrcBit(a, x) < 16
  {
  }

  lemma {:induction false} CrcIsLinear(a: bv16, b: bv16, k: nat, c: bv16, d: bv16)
    requires c < 16 && d < 16
    ensures Crc4From(Xor(a, b), k, Xor(c, d)) == Xor(Crc4From(a, k, c), Crc4From(b, k, d))
    ensures Crc4From(a, k, c) < 16
    decreases k
  {
    hide Xor, BitAt, CrcBit;
    if k > 0 {
      BitsXor(a, b, k - 1);
      BitsXor(b, a, k - 1);
      var x, y := BitAt(a, k - 1), BitAt(b, k - 1);
      CrcBitXor(c, d, x, y);
      CrcBitXor(d, c, y, x);
      CrcIsLinear(a, b, k - 1, CrcBit(c, x), CrcBit(d, y));
    }
  }

  lemma CrcXor(a: bv16, b: bv16)
    ensures Crc4(Xor(a, b)) == Xor(Crc4(a), Crc4(b)) && Crc4(a) < 16
  {
    hide Xor, Crc4From;
    XorLaws(a, b);
    CrcIsLinear(a, b, 12, 0, 0);
  }

  // --- encode and decode ----------------------------------------------------------------------

  lemma FieldsOf(data12: bv16, crc: bv16)
    requires data12 < 0x1000 && crc < 16
    ensures Payload(Assemble(data12, crc)) == data12 && CrcField(Assemble(data12, crc)) == crc
  {
  }

  lemma DataFields(shooterId: bv8, damage: bv8, crc: bv16)
    requires crc < 16
    ensures var d := Data12(shooterId, damage); var f := Assemble(d, crc);
      && d < 0x1000 && VersionField(f) == VERSION
      && ShooterField(f) == shooterId & 0x0F && DamageField(f) == damage & 0x0F
  {
  }

  /** Encoding always yields a valid frame, and the fields survive exactly when they fit. */
  lemma EncodeDecode(shooterId: bv8, damage: bv8)
    ensures ValidFrame(Encode(shooterId, damage))
    ensures DecodeFrame(Encode(shooterId, damage)) == Some((shooterId, damage)) <==>
              shooterId <= 15 && 1 <= damage <= 15
    ensures DecodeFrame(Encode(shooterId, 0)) == DecodeFrame(Encode(shooterId, 1))
  {
    hide Encode, DecodeFrame, ValidFrame;
    var dmg := if damage == 0 then 1 else damage;
    DecodeOfEncode(shooterId, damage);
    DecodeOfEncode(shooterId, 0);
    DecodeOfEncode(shooterId, 1);
    NibbleFits(shooterId);
    NibbleFits(dmg);
  }

  /** The four nibbles of a telegram: version 1, shooter id, damage of at least 1, checksum of the first three. */
  lemma FrameNibbles(shooterId: bv8, damage: bv8)
    ensures var f := Encode(shooterId, damage);
      && f >> 12 == 0x1
      && (f >> 8) & 0xF == (shooterId & 0xF) as bv16
      && (f >> 4) & 0xF == (if damage == 0 then 1 else damage & 0xF) as bv16
      && f & 0xF == Crc4(f >> 4)
  {
    hide Crc4, Data12, Assemble;
    var dmg := if damage == 0 then 1 else damage;
    CrcXor(Data12(shooterId, dmg), 0);
    NibblesOf(shooterId, dmg, Crc4(Data12(shooterId, dmg)));
  }

  lemma NibblesOf(shooterId: bv8, damage: bv8, crc: bv16)
    requires crc <= 0xF
    ensures var d := Data12(shooterId, damage); var f := Assemble(d, crc);
      && f >> 12 == 0x1 && (f >> 8) & 0xF == (shooterId & 0xF) as bv16
      && (f >> 4) & 0xF == (damage & 0xF) as bv16 && f & 0xF == crc && f >> 4 == d
  {
  }

  lemma DecodeOfEncode(shooterId: bv8, damage: bv8)
    ensures ValidFrame(Encode(shooterId, damage))
    ensures DecodeFrame(Encode(shooterId, damage))
         == Some((shooterId & 0x0F, (if damage == 0 then 1 else damage) & 0x0F))
  {
    hide Crc4, Data12, Payload, CrcField, VersionField, ShooterField, DamageField, Assemble, Xor;
    var d := Data12(shooterId, if damage == 0 then 1 else damage);
    CrcXor(d, 0);
    DataFields(shooterId, if damage == 0 then 1 else damage, Crc4(d));
    FieldsOf(d, Crc4(d));
  }

  lemma NibbleFits(x: bv8)
    ensures x & 0x0F == x <==> x <= 15
    ensures x > 15 ==> x & 0x0F <= 15
  {
  }

  // --- error detection ------------------------------------------------------------------------

  /** Zero exactly when the CRC accepts the frame. */
  function Syndrome(frame: bv16): bv16 {
    Xor(Crc4(Payload(frame)), CrcField(frame))
  }

  lemma SyndromeIsLinear(f: bv16, e: bv16)
    ensures Syndrome(Xor(f, e)) == Xor(Syndrome(f), Syndrome(e))
  {
    hide Crc4, Xor, Payload, CrcField;
    XorLaws(f, e);
    CrcXor(Payload(f), Payload(e));
    XorRegroups(Crc4(Payload(f)), Crc4(Payload(e)), CrcField(f), CrcField(e));
  }

  lemma ValidMeansNoSyndrome(frame: bv16)
    ensures ValidFrame(frame) <==> Syndrome(frame) == 0 && VersionField(frame) == VERSION
  {
    hide Crc4, Xor, Payload, CrcField, VersionField;
    XorLaws(Crc4(Payload(frame)), CrcField(frame));
  }

  /** The error that flips bit i alone. */
  function Flip(i: nat): bv16 {
    if i == 0 then 1 else Flip(i - 1) << 1
  }

  /** x^i modulo x^4 + x + 1. */
  function XPower(i: nat): bv16 {
    if i == 0 then 1 else CrcBit(XPower(i - 1), 0)
  }

  lemma FlipTable()
    ensures Flip(0) == 0x1 && Flip(1) == 0x2 && Flip(2) == 0x4 && Flip(3) == 0x8
    ensures Flip(4) == 0x10 && Flip(5) == 0x20 && Flip(6) == 0x40 && Flip(7) == 0x80
    ensures Flip(8) == 0x100 && Flip(9) == 0x200 && Flip(10) == 0x400 && Flip(11) == 0x800
    ensures Flip(12) == 0x1000 && Flip(13) == 0x2000 && Flip(14) == 0x4000 && Flip(15) == 0x8000
  {
    assert Flip(4) == 0x10;
    assert Flip(8) == 0x100;
    assert Flip(12) == 0x1000;
  }

  lemma XPowerTable()
    ensures XPower(0) == 1 && XPower(1) == 2 && XPower(2) == 4 && XPower(3) == 8
    ensures XPower(4) == 3 && XPower(5) == 6 && XPower(6) == 12 && XPower(7) == 11
    ensures XPower(8) == 5 && XPower(9) == 10 && XPower(10) == 7 && XPower(11) == 14
    ensures XPower(12) == 15 && XPower(13) == 13 && XPower(14) == 9 && XPower(15) == 1
  {
    assert XPower(4) == 3;
    assert XPower(8) == 5;
    assert XPower(12) == 15;
  }

  lemma FlipShifts(i: nat)
    requires 0 < i < 16
    ensures Half(Flip(i)) == Flip(i - 1) && Low(Flip(i)) == 0
    ensures i >= 4 ==> Payload(Flip(i)) == Flip(i - 4) && CrcField(Flip(i)) == 0
    ensures i < 4 ==> Payload(Flip(i)) == 0 && CrcField(Flip(i)) == XPower(i)
  {
    FlipTable();
    XPowerTable();
  }

  lemma {:induction false} ZeroBits(k: nat)
    ensures BitAt(0, k) == 0
  {
    if k > 0 { ZeroBits(k - 1); }
  }

  lemma {:induction false} FlipBits(i: nat, k: nat)
    requires i < 16
    ensures BitAt(Flip(i), k) == if i == k then 1 else 0
    decreases k
  {
    hide Flip;
    if i == 0 {
      FlipTable();
      if k > 0 { ZeroBits(k - 1); }
    } else {
      FlipShifts(i);
      if k > 0 { FlipBits(i - 1, k - 1); }
    }
  }

  /** Once the flipped bit is in, the register runs through the powers of x. */
  lemma {:induction false} RegisterRuns(m: nat, k: nat, n: nat)
    requires k <= m < 12
    ensures Crc4From(Flip(m), k, XPower(n)) == XPower(n + k)
  {
    hide Flip, BitAt, CrcBit;
    if k > 0 {
      FlipBits(m, k - 1);
      RegisterRuns(m, k - 1, n + 1);
    }
  }

  lemma {:induction false} RegisterWaits(m: nat, k: nat)
    requires m < k <= 12
    ensures Crc4From(Flip(m), k, 0) == XPower(m + 4)
  {
    hide Flip, BitAt;
    FlipBits(m, k - 1);
    if m == k - 1 {
      XPowerTable();
      RegisterRuns(m, m, 4);
    } else {
      RegisterWaits(m, k - 1);
    }
  }

  lemma CrcOfZero()
    ensures Crc4(0) == 0
  {
    hide Crc4;
    CrcXor(0, 0);
  }

  /** The syndrome of a single flipped bit is that power of x. */
  lemma FlipSyndrome(i: nat)
    requires i < 16
    ensures Syndrome(Flip(i)) == XPower(i)
  {
    hide Crc4From, Xor, Flip, XPower, Payload, CrcField;
    LowFlip(i);
    CrcOfZero();
    XorLaws(XPower(i), 0);
    if i >= 4 { RegisterWaits(i - 4, 12); }
  }

  lemma LowFlip(i: nat)
    requires i < 16
    ensures if i < 4 then Payload(Flip(i)) == 0 && CrcField(Flip(i)) == XPower(i)
            else Payload(Flip(i)) == Flip(i - 4) && CrcField(Flip(i)) == 0
  {
    if i > 0 { FlipShifts(i); }
  }

  lemma PowersDiffer(i: nat, j: nat)
    requires i < j < 16
    ensures XPower(i) != 0 && XPower(j) != 0
    ensures XPower(i) == XPower(j) <==> i == 0 && j == 15
  {
    XPowerTable();
  }

  /** CRC-4 alone catches every single error and misses one of the 120 double errors. */
  lemma CrcMissesOnePair(frame: bv16, i: nat, j: nat)
    requires i < j < 16 && Syndrome(frame) == 0
    ensures Syndrome(Xor(frame, Flip(i))) != 0 && Syndrome(Xor(frame, Flip(j))) != 0
    ensures Syndrome(Xor(frame, Xor(Flip(i), Flip(j)))) == 0 <==> i == 0 && j == 15
  {
    hide Syndrome, XPower, Flip, Xor;
    SyndromeIsLinear(frame, Flip(i));
    SyndromeIsLinear(frame, Flip(j));
    SyndromeIsLinear(frame, Xor(Flip(i), Flip(j)));
    SyndromeIsLinear(Flip(i), Flip(j));
    FlipSyndrome(i);
    FlipSyndrome(j);
    PowersDiffer(i, j);
    XorLaws(XPower(i), XPower(j));
    XorLaws(0, XPower(i));
    XorLaws(0, XPower(j));
    XorLaws(0, Syndrome(Xor(Flip(i), Flip(j))));
  }

  lemma OuterPairHitsVersion(frame: bv16)
    requires VersionField(frame) == VERSION
    ensures VersionField(Xor(frame, Xor(Flip(0), Flip(15)))) != VERSION
  {
    FlipTable();
  }

  /** Version and CRC together reject every one- and two-bit misreading of a valid frame. */
  lemma MisreadFrameIsInvalid(frame: bv16, i: nat, j: nat)
    requires ValidFrame(frame) && i < j < 16
    ensures !ValidFrame(Xor(frame, Flip(i))) && !ValidFrame(Xor(frame, Flip(j)))
    ensures !ValidFrame(Xor(frame, Xor(Flip(i), Flip(j))))
  {
    hide Syndrome, Flip, Xor, ValidFrame, VersionField;
    ValidMeansNoSyndrome(frame);
    CrcMissesOnePair(frame, i, j);
    ValidMeansNoSyndrome(Xor(frame, Flip(i)));
    ValidMeansNoSyndrome(Xor(frame, Flip(j)));
    ValidMeansNoSyndrome(Xor(frame, Xor(Flip(i), Flip(j))));
    OuterPairHitsVersion(frame);
  }
}
