/**
 Which CRC-32 it is: the frame check sequence of clause 3.2.9 of IEEE 802.3-2018. Data and
 complemented checksum together, with the first four bytes inverted, are a multiple of its
 generator exactly when the checksum is right; bits are taken least significant first.
 */
module Crc32Polynomial {
  import opened Crc
  import opened Polynomials

  /** The generator by its exponents. */
  function G32(): (g: Poly)
    ensures |g| == 33 && g[0]
  {
    Powers(32, {32, 26, 23, 22, 16, 12, 11, 10, 8, 7, 5, 4, 2, 1, 0})
  }

  function Bit(b: byte, mask: byte): bool {
    b & mask != 0
  }

  /** The bits of a byte, least significant first. */
  function Bits(b: byte): (m: Poly)
    ensures |m| == 8
  {
    [Bit(b, 0x01), Bit(b, 0x02), Bit(b, 0x04), Bit(b, 0x08), Bit(b, 0x10), Bit(b, 0x20), Bit(b, 0x40), Bit(b, 0x80)]
  }

  function BitsOf(data: seq<byte>): Poly
    decreases |data|
  {
    if data == [] then [] else Bits(data[0]) + BitsOf(data[1..])
  }

  // --- the register fed bit by bit --------------------------------------------------------

  function Lead(b: bool): bv32 {
    if b then 1 else 0
  }

  function Run(c: bv32, m: Poly): bv32
    decreases |m|
  {
    if m == [] then c else Run(Step32(Xor32(c, Lead(m[0]))), m[1..])
  }

  lemma {:induction false} RunAppend(c: bv32, a: Poly, b: Poly)
    ensures Run(c, a + b) == Run(Run(c, a), b)
    decreases |a|
  {
    hide Step32, Xor32, Lead;
    if a == [] {
      assert a + b == b;
    } else {
      RunAppend(Step32(Xor32(c, Lead(a[0]))), a[1..], b);
      assert (a + b)[1..] == a[1..] + b;
    }
  }

  lemma LeadOfSum(c: bv32, d: bv32, x: bool, y: bool)
    ensures Xor32(Xor32(c, d), Lead(x != y)) == Xor32(Xor32(c, Lead(x)), Xor32(d, Lead(y)))
  {
    hide Xor32;
    LeadPlus(x, y);
    PolyXor32(c, d, Lead(x));
    Xor32Assoc(Xor32(c, Lead(x)), d, Lead(y));
    Xor32Assoc(Xor32(c, d), Lead(x), Lead(y));
  }

  lemma LeadPlus(x: bool, y: bool)
    ensures Lead(x != y) == Xor32(Lead(x), Lead(y))
  {
  }

  lemma {:induction false} RunLinear(c: bv32, d: bv32, a: Poly, b: Poly)
    requires |a| == |b|
    ensures Run(Xor32(c, d), Plus(a, b)) == Xor32(Run(c, a), Run(d, b))
    decreases |a|
  {
    hide Step32, Xor32, Lead;
    if a != [] {
      var c', d' := Xor32(c, Lead(a[0])), Xor32(d, Lead(b[0]));
      LeadOfSum(c, d, a[0], b[0]);
      Step32Linear(c', d');
      RunLinear(Step32(c'), Step32(d'), a[1..], b[1..]);
      assert Plus(a, b)[1..] == Plus(a[1..], b[1..]);
    }
  }

  lemma StepOfZero()
    ensures Step32(Xor32(0, Lead(false))) == 0
  {
  }

  lemma {:induction false} RunZeros(n: nat)
    ensures Run(0, Zeros(n)) == 0
  {
    hide Step32, Xor32, Lead;
    StepOfZero();
    if n > 0 {
      RunZeros(n - 1);
      assert Zeros(n)[1..] == Zeros(n - 1);
    }
  }

  // --- thirty-two bits at once ---------------------------------------------------------------

  /** The register bit that a message bit k places ahead will become. */
  function Unit(k: nat): bv32 {
    if k == 0 then 1 else Unit(k - 1) << 1
  }

  lemma UnitTable()
    ensures Unit(0) == 0x1 && Unit(1) == 0x2 && Unit(2) == 0x4 && Unit(3) == 0x8
    ensures Unit(4) == 0x10 && Unit(5) == 0x20 && Unit(6) == 0x40 && Unit(7) == 0x80
    ensures Unit(8) == 0x100 && Unit(9) == 0x200 && Unit(10) == 0x400 && Unit(11) == 0x800
    ensures Unit(12) == 0x1000 && Unit(13) == 0x2000 && Unit(14) == 0x4000 && Unit(15) == 0x8000
    ensures Unit(16) == 0x10000 && Unit(17) == 0x20000 && Unit(18) == 0x40000 && Unit(19) == 0x80000
    ensures Unit(20) == 0x100000 && Unit(21) == 0x200000 && Unit(22) == 0x400000 && Unit(23) == 0x800000
    ensures Unit(24) == 0x1000000 && Unit(25) == 0x2000000 && Unit(26) == 0x4000000 && Unit(27) == 0x8000000
    ensures Unit(28) == 0x10000000 && Unit(29) == 0x20000000 && Unit(30) == 0x40000000 && Unit(31) == 0x80000000
  {
    assert Unit(3) == 0x8;
    assert Unit(6) == 0x40;
    assert Unit(9) == 0x200;
    assert Unit(12) == 0x1000;
    assert Unit(15) == 0x8000;
    assert Unit(18) == 0x40000;
    assert Unit(21) == 0x200000;
    assert Unit(24) == 0x1000000;
    assert Unit(27) == 0x8000000;
    assert Unit(30) == 0x40000000;
  }

  lemma UnitSteps(k: nat)
    requires k < 31
    ensures Step32(Unit(k + 1)) == Unit(k) && !Low32(Unit(k + 1))
  {
    UnitTable();
  }

  function UnitIf(b: bool, k: nat): bv32 {
    if b then Unit(k) else 0
  }

  /** At most thirty-two message bits as one word, the first one k places up. */
  function Word(m: Poly, k: nat): bv32
    decreases |m|
  {
    if m == [] then 0 else Xor32(UnitIf(m[0], k), Word(m[1..], k + 1))
  }

  lemma TopOfZero()
    ensures !Low32(0) && Step32(0) == 0 && Xor32(0, 0) == 0
  {
  }

  lemma UnitIfSteps(b: bool, k: nat)
    requires k < 31
    ensures Step32(UnitIf(b, k + 1)) == UnitIf(b, k) && !Low32(UnitIf(b, k + 1))
  {
    hide Step32, Low32;
    TopOfZero();
    UnitSteps(k);
  }

  lemma {:induction false} WordSteps(m: Poly, k: nat)
    requires |m| + k <= 31
    ensures Step32(Word(m, k + 1)) == Word(m, k) && !Low32(Word(m, k + 1))
    decreases |m|
  {
    hide Step32, Low32, Xor32, UnitIf;
    TopOfZero();
    if m != [] {
      WordSteps(m[1..], k + 1);
      UnitIfSteps(m[0], k);
      Step32Linear(UnitIf(m[0], k + 1), Word(m[1..], k + 2));
      LowAndShift(UnitIf(m[0], k + 1), Word(m[1..], k + 2));
    }
  }

  lemma {:induction false} StepFirst(c: bv32, n: nat)
    ensures Steps32(Step32(c), n) == Steps32(c, n + 1)
    decreases n
  {
    hide Step32;
    if n > 0 { StepFirst(c, n - 1); }
  }

  /** Feeding at most thirty-two bits one by one is adding them as one word first. */
  lemma {:induction false} RunIsSteps(c: bv32, m: Poly)
    requires |m| <= 32
    ensures Run(c, m) == Steps32(Xor32(c, Word(m, 0)), |m|)
    decreases |m|
  {
    hide Step32, Xor32, Word, Steps32;
    WordUnfold(m);
    if m == [] {
      XorZero(c);
    } else {
      var c' := Xor32(c, Lead(m[0]));
      RunIsSteps(Step32(c'), m[1..]);
      WordSteps(m[1..], 0);
      Step32Linear(c', Word(m[1..], 1));
      StepFirst(Xor32(c', Word(m[1..], 1)), |m| - 1);
      Xor32Assoc(c, Lead(m[0]), Word(m[1..], 1));
    }
  }

  lemma WordUnfold(m: Poly)
    ensures m == [] ==> Word(m, 0) == 0
    ensures m != [] ==> Word(m, 0) == Xor32(Lead(m[0]), Word(m[1..], 1))
    ensures forall c: bv32 :: Steps32(c, 0) == c
  {
    hide Xor32;
  }

  lemma XorZero(c: bv32)
    ensures Xor32(c, 0) == c
  {
  }

  lemma LeadIsLow(b: bool, w: bv32)
    requires !Low32(w) && Xor32(Lead(b), w) == 0
    ensures !b && w == 0
  {
  }

  lemma {:induction false} WordIsZero(m: Poly)
    requires |m| <= 32 && Word(m, 0) == 0
    ensures m == Zeros(|m|)
    decreases |m|
  {
    hide Word, Xor32, Low32, Step32;
    WordUnfold(m);
    if m != [] {
      WordSteps(m[1..], 0);
      LeadIsLow(m[0], Word(m[1..], 1));
      TopOfZero();
      WordIsZero(m[1..]);
      assert m == [false] + m[1..];
    }
  }

  lemma {:induction false} StepsOfZero(n: nat)
    ensures Steps32(0, n) == 0
    decreases n
  {
    hide Step32;
    TopOfZero();
    if n > 0 { StepsOfZero(n - 1); }
  }

  lemma ShortIsZero(m: Poly)
    requires |m| <= 32 && Run(0, m) == 0
    ensures m == Zeros(|m|)
  {
    hide Run, Step32, Xor32, Steps32;
    RunIsSteps(0, m);
    StepsOfZero(|m|);
    Xor32Self(Word(m, 0));
    Steps32Injective(Word(m, 0), 0, |m|);
    WordIsZero(m);
  }

  // --- bytes --------------------------------------------------------------------------------

  lemma WordAt(m: Poly, i: nat)
    requires i < |m|
    ensures Word(m[i..], i) == Xor32(UnitIf(m[i], i), Word(m[i + 1..], i + 1))
  {
    hide Xor32, UnitIf;
    assert m[i..][1..] == m[i + 1..];
  }

  lemma EightBits(m: Poly)
    requires |m| == 8
    ensures Word(m, 0)
         == Xor32(UnitIf(m[0], 0), Xor32(UnitIf(m[1], 1), Xor32(UnitIf(m[2], 2), Xor32(UnitIf(m[3], 3),
            Xor32(UnitIf(m[4], 4), Xor32(UnitIf(m[5], 5), Xor32(UnitIf(m[6], 6), Xor32(UnitIf(m[7], 7), 0))))))))
  {
    hide Xor32, UnitIf, Word;
    assert m[0..] == m && m[8..] == [];
    EmptyWord(8);
    WordAt(m, 0);
    WordAt(m, 1);
    WordAt(m, 2);
    WordAt(m, 3);
    WordAt(m, 4);
    WordAt(m, 5);
    WordAt(m, 6);
    WordAt(m, 7);
  }

  lemma EmptyWord(k: nat)
    ensures Word([], k) == 0
  {
  }

  lemma ByteIsItsBits(b: byte)
    ensures Xor32(UnitIf(Bit(b, 0x01), 0), Xor32(UnitIf(Bit(b, 0x02), 1), Xor32(UnitIf(Bit(b, 0x04), 2),
            Xor32(UnitIf(Bit(b, 0x08), 3), Xor32(UnitIf(Bit(b, 0x10), 4), Xor32(UnitIf(Bit(b, 0x20), 5),
            Xor32(UnitIf(Bit(b, 0x40), 6), Xor32(UnitIf(Bit(b, 0x80), 7), 0)))))))) == At(b, 0)
  {
    UnitTable();
    hide Unit;
  }

  lemma RunByte(c: bv32, b: byte)
    ensures Run(c, Bits(b)) == Byte32(c, b)
  {
    hide Run, Steps32, Xor32, Word, UnitIf, Bit, At;
    RunIsSteps(c, Bits(b));
    EightBits(Bits(b));
    ByteIsItsBits(b);
  }

  /** The byte loop is the bit register. */
  lemma {:induction false} RunBytes(c: bv32, data: seq<byte>)
    ensures Run(c, BitsOf(data)) == Raw32(c, data)
    decreases |data|
  {
    hide Byte32, Bits, Step32;
    if data != [] {
      RunAppend(c, Bits(data[0]), BitsOf(data[1..]));
      RunByte(c, data[0]);
      RunBytes(Byte32(c, data[0]), data[1..]);
    }
  }

  // --- the generator ---------------------------------------------------------------------------

  lemma GeneratorBits()
    ensures G32() == [true] + (Bits(0x20) + (Bits(0x83) + (Bits(0xB8) + Bits(0xED))))
  {
    assert |G32()| == |[true] + (Bits(0x20) + (Bits(0x83) + (Bits(0xB8) + Bits(0xED))))|;
  }

  lemma FirstStep()
    ensures Step32(Xor32(0, Lead(true))) == 0xEDB8_8320
  {
  }

  lemma WordCancels(w: seq<byte>)
    requires w == [0x20, 0x83, 0xB8, 0xED]
    ensures Word32(0xEDB8_8320, w) == 0
  {
  }

  lemma BitsOfFour(w: seq<byte>)
    requires |w| == 4
    ensures BitsOf(w) == Bits(w[0]) + (Bits(w[1]) + (Bits(w[2]) + Bits(w[3])))
  {
    hide Bits;
    assert w[1..][1..] == w[2..] && w[2..][1..] == w[3..] && w[3..][1..] == [];
    assert BitsOf(w[3..]) == Bits(w[3]) + [];
    assert BitsOf(w[2..]) == Bits(w[2]) + BitsOf(w[3..]);
    assert BitsOf(w[1..]) == Bits(w[1]) + BitsOf(w[2..]);
  }

  lemma GeneratorIsZero()
    ensures Run(0, G32()) == 0
  {
    hide Step32, Xor32, Steps32, Bits, BitsOf, At, Lead, Run, Word32, Byte32;
    GeneratorBits();
    var w: seq<byte> := [0x20, 0x83, 0xB8, 0xED];
    BitsOfFour(w);
    RunUnfold(0, true, BitsOf(w));
    FirstStep();
    RunBytes(0xEDB8_8320, w);
    FourByteRun(0xEDB8_8320, w);
    FourBytesAreAWord(0xEDB8_8320, w);
    WordCancels(w);
    EightOfZero();
  }

  lemma EightOfZero()
    ensures Eight32(0) == 0
  {
    hide Steps32;
    StepsOfZero(8);
  }

  lemma RunUnfold(c: bv32, b: bool, m: Poly)
    ensures Run(c, [b] + m) == Run(Step32(Xor32(c, Lead(b))), m)
  {
    hide Step32, Xor32, Lead;
    assert ([b] + m)[1..] == m;
  }

  lemma RegisterKernel()
    ensures Kernel(m => Run(0, m) == 0, G32())
  {
    hide Run, G32, Step32, Xor32, Lead;
    var g := G32();
    forall m: Poly ensures Run(0, [false] + m) == Run(0, m) {
      RunUnfold(0, false, m);
      StepOfZero();
    }
    forall a: Poly, b: Poly | |a| == |b| && Run(0, a) == 0 && Run(0, b) == 0 ensures Run(0, Plus(a, b)) == 0 {
      RunLinear(0, 0, a, b);
      Xor32Self(0);
    }
    forall n: nat ensures Run(0, g + Zeros(n)) == 0 {
      RunAppend(0, g, Zeros(n));
      GeneratorIsZero();
      RunZeros(n);
    }
    forall m: Poly | |m| == |g| - 1 ensures Run(0, m) == 0 <==> m == Zeros(|m|) {
      if Run(0, m) == 0 { ShortIsZero(m); }
      RunZeros(|m|);
    }
  }

  /** Started at zero and without the final inversion, the CRC is zero exactly for the multiples of the generator. */
  lemma Crc32Kernel(data: seq<byte>)
    ensures Raw32(0, data) == 0 <==> Multiple(BitsOf(data), G32())
  {
    hide Run, G32, Kernel, Raw32, BitsOf, Multiple;
    RegisterKernel();
    KernelIsMultiples(m => Run(0, m) == 0, G32(), BitsOf(data));
    RunBytes(0, data);
  }

  // --- the two inversions, checksum, check value ----------------------------------------------------

  /** The first four bytes inverted. */
  function Inverted(data: seq<byte>): seq<byte>
    requires |data| >= 4
  {
    [!data[0], !data[1], !data[2], !data[3]] + data[4..]
  }

  lemma InvertedWord(w: seq<byte>)
    requires |w| == 4
    ensures Word32(0xFFFF_FFFF, w) == Word32(0, [!w[0], !w[1], !w[2], !w[3]])
  {
    InvertedBytes(w[0], w[1], w[2], w[3]);
  }

  lemma InvertedBytes(a: byte, b: byte, c: byte, d: byte)
    ensures Xor32(Xor32(Xor32(Xor32(0xFFFF_FFFF, At(a, 0)), At(b, 1)), At(c, 2)), At(d, 3))
         == Xor32(Xor32(Xor32(Xor32(0, At(!a, 0)), At(!b, 1)), At(!c, 2)), At(!d, 3))
  {
  }

  /** Four bytes at once. */
  lemma FourFirst(c: bv32, w: seq<byte>)
    requires |w| == 4
    ensures Raw32(c, w) == Eight32(Eight32(Eight32(Eight32(Word32(c, w)))))
  {
    hide Byte32, Eight32, Word32, Raw32;
    FourByteRun(c, w);
    FourBytesAreAWord(c, w);
  }

  /** The inversion at the start does no more than invert the first four bytes. */
  lemma StartInverts(data: seq<byte>)
    requires |data| >= 4
    ensures Raw32(0xFFFF_FFFF, data) == Raw32(0, Inverted(data))
  {
    hide Raw32, Eight32, Word32;
    var w := data[..4];
    var v: seq<byte> := [!w[0], !w[1], !w[2], !w[3]];
    assert data == w + data[4..] && Inverted(data) == v + data[4..];
    Raw32Append(0xFFFF_FFFF, w, data[4..]);
    Raw32Append(0, v, data[4..]);
    FourFirst(0xFFFF_FFFF, w);
    FourFirst(0, v);
    InvertedWord(w);
  }

  /** The four bytes of a word, lowest first. */
  function BytesOf(v: bv32): (w: seq<byte>)
    ensures |w| == 4
  {
    [(v & 0xFF) as byte, ((v >> 8) & 0xFF) as byte, ((v >> 16) & 0xFF) as byte, (v >> 24) as byte]
  }

  lemma WordOfBytes(c: bv32, v: bv32)
    ensures Word32(c, BytesOf(v)) == Xor32(c, v)
  {
    hide Xor32, At;
    var w := BytesOf(v);
    BytesMakeTheWord(v);
    Xor32Assoc(c, At(w[0], 0), At(w[1], 1));
    Xor32Assoc(c, Xor32(At(w[0], 0), At(w[1], 1)), At(w[2], 2));
    Xor32Assoc(c, Xor32(Xor32(At(w[0], 0), At(w[1], 1)), At(w[2], 2)), At(w[3], 3));
  }

  lemma BytesMakeTheWord(v: bv32)
    ensures var w := BytesOf(v);
      Xor32(Xor32(Xor32(At(w[0], 0), At(w[1], 1)), At(w[2], 2)), At(w[3], 3)) == v
  {
    FourShifts(v);
  }

  lemma FourShifts(v: bv32)
    ensures Xor32(Xor32(Xor32(At((v & 0xFF) as byte, 0), At(((v >> 8) & 0xFF) as byte, 1)),
                        At(((v >> 16) & 0xFF) as byte, 2)), At((v >> 24) as byte, 3)) == v
  {
  }

  lemma ChecksumCancels(c: bv32, v: bv32)
    ensures Raw32(c, BytesOf(v)) == 0 <==> c == v
  {
    hide Raw32, Eight32, Xor32, Word32, BytesOf;
    FourFirst(c, BytesOf(v));
    WordOfBytes(c, v);
    EightOfZero();
    var w := Xor32(c, v);
    if Eight32(Eight32(Eight32(Eight32(w)))) == 0 {
      Eight32Injective(Eight32(Eight32(Eight32(w))), 0);
      Eight32Injective(Eight32(Eight32(w)), 0);
      Eight32Injective(Eight32(w), 0);
      Eight32Injective(w, 0);
    }
    Xor32Zero(c, v);
  }

  lemma NotOfZero()
    ensures Not32(0) == 0xFFFF_FFFF
  {
  }

  lemma NotMoves(c: bv32, crc: bv32)
    ensures Not32(c) == crc <==> c == Not32(crc)
  {
    hide Not32;
    Not32Twice(c);
    Not32Twice(crc);
  }

  /**
   The checksum by polynomial arithmetic: a value is the CRC of the data exactly if data and
   complemented value, low byte first, with the first four bytes inverted, are a multiple of the
   generator.
   */
  lemma Crc32IsRemainder(data: seq<byte>, crc: bv32)
    ensures Crc32(0, data) == crc <==> Multiple(BitsOf(Inverted(data + BytesOf(Not32(crc)))), G32())
  {
    hide Raw32, BitsOf, Multiple, G32, Inverted, Not32, BytesOf;
    var w := BytesOf(Not32(crc));
    NotOfZero();
    NotMoves(Raw32(0xFFFF_FFFF, data), crc);
    Raw32Append(0xFFFF_FFFF, data, w);
    ChecksumCancels(Raw32(0xFFFF_FFFF, data), Not32(crc));
    StartInverts(data + w);
    Crc32Kernel(Inverted(data + w));
  }

  lemma FeedAt(c: bv32, data: seq<byte>, i: nat)
    requires i < |data|
    ensures Raw32(c, data[i..]) == Raw32(Byte32(c, data[i]), data[i + 1..])
  {
    hide Byte32;
    assert data[i..][1..] == data[i + 1..];
  }

  lemma FedDigits()
    ensures Byte32(0xFFFF_FFFF, 0x31) == 0x7C23_1048
    ensures Byte32(0x7C23_1048, 0x32) == 0xB0AC_BB32
    ensures Byte32(0xB0AC_BB32, 0x33) == 0x77B7_9C2D
    ensures Byte32(0x77B7_9C2D, 0x34) == 0x641C_1F5C
    ensures Byte32(0x641C_1F5C, 0x35) == 0x340A_C5E3
    ensures Byte32(0x340A_C5E3, 0x36) == 0xF68D_2C9E
    ensures Byte32(0xF68D_2C9E, 0x37) == 0xAFFC_9660
    ensures Byte32(0xAFFC_9660, 0x38) == 0x651F_2550
    ensures Byte32(0x651F_2550, 0x39) == 0x340B_C6D9
  {
    EightSteps32(Xor32(0xFFFF_FFFF, At(0x31, 0)));
    EightSteps32(Xor32(0x7C23_1048, At(0x32, 0)));
    EightSteps32(Xor32(0xB0AC_BB32, At(0x33, 0)));
    EightSteps32(Xor32(0x77B7_9C2D, At(0x34, 0)));
    EightSteps32(Xor32(0x641C_1F5C, At(0x35, 0)));
    EightSteps32(Xor32(0x340A_C5E3, At(0x36, 0)));
    EightSteps32(Xor32(0xF68D_2C9E, At(0x37, 0)));
    EightSteps32(Xor32(0xAFFC_9660, At(0x38, 0)));
    EightSteps32(Xor32(0x651F_2550, At(0x39, 0)));
    hide Steps32;
  }

  lemma CheckInversions()
    ensures Not32(0) == 0xFFFF_FFFF && Not32(0x340B_C6D9) == 0xCBF4_3926
  {
  }

  /** The check value of the bytes "123456789". */
  lemma CheckValue()
    ensures Crc32(0, [0x31, 0x32, 0x33, 0x34, 0x35, 0x36, 0x37, 0x38, 0x39]) == 0xCBF4_3926
  {
    hide Byte32, Raw32, Not32;
    var data: seq<byte> := [0x31, 0x32, 0x33, 0x34, 0x35, 0x36, 0x37, 0x38, 0x39];
    FedDigits();
    CheckInversions();
    assert data[0..] == data && data[9..] == [];
    FeedAt(0xFFFF_FFFF, data, 0);
    FeedAt(0x7C23_1048, data, 1);
    FeedAt(0xB0AC_BB32, data, 2);
    FeedAt(0x77B7_9C2D, data, 3);
    FeedAt(0x641C_1F5C, data, 4);
    FeedAt(0x340A_C5E3, data, 5);
    FeedAt(0xF68D_2C9E, data, 6);
    FeedAt(0xAFFC_9660, data, 7);
    FeedAt(0x651F_2550, data, 8);
    EmptyRun(0x340B_C6D9);
  }
}
