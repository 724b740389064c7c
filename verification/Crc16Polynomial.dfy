/**
 Which CRC-16 it is. Data and checksum together, with the first two bytes inverted, are a
 multiple of x^16 + x^12 + x^5 + 1 exactly when the checksum is right; bits are taken most
 significant first.
 */
module Crc16Polynomial {
  import opened Crc
  import opened Polynomials

  /** The generator by its exponents. */
  function G16(): (g: Poly)
    ensures |g| == 17 && g[0]
  {
    Powers(16, {16, 12, 5, 0})
  }

  function Bit(b: byte, mask: byte): bool {
    b & mask != 0
  }

  /** The bits of a byte, most significant first. */
  function Bits(b: byte): (m: Poly)
    ensures |m| == 8
  {
    [Bit(b, 0x80), Bit(b, 0x40), Bit(b, 0x20), Bit(b, 0x10), Bit(b, 0x08), Bit(b, 0x04), Bit(b, 0x02), Bit(b, 0x01)]
  }

  function BitsOf(data: seq<byte>): Poly
    decreases |data|
  {
    if data == [] then [] else Bits(data[0]) + BitsOf(data[1..])
  }

  // --- the register fed bit by bit --------------------------------------------------------

  function Lead(b: bool): bv16 {
    if b then 0x8000 else 0
  }

  function Run(c: bv16, m: Poly): bv16
    decreases |m|
  {
    if m == [] then c else Run(Step16(Xor16(c, Lead(m[0]))), m[1..])
  }

  lemma {:induction false} RunAppend(c: bv16, a: Poly, b: Poly)
    ensures Run(c, a + b) == Run(Run(c, a), b)
    decreases |a|
  {
    hide Step16, Xor16, Lead;
    if a == [] {
      assert a + b == b;
    } else {
      RunAppend(Step16(Xor16(c, Lead(a[0]))), a[1..], b);
      assert (a + b)[1..] == a[1..] + b;
    }
  }

  lemma LeadOfSum(c: bv16, d: bv16, x: bool, y: bool)
    ensures Xor16(Xor16(c, d), Lead(x != y)) == Xor16(Xor16(c, Lead(x)), Xor16(d, Lead(y)))
  {
    hide Xor16;
    LeadPlus(x, y);
    PolyXor(c, d, Lead(x));
    Xor16Assoc(Xor16(c, Lead(x)), d, Lead(y));
    Xor16Assoc(Xor16(c, d), Lead(x), Lead(y));
  }

  lemma LeadPlus(x: bool, y: bool)
    ensures Lead(x != y) == Xor16(Lead(x), Lead(y))
  {
  }

  lemma {:induction false} RunLinear(c: bv16, d: bv16, a: Poly, b: Poly)
    requires |a| == |b|
    ensures Run(Xor16(c, d), Plus(a, b)) == Xor16(Run(c, a), Run(d, b))
    decreases |a|
  {
    hide Step16, Xor16, Lead;
    if a != [] {
      var c', d' := Xor16(c, Lead(a[0])), Xor16(d, Lead(b[0]));
      LeadOfSum(c, d, a[0], b[0]);
      Step16Linear(c', d');
      RunLinear(Step16(c'), Step16(d'), a[1..], b[1..]);
      assert Plus(a, b)[1..] == Plus(a[1..], b[1..]);
    }
  }

  lemma StepOfZero()
    ensures Step16(Xor16(0, Lead(false))) == 0
  {
  }

  lemma {:induction false} RunZeros(n: nat)
    ensures Run(0, Zeros(n)) == 0
  {
    hide Step16, Xor16, Lead;
    StepOfZero();
    if n > 0 {
      RunZeros(n - 1);
      assert Zeros(n)[1..] == Zeros(n - 1);
    }
  }

  // --- sixteen bits at once ---------------------------------------------------------------

  /** The register bit that a message bit k places ahead will become. */
  function Unit(k: nat): bv16 {
    if k == 0 then 0x8000 else Unit(k - 1) >> 1
  }

  lemma UnitTable()
    ensures Unit(0) == 0x8000 && Unit(1) == 0x4000 && Unit(2) == 0x2000 && Unit(3) == 0x1000
    ensures Unit(4) == 0x800 && Unit(5) == 0x400 && Unit(6) == 0x200 && Unit(7) == 0x100
    ensures Unit(8) == 0x80 && Unit(9) == 0x40 && Unit(10) == 0x20 && Unit(11) == 0x10
    ensures Unit(12) == 8 && Unit(13) == 4 && Unit(14) == 2 && Unit(15) == 1
  {
    assert Unit(3) == 0x1000;
    assert Unit(6) == 0x200;
    assert Unit(9) == 0x40;
    assert Unit(12) == 8;
  }

  lemma UnitSteps(k: nat)
    requires k < 15
    ensures Step16(Unit(k + 1)) == Unit(k) && !Top16(Unit(k + 1))
  {
    UnitTable();
  }

  function UnitIf(b: bool, k: nat): bv16 {
    if b then Unit(k) else 0
  }

  /** At most sixteen message bits as one word, the first one k places down from the top. */
  function Word(m: Poly, k: nat): bv16
    decreases |m|
  {
    if m == [] then 0 else Xor16(UnitIf(m[0], k), Word(m[1..], k + 1))
  }

  lemma TopOfZero()
    ensures !Top16(0) && Step16(0) == 0 && Xor16(0, 0) == 0
  {
  }

  lemma UnitIfSteps(b: bool, k: nat)
    requires k < 15
    ensures Step16(UnitIf(b, k + 1)) == UnitIf(b, k) && !Top16(UnitIf(b, k + 1))
  {
    hide Step16, Top16;
    TopOfZero();
    UnitSteps(k);
  }

  lemma {:induction false} WordSteps(m: Poly, k: nat)
    requires |m| + k <= 15
    ensures Step16(Word(m, k + 1)) == Word(m, k) && !Top16(Word(m, k + 1))
    decreases |m|
  {
    hide Step16, Top16, Xor16, UnitIf;
    TopOfZero();
    if m != [] {
      WordSteps(m[1..], k + 1);
      UnitIfSteps(m[0], k);
      Step16Linear(UnitIf(m[0], k + 1), Word(m[1..], k + 2));
      TopOfXor(UnitIf(m[0], k + 1), Word(m[1..], k + 2));
    }
  }

  lemma {:induction false} StepFirst(c: bv16, n: nat)
    ensures Steps16(Step16(c), n) == Steps16(c, n + 1)
    decreases n
  {
    hide Step16;
    if n > 0 { StepFirst(c, n - 1); }
  }

  /** Feeding at most sixteen bits one by one is adding them as one word first. */
  lemma {:induction false} RunIsSteps(c: bv16, m: Poly)
    requires |m| <= 16
    ensures Run(c, m) == Steps16(Xor16(c, Word(m, 0)), |m|)
    decreases |m|
  {
    hide Step16, Xor16, Word, Steps16;
    WordUnfold(m);
    if m == [] {
      XorZero(c);
    } else {
      var c' := Xor16(c, Lead(m[0]));
      RunIsSteps(Step16(c'), m[1..]);
      WordSteps(m[1..], 0);
      Step16Linear(c', Word(m[1..], 1));
      StepFirst(Xor16(c', Word(m[1..], 1)), |m| - 1);
      Xor16Assoc(c, Lead(m[0]), Word(m[1..], 1));
    }
  }

  lemma WordUnfold(m: Poly)
    ensures m == [] ==> Word(m, 0) == 0
    ensures m != [] ==> Word(m, 0) == Xor16(Lead(m[0]), Word(m[1..], 1))
    ensures forall c: bv16 :: Steps16(c, 0) == c
  {
    hide Xor16;
  }

  lemma XorZero(c: bv16)
    ensures Xor16(c, 0) == c
  {
  }

  lemma LeadIsTop(b: bool, w: bv16)
    requires !Top16(w) && Xor16(Lead(b), w) == 0
    ensures !b && w == 0
  {
  }

  lemma {:induction false} WordIsZero(m: Poly)
    requires |m| <= 16 && Word(m, 0) == 0
    ensures m == Zeros(|m|)
    decreases |m|
  {
    hide Word, Xor16, Top16, Step16;
    WordUnfold(m);
    if m != [] {
      WordSteps(m[1..], 0);
      LeadIsTop(m[0], Word(m[1..], 1));
      TopOfZero();
      WordIsZero(m[1..]);
      assert m == [false] + m[1..];
    }
  }

  lemma {:induction false} StepsOfZero(n: nat)
    ensures Steps16(0, n) == 0
    decreases n
  {
    hide Step16;
    TopOfZero();
    if n > 0 { StepsOfZero(n - 1); }
  }

  lemma ShortIsZero(m: Poly)
    requires |m| <= 16 && Run(0, m) == 0
    ensures m == Zeros(|m|)
  {
    hide Run, Step16, Xor16, Steps16;
    RunIsSteps(0, m);
    StepsOfZero(|m|);
    Xor16Self(Word(m, 0));
    Steps16Injective(Word(m, 0), 0, |m|);
    WordIsZero(m);
  }

  // --- bytes --------------------------------------------------------------------------------

  lemma WordAt(m: Poly, i: nat)
    requires i < |m|
    ensures Word(m[i..], i) == Xor16(UnitIf(m[i], i), Word(m[i + 1..], i + 1))
  {
    hide Xor16, UnitIf;
    assert m[i..][1..] == m[i + 1..];
  }

  lemma EightBits(m: Poly)
    requires |m| == 8
    ensures Word(m, 0)
         == Xor16(UnitIf(m[0], 0), Xor16(UnitIf(m[1], 1), Xor16(UnitIf(m[2], 2), Xor16(UnitIf(m[3], 3),
            Xor16(UnitIf(m[4], 4), Xor16(UnitIf(m[5], 5), Xor16(UnitIf(m[6], 6), Xor16(UnitIf(m[7], 7), 0))))))))
  {
    hide Xor16, UnitIf, Word;
    assert m[0..] == m && m[8..] == [];
    EmptyWord(8);
    WordAt(m, 0);
    WordAt(m, 1);
    WordAt(m, 2);
    WordAt(m, 3);
    WordAt(m, 4);
    WordAt(m, 5);
    WordAt(m, 6);
    WordAt(m, 7);
  }

  lemma EmptyWord(k: nat)
    ensures Word([], k) == 0
  {
  }

  lemma ByteIsItsBits(b: byte)
    ensures Xor16(UnitIf(Bit(b, 0x80), 0), Xor16(UnitIf(Bit(b, 0x40), 1), Xor16(UnitIf(Bit(b, 0x20), 2),
            Xor16(UnitIf(Bit(b, 0x10), 3), Xor16(UnitIf(Bit(b, 0x08), 4), Xor16(UnitIf(Bit(b, 0x04), 5),
            Xor16(UnitIf(Bit(b, 0x02), 6), Xor16(UnitIf(Bit(b, 0x01), 7), 0)))))))) == High(b)
  {
    UnitTable();
    hide Unit;
  }

  lemma RunByte(c: bv16, b: byte)
    ensures Run(c, Bits(b)) == Byte16(c, b)
  {
    hide Run, Steps16, Xor16, Word, UnitIf, Bit, High;
    RunIsSteps(c, Bits(b));
    EightBits(Bits(b));
    ByteIsItsBits(b);
  }

  /** The byte loop is the bit register. */
  lemma {:induction false} RunBytes(c: bv16, data: seq<byte>)
    ensures Run(c, BitsOf(data)) == Crc16From(c, data)
    decreases |data|
  {
    hide Byte16, Bits, Step16;
    if data != [] {
      RunAppend(c, Bits(data[0]), BitsOf(data[1..]));
      RunByte(c, data[0]);
      RunBytes(Byte16(c, data[0]), data[1..]);
    }
  }

  // --- the generator ---------------------------------------------------------------------------

  lemma GeneratorBits()
    ensures G16() == [true] + (Bits(0x10) + Bits(0x21))
  {
    assert |G16()| == |[true] + (Bits(0x10) + Bits(0x21))|;
  }

  lemma WordCancels(x: byte, y: byte)
    ensures x == 0x10 && y == 0x21 ==> Xor16(0x1021, Xor16(High(x), y as bv16)) == 0
    ensures Step16(Xor16(0, Lead(true))) == 0x1021
  {
  }

  lemma GeneratorIsZero()
    ensures Run(0, G16()) == 0
  {
    hide Step16, Xor16, Steps16, Bits, High, Lead, Run;
    GeneratorBits();
    var rest := Bits(0x10) + Bits(0x21);
    RunUnfold(0, true, rest);
    WordCancels(0x10, 0x21);
    RunAppend(0x1021, Bits(0x10), Bits(0x21));
    RunByte(0x1021, 0x10);
    RunByte(Byte16(0x1021, 0x10), 0x21);
    TwoBytesAreAWord(0x1021, 0x10, 0x21);
    StepsOfZero(8);
  }

  lemma RunUnfold(c: bv16, b: bool, m: Poly)
    ensures Run(c, [b] + m) == Run(Step16(Xor16(c, Lead(b))), m)
  {
    hide Step16, Xor16, Lead;
    assert ([b] + m)[1..] == m;
  }

  lemma RegisterKernel()
    ensures Kernel(m => Run(0, m) == 0, G16())
  {
    hide Run, G16, Step16, Xor16, Lead;
    var g := G16();
    forall m: Poly ensures Run(0, [false] + m) == Run(0, m) {
      RunUnfold(0, false, m);
      StepOfZero();
    }
    forall a: Poly, b: Poly | |a| == |b| && Run(0, a) == 0 && Run(0, b) == 0 ensures Run(0, Plus(a, b)) == 0 {
      RunLinear(0, 0, a, b);
      Xor16Self(0);
    }
    forall n: nat ensures Run(0, g + Zeros(n)) == 0 {
      RunAppend(0, g, Zeros(n));
      GeneratorIsZero();
      RunZeros(n);
    }
    forall m: Poly | |m| == |g| - 1 ensures Run(0, m) == 0 <==> m == Zeros(|m|) {
      if Run(0, m) == 0 { ShortIsZero(m); }
      RunZeros(|m|);
    }
  }

  /** Started at zero, the CRC is zero exactly for the multiples of the generator. */
  lemma Crc16Kernel(data: seq<byte>)
    ensures Crc16From(0, data) == 0 <==> Multiple(BitsOf(data), G16())
  {
    hide Run, G16, Kernel, Crc16From, BitsOf, Multiple;
    RegisterKernel();
    KernelIsMultiples(m => Run(0, m) == 0, G16(), BitsOf(data));
    RunBytes(0, data);
  }

  // --- initial value, checksum, check value ---------------------------------------------------------

  /** The first two bytes inverted. */
  function Inverted(data: seq<byte>): seq<byte>
    requires |data| >= 2
  {
    [!data[0], !data[1]] + data[2..]
  }

  lemma InvertedWord(x: byte, y: byte)
    ensures Xor16(0xFFFF, Xor16(High(x), y as bv16)) == Xor16(0, Xor16(High(!x), (!y) as bv16))
  {
  }

  lemma TwoFirst(c: bv16, data: seq<byte>)
    requires |data| >= 2
    ensures Crc16From(c, data) == Crc16From(Byte16(Byte16(c, data[0]), data[1]), data[2..])
  {
    hide Byte16;
    assert data == [data[0], data[1]] + data[2..];
    Crc16Append(c, [data[0], data[1]], data[2..]);
    TwoByteRun(c, data[0], data[1]);
  }

  /** The initial value 0xFFFF does no more than invert the first two bytes. */
  lemma InitialValueInverts(data: seq<byte>)
    requires |data| >= 2
    ensures Crc16From(0xFFFF, data) == Crc16From(0, Inverted(data))
  {
    hide Byte16, Eight16, Xor16, High, Crc16From;
    TwoFirst(0xFFFF, data);
    TwoFirst(0, Inverted(data));
    assert Inverted(data)[2..] == data[2..];
    TwoBytesAreAWord(0xFFFF, data[0], data[1]);
    TwoBytesAreAWord(0, !data[0], !data[1]);
    InvertedWord(data[0], data[1]);
  }

  lemma WordOfChecksum(crc: bv16, x: byte, y: byte)
    requires x == (crc >> 8) as byte && y == (crc & 0xFF) as byte
    ensures Xor16(High(x), y as bv16) == crc
  {
  }

  lemma ChecksumCancels(c: bv16, crc: bv16, x: byte, y: byte)
    requires x == (crc >> 8) as byte && y == (crc & 0xFF) as byte
    ensures Crc16From(c, [x, y]) == 0 <==> c == crc
  {
    hide Byte16, Eight16, Xor16, High, Crc16From, Steps16;
    TwoByteRun(c, x, y);
    TwoBytesAreAWord(c, x, y);
    WordOfChecksum(crc, x, y);
    EightOfZero();
    var w := Xor16(c, crc);
    if Eight16(Eight16(w)) == 0 {
      Eight16Injective(Eight16(w), 0);
      Eight16Injective(w, 0);
    }
    Xor16Zero(c, crc);
  }

  lemma EightOfZero()
    ensures Eight16(0) == 0
  {
    hide Steps16;
    StepsOfZero(8);
  }

  /**
   The checksum by polynomial arithmetic: a value is the CRC of the data exactly if data and value,
   high byte first, with the first two bytes inverted, are a multiple of the generator.
   */
  lemma Crc16IsRemainder(data: seq<byte>, crc: bv16)
    ensures Crc16(data) == crc <==>
            Multiple(BitsOf(Inverted(data + [(crc >> 8) as byte, (crc & 0xFF) as byte])), G16())
  {
    hide Crc16From, BitsOf, Multiple, G16, Inverted;
    var x, y := (crc >> 8) as byte, (crc & 0xFF) as byte;
    Crc16Append(0xFFFF, data, [x, y]);
    ChecksumCancels(Crc16(data), crc, x, y);
    InitialValueInverts(data + [x, y]);
    Crc16Kernel(Inverted(data + [x, y]));
  }

  lemma FeedAt(c: bv16, data: seq<byte>, i: nat)
    requires i < |data|
    ensures Crc16From(c, data[i..]) == Crc16From(Byte16(c, data[i]), data[i + 1..])
  {
    hide Byte16;
    assert data[i..][1..] == data[i + 1..];
  }

  lemma FedDigits()
    ensures Byte16(0xFFFF, 0x31) == 0xC782
    ensures Byte16(0xC782, 0x32) == 0x3DBA
    ensures Byte16(0x3DBA, 0x33) == 0x5BCE
    ensures Byte16(0x5BCE, 0x34) == 0x5349
    ensures Byte16(0x5349, 0x35) == 0x4560
    ensures Byte16(0x4560, 0x36) == 0x2EF4
    ensures Byte16(0x2EF4, 0x37) == 0x7718
    ensures Byte16(0x7718, 0x38) == 0xA12B
    ensures Byte16(0xA12B, 0x39) == 0x29B1
  {
    EightSteps16(Xor16(0xFFFF, High(0x31)));
    EightSteps16(Xor16(0xC782, High(0x32)));
    EightSteps16(Xor16(0x3DBA, High(0x33)));
    EightSteps16(Xor16(0x5BCE, High(0x34)));
    EightSteps16(Xor16(0x5349, High(0x35)));
    EightSteps16(Xor16(0x4560, High(0x36)));
    EightSteps16(Xor16(0x2EF4, High(0x37)));
    EightSteps16(Xor16(0x7718, High(0x38)));
    EightSteps16(Xor16(0xA12B, High(0x39)));
    hide Steps16;
  }

  /** The check value of the bytes "123456789". */
  lemma CheckValue()
    ensures Crc16([0x31, 0x32, 0x33, 0x34, 0x35, 0x36, 0x37, 0x38, 0x39]) == 0x29B1
  {
    hide Byte16, Crc16From;
    var data: seq<byte> := [0x31, 0x32, 0x33, 0x34, 0x35, 0x36, 0x37, 0x38, 0x39];
    FedDigits();
    assert data[0..] == data && data[9..] == [];
    FeedAt(0xFFFF, data, 0);
    FeedAt(0xC782, data, 1);
    FeedAt(0x3DBA, data, 2);
    FeedAt(0x5BCE, data, 3);
    FeedAt(0x5349, data, 4);
    FeedAt(0x4560, data, 5);
    FeedAt(0x2EF4, data, 6);
    FeedAt(0x7718, data, 7);
    FeedAt(0xA12B, data, 8);
    NothingFed(0x29B1);
  }

  lemma NothingFed(c: bv16)
    ensures Crc16From(c, []) == c
  {
  }
}
