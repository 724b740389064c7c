/** 32-bit frame masks: bit i stands for frame i of a window. */
module Masks {

  function And(a: bv32, b: bv32): bv32 {
    a & b
  }

  function Or(a: bv32, b: bv32): bv32 {
    a | b
  }

  function OneBit(i: nat): bv32 {
    if i == 0 then 1 else OneBit(i - 1) << 1
  }

  predicate HasBit(m: bv32, i: nat) {
    And(m, OneBit(i)) != 0
  }

  function SetBit(m: bv32, i: nat): bv32 {
    Or(m, OneBit(i))
  }

  /** (1 << r) - 1. */
  function LowMask(r: nat): bv32 {
    OneBit(r) - 1
  }

  /** The bits of `want` that are not in `have`. */
  function Missing(want: bv32, have: bv32): bv32 {
    want & !have
  }

  predicate Covers(have: bv32, want: bv32) {
    And(have, want) == want
  }

  lemma OneBitTable()
    ensures OneBit(0) == 0x1 && OneBit(1) == 0x2 && OneBit(2) == 0x4 && OneBit(3) == 0x8
    ensures OneBit(4) == 0x10 && OneBit(5) == 0x20 && OneBit(6) == 0x40 && OneBit(7) == 0x80
    ensures OneBit(8) == 0x100 && OneBit(9) == 0x200 && OneBit(10) == 0x400 && OneBit(11) == 0x800
    ensures OneBit(12) == 0x1000 && OneBit(13) == 0x2000 && OneBit(14) == 0x4000 && OneBit(15) == 0x8000
    ensures OneBit(16) == 0x1_0000
  {
    assert OneBit(4) == 0x10;
    assert OneBit(8) == 0x100;
    assert OneBit(12) == 0x1000;
    assert OneBit(16) == 0x1_0000;
  }

  lemma {:induction false} BitsAreDistinct(i: nat, j: nat)
    requires i < 16 && j < 16
    ensures HasBit(OneBit(i), j) <==> i == j
    decreases i
  {
    if i == 0 || j == 0 {
      OneBitTable();
    } else {
      hide And;
      OneBitSmall(i - 1);
      OneBitSmall(j - 1);
      BitsAreDistinct(i - 1, j - 1);
      ShiftMeets(OneBit(i - 1), OneBit(j - 1));
    }
  }

  lemma OneBitSmall(i: nat)
    requires i < 16
    ensures OneBit(i) < 0x1_0000
  {
    OneBitTable();
  }

  lemma ShiftMeets(a: bv32, b: bv32)
    requires a < 0x1_0000 && b < 0x1_0000
    ensures And(a << 1, b << 1) == 0 <==> And(a, b) == 0
  {
  }

  lemma OrMeets(a: bv32, b: bv32, c: bv32)
    ensures And(Or(a, b), c) == Or(And(a, c), And(b, c))
  {
  }

  lemma OrZero(a: bv32, b: bv32)
    ensures Or(a, b) == 0 <==> a == 0 && b == 0
    ensures And(0, a) == 0 && And(a, 0) == 0
  {
  }

  lemma SetBitBits(m: bv32, i: nat, j: nat)
    requires i < 16 && j < 16
    ensures HasBit(SetBit(m, i), j) <==> i == j || HasBit(m, j)
    ensures !HasBit(0, j)
  {
    hide OneBit, And, Or;
    BitsAreDistinct(i, j);
    OrMeets(m, OneBit(i), OneBit(j));
    OrZero(And(m, OneBit(j)), And(OneBit(i), OneBit(j)));
    OrZero(OneBit(j), 0);
  }

  lemma LowMaskStep(r: nat)
    requires r < 16
    ensures LowMask(r + 1) == SetBit(LowMask(r), r) && LowMask(0) == 0
  {
    OneBitTable();
  }

  /** A single bit is either wholly in a mask or wholly out of it. */
  lemma OneBitWhole(m: bv32, i: nat)
    requires i < 16
    ensures Covers(m, OneBit(i)) <==> HasBit(m, i)
    ensures And(m, OneBit(i)) == OneBit(i) || And(m, OneBit(i)) == 0
  {
    OneBitTable();
  }

  lemma CoversOr(m: bv32, a: bv32, b: bv32)
    ensures Covers(m, Or(a, b)) <==> Covers(m, a) && Covers(m, b)
    ensures Covers(m, 0)
  {
    hide And, Or, Missing;
    MissingIsZero(m, a);
    MissingIsZero(m, b);
    MissingIsZero(m, Or(a, b));
    MissingOr(m, a, b);
    OrZero(Missing(a, m), Missing(b, m));
    OrZero(m, 0);
  }

  lemma MissingOr(m: bv32, a: bv32, b: bv32)
    ensures Missing(Or(a, b), m) == Or(Missing(a, m), Missing(b, m))
  {
  }

  lemma {:induction false} LowMaskBits(r: nat, j: nat)
    requires r <= 16 && j < 16
    ensures HasBit(LowMask(r), j) <==> j < r
  {
    hide OneBit, LowMask, HasBit, SetBit;
    if r == 0 {
      LowMaskStep(0);
      SetBitBits(0, 0, j);
    } else {
      LowMaskStep(r - 1);
      LowMaskBits(r - 1, j);
      SetBitBits(LowMask(r - 1), r - 1, j);
    }
  }

  /** "All of the first r frames are here", on the mask and frame by frame. */
  lemma {:induction false} CoversLowMask(have: bv32, r: nat)
    requires r <= 16
    ensures Covers(have, LowMask(r)) <==> forall j :: 0 <= j < r ==> HasBit(have, j)
  {
    hide OneBit, LowMask, HasBit, Covers, Or;
    if r == 0 {
      LowMaskStep(0);
      CoversOr(have, 0, 0);
    } else {
      LowMaskStep(r - 1);
      CoversLowMask(have, r - 1);
      CoversOr(have, LowMask(r - 1), OneBit(r - 1));
      OneBitWhole(have, r - 1);
    }
  }

  /** The acknowledged bitmap names exactly the wanted frames not yet received. */
  lemma MissingBits(have: bv32, r: nat, j: nat)
    requires r <= 16 && j < 16
    ensures HasBit(Missing(LowMask(r), have), j) <==> j < r && !HasBit(have, j)
  {
    OneBitTable();
    hide OneBit, LowMask, And, Missing;
    LowMaskBits(r, j);
    OneBitWhole(have, j);
    MissingMeets(LowMask(r), have, OneBit(j));
  }

  lemma MissingMeets(want: bv32, have: bv32, c: bv32)
    requires And(have, c) == c || And(have, c) == 0
    requires c != 0
    ensures And(Missing(want, have), c) != 0 <==> And(want, c) != 0 && And(have, c) == 0
  {
    hide And, Missing;
    if And(have, c) == c { MissingDrops(want, have, c); } else { MissingKeeps(want, have, c); }
  }

  lemma MissingDrops(want: bv32, have: bv32, c: bv32)
    requires And(have, c) == c
    ensures And(Missing(want, have), c) == 0
  {
  }

  lemma MissingKeeps(want: bv32, have: bv32, c: bv32)
    requires And(have, c) == 0
    ensures And(Missing(want, have), c) == And(want, c)
  {
  }

  lemma MissingIsZero(have: bv32, want: bv32)
    ensures Missing(want, have) == 0 <==> Covers(have, want)
  {
  }
}
