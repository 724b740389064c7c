/**
 Polynomials with coefficients modulo 2, as bit sequences with the highest power first, and
 the one fact a cyclic redundancy check rests on: what a linear shift register with generator g
 maps to zero are exactly the multiples of g.
 */
module Polynomials {

  type Poly = seq<bool>

  function Zeros(n: nat): (z: Poly)
    ensures |z| == n && forall i :: 0 <= i < n ==> !z[i]
  {
    if n == 0 then [] else [false] + Zeros(n - 1)
  }

  /** The sum of these powers of x, up to x^n. */
  function Powers(n: nat, exponents: set<nat>): (p: Poly)
    ensures |p| == n + 1
  {
    seq(n + 1, i requires 0 <= i <= n => n - i in exponents)
  }

  /** Addition, coefficient by coefficient. */
  function Plus(a: Poly, b: Poly): (r: Poly)
    requires |a| == |b|
    ensures |r| == |a| && forall i :: 0 <= i < |a| ==> r[i] == (a[i] != b[i])
    decreases |a|
  {
    if a == [] then [] else [a[0] != b[0]] + Plus(a[1..], b[1..])
  }

  /** Multiplication: for every power of x in q one shifted copy of g. */
  function Times(q: Poly, g: Poly): (r: Poly)
    requires |g| > 0
    ensures |r| == |q| + |g| - 1
    decreases |q|
  {
    if q == [] then Zeros(|g| - 1)
    else Plus(Scaled(q[0], g) + Zeros(|q| - 1), [false] + Times(q[1..], g))
  }

  function Scaled(b: bool, g: Poly): (r: Poly)
    ensures |r| == |g|
  {
    if b then g else Zeros(|g|)
  }

  /** m, with any number of zeros in front, is a product with g. */
  ghost predicate Multiple(m: Poly, g: Poly)
    requires |g| > 0
  {
    exists q: Poly, n: nat :: Times(q, g) == Zeros(n) + m
  }

  // --- the kernel of a register -------------------------------------------------------------

  /**
   What is known of the bit sequences that a register of |g| - 1 bits maps to zero: leading zeros
   do not matter, sums are in it, so is g with zeros behind it, and nothing else so short.
   */
  ghost predicate Kernel(zero: Poly -> bool, g: Poly) {
    && |g| > 1 && g[0]
    && (forall m :: zero([false] + m) <==> zero(m))
    && (forall a, b :: |a| == |b| && zero(a) && zero(b) ==> zero(Plus(a, b)))
    && (forall n: nat :: zero(g + Zeros(n)))
    && (forall m :: |m| == |g| - 1 ==> (zero(m) <==> m == Zeros(|m|)))
  }

  lemma KernelShift(zero: Poly -> bool, g: Poly, m: Poly)
    requires Kernel(zero, g)
    ensures zero([false] + m) <==> zero(m)
  {
  }

  lemma KernelSum(zero: Poly -> bool, g: Poly, a: Poly, b: Poly)
    requires Kernel(zero, g) && |a| == |b| && zero(a) && zero(b)
    ensures zero(Plus(a, b))
  {
  }

  lemma KernelGenerator(zero: Poly -> bool, g: Poly, n: nat)
    requires Kernel(zero, g)
    ensures |g| > 1 && g[0] && zero(g + Zeros(n))
  {
  }

  lemma KernelShort(zero: Poly -> bool, g: Poly, m: Poly)
    requires Kernel(zero, g) && |m| == |g| - 1
    ensures zero(m) <==> m == Zeros(|m|)
  {
  }

  lemma PlusTwice(a: Poly, b: Poly)
    requires |a| == |b|
    ensures Plus(Plus(a, b), b) == a
  {
  }

  lemma PlusZeros(a: Poly)
    ensures Plus(Zeros(|a|), a) == a
  {
  }

  /** A product is in the kernel. */
  lemma {:induction false} ProductIsZero(zero: Poly -> bool, g: Poly, q: Poly)
    requires Kernel(zero, g) && |g| > 0
    ensures zero(Times(q, g))
    decreases |q|
  {
    hide Kernel;
    KernelGenerator(zero, g, if q == [] then 0 else |q| - 1);
    if q == [] {
      KernelShort(zero, g, Zeros(|g| - 1));
    } else {
      var a, b := Scaled(q[0], g) + Zeros(|q| - 1), [false] + Times(q[1..], g);
      ProductIsZero(zero, g, q[1..]);
      KernelShift(zero, g, Times(q[1..], g));
      if q[0] {
        KernelSum(zero, g, a, b);
      } else {
        assert a == Zeros(|b|);
        PlusZeros(b);
      }
    }
  }

  /** One step of long division: what is left has a zero in front. */
  lemma Divide(zero: Poly -> bool, g: Poly, m: Poly) returns (d: Poly)
    requires Kernel(zero, g) && |m| >= |g| > 0 && zero(m)
    ensures zero(d) && |d| == |m| - 1
    ensures m == Plus(Scaled(m[0], g) + Zeros(|m| - |g|), [false] + d)
  {
    hide Kernel;
    KernelGenerator(zero, g, |m| - |g|);
    var a := Scaled(m[0], g) + Zeros(|m| - |g|);
    var r := Plus(m, a);
    if m[0] {
      KernelSum(zero, g, m, a);
    } else {
      assert r == m;
    }
    d := r[1..];
    assert r == [false] + d;
    KernelShift(zero, g, d);
    PlusTwice(m, a);
    assert Plus(a, r) == m;
  }

  /** Long division: what the register maps to zero is a product. */
  lemma {:induction false} ZeroIsProduct(zero: Poly -> bool, g: Poly, m: Poly) returns (q: Poly)
    requires Kernel(zero, g) && |g| > 0 && |m| >= |g| - 1 && zero(m)
    ensures Times(q, g) == m
    decreases |m|
  {
    hide Kernel;
    if |m| == |g| - 1 {
      KernelShort(zero, g, m);
      q := [];
    } else {
      var d := Divide(zero, g, m);
      var rest := ZeroIsProduct(zero, g, d);
      q := [m[0]] + rest;
      assert q[1..] == rest;
    }
  }

  lemma {:induction false} LeadingZeros(zero: Poly -> bool, g: Poly, m: Poly, n: nat)
    requires Kernel(zero, g)
    ensures zero(Zeros(n) + m) <==> zero(m)
  {
    hide Kernel;
    if n == 0 {
      assert Zeros(0) + m == m;
    } else {
      LeadingZeros(zero, g, m, n - 1);
      KernelShift(zero, g, Zeros(n - 1) + m);
      assert Zeros(n) + m == [false] + (Zeros(n - 1) + m);
    }
  }

  /** The register ends at zero exactly for the multiples of its generator. */
  lemma KernelIsMultiples(zero: Poly -> bool, g: Poly, m: Poly)
    requires Kernel(zero, g) && |g| > 0
    ensures zero(m) <==> Multiple(m, g)
  {
    hide Kernel;
    if zero(m) {
      LeadingZeros(zero, g, m, |g|);
      var q := ZeroIsProduct(zero, g, Zeros(|g|) + m);
      assert Times(q, g) == Zeros(|g|) + m;
    }
    if Multiple(m, g) {
      var q: Poly, n: nat :| Times(q, g) == Zeros(n) + m;
      ProductIsZero(zero, g, q);
      LeadingZeros(zero, g, m, n);
    }
  }
}
