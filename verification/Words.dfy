/** Machine words, the wrapping millisecond clock and MAC addresses. */
module Words {

  const TWO8: nat := 0x100
  const TWO16: nat := 0x1_0000
  const TWO31: nat := 0x8000_0000
  const TWO32: nat := 0x1_0000_0000

  type u8 = x: nat | x < 0x100
  type u16 = x: nat | x < 0x1_0000
  type u32 = x: nat | x < 0x1_0000_0000

  /** Reduction of an exact integer to 32 bits, as uint32_t arithmetic does. */
  function U32(x: int): u32 {
    x % TWO32
  }

  function U16(x: int): u16 {
    x % TWO16
  }

  function U8(x: int): u8 {
    x % TWO8
  }

  function Min(a: nat, b: nat): nat {
    if a <= b then a else b
  }

  /** "At least `ms` passed since `since`", computed on 32-bit ticks. */
  predicate Elapsed(now: u32, since: u32, ms: nat) {
    U32(now - since) >= ms
  }

  /** The sign test `(int32_t)(now - until) >= 0`. */
  predicate Reached(now: u32, until: u32) {
    U32(now - until) < TWO31
  }

  /** On true times the wrapped test sees the true distance modulo 2^32. */
  lemma ElapsedIsDistance(t: nat, t0: nat, ms: nat)
    requires t0 <= t
    ensures Elapsed(U32(t), U32(t0), ms) <==> (t - t0) % TWO32 >= ms
    ensures Elapsed(U32(t), U32(t0), ms) ==> t - t0 >= ms
    ensures t - t0 < TWO32 ==> (Elapsed(U32(t), U32(t0), ms) <==> t - t0 >= ms)
  {
    assert U32(U32(t) - U32(t0)) == (t - t0) % TWO32;
  }

  /** The comparison is the sign of the wrapped difference read as a signed word. */
  lemma ReachedIsSign(now: u32, until: u32)
    ensures var d := (now - until) % 0x1_0000_0000;
      Reached(now, until) <==> (if d < 0x8000_0000 then d else d - 0x1_0000_0000) >= 0
  {
  }

  /** A deadline less than 2^31 ms ahead is never reported early, clock wrap or not. */
  lemma ReachedIsNotEarly(t: nat, t0: nat, wait: nat)
    requires t0 <= t && wait < TWO31
    requires Reached(U32(t), U32(t0 + wait))
    ensures t - t0 >= wait
  {
    assert U32(U32(t) - U32(t0 + wait)) == (t - t0 - wait) % TWO32;
  }

  // --- MAC addresses -------------------------------------------------------------

  type Mac = m: seq<u8> | |m| == 6 witness [0, 0, 0, 0, 0, 0]

  /** `memcmp(a, b, 6) < 0`: the first differing byte decides. */
  predicate MemcmpLess(a: Mac, b: Mac) {
    exists k :: 0 <= k < 6 && a[k] < b[k] && forall i :: 0 <= i < k ==> a[i] == b[i]
  }

  /** The address read as one 48-bit number, first byte most significant. */
  function MacValue(m: Mac): nat {
    (m[0] as int) * 0x100_0000_0000 + (m[1] as int) * 0x1_0000_0000 + (m[2] as int) * 0x100_0000 +
    (m[3] as int) * 0x1_0000 + (m[4] as int) * 0x100 + m[5]
  }

  /** "The numerically smaller MAC" and the byte comparison are the same order. */
  lemma MemcmpIsNumericOrder(a: Mac, b: Mac)
    ensures MemcmpLess(a, b) <==> MacValue(a) < MacValue(b)
    ensures MacValue(a) == MacValue(b) <==> a == b
  {
    if a != b {
      var k :| 0 <= k < 6 && a[k] != b[k] && forall i :: 0 <= i < k ==> a[i] == b[i] by {
        FirstDifference(a, b);
      }
      assert MacValue(a) < MacValue(b) <==> a[k] < b[k];
    }
  }

  lemma FirstDifference(a: Mac, b: Mac)
    requires a != b
    ensures exists k :: 0 <= k < 6 && a[k] != b[k] && forall i :: 0 <= i < k ==> a[i] == b[i]
  {
    var k := 0;
    while a[k] == b[k]
      invariant 0 <= k < 6 && forall i :: 0 <= i < k ==> a[i] == b[i]
      invariant exists j :: k <= j < 6 && a[j] != b[j]
      decreases 6 - k
    {
      k := k + 1;
    }
  }
}
