/**
 The sender's retry timer compares readings of the 32-bit clock directly. Across the zero of
 the clock it therefore fires at once, again and again, until the retries are used up.
 */
module PushTimer {
  import opened Words
  import opened PushLayout
  import opened PushProtocol

  /** A timer set at true time t0 for `wait` ms has expired at true time t. */
  predicate Expired(t0: nat, wait: nat, t: nat) {
    !(U32(t) < U32(t0 + wait))
  }

  /** The timer never fires early exactly if the clock does not pass zero before it is due. */
  lemma NeverEarly(t0: nat, wait: nat)
    requires 0 < wait < TWO32
    ensures (forall t :: t0 <= t < t0 + wait ==> !Expired(t0, wait, t)) <==> t0 % TWO32 + wait < TWO32
  {
    if t0 % TWO32 + wait < TWO32 {
      forall t | t0 <= t < t0 + wait ensures !Expired(t0, wait, t) {
        SameTurn(t0, t - t0);
        SameTurn(t0, wait);
      }
    } else {
      NextTurn(t0, wait);
      assert Expired(t0, wait, t0);
    }
  }

  lemma SameTurn(t0: nat, d: nat)
    requires t0 % TWO32 + d < TWO32
    ensures U32(t0 + d) == t0 % TWO32 + d
  {
  }

  lemma NextTurn(t0: nat, d: nat)
    requires d < TWO32 <= t0 % TWO32 + d
    ensures U32(t0 + d) == t0 % TWO32 + d - TWO32
  {
  }

  /** The loop runs n times at the same reading of the clock. */
  function Passes(s: Sender, image: seq<bv8>, avail: nat, now: u32, n: nat): SOut
    requires s.Shaped() && (s.state == Pushing ==> |image| == s.size)
    decreases n
  {
    if n == 0 then SOut(s, [])
    else
      var o := SenderLoop(s, image, avail, now);
      if o.s.Shaped() && (o.s.state == Pushing ==> |image| == o.s.size) then
        var p := Passes(o.s, image, avail, now, n - 1);
        SOut(p.s, o.tx + p.tx)
      else o
  }

  /** One pass in the END phase while the new deadline wraps: one retry is gone, END is repeated. */
  lemma WrappedPass(s: Sender, image: seq<bv8>, avail: nat, now: u32)
    requires s.Shaped() && s.state == Pushing && |image| == s.size && s.endSent && s.retries <= 8
    requires s.deadline <= now && now + 2000 >= TWO32
    ensures U32(now + 2000) <= now
    ensures SenderLoop(s, image, avail, now)
         == if s.retries < 8 then SOut(s.(retries := s.retries + 1, deadline := U32(now + 2000)), [TxEnd])
            else SOut(s.(retries := 9, final := GaveUp, state := SFailed), [])
  {
    hide TotalFrames, Windows, SendWhole;
  }

  /**
   A sender that waits for the final answer while the clock is less than two seconds from
   zero gives up in nine passes of its loop, all in the same millisecond.
   */
  lemma {:induction false} GivesUpAtOnce(s: Sender, image: seq<bv8>, avail: nat, now: u32, n: nat)
    requires s.Shaped() && s.state == Pushing && |image| == s.size && s.endSent && s.retries + n == 9
    requires s.deadline <= now && now + 2000 >= TWO32 && n > 0
    ensures Passes(s, image, avail, now, n).s.state == SFailed && Passes(s, image, avail, now, n).s.final == GaveUp
    decreases n
  {
    hide TotalFrames, Windows, SenderLoop;
    WrappedPass(s, image, avail, now);
    if n > 1 { GivesUpAtOnce(s.(retries := s.retries + 1, deadline := U32(now + 2000)), image, avail, now, n - 1); }
  }
}
