/**
 The sender's patience: what each expiry of its timer and each ack does to the retry count, and
 how many unanswered expiries it takes to give up.
 */
module PushRetries {
  import opened Words
  import opened Crc
  import opened Masks
  import opened PushLayout
  import opened PushProtocol
  import opened PushOutcome

  /** The timer has run out, in the sender's own comparison of the 32-bit clock. */
  predicate Due(s: Sender, now: u32) {
    s.state == Pushing && s.deadline <= now
  }

  /** Every expected frame can be read. */
  predicate Readable(avail: nat) {
    avail >= 16
  }

  function Patience(s: Sender): nat {
    if s.endSent then 8 else 20
  }

  function Pause(s: Sender): nat {
    if s.endSent then 2000 else 500
  }

  lemma {:induction false} AllAreRead(s: Sender, image: seq<byte>, mask: bv32, avail: nat, i: nat)
    requires s.total == TotalFrames(s.size) && |image| == s.size && i <= 16 && avail >= 16 - i
    ensures SendFrom(s, image, mask, avail, i).1
    decreases 16 - i
  {
    hide TotalFrames, FrameLen, HasBit, RawFrame;
    if i < 16 && HasBit(mask, i) {
      if s.window * WINDOW_FRAMES + i < s.total { AllAreRead(s, image, mask, avail - 1, i + 1); }
    } else if i < 16 {
      AllAreRead(s, image, mask, avail, i + 1);
    }
  }

  /** A window goes out, and its answer has half a second. */
  lemma WholeIsSent(s: Sender, image: seq<byte>, avail: nat, now: u32)
    requires s.total == TotalFrames(s.size) && |image| == s.size && Readable(avail)
    ensures SendWhole(s, image, avail, now)
         == SOut(s.(deadline := U32(now + 500)), SendFrom(s, image, WindowMask(s.total, s.window), avail, 0).0)
  {
    hide TotalFrames, SendFrom, WindowMask, U32;
    AllAreRead(s, image, WindowMask(s.total, s.window), avail, 0);
  }

  /** A push that is started begins from nothing, whatever the object did before: BEGIN, then window 0. */
  lemma StartBegins(s: Sender, image: seq<byte>, crc: bv32, avail: nat, now: u32)
    requires 0 < |image| < TWO32 && Readable(avail)
    ensures var o := Start(s, image, crc, avail, now);
      && o.s.state == Pushing && o.s.size == |image| && o.s.crc == crc && o.s.window == 0
      && !o.s.gotAnyAck && !o.s.endSent && o.s.retries == 0 && o.s.ackedBytes == 0 && o.s.final == NoneYet
      && o.s.deadline == U32(now + 500)
      && o.tx == [TxBegin(|image|, crc)] + SendFrom(o.s, image, WindowMask(o.s.total, 0), avail, 0).0
  {
    hide TotalFrames, Windows, SendFrom, WindowMask, U32, SendWhole;
    var b := s.(size := |image|, crc := crc, total := TotalFrames(|image|), windows := Windows(|image|), window := 0,
                gotAnyAck := false, endSent := false, retries := 0, ackedBytes := 0, final := NoneYet, state := Pushing);
    WholeIsSent(b, image, avail, now);
    SameFrames(b, U32(now + 500), image, WindowMask(b.total, 0), avail, 0);
  }

  lemma {:induction false} SameFrames(s: Sender, deadline: u32, image: seq<byte>, mask: bv32, avail: nat, i: nat)
    requires s.total == TotalFrames(s.size) && |image| == s.size && i <= 16
    ensures SendFrom(s.(deadline := deadline), image, mask, avail, i) == SendFrom(s, image, mask, avail, i)
    decreases 16 - i
  {
    hide TotalFrames, FrameLen, HasBit, RawFrame;
    if i < 16 && HasBit(mask, i) {
      if s.window * WINDOW_FRAMES + i < s.total && avail > 0 {
        SameFrames(s, deadline, image, mask, avail - 1, i + 1);
      }
    } else if i < 16 {
      SameFrames(s, deadline, image, mask, avail, i + 1);
    }
  }

  // --- one pass of the loop -----------------------------------------------------------------------

  /** What one pass of the loop does while everything can be read. */
  predicate Passed(s: Sender, now: u32, o: SOut) {
    if !Due(s, now) then o == SOut(s, [])
    else if s.retries >= Patience(s) then o == SOut(s.(retries := o.s.retries, final := GaveUp, state := SFailed), [])
    else
      && o.s == s.(retries := s.retries + 1, deadline := U32(now + Pause(s)))
      && (s.endSent ==> o.tx == [TxEnd])
      && (!s.endSent ==> (TxBegin(s.size, s.crc) in o.tx <==> !s.gotAnyAck))
      && (!s.endSent && !s.gotAnyAck ==> o.tx != [] && o.tx[0] == TxBegin(s.size, s.crc))
  }

  lemma {:induction false} OnlyFrames(s: Sender, image: seq<byte>, mask: bv32, avail: nat, i: nat)
    requires s.total == TotalFrames(s.size) && |image| == s.size && i <= 16
    ensures forall t :: t in SendFrom(s, image, mask, avail, i).0 ==> t.TxRaw?
    decreases 16 - i
  {
    hide TotalFrames, FrameLen, HasBit, RawFrame;
    if i < 16 && HasBit(mask, i) {
      if s.window * WINDOW_FRAMES + i < s.total && avail > 0 { OnlyFrames(s, image, mask, avail - 1, i + 1); }
    } else if i < 16 {
      OnlyFrames(s, image, mask, avail, i + 1);
    }
  }

  lemma LoopPasses(s: Sender, image: seq<byte>, avail: nat, now: u32)
    requires Ready(s, image) && Readable(avail) && s.retries <= 20
    ensures Passed(s, now, Next(s, image, Looped(avail, now)))
  {
    hide TotalFrames, Windows, SendWhole, SendFrom, WindowMask;
    if Due(s, now) && !s.endSent && s.retries < 20 {
      var n := s.(retries := s.retries + 1);
      WholeIsSent(n, image, avail, now);
      OnlyFrames(n, image, WindowMask(n.total, n.window), avail, 0);
    }
  }

  // --- a run without an answer ------------------------------------------------------------------------

  /** The loop is run again and again, at these readings of the clock, and nothing is heard. */
  ghost predicate Unanswered(image: seq<byte>, ss: seq<Sender>, times: seq<u32>, avails: seq<nat>) {
    && |ss| == |times| + 1 && |avails| == |times| && Ready(ss[0], image) && ss[0].state == Pushing && ss[0].retries == 0
    && (forall k :: 0 <= k < |avails| ==> Readable(avails[k]))
    && forall k :: 0 <= k < |times| && Ready(ss[k], image) ==>
         ss[k + 1] == Next(ss[k], image, Looped(avails[k], times[k])).s
  }

  /** How often the timer ran out among the first k passes. */
  function Expiries(ss: seq<Sender>, times: seq<u32>, k: nat): nat
    requires k <= |times| < |ss|
  {
    if k == 0 then 0 else Expiries(ss, times, k - 1) + (if Due(ss[k - 1], times[k - 1]) then 1 else 0)
  }

  lemma PassStaysReady(s: Sender, image: seq<byte>, now: u32, o: SOut)
    requires Ready(s, image) && Passed(s, now, o)
    ensures Ready(o.s, image) && o.s.endSent == s.endSent
  {
    hide TotalFrames, Windows;
  }

  /**
   Unanswered, the sender gives up at the 21st expiry of its timer while it sends windows and at
   the 9th once END is out, not earlier and not later; until then it counts them.
   */
  lemma {:induction false} GivesUpOnTime(image: seq<byte>, ss: seq<Sender>, times: seq<u32>, avails: seq<nat>, k: nat)
    requires Unanswered(image, ss, times, avails) && k < |ss|
    ensures Ready(ss[k], image) && ss[k].endSent == ss[0].endSent
    ensures var n := Expiries(ss, times, k); var most := if ss[0].endSent then 8 else 20;
      && n <= most + 1
      && (ss[k].state == Pushing <==> n <= most)
      && (n <= most ==> ss[k].retries == n)
      && (n > most ==> ss[k].state == SFailed && ss[k].final == GaveUp)
  {
    hide Ready, Next;
    if k > 0 {
      GivesUpOnTime(image, ss, times, avails, k - 1);
      if ss[k - 1].state == Pushing {
        LoopPasses(ss[k - 1], image, avails[k - 1], times[k - 1]);
      } else {
        LoopRests(ss[k - 1], image, avails[k - 1], times[k - 1]);
      }
      PassStaysReady(ss[k - 1], image, times[k - 1], Next(ss[k - 1], image, Looped(avails[k - 1], times[k - 1])));
    }
  }

  lemma LoopRests(s: Sender, image: seq<byte>, avail: nat, now: u32)
    requires Ready(s, image) && s.state != Pushing
    ensures Passed(s, now, Next(s, image, Looped(avail, now)))
  {
  }

  // --- acks --------------------------------------------------------------------------------------------------

  /** Sending a window leaves the counters alone. */
  lemma SendingCountsNothing(s: Sender, image: seq<byte>, mask: bv32, avail: nat)
    requires s.total == TotalFrames(s.size) && |image| == s.size
    ensures var o := SendWindow(s, image, mask, avail); o.s == s.(final := o.s.final, state := o.s.state)
  {
    hide TotalFrames, SendFrom;
  }

  lemma NextCountsNothing(s: Sender, image: seq<byte>, avail: nat, now: u32)
    requires s.total == TotalFrames(s.size) && |image| == s.size
    ensures var o := NextWindow(s, image, avail, now); o.s.retries == s.retries && o.s.gotAnyAck == s.gotAnyAck
  {
    hide TotalFrames, Windows, SendWindow, WindowMask, FramesIn, U32, U16;
    var n := s.(ackedBytes := Min(s.ackedBytes + FramesIn(s.total, s.window) * FRAME_DATA, s.size),
                window := U16(s.window + 1));
    SendingCountsNothing(n, image, WindowMask(n.total, n.window), avail);
  }

  /** Any ack at all, even a stale one, makes the sender patient again and stops its BEGINs. */
  lemma AckIsEncouraging(s: Sender, image: seq<byte>, a: Ack, avail: nat, now: u32)
    requires Ready(s, image) && s.state == Pushing
    ensures var o := OnAck(s, image, a, avail, now); o.s.retries == 0 && o.s.gotAnyAck
  {
    hide TotalFrames, Windows, SendWindow, NextWindow, U32;
    var n := s.(gotAnyAck := true, retries := 0);
    NextCountsNothing(n, image, avail, now);
    SendingCountsNothing(n, image, a.missing, avail);
  }

  /** An ack for another window changes nothing else and sends nothing. */
  lemma StaleAck(s: Sender, image: seq<byte>, a: Ack, avail: nat, now: u32)
    requires Ready(s, image) && s.state == Pushing && a.status == WindowAck && a.window != s.window
    ensures OnAck(s, image, a, avail, now) == SOut(s.(gotAnyAck := true, retries := 0), [])
  {
  }

  /** Missing frames of the current window are sent again, and their answer has half a second. */
  lemma RepairAck(s: Sender, image: seq<byte>, a: Ack, avail: nat, now: u32)
    requires Ready(s, image) && s.state == Pushing && a.status == WindowAck && a.window == s.window && a.missing != 0
    requires Readable(avail)
    ensures OnAck(s, image, a, avail, now)
         == SOut(s.(gotAnyAck := true, retries := 0, deadline := U32(now + 500)),
                 SendFrom(s.(gotAnyAck := true, retries := 0), image, a.missing, avail, 0).0)
  {
    hide TotalFrames, Windows, SendFrom, U32;
    AllAreRead(s.(gotAnyAck := true, retries := 0), image, a.missing, avail, 0);
  }

  /** The last window's ack sends END and gives it two seconds; any other one sends the next window. */
  lemma WholeAck(s: Sender, image: seq<byte>, a: Ack, avail: nat, now: u32)
    requires Ready(s, image) && s.state == Pushing && a.status == WindowAck && a.window == s.window && a.missing == 0
    requires Readable(avail) && s.window < 0xFFFF
    ensures var o := OnAck(s, image, a, avail, now);
      && o.s.state == Pushing && o.s.window == s.window + 1
      && (if s.window + 1 >= s.windows then o.tx == [TxEnd] && o.s.endSent && o.s.deadline == U32(now + 2000)
          else o.s.endSent == s.endSent && o.s.deadline == U32(now + 500) && forall t :: t in o.tx ==> t.TxRaw?)
  {
    hide TotalFrames, Windows, SendFrom, WindowMask, U32, SendWhole, FramesIn;
    var n := s.(gotAnyAck := true, retries := 0);
    NextStep(n, image, avail, now);
  }

  lemma NextStep(s: Sender, image: seq<byte>, avail: nat, now: u32)
    requires s.total == TotalFrames(s.size) && |image| == s.size && Readable(avail) && s.window < 0xFFFF
    requires s.state == Pushing
    ensures var o := NextWindow(s, image, avail, now);
      && o.s.state == Pushing && o.s.window == s.window + 1
      && (if s.window + 1 >= s.windows then o.tx == [TxEnd] && o.s.endSent && o.s.deadline == U32(now + 2000)
          else o.s.endSent == s.endSent && o.s.deadline == U32(now + 500) && forall t :: t in o.tx ==> t.TxRaw?)
  {
    hide TotalFrames, Windows, SendFrom, WindowMask, U32, SendWhole, FramesIn;
    var n := s.(ackedBytes := Min(s.ackedBytes + FramesIn(s.total, s.window) * FRAME_DATA, s.size), window := s.window + 1);
    NoWrap16(s.window + 1);
    WholeIsSent(n, image, avail, now);
    OnlyFrames(n, image, WindowMask(n.total, n.window), avail, 0);
  }

  lemma NoWrap16(x: nat)
    requires x < 0x1_0000
    ensures U16(x) == x
  {
  }

  // --- a read that fails -------------------------------------------------------------------------------------

  /** If a frame that is due cannot be read the push fails as a flash failure, with what went out before it. */
  lemma ReadFailureEnds(s: Sender, image: seq<byte>, mask: bv32, avail: nat)
    requires s.total == TotalFrames(s.size) && |image| == s.size && !SendFrom(s, image, mask, avail, 0).1
    ensures SendWindow(s, image, mask, avail)
         == SOut(s.(final := Reported(FinalFlash), state := SFailed), SendFrom(s, image, mask, avail, 0).0)
  {
    hide SendFrom, TotalFrames;
  }
}
