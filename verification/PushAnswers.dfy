/**
 What the receiver answers, and when, among arbitrary peers: the throttled answer to an old
 frame, the periodic ack, the answer to a complete window and to a failed write. Its two clocks
 are the times of the last ack it sent and of the last thing it heard.
 */
module PushAnswers {
  import opened Words
  import opened Crc
  import opened Masks
  import opened PushLayout
  import opened PushProtocol
  import opened PushIntegrity

  // --- a complete window ---------------------------------------------------------------------

  lemma {:induction false} WritesSucceed(r: Receiver, i: nat, good: nat)
    requires r.Shaped() && r.state == Receiving && r.window < Windows(r.size) && i <= FramesIn(r.total, r.window)
    ensures WriteFrames(r, i, good).1 <==> FramesIn(r.total, r.window) <= good || i == FramesIn(r.total, r.window)
    decreases FramesIn(r.total, r.window) - i
  {
    hide Crc32, TotalFrames, Windows, FrameLen, FramesIn, WriteFrames, Receiver.Shaped;
    WriteFramesUnfold(r, i, good);
    if i < FramesIn(r.total, r.window) && i < good {
      var n := FrameLen(r.size, r.window * WINDOW_FRAMES + i);
      var data := r.slots[i][..n];
      WritesSucceed(r.(flash := r.flash + data, crc := Crc32(r.crc, data), bytesDone := r.bytesDone + n), i + 1, good);
    }
  }

  lemma SomeFrames(r: Receiver)
    requires r.Shaped() && r.state == Receiving && r.window < Windows(r.size)
    ensures 0 < FramesIn(r.total, r.window) <= 16
  {
    CountsExact(r.size);
    hide TotalFrames, Windows;
    NoWrap(r.total - r.window * WINDOW_FRAMES);
  }

  /**
   A complete window is acknowledged twice and left behind if every write succeeds; if one fails
   the transfer has failed, which is said twice with the library's error.
   */
  lemma FinishDecides(r: Receiver, good: nat, now: u32)
    requires r.Shaped() && r.state == Receiving && r.window < Windows(r.size)
    ensures var o := FinishWindow(r, good, now);
      if FramesIn(r.total, r.window) <= good then
        && o.acks == [Ack(r.window, 0, WindowAck), Ack(r.window, 0, WindowAck)]
        && o.r.state == Receiving && o.r.window == r.window + 1 && o.r.have == 0
      else
        && o.acks == Twice(FinalFlash, r.libError)
        && o.r.state == RFailed && o.r.failCode == FinalFlash && o.r.updErr == r.libError
  {
    hide TotalFrames, Windows, WriteFrames, Receiver.Shaped, FramesIn;
    SomeFrames(r);
    WritesSucceed(r, 0, good);
    WriteFramesFrame(r, 0, good);
    WindowFits(r.size, r.window);
  }

  lemma WindowFits(size: u32, window: u16)
    requires window < Windows(size)
    ensures U16(window + 1) == window + 1
  {
    hide Windows;
  }

  // --- the two clocks ------------------------------------------------------------------------

  /** The input is something from the sender that the receiver takes notice of. */
  predicate Hears(r: Receiver, i: Input) {
    match i
    case Begin(size, _, ok, _) => r.state == Receiving || (size > 0 && ok)
    case End(_, _) => r.state == Receiving
    case Queue(_) => false
    case Pop(_, _) => r.state == Receiving && r.queue != []
    case Poll(_) => false
  }

  function TimeOf(i: Input): u32 {
    if i.Queue? then 0 else i.now
  }

  predicate KeepsClocks(r: Receiver, i: Input, o: Out) {
    && o.r.lastAck == (if o.acks == [] then r.lastAck else TimeOf(i))
    && o.r.lastRx == (if Hears(r, i) then TimeOf(i) else r.lastRx)
  }

  lemma InputKeepsClocks(r: Receiver, i: Input)
    requires r.Shaped() && Enabled(r, i)
    ensures KeepsClocks(r, i, Outcome(r, i))
  {
    hide Receiver.Shaped, OnBegin, OnEnd, PushProtocol.Pop, PushProtocol.Poll;
    match i
    case Begin(_, _, _, _) => BeginKeepsClocks(r, i);
    case End(_, _) => EndKeepsClocks(r, i);
    case Queue(_) =>
    case Pop(_, _) => PopKeepsClocks(r, i);
    case Poll(_) => PollKeepsClocks(r, i);
  }

  lemma BeginKeepsClocks(r: Receiver, i: Input)
    requires i.Begin? && (i.ok ==> i.size <= MAX_SIZE)
    ensures KeepsClocks(r, i, OnBegin(r, i.size, i.crc, i.ok, i.now))
  {
    hide TotalFrames;
  }

  lemma EndKeepsClocks(r: Receiver, i: Input)
    requires i.End?
    ensures KeepsClocks(r, i, OnEnd(r, i.ok, i.now))
  {
    hide Missing, Receiver.Expected, Concluded;
    ConcludedAnswers(r.(lastRx := i.now), i.ok, i.now);
  }

  lemma ConcludedAnswers(r: Receiver, ok: bool, now: u32)
    ensures var o := Concluded(r, ok, now); o.acks != [] && o.r.lastAck == now && o.r.lastRx == r.lastRx
  {
  }

  lemma PopKeepsClocks(r: Receiver, i: Input)
    requires r.Shaped() && i.Pop?
    ensures KeepsClocks(r, i, PushProtocol.Pop(r, i.good, i.now))
  {
    hide HandleFrame, Receiver.Shaped;
    if r.state == Receiving && r.queue != [] {
      DrainUnfold(r, i.good, i.now);
      HandleKeepsClocks(r.(queue := r.queue[1..]), r.queue[0], i.good, i.now);
    }
  }

  lemma PollKeepsClocks(r: Receiver, i: Input)
    requires i.Poll?
    ensures KeepsClocks(r, i, PushProtocol.Poll(r, i.now))
  {
    hide Missing, Receiver.Expected, U32;
  }

  lemma HandleKeepsClocks(r: Receiver, raw: seq<byte>, good: nat, now: u32)
    requires r.Shaped() && r.state == Receiving && RAW_HDR <= |raw| <= 250 && IndexOf(raw) < r.total
    ensures var o := HandleFrame(r, raw, good, now);
      o.r.lastRx == now && o.r.lastAck == (if o.acks == [] then r.lastAck else now)
  {
    hide HandleFrame, TotalFrames, Windows, IndexOf, Completed, Stored, Receiver.Shaped;
    var i := IndexOf(raw) - r.window * WINDOW_FRAMES;
    if 0 <= i < WINDOW_FRAMES {
      ClocksDoNotShape(r, now, r.lastAck);
      TakesFrame(r, raw, good, now);
      StoredShaped(r.(lastRx := now), i, raw[RAW_HDR..]);
      StoredFrame(r.(lastRx := now), i, raw[RAW_HDR..]);
      CompletedKeepsClocks(Stored(r.(lastRx := now), i, raw[RAW_HDR..]), good, now);
    } else {
      OldFrame(r, raw, good, now);
    }
  }

  /** An old frame gets its window acknowledged if the last ack is more than 100 ms old; a future one nothing. */
  lemma OldFrame(r: Receiver, raw: seq<byte>, good: nat, now: u32)
    requires r.Shaped() && r.state == Receiving && RAW_HDR <= |raw| <= 250 && IndexOf(raw) < r.total
    requires !(0 <= IndexOf(raw) - r.window * WINDOW_FRAMES < WINDOW_FRAMES)
    ensures var o := HandleFrame(r, raw, good, now);
      var answer := IndexOf(raw) < r.window * 16 && U32(now - r.lastAck) > 100;
      && o.acks == (if answer then [Ack(U16(IndexOf(raw) / 16), 0, WindowAck)] else [])
      && o.r == r.(lastRx := now, lastAck := if answer then now else r.lastAck)
  {
    hide Completed, Stored, TotalFrames, Windows, IndexOf, U16;
  }

  lemma CompletedKeepsClocks(r: Receiver, good: nat, now: u32)
    requires r.Shaped() && r.state == Receiving && r.window < Windows(r.size)
    ensures var o := Completed(r, good, now);
      o.r.lastRx == r.lastRx && o.r.lastAck == (if o.acks == [] then r.lastAck else now)
  {
    hide TotalFrames, Windows, WriteFrames, Receiver.Shaped, FramesIn, Covers;
    WriteFramesFrame(r, 0, good);
  }

  // --- runs --------------------------------------------------------------------------------------

  /** A run with the acks that every input causes. */
  ghost predicate Answers(rs: seq<Receiver>, ins: seq<Input>, acks: seq<seq<Ack>>) {
    && Run(rs, ins) && |acks| == |ins|
    && forall k :: 0 <= k < |ins| ==> rs[k].Shaped() && Enabled(rs[k], ins[k]) ==> acks[k] == Outcome(rs[k], ins[k]).acks
  }

  /** t is the time of the last ack before input k, or the power-up value if there was none. */
  ghost predicate LastAcked(rs: seq<Receiver>, ins: seq<Input>, acks: seq<seq<Ack>>, k: nat, t: u32)
    requires k <= |ins| == |acks| < |rs|
  {
    || (t == rs[0].lastAck && forall j :: 0 <= j < k ==> acks[j] == [])
    || exists p: nat :: p < k && acks[p] != [] && t == TimeOf(ins[p]) && forall j :: p < j < k ==> acks[j] == []
  }

  /** t is the time of the last input before k that the receiver took notice of. */
  ghost predicate LastHeard(rs: seq<Receiver>, ins: seq<Input>, k: nat, t: u32)
    requires k <= |ins| < |rs|
  {
    exists p: nat :: p < k && Hears(rs[p], ins[p]) && t == TimeOf(ins[p]) && forall j :: p < j < k ==> !Hears(rs[j], ins[j])
  }

  lemma {:induction false} ClocksAreTrue(rs: seq<Receiver>, ins: seq<Input>, acks: seq<seq<Ack>>, k: nat)
    requires Answers(rs, ins, acks) && k < |rs|
    ensures rs[k].Shaped() && LastAcked(rs, ins, acks, k, rs[k].lastAck)
    ensures rs[k].state in {Receiving, RDone} ==> LastHeard(rs, ins, k, rs[k].lastRx)
  {
    hide Outcome, Enabled, Receiver.Shaped, Hears, TimeOf, Counted;
    var w := WhoAnnounced(rs, ins, k);
    if k > 0 {
      var p := k - 1;
      ClocksAreTrue(rs, ins, acks, p);
      InputKeepsClocks(rs[p], ins[p]);
      BeginIsHeard(rs, ins, p);
      if Hears(rs[p], ins[p]) { assert p < k && rs[k].lastRx == TimeOf(ins[p]); }
      if acks[p] != [] { assert p < k && rs[k].lastAck == TimeOf(ins[p]); }
    }
  }

  /** A receiver begins to receive only by something it hears. */
  lemma BeginIsHeard(rs: seq<Receiver>, ins: seq<Input>, p: nat)
    requires Run(rs, ins) && p < |ins|
    ensures rs[p].state !in {Receiving, RDone} && rs[p + 1].state in {Receiving, RDone} ==> Hears(rs[p], ins[p])
  {
    hide Receiver.Shaped, Counted, TotalFrames, Windows, IndexOf, HandleFrame;
    var w := WhoAnnounced(rs, ins, p);
  }

  /**
   The periodic ack: it goes out exactly when some frames of the window are in hand, more than
   250 ms have passed since the last ack and more than 150 ms since anything was heard; it names the
   frames that are missing.
   */
  lemma PeriodicAck(rs: seq<Receiver>, ins: seq<Input>, acks: seq<seq<Ack>>, k: nat) returns (tAck: u32, tRx: u32)
    requires Answers(rs, ins, acks) && k < |ins| && ins[k].Poll?
    ensures LastAcked(rs, ins, acks, k, tAck)
    ensures if rs[k].state == Receiving then LastHeard(rs, ins, k, tRx) else acks[k] == []
    ensures rs[k].state == Receiving ==>
      acks[k] == if rs[k].have != 0 && U32(ins[k].now - tAck) > 250 && U32(ins[k].now - tRx) > 150
                 then [Ack(rs[k].window, Missing(rs[k].Expected(), rs[k].have), WindowAck)] else []
  {
    hide Next, LastAcked, LastHeard, Receiver.Shaped, Missing, Receiver.Expected, U32;
    ClocksAreTrue(rs, ins, acks, k);
    tAck, tRx := rs[k].lastAck, rs[k].lastRx;
    EnabledInRun(rs, ins, k);
  }

  lemma EnabledInRun(rs: seq<Receiver>, ins: seq<Input>, k: nat)
    requires Run(rs, ins) && k < |ins|
    ensures Enabled(rs[k], ins[k])
  {
    hide Enabled, Next;
  }

  /** A frame of an earlier window is answered exactly when the last ack is more than 100 ms old. */
  lemma OldFrameAnswer(rs: seq<Receiver>, ins: seq<Input>, acks: seq<seq<Ack>>, k: nat) returns (tAck: u32)
    requires Answers(rs, ins, acks) && k < |ins| && ins[k].Pop? && rs[k].state == Receiving && rs[k].queue != []
    requires |rs[k].queue[0]| >= RAW_HDR && IndexOf(rs[k].queue[0]) < rs[k].window * 16
    ensures LastAcked(rs, ins, acks, k, tAck)
    ensures acks[k] == if U32(ins[k].now - tAck) > 100
                       then [Ack(U16(IndexOf(rs[k].queue[0]) / 16), 0, WindowAck)] else []
  {
    hide Next, LastAcked, LastHeard, Receiver.Shaped, U32, U16, IndexOf, HandleFrame;
    ClocksAreTrue(rs, ins, acks, k);
    tAck := rs[k].lastAck;
    EnabledInRun(rs, ins, k);
    DrainUnfold(rs[k], ins[k].good, ins[k].now);
    OldFrame(rs[k].(queue := rs[k].queue[1..]), rs[k].queue[0], ins[k].good, ins[k].now);
  }

  /** A raw frame is taken up only during a transfer, with 8 to 250 bytes that start with the four magic ones. */
  lemma RawIsTaken(r: Receiver, raw: seq<byte>)
    requires |r.queue| <= 22
    ensures OnRaw(r, raw) ==
      if r.state == Receiving && 8 <= |raw| <= 250 && raw[..4] == [0x49, 0x4E, 0x57, 0x44]
      then r.(queue := r.queue + [raw]) else r
  {
  }

  /** Twenty-three frames can wait; the next one is dropped. */
  lemma QueueHolds(r: Receiver, raw: seq<byte>)
    requires |r.queue| <= 23
    ensures Enqueue(r, raw).queue == if |r.queue| == 23 then r.queue else r.queue + [raw]
  {
  }
}
