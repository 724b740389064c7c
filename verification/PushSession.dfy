/**
 One push session over a channel that may lose, duplicate and reorder raw frames, control
 packets and acks, but does not invent them. Everything ever sent may arrive at any later
 time, any number of times, or never. DONE and FAILED of the receiver end the session, since
 the device reboots.
 */
module PushSession {
  import opened Words
  import opened Crc
  import opened Masks
  import opened PushLayout
  import opened PushProtocol

  datatype Session = Session(
    s: Sender, r: Receiver, begun: bool, ended: bool,
    frames: set<seq<byte>>, passed: set<seq<byte>>, acks: set<Ack>)

  datatype Move =
    | SStart(avail: nat, now: u32)
    | SLoop(avail: nat, now: u32)
    | SAck(a: Ack, avail: nat, now: u32)
    | RBegin(ok: bool, now: u32)
    | REnd(ok: bool, now: u32)
    | RTest(raw: seq<byte>)
    | RQueue(raw: seq<byte>)
    | RPop(good: nat, now: u32)
    | RPoll(now: u32)
  {
    predicate AtReceiver() {
      !SStart? && !SLoop? && !SAck?
    }
  }

  predicate Enabled(x: Session, mv: Move) {
    match mv
    case SStart(_, _) => x.s.state == SIdle
    case SLoop(_, _) => true
    case SAck(a, _, _) => a in x.acks
    case RBegin(ok, _) => x.begun && x.r.state in {RIdle, Receiving}
    case REnd(ok, _) => x.ended
    case RTest(raw) => raw in x.frames
    case RQueue(raw) => raw in x.passed
    case RPop(_, _) => true
    case RPoll(_) => true
  }

  function RawsOf(tx: seq<Tx>): set<seq<byte>> {
    set t | t in tx && t.TxRaw? :: t.raw
  }

  /** The sender has moved: its packets join the air. */
  function Sent(x: Session, o: SOut): Session {
    x.(s := o.s, begun := x.begun || exists t :: t in o.tx && t.TxBegin?,
       ended := x.ended || TxEnd in o.tx, frames := x.frames + RawsOf(o.tx))
  }

  /** The receiver has moved: its acks join the air. */
  function Acked(x: Session, o: Out): Session {
    x.(r := o.r, acks := x.acks + set a | a in o.acks)
  }

  /**
   The radio task has tested a frame. If it passed it may be queued at any later time, for the
   task can be interrupted between its tests and its critical section.
   */
  function Tested(x: Session, raw: seq<byte>): Session {
    if RawPasses(x.r, raw) then x.(passed := x.passed + {raw}) else x
  }

  /** What the receiver does in one of its moves. */
  function ReceiverOut(image: seq<byte>, x: Session, mv: Move): Out
    requires Pushable(|image|) && x.r.Shaped() && mv.AtReceiver()
  {
    match mv
    case RBegin(ok, now) => OnBegin(x.r, |image|, Crc32(0, image), ok, now)
    case REnd(ok, now) => OnEnd(x.r, ok, now)
    case RTest(_) => Out(x.r, [])
    case RQueue(raw) => Out(Enqueue(x.r, raw), [])
    case RPop(good, now) => Pop(x.r, good, now)
    case RPoll(now) => Poll(x.r, now)
  }

  function Next(image: seq<byte>, x: Session, mv: Move): Session
    requires Pushable(|image|) && Inv(image, x) && Enabled(x, mv)
  {
    match mv
    case SStart(avail, now) => Sent(x, Start(x.s, image, Crc32(0, image), avail, now))
    case SLoop(avail, now) => Sent(x, SenderLoop(x.s, image, avail, now))
    case SAck(a, avail, now) => Sent(x, OnAck(x.s, image, a, avail, now))
    case RTest(raw) => Tested(x, raw)
    case _ => Acked(x, ReceiverOut(image, x, mv))
  }

  // --- invariants ------------------------------------------------------------------------

  /** A raw frame that really is a frame of the image. */
  predicate Honest(image: seq<byte>, raw: seq<byte>) {
    && RAW_HDR <= |raw| <= 250
    && IndexOf(raw) * FRAME_DATA < |image|
    && raw == RawFrame(IndexOf(raw), Frame(image, IndexOf(raw)))
  }

  /** Slot i holds the image bytes of frame i of the current window. */
  predicate SlotRight(image: seq<byte>, r: Receiver, i: nat)
    requires r.Shaped() && r.state == Receiving && i < WINDOW_FRAMES
  {
    var idx := r.window * WINDOW_FRAMES + i;
    idx * FRAME_DATA < |image| && Frame(image, idx) <= r.slots[i]
  }

  /** Loop invariant of a running transfer; no frame of a window above `lim` has been sent. */
  predicate Transferring(image: seq<byte>, r: Receiver, lim: nat)
    requires r.Shaped() && r.state == Receiving
  {
    && r.size == |image| && r.want == Crc32(0, image)
    && r.flash == Flashed(image, r.window * WINDOW_FRAMES)
    && r.bytesDone == |r.flash|
    && r.crc == Crc32(0, r.flash)
    && (forall i :: 0 <= i < WINDOW_FRAMES && HasBit(r.have, i) ==> SlotRight(image, r, i))
    && (if r.window < Windows(r.size) then !Covers(r.have, r.Expected()) else r.have == 0)
    && (forall f :: f in r.queue ==> Honest(image, f) && IndexOf(f) < (lim + 1) * WINDOW_FRAMES)
  }

  predicate RGood(image: seq<byte>, r: Receiver, lim: nat)
    requires Pushable(|image|)
  {
    && r.Shaped()
    && r.window <= Windows(|image|)
    && r.booted == (r.state == RDone)
    && match r.state
       case RIdle => r.window == 0 && r.queue == []
       case Receiving => Transferring(image, r, lim)
       case RDone => r.flash == image
       case RFailed =>
         r.failCode == FinalFlash && (r.window == 0 || Flashed(image, r.window * WINDOW_FRAMES) <= r.flash)
  }

  /** What an ack in the air proves about the receiver. */
  predicate AckTrue(a: Ack, r: Receiver) {
    match a.status
    case WindowAck => a.missing == 0 ==> a.window < r.window
    case FinalOk => r.state == RDone
    case FinalFlash => r.state == RFailed
    case _ => false
  }

  predicate SGood(image: seq<byte>, s: Sender)
    requires Pushable(|image|)
  {
    && s.Shaped()
    && s.window <= Windows(|image|)
    && (s.state == SIdle ==> s.window == 0)
    && (s.state == Pushing ==>
          && s.size == |image| && s.crc == Crc32(0, image)
          && s.ackedBytes == Min(s.window * WINDOW_BYTES, |image|)
          && (s.endSent <==> s.window == s.windows)
          && s.retries <= 20)
  }

  /** The sender has heard nothing yet, so it still repeats BEGIN. */
  predicate Unheard(s: Sender) {
    s.state == Pushing ==> !s.gotAnyAck
  }

  predicate Inv(image: seq<byte>, x: Session)
    requires Pushable(|image|)
  {
    && SGood(image, x.s)
    && RGood(image, x.r, x.s.window)
    && x.s.window <= x.r.window <= x.s.window + 1
    && (x.s.state == SDone ==> x.r.state == RDone)
    && (x.ended ==> x.s.window == Windows(|image|))
    && (x.r.state == RIdle ==> x.acks == {} && x.passed == {} && Unheard(x.s))
    && x.passed <= x.frames
    && (forall f :: f in x.frames ==> Honest(image, f) && IndexOf(f) < (x.s.window + 1) * WINDOW_FRAMES)
    && (forall a :: a in x.acks ==> AckTrue(a, x.r))
  }

  // --- receiver moves ---------------------------------------------------------------------------

  /** A receiver reaction that keeps every promise made so far. */
  predicate Keeps(image: seq<byte>, r: Receiver, o: Out, lim: nat)
    requires Pushable(|image|)
  {
    && RGood(image, o.r, lim)
    && r.window <= o.r.window <= (if r.window <= lim then lim + 1 else r.window)
    && (r.state == RDone ==> o.r.state == RDone)
    && (r.state == RFailed ==> o.r.state == RFailed)
    && (o.r.state == RIdle ==> r.state == RIdle && o.acks == [])
    && (forall a :: a in o.acks ==> AckTrue(a, o.r))
  }

  lemma EmptyFlash(image: seq<byte>)
    ensures Flashed(image, 0) == [] && Crc32(0, []) == 0
  {
    Crc32Composes(0, [], []);
  }

  lemma NoBitInZero()
    ensures forall i :: 0 <= i < WINDOW_FRAMES ==> !HasBit(0, i)
  {
    forall i | 0 <= i < WINDOW_FRAMES ensures !HasBit(0, i) { SetBitBits(0, 0, i); }
  }

  lemma EmptyWindowNotCovered(size: u32, window: u16)
    requires Pushable(size) && window < Windows(size)
    ensures !Covers(0, WindowMask(TotalFrames(size), window))
  {
    WindowMaskCoversItsFrames(size, window, 0);
    var n := FramesIn(TotalFrames(size), window);
    hide Covers, LowMask, HasBit, TotalFrames, Windows;
    CoversLowMask(0, n);
    SetBitBits(0, 0, 0);
  }

  lemma Touched(image: seq<byte>, r: Receiver, lim: nat, rx: u32, ack: u32)
    requires Pushable(|image|) && RGood(image, r, lim)
    ensures RGood(image, r.(lastRx := rx, lastAck := ack), lim)
  {
    hide HasBit, Covers, LowMask, Crc32, TotalFrames, Windows, IndexOf, Honest;
    var q := r.(lastRx := rx, lastAck := ack);
    forall i | r.state == Receiving && 0 <= i < WINDOW_FRAMES && HasBit(q.have, i) ensures SlotRight(image, q, i) {
      assert SlotRight(image, r, i);
    }
  }

  /** What a good receiver promises whatever it is doing. */
  lemma GoodIsShaped(image: seq<byte>, r: Receiver, lim: nat)
    requires Pushable(|image|) && RGood(image, r, lim)
    ensures r.Shaped() && r.window <= Windows(|image|)
    ensures r.state == Receiving ==> r.size == |image| && r.total == TotalFrames(|image|) && !r.booted
  {
    hide TotalFrames, Windows, IndexOf, Honest, SlotRight, Flashed, Crc32;
  }

  lemma AckedKeeps(image: seq<byte>, r: Receiver, lim: nat, a: Ack, now: u32)
    requires Pushable(|image|) && RGood(image, r, lim) && r.state == Receiving && AckTrue(a, r)
    ensures Keeps(image, r, SendAck(r, a, now), lim)
  {
    hide RGood;
    Touched(image, r, lim, r.lastRx, now);
  }

  lemma FailIsGood(image: seq<byte>, r: Receiver, lim: nat, now: u32)
    requires Pushable(|image|) && r.Shaped() && r.window <= Windows(|image|) && !r.booted
    requires r.window == 0 || Flashed(image, r.window * WINDOW_FRAMES) <= r.flash
    ensures RGood(image, Fail(r, FinalFlash, now).r, lim)
    ensures forall a :: a in Fail(r, FinalFlash, now).acks ==> AckTrue(a, Fail(r, FinalFlash, now).r)
  {
    hide TotalFrames, Windows, IndexOf, Flashed;
  }

  /** A flash failure keeps what was flashed and is honestly reported. */
  lemma FailKeeps(image: seq<byte>, r: Receiver, lim: nat, now: u32)
    requires Pushable(|image|) && RGood(image, r, lim) && r.state in {RIdle, Receiving}
    ensures Keeps(image, r, Fail(r, FinalFlash, now), lim)
  {
    hide TotalFrames, Windows, Flashed, Receiver.Shaped, Covers, HasBit, SlotRight, Honest, IndexOf, Crc32;
    GoodIsShaped(image, r, lim);
    FailIsGood(image, r, lim, now);
    hide RGood, AckTrue;
  }

  /** An accepted BEGIN starts with an empty partition and an empty window 0. */
  lemma FreshIsGood(image: seq<byte>, r: Receiver, lim: nat, now: u32)
    requires Pushable(|image|) && r.Shaped() && r.queue == [] && !r.booted
    ensures RGood(image, Accepted(r, |image|, Crc32(0, image), now), lim)
  {
    hide HasBit, Covers, LowMask, Crc32, TotalFrames, Windows;
    EmptyFlash(image);
    NoBitInZero();
    CountsExact(|image|);
    EmptyWindowNotCovered(|image|, 0);
  }

  lemma BeginKeeps(image: seq<byte>, r: Receiver, lim: nat, ok: bool, now: u32)
    requires Pushable(|image|) && RGood(image, r, lim) && r.state in {RIdle, Receiving}
    ensures Keeps(image, r, OnBegin(r, |image|, Crc32(0, image), ok, now), lim)
  {
    if r.state == Receiving {
      hide RGood;
      Touched(image, r, lim, now, r.lastAck);
    } else if ok {
      GoodIsShaped(image, r, lim);
      FreshIsGood(image, r, lim, now);
      hide RGood, Transferring, Accepted, Windows;
    } else {
      var q := r.(size := |image|, want := Crc32(0, image));
      IdleSized(image, r, lim);
      hide RGood, Fail;
      FailKeeps(image, q, lim, now);
    }
  }

  lemma IdleSized(image: seq<byte>, r: Receiver, lim: nat)
    requires Pushable(|image|) && RGood(image, r, lim) && r.state == RIdle
    ensures r.window == 0 && RGood(image, r.(size := |image|, want := Crc32(0, image)), lim)
  {
    hide IndexOf, Windows, TotalFrames;
  }

  /** In an honest session everything is flashed, with the right CRC, when the last window is. */
  lemma AllFlashed(image: seq<byte>, r: Receiver, lim: nat)
    requires Pushable(|image|) && RGood(image, r, lim) && r.state == Receiving
    requires r.window * WINDOW_FRAMES >= r.total
    ensures r.window == Windows(|image|) && r.flash == image && r.bytesDone == r.size && r.crc == r.want
  {
    CountsExact(|image|);
    hide HasBit, Covers, LowMask, Crc32, TotalFrames, Windows;
  }

  /** The size and CRC check always passes; the update library has the last word. */
  lemma ConcludeKeeps(image: seq<byte>, r: Receiver, lim: nat, ok: bool, now: u32)
    requires Pushable(|image|) && RGood(image, r, lim) && r.state == Receiving
    requires r.window * WINDOW_FRAMES >= r.total
    ensures Keeps(image, r, Concluded(r, ok, now), lim)
  {
    AllFlashed(image, r, lim);
    GoodIsShaped(image, r, lim);
    if ok {
      DoneIsGood(image, r, lim, now);
      hide RGood, Windows, Receiver.Shaped;
    } else {
      hide RGood, Fail;
      FailKeeps(image, r, lim, now);
    }
  }

  lemma DoneIsGood(image: seq<byte>, r: Receiver, lim: nat, now: u32)
    requires Pushable(|image|) && r.Shaped() && r.flash == image && r.window <= Windows(|image|)
    ensures RGood(image, r.(lastAck := now, state := RDone, booted := true), lim)
  {
    hide TotalFrames, Windows, IndexOf;
  }

  lemma EndKeeps(image: seq<byte>, r: Receiver, lim: nat, ok: bool, now: u32)
    requires Pushable(|image|) && RGood(image, r, lim)
    ensures Keeps(image, r, OnEnd(r, ok, now), lim)
  {
    hide RGood, TotalFrames, Windows, WindowMask, Missing, Concluded;
    if r.state == Receiving {
      var q := r.(lastRx := now);
      Touched(image, r, lim, now, r.lastAck);
      if r.window * WINDOW_FRAMES < r.total {
        NotCoveredYet(image, q, lim);
        AckedKeeps(image, q, lim, Ack(r.window, Missing(r.Expected(), r.have), WindowAck), now);
      } else {
        ConcludeKeeps(image, q, lim, ok, now);
      }
    }
  }

  /** While frames of the current window are missing, the bitmap is not zero. */
  lemma NotCoveredYet(image: seq<byte>, r: Receiver, lim: nat)
    requires Pushable(|image|) && RGood(image, r, lim) && r.state == Receiving
    requires r.window * WINDOW_FRAMES < r.total || r.have != 0
    ensures Missing(r.Expected(), r.have) != 0
  {
    CountsExact(|image|);
    hide HasBit, Covers, LowMask, Crc32, Missing, TotalFrames, Windows;
    MissingIsZero(r.have, r.Expected());
  }

  lemma PollKeeps(image: seq<byte>, r: Receiver, lim: nat, now: u32)
    requires Pushable(|image|) && RGood(image, r, lim)
    ensures Keeps(image, r, Poll(r, now), lim)
  {
    hide RGood, TotalFrames, Windows, WindowMask, Missing;
    if r.state == Receiving && r.have != 0 {
      NotCoveredYet(image, r, lim);
      AckedKeeps(image, r, lim, Ack(r.window, Missing(r.Expected(), r.have), WindowAck), now);
    }
  }

  lemma HonestFrames(image: seq<byte>, raw: seq<byte>)
    requires Pushable(|image|) && Honest(image, raw)
    ensures RAW_HDR <= |raw| <= 250 && IndexOf(raw) * FRAME_DATA < |image| && IndexOf(raw) < TotalFrames(|image|)
    ensures raw[..4] == RAW_MAGIC && raw[RAW_HDR..] == Frame(image, IndexOf(raw))
    ensures |Frame(image, IndexOf(raw))| == FrameLen(|image|, IndexOf(raw)) <= FRAME_DATA
  {
    hide TotalFrames, Windows, FrameLen, IndexOf, RawFrame;
    CountsExact(|image|);
    LayoutExact(|image|, IndexOf(raw));
    RawFrameParses(IndexOf(raw), Frame(image, IndexOf(raw)));
  }

  lemma EnqueueKeeps(image: seq<byte>, r: Receiver, lim: nat, raw: seq<byte>)
    requires Pushable(|image|) && RGood(image, r, lim) && r.state != RIdle
    requires Honest(image, raw) && IndexOf(raw) < (lim + 1) * WINDOW_FRAMES
    ensures Keeps(image, r, Out(Enqueue(r, raw), []), lim)
  {
    hide Enqueue, Honest, RGood, IndexOf, Frame, TotalFrames, FrameLen, Receiver.Shaped, Windows;
    HonestFrames(image, raw);
    GoodIsShaped(image, r, lim);
    EnqueueShaped(r, raw);
    var q := Enqueue(r, raw);
    if r.state == Receiving {
      QueueGrows(image, r, q, lim);
    } else {
      EndedQueue(image, r, q, lim);
    }
  }

  lemma EnqueueShaped(r: Receiver, raw: seq<byte>)
    requires r.Shaped() && RAW_HDR <= |raw| <= 250 && (r.state == Receiving ==> IndexOf(raw) < r.total)
    ensures var q := Enqueue(r, raw);
      q.Shaped() && q == r.(queue := q.queue) && forall f :: f in q.queue ==> f in r.queue || f == raw
  {
    hide IndexOf, TotalFrames, Windows;
  }

  /** After DONE or FAILED the queue no longer matters. */
  lemma EndedQueue(image: seq<byte>, r: Receiver, q: Receiver, lim: nat)
    requires Pushable(|image|) && RGood(image, r, lim) && r.state in {RDone, RFailed}
    requires q == r.(queue := q.queue) && q.Shaped()
    ensures RGood(image, q, lim)
  {
    hide IndexOf, TotalFrames, Windows, Flashed, Receiver.Shaped;
  }

  lemma QueueGrows(image: seq<byte>, r: Receiver, q: Receiver, lim: nat)
    requires Pushable(|image|) && RGood(image, r, lim) && r.state == Receiving
    requires q == r.(queue := q.queue) && q.Shaped()
    requires forall f :: f in q.queue ==> f in r.queue || (Honest(image, f) && IndexOf(f) < (lim + 1) * WINDOW_FRAMES)
    ensures RGood(image, q, lim)
  {
    hide HasBit, Covers, LowMask, Crc32, Missing, TotalFrames, Windows, RawFrame, IndexOf;
    forall i | 0 <= i < WINDOW_FRAMES && HasBit(q.have, i) ensures SlotRight(image, q, i) {
      assert SlotRight(image, r, i);
    }
  }

  // --- flashing a window --------------------------------------------------------------------------

  /** Writing the slots of a complete window appends exactly its image bytes. */
  /** Writing one more slot appends that frame. */
  lemma WritesFrame(image: seq<byte>, r: Receiver, i: nat)
    requires r.Shaped() && r.state == Receiving && r.window < Windows(r.size) && r.size == |image|
    requires i < FramesIn(r.total, r.window) && SlotRight(image, r, i)
    requires r.flash == Flashed(image, r.window * WINDOW_FRAMES + i) && r.crc == Crc32(0, r.flash)
    ensures var n := FrameLen(r.size, r.window * WINDOW_FRAMES + i); n <= FRAME_DATA
    ensures var data := r.slots[i][..FrameLen(r.size, r.window * WINDOW_FRAMES + i)];
      && r.flash + data == Flashed(image, r.window * WINDOW_FRAMES + i + 1)
      && Crc32(r.crc, data) == Crc32(0, r.flash + data)
  {
    hide Crc32, TotalFrames, Windows, FrameLen, FramesIn, IndexOf;
    var idx := r.window * WINDOW_FRAMES + i;
    WindowFrameExists(r.size, r.window, i);
    LayoutExact(r.size, idx);
    var data := r.slots[i][..FrameLen(r.size, idx)];
    assert data == Frame(image, idx);
    FlashOneMore(image, idx);
    Crc32Composes(0, r.flash, data);
  }

  /** Writing the slots of a complete window appends exactly its image bytes. */
  lemma {:induction false} WriteFramesAppends(image: seq<byte>, r: Receiver, i: nat, good: nat)
    requires r.Shaped() && r.state == Receiving && r.window < Windows(r.size) && r.size == |image|
    requires i <= FramesIn(r.total, r.window)
    requires forall j :: 0 <= j < FramesIn(r.total, r.window) ==> SlotRight(image, r, j)
    requires r.flash == Flashed(image, r.window * WINDOW_FRAMES + i)
    requires r.bytesDone == |r.flash| && r.crc == Crc32(0, r.flash)
    ensures var (f, ok) := WriteFrames(r, i, good);
      && (good >= FramesIn(r.total, r.window) ==> ok)
      && (ok ==> (
            && f.flash == Flashed(image, r.window * WINDOW_FRAMES + FramesIn(r.total, r.window))
            && f.bytesDone == |f.flash| && f.crc == Crc32(0, f.flash)))
    decreases FramesIn(r.total, r.window) - i
  {
    hide Crc32, TotalFrames, Windows, FrameLen, FramesIn, WriteFrames, Receiver.Shaped, Flashed, Frame;
    WriteFramesUnfold(r, i, good);
    if i < FramesIn(r.total, r.window) && i < good {
      WritesFrame(image, r, i);
      var n := FrameLen(r.size, r.window * WINDOW_FRAMES + i);
      var data := r.slots[i][..n];
      var next := r.(flash := r.flash + data, crc := Crc32(r.crc, data), bytesDone := r.bytesDone + n);
      forall j | 0 <= j < FramesIn(r.total, r.window) ensures SlotRight(image, next, j) {
        assert SlotRight(image, r, j);
      }
      WriteFramesAppends(image, next, i + 1, good);
    }
  }

  /** Flash is only appended to, even when a write fails half-way. */
  lemma {:induction false} WriteFramesGrow(r: Receiver, i: nat, good: nat)
    requires r.Shaped() && r.state == Receiving && r.window < Windows(r.size) && i <= FramesIn(r.total, r.window)
    ensures r.flash <= WriteFrames(r, i, good).0.flash
    decreases FramesIn(r.total, r.window) - i
  {
    hide Crc32, TotalFrames, Windows, FrameLen, FramesIn, WriteFrames, Receiver.Shaped;
    WriteFramesUnfold(r, i, good);
    if i < FramesIn(r.total, r.window) && i < good {
      var n := FrameLen(r.size, r.window * WINDOW_FRAMES + i);
      var data := r.slots[i][..n];
      WriteFramesGrow(r.(flash := r.flash + data, crc := Crc32(r.crc, data), bytesDone := r.bytesDone + n), i + 1, good);
    }
  }

  lemma WindowEnd(image: seq<byte>, window: u16)
    requires Pushable(|image|) && window < Windows(|image|)
    ensures Flashed(image, window * WINDOW_FRAMES + FramesIn(TotalFrames(|image|), window))
         == Flashed(image, (window + 1) * WINDOW_FRAMES)
    ensures window + 1 < TWO16
  {
    CountsExact(|image|);
    WindowMaskCoversItsFrames(|image|, window, 0);
    hide TotalFrames, Windows, FramesIn;
  }

  /** The window is flashed and acknowledged as complete. */
  predicate Finished(r: Receiver, o: Out, now: u32) {
    && o.r.state == Receiving && o.r.window == r.window + 1 && o.r.have == 0
    && o.r.queue == r.queue && o.r.lastAck == now
    && o.acks == [Ack(r.window, 0, WindowAck), Ack(r.window, 0, WindowAck)]
  }

  /** The next window starts empty, over a flash that holds all the windows before it. */
  lemma NextWindowIsGood(image: seq<byte>, f: Receiver, lim: nat, now: u32)
    requires Pushable(|image|) && f.Shaped() && f.state == Receiving && !f.booted && f.window < Windows(f.size)
    requires f.size == |image| && f.want == Crc32(0, image)
    requires f.flash == Flashed(image, (f.window + 1) * WINDOW_FRAMES) && f.bytesDone == |f.flash|
    requires f.crc == Crc32(0, f.flash)
    requires forall g :: g in f.queue ==> Honest(image, g) && IndexOf(g) < (lim + 1) * WINDOW_FRAMES
    ensures f.window + 1 < TWO16
    ensures RGood(image, f.(window := f.window + 1, have := 0, lastAck := now), lim)
  {
    hide HasBit, Covers, LowMask, Crc32, TotalFrames, Windows, FramesIn, IndexOf, Honest, Flashed;
    WindowEnd(image, f.window);
    NoBitInZero();
    if f.window + 1 < Windows(f.size) { EmptyWindowNotCovered(f.size, f.window + 1); }
  }

  lemma FinishKeeps(image: seq<byte>, r: Receiver, lim: nat, good: nat, now: u32)
    requires Pushable(|image|) && r.Shaped() && r.state == Receiving && !r.booted && r.window < Windows(r.size)
    requires Covers(r.have, r.Expected()) && r.window <= lim
    requires r.size == |image| && r.want == Crc32(0, image)
    requires r.flash == Flashed(image, r.window * WINDOW_FRAMES) && r.bytesDone == |r.flash| && r.crc == Crc32(0, r.flash)
    requires forall i :: 0 <= i < WINDOW_FRAMES && HasBit(r.have, i) ==> SlotRight(image, r, i)
    requires forall f :: f in r.queue ==> Honest(image, f) && IndexOf(f) < (lim + 1) * WINDOW_FRAMES
    ensures var o := FinishWindow(r, good, now);
      && Keeps(image, r, o, lim)
      && (good >= WINDOW_FRAMES ==> Finished(r, o, now))
  {
    hide HasBit, Covers, LowMask, Crc32, TotalFrames, Windows, FramesIn, FrameLen, WriteFrames, RGood, IndexOf, Honest,
         Flashed, Fail;
    var n := FramesIn(r.total, r.window);
    WindowMaskCoversItsFrames(r.size, r.window, 0);
    CoversLowMask(r.have, n);
    WriteFramesFrame(r, 0, good);
    WriteFramesAppends(image, r, 0, good);
    WriteFramesGrow(r, 0, good);
    WindowEnd(image, r.window);
    var (f, ok) := WriteFrames(r, 0, good);
    WritingShapes(r, f.flash, f.crc, f.bytesDone);
    hide Receiver.Shaped, SlotRight;
    if ok {
      NextWindowIsGood(image, f, lim, now);
    } else {
      FailIsGood(image, f, lim, now);
      FailMoves(f, now);
    }
  }

  lemma FailMoves(r: Receiver, now: u32)
    ensures var o := Fail(r, FinalFlash, now); o.r.window == r.window && o.r.state == RFailed
  {
  }

  // --- draining the queue -----------------------------------------------------------------------------

  lemma StoringKeepsSlots(image: seq<byte>, r: Receiver, i: nat)
    requires r.Shaped() && r.state == Receiving && i < WINDOW_FRAMES
    requires (r.window * WINDOW_FRAMES + i) * FRAME_DATA < |image|
    requires forall j :: 0 <= j < WINDOW_FRAMES && HasBit(r.have, j) ==> SlotRight(image, r, j)
    ensures var q := Stored(r, i, Frame(image, r.window * WINDOW_FRAMES + i));
      && q.Shaped()
      && forall j :: 0 <= j < WINDOW_FRAMES && HasBit(q.have, j) ==> SlotRight(image, q, j)
  {
    hide HasBit, SetBit, TotalFrames, Windows;
    var q := Stored(r, i, Frame(image, r.window * WINDOW_FRAMES + i));
    forall j | 0 <= j < WINDOW_FRAMES && HasBit(q.have, j) ensures SlotRight(image, q, j) {
      SetBitBits(r.have, i, j);
      if j != i { assert SlotRight(image, r, j); }
    }
  }

  lemma StoringKeeps(image: seq<byte>, r: Receiver, lim: nat, i: nat, good: nat, now: u32)
    requires Pushable(|image|) && RGood(image, r, lim) && r.state == Receiving && i < WINDOW_FRAMES
    requires r.window < Windows(r.size) && r.window <= lim && (r.window * WINDOW_FRAMES + i) * FRAME_DATA < |image|
    ensures Stored(r, i, Frame(image, r.window * WINDOW_FRAMES + i)).Shaped()
    ensures Keeps(image, r, Completed(Stored(r, i, Frame(image, r.window * WINDOW_FRAMES + i)), good, now), lim)
  {
    hide HasBit, Covers, LowMask, Crc32, TotalFrames, Windows, FinishWindow, IndexOf, SetBit, Honest;
    var q := Stored(r, i, Frame(image, r.window * WINDOW_FRAMES + i));
    StoringKeepsSlots(image, r, i);
    if Covers(q.have, q.Expected()) {
      FinishKeeps(image, q, lim, good, now);
    }
  }

  lemma OldFrameKeeps(image: seq<byte>, r: Receiver, lim: nat, raw: seq<byte>, good: nat, now: u32)
    requires Pushable(|image|) && RGood(image, r, lim) && r.state == Receiving
    requires RAW_HDR <= |raw| <= 250 && IndexOf(raw) < r.total
    requires !(0 <= IndexOf(raw) - r.window * WINDOW_FRAMES < WINDOW_FRAMES)
    ensures r.Shaped() && Keeps(image, r, HandleFrame(r, raw, good, now), lim)
  {
    hide Completed, Stored, TotalFrames, Windows, IndexOf, RGood, U16, U32, Receiver.Shaped;
    GoodIsShaped(image, r, lim);
    var q := r.(lastRx := now);
    Touched(image, r, lim, now, r.lastAck);
    if IndexOf(raw) < r.window * WINDOW_FRAMES {
      ReAckedWindow(IndexOf(raw), r.window);
      AckedKeeps(image, q, lim, Ack(U16(IndexOf(raw) / WINDOW_FRAMES), 0, WindowAck), now);
    }
  }

  lemma ReAckedWindow(idx: u32, window: u16)
    requires idx < window * WINDOW_FRAMES
    ensures U16(idx / WINDOW_FRAMES) == idx / WINDOW_FRAMES < window
  {
  }

  lemma NewFrameKeeps(image: seq<byte>, r: Receiver, lim: nat, raw: seq<byte>, good: nat, now: u32)
    requires Pushable(|image|) && RGood(image, r, lim) && r.state == Receiving && RAW_HDR <= |raw| <= 250
    requires IndexOf(raw) * FRAME_DATA < |image| && IndexOf(raw) < Min((lim + 1) * WINDOW_FRAMES, r.total)
    requires raw[RAW_HDR..] == Frame(image, IndexOf(raw))
    requires 0 <= IndexOf(raw) - r.window * WINDOW_FRAMES < WINDOW_FRAMES
    ensures r.Shaped() && Keeps(image, r, HandleFrame(r, raw, good, now), lim)
  {
    hide HandleFrame, Completed, Stored, TotalFrames, Windows, IndexOf, Frame, RGood, Receiver.Shaped;
    GoodIsShaped(image, r, lim);
    var q := r.(lastRx := now);
    var i := IndexOf(raw) - r.window * WINDOW_FRAMES;
    Touched(image, r, lim, now, r.lastAck);
    TakesFrame(r, raw, good, now);
    StoringKeeps(image, q, lim, i, good, now);
  }

  lemma HandleKeeps(image: seq<byte>, r: Receiver, lim: nat, raw: seq<byte>, good: nat, now: u32)
    requires Pushable(|image|) && RGood(image, r, lim) && r.state == Receiving
    requires Honest(image, raw) && IndexOf(raw) < (lim + 1) * WINDOW_FRAMES && IndexOf(raw) < r.total
    ensures Keeps(image, r, HandleFrame(r, raw, good, now), lim)
  {
    hide HandleFrame, RGood, TotalFrames, RawFrame, IndexOf, Frame, Keeps, Honest, FrameLen;
    HonestFrames(image, raw);
    if 0 <= IndexOf(raw) - r.window * WINDOW_FRAMES < WINDOW_FRAMES {
      NewFrameKeeps(image, r, lim, raw, good, now);
    } else {
      OldFrameKeeps(image, r, lim, raw, good, now);
    }
  }

  lemma Popped(image: seq<byte>, r: Receiver, lim: nat)
    requires Pushable(|image|) && RGood(image, r, lim) && r.state == Receiving && r.queue != []
    ensures RGood(image, r.(queue := r.queue[1..]), lim)
    ensures Honest(image, r.queue[0]) && IndexOf(r.queue[0]) < (lim + 1) * WINDOW_FRAMES && IndexOf(r.queue[0]) < r.total
  {
    hide TotalFrames, Windows, IndexOf, Honest, HasBit, Covers, SlotRight, Crc32, Flashed;
    var q := r.(queue := r.queue[1..]);
    assert r.queue[0] in r.queue;
    assert forall f :: f in q.queue ==> f in r.queue;
    HonestFrames(image, r.queue[0]);
    QueueGrows(image, r, q, lim);
  }

  lemma PopKeeps(image: seq<byte>, r: Receiver, lim: nat, good: nat, now: u32)
    requires Pushable(|image|) && RGood(image, r, lim)
    ensures r.Shaped() && Keeps(image, r, Pop(r, good, now), lim)
  {
    hide RGood, HandleFrame, Honest, IndexOf, Receiver.Shaped;
    GoodIsShaped(image, r, lim);
    if r.state == Receiving && r.queue != [] {
      Popped(image, r, lim);
      HonestFrames(image, r.queue[0]);
      GoodIsShaped(image, r.(queue := r.queue[1..]), lim);
      HandleKeeps(image, r.(queue := r.queue[1..]), lim, r.queue[0], good, now);
    }
  }

  // --- sender moves ---------------------------------------------------------------------------------

  /** A sender reaction that only sends true frames, and none of a later window. */
  predicate SKeeps(image: seq<byte>, s: Sender, o: SOut)
    requires Pushable(|image|)
  {
    && SGood(image, o.s)
    && s.window <= o.s.window <= s.window + 1
    && (o.s.state == SDone ==> s.state == SDone)
    && (TxEnd in o.tx ==> o.s.window == Windows(|image|))
    && (forall t :: t in o.tx && t.TxRaw? ==> Honest(image, t.raw) && IndexOf(t.raw) < (o.s.window + 1) * WINDOW_FRAMES)
  }

  lemma MadeFramesAreHonest(image: seq<byte>, idx: u32)
    requires Pushable(|image|) && idx < TotalFrames(|image|)
    ensures idx * FRAME_DATA + FrameLen(|image|, idx) <= |image|
    ensures image[idx * FRAME_DATA..idx * FRAME_DATA + FrameLen(|image|, idx)] == Frame(image, idx)
    ensures Honest(image, RawFrame(idx, Frame(image, idx))) && IndexOf(RawFrame(idx, Frame(image, idx))) == idx
  {
    hide TotalFrames, Windows, RawFrame, IndexOf, FrameLen;
    LayoutExact(|image|, idx);
    RawFrameParses(idx, Frame(image, idx));
  }

  lemma {:induction false} SendFromHonest(s: Sender, image: seq<byte>, mask: bv32, avail: nat, i: nat)
    requires Pushable(s.size) && s.total == TotalFrames(s.size) && |image| == s.size && i <= WINDOW_FRAMES
    ensures var (tx, ok) := SendFrom(s, image, mask, avail, i);
      forall t :: t in tx ==> t.TxRaw? && Honest(image, t.raw) && IndexOf(t.raw) < (s.window + 1) * WINDOW_FRAMES
    decreases WINDOW_FRAMES - i
  {
    hide TotalFrames, Windows, RawFrame, IndexOf, Honest, HasBit, Frame, FrameLen;
    if i < WINDOW_FRAMES {
      var idx := s.window * WINDOW_FRAMES + i;
      if !HasBit(mask, i) {
        SendFromHonest(s, image, mask, avail, i + 1);
      } else if idx < s.total && avail > 0 {
        MadeFramesAreHonest(image, idx);
        SendFromHonest(s, image, mask, avail - 1, i + 1);
      }
    }
  }

  lemma AckedBytesAdvance(image: seq<byte>, window: u16)
    requires Pushable(|image|) && window < Windows(|image|)
    ensures Min(Min(window * WINDOW_BYTES, |image|) + FramesIn(TotalFrames(|image|), window) * FRAME_DATA, |image|)
         == Min((window + 1) * WINDOW_BYTES, |image|)
    ensures U16(window + 1) == window + 1
  {
    CountsExact(|image|);
    WindowMaskCoversItsFrames(|image|, window, 0);
    hide TotalFrames, Windows, FramesIn;
  }

  /** Sending frames changes nothing but, if a read fails, the state. */
  predicate JustSends(image: seq<byte>, s: Sender, o: SOut) {
    && (o.s == s.(state := o.s.state, final := o.s.final, deadline := o.s.deadline))
    && o.s.state in {s.state, SFailed}
    && (forall t :: t in o.tx ==> t.TxRaw? && Honest(image, t.raw) && IndexOf(t.raw) < (s.window + 1) * WINDOW_FRAMES)
  }

  lemma SendingFrames(image: seq<byte>, s: Sender, mask: bv32, avail: nat, now: u32)
    requires Pushable(s.size) && s.total == TotalFrames(s.size) && |image| == s.size
    ensures JustSends(image, s, SendWindow(s, image, mask, avail))
    ensures JustSends(image, s, SendWhole(s, image, avail, now))
  {
    hide TotalFrames, IndexOf, Honest, WindowMask, SendFrom, SendWindow;
    SendingWindow(image, s, mask, avail);
    SendingWindow(image, s, WindowMask(s.total, s.window), avail);
  }

  lemma SendingWindow(image: seq<byte>, s: Sender, mask: bv32, avail: nat)
    requires Pushable(s.size) && s.total == TotalFrames(s.size) && |image| == s.size
    ensures JustSends(image, s, SendWindow(s, image, mask, avail))
  {
    hide TotalFrames, IndexOf, Honest, SendFrom;
    SendFromHonest(s, image, mask, avail, 0);
  }

  /** Sending frames, possibly after a repeated BEGIN, keeps the sender's promises. */
  lemma SendsKeep(image: seq<byte>, s: Sender, q: Sender, o: SOut, pre: seq<Tx>)
    requires Pushable(|image|) && SGood(image, q) && q.state == Pushing && s.window <= q.window <= s.window + 1
    requires JustSends(image, q, o) && forall t :: t in pre ==> t.TxBegin?
    ensures SKeeps(image, s, o.(tx := pre + o.tx)) && o.s.state != SDone && o.s.window == q.window
  {
    hide TotalFrames, Windows, IndexOf, Honest;
    assert forall t :: t in pre + o.tx ==> t in pre || t in o.tx;
  }

  lemma LoopKeeps(image: seq<byte>, s: Sender, avail: nat, now: u32)
    requires Pushable(|image|) && SGood(image, s)
    ensures SKeeps(image, s, SenderLoop(s, image, avail, now))
    ensures SenderLoop(s, image, avail, now).s.window == s.window
    ensures Unheard(s) ==> Unheard(SenderLoop(s, image, avail, now).s)
  {
    if Retries(s, now) {
      hide SenderLoop, SKeeps, SGood;
      RetryKeeps(image, s, avail, now);
    } else {
      QuietLoop(image, s, avail, now);
      hide SenderLoop, SKeeps, SGood, Retries;
      QuietKeeps(image, s, SenderLoop(s, image, avail, now));
    }
  }

  /** The timer fires and the current window goes out again. */
  predicate Retries(s: Sender, now: u32) {
    s.state == Pushing && !(now < s.deadline) && !s.endSent && s.retries < 20
  }

  lemma QuietLoop(image: seq<byte>, s: Sender, avail: nat, now: u32)
    requires s.Shaped() && (s.state == Pushing ==> |image| == s.size && s.retries <= 20) && !Retries(s, now)
    ensures var o := SenderLoop(s, image, avail, now);
      && o.s == s.(retries := o.s.retries, state := o.s.state, final := o.s.final, deadline := o.s.deadline)
      && (o.s.state == SFailed || (o.s.state == s.state && (s.state == Pushing ==> o.s.retries <= 20)))
      && (o.tx == [] || (o.tx == [TxEnd] && s.endSent && s.state == Pushing))
  {
    hide SendWhole, TotalFrames, Windows;
  }

  /** Waiting, giving up and repeating END keep the sender's promises. */
  lemma QuietKeeps(image: seq<byte>, s: Sender, o: SOut)
    requires Pushable(|image|) && SGood(image, s)
    requires o.s == s.(retries := o.s.retries, state := o.s.state, final := o.s.final, deadline := o.s.deadline)
    requires o.s.state == SFailed || (o.s.state == s.state && (s.state == Pushing ==> o.s.retries <= 20))
    requires o.tx == [] || (o.tx == [TxEnd] && s.endSent && s.state == Pushing)
    ensures SKeeps(image, s, o)
  {
    hide TotalFrames, Windows, IndexOf, Honest, Crc32;
  }

  lemma RetryKeeps(image: seq<byte>, s: Sender, avail: nat, now: u32)
    requires Pushable(|image|) && SGood(image, s)
    requires Retries(s, now)
    ensures SKeeps(image, s, SenderLoop(s, image, avail, now))
    ensures SenderLoop(s, image, avail, now).s.window == s.window
  {
    hide TotalFrames, Windows, IndexOf, Honest, SendWhole, Crc32, SKeeps;
    var q := s.(retries := s.retries + 1);
    var o := SendWhole(q, image, avail, now);
    var pre := if q.gotAnyAck then [] else [TxBegin(q.size, q.crc)];
    assert SenderLoop(s, image, avail, now) == o.(tx := pre + o.tx);
    SendingFrames(image, q, 0, avail, now);
    SendsKeep(image, s, q, o, pre);
  }

  /** The sender's reaction keeps its promises, and is DONE only because of a final ack. */
  predicate AnswersAck(image: seq<byte>, s: Sender, a: Ack, o: SOut)
    requires Pushable(|image|)
  {
    && SKeeps(image, s, o.(s := o.s.(state := if o.s.state == SDone then SFailed else o.s.state)))
    && (o.s.state == SDone ==> s.state == SDone || a.status == FinalOk)
    && (o.s.window > s.window ==> a.status == WindowAck && a.missing == 0 && a.window == s.window)
  }

  lemma AckKeeps(image: seq<byte>, s: Sender, a: Ack, avail: nat, now: u32)
    requires Pushable(|image|) && SGood(image, s)
    requires a.status == WindowAck && a.missing == 0 && a.window == s.window ==> s.window < Windows(|image|)
    ensures AnswersAck(image, s, a, OnAck(s, image, a, avail, now))
  {
    hide SGood, OnAck, AnswersAck, Sender.Shaped;
    if s.state != Pushing || a.status != WindowAck || a.window != s.window {
      FinalOrStaleKeeps(image, s, a, avail, now);
    } else if a.missing != 0 {
      RepairKeeps(image, s, a, avail, now);
    } else {
      WholeWindowAcked(image, s, a, avail, now);
    }
  }

  /** A final or stale ack makes the sender send nothing. */
  lemma FinalOrStale(image: seq<byte>, s: Sender, a: Ack, avail: nat, now: u32)
    requires s.Shaped() && (s.state == Pushing ==> |image| == s.size)
    requires s.state != Pushing || a.status != WindowAck || a.window != s.window
    ensures var o := OnAck(s, image, a, avail, now);
      && o.tx == [] && o.s.window == s.window
      && (o.s == s || (s.state == Pushing && o.s == s.(gotAnyAck := true, retries := 0))
          || (s.state == Pushing && (o.s.state == SFailed || (o.s.state == SDone && a.status == FinalOk))))
  {
    hide NextWindow, SendWindow, Sender.Shaped, TotalFrames;
  }

  lemma FinalOrStaleKeeps(image: seq<byte>, s: Sender, a: Ack, avail: nat, now: u32)
    requires Pushable(|image|) && SGood(image, s)
    requires s.state != Pushing || a.status != WindowAck || a.window != s.window
    ensures AnswersAck(image, s, a, OnAck(s, image, a, avail, now))
  {
    hide TotalFrames, Windows, IndexOf, Honest, Crc32, OnAck;
    FinalOrStale(image, s, a, avail, now);
  }

  lemma RepairKeeps(image: seq<byte>, s: Sender, a: Ack, avail: nat, now: u32)
    requires Pushable(|image|) && SGood(image, s)
    requires s.state == Pushing && a.status == WindowAck && a.window == s.window && a.missing != 0
    ensures AnswersAck(image, s, a, OnAck(s, image, a, avail, now))
  {
    hide TotalFrames, Windows, IndexOf, Honest, SendWindow, NextWindow, Crc32, SKeeps;
    var q := s.(gotAnyAck := true, retries := 0);
    SendingFrames(image, q, a.missing, avail, now);
    var o := SendWindow(q, image, a.missing, avail);
    assert [] + o.tx == o.tx;
    SendsKeep(image, s, q, o.(s := o.s.(deadline := U32(now + 500))), []);
    hide SGood;
  }

  lemma WholeWindowAcked(image: seq<byte>, s: Sender, a: Ack, avail: nat, now: u32)
    requires Pushable(|image|) && SGood(image, s) && s.state == Pushing && s.window < Windows(|image|)
    requires a.window == s.window && a.missing == 0 && a.status == WindowAck
    ensures AnswersAck(image, s, a, OnAck(s, image, a, avail, now))
    ensures OnAck(s, image, a, avail, now).s.window == s.window + 1
  {
    var n := Advanced(s);
    AdvancedIsGood(image, s);
    OnAckAdvances(image, s, a, avail, now);
    hide SGood, OnAck, Advanced, SKeeps, SendWhole, TotalFrames;
    if n.window < n.windows {
      var o := SendWhole(n, image, avail, now);
      SendingFrames(image, n, 0, avail, now);
      assert [] + o.tx == o.tx;
      SendsKeep(image, s, n, o, []);
    } else {
      EndSent(image, s, n, now);
    }
  }

  lemma OnAckAdvances(image: seq<byte>, s: Sender, a: Ack, avail: nat, now: u32)
    requires s.Shaped() && s.state == Pushing && |image| == s.size
    requires a.window == s.window && a.missing == 0 && a.status == WindowAck
    ensures OnAck(s, image, a, avail, now)
         == (var n := Advanced(s);
             if n.window >= n.windows then SOut(n.(endSent := true, deadline := U32(now + 2000)), [TxEnd])
             else SendWhole(n, image, avail, now))
  {
    hide SendWhole, TotalFrames, Windows, FramesIn;
  }

  lemma AdvancedIsGood(image: seq<byte>, s: Sender)
    requires Pushable(|image|) && SGood(image, s) && s.state == Pushing && s.window < Windows(|image|)
    ensures var n := Advanced(s);
      && n.window == s.window + 1 <= n.windows == Windows(|image|) && n.state == Pushing
      && n.size == |image| && n.total == TotalFrames(n.size)
      && SGood(image, n.(endSent := n.window == n.windows))
      && (n.window < n.windows ==> SGood(image, n))
  {
    AckedBytesAdvance(image, s.window);
    hide TotalFrames, Windows, FramesIn, Crc32;
  }

  lemma EndSent(image: seq<byte>, s: Sender, n: Sender, now: u32)
    requires Pushable(|image|) && n.window == s.window + 1 == n.windows == Windows(|image|) && n.state == Pushing
    requires SGood(image, n.(endSent := true))
    ensures SKeeps(image, s, SOut(n.(endSent := true, deadline := U32(now + 2000)), [TxEnd]))
  {
    hide TotalFrames, Windows, Crc32;
  }

  /** The sender's counters once the current window is acknowledged. */
  function Advanced(s: Sender): Sender {
    s.(gotAnyAck := true, retries := 0, window := U16(s.window + 1),
       ackedBytes := Min(s.ackedBytes + FramesIn(s.total, s.window) * FRAME_DATA, s.size))
  }

  /** The sender's counters when a push starts. */
  function Started(s: Sender, image: seq<byte>): Sender
    requires |image| < TWO32
  {
    s.(size := |image|, crc := Crc32(0, image), total := TotalFrames(|image|), windows := Windows(|image|), window := 0,
       gotAnyAck := false, endSent := false, retries := 0, ackedBytes := 0, final := NoneYet, state := Pushing)
  }

  lemma StartedIsGood(image: seq<byte>, s: Sender)
    requires Pushable(|image|)
    ensures SGood(image, Started(s, image))
  {
    hide TotalFrames, Windows, Crc32;
    CountsExact(|image|);
  }

  lemma StartIsStarted(image: seq<byte>, s: Sender, avail: nat, now: u32)
    requires Pushable(|image|)
    ensures var o := SendWhole(Started(s, image), image, avail, now);
      Start(s, image, Crc32(0, image), avail, now) == o.(tx := [TxBegin(|image|, Crc32(0, image))] + o.tx)
  {
    hide TotalFrames, Windows, Crc32, SendWhole;
  }

  lemma StartKeeps(image: seq<byte>, s: Sender, avail: nat, now: u32)
    requires Pushable(|image|)
    ensures var o := Start(s, image, Crc32(0, image), avail, now);
      && SGood(image, o.s) && o.s.window == 0 && o.s.state != SDone && Unheard(o.s) && TxEnd !in o.tx
      && (forall t :: t in o.tx && t.TxRaw? ==> Honest(image, t.raw) && IndexOf(t.raw) < WINDOW_FRAMES)
  {
    hide TotalFrames, Windows, IndexOf, Honest, Start, SendWhole, Crc32, SGood, Sender.Shaped;
    var b := Started(s, image);
    StartedIsGood(image, s);
    StartIsStarted(image, s, avail, now);
    SendingFrames(image, b, 0, avail, now);
    var pre := [TxBegin(|image|, Crc32(0, image))];
    SendsKeep(image, b, b, SendWhole(b, image, avail, now), pre);
    assert forall t :: t in pre + SendWhole(b, image, avail, now).tx ==> t in pre || t in SendWhole(b, image, avail, now).tx;
  }

  // --- session moves ----------------------------------------------------------------------------------

  lemma RGoodRelaxes(image: seq<byte>, r: Receiver, lim: nat, lim': nat)
    requires Pushable(|image|) && RGood(image, r, lim) && lim <= lim'
    ensures RGood(image, r, lim')
  {
    hide TotalFrames, Windows, IndexOf, Honest, SlotRight, Crc32, Flashed, Covers, HasBit;
  }

  lemma ReceiverMoveKeeps(image: seq<byte>, x: Session, o: Out)
    requires Pushable(|image|) && Inv(image, x) && Keeps(image, x.r, o, x.s.window)
    ensures Inv(image, Acked(x, o))
  {
    hide RGood, SGood, Honest, IndexOf, Windows;
  }

  lemma SenderMoveKeeps(image: seq<byte>, x: Session, o: SOut)
    requires Pushable(|image|) && Inv(image, x)
    requires SGood(image, o.s) && x.s.window <= o.s.window <= x.r.window
    requires o.s.state == SDone ==> x.r.state == RDone
    requires x.r.state == RIdle ==> Unheard(o.s)
    requires TxEnd in o.tx ==> o.s.window == Windows(|image|)
    requires forall t :: t in o.tx && t.TxRaw? ==> Honest(image, t.raw) && IndexOf(t.raw) < (o.s.window + 1) * WINDOW_FRAMES
    ensures Inv(image, Sent(x, o))
  {
    hide RGood, SGood, Honest, IndexOf, Windows, Unheard, AckTrue;
    RGoodRelaxes(image, x.r, x.s.window, o.s.window);
    SentFrames(x, o);
    if x.ended { InWindows(image, x.s, o.s); }
  }

  lemma SentFrames(x: Session, o: SOut)
    ensures forall f :: f in Sent(x, o).frames ==> f in x.frames || TxRaw(f) in o.tx
    ensures Sent(x, o).r == x.r && Sent(x, o).s == o.s && Sent(x, o).acks == x.acks
    ensures Sent(x, o).ended ==> x.ended || TxEnd in o.tx
  {
  }

  /** Once at the end, the sender's window stays there. */
  lemma InWindows(image: seq<byte>, s: Sender, n: Sender)
    requires Pushable(|image|) && SGood(image, n) && s.window == Windows(|image|) && s.window <= n.window
    ensures n.window == Windows(|image|)
  {
    hide Windows, TotalFrames, Crc32;
  }

  /** Every move of either side, in any order, keeps the session invariant. */
  lemma MoveKeepsInv(image: seq<byte>, x: Session, mv: Move)
    requires Pushable(|image|) && Inv(image, x) && Enabled(x, mv)
    ensures Inv(image, Next(image, x, mv))
  {
    match mv
    case SStart(avail, now) => SStartKeepsInv(image, x, avail, now);
    case SLoop(avail, now) => SLoopKeepsInv(image, x, avail, now);
    case SAck(a, avail, now) => SAckKeepsInv(image, x, a, avail, now);
    case RTest(raw) => TestKeepsInv(image, x, raw);
    case _ => RMoveKeepsInv(image, x, mv);
  }

  lemma SStartKeepsInv(image: seq<byte>, x: Session, avail: nat, now: u32)
    requires Pushable(|image|) && Inv(image, x) && x.s.state == SIdle
    ensures Inv(image, Sent(x, Start(x.s, image, Crc32(0, image), avail, now)))
  {
    assert x.s.window == 0;
    StartKeeps(image, x.s, avail, now);
    hide Start, SGood, RGood, Honest, IndexOf;
    SenderMoveKeeps(image, x, Start(x.s, image, Crc32(0, image), avail, now));
  }

  lemma SLoopKeepsInv(image: seq<byte>, x: Session, avail: nat, now: u32)
    requires Pushable(|image|) && Inv(image, x)
    ensures Inv(image, Sent(x, SenderLoop(x.s, image, avail, now)))
  {
    LoopKeeps(image, x.s, avail, now);
    hide SenderLoop, SGood, RGood, Honest, IndexOf;
    SenderMoveKeeps(image, x, SenderLoop(x.s, image, avail, now));
  }

  lemma SAckKeepsInv(image: seq<byte>, x: Session, a: Ack, avail: nat, now: u32)
    requires Pushable(|image|) && Inv(image, x) && a in x.acks
    ensures Inv(image, Sent(x, OnAck(x.s, image, a, avail, now)))
  {
    AckKeeps(image, x.s, a, avail, now);
    SGoodWhateverState(image, OnAck(x.s, image, a, avail, now).s);
    hide OnAck, SGood, RGood, Honest, IndexOf;
    SenderMoveKeeps(image, x, OnAck(x.s, image, a, avail, now));
  }

  lemma SGoodWhateverState(image: seq<byte>, s: Sender)
    requires Pushable(|image|) && SGood(image, s.(state := if s.state == SDone then SFailed else s.state))
    ensures SGood(image, s)
  {
  }

  lemma TestKeepsInv(image: seq<byte>, x: Session, raw: seq<byte>)
    requires Pushable(|image|) && Inv(image, x) && raw in x.frames
    ensures Inv(image, Tested(x, raw))
  {
    hide SGood, RGood, Honest, IndexOf, Windows;
  }

  lemma RMoveKeepsInv(image: seq<byte>, x: Session, mv: Move)
    requires Pushable(|image|) && Inv(image, x) && Enabled(x, mv) && mv.AtReceiver() && !mv.RTest?
    ensures Inv(image, Next(image, x, mv))
  {
    var o := ReceiverOut(image, x, mv);
    ReceiverKeeps(image, x, mv);
    hide ReceiverOut, Inv, Keeps;
    ReceiverMoveKeeps(image, x, o);
  }

  lemma ReceiverKeeps(image: seq<byte>, x: Session, mv: Move)
    requires Pushable(|image|) && Inv(image, x) && Enabled(x, mv) && mv.AtReceiver() && !mv.RTest?
    ensures Keeps(image, x.r, ReceiverOut(image, x, mv), x.s.window)
  {
    hide OnBegin, OnEnd, Enqueue, Pop, Poll, SGood, RGood, Honest, IndexOf, Keeps;
    var lim := x.s.window;
    match mv
    case RBegin(ok, now) => BeginKeeps(image, x.r, lim, ok, now);
    case REnd(ok, now) => EndKeeps(image, x.r, lim, ok, now);
    case RQueue(raw) => EnqueueKeeps(image, x.r, lim, raw);
    case RPop(good, now) => PopKeeps(image, x.r, lim, good, now);
    case RPoll(now) => PollKeeps(image, x.r, lim, now);
  }

  // --- whole runs ----------------------------------------------------------------------------------------

  /** Nothing has happened yet: both sides are idle and nothing is in the air. */
  predicate Initial(x: Session) {
    && x.s.state == SIdle && x.s.window == 0
    && x.r.Shaped() && x.r.state == RIdle && x.r.window == 0 && x.r.queue == [] && !x.r.booted
    && !x.begun && !x.ended && x.frames == {} && x.passed == {} && x.acks == {}
  }

  ghost predicate Run(image: seq<byte>, xs: seq<Session>, mvs: seq<Move>)
    requires Pushable(|image|)
  {
    && |xs| == |mvs| + 1 && Initial(xs[0])
    && forall k :: 0 <= k < |mvs| ==>
         Enabled(xs[k], mvs[k]) && (Inv(image, xs[k]) ==> xs[k + 1] == Next(image, xs[k], mvs[k]))
  }

  lemma InitialIsGood(image: seq<byte>, x: Session)
    requires Pushable(|image|) && Initial(x)
    ensures Inv(image, x)
  {
    hide Honest, IndexOf, Windows, TotalFrames, Crc32;
  }

  lemma {:induction false} RunKeepsInv(image: seq<byte>, xs: seq<Session>, mvs: seq<Move>, k: nat)
    requires Pushable(|image|) && Run(image, xs, mvs) && k < |xs|
    ensures Inv(image, xs[k])
  {
    hide Next, Inv, Initial;
    if k == 0 {
      InitialIsGood(image, xs[0]);
    } else {
      RunKeepsInv(image, xs, mvs, k - 1);
      MoveKeepsInv(image, xs[k - 1], mvs[k - 1]);
    }
  }

  /** The receiver's window is the sender's or the next one, at every state of every run. */
  lemma WindowsInStep(image: seq<byte>, xs: seq<Session>, mvs: seq<Move>, k: nat)
    requires Pushable(|image|) && Run(image, xs, mvs) && k < |xs|
    ensures xs[k].s.window <= xs[k].r.window <= xs[k].s.window + 1
    ensures xs[k].s.state == Pushing ==> xs[k].s.ackedBytes == Min(xs[k].s.window * WINDOW_BYTES, |image|)
  {
    RunKeepsInv(image, xs, mvs, k);
  }

  /** While it receives, the flash is exactly the image up to the current window. */
  lemma FlashIsAPrefix(image: seq<byte>, xs: seq<Session>, mvs: seq<Move>, k: nat)
    requires Pushable(|image|) && Run(image, xs, mvs) && k < |xs| && xs[k].r.state == Receiving
    ensures xs[k].r.Shaped()
    ensures var r := xs[k].r;
      && r.bytesDone == Min(r.window * WINDOW_BYTES, |image|)
      && r.flash == image[..r.bytesDone] && r.crc == Crc32(0, r.flash)
      && forall i :: 0 <= i < WINDOW_FRAMES && HasBit(r.have, i) ==> SlotRight(image, r, i)
  {
    RunKeepsInv(image, xs, mvs, k);
    PrefixFlashed(image, xs[k].r, xs[k].s.window);
    hide Run, Inv, RGood, SlotRight, HasBit, Crc32;
  }

  lemma PrefixFlashed(image: seq<byte>, r: Receiver, lim: nat)
    requires Pushable(|image|) && RGood(image, r, lim) && r.state == Receiving
    ensures r.bytesDone == Min(r.window * WINDOW_BYTES, |image|)
    ensures r.flash == image[..r.bytesDone] && r.crc == Crc32(0, r.flash)
    ensures forall i :: 0 <= i < WINDOW_FRAMES && HasBit(r.have, i) ==> SlotRight(image, r, i)
  {
    hide Honest, IndexOf, HasBit, Covers, Crc32, TotalFrames, Windows;
  }

  /** An ack without missing frames exists only for a window that is wholly flashed. */
  lemma CompleteAckMeansFlashed(image: seq<byte>, xs: seq<Session>, mvs: seq<Move>, k: nat, a: Ack)
    requires Pushable(|image|) && Run(image, xs, mvs) && k < |xs|
    requires a in xs[k].acks && a.status == WindowAck && a.missing == 0
    ensures image[..Min((a.window + 1) * WINDOW_BYTES, |image|)] <= xs[k].r.flash
  {
    RunKeepsInv(image, xs, mvs, k);
    assert AckTrue(a, xs[k].r);
  }

  /**
   The sender reports success only when the flash equals the image byte for byte and the
   boot slot was switched; nothing else ever switches it.
   */
  lemma DoneMeansFlashedAndBooted(image: seq<byte>, xs: seq<Session>, mvs: seq<Move>, k: nat)
    requires Pushable(|image|) && Run(image, xs, mvs) && k < |xs|
    ensures xs[k].s.state == SDone ==> xs[k].r.flash == image && xs[k].r.booted
    ensures xs[k].r.booted ==> xs[k].r.flash == image
  {
    RunKeepsInv(image, xs, mvs, k);
  }

  /** No false alarm: an honest session never fails its size or CRC check. */
  lemma NeverACrcFailure(image: seq<byte>, xs: seq<Session>, mvs: seq<Move>, k: nat)
    requires Pushable(|image|) && Run(image, xs, mvs) && k < |xs|
    ensures xs[k].r.state == RFailed ==> xs[k].r.failCode == FinalFlash
    ensures forall a :: a in xs[k].acks ==> a.status != FinalCrc && a.status != Busy
  {
    RunKeepsInv(image, xs, mvs, k);
    forall a | a in xs[k].acks ensures a.status != FinalCrc && a.status != Busy {
      assert AckTrue(a, xs[k].r);
    }
  }
}
