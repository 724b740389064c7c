/**
 The two ends of the firmware push as functions on values: what each event does to the
 receiver or the sender and what it transmits. Flash and file access are the environment:
 `good` and `avail` say how many accesses in a row succeed before one fails. The classes of
 modules PushReceiver and PushSender refine these functions in place.
 */
module PushProtocol {
  import opened Words
  import opened Crc
  import opened Masks
  import opened PushLayout

  const QUEUE: nat := 24
  const NO_WINDOW: u16 := 0xFFFF

  datatype AckStatus = WindowAck | FinalOk | FinalCrc | FinalFlash | Busy
  datatype Ack = Ack(window: u16, missing: bv32, status: AckStatus, detail: bv8 := 0)

  // --- receiver ----------------------------------------------------------------------------

  datatype RState = RIdle | Receiving | RDone | RFailed

  datatype Receiver = Receiver(
    state: RState, size: u32, want: bv32, total: u32,
    window: u16, have: bv32, slots: seq<seq<byte>>,
    bytesDone: nat, crc: bv32, failCode: AckStatus,
    lastRx: u32, lastAck: u32, queue: seq<seq<byte>>,
    flash: seq<byte>, booted: bool, libError: bv8, updErr: bv8)
  {
    /** Sixteen slots of one frame each; a running transfer has a size the flash accepted. */
    predicate Shaped() {
      && |slots| == WINDOW_FRAMES
      && (forall i :: 0 <= i < WINDOW_FRAMES ==> |slots[i]| == FRAME_DATA)
      && (forall i :: 0 <= i < |queue| ==> RAW_HDR <= |queue[i]| <= 250)
      && (state == Receiving ==> Pushable(size) && total == TotalFrames(size) && window <= Windows(size))
      && (state == Receiving ==> forall i :: 0 <= i < |queue| ==> IndexOf(queue[i]) < total)
    }

    function Expected(): bv32 {
      WindowMask(total, window)
    }
  }

  /** New state and the acks sent. */
  datatype Out = Out(r: Receiver, acks: seq<Ack>)

  function SendAck(r: Receiver, a: Ack, now: u32): Out {
    Out(r.(lastAck := now), [a])
  }

  /**
   The update library's error number (`libError` is what it reports when an access fails) is
   kept and relayed. Final acks go out twice.
   */
  function Fail(r: Receiver, status: AckStatus, now: u32): Out {
    var a := Ack(NO_WINDOW, 0, status, r.libError);
    Out(r.(updErr := r.libError, failCode := status, lastAck := now, state := RFailed), [a, a])
  }

  /** The radio task's tests, made before it enters the critical section. */
  predicate RawPasses(r: Receiver, raw: seq<byte>) {
    r.state == Receiving && RAW_HDR <= |raw| <= 250 && raw[..4] == RAW_MAGIC
  }

  /** Its critical section: the frame is queued; a full queue drops it. */
  function Enqueue(r: Receiver, raw: seq<byte>): Receiver {
    if |r.queue| == QUEUE - 1 then r else r.(queue := r.queue + [raw])
  }

  function OnRaw(r: Receiver, raw: seq<byte>): Receiver {
    if RawPasses(r, raw) then Enqueue(r, raw) else r
  }

  /** A new transfer: an empty partition and an empty window 0. */
  function Accepted(r: Receiver, size: u32, crc: bv32, now: u32): Receiver {
    r.(size := size, want := crc, total := TotalFrames(size), window := 0, have := 0, bytesDone := 0,
       crc := 0, state := Receiving, lastRx := now, flash := [])
  }

  function OnBegin(r: Receiver, size: u32, crc: bv32, beginOk: bool, now: u32): Out
    requires beginOk ==> size <= MAX_SIZE
  {
    if r.state == Receiving then Out(r.(lastRx := now), [])
    else if size == 0 || !beginOk then Fail(r.(size := size, want := crc), FinalFlash, now)
    else Out(Accepted(r, size, crc, now), [])
  }

  /** The outcome of END once every window is flashed: size and CRC, then the update library's own check. */
  function Concluded(r: Receiver, endOk: bool, now: u32): Out {
    if r.bytesDone != r.size || r.crc != r.want then Fail(r, FinalCrc, now)
    else if !endOk then Fail(r, FinalFlash, now)
    else Out(r.(lastAck := now, state := RDone, booted := true), [Ack(NO_WINDOW, 0, FinalOk), Ack(NO_WINDOW, 0, FinalOk)])
  }

  function OnEnd(r: Receiver, endOk: bool, now: u32): Out {
    if r.state != Receiving then Out(r, [])
    else
      var r := r.(lastRx := now);
      if r.window * WINDOW_FRAMES < r.total then
        SendAck(r, Ack(r.window, Missing(r.Expected(), r.have), WindowAck), now)
      else Concluded(r, endOk, now)
  }

  /** Flashes frames i.. of the complete window; false if a write fails. */
  function WriteFrames(r: Receiver, i: nat, good: nat): (Receiver, bool)
    requires r.Shaped() && r.state == Receiving && r.window < Windows(r.size)
    requires i <= FramesIn(r.total, r.window)
    decreases FramesIn(r.total, r.window) - i
  {
    if i == FramesIn(r.total, r.window) then (r, true)
    else if i >= good then (r, false)
    else
      WindowFrameExists(r.size, r.window, i);
      var n := FrameLen(r.size, r.window * WINDOW_FRAMES + i);
      var data := r.slots[i][..n];
      WriteFrames(r.(flash := r.flash + data, crc := Crc32(r.crc, data), bytesDone := r.bytesDone + n), i + 1, good)
  }

  lemma WindowFrameExists(size: u32, window: u16, i: nat)
    requires Pushable(size) && window < Windows(size) && i < FramesIn(TotalFrames(size), window)
    ensures window * WINDOW_FRAMES + i < TotalFrames(size)
    ensures FrameLen(size, window * WINDOW_FRAMES + i) <= FRAME_DATA
  {
    WindowMaskCoversItsFrames(size, window, i);
    hide TotalFrames, Windows, FrameLen;
    LayoutExact(size, window * WINDOW_FRAMES + i);
  }

  /** One turn of the write loop. */
  lemma WriteFramesUnfold(r: Receiver, i: nat, good: nat)
    requires r.Shaped() && r.state == Receiving && r.window < Windows(r.size) && i <= FramesIn(r.total, r.window)
    ensures i == FramesIn(r.total, r.window) ==> WriteFrames(r, i, good) == (r, true)
    ensures i < FramesIn(r.total, r.window) ==>
      && FrameLen(r.size, r.window * WINDOW_FRAMES + i) <= FRAME_DATA && r.window * WINDOW_FRAMES + i < TotalFrames(r.size)
      && |r.slots| == WINDOW_FRAMES && |r.slots[i]| == FRAME_DATA
    ensures i < FramesIn(r.total, r.window) && i >= good ==> WriteFrames(r, i, good) == (r, false)
    ensures i < FramesIn(r.total, r.window) && i < good ==>
      var n := FrameLen(r.size, r.window * WINDOW_FRAMES + i);
      var data := r.slots[i][..n];
      var q := r.(flash := r.flash + data, crc := Crc32(r.crc, data), bytesDone := r.bytesDone + n);
      q.Shaped() && WriteFrames(r, i, good) == WriteFrames(q, i + 1, good)
  {
    hide TotalFrames, Windows, FramesIn, FrameLen, Crc32, IndexOf;
    if i < FramesIn(r.total, r.window) { WindowFrameExists(r.size, r.window, i); }
  }

  function FinishWindow(r: Receiver, good: nat, now: u32): Out
    requires r.Shaped() && r.state == Receiving && r.window < Windows(r.size)
  {
    var (f, ok) := WriteFrames(r, 0, good);
    if !ok then Fail(f, FinalFlash, now)
    else
      var a := Ack(f.window, 0, WindowAck);
      Out(f.(window := U16(f.window + 1), have := 0, lastAck := now), [a, a])
  }

  /** The frame's bytes go into its slot, over the front of whatever was there. */
  function Stored(r: Receiver, i: nat, data: seq<byte>): Receiver
    requires r.Shaped() && i < WINDOW_FRAMES && |data| <= FRAME_DATA
  {
    r.(slots := r.slots[i := data + r.slots[i][|data|..]], have := SetBit(r.have, i))
  }

  /** After a frame is stored: flash the window if that completed it. */
  function Completed(r: Receiver, good: nat, now: u32): Out
    requires r.Shaped() && r.state == Receiving && r.window < Windows(r.size)
  {
    if Covers(r.have, r.Expected()) then FinishWindow(r, good, now) else Out(r, [])
  }

  /** What a frame drained from the queue does; the sender only makes frames that exist. */
  function HandleFrame(r: Receiver, raw: seq<byte>, good: nat, now: u32): Out
    requires r.Shaped() && r.state == Receiving && RAW_HDR <= |raw| <= 250 && IndexOf(raw) < r.total
  {
    var r := r.(lastRx := now);
    var idx := IndexOf(raw);
    var first := r.window * WINDOW_FRAMES;
    if idx < first then
      if U32(now - r.lastAck) > 100 then SendAck(r, Ack(U16(idx / WINDOW_FRAMES), 0, WindowAck), now) else Out(r, [])
    else if idx >= first + WINDOW_FRAMES then Out(r, [])
    else
      LayoutExact(r.size, idx);
      Completed(Stored(r, idx - first, raw[RAW_HDR..]), good, now)
  }

  /** One turn of the drain loop. */
  function Pop(r: Receiver, good: nat, now: u32): Out
    requires r.Shaped()
  {
    if r.state != Receiving || r.queue == [] then Out(r, [])
    else HandleFrame(r.(queue := r.queue[1..]), r.queue[0], good, now)
  }

  /** The periodic ack after the drain. */
  function Poll(r: Receiver, now: u32): Out {
    if r.state == Receiving && U32(now - r.lastAck) > 250 && U32(now - r.lastRx) > 150 && r.have != 0 then
      SendAck(r, Ack(r.window, Missing(r.Expected(), r.have), WindowAck), now)
    else Out(r, [])
  }

  lemma {:induction false} WriteFramesFrame(r: Receiver, i: nat, good: nat)
    requires r.Shaped() && r.state == Receiving && r.window < Windows(r.size) && i <= FramesIn(r.total, r.window)
    ensures var f := WriteFrames(r, i, good).0; f == r.(flash := f.flash, crc := f.crc, bytesDone := f.bytesDone)
    decreases FramesIn(r.total, r.window) - i
  {
    hide Crc32, TotalFrames, Windows, FrameLen, FramesIn, WriteFrames, Receiver.Shaped;
    WriteFramesUnfold(r, i, good);
    if i < FramesIn(r.total, r.window) && i < good {
      var n := FrameLen(r.size, r.window * WINDOW_FRAMES + i);
      var data := r.slots[i][..n];
      WriteFramesFrame(r.(flash := r.flash + data, crc := Crc32(r.crc, data), bytesDone := r.bytesDone + n), i + 1, good);
    }
  }

  /** A frame of the current window is stored and may complete it. */
  lemma TakesFrame(r: Receiver, raw: seq<byte>, good: nat, now: u32)
    requires r.Shaped() && r.state == Receiving && RAW_HDR <= |raw| <= 250 && IndexOf(raw) < r.total
    requires 0 <= IndexOf(raw) - r.window * WINDOW_FRAMES < WINDOW_FRAMES
    ensures r.window < Windows(r.size)
    ensures HandleFrame(r, raw, good, now)
         == Completed(Stored(r.(lastRx := now), IndexOf(raw) - r.window * WINDOW_FRAMES, raw[RAW_HDR..]), good, now)
  {
    LayoutExact(r.size, IndexOf(raw));
    hide Completed, Stored, TotalFrames, Windows, IndexOf;
  }

  /** A frame outside the current window only touches the clocks, and is at most answered. */
  lemma PassesFrame(r: Receiver, raw: seq<byte>, good: nat, now: u32)
    requires r.Shaped() && r.state == Receiving && RAW_HDR <= |raw| <= 250 && IndexOf(raw) < r.total
    requires !(0 <= IndexOf(raw) - r.window * WINDOW_FRAMES < WINDOW_FRAMES)
    ensures var o := HandleFrame(r, raw, good, now); o.r == r.(lastRx := now, lastAck := o.r.lastAck)
  {
    hide Completed, Stored, TotalFrames, Windows, IndexOf, U16;
  }

  lemma CompletedShaped(r: Receiver, good: nat, now: u32)
    requires r.Shaped() && r.state == Receiving && r.window < Windows(r.size)
    ensures var o := Completed(r, good, now); o.r.Shaped() && o.r.queue == r.queue
  {
    WriteFramesFrame(r, 0, good);
    hide TotalFrames, Windows, IndexOf, WriteFrames, Covers, WindowMask;
  }

  lemma StoredShaped(r: Receiver, i: nat, data: seq<byte>)
    requires r.Shaped() && i < WINDOW_FRAMES && |data| <= FRAME_DATA
    ensures Stored(r, i, data).Shaped()
  {
    hide TotalFrames, Windows, IndexOf, SetBit;
  }

  lemma WritingShapes(r: Receiver, flash: seq<byte>, crc: bv32, done: nat)
    requires r.Shaped()
    ensures r.(flash := flash, crc := crc, bytesDone := done).Shaped()
  {
    hide TotalFrames, Windows, IndexOf;
  }

  lemma ClocksDoNotShape(r: Receiver, rx: u32, ack: u32)
    requires r.Shaped()
    ensures r.(lastRx := rx, lastAck := ack).Shaped()
  {
    hide TotalFrames, Windows, IndexOf;
  }

  lemma TakenFrameShaped(r: Receiver, i: nat, data: seq<byte>, good: nat, now: u32)
    requires r.Shaped() && r.state == Receiving && r.window < Windows(r.size) && i < WINDOW_FRAMES && |data| <= FRAME_DATA
    ensures var o := Completed(Stored(r, i, data), good, now);
      Stored(r, i, data).Shaped() && o.r.Shaped() && o.r.queue == r.queue
  {
    StoredShaped(r, i, data);
    StoredFrame(r, i, data);
    hide TotalFrames, Windows, IndexOf, Completed, Stored, Receiver.Shaped;
    CompletedShaped(Stored(r, i, data), good, now);
  }

  lemma StoredFrame(r: Receiver, i: nat, data: seq<byte>)
    requires r.Shaped() && i < WINDOW_FRAMES && |data| <= FRAME_DATA
    ensures var q := Stored(r, i, data); q == r.(slots := q.slots, have := q.have)
  {
    hide TotalFrames, Windows, IndexOf, SetBit;
  }

  /** Handling a frame keeps the receiver's shape and leaves the queue alone. */
  lemma HandleFrameShaped(r: Receiver, raw: seq<byte>, good: nat, now: u32)
    requires r.Shaped() && r.state == Receiving && RAW_HDR <= |raw| <= 250 && IndexOf(raw) < r.total
    ensures var o := HandleFrame(r, raw, good, now); o.r.Shaped() && o.r.queue == r.queue
  {
    hide HandleFrame, TotalFrames, Windows, IndexOf, Completed, Stored, Receiver.Shaped;
    var i := IndexOf(raw) - r.window * WINDOW_FRAMES;
    if 0 <= i < WINDOW_FRAMES {
      ClocksDoNotShape(r, now, r.lastAck);
      TakesFrame(r, raw, good, now);
      TakenFrameShaped(r.(lastRx := now), i, raw[RAW_HDR..], good, now);
    } else {
      PassesFrame(r, raw, good, now);
      ClocksDoNotShape(r, now, HandleFrame(r, raw, good, now).r.lastAck);
    }
  }

  /** Drains the queue, or stops when a flash write fails. */
  function Drain(r: Receiver, good: nat, now: u32): Out
    requires r.Shaped()
    decreases |r.queue|
  {
    if r.state != Receiving || r.queue == [] then Out(r, [])
    else
      HandleFrameShaped(r.(queue := r.queue[1..]), r.queue[0], good, now);
      var o := Pop(r, good, now);
      var rest := Drain(o.r, good, now);
      Out(rest.r, o.acks + rest.acks)
  }

  /** One turn of the drain. */
  lemma DrainUnfold(r: Receiver, good: nat, now: u32)
    requires r.Shaped()
    ensures r.state != Receiving || r.queue == [] ==> Drain(r, good, now) == Out(r, [])
    ensures r.state == Receiving && r.queue != [] ==>
      && r.(queue := r.queue[1..]).Shaped() && RAW_HDR <= |r.queue[0]| <= 250 && IndexOf(r.queue[0]) < r.total
      && var o := HandleFrame(r.(queue := r.queue[1..]), r.queue[0], good, now);
      && o.r.Shaped() && o.r.queue == r.queue[1..]
      && Drain(r, good, now) == Out(Drain(o.r, good, now).r, o.acks + Drain(o.r, good, now).acks)
  {
    hide TotalFrames, Windows, IndexOf, HandleFrame;
    if r.state == Receiving && r.queue != [] {
      HandleFrameShaped(r.(queue := r.queue[1..]), r.queue[0], good, now);
    }
  }

  lemma DrainIsPops(r: Receiver, good: nat, now: u32)
    requires r.Shaped()
    ensures r.state != Receiving || r.queue == [] ==> Drain(r, good, now) == Out(r, []) && Pop(r, good, now) == Out(r, [])
    ensures r.state == Receiving && r.queue != [] ==>
      var o := Pop(r, good, now);
      && o.r.Shaped() && o.r.queue == r.queue[1..]
      && Drain(r, good, now) == Out(Drain(o.r, good, now).r, o.acks + Drain(o.r, good, now).acks)
  {
    hide HandleFrame, Drain, Receiver.Shaped;
    DrainUnfold(r, good, now);
  }

  /** One pass of the receiver's loop. */
  function ReceiverLoop(r: Receiver, good: nat, now: u32): Out
    requires r.Shaped()
  {
    var o := Drain(r, good, now);
    var p := Poll(o.r, now);
    Out(p.r, o.acks + p.acks)
  }

  // --- sender ------------------------------------------------------------------------------

  datatype SState = SIdle | Pushing | SDone | SFailed
  datatype Final = NoneYet | GaveUp | Reported(status: AckStatus)

  datatype Sender = Sender(
    state: SState, size: u32, crc: bv32, total: u32, windows: u16,
    window: u16, gotAnyAck: bool, endSent: bool, retries: u8, deadline: u32,
    ackedBytes: nat, final: Final, finalDetail: bv8)
  {
    predicate Shaped() {
      state == Pushing ==> total == TotalFrames(size) && windows == Windows(size)
    }
  }

  datatype Tx = TxBegin(size: u32, crc: bv32) | TxRaw(raw: seq<byte>) | TxEnd

  /** New state and the packets sent. */
  datatype SOut = SOut(s: Sender, tx: seq<Tx>)

  /** Frames i.. of `mask` in the current window; false if reading the image fails. */
  function SendFrom(s: Sender, image: seq<byte>, mask: bv32, avail: nat, i: nat): (seq<Tx>, bool)
    requires s.total == TotalFrames(s.size) && |image| == s.size && i <= WINDOW_FRAMES
    decreases WINDOW_FRAMES - i
  {
    if i == WINDOW_FRAMES then ([], true)
    else if !HasBit(mask, i) then SendFrom(s, image, mask, avail, i + 1)
    else if s.window * WINDOW_FRAMES + i >= s.total then ([], true)
    else if avail == 0 then ([], false)
    else
      var idx := s.window * WINDOW_FRAMES + i;
      LayoutExact(s.size, idx);
      var data := image[idx * FRAME_DATA..idx * FRAME_DATA + FrameLen(s.size, idx)];
      var (rest, ok) := SendFrom(s, image, mask, avail - 1, i + 1);
      ([TxRaw(RawFrame(idx, data))] + rest, ok)
  }

  function SendWindow(s: Sender, image: seq<byte>, mask: bv32, avail: nat): SOut
    requires s.total == TotalFrames(s.size) && |image| == s.size
  {
    var (tx, ok) := SendFrom(s, image, mask, avail, 0);
    SOut(if ok then s else s.(final := Reported(FinalFlash), state := SFailed), tx)
  }

  /** The whole current window, and half a second for the answer. */
  function SendWhole(s: Sender, image: seq<byte>, avail: nat, now: u32): SOut
    requires s.total == TotalFrames(s.size) && |image| == s.size
  {
    var o := SendWindow(s, image, WindowMask(s.total, s.window), avail);
    o.(s := o.s.(deadline := U32(now + 500)))
  }

  function Start(s: Sender, image: seq<byte>, crc: bv32, avail: nat, now: u32): SOut
    requires 0 < |image| < TWO32
  {
    var total := TotalFrames(|image|);
    var b := s.(size := |image|, crc := crc, total := total, windows := Windows(|image|), window := 0,
                gotAnyAck := false, endSent := false, retries := 0, ackedBytes := 0, final := NoneYet,
                state := Pushing);
    var o := SendWhole(b, image, avail, now);
    o.(tx := [TxBegin(b.size, crc)] + o.tx)
  }

  /** The current window is done on the device. */
  function NextWindow(s: Sender, image: seq<byte>, avail: nat, now: u32): SOut
    requires s.total == TotalFrames(s.size) && |image| == s.size
  {
    var n := s.(ackedBytes := Min(s.ackedBytes + FramesIn(s.total, s.window) * FRAME_DATA, s.size),
                window := U16(s.window + 1));
    if n.window >= n.windows then SOut(n.(endSent := true, deadline := U32(now + 2000)), [TxEnd])
    else SendWhole(n, image, avail, now)
  }

  function OnAck(s: Sender, image: seq<byte>, a: Ack, avail: nat, now: u32): SOut
    requires s.Shaped() && (s.state == Pushing ==> |image| == s.size)
  {
    if s.state != Pushing then SOut(s, [])
    else
      var s := s.(gotAnyAck := true, retries := 0);
      match a.status
      case FinalOk => SOut(s.(ackedBytes := s.size, final := Reported(FinalOk), state := SDone), [])
      case WindowAck =>
        if a.window != s.window then SOut(s, [])
        else if a.missing == 0 then NextWindow(s, image, avail, now)
        else
          var o := SendWindow(s, image, a.missing, avail);
          o.(s := o.s.(deadline := U32(now + 500)))
      case _ => SOut(s.(final := Reported(a.status), finalDetail := a.detail, state := SFailed), [])
  }

  /** The retry timer. */
  function SenderLoop(s: Sender, image: seq<byte>, avail: nat, now: u32): SOut
    requires s.Shaped() && (s.state == Pushing ==> |image| == s.size)
  {
    if s.state != Pushing || now < s.deadline then SOut(s, [])
    else
      var s := s.(retries := U8(s.retries + 1));
      if s.retries > (if s.endSent then 8 else 20) then SOut(s.(final := GaveUp, state := SFailed), [])
      else if s.endSent then SOut(s.(deadline := U32(now + 2000)), [TxEnd])
      else
        var o := SendWhole(s, image, avail, now);
        o.(tx := (if s.gotAnyAck then [] else [TxBegin(s.size, s.crc)]) + o.tx)
  }
}
