/**
 The push receiver as the firmware runs it: one object with a window buffer, a frame queue
 filled by the radio task, and handlers that update its fields in place. `outbox` is what it
 handed to the radio; `flash` and `booted` are the update partition. Every handler is proved
 to do exactly what the function of the same name in module PushProtocol says.
 */
module PushReceiver {
  import opened Words
  import opened Crc
  import opened Masks
  import opened PushLayout
  import opened PushProtocol
  import opened Ring
  import Spec = PushProtocol

  /** Slot i of the flat window buffer. */
  function Slot(buf: seq<byte>, i: nat): seq<byte>
    requires |buf| == WINDOW_BYTES && i < WINDOW_FRAMES
  {
    buf[i * FRAME_DATA..(i + 1) * FRAME_DATA]
  }

  function Slots(buf: seq<byte>): seq<seq<byte>>
    requires |buf| == WINDOW_BYTES
  {
    seq(WINDOW_FRAMES, i requires 0 <= i < WINDOW_FRAMES => Slot(buf, i))
  }

  /** The buffer after the first n bytes of data went to position `at`. */
  predicate Written(was: seq<byte>, buf: seq<byte>, at: nat, data: seq<byte>, n: nat)
    requires n <= |data|
  {
    |buf| == |was| && forall m :: 0 <= m < |was| ==> buf[m] == if at <= m < at + n then data[m - at] else was[m]
  }

  /** Copying into the front of slot i changes that slot only. */
  lemma SlotWritten(was: seq<byte>, buf: seq<byte>, i: nat, data: seq<byte>)
    requires |was| == |buf| == WINDOW_BYTES && i < WINDOW_FRAMES && |data| <= FRAME_DATA
    requires Written(was, buf, i * FRAME_DATA, data, |data|)
    ensures Slots(buf) == Slots(was)[i := data + Slots(was)[i][|data|..]]
  {
    forall j | 0 <= j < WINDOW_FRAMES
      ensures Slot(buf, j) == if j == i then data + Slot(was, i)[|data|..] else Slot(was, j)
    {
      SlotRead(was, buf, i, data, j);
    }
  }

  lemma SlotAt(buf: seq<byte>, j: nat, k: nat)
    requires |buf| == WINDOW_BYTES && j < WINDOW_FRAMES && k < FRAME_DATA
    ensures |Slot(buf, j)| == FRAME_DATA && Slot(buf, j)[k] == buf[j * FRAME_DATA + k]
  {
  }

  lemma SlotRead(was: seq<byte>, buf: seq<byte>, i: nat, data: seq<byte>, j: nat)
    requires |was| == |buf| == WINDOW_BYTES && i < WINDOW_FRAMES && j < WINDOW_FRAMES && |data| <= FRAME_DATA
    requires Written(was, buf, i * FRAME_DATA, data, |data|)
    ensures Slot(buf, j) == if j == i then data + Slot(was, i)[|data|..] else Slot(was, j)
  {
    hide Slot;
    SlotAt(buf, j, 0);
    SlotAt(was, j, 0);
    forall k | 0 <= k < FRAME_DATA
      ensures Slot(buf, j)[k] == if j == i && k < |data| then data[k] else Slot(was, j)[k]
    {
      SlotAt(buf, j, k);
      SlotAt(was, j, k);
    }
  }

  lemma SlotFront(buf: seq<byte>, i: nat, n: nat)
    requires |buf| == WINDOW_BYTES && i < WINDOW_FRAMES && n <= FRAME_DATA
    ensures Slots(buf)[i][..n] == buf[i * FRAME_DATA..i * FRAME_DATA + n]
  {
  }

  class Device {
    var outbox: seq<Ack>    // handed to the radio for `srcMac`
    var busyTo: seq<Mac>    // boxes that got the busy reply
    var flash: seq<byte>
    var booted: bool
    var updating: bool      // an update is open: begun, not yet ended or aborted
    var libError: bv8       // what the update library reports when an access fails

    var srcMac: Mac

    var state: RState
    var size: u32
    var want: bv32
    var total: u32
    var window: u16
    var have: bv32
    const winBuf: array<byte>
    var bytesDone: nat
    var crc: bv32
    var failCode: AckStatus
    var updErr: bv8
    var lastRx: u32
    var lastAck: u32
    const queue: RingBuffer<seq<byte>>

    ghost predicate Valid()
      reads this, queue
    {
      && winBuf.Length == WINDOW_BYTES && queue.Valid() && queue.slots.Length == QUEUE
      && (updating <==> state == Receiving)
    }

    /** The window buffer as sixteen slots. */
    ghost function SlotsNow(): seq<seq<byte>>
      requires winBuf.Length == WINDOW_BYTES
      reads winBuf
    {
      Slots(winBuf[..])
    }

    /** The object's fields as one value. */
    ghost function Value(): Receiver
      requires Valid()
      reads this, winBuf, queue, queue.slots
    {
      Receiver.Receiver(state, size, want, total, window, have, SlotsNow(), bytesDone, crc, failCode,
                        lastRx, lastAck, queue.Contents(), flash, booted, libError, updErr)
    }

    /** Outcome of a handler: the new state, and the acks sent. */
    twostate predicate Did(o: Out)
      requires Valid()
      reads this, winBuf, queue, queue.slots
    {
      Value() == o.r && outbox == old(outbox) + o.acks
    }

    constructor (libraryError: bv8)
      ensures Valid() && fresh(winBuf) && fresh(queue) && fresh(queue.slots)
      ensures Value().Shaped() && state == RIdle && window == 0 && !booted && outbox == [] && queue.Contents() == []
    {
      outbox, busyTo, flash, booted, updating, libError, updErr := [], [], [], false, false, libraryError, 0;
      srcMac := [0, 0, 0, 0, 0, 0];
      state, size, want, total, window, have := RIdle, 0, 0, 0, 0, 0;
      bytesDone, crc, failCode, lastRx, lastAck := 0, 0, WindowAck, 0, 0;
      winBuf := new byte[WINDOW_BYTES];
      queue := new RingBuffer(QUEUE);
    }

    /** Runs in the radio task; only frames of the transfer's own sender count. */
    method OnRaw(mac: Mac, raw: seq<byte>)
      requires Valid()
      modifies queue, queue.slots
      ensures Valid() && Did(Out(if mac == srcMac then Spec.OnRaw(old(Value()), raw) else old(Value()), []))
    {
      if state != Receiving || |raw| < RAW_HDR || |raw| > 250 || raw[..4] != RAW_MAGIC { return; }
      if mac != srcMac { return; }
      queue.Push(raw);
    }

    method SendAck(a: Ack, now: u32)
      modifies `outbox, `lastAck
      ensures outbox == old(outbox) + [a] && lastAck == now
    {
      outbox := outbox + [a];
      lastAck := now;
    }

    /** A lost ack stalls the sender, so the important ones go out twice. */
    method SendTwice(a: Ack, now: u32)
      modifies `outbox, `lastAck
      ensures outbox == old(outbox) + [a, a] && lastAck == now
    {
      SendAck(a, now);
      SendAck(a, now);
    }

    /** The library's error is kept before the update is aborted, and relayed twice. */
    method Abandon(status: AckStatus, now: u32)
      modifies `outbox, `lastAck, `updErr, `updating, `failCode, `state
      ensures updErr == libError && !updating && failCode == status && state == RFailed && lastAck == now
      ensures outbox == old(outbox) + [Ack(NO_WINDOW, 0, status, libError), Ack(NO_WINDOW, 0, status, libError)]
    {
      updErr := libError;
      updating := false;
      failCode := status;
      state := RFailed;
      SendTwice(Ack(NO_WINDOW, 0, status, updErr), now);
    }

    method Fail(status: AckStatus, now: u32)
      requires Valid()
      modifies `outbox, `lastAck, `updErr, `updating, `failCode, `state
      ensures Valid() && Did(Spec.Fail(old(Value()), status, now))
    {
      hide Slots, Device.SlotsNow, RingBuffer<seq<byte>>.Contents;
      Abandon(status, now);
    }

    /** BEGIN from the sender, from another box during a transfer, or for a new transfer. */
    method OnBegin(mac: Mac, imageSize: u32, imageCrc: bv32, beginOk: bool, now: u32)
      requires Valid() && (beginOk ==> imageSize <= MAX_SIZE)
      modifies this
      ensures Valid()
      ensures old(state) == Receiving && mac != old(srcMac) ==>
        Did(Out(old(Value()), [])) && srcMac == old(srcMac) && busyTo == old(busyTo) + [mac]
      ensures !(old(state) == Receiving && mac != old(srcMac)) ==>
        Did(Spec.OnBegin(old(Value()), imageSize, imageCrc, beginOk, now)) && srcMac == mac && busyTo == old(busyTo)
    {
      hide Slots, TotalFrames, Device.SlotsNow, RingBuffer<seq<byte>>.Contents;
      if state == Receiving && mac != srcMac {
        busyTo := busyTo + [mac];
      } else if state == Receiving {
        lastRx := now;
      } else {
        srcMac := mac;
        Accept(imageSize, imageCrc, beginOk, now);
      }
    }

    /** A new transfer: refused, or started. */
    method Accept(imageSize: u32, imageCrc: bv32, beginOk: bool, now: u32)
      requires Valid() && state != Receiving && (beginOk ==> imageSize <= MAX_SIZE)
      modifies `outbox, `lastAck, `updErr, `updating, `failCode, `state, `size, `want, `flash, `total, `window, `have,
               `bytesDone, `crc, `lastRx
      ensures Valid() && Did(Spec.OnBegin(old(Value()), imageSize, imageCrc, beginOk, now))
    {
      hide Slots, Device.SlotsNow, TotalFrames, RingBuffer<seq<byte>>.Contents, Spec.Fail, Accepted;
      if imageSize == 0 || !beginOk {
        size, want := imageSize, imageCrc;
        Fail(FinalFlash, now);
      } else {
        Open(imageSize, imageCrc, now);
      }
    }

    /** An empty partition and an empty first window. */
    method Open(imageSize: u32, imageCrc: bv32, now: u32)
      requires Valid()
      modifies `size, `want, `flash, `total, `window, `have, `bytesDone, `crc, `state, `lastRx, `updating
      ensures Valid() && Value() == Accepted(old(Value()), imageSize, imageCrc, now)
    {
      hide Slots, Device.SlotsNow, TotalFrames, RingBuffer<seq<byte>>.Contents;
      Reset(imageSize, imageCrc, now);
    }

    method Reset(imageSize: u32, imageCrc: bv32, now: u32)
      modifies `size, `want, `flash, `total, `window, `have, `bytesDone, `crc, `state, `lastRx, `updating
      ensures size == imageSize && want == imageCrc && total == TotalFrames(size) && window == 0 && have == 0
      ensures flash == [] && bytesDone == 0 && crc == 0 && state == Receiving && lastRx == now && updating
    {
      size, want := imageSize, imageCrc;
      flash, updating := [], true;
      total := TotalFrames(size);
      window, have, bytesDone, crc := 0, 0, 0, 0;
      state, lastRx := Receiving, now;
    }

    method OnEnd(mac: Mac, endOk: bool, now: u32)
      requires Valid()
      modifies `outbox, `lastAck, `lastRx, `updErr, `updating, `failCode, `state, `booted
      ensures Valid() && Did(if mac == srcMac then Spec.OnEnd(old(Value()), endOk, now) else Out(old(Value()), []))
    {
      hide Slots, WindowMask, Missing, Concluded, Device.SlotsNow, RingBuffer<seq<byte>>.Contents;
      if state != Receiving || mac != srcMac { return; }
      lastRx := now;
      if window * WINDOW_FRAMES < total {
        SendAck(Ack(window, Missing(WindowMask(total, window), have), WindowAck), now);
      } else {
        Conclude(endOk, now);
      }
    }

    /** Everything has come: the size and CRC check, then the update library's own. */
    method Conclude(endOk: bool, now: u32)
      requires Valid() && state == Receiving
      modifies `outbox, `lastAck, `updErr, `updating, `failCode, `state, `booted
      ensures Valid() && Did(Concluded(old(Value()), endOk, now))
    {
      hide Slots, Spec.Fail, Device.SlotsNow, RingBuffer<seq<byte>>.Contents;
      if bytesDone != size || crc != want {
        Fail(FinalCrc, now);
      } else if !endOk {
        Fail(FinalFlash, now);
      } else {
        Finish(now);
      }
    }

    /** The boot slot is switched; the good news goes out twice. */
    method Finish(now: u32)
      modifies `outbox, `lastAck, `updating, `state, `booted
      ensures outbox == old(outbox) + [Ack(NO_WINDOW, 0, FinalOk), Ack(NO_WINDOW, 0, FinalOk)]
      ensures lastAck == now && state == RDone && booted && !updating
    {
      booted := true;
      updating := false;
      state := RDone;
      SendTwice(Ack(NO_WINDOW, 0, FinalOk), now);
    }

    /** The write loop of a complete window; stops at the first failing write. */
    method WriteWindow(good: nat) returns (ok: bool)
      requires Valid() && Value().Shaped() && state == Receiving && window < Windows(size)
      modifies `flash, `crc, `bytesDone
      ensures (Value(), ok) == WriteFrames(old(Value()), 0, good)
    {
      hide TotalFrames, Windows, FramesIn, FrameLen, Receiver.Shaped, Crc32, WriteFrames,
           Slots, RingBuffer<seq<byte>>.Contents;
      ghost var r := Value();
      ghost var q := r;
      var frames := FramesIn(total, window);
      var i := 0;
      while i < frames && i < good
        invariant 0 <= i <= frames
        invariant q == r.(flash := flash, crc := crc, bytesDone := bytesDone) && q.Shaped()
        invariant WriteFrames(r, 0, good) == WriteFrames(q, i, good)
      {
        WriteFramesUnfold(q, i, good);
        var n := FrameLen(size, window * WINDOW_FRAMES + i);
        var data := winBuf[i * FRAME_DATA..i * FRAME_DATA + n];
        SlotFront(winBuf[..], i, n);
        crc := ComputeCrc32(crc, data);
        flash := flash + data;
        bytesDone := bytesDone + n;
        q := q.(flash := flash, crc := crc, bytesDone := bytesDone);
        i := i + 1;
      }
      WriteFramesUnfold(q, i, good);
      ok := i == frames;
    }

    method FinishWindow(good: nat, now: u32)
      requires Valid() && Value().Shaped() && state == Receiving && window < Windows(size)
      modifies `outbox, `lastAck, `updErr, `updating, `failCode, `state, `flash, `crc, `bytesDone, `window, `have
      ensures Valid() && Did(Spec.FinishWindow(old(Value()), good, now))
    {
      hide TotalFrames, Windows, WriteFrames, Receiver.Shaped, Slots, Device.SlotsNow, RingBuffer<seq<byte>>.Contents,
           Spec.Fail;
      WriteFramesFrame(Value(), 0, good);
      var ok := WriteWindow(good);
      if !ok {
        Fail(FinalFlash, now);
      } else {
        NextWindow(now);
      }
    }

    /** The window is complete: said twice, and on to the next one. */
    method NextWindow(now: u32)
      requires Valid()
      modifies `outbox, `lastAck, `window, `have
      ensures Valid() && Did(Out(old(Value()).(window := U16(old(window) + 1), have := 0, lastAck := now),
                                 [Ack(old(window), 0, WindowAck), Ack(old(window), 0, WindowAck)]))
    {
      hide Slots, Device.SlotsNow, RingBuffer<seq<byte>>.Contents;
      SendTwice(Ack(window, 0, WindowAck), now);
      window := U16(window + 1);
      have := 0;
    }

    /** Copies the payload into its slot of the window buffer. */
    method Store(i: nat, data: seq<byte>)
      requires Valid() && Value().Shaped() && i < WINDOW_FRAMES && |data| <= FRAME_DATA
      modifies `have, winBuf
      ensures Value() == Stored(old(Value()), i, data)
    {
      hide Receiver.Shaped, RingBuffer<seq<byte>>.Contents, TotalFrames, Windows, SetBit;
      assert Slots(winBuf[..])[i] == Slot(winBuf[..], i);
      ghost var was := winBuf[..];
      var at := i * FRAME_DATA;
      var j := 0;
      while j < |data|
        invariant 0 <= j <= |data|
        invariant Written(was, winBuf[..], at, data, j) && have == old(have)
      {
        winBuf[at + j] := data[j];
        j := j + 1;
      }
      SlotWritten(was, winBuf[..], i, data);
      have := SetBit(have, i);
    }

    /** The window is flashed as soon as every frame of it is in. */
    method Complete(good: nat, now: u32)
      requires Valid() && Value().Shaped() && state == Receiving && window < Windows(size)
      modifies `outbox, `lastAck, `updErr, `updating, `failCode, `state, `flash, `crc, `bytesDone, `window, `have
      ensures Valid() && Did(Completed(old(Value()), good, now))
    {
      hide TotalFrames, Windows, Spec.FinishWindow, Receiver.Shaped, Slots, LowMask,
           Device.SlotsNow, RingBuffer<seq<byte>>.Contents;
      if Covers(have, WindowMask(total, window)) { FinishWindow(good, now); }
    }

    /** A frame of another window: an old one is answered now and then. */
    method HandleOld(raw: seq<byte>, good: nat, now: u32)
      requires Valid() && Value().Shaped() && state == Receiving && RAW_HDR <= |raw| <= 250 && IndexOf(raw) < total
      requires !(0 <= IndexOf(raw) - window * WINDOW_FRAMES < WINDOW_FRAMES)
      modifies `outbox, `lastAck, `lastRx
      ensures Valid() && Did(HandleFrame(old(Value()), raw, good, now))
    {
      hide TotalFrames, Windows, Receiver.Shaped, Slots, Device.SlotsNow, RingBuffer<seq<byte>>.Contents, Stored, Completed,
           IndexOf, U16, U32;
      lastRx := now;
      var idx := IndexOf(raw);
      if idx < window * WINDOW_FRAMES && U32(now - lastAck) > 100 {
        SendAck(Ack(U16(idx / WINDOW_FRAMES), 0, WindowAck), now);
      }
    }

    /** A frame of the current window: stored, and the window flashed if that completed it. */
    method HandleNew(i: nat, data: seq<byte>, good: nat, now: u32)
      requires Valid() && Value().Shaped() && state == Receiving && window < Windows(size)
      requires i < WINDOW_FRAMES && |data| <= FRAME_DATA
      modifies `lastRx, winBuf, `outbox, `lastAck, `updErr, `updating, `failCode, `state, `flash, `crc, `bytesDone,
               `window, `have
      ensures old(Value()).(lastRx := now).Shaped()
      ensures Valid() && Did(Completed(Stored(old(Value()).(lastRx := now), i, data), good, now))
    {
      hide TotalFrames, Windows, Receiver.Shaped, Slots, Device.SlotsNow, RingBuffer<seq<byte>>.Contents, Stored, Completed,
           IndexOf;
      ghost var r := Value();
      ClocksDoNotShape(r, now, lastAck);
      StoredShaped(r.(lastRx := now), i, data);
      StoredFrame(r.(lastRx := now), i, data);
      lastRx := now;
      Store(i, data);
      Complete(good, now);
    }

    /** One frame taken from the queue. */
    method Handle(raw: seq<byte>, good: nat, now: u32)
      requires Valid() && Value().Shaped() && state == Receiving && RAW_HDR <= |raw| <= 250 && IndexOf(raw) < total
      modifies `lastRx, winBuf, `outbox, `lastAck, `updErr, `updating, `failCode, `state, `flash, `crc, `bytesDone,
               `window, `have
      ensures Valid() && Did(HandleFrame(old(Value()), raw, good, now))
    {
      hide TotalFrames, Windows, Receiver.Shaped, Slots, Device.SlotsNow, RingBuffer<seq<byte>>.Contents, Stored, Completed,
           IndexOf, HandleFrame;
      var first := window * WINDOW_FRAMES;
      if first <= IndexOf(raw) < first + WINDOW_FRAMES {
        TakesFrame(Value(), raw, good, now);
        HandleNew(IndexOf(raw) - first, raw[RAW_HDR..], good, now);
      } else {
        HandleOld(raw, good, now);
      }
    }

    /** One turn of the drain loop: takes a frame from the queue, if there is one, and handles it. */
    method Turn(good: nat, now: u32) returns (more: bool)
      requires Valid() && Value().Shaped() && state == Receiving
      modifies this, winBuf, queue
      ensures Valid() && Value().Shaped() && more == (old(queue.Contents()) != [])
      ensures Did(Pop(old(Value()), good, now))
      ensures more ==> queue.Contents() == old(queue.Contents())[1..]
      ensures srcMac == old(srcMac) && busyTo == old(busyTo)
    {
      hide TotalFrames, Windows, Receiver.Shaped, Slots, HandleFrame, Drain, IndexOf,
           Device.SlotsNow, RingBuffer<seq<byte>>.Contents;
      DrainUnfold(Value(), good, now);
      var raw;
      more, raw := queue.Pop();
      if more { Handle(raw, good, now); }
    }

    /** The periodic ack: frames are missing and nothing has come for a while. */
    method Poll(now: u32)
      requires Valid()
      modifies `outbox, `lastAck
      ensures Valid() && Did(Spec.Poll(old(Value()), now))
    {
      hide TotalFrames, Windows, Receiver.Shaped, Slots, LowMask, Missing, Device.SlotsNow, RingBuffer<seq<byte>>.Contents;
      if state == Receiving && U32(now - lastAck) > 250 && U32(now - lastRx) > 150 && have != 0 {
        SendAck(Ack(window, Missing(WindowMask(total, window), have), WindowAck), now);
      }
    }

    /** Drains the queue, then tells the sender what is missing if it is time. */
    method Loop(good: nat, now: u32)
      requires Valid() && Value().Shaped()
      modifies this, winBuf, queue
      ensures Valid() && Did(ReceiverLoop(old(Value()), good, now)) && srcMac == old(srcMac) && busyTo == old(busyTo)
    {
      hide TotalFrames, Windows, Receiver.Shaped, Slots, Drain, IndexOf, Spec.Pop, Spec.Poll,
           Device.SlotsNow, RingBuffer<seq<byte>>.Contents;
      ghost var r, sent := Value(), [];
      var more := true;
      while state == Receiving && more
        invariant Valid() && Value().Shaped() && outbox == old(outbox) + sent
        invariant Drain(r, good, now) == Out(Drain(Value(), good, now).r, sent + Drain(Value(), good, now).acks)
        invariant !more ==> queue.Contents() == []
        invariant srcMac == old(srcMac) && busyTo == old(busyTo)
        decreases |queue.Contents()|, more
      {
        ghost var v := Value();
        DrainIsPops(v, good, now);
        more := Turn(good, now);
        sent := sent + Spec.Pop(v, good, now).acks;
      }
      DrainIsPops(Value(), good, now);
      Poll(now);
    }
  }
}
