/**
 The receiver among arbitrary peers: any BEGIN with any size and checksum, any frame contents,
 any END, in any order. Whatever it is sent, it boots only an image that has the announced size
 and checksum.
 */
module PushIntegrity {
  import opened Words
  import opened Crc
  import opened Masks
  import opened PushLayout
  import opened PushProtocol

  // --- one call ------------------------------------------------------------------------------

  /** Both copies of a final ack. */
  function Twice(status: AckStatus, detail: bv8): seq<Ack> {
    [Ack(0xFFFF, 0, status, detail), Ack(0xFFFF, 0, status, detail)]
  }

  /** END with every window flashed: the checksum and the size decide, then the update library. */
  lemma EndDecides(r: Receiver, endOk: bool, now: u32)
    requires r.state == Receiving && !r.booted && r.window * WINDOW_FRAMES >= r.total
    ensures var o := OnEnd(r, endOk, now);
      var right := r.bytesDone == r.size && r.crc == r.want;
      && (o.r.booted <==> right && endOk)
      && (o.r.booted ==> o.r.state == RDone && o.acks == Twice(FinalOk, 0))
      && (!right ==> o.r.state == RFailed && o.r.failCode == FinalCrc && o.acks == Twice(FinalCrc, r.libError))
      && (right && !endOk ==> o.r.state == RFailed && o.r.failCode == FinalFlash && o.acks == Twice(FinalFlash, r.libError))
      && o.r.flash == r.flash && o.r.size == r.size && o.r.want == r.want
      && o.r.bytesDone == r.bytesDone && o.r.crc == r.crc && o.r.state in {RDone, RFailed}
  {
  }

  /** Before the last window is flashed END only asks for the missing frames; otherwise it is ignored. */
  lemma EarlyEnd(r: Receiver, endOk: bool, now: u32)
    requires r.state != Receiving || r.window * 16 < r.total
    ensures var o := OnEnd(r, endOk, now);
      o == if r.state != Receiving then Out(r, [])
           else Out(r.(lastRx := now, lastAck := now), [Ack(r.window, Missing(r.Expected(), r.have), WindowAck)])
  {
  }

  /** A BEGIN during a transfer only shows that the sender is there. */
  lemma RepeatedBegin(r: Receiver, size: u32, crc: bv32, beginOk: bool, now: u32)
    requires r.state == Receiving && (beginOk ==> size <= MAX_SIZE)
    ensures OnBegin(r, size, crc, beginOk, now) == Out(r.(lastRx := now), [])
  {
  }

  /** BEGIN to an idle receiver is refused with FINAL_FLASH, twice, or starts an empty transfer. */
  lemma BeginDecides(r: Receiver, size: u32, crc: bv32, beginOk: bool, now: u32)
    requires r.state != Receiving && (beginOk ==> size <= MAX_SIZE)
    ensures var o := OnBegin(r, size, crc, beginOk, now);
      if size > 0 && beginOk then
        && o.r.state == Receiving && o.r.size == size && o.r.want == crc && o.r.flash == [] && o.acks == []
        && o.r.window == 0 && o.r.have == 0 && o.r.bytesDone == 0 && o.r.crc == 0
      else
        && o.r.state == RFailed && o.r.failCode == FinalFlash && o.r.updErr == r.libError
        && o.acks == Twice(FinalFlash, r.libError) && o.r.flash == r.flash
  {
  }

  // --- runs ------------------------------------------------------------------------------------

  datatype Input =
    | Begin(size: u32, crc: bv32, ok: bool, now: u32)
    | End(ok: bool, now: u32)
    | Queue(raw: seq<byte>)
    | Pop(good: nat, now: u32)
    | Poll(now: u32)

  /** A frame may be queued long after it passed the radio task's tests, but not before a BEGIN. */
  predicate Enabled(r: Receiver, i: Input) {
    match i
    case Begin(size, crc, ok, _) => r.state in {RIdle, Receiving} && (ok ==> size <= MAX_SIZE)
    case Queue(raw) => r.state != RIdle && RAW_HDR <= |raw| <= 250 && (r.state == Receiving ==> IndexOf(raw) < r.total)
    case _ => true
  }

  /** What the receiver does with an input, and which acks it sends. */
  function Outcome(r: Receiver, i: Input): Out
    requires r.Shaped() && Enabled(r, i)
  {
    match i
    case Begin(size, crc, ok, now) => OnBegin(r, size, crc, ok, now)
    case End(ok, now) => OnEnd(r, ok, now)
    case Queue(raw) => Out(Enqueue(r, raw), [])
    case Pop(good, now) => PushProtocol.Pop(r, good, now)
    case Poll(now) => PushProtocol.Poll(r, now)
  }

  function Next(r: Receiver, i: Input): Receiver
    requires r.Shaped() && Enabled(r, i)
  {
    Outcome(r, i).r
  }

  /** From power-up on. */
  ghost predicate Run(rs: seq<Receiver>, ins: seq<Input>) {
    && |rs| == |ins| + 1 && rs[0].Shaped() && rs[0].state == RIdle && !rs[0].booted && rs[0].queue == []
    && forall k :: 0 <= k < |ins| ==> Enabled(rs[k], ins[k]) && (rs[k].Shaped() ==> rs[k + 1] == Next(rs[k], ins[k]))
  }

  /** The counters are true of the flash, and the boot slot is switched only for a checked image. */
  predicate Counted(r: Receiver) {
    && (r.state == RIdle ==> r.queue == [])
    && (r.booted <==> r.state == RDone)
    && (r.state in {Receiving, RDone} ==> r.bytesDone == |r.flash| && r.crc == Crc32(0, r.flash))
    && (r.state == RDone ==> r.bytesDone == r.size && r.crc == r.want)
  }

  /** Size and checksum are those announced by the BEGIN that was accepted. */
  ghost predicate Announced(ins: seq<Input>, p: nat, k: nat, r: Receiver) {
    p < k <= |ins| && ins[p].Begin? && ins[p].ok && ins[p].size == r.size && ins[p].crc == r.want
  }

  lemma {:induction false} WritesCount(r: Receiver, i: nat, good: nat)
    requires r.Shaped() && r.state == Receiving && r.window < Windows(r.size) && i <= FramesIn(r.total, r.window)
    requires r.bytesDone == |r.flash| && r.crc == Crc32(0, r.flash)
    ensures var f := WriteFrames(r, i, good).0; f.bytesDone == |f.flash| && f.crc == Crc32(0, f.flash)
    decreases FramesIn(r.total, r.window) - i
  {
    hide Crc32, TotalFrames, Windows, FrameLen, FramesIn, WriteFrames, Receiver.Shaped;
    WriteFramesUnfold(r, i, good);
    if i < FramesIn(r.total, r.window) && i < good {
      var n := FrameLen(r.size, r.window * WINDOW_FRAMES + i);
      var data := r.slots[i][..n];
      Crc32Composes(0, r.flash, data);
      WritesCount(r.(flash := r.flash + data, crc := Crc32(r.crc, data), bytesDone := r.bytesDone + n), i + 1, good);
    }
  }

  lemma FinishCounts(r: Receiver, good: nat, now: u32)
    requires r.Shaped() && r.state == Receiving && r.window < Windows(r.size) && Counted(r)
    ensures var f := FinishWindow(r, good, now).r; Counted(f) && f.size == r.size && f.want == r.want
    ensures FinishWindow(r, good, now).r.state in {Receiving, RFailed}
  {
    hide Crc32, TotalFrames, Windows, FramesIn, WriteFrames, Receiver.Shaped;
    WritesCount(r, 0, good);
    WriteFramesFrame(r, 0, good);
  }

  /** A frame of any content counts right, whether it is stored or not. */
  lemma HandleCounts(r: Receiver, raw: seq<byte>, good: nat, now: u32)
    requires r.Shaped() && r.state == Receiving && RAW_HDR <= |raw| <= 250 && IndexOf(raw) < r.total && Counted(r)
    ensures var q := HandleFrame(r, raw, good, now).r;
      Counted(q) && q.size == r.size && q.want == r.want && q.state in {Receiving, RFailed}
  {
    hide HandleFrame, TotalFrames, Windows, IndexOf, Completed, Stored, Receiver.Shaped, Crc32;
    var i := IndexOf(raw) - r.window * WINDOW_FRAMES;
    if 0 <= i < WINDOW_FRAMES {
      ClocksDoNotShape(r, now, r.lastAck);
      TakesFrame(r, raw, good, now);
      StoredShaped(r.(lastRx := now), i, raw[RAW_HDR..]);
      StoredFrame(r.(lastRx := now), i, raw[RAW_HDR..]);
      CompletedCounts(Stored(r.(lastRx := now), i, raw[RAW_HDR..]), good, now);
    } else {
      PassesFrame(r, raw, good, now);
    }
  }

  lemma CompletedCounts(r: Receiver, good: nat, now: u32)
    requires r.Shaped() && r.state == Receiving && r.window < Windows(r.size) && Counted(r)
    ensures var q := Completed(r, good, now).r;
      Counted(q) && q.size == r.size && q.want == r.want && q.state in {Receiving, RFailed}
  {
    hide FinishWindow, TotalFrames, Windows, Receiver.Shaped, Crc32;
    FinishCounts(r, good, now);
  }

  /** What an input may do to the announcement. */
  predicate Keeps(r: Receiver, i: Input, q: Receiver) {
    && q.Shaped() && Counted(q)
    && (q.state in {Receiving, RDone} ==>
         if r.state in {Receiving, RDone} then q.size == r.size && q.want == r.want
         else i.Begin? && i.ok && q.size == i.size && q.want == i.crc)
  }

  lemma PopKeeps(r: Receiver, good: nat, now: u32)
    requires r.Shaped() && Counted(r)
    ensures Keeps(r, Pop(good, now), Next(r, Pop(good, now)))
  {
    hide HandleFrame, Receiver.Shaped, Crc32;
    DrainIsPops(r, good, now);
    if r.state == Receiving && r.queue != [] {
      DrainUnfold(r, good, now);
      HandleCounts(r.(queue := r.queue[1..]), r.queue[0], good, now);
    }
  }

  lemma BeginKeeps(r: Receiver, i: Input)
    requires r.Shaped() && Counted(r) && Enabled(r, i) && i.Begin?
    ensures Keeps(r, i, Next(r, i))
  {
    hide TotalFrames, Windows, IndexOf, Raw32;
    EmptyCrc();
  }

  lemma EmptyCrc()
    ensures Crc32(0, []) == 0
  {
    Crc32Composes(0, [], []);
  }

  lemma EndKeeps(r: Receiver, i: Input)
    requires r.Shaped() && Counted(r) && Enabled(r, i) && i.End?
    ensures Keeps(r, i, Next(r, i))
  {
    hide OnEnd, Crc32, Receiver.Shaped;
    EndLeaves(r, i.ok, i.now);
    SameShape(r, OnEnd(r, i.ok, i.now).r);
    if r.state == Receiving && r.window * WINDOW_FRAMES >= r.total { EndDecides(r, i.ok, i.now); }
  }

  /** What END never touches, and what it does before the last window is flashed. */
  lemma EndLeaves(r: Receiver, ok: bool, now: u32)
    ensures var q := OnEnd(r, ok, now).r;
      && q == r.(state := q.state, booted := q.booted, failCode := q.failCode, updErr := q.updErr,
                 lastRx := q.lastRx, lastAck := q.lastAck)
      && (q.state == r.state ==> q.booted == r.booted) && (r.state != Receiving ==> q == r)
      && (r.state == Receiving && r.window * WINDOW_FRAMES < r.total ==> q.state == Receiving)
  {
    hide WindowMask, Receiver.Expected;
  }

  lemma SameShape(r: Receiver, q: Receiver)
    requires r.Shaped() && q.slots == r.slots && q.queue == r.queue && (q.state == Receiving ==> r.state == Receiving)
    requires q.size == r.size && q.total == r.total && q.window == r.window
    ensures q.Shaped()
  {
    hide TotalFrames, Windows, IndexOf;
  }

  lemma QueueKeeps(r: Receiver, i: Input)
    requires r.Shaped() && Counted(r) && Enabled(r, i) && i.Queue?
    ensures Keeps(r, i, Next(r, i))
  {
    hide TotalFrames, Windows, IndexOf, Crc32;
  }

  lemma PollKeeps(r: Receiver, i: Input)
    requires r.Shaped() && Counted(r) && Enabled(r, i) && i.Poll?
    ensures Keeps(r, i, Next(r, i))
  {
    hide TotalFrames, Windows, IndexOf, Crc32, WindowMask, U32;
  }

  lemma InputKeeps(r: Receiver, i: Input)
    requires r.Shaped() && Counted(r) && Enabled(r, i)
    ensures Keeps(r, i, Next(r, i))
  {
    hide Next, Enabled, Keeps, Counted, Receiver.Shaped;
    match i
    case Begin(_, _, _, _) => BeginKeeps(r, i);
    case End(_, _) => EndKeeps(r, i);
    case Queue(_) => QueueKeeps(r, i);
    case Pop(good, now) => PopKeeps(r, good, now);
    case Poll(_) => PollKeeps(r, i);
  }

  /** Who announced what is being received, or has been booted. */
  lemma {:induction false} WhoAnnounced(rs: seq<Receiver>, ins: seq<Input>, k: nat) returns (p: nat)
    requires Run(rs, ins) && k < |rs|
    ensures rs[k].Shaped() && Counted(rs[k])
    ensures rs[k].state in {Receiving, RDone} ==> Announced(ins, p, k, rs[k])
  {
    hide Next, Enabled, Receiver.Shaped, Counted;
    p := 0;
    if k == 0 {
      assert Counted(rs[0]) by { PowerUpCounts(rs[0]); }
    } else {
      p := WhoAnnounced(rs, ins, k - 1);
      InputKeeps(rs[k - 1], ins[k - 1]);
      if rs[k - 1].state !in {Receiving, RDone} { p := k - 1; }
    }
  }

  lemma PowerUpCounts(r: Receiver)
    requires r.state == RIdle && !r.booted && r.queue == []
    ensures Counted(r)
  {
  }

  /**
   In every run, whatever was announced and whatever the frames contain: the boot slot is
   switched only when the flash has the size and the checksum of the accepted BEGIN.
   */
  lemma BootedMeansChecked(rs: seq<Receiver>, ins: seq<Input>, k: nat) returns (p: nat)
    requires Run(rs, ins) && k < |rs| && (rs[k].booted || rs[k].state == RDone)
    ensures p < k && ins[p].Begin? && ins[p].ok
    ensures |rs[k].flash| == ins[p].size && Crc32(0, rs[k].flash) == ins[p].crc
    ensures rs[k].size == ins[p].size && rs[k].want == ins[p].crc
  {
    hide Next, Enabled, Receiver.Shaped, Crc32;
    p := WhoAnnounced(rs, ins, k);
  }
}
