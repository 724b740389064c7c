/**
 Progress. From any reachable state of a session one loss-free retry round moves the sender
 on by one window, and in the END phase one loss-free round finishes both sides.
 */
module PushProgress {
  import opened Words
  import opened Crc
  import opened Masks
  import opened PushLayout
  import opened PushProtocol
  import opened PushSession

  // --- a loss-free round ---------------------------------------------------------------------

  /** Everything the sender sent reaches the receiver, in order. Flash accepts what fits it. */
  function Heard(r: Receiver, tx: seq<Tx>, now: u32): Out
    decreases |tx|
  {
    if tx == [] then Out(r, [])
    else
      var o := match tx[0]
        case TxBegin(size, crc) =>
          if r.state in {RIdle, Receiving} then OnBegin(r, size, crc, size <= MAX_SIZE, now) else Out(r, [])
        case TxRaw(raw) => Out(OnRaw(r, raw), [])
        case TxEnd => OnEnd(r, true, now);
      var rest := Heard(o.r, tx[1..], now);
      Out(rest.r, o.acks + rest.acks)
  }

  /** All acks reach the sender, in order. */
  function Answered(s: Sender, image: seq<byte>, acks: seq<Ack>, now: u32): Sender
    requires Pushable(|image|) && SGood(image, s)
    decreases |acks|
  {
    if acks == [] then s
    else
      var n := OnAck(s, image, acks[0], WINDOW_FRAMES, now).s;
      if SGood(image, n) then Answered(n, image, acks[1..], now) else n
  }

  /** Retry timer, burst, queue drain, acks. `now` is the sender's clock, `t` the receiver's. */
  function Round(image: seq<byte>, s: Sender, r: Receiver, now: u32, t: u32): (Sender, Receiver)
    requires Pushable(|image|) && SGood(image, s)
  {
    var o := SenderLoop(s, image, WINDOW_FRAMES, now);
    LoopKeeps(image, s, WINDOW_FRAMES, now);
    var h := Heard(r, o.tx, t);
    if !h.r.Shaped() then (o.s, h.r)
    else
      var d := ReceiverLoop(h.r, WINDOW_FRAMES, t);
      (Answered(o.s, image, h.acks + d.acks, now), d.r)
  }

  // --- the burst ---------------------------------------------------------------------------------

  /** The window that starts at frame `first` has n frames, and the sender is at it. */
  predicate AtWindow(s: Sender, image: seq<byte>, first: nat, n: nat) {
    && Pushable(s.size) && s.total == TotalFrames(s.size) && |image| == s.size && s.window < Windows(s.size)
    && first == s.window * WINDOW_FRAMES && n == FramesIn(s.total, s.window)
    && 0 < n <= WINDOW_FRAMES && first + n <= s.total && (first + n - 1) * FRAME_DATA < |image|
  }

  lemma WindowFits(s: Sender, image: seq<byte>)
    requires Pushable(s.size) && s.total == TotalFrames(s.size) && |image| == s.size && s.window < Windows(s.size)
    ensures AtWindow(s, image, s.window * WINDOW_FRAMES, FramesIn(s.total, s.window))
  {
    CountsExact(|image|);
    WindowMaskCoversItsFrames(|image|, s.window, 0);
    hide TotalFrames, Windows, FramesIn;
  }

  /** The raw frames among i..n-1 that the mask asks for, of the window that starts at frame `first`. */
  function Burst(image: seq<byte>, mask: bv32, first: nat, i: nat, n: nat): seq<seq<byte>>
    requires i <= n && first + n <= 0x1_0000_0000 && (n > 0 ==> (first + n - 1) * FRAME_DATA < |image|)
    decreases n - i
  {
    if i == n then []
    else
      (if HasBit(mask, i) then [RawFrame(first + i, Frame(image, first + i))] else []) +
      Burst(image, mask, first, i + 1, n)
  }

  function Raws(rs: seq<seq<byte>>): seq<Tx>
    decreases |rs|
  {
    if rs == [] then [] else [TxRaw(rs[0])] + Raws(rs[1..])
  }

  /** The mask asks for no frame beyond the window. */
  predicate MaskWithin(mask: bv32, n: nat) {
    forall j :: n <= j < WINDOW_FRAMES ==> !HasBit(mask, j)
  }

  lemma SendsIt(s: Sender, image: seq<byte>, mask: bv32, avail: nat, i: nat, first: nat, n: nat)
    requires AtWindow(s, image, first, n) && i < n && avail > 0 && HasBit(mask, i)
    ensures SendFrom(s, image, mask, avail, i).0
         == [TxRaw(RawFrame(first + i, Frame(image, first + i)))] + SendFrom(s, image, mask, avail - 1, i + 1).0
    ensures SendFrom(s, image, mask, avail, i).1 == SendFrom(s, image, mask, avail - 1, i + 1).1
  {
    hide TotalFrames, Windows, FramesIn, FrameLen, Frame, RawFrame, HasBit;
    MadeFramesAreHonest(image, first + i);
  }

  /** With readable input, exactly the frames asked for go out, in order. */
  lemma {:induction false} SendsBurst(s: Sender, image: seq<byte>, mask: bv32, avail: nat, i: nat, first: nat, n: nat)
    requires AtWindow(s, image, first, n) && i <= n && avail >= WINDOW_FRAMES - i && MaskWithin(mask, n)
    ensures SendFrom(s, image, mask, avail, i) == (Raws(Burst(image, mask, first, i, n)), true)
    decreases n - i
  {
    hide TotalFrames, Windows, FramesIn, Frame, RawFrame, HasBit, FrameLen;
    if i == n {
      SkipsRest(s, image, mask, avail, i, n);
    } else if HasBit(mask, i) {
      SendsIt(s, image, mask, avail, i, first, n);
      SendsBurst(s, image, mask, avail - 1, i + 1, first, n);
      var head := RawFrame(first + i, Frame(image, first + i));
      assert ([head] + Burst(image, mask, first, i + 1, n))[1..] == Burst(image, mask, first, i + 1, n);
    } else {
      SendsBurst(s, image, mask, avail, i + 1, first, n);
      assert [] + Burst(image, mask, first, i + 1, n) == Burst(image, mask, first, i + 1, n);
    }
  }

  lemma {:induction false} SkipsRest(s: Sender, image: seq<byte>, mask: bv32, avail: nat, i: nat, n: nat)
    requires Pushable(s.size) && s.total == TotalFrames(s.size) && |image| == s.size && n <= i <= WINDOW_FRAMES
    requires MaskWithin(mask, n)
    ensures SendFrom(s, image, mask, avail, i) == ([], true)
    decreases WINDOW_FRAMES - i
  {
    hide TotalFrames, Windows, FramesIn, Frame, RawFrame, HasBit, FrameLen;
    if i < WINDOW_FRAMES { SkipsRest(s, image, mask, avail, i + 1, n); }
  }

  /** The whole window as the retry timer sends it. */
  lemma SendsAll(s: Sender, image: seq<byte>, now: u32)
    requires Pushable(s.size) && s.total == TotalFrames(s.size) && |image| == s.size && s.window < Windows(s.size)
    ensures var first := s.window * WINDOW_FRAMES; var n := FramesIn(s.total, s.window);
      && AtWindow(s, image, first, n)
      && SendWhole(s, image, WINDOW_FRAMES, now)
         == SOut(s.(deadline := U32(now + 500)), Raws(Burst(image, LowMask(n), first, 0, n)))
  {
    var n := FramesIn(s.total, s.window);
    var mask := WindowMask(s.total, s.window);
    WindowFits(s, image);
    forall j | n <= j < WINDOW_FRAMES ensures !HasBit(mask, j) { LowMaskBits(n, j); }
    hide TotalFrames, Windows, FramesIn, Frame, RawFrame, HasBit, LowMask, SendFrom;
    SendsBurst(s, image, mask, WINDOW_FRAMES, 0, s.window * WINDOW_FRAMES, n);
  }

  lemma {:induction false} BurstIsHonest(image: seq<byte>, mask: bv32, first: nat, i: nat, n: nat)
    requires Pushable(|image|) && i <= n && first + n <= TotalFrames(|image|) && first + n <= 0x1_0000_0000
    requires n > 0 ==> (first + n - 1) * FRAME_DATA < |image|
    ensures |Burst(image, mask, first, i, n)| <= n - i
    ensures forall f :: f in Burst(image, mask, first, i, n) ==> Honest(image, f) && first <= IndexOf(f) < first + n
    decreases n - i
  {
    hide TotalFrames, Frame, RawFrame, IndexOf, Honest;
    if i < n {
      MadeFramesAreHonest(image, first + i);
      BurstIsHonest(image, mask, first, i + 1, n);
    }
  }

  lemma HeardRaw(image: seq<byte>, r: Receiver, f: seq<byte>, tx: seq<Tx>, now: u32)
    requires Pushable(|image|) && Honest(image, f) && r.state == Receiving && |r.queue| < QUEUE - 1
    ensures Heard(r, [TxRaw(f)] + tx, now) == Heard(r.(queue := r.queue + [f]), tx, now)
  {
    hide IndexOf, Honest, OnEnd, OnBegin, Frame, FrameLen, TotalFrames, OnRaw;
    RawIsQueued(image, r, f);
    assert ([TxRaw(f)] + tx)[1..] == tx;
    var rest := Heard(r.(queue := r.queue + [f]), tx, now);
    assert [] + rest.acks == rest.acks;
  }

  lemma RawIsQueued(image: seq<byte>, r: Receiver, f: seq<byte>)
    requires Pushable(|image|) && Honest(image, f) && r.state == Receiving && |r.queue| < QUEUE - 1
    ensures OnRaw(r, f) == r.(queue := r.queue + [f])
  {
    hide IndexOf, Honest, Frame, FrameLen, TotalFrames;
    HonestFrames(image, f);
  }

  /** A burst that fits the queue is queued whole and in order. */
  lemma {:induction false} HeardRaws(image: seq<byte>, r: Receiver, fs: seq<seq<byte>>, now: u32)
    requires Pushable(|image|) && r.state == Receiving && |r.queue| + |fs| < QUEUE
    requires forall f :: f in fs ==> Honest(image, f)
    ensures Heard(r, Raws(fs), now) == Out(r.(queue := r.queue + fs), [])
    decreases |fs|
  {
    hide IndexOf, Honest, Heard, Raws;
    HeardNothing(r, fs, now);
    if fs != [] {
      assert fs[0] in fs && forall f :: f in fs[1..] ==> f in fs;
      HeardRaw(image, r, fs[0], Raws(fs[1..]), now);
      HeardRaws(image, r.(queue := r.queue + [fs[0]]), fs[1..], now);
      assert r.queue + [fs[0]] + fs[1..] == r.queue + fs;
    }
  }

  lemma HeardNothing(r: Receiver, fs: seq<seq<byte>>, now: u32)
    ensures fs == [] ==> Heard(r, Raws(fs), now) == Out(r.(queue := r.queue + fs), [])
    ensures fs != [] ==> Raws(fs) == [TxRaw(fs[0])] + Raws(fs[1..])
  {
    hide OnRaw, OnBegin, OnEnd;
    if fs == [] { assert r.queue + fs == r.queue; }
  }

  // --- draining the burst --------------------------------------------------------------------------

  /** Nothing changes but the clocks and the queue; the old window is acknowledged, at least once if it is time. */
  predicate ReAcks(r: Receiver, d: Out, w: u16, some: bool, t: u32) {
    && d.r == r.(queue := d.r.queue, lastRx := d.r.lastRx, lastAck := d.r.lastAck)
    && (forall a :: a in d.acks ==> a == Ack(w, 0, WindowAck))
    && (r.lastAck == t ==> d.r.lastAck == t)
    && (some && U32(t - r.lastAck) > 100 ==> d.r.lastAck == t && d.acks != [])
  }

  lemma ReAcksTwice(r: Receiver, o: Out, d: Out, w: u16, some: bool, t: u32)
    requires ReAcks(r, o, w, true, t) && ReAcks(o.r, d, w, some, t)
    ensures ReAcks(r, Out(d.r, o.acks + d.acks), w, true, t)
  {
  }

  /** The receiver already flashed the window: its frames are answered and change nothing else. */
  lemma {:induction false} DrainOld(r: Receiver, w: u16, t: u32)
    requires r.Shaped() && r.state == Receiving && r.window == w + 1
    requires forall f :: f in r.queue ==> RAW_HDR <= |f| && w * WINDOW_FRAMES <= IndexOf(f) < (w + 1) * WINDOW_FRAMES
    ensures var d := Drain(r, WINDOW_FRAMES, t); ReAcks(r, d, w, r.queue != [], t) && d.r.queue == []
    decreases |r.queue|
  {
    if r.queue != [] {
      hide ReAcks, TotalFrames, Windows, Drain, IndexOf, HandleFrame;
      assert r.queue[0] in r.queue;
      DrainUnfold(r, WINDOW_FRAMES, t);
      var q := r.(queue := r.queue[1..]);
      var o := HandleFrame(q, r.queue[0], WINDOW_FRAMES, t);
      hide Receiver.Shaped;
      OldStep(r, q, r.queue[0], w, t);
      assert forall f :: f in o.r.queue ==> f in r.queue;
      DrainOld(o.r, w, t);
      ReAcksTwice(r, o, Drain(o.r, WINDOW_FRAMES, t), w, o.r.queue != [], t);
    }
  }

  lemma OldStep(r: Receiver, q: Receiver, raw: seq<byte>, w: u16, t: u32)
    requires q.Shaped() && q.state == Receiving && q.window == w + 1 && q == r.(queue := q.queue)
    requires RAW_HDR <= |raw| <= 250 && IndexOf(raw) < q.total
    requires w * WINDOW_FRAMES <= IndexOf(raw) < (w + 1) * WINDOW_FRAMES
    ensures var o := HandleFrame(q, raw, WINDOW_FRAMES, t);
      && ReAcks(r, o, w, true, t) && o.r.state == Receiving && o.r.window == r.window
  {
    hide TotalFrames, Windows, IndexOf, HandleFrame, Receiver.Shaped;
    OldFrame(q, raw, w, t);
  }

  lemma WindowOf(idx: u32, w: u16)
    requires w * WINDOW_FRAMES <= idx < (w + 1) * WINDOW_FRAMES
    ensures U16(idx / WINDOW_FRAMES) == w
  {
  }

  lemma OldFrame(r: Receiver, raw: seq<byte>, w: u16, t: u32)
    requires r.Shaped() && r.state == Receiving && r.window == w + 1 && RAW_HDR <= |raw| <= 250 && IndexOf(raw) < r.total
    requires w * WINDOW_FRAMES <= IndexOf(raw) < (w + 1) * WINDOW_FRAMES
    ensures HandleFrame(r, raw, WINDOW_FRAMES, t)
         == (var q := r.(lastRx := t);
             if U32(t - r.lastAck) > 100 then Out(q.(lastAck := t), [Ack(w, 0, WindowAck)]) else Out(q, []))
  {
    hide Completed, Stored, TotalFrames, Windows, IndexOf, U16, U32, Receiver.Shaped;
    WindowOf(IndexOf(raw), w);
  }

  /** The current window is flashed, or one frame less is missing from it. */
  predicate OneLess(r: Receiver, o: Out, i: nat, t: u32) {
    && o.r.state == Receiving && o.r.queue == r.queue
    && (Finished(r, o, t)
        || (o.acks == [] && o.r.window == r.window && o.r.total == r.total && o.r.size == r.size
            && o.r.have == SetBit(r.have, i)))
  }

  lemma StoredStep(image: seq<byte>, q: Receiver, i: nat, t: u32)
    requires Pushable(|image|) && RGood(image, q, q.window) && q.state == Receiving && q.window < Windows(q.size)
    requires i < WINDOW_FRAMES && (q.window * WINDOW_FRAMES + i) * FRAME_DATA < |image|
    ensures Stored(q, i, Frame(image, q.window * WINDOW_FRAMES + i)).Shaped()
    ensures OneLess(q, Completed(Stored(q, i, Frame(image, q.window * WINDOW_FRAMES + i)), WINDOW_FRAMES, t), i, t)
  {
    hide TotalFrames, Windows, IndexOf, Honest, HasBit, SetBit, Covers, FinishWindow, Crc32, Flashed, LowMask;
    StoringKeepsSlots(image, q, i);
    var st := Stored(q, i, Frame(image, q.window * WINDOW_FRAMES + i));
    if Covers(st.have, st.Expected()) {
      FinishKeeps(image, st, q.window, WINDOW_FRAMES, t);
    }
  }

  lemma NewStep(image: seq<byte>, r: Receiver, raw: seq<byte>, t: u32)
    requires Pushable(|image|) && RGood(image, r, r.window) && r.state == Receiving && r.window < Windows(r.size)
    requires Honest(image, raw) && 0 <= IndexOf(raw) - r.window * WINDOW_FRAMES < WINDOW_FRAMES && IndexOf(raw) < r.total
    ensures OneLess(r, HandleFrame(r, raw, WINDOW_FRAMES, t), IndexOf(raw) - r.window * WINDOW_FRAMES, t)
  {
    hide HandleFrame, TotalFrames, Windows, IndexOf, Honest, Frame, SetBit, Stored, Completed, RGood, Receiver.Shaped;
    HonestFrames(image, raw);
    GoodIsShaped(image, r, r.window);
    var i := IndexOf(raw) - r.window * WINDOW_FRAMES;
    var q := r.(lastRx := t);
    Touched(image, r, r.window, t, r.lastAck);
    TakesFrame(r, raw, WINDOW_FRAMES, t);
    StoredStep(image, q, i, t);
  }

  /** A frame with this index waits in the queue. */
  predicate Waiting(queue: seq<seq<byte>>, idx: nat) {
    exists f :: f in queue && RAW_HDR <= |f| && IndexOf(f) == idx
  }

  /** Every frame of the current window is already in its slot or waits in the queue, and nothing else does. */
  ghost predicate AtHand(image: seq<byte>, r: Receiver) {
    && (forall f :: f in r.queue ==> Honest(image, f) && 0 <= IndexOf(f) - r.window * WINDOW_FRAMES < WINDOW_FRAMES)
    && forall j :: 0 <= j < FramesIn(r.total, r.window) ==>
         HasBit(r.have, j) || Waiting(r.queue, r.window * WINDOW_FRAMES + j)
  }

  /** Window w is flashed and acknowledged at time t, and only that is said. */
  predicate Flashes(d: Out, w: u16, t: u32) {
    && d.r.state == Receiving && d.r.window == w + 1 && d.r.queue == [] && d.r.lastAck == t
    && d.acks != [] && forall a :: a in d.acks ==> a == Ack(w, 0, WindowAck)
  }

  lemma SomethingWaits(image: seq<byte>, r: Receiver)
    requires Pushable(|image|) && RGood(image, r, r.window) && r.state == Receiving && r.window < Windows(r.size)
    requires AtHand(image, r)
    ensures r.queue != []
  {
    hide TotalFrames, Windows, IndexOf, Honest, HasBit, Covers, FramesIn, LowMask, SlotRight, Crc32;
    if r.queue == [] {
      CoversLowMask(r.have, FramesIn(r.total, r.window));
      assert false;
    }
  }

  lemma InWindow(image: seq<byte>, r: Receiver)
    requires AtHand(image, r)
    ensures forall f :: f in r.queue ==>
              RAW_HDR <= |f| && r.window * WINDOW_FRAMES <= IndexOf(f) < (r.window + 1) * WINDOW_FRAMES
    ensures r.queue != [] ==> forall f :: f in r.queue[1..] ==> f in r.queue
    ensures r.queue != [] ==> r.queue[0] in r.queue
  {
    hide IndexOf, HasBit, FramesIn;
  }

  lemma StillAtHand(image: seq<byte>, r: Receiver, n: Receiver)
    requires AtHand(image, r) && r.queue != [] && n.queue == r.queue[1..]
    requires n.window == r.window && n.total == r.total && RAW_HDR <= |r.queue[0]|
    requires 0 <= IndexOf(r.queue[0]) - r.window * WINDOW_FRAMES < WINDOW_FRAMES
    requires n.have == SetBit(r.have, IndexOf(r.queue[0]) - r.window * WINDOW_FRAMES)
    ensures AtHand(image, n)
  {
    hide IndexOf, Honest, HasBit, SetBit, FramesIn;
    var first := r.window * WINDOW_FRAMES;
    assert forall f :: f in n.queue ==> f in r.queue;
    forall j | 0 <= j < FramesIn(r.total, r.window) ensures HasBit(n.have, j) || Waiting(n.queue, first + j) {
      SetBitBits(r.have, IndexOf(r.queue[0]) - first, j);
      if !HasBit(r.have, j) && IndexOf(r.queue[0]) != first + j {
        var f :| f in r.queue && RAW_HDR <= |f| && IndexOf(f) == first + j;
        assert f in n.queue;
      }
    }
  }

  /** The window was completed with frames still queued: they are all old now. */
  lemma RestIsOld(image: seq<byte>, q: Receiver, o: Out, w: u16, t: u32)
    requires Finished(q, o, t) && q.window == w && o.r.Shaped()
    requires forall f :: f in q.queue ==> RAW_HDR <= |f| && w * WINDOW_FRAMES <= IndexOf(f) < (w + 1) * WINDOW_FRAMES
    ensures Flashes(Out(Drain(o.r, WINDOW_FRAMES, t).r, o.acks + Drain(o.r, WINDOW_FRAMES, t).acks), w, t)
  {
    hide Drain, Receiver.Shaped, IndexOf;
    DrainOld(o.r, w, t);
  }

  /** Once every frame is at hand, in whatever order, the drain flashes and acknowledges the window. */
  lemma {:induction false} DrainNew(image: seq<byte>, r: Receiver, t: u32)
    requires Pushable(|image|) && RGood(image, r, r.window) && r.state == Receiving && r.window < Windows(r.size)
    requires AtHand(image, r)
    ensures Flashes(Drain(r, WINDOW_FRAMES, t), r.window, t)
    decreases |r.queue|
  {
    hide Drain, HandleFrame, TotalFrames, Windows, IndexOf, Honest, HasBit, SetBit, Covers, FramesIn, RGood, AtHand,
         Finished, Flashes, Receiver.Shaped;
    SomethingWaits(image, r);
    GoodIsShaped(image, r, r.window);
    var raw := r.queue[0];
    var q := r.(queue := r.queue[1..]);
    Popped(image, r, r.window);
    HonestFrames(image, raw);
    InWindow(image, r);
    DrainUnfold(r, WINDOW_FRAMES, t);
    var o := HandleFrame(q, raw, WINDOW_FRAMES, t);
    NewStep(image, q, raw, t);
    HandleKeeps(image, q, r.window, raw, WINDOW_FRAMES, t);
    if Finished(q, o, t) {
      RestIsOld(image, q, o, r.window, t);
    } else {
      StillAtHand(image, r, o.r);
      DrainNew(image, o.r, t);
      assert o.acks + Drain(o.r, WINDOW_FRAMES, t).acks == Drain(o.r, WINDOW_FRAMES, t).acks;
    }
  }

  lemma {:induction false} DrainKeeps(image: seq<byte>, r: Receiver, lim: nat, good: nat, t: u32)
    requires Pushable(|image|) && RGood(image, r, lim)
    ensures r.Shaped() && RGood(image, Drain(r, good, t).r, lim)
    decreases |r.queue|
  {
    hide RGood, Pop, Drain, Receiver.Shaped;
    GoodIsShaped(image, r, lim);
    DrainIsPops(r, good, t);
    if r.state == Receiving && r.queue != [] {
      PopKeeps(image, r, lim, good, t);
      DrainKeeps(image, Pop(r, good, t).r, lim, good, t);
    }
  }

  // --- one window ------------------------------------------------------------------------------------

  /** Between rounds: both sides mean the same image and nothing is queued. */
  ghost predicate Synced(image: seq<byte>, s: Sender, r: Receiver) {
    && Pushable(|image|) && SGood(image, s) && RGood(image, r, s.window)
    && s.state == Pushing && s.window <= r.window <= s.window + 1 && r.queue == []
    && (r.state == Receiving || (r.state == RIdle && !s.gotAnyAck))
  }

  /** The retry timer has expired and the receiver's last ack is over 100 ms old. */
  predicate Late(s: Sender, r: Receiver, now: u32, t: u32) {
    now >= s.deadline && U32(t - r.lastAck) > 100
  }

  predicate RetriesLeft(s: Sender) {
    s.retries < (if s.endSent then 8 else 20)
  }

  predicate Ready(s: Sender, r: Receiver, now: u32, t: u32) {
    Late(s, r, now, t) && RetriesLeft(s)
  }

  lemma {:induction false} BurstHas(image: seq<byte>, mask: bv32, first: nat, i: nat, n: nat, j: nat)
    requires Pushable(|image|) && i <= j < n && first + n <= TotalFrames(|image|) && HasBit(mask, j)
    requires (first + n - 1) * FRAME_DATA < |image|
    ensures Waiting(Burst(image, mask, first, i, n), first + j)
    decreases n - i
  {
    hide TotalFrames, Frame, RawFrame, IndexOf, HasBit;
    MadeFramesAreHonest(image, first + j);
    if i < j {
      BurstHas(image, mask, first, i + 1, n, j);
      var f :| f in Burst(image, mask, first, i + 1, n) && RAW_HDR <= |f| && IndexOf(f) == first + j;
      assert f in Burst(image, mask, first, i, n);
    } else {
      assert RawFrame(first + j, Frame(image, first + j)) in Burst(image, mask, first, i, n);
    }
  }

  lemma QueueIsShaped(image: seq<byte>, r: Receiver, fs: seq<seq<byte>>)
    requires r.Shaped() && r.state == Receiving && Pushable(|image|) && r.total == TotalFrames(|image|)
    requires forall f :: f in fs ==> Honest(image, f)
    ensures r.(queue := fs).Shaped()
  {
    hide TotalFrames, Windows, RawFrame, Frame, IndexOf;
    forall i | 0 <= i < |fs| ensures RAW_HDR <= |fs[i]| <= 250 && IndexOf(fs[i]) < r.total {
      assert fs[i] in fs;
      HonestFrames(image, fs[i]);
    }
  }

  /** The mask asks for every frame that is not in its slot. */
  predicate AsksForMissing(mask: bv32, have: bv32, n: nat) {
    forall j :: 0 <= j < n ==> HasBit(have, j) || HasBit(mask, j)
  }

  lemma BurstIsAtHand(image: seq<byte>, r: Receiver, mask: bv32, first: nat, n: nat)
    requires Pushable(|image|) && 0 < n == FramesIn(r.total, r.window) && first == r.window * WINDOW_FRAMES
    requires first + n <= TotalFrames(|image|) && (first + n - 1) * FRAME_DATA < |image|
    requires r.queue == Burst(image, mask, first, 0, n) && AsksForMissing(mask, r.have, n)
    ensures AtHand(image, r)
  {
    hide TotalFrames, Windows, FramesIn, Burst, Honest, HasBit, IndexOf, Frame, RawFrame, Waiting;
    BurstIsHonest(image, mask, first, 0, n);
    forall j | 0 <= j < n ensures HasBit(r.have, j) || Waiting(r.queue, first + j) {
      if !HasBit(r.have, j) { BurstHas(image, mask, first, 0, n, j); }
    }
  }

  predicate InWindowOf(image: seq<byte>, fs: seq<seq<byte>>, w: u16) {
    forall f :: f in fs ==> Honest(image, f) && w * WINDOW_FRAMES <= IndexOf(f) < (w + 1) * WINDOW_FRAMES
  }

  lemma WindowIsQueued(image: seq<byte>, r: Receiver, fs: seq<seq<byte>>, w: u16)
    requires Pushable(|image|) && RGood(image, r, w) && r.state == Receiving && r.queue == [] && InWindowOf(image, fs, w)
    ensures RGood(image, r.(queue := fs), w)
  {
    assert r.Shaped() && r.size == |image| && r.total == TotalFrames(|image|);
    hide TotalFrames, Windows, IndexOf, Honest, RGood, Receiver.Shaped;
    QueueIsShaped(image, r, fs);
    QueueGrows(image, r, r.(queue := fs), w);
  }

  /** Whether the receiver still lacks frames or flashed the window before, the burst gets it acknowledged. */
  lemma BurstIsAcked(image: seq<byte>, s: Sender, r: Receiver, mask: bv32, first: nat, n: nat, t: u32)
    requires AtWindow(s, image, first, n) && r.state == Receiving && r.queue == [] && r.total == s.total
    requires RGood(image, r, s.window) && s.window <= r.window <= s.window + 1
    requires r.window == s.window ==> AsksForMissing(mask, r.have, n)
    requires r.window != s.window ==> U32(t - r.lastAck) > 100 && HasBit(mask, 0)
    ensures r.(queue := Burst(image, mask, first, 0, n)).Shaped()
    ensures var d := ReceiverLoop(r.(queue := Burst(image, mask, first, 0, n)), WINDOW_FRAMES, t);
      Flashes(d, s.window, t) && RGood(image, d.r, s.window)
  {
    hide TotalFrames, Windows, FramesIn, Drain, IndexOf, Honest, AtHand, Burst, ReceiverLoop, RGood, Receiver.Shaped, HasBit;
    var fs := Burst(image, mask, first, 0, n);
    var q := r.(queue := fs);
    BurstIsHonest(image, mask, first, 0, n);
    if r.window == s.window {
      BurstIsAtHand(image, q, mask, first, n);
    } else {
      BurstHas(image, mask, first, 0, n, 0);
    }
    WindowIsQueued(image, r, fs, s.window);
    WindowIsDrained(image, q, s.window, t);
    LoopIsDrain(q, s.window, t);
  }

  lemma LoopIsDrain(q: Receiver, w: u16, t: u32)
    requires q.Shaped() && Flashes(Drain(q, WINDOW_FRAMES, t), w, t)
    ensures ReceiverLoop(q, WINDOW_FRAMES, t) == Drain(q, WINDOW_FRAMES, t)
  {
    hide Drain, Receiver.Shaped;
    var d := Drain(q, WINDOW_FRAMES, t);
    assert d.acks + [] == d.acks;
  }

  lemma WindowIsDrained(image: seq<byte>, q: Receiver, w: u16, t: u32)
    requires Pushable(|image|) && RGood(image, q, w) && q.state == Receiving && InWindowOf(image, q.queue, w)
    requires w < Windows(|image|)
    requires (q.window == w && AtHand(image, q)) || (q.window == w + 1 && q.queue != [] && U32(t - q.lastAck) > 100)
    ensures q.Shaped() && RGood(image, Drain(q, WINDOW_FRAMES, t).r, w) && Flashes(Drain(q, WINDOW_FRAMES, t), w, t)
  {
    assert q.Shaped() && q.size == |image| && forall f :: f in q.queue ==> RAW_HDR <= |f|;
    hide TotalFrames, Windows, Drain, IndexOf, Honest, AtHand, RGood, Receiver.Shaped;
    DrainKeeps(image, q, w, WINDOW_FRAMES, t);
    if q.window == w {
      DrainNew(image, q, t);
    } else {
      DrainOld(q, w, t);
    }
  }

  // --- acks at the sender --------------------------------------------------------------------------

  lemma StaleAck(image: seq<byte>, s: Sender, w: u16, now: u32)
    requires Pushable(|image|) && SGood(image, s) && s.state == Pushing && s.window != w
    ensures OnAck(s, image, Ack(w, 0, WindowAck), WINDOW_FRAMES, now) == SOut(s.(gotAnyAck := true, retries := 0), [])
    ensures SGood(image, s.(gotAnyAck := true, retries := 0))
  {
    hide TotalFrames, Windows, FramesIn, SendWhole, SendWindow, Crc32;
  }

  lemma {:induction false} StaleAcks(image: seq<byte>, s: Sender, acks: seq<Ack>, w: u16, now: u32)
    requires Pushable(|image|) && SGood(image, s) && s.state == Pushing && s.window != w && s.retries == 0
    requires forall a :: a in acks ==> a == Ack(w, 0, WindowAck)
    ensures var n := Answered(s, image, acks, now); SGood(image, n) && n == s.(gotAnyAck := n.gotAnyAck)
    decreases |acks|
  {
    hide TotalFrames, Windows, Crc32, OnAck;
    if acks != [] {
      assert acks[0] in acks && forall a :: a in acks[1..] ==> a in acks;
      StaleAck(image, s, w, now);
      StaleAcks(image, s.(gotAnyAck := true, retries := 0), acks[1..], w, now);
    }
  }

  lemma FirstAck(image: seq<byte>, s: Sender, now: u32)
    requires Pushable(|image|) && SGood(image, s) && s.state == Pushing && s.window < Windows(|image|)
    ensures var n := OnAck(s, image, Ack(s.window, 0, WindowAck), WINDOW_FRAMES, now).s;
      && SGood(image, n) && n.state == Pushing && n.window == s.window + 1 && n.retries == 0
  {
    hide TotalFrames, Windows, FramesIn, SendWhole, SendWindow, Crc32;
    AdvancedIsGood(image, s);
    OnAckAdvances(image, s, Ack(s.window, 0, WindowAck), WINDOW_FRAMES, now);
    WholeWindowAcked(image, s, Ack(s.window, 0, WindowAck), WINDOW_FRAMES, now);
    hide SGood, OnAck;
    var n := Advanced(s);
    if n.window < n.windows { SendsAll(n, image, now); }
  }

  /** One complete ack moves the sender on by exactly one window; the copies are stale. */
  lemma AcksAdvance(image: seq<byte>, s: Sender, acks: seq<Ack>, now: u32)
    requires Pushable(|image|) && SGood(image, s) && s.state == Pushing && s.window < Windows(|image|)
    requires acks != [] && forall a :: a in acks ==> a == Ack(s.window, 0, WindowAck)
    ensures var n := Answered(s, image, acks, now);
      && SGood(image, n) && n.state == Pushing && n.window == s.window + 1 && n.retries == 0
  {
    hide TotalFrames, Windows, Crc32, OnAck;
    assert acks[0] in acks && forall a :: a in acks[1..] ==> a in acks;
    FirstAck(image, s, now);
    StaleAcks(image, OnAck(s, image, acks[0], WINDOW_FRAMES, now).s, acks[1..], s.window, now);
  }

  // --- the round --------------------------------------------------------------------------------------

  lemma NotYetEnd(image: seq<byte>, s: Sender, r: Receiver)
    requires Synced(image, s, r)
    ensures s.endSent <==> s.window == Windows(|image|)
    ensures s.window <= Windows(|image|)
    ensures s.Shaped() && s.size == |image| && s.total == TotalFrames(|image|) && s.windows == Windows(|image|)
  {
    hide Windows, TotalFrames, Crc32, RGood;
  }

  /** What the retry timer sends before the END phase. */
  lemma TimerSendsWindow(image: seq<byte>, s: Sender, r: Receiver, now: u32, t: u32)
    requires Synced(image, s, r) && Ready(s, r, now, t) && !s.endSent
    ensures var first := s.window * WINDOW_FRAMES; var n := FramesIn(s.total, s.window);
      && AtWindow(s, image, first, n) && s.window < Windows(|image|)
      && SenderLoop(s, image, WINDOW_FRAMES, now)
         == SOut(s.(retries := s.retries + 1, deadline := U32(now + 500)),
                 (if s.gotAnyAck then [] else [TxBegin(s.size, s.crc)]) + Raws(Burst(image, LowMask(n), first, 0, n)))
  {
    hide TotalFrames, Windows, FramesIn, SendWhole, Crc32, RGood, SGood, Burst, LowMask, Raws;
    NotYetEnd(image, s, r);
    SendsAll(s.(retries := s.retries + 1), image, now);
  }

  /** The receiver once the repeated BEGIN, if any, has arrived. */
  function Begun(s: Sender, r: Receiver, t: u32): Receiver
    requires s.size <= MAX_SIZE
  {
    if s.gotAnyAck then r else OnBegin(r, s.size, s.crc, true, t).r
  }

  lemma BegunIsReceiving(image: seq<byte>, s: Sender, r: Receiver, t: u32)
    requires Synced(image, s, r) && !s.endSent
    ensures var b := Begun(s, r, t);
      && RGood(image, b, s.window) && b.state == Receiving && b.queue == [] && b.total == s.total
      && b.window == r.window && b.lastAck == r.lastAck
  {
    hide Windows, TotalFrames, Crc32, Transferring;
    if !s.gotAnyAck { BeginKeeps(image, r, s.window, true, t); }
    GoodIsShaped(image, Begun(s, r, t), s.window);
  }

  lemma HeardBurst(image: seq<byte>, s: Sender, r: Receiver, fs: seq<seq<byte>>, t: u32)
    requires Synced(image, s, r) && !s.endSent && |fs| < QUEUE && forall f :: f in fs ==> Honest(image, f)
    ensures Heard(r, (if s.gotAnyAck then [] else [TxBegin(s.size, s.crc)]) + Raws(fs), t)
         == Out(Begun(s, r, t).(queue := fs), [])
  {
    hide Windows, TotalFrames, Crc32, RGood, Honest;
    var b := Begun(s, r, t);
    BegunIsReceiving(image, s, r, t);
    HeardRaws(image, b, fs, t);
    assert b.queue + fs == fs;
    if s.gotAnyAck {
      assert [] + Raws(fs) == Raws(fs);
    } else {
      var tx := [TxBegin(s.size, s.crc)] + Raws(fs);
      assert tx[1..] == Raws(fs);
    }
  }

  /** A retry round, step by step: burst, drain, acks. */
  lemma RetryRound(image: seq<byte>, s: Sender, r: Receiver, now: u32, t: u32, b: Receiver, q: Sender)
    requires Synced(image, s, r) && Ready(s, r, now, t) && !s.endSent && b == Begun(s, r, t)
    requires q == s.(retries := s.retries + 1, deadline := U32(now + 500))
    ensures SGood(image, q) && AtWindow(s, image, s.window * WINDOW_FRAMES, FramesIn(s.total, s.window))
    ensures var n := FramesIn(s.total, s.window);
      var h := b.(queue := Burst(image, LowMask(n), s.window * WINDOW_FRAMES, 0, n));
      h.Shaped() ==>
        Round(image, s, r, now, t)
        == (Answered(q, image, ReceiverLoop(h, WINDOW_FRAMES, t).acks, now), ReceiverLoop(h, WINDOW_FRAMES, t).r)
  {
    hide Windows, TotalFrames, FramesIn, Crc32, RGood, Honest, Burst, LowMask, AtWindow, SenderLoop,
         Heard, ReceiverLoop, Answered, IndexOf, Begun, Receiver.Shaped;
    var first := s.window * WINDOW_FRAMES;
    var n := FramesIn(s.total, s.window);
    TimerSendsWindow(image, s, r, now, t);
    var fs := WindowBurst(image, s, LowMask(n), first, n);
    HeardBurst(image, s, r, fs, t);
    LoopKeeps(image, s, WINDOW_FRAMES, now);
    hide SGood, Synced;
    var h := b.(queue := fs);
    if h.Shaped() { assert [] + ReceiverLoop(h, WINDOW_FRAMES, t).acks == ReceiverLoop(h, WINDOW_FRAMES, t).acks; }
  }

  lemma WindowBurst(image: seq<byte>, s: Sender, mask: bv32, first: nat, n: nat) returns (fs: seq<seq<byte>>)
    requires AtWindow(s, image, first, n)
    ensures fs == Burst(image, mask, first, 0, n) && |fs| < QUEUE && forall f :: f in fs ==> Honest(image, f)
  {
    fs := Burst(image, mask, first, 0, n);
    BurstIsHonest(image, mask, first, 0, n);
  }

  /**
   One loss-free round moves the sender on by exactly one window, whether the receiver still
   lacks frames, has already flashed the window, or has missed even the BEGIN.
   */
  lemma RoundAdvances(image: seq<byte>, s: Sender, r: Receiver, now: u32, t: u32)
    requires Synced(image, s, r) && Ready(s, r, now, t) && !s.endSent
    ensures var (s', r') := Round(image, s, r, now, t);
      && Synced(image, s', r') && s'.window == s.window + 1 == r'.window && s'.retries == 0
  {
    hide Windows, TotalFrames, FramesIn, Crc32, RGood, Honest, Burst, LowMask, HasBit,
         ReceiverLoop, Answered, Round, Begun, Receiver.Shaped;
    var first := s.window * WINDOW_FRAMES;
    var n := FramesIn(s.total, s.window);
    var b := Begun(s, r, t);
    var q := s.(retries := s.retries + 1, deadline := U32(now + 500));
    RetryRound(image, s, r, now, t, b, q);
    BegunIsReceiving(image, s, r, t);
    forall j | 0 <= j < n ensures HasBit(LowMask(n), j) { LowMaskBits(n, j); }
    BurstIsAcked(image, s, b, LowMask(n), first, n, t);
    var d := ReceiverLoop(b.(queue := Burst(image, LowMask(n), first, 0, n)), WINDOW_FRAMES, t);
    AcksAdvance(image, q, d.acks, now);
    RGoodRelaxes(image, d.r, s.window, s.window + 1);
  }

  // --- selective repair -------------------------------------------------------------------------------

  /** Some frames of the current window are in, others are missing, and nothing has come for a while. */
  predicate Stuck(s: Sender, r: Receiver, t: u32) {
    r.state == Receiving && r.window == s.window && r.have != 0 && U32(t - r.lastAck) > 250 && U32(t - r.lastRx) > 150
  }

  /** The receiver's bitmap names exactly the frames it lacks. */
  lemma AsksForTheRest(image: seq<byte>, s: Sender, r: Receiver, t: u32)
    requires Synced(image, s, r) && Stuck(s, r, t)
    ensures s.window < Windows(|image|) && AtWindow(s, image, s.window * WINDOW_FRAMES, FramesIn(s.total, s.window))
    ensures var n := FramesIn(s.total, s.window); var m := Missing(WindowMask(s.total, s.window), r.have);
      && Poll(r, t) == Out(r.(lastAck := t), [Ack(s.window, m, WindowAck)]) && m != 0
      && (forall j :: 0 <= j < WINDOW_FRAMES ==> (HasBit(m, j) <==> j < n && !HasBit(r.have, j)))
      && MaskWithin(m, n) && AsksForMissing(m, r.have, n)
  {
    hide TotalFrames, Windows, FramesIn, Crc32, SGood, LowMask, HasBit, Missing;
    NotYetEnd(image, s, r);
    PartialWindow(image, r, s.window);
    NotCoveredYet(image, r, s.window);
    WindowFits(s, image);
    var n := FramesIn(s.total, s.window);
    var m := Missing(LowMask(n), r.have);
    forall j | 0 <= j < WINDOW_FRAMES ensures HasBit(m, j) <==> j < n && !HasBit(r.have, j) { MissingBits(r.have, n, j); }
    hide Synced, RGood;
  }

  lemma PartialWindow(image: seq<byte>, r: Receiver, lim: nat)
    requires Pushable(|image|) && RGood(image, r, lim) && r.state == Receiving && r.have != 0
    ensures r.window < Windows(|image|) && r.size == |image| && r.total == TotalFrames(|image|)
  {
    hide Windows, TotalFrames, Crc32, Honest, SlotRight, Covers, Flashed;
  }

  /** The sender answers the bitmap with exactly those frames. */
  lemma RepairSends(image: seq<byte>, s: Sender, m: bv32, now: u32)
    requires Pushable(|image|) && SGood(image, s) && s.state == Pushing && m != 0
    requires s.window < Windows(|image|) && MaskWithin(m, FramesIn(s.total, s.window))
    ensures AtWindow(s, image, s.window * WINDOW_FRAMES, FramesIn(s.total, s.window))
    ensures var q := s.(gotAnyAck := true, retries := 0, deadline := U32(now + 500));
      && SGood(image, q)
      && OnAck(s, image, Ack(s.window, m, WindowAck), WINDOW_FRAMES, now)
         == SOut(q, Raws(Burst(image, m, s.window * WINDOW_FRAMES, 0, FramesIn(s.total, s.window))))
  {
    hide TotalFrames, Windows, FramesIn, Crc32, SendWhole, SendFrom, Burst, MaskWithin;
    WindowFits(s, image);
    SendsBurst(s.(gotAnyAck := true, retries := 0), image, m, WINDOW_FRAMES, 0,
               s.window * WINDOW_FRAMES, FramesIn(s.total, s.window));
  }

  /** The sender's reaction to the bitmap. */
  function Repair(image: seq<byte>, s: Sender, r: Receiver, now: u32): SOut
    requires s.Shaped() && (s.state == Pushing ==> |image| == s.size)
  {
    OnAck(s, image, Ack(s.window, Missing(WindowMask(s.total, s.window), r.have), WindowAck), WINDOW_FRAMES, now)
  }

  /**
   Selective repeat: when a window is stuck half-received, the receiver's periodic ack names
   exactly the missing frames, the sender sends exactly those, and with them the window is
   flashed and the sender moves on.
   */
  lemma RepairAdvances(image: seq<byte>, s: Sender, r: Receiver, t: u32, now: u32, t': u32, now': u32)
    requires Synced(image, s, r) && Stuck(s, r, t)
    ensures AtWindow(s, image, s.window * WINDOW_FRAMES, FramesIn(s.total, s.window))
    ensures var m := Missing(WindowMask(s.total, s.window), r.have); var o := Repair(image, s, r, now);
      && Poll(r, t).acks == [Ack(s.window, m, WindowAck)]
      && o.tx == Raws(Burst(image, m, s.window * WINDOW_FRAMES, 0, FramesIn(s.total, s.window)))
      && SGood(image, o.s) && Heard(Poll(r, t).r, o.tx, t').r.Shaped()
    ensures
      var o := Repair(image, s, r, now);
      var d := ReceiverLoop(Heard(Poll(r, t).r, o.tx, t').r, WINDOW_FRAMES, t');
      var s' := Answered(o.s, image, d.acks, now');
      Synced(image, s', d.r) && s'.window == s.window + 1 == d.r.window
  {
    hide Windows, TotalFrames, FramesIn, WindowMask, Missing, Crc32, RGood, SGood, Honest, Burst, LowMask, HasBit,
         Poll, OnAck, ReceiverLoop, Answered, Heard, Receiver.Shaped, MaskWithin, AsksForMissing;
    var m := Missing(WindowMask(s.total, s.window), r.have);
    var n := FramesIn(s.total, s.window);
    AsksForTheRest(image, s, r, t);
    RepairSends(image, s, m, now);
    PollKeeps(image, r, s.window, t);
    var p := r.(lastAck := t);
    var q := s.(gotAnyAck := true, retries := 0, deadline := U32(now + 500));
    var fs := WindowBurst(image, s, m, s.window * WINDOW_FRAMES, n);
    HeardRaws(image, p, fs, t');
    assert p.queue + fs == fs;
    GoodIsShaped(image, p, s.window);
    NotYetEnd(image, s, r);
    BurstIsAcked(image, q, p, m, s.window * WINDOW_FRAMES, n, t');
    var d := ReceiverLoop(p.(queue := fs), WINDOW_FRAMES, t');
    AcksAdvance(image, q, d.acks, now');
    RGoodRelaxes(image, d.r, s.window, s.window + 1);
  }

  // --- the END phase and the whole transfer -----------------------------------------------------------

  lemma EndAnswered(image: seq<byte>, r: Receiver, t: u32)
    requires Pushable(|image|) && RGood(image, r, Windows(|image|)) && r.state == Receiving && r.window == Windows(|image|)
    ensures var a := Ack(NO_WINDOW, 0, FinalOk); var o := OnEnd(r, true, t);
      && Heard(r, [TxEnd], t) == Out(o.r, [a, a])
      && o.r.state == RDone && o.r.booted && o.r.flash == image && o.r.Shaped()
      && ReceiverLoop(o.r, WINDOW_FRAMES, t) == Out(o.r, [])
  {
    CountsExact(|image|);
    hide Windows, TotalFrames, Crc32, RGood;
    GoodIsShaped(image, r, Windows(|image|));
    AllFlashed(image, r, Windows(|image|));
    EndKeeps(image, r, Windows(|image|), true, t);
    hide Missing, WindowMask;
    var o := OnEnd(r, true, t);
    assert o == Out(r.(lastRx := t, lastAck := t, state := RDone, booted := true), o.acks);
    GoodIsShaped(image, o.r, Windows(|image|));
    assert [TxEnd][1..] == [] && o.acks + [] == o.acks;
  }

  lemma FinalOkEnds(image: seq<byte>, s: Sender, now: u32)
    requires Pushable(|image|) && SGood(image, s) && s.state == Pushing
    ensures var a := Ack(NO_WINDOW, 0, FinalOk); var n := Answered(s, image, [a, a], now);
      n.state == SDone && n.final == Reported(FinalOk) && n.ackedBytes == |image|
  {
    hide Windows, TotalFrames, Crc32;
    var a := Ack(NO_WINDOW, 0, FinalOk);
    var n := OnAck(s, image, a, WINDOW_FRAMES, now).s;
    assert [a, a][1..] == [a] && [a][1..] == [];
    assert n.state == SDone && n.ackedBytes == |image|;
    assert SGood(image, n);
    assert OnAck(n, image, a, WINDOW_FRAMES, now).s == n;
    assert Answered(n, image, [a], now) == n;
  }

  /** In the END phase one loss-free round finishes both sides, with the whole image flashed. */
  lemma EndRoundFinishes(image: seq<byte>, s: Sender, r: Receiver, now: u32, t: u32)
    requires Synced(image, s, r) && Ready(s, r, now, t) && s.endSent
    ensures var (s', r') := Round(image, s, r, now, t);
      s'.state == SDone && s'.ackedBytes == |image| && r'.state == RDone && r'.flash == image && r'.booted
  {
    hide Windows, TotalFrames, Crc32, RGood, OnEnd, Heard, Answered, ReceiverLoop, Receiver.Shaped;
    EndIsLast(image, s, r);
    EndAnswered(image, r, t);
    LoopKeeps(image, s, WINDOW_FRAMES, now);
    var a := Ack(NO_WINDOW, 0, FinalOk);
    var q := s.(retries := s.retries + 1, deadline := U32(now + 2000));
    assert SenderLoop(s, image, WINDOW_FRAMES, now) == SOut(q, [TxEnd]);
    FinalOkEnds(image, q, now);
    assert [a, a] + [] == [a, a];
  }

  lemma EndIsLast(image: seq<byte>, s: Sender, r: Receiver)
    requires Synced(image, s, r) && s.endSent
    ensures r.state == Receiving && r.window == Windows(|image|) == s.window
  {
    CountsExact(|image|);
    hide Windows, TotalFrames, Crc32, Transferring;
  }

  /** Loss-free rounds one after the other, each late enough. */
  ghost predicate Rounds(image: seq<byte>, ss: seq<Sender>, rs: seq<Receiver>, nows: seq<u32>, ts: seq<u32>) {
    && |ss| == |rs| == |nows| + 1 == |ts| + 1
    && forall k :: 0 <= k < |nows| && Synced(image, ss[k], rs[k]) ==>
         && Late(ss[k], rs[k], nows[k], ts[k])
         && (ss[k + 1], rs[k + 1]) == Round(image, ss[k], rs[k], nows[k], ts[k])
  }

  lemma RoundAt(image: seq<byte>, ss: seq<Sender>, rs: seq<Receiver>, nows: seq<u32>, ts: seq<u32>, k: nat)
    requires Rounds(image, ss, rs, nows, ts) && k < |nows|
    ensures |ss| == |rs| == |nows| + 1 == |ts| + 1
    ensures Synced(image, ss[k], rs[k]) ==>
      Late(ss[k], rs[k], nows[k], ts[k]) && (ss[k + 1], rs[k + 1]) == Round(image, ss[k], rs[k], nows[k], ts[k])
  {
    hide Synced, Round;
  }

  lemma {:induction false} RoundsAdvance(
      image: seq<byte>, ss: seq<Sender>, rs: seq<Receiver>, nows: seq<u32>, ts: seq<u32>, k: nat)
    requires Rounds(image, ss, rs, nows, ts) && Synced(image, ss[0], rs[0]) && RetriesLeft(ss[0])
    requires k < |ss| && ss[0].window + k <= Windows(|image|)
    ensures Synced(image, ss[k], rs[k]) && RetriesLeft(ss[k]) && ss[k].window == ss[0].window + k
  {
    assert |ss| == |rs| == |nows| + 1 == |ts| + 1;
    hide Synced, Round, Windows, Rounds;
    if k > 0 {
      RoundAt(image, ss, rs, nows, ts, k - 1);
      RoundsAdvance(image, ss, rs, nows, ts, k - 1);
      NotYetEnd(image, ss[k - 1], rs[k - 1]);
      RoundAdvances(image, ss[k - 1], rs[k - 1], nows[k - 1], ts[k - 1]);
    }
  }

  /**
   The whole push: from any synchronised state, as many loss-free rounds as windows are left
   and one more bring both sides to DONE with the flash equal to the image.
   */
  lemma PushCompletes(image: seq<byte>, ss: seq<Sender>, rs: seq<Receiver>, nows: seq<u32>, ts: seq<u32>)
    requires Rounds(image, ss, rs, nows, ts) && Synced(image, ss[0], rs[0]) && RetriesLeft(ss[0])
    requires |nows| == Windows(|image|) - ss[0].window + 1
    ensures var s := ss[|nows|]; var r := rs[|nows|];
      s.state == SDone && s.ackedBytes == |image| && r.state == RDone && r.flash == image && r.booted
  {
    assert |ss| == |rs| == |nows| + 1 == |ts| + 1;
    hide Synced, Round, Windows, Rounds;
    NotYetEnd(image, ss[0], rs[0]);
    var k := |nows| - 1;
    RoundsAdvance(image, ss, rs, nows, ts, k);
    RoundAt(image, ss, rs, nows, ts, k);
    NotYetEnd(image, ss[k], rs[k]);
    EndRoundFinishes(image, ss[k], rs[k], nows[k], ts[k]);
  }
}
