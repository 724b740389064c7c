/**
 The loss-free round is a run of the session: a sequence of ordinary enabled moves. What
 PushProgress shows about rounds therefore holds of every reachable session.
 */
module PushRounds {
  import opened Words
  import opened Crc
  import opened PushLayout
  import opened PushProtocol
  import opened PushSession
  import opened PushProgress

  /** The moves, each enabled when its turn comes, take session x to y. */
  ghost predicate Leads(image: seq<byte>, x: Session, mvs: seq<Move>, y: Session)
    requires Pushable(|image|)
    decreases |mvs|
  {
    if mvs == [] then x == y
    else Inv(image, x) && Enabled(x, mvs[0]) && Leads(image, Next(image, x, mvs[0]), mvs[1..], y)
  }

  lemma {:induction false} LeadsOn(image: seq<byte>, x: Session, m1: seq<Move>, y: Session, m2: seq<Move>, z: Session)
    requires Pushable(|image|) && Leads(image, x, m1, y) && Leads(image, y, m2, z)
    ensures Leads(image, x, m1 + m2, z)
    decreases |m1|
  {
    hide Inv, Enabled, Next;
    if m1 == [] {
      assert m1 + m2 == m2;
    } else {
      assert (m1 + m2)[1..] == m1[1..] + m2;
      LeadsOn(image, Next(image, x, m1[0]), m1[1..], y, m2, z);
    }
  }

  lemma OneMove(image: seq<byte>, x: Session, mv: Move) returns (y: Session)
    requires Pushable(|image|) && Inv(image, x) && Enabled(x, mv)
    ensures y == Next(image, x, mv) && Leads(image, x, [mv], y) && Inv(image, y)
  {
    MoveKeepsInv(image, x, mv);
    y := Next(image, x, mv);
    hide Inv, Enabled, Next;
    assert [mv][1..] == [];
  }

  /** The packet is in the air. */
  predicate InAir(image: seq<byte>, x: Session, p: Tx) {
    match p
    case TxBegin(size, crc) => x.begun && size == |image| && crc == Crc32(0, image)
    case TxRaw(raw) => raw in x.frames
    case TxEnd => x.ended
  }

  /** Only the receiver has moved, with these acks. */
  predicate Receives(x: Session, y: Session, o: Out) {
    && y == x.(r := o.r, acks := y.acks, passed := y.passed)
    && x.acks <= y.acks && forall a :: a in o.acks ==> a in y.acks
  }

  lemma ReceivesTwice(x: Session, y: Session, z: Session, o: Out, p: Out)
    requires Receives(x, y, o) && Receives(y, z, p)
    ensures Receives(x, z, Out(p.r, o.acks + p.acks))
  {
  }

  /** Test and critical section, one right after the other. */
  lemma RawLeads(image: seq<byte>, x: Session, raw: seq<byte>) returns (mvs: seq<Move>, y: Session)
    requires Pushable(|image|) && Inv(image, x) && raw in x.frames
    ensures Leads(image, x, mvs, y) && Inv(image, y) && Receives(x, y, Out(OnRaw(x.r, raw), []))
  {
    hide Inv, Leads, Enqueue;
    var x1 := OneMove(image, x, RTest(raw));
    if RawPasses(x.r, raw) {
      y := OneMove(image, x1, RQueue(raw));
      mvs := [RTest(raw)] + [RQueue(raw)];
      LeadsOn(image, x, [RTest(raw)], x1, [RQueue(raw)], y);
    } else {
      mvs, y := [RTest(raw)], x1;
    }
  }

  lemma HeardOneLeads(image: seq<byte>, x: Session, tx: seq<Tx>, t: u32) returns (mvs: seq<Move>, y: Session, o: Out)
    requires Pushable(|image|) && Inv(image, x) && tx != [] && InAir(image, x, tx[0])
    ensures Leads(image, x, mvs, y) && Inv(image, y) && Receives(x, y, o)
    ensures Heard(x.r, tx, t) == Out(Heard(o.r, tx[1..], t).r, o.acks + Heard(o.r, tx[1..], t).acks)
  {
    hide Inv, OnBegin, OnEnd, OnRaw, Crc32;
    mvs, y, o := [], x, Out(x.r, []);
    match tx[0] {
      case TxBegin(size, crc) =>
        if x.r.state in {RIdle, Receiving} {
          mvs, o := [RBegin(true, t)], OnBegin(x.r, size, crc, true, t);
          y := OneMove(image, x, RBegin(true, t));
        }
      case TxRaw(raw) =>
        o := Out(OnRaw(x.r, raw), []);
        mvs, y := RawLeads(image, x, raw);
      case TxEnd =>
        mvs, o := [REnd(true, t)], OnEnd(x.r, true, t);
        y := OneMove(image, x, REnd(true, t));
    }
  }

  lemma {:induction false} HeardLeads(image: seq<byte>, x: Session, tx: seq<Tx>, t: u32) returns (mvs: seq<Move>, y: Session)
    requires Pushable(|image|) && Inv(image, x) && forall p :: p in tx ==> InAir(image, x, p)
    ensures Leads(image, x, mvs, y) && Inv(image, y) && Receives(x, y, Heard(x.r, tx, t))
    decreases |tx|
  {
    if tx == [] {
      mvs, y := [], x;
    } else {
      hide Inv, Leads, Heard, Crc32;
      assert tx[0] in tx && forall p :: p in tx[1..] ==> p in tx;
      var m1, x1, o := HeardOneLeads(image, x, tx, t);
      assert forall p :: p in tx ==> InAir(image, x, p) ==> InAir(image, x1, p);
      hide InAir;
      var m2, x2 := HeardLeads(image, x1, tx[1..], t);
      LeadsOn(image, x, m1, x1, m2, x2);
      ReceivesTwice(x, x1, x2, o, Heard(o.r, tx[1..], t));
      mvs, y := m1 + m2, x2;
    }
  }

  lemma {:induction false} DrainLeads(image: seq<byte>, x: Session, good: nat, t: u32) returns (mvs: seq<Move>, y: Session)
    requires Pushable(|image|) && Inv(image, x)
    ensures x.r.Shaped() && Leads(image, x, mvs, y) && Inv(image, y) && Receives(x, y, Drain(x.r, good, t))
    decreases |x.r.queue|
  {
    hide Inv, Pop, Drain, Leads, Receiver.Shaped;
    InvIsShaped(image, x);
    DrainIsPops(x.r, good, t);
    if x.r.state == Receiving && x.r.queue != [] {
      var x1 := OneMove(image, x, RPop(good, t));
      var o := Pop(x.r, good, t);
      var m2, x2 := DrainLeads(image, x1, good, t);
      LeadsOn(image, x, [RPop(good, t)], x1, m2, x2);
      mvs, y := [RPop(good, t)] + m2, x2;
      ReceivesTwice(x, x1, x2, o, Drain(o.r, good, t));
    } else {
      mvs, y := [], x;
      NoMove(image, x);
    }
  }

  lemma NoMove(image: seq<byte>, x: Session)
    requires Pushable(|image|)
    ensures Leads(image, x, [], x)
  {
  }

  lemma InvIsShaped(image: seq<byte>, x: Session)
    requires Pushable(|image|) && Inv(image, x)
    ensures x.r.Shaped() && SGood(image, x.s)
  {
    hide SGood, Windows;
    GoodIsShaped(image, x.r, x.s.window);
  }

  lemma {:induction false} AnsweredLeads(image: seq<byte>, x: Session, acks: seq<Ack>, now: u32)
    returns (mvs: seq<Move>, y: Session)
    requires Pushable(|image|) && Inv(image, x) && forall a :: a in acks ==> a in x.acks
    ensures SGood(image, x.s) && Leads(image, x, mvs, y) && y.s == Answered(x.s, image, acks, now) && y.r == x.r
    decreases |acks|
  {
    InvIsShaped(image, x);
    mvs, y := [], x;
    if acks != [] {
      hide Inv, OnAck, Windows, TotalFrames, Crc32;
      assert acks[0] in acks && forall a :: a in acks[1..] ==> a in acks;
      var mv := SAck(acks[0], WINDOW_FRAMES, now);
      var x1 := OneMove(image, x, mv);
      InvIsShaped(image, x1);
      var m2, x2 := AnsweredLeads(image, x1, acks[1..], now);
      LeadsOn(image, x, [mv], x1, m2, x2);
      mvs, y := [mv] + m2, x2;
    }
  }

  /** A BEGIN the timer sends carries the image's size and CRC. */
  lemma TimerInAir(image: seq<byte>, x: Session, now: u32)
    requires Pushable(|image|) && Inv(image, x)
    ensures var o := SenderLoop(x.s, image, WINDOW_FRAMES, now);
      forall p :: p in o.tx ==> InAir(image, Sent(x, o), p)
  {
    hide Inv, Windows, TotalFrames, SenderLoop, Crc32, Sent;
    InvIsShaped(image, x);
    BeginsAreTrue(image, x.s, now);
    SentIsInAir(x, SenderLoop(x.s, image, WINDOW_FRAMES, now));
  }

  lemma SentIsInAir(x: Session, o: SOut)
    ensures forall p :: p in o.tx && p.TxRaw? ==> p.raw in Sent(x, o).frames
    ensures forall p :: p in o.tx && p.TxBegin? ==> Sent(x, o).begun
    ensures TxEnd in o.tx ==> Sent(x, o).ended
  {
  }

  lemma BeginsAreTrue(image: seq<byte>, s: Sender, now: u32)
    requires Pushable(|image|) && SGood(image, s)
    ensures forall p :: p in SenderLoop(s, image, WINDOW_FRAMES, now).tx && p.TxBegin? ==>
              p == TxBegin(|image|, Crc32(0, image))
  {
    hide TotalFrames, Windows, Crc32, SendWhole;
    if s.state == Pushing && s.retries < 20 {
      var q := s.(retries := U8(s.retries + 1));
      SendingFrames(image, q, 0, WINDOW_FRAMES, now);
    }
  }

  lemma LoopLeads(image: seq<byte>, x: Session, t: u32) returns (mvs: seq<Move>, y: Session)
    requires Pushable(|image|) && Inv(image, x)
    ensures x.r.Shaped() && Leads(image, x, mvs, y) && Inv(image, y) && Receives(x, y, ReceiverLoop(x.r, WINDOW_FRAMES, t))
  {
    hide Inv, Drain, Poll, Receiver.Shaped, Leads;
    InvIsShaped(image, x);
    var m1, x1 := DrainLeads(image, x, WINDOW_FRAMES, t);
    y := OneMove(image, x1, RPoll(t));
    LeadsOn(image, x, m1, x1, [RPoll(t)], y);
    mvs := m1 + [RPoll(t)];
    ReceivesTwice(x, x1, y, Drain(x.r, WINDOW_FRAMES, t), Poll(x1.r, t));
  }

  /** A loss-free round is a run: it is made of moves the session can make anyway. */
  lemma RoundIsRun(image: seq<byte>, x: Session, now: u32, t: u32) returns (mvs: seq<Move>, y: Session)
    requires Pushable(|image|) && Inv(image, x)
    ensures SGood(image, x.s) && Leads(image, x, mvs, y)
    ensures (y.s, y.r) == Round(image, x.s, x.r, now, t)
  {
    hide Inv, SenderLoop, Heard, ReceiverLoop, Answered, Leads, Receiver.Shaped;
    InvIsShaped(image, x);
    TimerInAir(image, x, now);
    var x1 := OneMove(image, x, SLoop(WINDOW_FRAMES, now));
    var o := SenderLoop(x.s, image, WINDOW_FRAMES, now);
    var m2, x2 := HeardLeads(image, x1, o.tx, t);
    var m3, x3 := LoopLeads(image, x2, t);
    var h := Heard(x.r, o.tx, t);
    var d := ReceiverLoop(h.r, WINDOW_FRAMES, t);
    assert forall a :: a in h.acks + d.acks ==> a in x3.acks;
    var m4, x4 := AnsweredLeads(image, x3, h.acks + d.acks, now);
    LeadsOn(image, x2, m3, x3, m4, x4);
    LeadsOn(image, x1, m2, x2, m3 + m4, x4);
    LeadsOn(image, x, [SLoop(WINDOW_FRAMES, now)], x1, m2 + (m3 + m4), x4);
    mvs, y := [SLoop(WINDOW_FRAMES, now)] + (m2 + (m3 + m4)), x4;
    LoopKeeps(image, x.s, WINDOW_FRAMES, now);
  }

  lemma {:induction false} LeadsKeepsInv(image: seq<byte>, x: Session, mvs: seq<Move>, y: Session)
    requires Pushable(|image|) && Inv(image, x) && Leads(image, x, mvs, y)
    ensures Inv(image, y)
    decreases |mvs|
  {
    hide Inv, Enabled, Next;
    if mvs != [] {
      MoveKeepsInv(image, x, mvs[0]);
      LeadsKeepsInv(image, Next(image, x, mvs[0]), mvs[1..], y);
    }
  }

  /** A session that can still go on: the push is running and no frame waits in the queue. */
  predicate Live(x: Session) {
    x.s.state == Pushing && x.r.state in {RIdle, Receiving} && x.r.queue == []
  }

  lemma LiveIsSynced(image: seq<byte>, x: Session)
    requires Pushable(|image|) && Inv(image, x) && Live(x)
    ensures Synced(image, x.s, x.r)
  {
    hide SGood, RGood, Honest, IndexOf, Windows;
  }

  /** One round from a live session: a window further, or done. */
  lemma LiveAdvances(image: seq<byte>, x: Session, now: u32, t: u32) returns (more: seq<Move>, y: Session)
    requires Pushable(|image|) && Inv(image, x) && Live(x) && Ready(x.s, x.r, now, t)
    ensures Leads(image, x, more, y) && Inv(image, y)
    ensures !x.s.endSent ==> Live(y) && y.s.window == x.s.window + 1 && y.s.retries == 0
    ensures x.s.endSent ==> y.s.state == SDone && y.r.state == RDone && y.r.flash == image && y.r.booted
  {
    hide Inv, Round, Leads, Windows;
    LiveIsSynced(image, x);
    more, y := RoundIsRun(image, x, now, t);
    LeadsKeepsInv(image, x, more, y);
    if x.s.endSent {
      EndRoundFinishes(image, x.s, x.r, now, t);
    } else {
      RoundAdvances(image, x.s, x.r, now, t);
    }
  }

  /**
   Progress of reachable sessions. A running session with an empty receive queue, even one
   whose BEGIN never arrived, can always go on to one whose sender is a window further, as
   soon as the retry timer may fire.
   */
  lemma RunAdvances(image: seq<byte>, xs: seq<Session>, mvs: seq<Move>, k: nat, now: u32, t: u32)
    returns (more: seq<Move>, y: Session)
    requires Pushable(|image|) && Run(image, xs, mvs) && k < |xs|
    requires xs[k].s.state == Pushing && xs[k].r.state in {RIdle, Receiving} && xs[k].r.queue == []
    requires Ready(xs[k].s, xs[k].r, now, t)
    ensures Leads(image, xs[k], more, y)
    ensures !xs[k].s.endSent ==> y.s.state == Pushing && y.s.window == xs[k].s.window + 1
    ensures xs[k].s.endSent ==> y.s.state == SDone && y.r.state == RDone && y.r.flash == image && y.r.booted
  {
    RunKeepsInv(image, xs, mvs, k);
    hide Run, Inv, Leads;
    more, y := LiveAdvances(image, xs[k], now, t);
  }

  // --- to the end --------------------------------------------------------------------------------

  /** A choice of the two clocks' readings for the next round, always late enough. */
  type Schedule = (Sender, Receiver) -> (u32, u32)

  ghost predicate Patient(clocks: Schedule) {
    forall s, r :: Late(s, r, clocks(s, r).0, clocks(s, r).1)
  }

  lemma {:induction false} LiveCompletes(image: seq<byte>, x: Session, clocks: Schedule)
    returns (more: seq<Move>, y: Session)
    requires Pushable(|image|) && Inv(image, x) && Live(x) && RetriesLeft(x.s) && Patient(clocks)
    ensures Leads(image, x, more, y)
    ensures y.s.state == SDone && y.r.state == RDone && y.r.flash == image && y.r.booted
    decreases Windows(|image|) - x.s.window
  {
    hide Inv, Leads, Windows, Synced;
    LiveIsSynced(image, x);
    NotYetEnd(image, x.s, x.r);
    var (now, t) := clocks(x.s, x.r);
    assert Late(x.s, x.r, now, t);
    more, y := LiveAdvances(image, x, now, t);
    if !x.s.endSent {
      var m2, z := LiveCompletes(image, y, clocks);
      LeadsOn(image, x, more, y, m2, z);
      more, y := more + m2, z;
    }
  }

  /**
   Every reachable session that is still live can be brought to its end: whatever was lost so
   far, loss-free rounds at any late enough times lead to DONE on both sides with the flash
   equal to the image.
   */
  lemma RunCompletes(image: seq<byte>, xs: seq<Session>, mvs: seq<Move>, k: nat, clocks: Schedule)
    returns (more: seq<Move>, y: Session)
    requires Pushable(|image|) && Run(image, xs, mvs) && k < |xs|
    requires Live(xs[k]) && RetriesLeft(xs[k].s) && Patient(clocks)
    ensures Leads(image, xs[k], more, y)
    ensures y.s.state == SDone && y.r.state == RDone && y.r.flash == image && y.r.booted
  {
    RunKeepsInv(image, xs, mvs, k);
    hide Run, Inv, Leads;
    more, y := LiveCompletes(image, xs[k], clocks);
  }
}
