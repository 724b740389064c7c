/** A final ack ends the push for the sender, whoever made it and whatever comes afterwards. */
module PushOutcome {
  import opened Words
  import opened Crc
  import opened PushLayout
  import opened PushProtocol
  import Session = PushSession

  /** The device reports the outcome, or that it is busy. */
  predicate IsFinal(a: Ack) {
    a.status != WindowAck
  }

  /** What the sender shows after a final ack. */
  predicate Ended(s: Sender, a: Ack) {
    && s.state == (if a.status == FinalOk then SDone else SFailed)
    && s.final == Reported(a.status)
    && (a.status == FinalOk ==> s.ackedBytes == s.size)
    && (a.status != FinalOk ==> s.finalDetail == a.detail)
  }

  /** A final ack ends a running push with its status and detail, and nothing more is sent. */
  lemma FinalAckEnds(s: Sender, image: seq<byte>, a: Ack, avail: nat, now: u32)
    requires s.Shaped() && s.state == Pushing && |image| == s.size && IsFinal(a)
    ensures var o := OnAck(s, image, a, avail, now);
      && Ended(o.s, a) && o.tx == []
      && o.s.window == s.window && o.s.size == s.size && (a.status != FinalOk ==> o.s.ackedBytes == s.ackedBytes)
  {
  }

  // --- the sender and any acks at all --------------------------------------------------------------

  datatype Input = Heard(a: Ack, avail: nat, now: u32) | Looped(avail: nat, now: u32)

  predicate Ready(s: Sender, image: seq<byte>) {
    s.Shaped() && (s.state == Pushing ==> |image| == s.size)
  }

  function Next(s: Sender, image: seq<byte>, i: Input): SOut
    requires Ready(s, image)
  {
    match i
    case Heard(a, avail, now) => OnAck(s, image, a, avail, now)
    case Looped(avail, now) => SenderLoop(s, image, avail, now)
  }

  /** A sender's states from some ready one on, and what it sends between them. */
  ghost predicate Run(image: seq<byte>, ss: seq<Sender>, ins: seq<Input>, sent: seq<seq<Tx>>) {
    && |ss| == |ins| + 1 && |sent| == |ins| && Ready(ss[0], image)
    && forall k :: 0 <= k < |ins| ==> Ready(ss[k], image) ==> SOut(ss[k + 1], sent[k]) == Next(ss[k], image, ins[k])
  }

  lemma SendingStaysReady(s: Sender, image: seq<byte>, mask: bv32, avail: nat)
    requires s.total == TotalFrames(s.size) && |image| == s.size && Ready(s, image)
    ensures Ready(SendWindow(s, image, mask, avail).s, image)
  {
    hide TotalFrames, Windows, SendFrom;
  }

  lemma {:induction false} RunIsReady(image: seq<byte>, ss: seq<Sender>, ins: seq<Input>, sent: seq<seq<Tx>>, k: nat)
    requires Run(image, ss, ins, sent) && k < |ss|
    ensures Ready(ss[k], image)
  {
    hide Next, Ready;
    if k > 0 {
      RunIsReady(image, ss, ins, sent, k - 1);
      NextIsReady(ss[k - 1], image, ins[k - 1]);
    }
  }

  lemma NextIsReady(s: Sender, image: seq<byte>, i: Input)
    requires Ready(s, image)
    ensures Ready(Next(s, image, i).s, image)
  {
    hide TotalFrames, Windows, SendFrom, WindowMask, FramesIn;
  }

  /** A sender that is not pushing does nothing. */
  lemma EndedRests(s: Sender, image: seq<byte>, i: Input)
    requires Ready(s, image) && s.state != Pushing
    ensures Next(s, image, i) == SOut(s, [])
  {
  }

  /** Once a final ack is heard, the sender's state never changes again and nothing more is sent. */
  lemma {:induction false} FinalAckIsTheLast(image: seq<byte>, ss: seq<Sender>, ins: seq<Input>, sent: seq<seq<Tx>>,
                                             k: nat, l: nat)
    requires Run(image, ss, ins, sent) && k < l < |ss|
    requires ss[k].state == Pushing && ins[k].Heard? && IsFinal(ins[k].a)
    ensures Ended(ss[l], ins[k].a) && ss[l] == ss[k + 1] && sent[l - 1] == []
    decreases l
  {
    hide Next, Ready, Ended;
    RunIsReady(image, ss, ins, sent, l - 1);
    if l == k + 1 {
      HearingEnds(ss[k], image, ins[k]);
    } else {
      FinalAckIsTheLast(image, ss, ins, sent, k, l - 1);
      EndedIsOver(ss[l - 1], ins[k].a);
      EndedRests(ss[l - 1], image, ins[l - 1]);
    }
  }

  lemma HearingEnds(s: Sender, image: seq<byte>, i: Input)
    requires Ready(s, image) && s.state == Pushing && i.Heard? && IsFinal(i.a)
    ensures Ended(Next(s, image, i).s, i.a) && Next(s, image, i).tx == []
  {
    hide OnAck, Ended;
    FinalAckEnds(s, image, i.a, i.avail, i.now);
  }

  lemma EndedIsOver(s: Sender, a: Ack)
    requires Ended(s, a)
    ensures s.state in {SDone, SFailed}
  {
  }

  // --- in a session --------------------------------------------------------------------------------------

  /** In every session: after a final ack is delivered, no packet of the sender joins the air. */
  lemma {:induction false} FinalAckSilencesSession(image: seq<byte>, xs: seq<Session.Session>, mvs: seq<Session.Move>,
                                                   k: nat, l: nat)
    requires Pushable(|image|) && Session.Run(image, xs, mvs) && k < l < |xs|
    requires xs[k].s.state == Pushing && mvs[k].SAck? && IsFinal(mvs[k].a)
    ensures Ended(xs[l].s, mvs[k].a) && xs[l].s == xs[k + 1].s
    ensures xs[l].frames == xs[k].frames && xs[l].begun == xs[k].begun && xs[l].ended == xs[k].ended
    decreases l
  {
    hide Session.Inv, Session.Enabled, Ended, Session.Next, Session.Initial;
    Session.RunKeepsInv(image, xs, mvs, l - 1);
    if l == k + 1 {
      DeliveryEnds(image, xs[k], mvs[k]);
    } else {
      FinalAckSilencesSession(image, xs, mvs, k, l - 1);
      EndedIsOver(xs[l - 1].s, mvs[k].a);
      EndedSessionRests(image, xs[l - 1], mvs[l - 1]);
    }
  }

  lemma DeliveryEnds(image: seq<byte>, x: Session.Session, mv: Session.Move)
    requires Pushable(|image|) && Session.Inv(image, x) && Session.Enabled(x, mv)
    requires x.s.state == Pushing && mv.SAck? && IsFinal(mv.a)
    ensures var y := Session.Next(image, x, mv);
      Ended(y.s, mv.a) && y.frames == x.frames && y.begun == x.begun && y.ended == x.ended
  {
    FinalAckEnds(x.s, image, mv.a, mv.avail, mv.now);
    hide OnAck, Session.RGood, Session.Honest, TotalFrames, Windows, Ended;
    assert Session.RawsOf([]) == {};
  }

  lemma EndedSessionRests(image: seq<byte>, x: Session.Session, mv: Session.Move)
    requires Pushable(|image|) && Session.Inv(image, x) && Session.Enabled(x, mv) && x.s.state in {SDone, SFailed}
    ensures var y := Session.Next(image, x, mv);
      y.s == x.s && y.frames == x.frames && y.begun == x.begun && y.ended == x.ended
  {
    hide Session.RGood, Session.Honest, TotalFrames, Windows, Session.ReceiverOut;
    assert Session.RawsOf([]) == {};
  }
}
