/**
 The push sender as the box runs it: one object whose handlers update its fields in place and
 build raw frames in a reused buffer. `outbox` is what it handed to the radio; the image file
 is a sequence of bytes of which the next `avail` reads succeed. Every handler is proved to do
 exactly what the function of the same name in module PushProtocol says.
 */
module PushSender {
  import opened Words
  import opened Crc
  import opened Masks
  import opened Bytes
  import opened PushLayout
  import opened PushProtocol
  import Spec = PushProtocol

  /** One turn of the sending loop. */
  lemma SendFromUnfold(s: Sender, image: seq<byte>, mask: bv32, avail: nat, i: nat)
    requires s.total == TotalFrames(s.size) && |image| == s.size && i <= WINDOW_FRAMES
    ensures i == WINDOW_FRAMES ==> SendFrom(s, image, mask, avail, i) == ([], true)
    ensures i < WINDOW_FRAMES && !HasBit(mask, i) ==>
              SendFrom(s, image, mask, avail, i) == SendFrom(s, image, mask, avail, i + 1)
    ensures i < WINDOW_FRAMES && HasBit(mask, i) ==>
      var idx := s.window * WINDOW_FRAMES + i;
      if idx >= s.total then SendFrom(s, image, mask, avail, i) == ([], true)
      else if avail == 0 then SendFrom(s, image, mask, avail, i) == ([], false)
      else
        var n := FrameLen(s.size, idx);
        && idx * FRAME_DATA + n <= |image| && n <= FRAME_DATA
        && var rest := SendFrom(s, image, mask, avail - 1, i + 1);
           SendFrom(s, image, mask, avail, i)
           == ([TxRaw(RawFrame(idx, image[idx * FRAME_DATA..idx * FRAME_DATA + n]))] + rest.0, rest.1)
  {
    hide TotalFrames, Windows, FrameLen, HasBit, RawFrame;
    var idx := s.window * WINDOW_FRAMES + i;
    if i < WINDOW_FRAMES && idx < s.total { LayoutExact(s.size, idx); }
  }

  /** After frames 0..i-1 and with `left` reads to go, exactly `sent` has been sent. */
  ghost predicate SoFar(s: Sender, image: seq<byte>, mask: bv32, avail: nat, sent: seq<Tx>, left: nat, i: nat)
    requires s.total == TotalFrames(s.size) && |image| == s.size && i <= WINDOW_FRAMES
  {
    var all, rest := SendFrom(s, image, mask, avail, 0), SendFrom(s, image, mask, left, i);
    all.0 == sent + rest.0 && all.1 == rest.1
  }

  lemma SoFarStep(s: Sender, image: seq<byte>, mask: bv32, avail: nat, sent: seq<Tx>, left: nat, i: nat)
    requires s.total == TotalFrames(s.size) && |image| == s.size && i < WINDOW_FRAMES
    requires SoFar(s, image, mask, avail, sent, left, i)
    ensures var idx := s.window * WINDOW_FRAMES + i;
      if !HasBit(mask, i) then SoFar(s, image, mask, avail, sent, left, i + 1)
      else if idx >= s.total then SoFar(s, image, mask, avail, sent, left, WINDOW_FRAMES)
      else if left == 0 then SendFrom(s, image, mask, avail, 0) == (sent, false)
      else
        var n := FrameLen(s.size, idx);
        && idx * FRAME_DATA + n <= |image| && n <= FRAME_DATA
        && SoFar(s, image, mask, avail, sent + [TxRaw(RawFrame(idx, image[idx * FRAME_DATA..idx * FRAME_DATA + n]))],
                 left - 1, i + 1)
  {
    hide TotalFrames, Windows, FrameLen, HasBit, RawFrame, SendFrom;
    SendFromUnfold(s, image, mask, left, i);
    SendFromUnfold(s, image, mask, left, WINDOW_FRAMES);
    assert sent + [] == sent;
  }

  lemma SoFarEnds(s: Sender, image: seq<byte>, mask: bv32, avail: nat, sent: seq<Tx>, left: nat)
    requires s.total == TotalFrames(s.size) && |image| == s.size
    ensures SoFar(s, image, mask, avail, [], avail, 0)
    ensures SoFar(s, image, mask, avail, sent, left, WINDOW_FRAMES) ==> SendFrom(s, image, mask, avail, 0) == (sent, true)
  {
    SendFromUnfold(s, image, mask, left, WINDOW_FRAMES);
    hide SendFrom;
    assert sent + [] == sent;
    assert [] + SendFrom(s, image, mask, avail, 0).0 == SendFrom(s, image, mask, avail, 0).0;
  }

  lemma StartIs(s: Sender, b: Sender, image: seq<byte>, crc: bv32, avail: nat, now: u32)
    requires 0 < |image| < TWO32
    requires b == Sender.Sender(Pushing, |image|, crc, TotalFrames(|image|), Windows(|image|), 0,
                                  false, false, 0, s.deadline, 0, NoneYet, s.finalDetail)
    ensures var o := Spec.SendWhole(b, image, avail, now);
      Start(s, image, crc, avail, now) == o.(tx := [TxBegin(|image|, crc)] + o.tx)
  {
    hide TotalFrames, Windows, Spec.SendWhole;
  }

  class Device {
    var outbox: seq<Tx>     // handed to the radio for `peer`
    var peer: Mac

    var state: SState
    var size: u32
    var crc: bv32
    var total: u32
    var windows: u16
    var window: u16
    var gotAnyAck: bool
    var endSent: bool
    var retries: u8
    var deadline: u32
    var ackedBytes: nat
    var final: Final
    var finalDetail: bv8

    /** The object's fields as one value. */
    ghost function Value(): Sender
      reads this
    {
      Sender.Sender(state, size, crc, total, windows, window, gotAnyAck, endSent, retries, deadline, ackedBytes,
                    final, finalDetail)
    }

    /** Outcome of a handler: the new state, and the packets sent. */
    twostate predicate Did(o: SOut)
      reads this
    {
      Value() == o.s && outbox == old(outbox) + o.tx
    }

    constructor ()
      ensures outbox == [] && state == SIdle && Value().Shaped()
    {
      outbox, state, size, crc, total, windows, window := [], SIdle, 0, 0, 0, 0, 0;
      gotAnyAck, endSent, retries, deadline, ackedBytes, final, finalDetail := false, false, 0, 0, 0, NoneYet, 0;
      peer := [0, 0, 0, 0, 0, 0];
    }

    /** Header, index and image bytes, written into the frame buffer. */
    method FillFrame(frame: array<byte>, image: seq<byte>, idx: u32, at: nat, n: nat)
      requires frame.Length == 250 && n <= FRAME_DATA && at + n <= |image|
      modifies frame
      ensures frame[..RAW_HDR + n] == RawFrame(idx, image[at..at + n])
    {
      hide WrU32;
      U32RoundTrip(idx);
      var w := WrU32(idx);
      frame[0], frame[1], frame[2], frame[3] := RAW_MAGIC[0], RAW_MAGIC[1], RAW_MAGIC[2], RAW_MAGIC[3];
      frame[4], frame[5], frame[6], frame[7] := w[0], w[1], w[2], w[3];
      assert frame[..RAW_HDR] == RAW_MAGIC + w;
      var k := 0;
      while k < n
        invariant 0 <= k <= n
        invariant frame[..RAW_HDR] == RAW_MAGIC + w
        invariant forall j :: RAW_HDR <= j < RAW_HDR + k ==> frame[j] == image[at + (j - RAW_HDR)]
      {
        frame[RAW_HDR + k] := image[at + k];
        k := k + 1;
      }
      assert frame[RAW_HDR..RAW_HDR + n] == image[at..at + n];
      assert frame[..RAW_HDR + n] == frame[..RAW_HDR] + frame[RAW_HDR..RAW_HDR + n];
    }

    /** Sends the frames set in the mask, up to the end of the image. */
    method SendWindow(image: seq<byte>, mask: bv32, avail: nat)
      requires total == TotalFrames(size) && |image| == size
      modifies `outbox, `final, `state
      ensures Did(Spec.SendWindow(old(Value()), image, mask, avail))
    {
      hide TotalFrames, Windows, FrameLen, HasBit, RawFrame, SendFrom, SoFar;
      var frame := new byte[250];
      ghost var s, sent := Value(), [];
      var left, i, ok := avail, 0, true;
      SoFarEnds(s, image, mask, avail, [], avail);
      while i < WINDOW_FRAMES && ok
        invariant 0 <= i <= WINDOW_FRAMES
        invariant fresh(frame) && outbox == old(outbox) + sent && state == s.state && final == s.final
        invariant if ok then SoFar(s, image, mask, avail, sent, left, i)
                  else SendFrom(s, image, mask, avail, 0) == (sent, false)
        decreases WINDOW_FRAMES - i, ok
      {
        SoFarStep(s, image, mask, avail, sent, left, i);
        var idx := window * WINDOW_FRAMES + i;
        if !HasBit(mask, i) {
          i := i + 1;
        } else if idx >= total {
          i := WINDOW_FRAMES;
        } else if left == 0 {
          ok := false;
        } else {
          var n := FrameLen(size, idx);
          FillFrame(frame, image, idx, idx * FRAME_DATA, n);
          outbox := outbox + [TxRaw(frame[..RAW_HDR + n])];
          sent := sent + [TxRaw(frame[..RAW_HDR + n])];
          left, i := left - 1, i + 1;
        }
      }
      SoFarEnds(s, image, mask, avail, sent, left);
      if !ok {
        final := Reported(FinalFlash);
        state := SFailed;
      }
    }

    /** The whole current window, and half a second for the answer. */
    method SendWhole(image: seq<byte>, avail: nat, now: u32)
      requires total == TotalFrames(size) && |image| == size
      modifies `outbox, `final, `state, `deadline
      ensures Did(Spec.SendWhole(old(Value()), image, avail, now))
    {
      hide TotalFrames, Windows, SendFrom, LowMask;
      SendWindow(image, WindowMask(total, window), avail);
      deadline := U32(now + 500);
    }

    method Reset(imageSize: u32, imageCrc: bv32)
      modifies `state, `size, `crc, `total, `windows, `window, `gotAnyAck, `endSent, `retries, `ackedBytes, `final
      ensures Value() == Sender.Sender(Pushing, imageSize, imageCrc, TotalFrames(imageSize), Windows(imageSize), 0,
                                       false, false, 0, deadline, 0, NoneYet, finalDetail)
    {
      hide TotalFrames, Windows;
      size, crc := imageSize, imageCrc;
      total, windows := TotalFrames(size), Windows(size);
      window, gotAnyAck, endSent, retries, ackedBytes, final := 0, false, false, 0, 0, NoneYet;
      state := Pushing;
    }

    /** Refuses an empty image; otherwise announces it to this device and sends its first window. */
    method Start(mac: Mac, image: seq<byte>, imageCrc: bv32, avail: nat, now: u32) returns (ok: bool)
      requires |image| < TWO32
      modifies this
      ensures ok == (image != [])
      ensures ok ==> Did(Spec.Start(old(Value()), image, imageCrc, avail, now)) && peer == mac
      ensures !ok ==> Did(SOut(old(Value()), [])) && peer == old(peer)
    {
      hide TotalFrames, Windows, Spec.SendWhole, Spec.Start;
      if |image| == 0 { return false; }
      peer := mac;
      Reset(|image|, imageCrc);
      ghost var b := Value();
      outbox := outbox + [TxBegin(size, crc)];
      SendWhole(image, avail, now);
      StartIs(old(Value()), b, image, imageCrc, avail, now);
      return true;
    }

    /** An ack from the device being flashed; anybody else's is ignored. */
    method OnAck(src: Mac, image: seq<byte>, a: Ack, avail: nat, now: u32)
      requires Value().Shaped() && (state == Pushing ==> |image| == size)
      modifies `outbox, `state, `window, `gotAnyAck, `endSent, `retries, `deadline, `ackedBytes, `final, `finalDetail
      ensures Did(if src == peer then Spec.OnAck(old(Value()), image, a, avail, now) else SOut(old(Value()), []))
    {
      hide TotalFrames, Windows, Spec.SendWhole, Spec.SendWindow;
      if state != Pushing || src != peer { return; }
      gotAnyAck, retries := true, 0;
      if a.status == FinalOk {
        ackedBytes, final, state := size, Reported(FinalOk), SDone;
      } else if a.status != WindowAck {
        final, finalDetail, state := Reported(a.status), a.detail, SFailed;
      } else if a.window == window {
        if a.missing == 0 {
          Advance(image, avail, now);
        } else {
          SendWindow(image, a.missing, avail);
          deadline := U32(now + 500);
        }
      }
    }

    /** The window is done on the device: count its bytes and go on with the next one, or END. */
    method Advance(image: seq<byte>, avail: nat, now: u32)
      requires total == TotalFrames(size) && |image| == size
      modifies `outbox, `state, `window, `endSent, `deadline, `ackedBytes, `final
      ensures Did(NextWindow(old(Value()), image, avail, now))
    {
      hide TotalFrames, Windows, Spec.SendWhole;
      var frames := FramesIn(total, window);
      ackedBytes := Min(ackedBytes + frames * FRAME_DATA, size);
      window := U16(window + 1);
      if window >= windows {
        SendEnd(now);
      } else {
        SendWhole(image, avail, now);
      }
    }

    method SendEnd(now: u32)
      modifies `outbox, `endSent, `deadline
      ensures outbox == old(outbox) + [TxEnd] && endSent && deadline == U32(now + 2000)
    {
      outbox := outbox + [TxEnd];
      endSent := true;
      deadline := U32(now + 2000);
    }

    /** The retry timer. */
    method Loop(image: seq<byte>, avail: nat, now: u32)
      requires Value().Shaped() && (state == Pushing ==> |image| == size)
      modifies this
      ensures Did(SenderLoop(old(Value()), image, avail, now))
    {
      hide TotalFrames, Windows, Spec.SendWhole, Spec.SendWindow;
      if state != Pushing || now < deadline { return; }
      retries := U8(retries + 1);
      if retries > (if endSent then 8 else 20) {
        final, state := GaveUp, SFailed;
      } else if endSent {
        SendEnd(now);
      } else {
        if !gotAnyAck { outbox := outbox + [TxBegin(size, crc)]; }
        SendWhole(image, avail, now);
      }
    }
  }
}
