/**
 The decoder object that the receiver interrupt feeds, and the sender's timing table; both
 work in place and are proved against module IrDecoder.
 */
module IrReceiver {
  import opened Words
  import opened IrTelegram
  import opened IrDecoder

  class Decoder {
    var mode: Mode
    var nbits: nat
    var acc: bv16
    var pending: bool
    var frame: bv16

    ghost function Value(): State
      reads this
    {
      State(mode, nbits, acc, pending, frame)
    }

    constructor ()
      ensures Value() == POWER_ON
    {
      mode, nbits, acc, pending, frame := Idle, 0, 0, false, 0;
    }

    method Reset()
      modifies this
      ensures Value() == old(Value()).(mode := Idle)
    {
      mode := Idle;
    }

    method TryHeader(p: Phase)
      modifies this
      ensures Value() == IrDecoder.TryHeader(old(Value()), p)
    {
      if p.mark && 1800 <= p.us <= 3200 { mode := HdrSpace; } else { mode := Idle; }
    }

    method Feed(mark: bool, us: u32) returns (done: bool)
      modifies this
      ensures (Value(), done) == IrDecoder.Feed(old(Value()), Phase(mark, us))
    {
      done := false;
      match mode
      case Idle =>
        TryHeader(Phase(mark, us));
      case HdrSpace =>
        if !mark && 250 <= us <= 1000 {
          nbits := 0;
          acc := 0;
          mode := BitMark;
        } else {
          TryHeader(Phase(mark, us));
        }
      case BitMark =>
        if mark && 250 <= us <= 1000 {
          if nbits == BITS {
            mode := Idle;
            var fields := DecodeFrame(acc);
            if fields.Some? {
              frame := acc;
              pending := true;
              done := true;
            }
            return;
          }
          mode := BitSpace;
        } else {
          TryHeader(Phase(mark, us));
        }
      case BitSpace =>
        if !mark && 250 <= us <= 1700 {
          acc := (acc << 1) | (if us >= 900 then 1 else 0);
          nbits := nbits + 1;
          mode := BitMark;
        } else {
          TryHeader(Phase(mark, us));
        }
    }

    /** Each reported frame is handed out once. */
    method Take() returns (got: Option<bv16>)
      modifies this
      ensures got == if old(pending) then Some(old(frame)) else None
      ensures Value() == old(Value()).(pending := false)
    {
      if !pending { return None; }
      got := Some(frame);
      pending := false;
    }
  }

  /** Fills the timing table of a frame; a buffer that is too short is left alone. */
  method Timings(frame: bv16, durations: array<nat>, maxLen: nat) returns (n: nat)
    requires maxLen <= durations.Length
    modifies durations
    ensures n == if maxLen < PULSES then 0 else PULSES
    ensures forall j :: 0 <= j < n ==> durations[j] == Nominal(frame, j)
    ensures forall j :: n <= j < durations.Length ==> durations[j] == old(durations[j])
    ensures n == 35 ==> durations[0] == 2400 && durations[1] == 600 && durations[34] == 600
    ensures n == 35 ==> forall i :: 0 <= i < 16 ==>
              durations[2 * i + 2] == 600 && durations[2 * i + 3] == if BitAt(frame, 15 - i) == 1 then 1200 else 600
  {
    if maxLen < PULSES { return 0; }
    durations[0] := HDR_MARK;
    durations[1] := HDR_SPACE;
    n := 2;
    for i := BITS downto 0
      invariant n == 34 - 2 * i
      invariant forall j :: 0 <= j < n ==> durations[j] == Nominal(frame, j)
      invariant forall j :: n <= j < durations.Length ==> durations[j] == old(durations[j])
    {
      durations[n] := BIT_MARK;
      durations[n + 1] := if Shr(frame, i) & 1 == 1 then SPACE1 else SPACE0;
      n := n + 2;
    }
    durations[n] := BIT_MARK;
    n := n + 1;
  }
}
