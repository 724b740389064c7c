/**
 The edge-fed telegram decoder. It is an automaton over an unbounded stream of measured
 mark/space phases; it is proved equal to a grammar over windows of 35 phases.
 */
module IrDecoder {
  import opened Words
  import opened IrTelegram

  const HDR_MARK: nat := 2400
  const HDR_SPACE: nat := 600
  const BIT_MARK: nat := 600
  const SPACE0: nat := 600
  const SPACE1: nat := 1200

  datatype Phase = Phase(mark: bool, us: u32)

  // --- the grammar ---------------------------------------------------------------------

  /** Phase j of a telegram: header mark, header space, 16 mark/space pairs, stop mark. */
  predicate Fits(j: nat, p: Phase) {
    if j == 0 then p.mark && 1800 <= p.us <= 3200
    else if j == 1 then !p.mark && 250 <= p.us <= 1000
    else if j % 2 == 0 then p.mark && 250 <= p.us <= 1000
    else !p.mark && 250 <= p.us <= 1700
  }

  /** The last j phases of the stream look like the first j of a telegram. */
  predicate EndsWith(ph: seq<Phase>, j: nat) {
    j <= |ph| && forall m :: |ph| - j <= m < |ph| ==> Fits(m - (|ph| - j), ph[m])
  }

  function BitOf(p: Phase): bv16 {
    if p.us >= 900 then 1 else 0
  }

  /** The accumulator after one more bit. */
  function Push(acc: bv16, bit: bv16): bv16 {
    (acc << 1) | bit
  }

  /** The first n data bits of the telegram that starts at index s. */
  function Word(ph: seq<Phase>, s: nat, n: nat): bv16
    requires s + 2 * n + 2 <= |ph|
  {
    if n == 0 then 0 else Push(Word(ph, s, n - 1), BitOf(ph[s + 2 * n + 1]))
  }

  /** The stream ends with a complete, valid telegram. */
  predicate EndsWithTelegram(ph: seq<Phase>) {
    EndsWith(ph, PULSES) && ValidFrame(Word(ph, |ph| - PULSES, BITS))
  }

  // --- the automaton ---------------------------------------------------------------------

  datatype Mode = Idle | HdrSpace | BitMark | BitSpace
  datatype State = State(mode: Mode, nbits: nat, acc: bv16, pending: bool, frame: bv16)

  const POWER_ON: State := State(Idle, 0, 0, false, 0)

  function TryHeader(d: State, p: Phase): State {
    if p.mark && 1800 <= p.us <= 3200 then d.(mode := HdrSpace) else d.(mode := Idle)
  }

  /** One finished phase: the new state, and whether a frame is reported. */
  function Feed(d: State, p: Phase): (State, bool) {
    match d.mode
    case Idle => (TryHeader(d, p), false)
    case HdrSpace =>
      if !p.mark && 250 <= p.us <= 1000 then (d.(nbits := 0, acc := 0, mode := BitMark), false)
      else (TryHeader(d, p), false)
    case BitMark =>
      if !(p.mark && 250 <= p.us <= 1000) then (TryHeader(d, p), false)
      else if d.nbits != BITS then (d.(mode := BitSpace), false)
      else if DecodeFrame(d.acc).Some? then (d.(mode := Idle, frame := d.acc, pending := true), true)
      else (d.(mode := Idle), false)
    case BitSpace =>
      if !p.mark && 250 <= p.us <= 1700 then
        (d.(acc := Push(d.acc, BitOf(p)), nbits := d.nbits + 1, mode := BitMark), false)
      else (TryHeader(d, p), false)
  }

  /** The decoder after a stream, and whether its last phase reported a frame. */
  function After(d: State, ph: seq<Phase>): State {
    if ph == [] then d else Feed(After(d, ph[..|ph| - 1]), ph[|ph| - 1]).0
  }

  predicate Reports(d: State, ph: seq<Phase>) {
    ph != [] && Feed(After(d, ph[..|ph| - 1]), ph[|ph| - 1]).1
  }

  // --- automaton = grammar -----------------------------------------------------------------

  /** How much of a telegram the automaton believes to have seen. */
  function Position(d: State): nat {
    match d.mode
    case Idle => 0
    case HdrSpace => 1
    case BitMark => 2 + 2 * d.nbits
    case BitSpace => 3 + 2 * d.nbits
  }

  /** It has seen exactly that much, no other alignment is possible, and the bits are right. */
  ghost predicate Tracks(d: State, ph: seq<Phase>) {
    var j := Position(d);
    && j < PULSES
    && EndsWith(ph, j)
    && (forall k :: 1 <= k < PULSES && EndsWith(ph, k) ==> k == j)
    && (j >= 2 ==> d.acc == Word(ph, |ph| - j, d.nbits))
  }

  lemma EndsWithGrows(ph: seq<Phase>, p: Phase, k: nat)
    ensures EndsWith(ph + [p], k + 1) <==> EndsWith(ph, k) && Fits(k, p)
  {
    hide Fits;
    var q := ph + [p];
    if EndsWith(q, k + 1) {
      assert q[|ph|] == p;
      forall m | |ph| - k <= m < |ph| ensures Fits(m - (|ph| - k), ph[m]) {
        assert q[m] == ph[m];
      }
    }
  }

  lemma {:induction false} WordIgnoresRest(ph: seq<Phase>, p: Phase, s: nat, n: nat)
    requires s + 2 * n + 2 <= |ph|
    ensures Word(ph + [p], s, n) == Word(ph, s, n)
  {
    hide Push, BitOf;
    if n > 0 { WordIgnoresRest(ph, p, s, n - 1); }
  }

  /** One phase moves the automaton one position on, back to the header mark, or out. */
  lemma FeedPosition(d: State, p: Phase)
    requires Position(d) < PULSES
    ensures var j := Position(d); var (n, r) := Feed(d, p);
      && Position(n) == (if Fits(j, p) && j + 1 < PULSES then j + 1 else if Fits(0, p) then 1 else 0)
      && (r <==> j + 1 == PULSES && Fits(j, p) && ValidFrame(d.acc))
      && (j > 0 && Fits(j, p) ==> !Fits(0, p))
  {
    hide Push, BitOf, ValidFrame, ShooterField, DamageField;
  }

  /** The bits collected are those of the aligned telegram. */
  lemma FeedWord(d: State, ph: seq<Phase>, p: Phase)
    requires Tracks(d, ph)
    ensures var n := Feed(d, p).0;
      Position(n) >= 2 ==> n.acc == Word(ph + [p], |ph| + 1 - Position(n), n.nbits)
    ensures Feed(d, p).1 ==> Feed(d, p).0.frame == d.acc == Word(ph + [p], |ph| + 1 - PULSES, BITS) && Feed(d, p).0.pending
    ensures Position(d) + 1 == PULSES ==> d.acc == Word(ph + [p], |ph| + 1 - PULSES, BITS)
  {
    hide Push, BitOf, Word, DecodeFrame, EndsWith;
    EndsWithin(ph, Position(d));
    if Position(d) >= 2 { WordIgnoresRest(ph, p, |ph| - Position(d), d.nbits); }
    NextWord(d, ph, p);
  }

  lemma EndsWithin(ph: seq<Phase>, j: nat)
    requires EndsWith(ph, j)
    ensures j <= |ph|
  {
  }

  lemma FeedTracks(d: State, ph: seq<Phase>, p: Phase)
    requires Tracks(d, ph)
    ensures Tracks(Feed(d, p).0, ph + [p])
    ensures Feed(d, p).1 <==> EndsWithTelegram(ph + [p])
    ensures Feed(d, p).1 ==> Feed(d, p).0.frame == Word(ph + [p], |ph| + 1 - PULSES, BITS) && Feed(d, p).0.pending
  {
    hide Feed, Word, ValidFrame, EndsWith, Fits, Position;
    FeedPosition(d, p);
    FeedWord(d, ph, p);
    Realigned(ph, p, Position(d), Position(Feed(d, p).0));
    NothingYet(ph + [p]);
  }

  /** After one more phase there is again exactly one alignment, the automaton's position. */
  lemma Realigned(ph: seq<Phase>, p: Phase, j: nat, n: nat)
    requires EndsWith(ph, j) && j < PULSES && forall k :: 1 <= k < PULSES && EndsWith(ph, k) ==> k == j
    requires n == if Fits(j, p) && j + 1 < PULSES then j + 1 else if Fits(0, p) then 1 else 0
    requires j > 0 && Fits(j, p) ==> !Fits(0, p)
    ensures EndsWith(ph + [p], n) && forall k :: 1 <= k < PULSES && EndsWith(ph + [p], k) ==> k == n
    ensures EndsWith(ph + [p], PULSES) <==> j + 1 == PULSES && Fits(j, p)
  {
    hide EndsWith, Fits;
    NextAlignments(ph, p, j);
    NothingYet(ph + [p]);
  }

  lemma NothingYet(ph: seq<Phase>)
    ensures EndsWith(ph, 0)
    ensures forall k: nat :: EndsWith(ph, k) ==> k <= |ph|
  {
  }

  /** Which alignments are left after one more phase. */
  lemma NextAlignments(ph: seq<Phase>, p: Phase, j: nat)
    requires forall k :: 1 <= k < PULSES && EndsWith(ph, k) ==> k == j
    requires EndsWith(ph, j) && j < PULSES
    ensures forall k :: 1 <= k <= PULSES ==>
              (EndsWith(ph + [p], k) <==> (k == 1 && Fits(0, p)) || (k == j + 1 && Fits(j, p)))
  {
    hide Fits;
    NothingYet(ph);
    forall k | 1 <= k <= PULSES
      ensures EndsWith(ph + [p], k) <==> (k == 1 && Fits(0, p)) || (k == j + 1 && Fits(j, p))
    {
      hide EndsWith;
      EndsWithGrows(ph, p, k - 1);
    }
  }

  lemma NextWord(d: State, ph: seq<Phase>, p: Phase)
    requires Tracks(d, ph)
    ensures d.mode == HdrSpace ==> Word(ph + [p], |ph| - 1, 0) == 0
    ensures d.mode == BitSpace ==>
              Word(ph + [p], |ph| - Position(d), d.nbits + 1) == Push(Word(ph, |ph| - Position(d), d.nbits), BitOf(p))
  {
    hide Push, BitOf;
    if d.mode == BitSpace { WordIgnoresRest(ph, p, |ph| - Position(d), d.nbits); }
  }

  lemma {:induction false} StreamTracks(ph: seq<Phase>)
    ensures Tracks(After(POWER_ON, ph), ph)
  {
    hide Feed, Tracks;
    if ph != [] {
      StreamTracks(ph[..|ph| - 1]);
      FeedTracks(After(POWER_ON, ph[..|ph| - 1]), ph[..|ph| - 1], ph[|ph| - 1]);
      assert ph == ph[..|ph| - 1] + [ph[|ph| - 1]];
    } else {
      PowerOnTracks();
    }
  }

  lemma PowerOnTracks()
    ensures Tracks(POWER_ON, [])
  {
  }

  /**
   On every stream the decoder reports at a phase exactly when the last 35 phases are a
   telegram within tolerance whose bits pass version and CRC; the stored frame is those bits.
   */
  lemma DecoderIsGrammar(ph: seq<Phase>)
    ensures Reports(POWER_ON, ph) <==> EndsWithTelegram(ph)
    ensures Reports(POWER_ON, ph) ==>
              After(POWER_ON, ph).pending && After(POWER_ON, ph).frame == Word(ph, |ph| - PULSES, BITS)
  {
    hide Feed, Tracks, ValidFrame, Word;
    if ph != [] {
      var init := ph[..|ph| - 1];
      StreamTracks(init);
      FeedTracks(After(POWER_ON, init), init, ph[|ph| - 1]);
      assert ph == init + [ph[|ph| - 1]];
    }
  }

  // --- one telegram, from any state -----------------------------------------------------------

  /** 35 phases inside their tolerance bands. */
  predicate Telegram(w: seq<Phase>) {
    |w| == PULSES && forall i :: 0 <= i < PULSES ==> Fits(i, w[i])
  }

  /** k phases of telegram w have been followed, bits included. */
  predicate Follows(s: State, w: seq<Phase>, k: nat)
    requires |w| == PULSES
  {
    0 < k < PULSES && s.mode != Idle && Position(s) == k && (k >= 2 ==> s.acc == Word(w, 0, s.nbits))
  }

  lemma HeaderStarts(d: State, w: seq<Phase>)
    requires Telegram(w)
    ensures Follows(Feed(d, w[0]).0, w, 1) && !Feed(d, w[0]).1
  {
    assert Fits(0, w[0]);
  }

  lemma FollowsOn(s: State, w: seq<Phase>, k: nat)
    requires Telegram(w) && k + 1 < PULSES && Follows(s, w, k)
    ensures Follows(Feed(s, w[k]).0, w, k + 1) && !Feed(s, w[k]).1
  {
    hide Push, BitOf, DecodeFrame;
    assert Fits(k, w[k]);
  }

  /** Whatever state the decoder was in, k phases of a telegram put it at position k. */
  lemma {:induction false} TelegramAdvances(d: State, w: seq<Phase>, k: nat)
    requires Telegram(w) && 1 <= k < PULSES
    ensures Follows(After(d, w[..k]), w, k) && !Reports(d, w[..k])
  {
    hide Feed, Follows;
    assert w[..k][..k - 1] == w[..k - 1] && w[..k][k - 1] == w[k - 1];
    if k > 1 {
      TelegramAdvances(d, w, k - 1);
      FollowsOn(After(d, w[..k - 1]), w, k - 1);
    } else {
      HeaderStarts(d, w);
    }
  }

  /**
   A telegram is reported at its stop mark exactly when its bits are a valid frame, and at
   none of its earlier phases, from any prior decoder state.
   */
  lemma TelegramIsRead(d: State, w: seq<Phase>)
    requires Telegram(w)
    ensures Reports(d, w) <==> ValidFrame(Word(w, 0, BITS))
    ensures Reports(d, w) ==> After(d, w).pending && After(d, w).frame == Word(w, 0, BITS)
    ensures forall k :: 1 <= k < PULSES ==> !Reports(d, w[..k])
  {
    hide Push, BitOf, Word, Reports, After, ValidFrame;
    forall k | 1 <= k < PULSES ensures !Reports(d, w[..k]) { TelegramAdvances(d, w, k); }
    TelegramAdvances(d, w, 34);
    StopMark(d, w);
  }

  lemma StopMark(d: State, w: seq<Phase>)
    requires Telegram(w)
    requires var s := After(d, w[..34]); s.mode == BitMark && s.nbits == BITS && s.acc == Word(w, 0, BITS)
    ensures Reports(d, w) <==> ValidFrame(Word(w, 0, BITS))
    ensures Reports(d, w) ==> After(d, w).pending && After(d, w).frame == Word(w, 0, BITS)
  {
    hide Word, ValidFrame;
    assert Fits(34, w[34]);
  }

  // --- jitter ------------------------------------------------------------------------------

  /** The sender's timing table: even entries are marks, odd entries spaces. */
  function Nominal(frame: bv16, j: nat): nat
    requires j < PULSES
  {
    if j == 0 then HDR_MARK
    else if j == 1 then HDR_SPACE
    else if j % 2 == 0 then BIT_MARK
    else if BitAt(frame, (33 - j) / 2) == 1 then SPACE1 else SPACE0
  }

  /** Phase j as measured when it comes out e microseconds longer. */
  function Measured(frame: bv16, j: nat, e: int): Phase
    requires j < PULSES
  {
    Phase(j % 2 == 0, U32(Nominal(frame, j) + e))
  }

  /** The measured phase j is in its band and, for a data space, still reads as its bit. */
  predicate ReadRight(frame: bv16, j: nat, e: int)
    requires j < PULSES
  {
    Fits(j, Measured(frame, j, e)) &&
    (j >= 2 && j % 2 == 1 ==> (BitOf(Measured(frame, j, e)) == 1 <==> BitAt(frame, (33 - j) / 2) == 1))
  }

  lemma JitterSurvives(frame: bv16, j: nat, e: int)
    requires j < PULSES && -300 <= e <= 299
    ensures ReadRight(frame, j, e)
  {
    hide BitAt;
  }

  /** The version nibble of a valid frame starts 0 and ends 1. */
  lemma VersionBits(frame: bv16)
    requires ValidFrame(frame)
    ensures BitAt(frame, 15) == 0 && BitAt(frame, 12) == 1
  {
    hide Crc4;
    ShrIsShift(frame);
    VersionBitsOf(frame);
  }

  lemma VersionBitsOf(frame: bv16)
    requires VersionField(frame) == VERSION
    ensures (frame >> 15) & 1 == 0 && (frame >> 12) & 1 == 1
  {
  }

  function Quarter(d: bv16): bv16 {
    Half(Half(Half(Half(d))))
  }

  lemma ShrFour(d: bv16, i: nat)
    ensures Shr(d, i + 4) == Shr(Quarter(d), i)
  {
    hide Half;
    assert Shr(d, i + 4) == Shr(Half(d), i + 3) == Shr(Half(Half(d)), i + 2) == Shr(Half(Half(Half(d))), i + 1);
  }

  lemma QuarterIsShift(d: bv16)
    ensures Quarter(Quarter(Quarter(d))) == d >> 12
    ensures Half(Half(Half(d >> 12))) == d >> 15
    ensures Quarter(d >> 12) == 0
  {
  }

  lemma ShrIsShift(d: bv16)
    ensures Shr(d, 12) == d >> 12 && Shr(d, 15) == d >> 15 && Shr(d, 16) == 0
  {
    hide Half, Quarter;
    var q := Quarter(d);
    ShrFour(d, 8);
    ShrFour(q, 4);
    ShrFour(Quarter(q), 0);
    ShrFour(d, 11);
    ShrFour(q, 7);
    ShrFour(Quarter(q), 3);
    ShrFour(d, 12);
    ShrFour(q, 8);
    ShrFour(Quarter(q), 4);
    ShrFour(Quarter(Quarter(q)), 0);
    QuarterIsShift(d);
    assert Shr(d >> 12, 3) == Shr(Half(d >> 12), 2) == Shr(Half(Half(d >> 12)), 1);
  }

  /** -300..+299 us is exactly the jitter that every phase of a valid frame survives. */
  lemma JitterBoundIsTight(frame: bv16, e: int)
    requires ValidFrame(frame) && -0x8000_0000 <= e < 0x8000_0000
    ensures (forall j: nat :: j < PULSES ==> ReadRight(frame, j, e)) <==> -300 <= e <= 299
  {
    hide ValidFrame, BitAt;
    VersionBits(frame);
    if -300 <= e <= 299 {
      forall j: nat | j < PULSES ensures ReadRight(frame, j, e) {
        JitterSurvives(frame, j, e);
      }
    } else {
      assert !ReadRight(frame, 3, e) || !ReadRight(frame, 9, e);
    }
  }

  /** The 35 phases of a frame, each off by its own amount. */
  function Received(frame: bv16, e: seq<int>): seq<Phase>
    requires |e| == PULSES
  {
    seq(PULSES, j requires 0 <= j < PULSES => Measured(frame, j, e[j]))
  }

  lemma {:induction false} ShrOuter(d: bv16, i: nat)
    ensures Shr(d, i + 1) == Half(Shr(d, i))
    decreases i
  {
    hide Half;
    if i > 0 { ShrOuter(Half(d), i - 1); }
  }

  lemma PushLow(x: bv16)
    ensures Push(Half(x), Low(x)) == x && (Low(x) == 0 || Low(x) == 1)
  {
  }

  lemma {:induction false} WordIsFrame(frame: bv16, e: seq<int>, n: nat)
    requires |e| == PULSES && n <= BITS
    requires forall j :: 0 <= j < PULSES ==> -300 <= e[j] <= 299
    ensures Word(Received(frame, e), 0, n) == Shr(frame, 16 - n)
  {
    hide Push, Half, Low;
    if n == 0 {
      ShrIsShift(frame);
    } else {
      WordIsFrame(frame, e, n - 1);
      JitterSurvives(frame, 2 * n + 1, e[2 * n + 1]);
      ShrOuter(frame, 16 - n);
      PushLow(Shr(frame, 16 - n));
      assert BitOf(Received(frame, e)[2 * n + 1]) == BitAt(frame, 16 - n);
    }
  }

  /**
   Round trip over the air: from any prior state, every valid frame whose 35 phases are each
   independently off by -300..+299 us is reported, at the stop mark only, bit for bit.
   */
  lemma RoundTrip(d: State, frame: bv16, e: seq<int>)
    requires ValidFrame(frame) && |e| == PULSES
    requires forall j :: 0 <= j < PULSES ==> -300 <= e[j] <= 299
    ensures var w := Received(frame, e);
      && Reports(d, w) && After(d, w).pending && After(d, w).frame == frame
      && forall k :: 1 <= k < PULSES ==> !Reports(d, w[..k])
  {
    hide ValidFrame, Reports, After, Word, Measured, Fits;
    var w := Received(frame, e);
    forall i | 0 <= i < PULSES ensures Fits(i, w[i]) {
      JitterSurvives(frame, i, e[i]);
    }
    WordIsFrame(frame, e, BITS);
    TelegramIsRead(d, w);
  }

  /**
   A telegram whose bits were misread in one or two places is never reported: not at its
   stop mark and not at any phase before, whatever stream came first.
   */
  lemma MisreadIsNeverReported(before: seq<Phase>, w: seq<Phase>, frame: bv16, i: nat, j: nat, k: nat)
    requires Telegram(w) && ValidFrame(frame) && i < j < 16 && 1 <= k <= PULSES
    requires Word(w, 0, BITS) in {Xor(frame, Flip(i)), Xor(frame, Flip(j)), Xor(frame, Xor(Flip(i), Flip(j)))}
    ensures !Reports(POWER_ON, before + w[..k])
  {
    hide ValidFrame, Feed, Word, Flip, Xor;
    MisreadFrameIsInvalid(frame, i, j);
    TelegramIsRead(After(POWER_ON, before), w);
    AfterConcat(POWER_ON, before, w[..k - 1]);
    assert (before + w[..k])[..|before| + k - 1] == before + w[..k - 1];
    assert w[..k][..k - 1] == w[..k - 1];
    assert w[..PULSES] == w;
  }

  lemma {:induction false} AfterConcat(d: State, a: seq<Phase>, b: seq<Phase>)
    ensures After(d, a + b) == After(After(d, a), b)
  {
    hide Feed;
    if b == [] {
      assert a + b == a;
    } else {
      AfterConcat(d, a, b[..|b| - 1]);
      assert (a + b)[..|a + b| - 1] == a + b[..|b| - 1];
    }
  }

  // --- the exact tolerance of every phase -------------------------------------------------------

  /** The durations, in microseconds, at which phase j of this frame is read as sent. */
  predicate InBand(frame: bv16, j: nat, us: u32)
    requires j < 35
  {
    if j == 0 then 1800 <= us <= 3200
    else if j == 1 || j % 2 == 0 then 250 <= us <= 1000
    else if BitAt(frame, (33 - j) / 2) == 1 then 900 <= us <= 1700
    else 250 <= us <= 899
  }

  /** Alternating marks and spaces of these durations. */
  function Heard(us: seq<u32>): (ph: seq<Phase>)
    requires |us| == 35
  {
    seq(35, j requires 0 <= j < 35 => Phase(j % 2 == 0, us[j]))
  }

  lemma BandIsFit(frame: bv16, j: nat, us: u32)
    requires j < 35
    ensures InBand(frame, j, us) <==>
              Fits(j, Phase(j % 2 == 0, us)) &&
              (j >= 3 && j % 2 == 1 ==> BitOf(Phase(j % 2 == 0, us)) == BitAt(frame, (33 - j) / 2))
  {
    hide Shr;
    if j <= 33 { LowBit(Shr(frame, (33 - j) / 2)); }
  }

  lemma LowBit(d: bv16)
    ensures Low(d) == 0 || Low(d) == 1
  {
  }

  lemma HalfOfPush(x: bv16, bit: bv16)
    requires bit <= 1
    ensures Low(Push(x, bit)) == bit
    ensures x < 0x8000 ==> Half(Push(x, bit)) == x
  {
  }

  /** The largest word of n bits. */
  function Ones(n: nat): bv16 {
    if n == 0 then 0 else Push(Ones(n - 1), 1)
  }

  lemma PushSmall(x: bv16, bit: bv16, a: bv16)
    requires bit <= 1 && x <= a && a < 0x8000
    ensures Push(x, bit) <= Push(a, 1)
  {
  }

  lemma OnesSmall(n: nat)
    requires n <= 15
    ensures Ones(n) < 0x8000
  {
    assert Ones(3) == 7;
    assert Ones(6) == 0x3F;
    assert Ones(9) == 0x1FF;
    assert Ones(12) == 0xFFF;
  }

  lemma {:induction false} WordSmall(ph: seq<Phase>, s: nat, n: nat)
    requires s + 2 * n + 2 <= |ph| && n <= 15
    ensures Word(ph, s, n) <= Ones(n) < 0x8000
  {
    hide Push, BitOf, Ones;
    OnesSmall(n);
    if n == 0 {
      NoOnes();
    } else {
      WordSmall(ph, s, n - 1);
      BitIsBit(ph[s + 2 * n + 1]);
      PushSmall(Word(ph, s, n - 1), BitOf(ph[s + 2 * n + 1]), Ones(n - 1));
      MoreOnes(n);
    }
  }

  lemma NoOnes()
    ensures Ones(0) == 0
  {
  }

  lemma MoreOnes(n: nat)
    requires n > 0
    ensures Ones(n) == Push(Ones(n - 1), 1)
  {
    hide Push;
  }

  lemma BitIsBit(p: Phase)
    ensures BitOf(p) <= 1
  {
  }

  /** A word is the frame exactly if every bit is. */
  lemma {:induction false} WordIsBits(ph: seq<Phase>, frame: bv16, n: nat)
    requires |ph| == PULSES && n <= BITS
    ensures Word(ph, 0, n) == Shr(frame, 16 - n) <==>
              forall k :: 1 <= k <= n ==> BitOf(ph[2 * k + 1]) == BitAt(frame, 16 - k)
  {
    hide Push, BitOf, Half, Low, Shr;
    if n == 0 {
      FrameShifted(frame);
    } else {
      WordIsBits(ph, frame, n - 1);
      WordSmall(ph, 0, n - 1);
      ShrOuter(frame, 16 - n);
      var x, b, d := Word(ph, 0, n - 1), BitOf(ph[2 * n + 1]), Shr(frame, 16 - n);
      BitIsBit(ph[2 * n + 1]);
      HalfOfPush(x, b);
      PushLow(d);
      assert Push(x, b) == d <==> x == Half(d) && b == Low(d);
    }
  }

  lemma FrameShifted(frame: bv16)
    ensures Shr(frame, 16) == 0
  {
    hide Shr;
    ShrIsShift(frame);
  }

  /**
   The tolerance is exact. After any stream, 35 alternating phases are reported as this frame if
   and only if each of them lies in its band: 1800..3200 us for the header mark, 250..1000 us for the
   header space and the marks, 250..899 us for the space of a 0 and 900..1700 us for that of a 1.
   */
  lemma ToleranceIsExact(before: seq<Phase>, frame: bv16, us: seq<u32>)
    requires ValidFrame(frame) && |us| == 35
    ensures var ph := before + Heard(us);
      Reports(POWER_ON, ph) && After(POWER_ON, ph).frame == frame <==>
        forall j: nat :: j < 35 ==> InBand(frame, j, us[j])
  {
    hide ValidFrame, Reports, After, Word, Fits, InBand, BitOf, BitAt, Shr;
    var w, ph := Heard(us), before + Heard(us);
    DecoderIsGrammar(ph);
    EndIsTelegram(before, w);
    WordAtEnd(before, w, BITS);
    FrameIsItself(frame);
    WordIsBits(w, frame, BITS);
    forall j: nat | j < 35
      ensures InBand(frame, j, us[j]) <==>
                Fits(j, w[j]) && (j >= 3 && j % 2 == 1 ==> BitOf(w[j]) == BitAt(frame, (33 - j) / 2))
    {
      BandIsFit(frame, j, us[j]);
    }
    if forall j: nat :: j < 35 ==> InBand(frame, j, us[j]) {
      forall k | 1 <= k <= 16 ensures BitOf(w[2 * k + 1]) == BitAt(frame, 16 - k) {
        assert InBand(frame, 2 * k + 1, us[2 * k + 1]);
      }
    }
    if Telegram(w) && Word(w, 0, BITS) == frame {
      forall j: nat | j < 35 ensures InBand(frame, j, us[j]) {
        if j >= 3 && j % 2 == 1 { assert w[2 * ((j - 1) / 2) + 1] == w[j]; }
      }
    }
  }

  lemma FrameIsItself(frame: bv16)
    ensures Shr(frame, 0) == frame
  {
  }

  lemma EndIsTelegram(before: seq<Phase>, w: seq<Phase>)
    requires |w| == PULSES
    ensures EndsWith(before + w, PULSES) <==> Telegram(w)
  {
    hide Fits;
    var ph := before + w;
    forall i | 0 <= i < PULSES ensures ph[|before| + i] == w[i] {}
    if EndsWith(ph, PULSES) {
      forall i | 0 <= i < PULSES ensures Fits(i, w[i]) { assert ph[|before| + i] == w[i]; }
    }
  }

  lemma {:induction false} WordAtEnd(before: seq<Phase>, w: seq<Phase>, n: nat)
    requires |w| == PULSES && n <= BITS
    ensures Word(before + w, |before|, n) == Word(w, 0, n)
  {
    hide Push, BitOf;
    if n > 0 { WordAtEnd(before, w, n - 1); }
  }

  // --- the frame that waits -----------------------------------------------------------------------

  /** What the application and the interrupt do with a decoder. */
  datatype Use = Fed(p: Phase) | Took

  function Used(us: seq<Use>): State {
    if us == [] then POWER_ON
    else
      var d := Used(us[..|us| - 1]);
      if us[|us| - 1].Took? then d.(pending := false) else Feed(d, us[|us| - 1].p).0
  }

  predicate ReportAt(us: seq<Use>, k: nat)
    requires k < |us|
  {
    us[k].Fed? && Feed(Used(us[..k]), us[k].p).1
  }

  /** Use k reported a frame, and since then none was reported or taken. */
  ghost predicate LastReport(us: seq<Use>, k: nat)
    requires k < |us|
  {
    ReportAt(us, k) && forall j :: k < j < |us| ==> !us[j].Took? && !ReportAt(us, j)
  }

  lemma FeedLeavesFrame(d: State, p: Phase)
    ensures var (n, done) := Feed(d, p);
      (n.pending <==> d.pending || done) && n.frame == (if done then d.acc else d.frame)
  {
    hide Push, BitOf, ValidFrame;
  }

  lemma EarlierReport(us: seq<Use>, k: nat)
    requires k + 1 < |us|
    ensures ReportAt(us[..|us| - 1], k) <==> ReportAt(us, k)
  {
    hide Feed, Used;
    assert us[..|us| - 1][..k] == us[..k];
  }

  /** A frame waits exactly if one was reported and not taken since, and it is the last one reported. */
  lemma {:induction false} WaitingIsLastReport(us: seq<Use>)
    ensures Used(us).pending <==> exists k: nat :: k < |us| && LastReport(us, k)
    ensures forall k: nat :: k < |us| && LastReport(us, k) ==> Used(us).frame == Used(us[..k]).acc
    decreases |us|
  {
    hide Feed, Reports;
    if us != [] {
      var n := |us| - 1;
      var init := us[..n];
      WaitingIsLastReport(init);
      forall k: nat | k < n ensures ReportAt(init, k) <==> ReportAt(us, k) { EarlierReport(us, k); }
      forall k: nat | k < n ensures init[..k] == us[..k] {}
      if us[n].Fed? {
        FeedLeavesFrame(Used(init), us[n].p);
        assert init == us[..n];
        if ReportAt(us, n) {
          assert LastReport(us, n);
        } else {
          forall k: nat | k < n ensures LastReport(us, k) <==> LastReport(init, k) { LaterIsQuiet(us, k); }
        }
      }
    }
  }

  lemma LaterIsQuiet(us: seq<Use>, k: nat)
    requires k + 1 < |us| && us[|us| - 1].Fed? && !ReportAt(us, |us| - 1)
    ensures LastReport(us, k) <==> LastReport(us[..|us| - 1], k)
  {
    hide Feed, Used, ReportAt;
    var init := us[..|us| - 1];
    forall j: nat | j < |init| ensures ReportAt(init, j) <==> ReportAt(us, j) { EarlierReport(us, j); }
    if LastReport(init, k) {
      forall j | k < j < |us| ensures !us[j].Took? && !ReportAt(us, j) {
        if j < |init| { assert init[j] == us[j]; }
      }
    }
    if LastReport(us, k) {
      forall j | k < j < |init| ensures !init[j].Took? && !ReportAt(init, j) { assert init[j] == us[j]; }
    }
  }
}
