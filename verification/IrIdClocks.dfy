/**
 Every station has a millisecond counter of its own, which starts again at each power-up. A
 station never compares its clock with another one's: shifting all its readings by a constant
 changes nothing it does, and a boot forgets the old readings. What the network modules show
 with one clock for all therefore holds with a clock per station.
 */
module IrIdClocks {
  import opened Words
  import opened IrIdStation
  import opened IrIdReaction

  /** The same station, its clock ahead by d; stamps that are not in use may differ. */
  predicate Ahead(s: Station, s': Station, d: int)
    requires s.Sized() && s'.Sized()
  {
    && s'.mac == s.mac && s'.preferred == s.preferred && s'.state == s.state && s'.id == s.id
    && s'.candidate == s.candidate && s'.idChanged == s.idChanged && s'.seen == s.seen
    && (s.state == Listen ==> s'.listenUntil == U32(s.listenUntil + d))
    && (s.state == Probe ==> s'.lastProbeMs == U32(s.lastProbeMs + d) && s'.probesSent == s.probesSent)
    && (s.state == Held ==> s'.lastBeaconMs == U32(s.lastBeaconMs + d))
    && forall i :: 1 <= i < 16 && s.seen[i] ==> s'.seenMs[i] == U32(s.seenMs[i] + d)
  }

  lemma ShiftedBack(a: u32, b: u32, d: int)
    ensures U32(U32(a + d) - U32(b + d)) == U32(a - b)
  {
  }

  lemma ShiftedOn(a: u32, k: nat, d: int)
    ensures U32(U32(a + d) + k) == U32(U32(a + k) + d)
  {
  }

  lemma SameOccupied(s: Station, s': Station, d: int, i: u8, now: u32)
    requires s.Sized() && s'.Sized() && Ahead(s, s', d)
    ensures s'.IsOccupied(i, U32(now + d)) <==> s.IsOccupied(i, now)
  {
    if ValidId(i) && s.seen[i] { ShiftedBack(now, s.seenMs[i], d); }
    hide U32;
  }

  lemma {:induction false} SameFree(s: Station, s': Station, d: int, now: u32, k: nat)
    requires s.Sized() && s'.Sized() && Ahead(s, s', d) && k <= 15
    ensures FirstFree(s', U32(now + d), k) == FirstFree(s, now, k)
    decreases 15 - k
  {
    hide U32, ScanId, Station.IsOccupied;
    if k < 15 {
      SameOccupied(s, s', d, ScanId(s.mac, k), now);
      SameFree(s, s', d, now, k + 1);
    }
  }

  lemma SamePick(s: Station, s': Station, d: int, now: u32)
    requires s.Sized() && s'.Sized() && Ahead(s, s', d)
    ensures PickCandidate(s', U32(now + d)) == PickCandidate(s, now)
  {
    hide U32, ScanId, Station.IsOccupied, FirstFree;
    if s.preferred != 0 { SameOccupied(s, s', d, s.preferred, now); }
    SameFree(s, s', d, now, 0);
  }

  /** Two outcomes that differ by the clock only. */
  predicate Alike(r: Step, r': Step, d: int)
    requires r.s.Sized() && r'.s.Sized()
  {
    r'.tx == r.tx && Ahead(r.s, r'.s, d)
  }

  lemma StartProbeAlike(s: Station, s': Station, d: int, now: u32)
    requires s.Sized() && s'.Sized() && Ahead(s, s', d)
    ensures StartProbe(s, now).s.Sized() && StartProbe(s', U32(now + d)).s.Sized()
    ensures Alike(StartProbe(s, now), StartProbe(s', U32(now + d)), d)
  {
    hide U32, PickCandidate;
    SamePick(s, s', d, now);
    ShiftedOn(now, T_RETRY, d);
  }

  lemma NoteAlike(s: Station, s': Station, d: int, i: u8, now: u32)
    requires s.Sized() && s'.Sized() && Ahead(s, s', d)
    ensures Note(s, i, now).Sized() && Note(s', i, U32(now + d)).Sized()
    ensures Ahead(Note(s, i, now), Note(s', i, U32(now + d)), d)
    ensures Note(s, i, now).id == s.id && Note(s, i, now).state == s.state
  {
    hide U32;
  }

  lemma TickAlike(s: Station, s': Station, d: int, now: u32)
    requires StationOk(s) && StationOk(s') && Ahead(s, s', d)
    ensures Tick(s, now).s.Sized() && Tick(s', U32(now + d)).s.Sized()
    ensures Alike(Tick(s, now), Tick(s', U32(now + d)), d)
  {
    hide U32, StartProbe, Elapsed, Reached;
    SameTests(now, s.listenUntil, d, 0);
    SameTests(now, s.lastProbeMs, d, T_PROBE);
    SameTests(now, s.lastBeaconMs, d, T_BEACON);
    if s.state == Listen { StartProbeAlike(s, s', d, now); }
  }

  lemma SameTests(now: u32, x: u32, d: int, ms: nat)
    ensures Elapsed(U32(now + d), U32(x + d), ms) <==> Elapsed(now, x, ms)
    ensures Reached(U32(now + d), U32(x + d)) <==> Reached(now, x)
  {
    ShiftedBack(now, x, d);
    hide U32;
  }

  lemma OnProbeAlike(s: Station, s': Station, d: int, src: Mac, i: u8, now: u32)
    requires StationOk(s) && StationOk(s') && Ahead(s, s', d)
    ensures OnProbe(s, src, i, now).s.Sized() && OnProbe(s', src, i, U32(now + d)).s.Sized()
    ensures Alike(OnProbe(s, src, i, now), OnProbe(s', src, i, U32(now + d)), d)
  {
    hide U32, StartProbe, Note, MemcmpLess;
    NoteAlike(s, s', d, i, now);
    StartProbeAlike(s, s', d, now);
    StartProbeAlike(Note(s, i, now), Note(s', i, U32(now + d)), d, now);
  }

  lemma OnHitAlike(s: Station, s': Station, d: int, i: u8, now: u32)
    requires StationOk(s) && StationOk(s') && Ahead(s, s', d)
    ensures OnHitReport(s, i, now).s.Sized() && OnHitReport(s', i, U32(now + d)).s.Sized()
    ensures Alike(OnHitReport(s, i, now), OnHitReport(s', i, U32(now + d)), d)
  {
    hide U32, StartProbe, Note;
    NoteAlike(s, s', d, i, now);
    StartProbeAlike(Note(s, i, now), Note(s', i, U32(now + d)), d, now);
  }

  lemma OnBeaconAlike(s: Station, s': Station, d: int, src: Mac, i: u8, now: u32)
    requires StationOk(s) && StationOk(s') && Ahead(s, s', d)
    ensures OnBeacon(s, src, i, now).s.Sized() && OnBeacon(s', src, i, U32(now + d)).s.Sized()
    ensures Alike(OnBeacon(s, src, i, now), OnBeacon(s', src, i, U32(now + d)), d)
  {
    hide U32, StartProbe, Note, MemcmpLess;
    var n, n' := Note(s, i, now), Note(s', i, U32(now + d));
    NoteAlike(s, s', d, i, now);
    StartProbeAlike(n, n', d, now);
    YieldAlike(s, s', d, i, now);
  }

  lemma YieldAlike(s: Station, s': Station, d: int, i: u8, now: u32)
    requires StationOk(s) && StationOk(s') && Ahead(s, s', d)
    ensures s.state == Held ==>
      var y, y' := SetId(Note(s, i, now), 0), SetId(Note(s', i, U32(now + d)), 0);
      && y.Sized() && y'.Sized() && StartProbe(y, now).s.Sized() && StartProbe(y', U32(now + d)).s.Sized()
      && Alike(StartProbe(y, now), StartProbe(y', U32(now + d)), d)
  {
    hide U32, StartProbe, Note;
    NoteAlike(s, s', d, i, now);
    if s.state == Held {
      StartProbeAlike(SetId(Note(s, i, now), 0), SetId(Note(s', i, U32(now + d)), 0), d, now);
    }
  }

  /** Whatever happens, a station whose clock is ahead does and sends the same. */
  lemma ReactAlike(s: Station, s': Station, d: int, e: Event, now: u32)
    requires StationOk(s) && StationOk(s') && Ahead(s, s', d) && !e.Boot?
    ensures StationOk(React(s, e, now).s) && StationOk(React(s', e, U32(now + d)).s)
    ensures Alike(React(s, e, now), React(s', e, U32(now + d)), d)
  {
    hide U32, Tick, OnProbe, OnBeacon, OnHitReport, Alike, Reaction;
    ReactIsReaction(s, e, now);
    ReactIsReaction(s', e, U32(now + d));
    ReactionIsSound(s, e, React(s, e, now));
    ReactionIsSound(s', e, React(s', e, U32(now + d)));
    match e
    case Clock => TickAlike(s, s', d, now);
    case ProbeFrom(src, i) => OnProbeAlike(s, s', d, src, i, now);
    case BeaconFrom(src, i) => OnBeaconAlike(s, s', d, src, i, now);
    case Hit(i) => OnHitAlike(s, s', d, i, now);
  }

  /** A boot forgets all old readings, whatever the new clock shows. */
  lemma BootAlike(s: Station, s': Station, p: u8, now: u32, now': u32)
    requires s.mac == s'.mac && s.Sized() && s'.Sized()
    ensures var b, b' := Begin(s, s.mac, p, now), Begin(s', s'.mac, p, now');
      b.Sized() && b'.Sized() && Ahead(b, b', now' - now)
  {
    assert U32(U32(now + T_LISTEN) + (now' - now)) == U32(now' + T_LISTEN);
  }

  // --- whole histories ------------------------------------------------------------------------------

  datatype Timed = Timed(e: Event, t: nat)

  /** The clock's offset changes only when the station is powered up. */
  ghost predicate Offsets(ev: seq<Timed>, off: seq<int>) {
    |off| == |ev| && forall k :: 0 < k < |ev| && !ev[k].e.Boot? ==> off[k] == off[k - 1]
  }

  /** The states of a station that sees the events at these readings. */
  ghost predicate Lives(ev: seq<Timed>, off: seq<int>, ss: seq<Station>) {
    && |ss| == |ev| + 1 && |off| == |ev| && StationOk(ss[0])
    && forall k :: 0 <= k < |ev| && StationOk(ss[k]) ==> ss[k + 1] == React(ss[k], ev[k].e, U32(ev[k].t + off[k])).s
  }

  lemma {:induction false} StaysSound(ev: seq<Timed>, off: seq<int>, ss: seq<Station>, k: nat)
    requires Lives(ev, off, ss) && k < |ss|
    ensures StationOk(ss[k])
  {
    if k > 0 {
      StaysSound(ev, off, ss, k - 1);
      var now := U32(ev[k - 1].t + off[k - 1]);
      hide React, Reaction, StationOk;
      ReactIsReaction(ss[k - 1], ev[k - 1].e, now);
      ReactionIsSound(ss[k - 1], ev[k - 1].e, React(ss[k - 1], ev[k - 1].e, now));
    }
  }

  lemma ShiftedTime(t: nat, a: int, b: int)
    ensures U32(U32(t + a) + (b - a)) == U32(t + b)
  {
  }

  /**
   A station with its own clock, restarted at every boot, and one on the common clock that see
   the same events stay alike and send the same packets after every event.
   */
  lemma {:induction false} OwnClockChangesNothing(
      ev: seq<Timed>, zero: seq<int>, off: seq<int>, ss: seq<Station>, ss': seq<Station>, k: nat)
    requires Lives(ev, zero, ss) && Lives(ev, off, ss') && Offsets(ev, off) && k < |ev|
    requires ev[0].e.Boot? && ss[0].mac == ss'[0].mac
    requires forall i :: 0 <= i < |zero| ==> zero[i] == 0
    ensures StationOk(ss[k]) && StationOk(ss'[k]) && StationOk(ss[k + 1]) && StationOk(ss'[k + 1])
    ensures React(ss'[k], ev[k].e, U32(ev[k].t + off[k])).tx == React(ss[k], ev[k].e, U32(ev[k].t)).tx
    ensures Ahead(ss[k + 1], ss'[k + 1], off[k])
  {
    hide U32, Reaction, StationOk, Tick, OnProbe, OnBeacon, OnHitReport, Ahead;
    StaysSound(ev, zero, ss, k);
    StaysSound(ev, off, ss', k);
    StaysSound(ev, zero, ss, k + 1);
    StaysSound(ev, off, ss', k + 1);
    var t := ev[k].t;
    ShiftedTime(t, 0, off[k]);
    SameMacs(ev, zero, off, ss, ss', k);
    SizedStations(ss[k], ss'[k]);
    if ev[k].e.Boot? {
      BootAlike(ss[k], ss'[k], ev[k].e.preferred, U32(t), U32(t + off[k]));
      BootShift(ss[k + 1], ss'[k + 1], U32(t), U32(t + off[k]), off[k], t);
    } else {
      OwnClockChangesNothing(ev, zero, off, ss, ss', k - 1);
      ReactAlike(ss[k], ss'[k], off[k], ev[k].e, U32(t));
    }
  }

  lemma SizedStations(s: Station, s': Station)
    requires StationOk(s) && StationOk(s')
    ensures s.Sized() && s'.Sized()
  {
  }

  /** Offsets count modulo the clock's range. */
  lemma BootShift(b: Station, b': Station, now: u32, now': u32, d: int, t: nat)
    requires b.Sized() && b'.Sized() && Ahead(b, b', now' - now) && now == U32(t) && now' == U32(t + d)
    ensures Ahead(b, b', d)
  {
    SameOffset(b.listenUntil, t, d);
    SameOffset(b.lastProbeMs, t, d);
    SameOffset(b.lastBeaconMs, t, d);
    forall i | 1 <= i < 16 ensures U32(b.seenMs[i] + (now' - now)) == U32(b.seenMs[i] + d) {
      SameOffset(b.seenMs[i], t, d);
    }
    hide U32;
  }

  lemma SameOffset(x: u32, t: nat, d: int)
    ensures U32(x + (U32(t + d) - U32(t))) == U32(x + d)
  {
  }

  lemma {:induction false} SameMacs(
      ev: seq<Timed>, zero: seq<int>, off: seq<int>, ss: seq<Station>, ss': seq<Station>, k: nat)
    requires Lives(ev, zero, ss) && Lives(ev, off, ss') && ss[0].mac == ss'[0].mac && k < |ss|
    ensures ss[k].mac == ss'[k].mac
  {
    hide React, Reaction, StationOk;
    if k > 0 {
      SameMacs(ev, zero, off, ss, ss', k - 1);
      StaysSound(ev, zero, ss, k - 1);
      StaysSound(ev, off, ss', k - 1);
      KeepsMac(ss[k - 1], ev[k - 1].e, U32(ev[k - 1].t + zero[k - 1]));
      KeepsMac(ss'[k - 1], ev[k - 1].e, U32(ev[k - 1].t + off[k - 1]));
    }
  }

  lemma KeepsMac(s: Station, e: Event, now: u32)
    requires StationOk(s)
    ensures React(s, e, now).s.mac == s.mac
  {
    hide Reaction, React;
    ReactIsReaction(s, e, now);
    ReactionIsSound(s, e, React(s, e, now));
  }
}
