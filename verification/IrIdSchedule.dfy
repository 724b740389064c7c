/**
 When a ticking station acts, in true time: what each state waits for and for how long, across
 clock wrap. One station, any sequence of events.
 */
module IrIdSchedule {
  import opened Words
  import opened IrIdStation
  import opened IrIdReaction
  import opened IrIdTrace
  import opened IrIdEvidence

  /** Nothing is sent by the events between m and n. */
  predicate Quiet(h: History, m: nat, n: nat)
    requires h.Sized() && m < n <= |h.ev| && forall k :: 0 <= k < n ==> StationOk(h.ss[k])
  {
    forall k :: m < k < n ==> h.Sent(k) == []
  }

  // --- HELD ------------------------------------------------------------------------------------

  /** A holder's beacon timer is set by every beacon and by nothing else. */
  predicate HoldStep(s: Station, c: u8, now: u32, r: Step) {
    || (Announce(c) in r.tx && r.s.lastBeaconMs == now)
    || (s.Holds(c) && r.tx == [] && r.s.lastBeaconMs == s.lastBeaconMs)
  }

  lemma HoldingOn(s: Station, e: Event, now: u32, c: u8)
    requires StationOk(s) && React(s, e, now).s.Holds(c)
    ensures HoldStep(s, c, now, React(s, e, now))
  {
    hide StartProbe, MemcmpLess, MacValue;
    match e
    case Boot(p) =>
    case Clock => if s.state == Listen { StartProbeRestarts(s, now); } else { LastOfTwo(c); }
    case Hit(i) => if s.state == Probe { StartProbeRestarts(Note(s, i, now), now); }
    case ProbeFrom(src, i) => if s.state == Probe { StartProbeRestarts(Note(s, i, now), now); } else { LastOfPair(src, c); }
    case BeaconFrom(src, i) => HoldingOnBeacon(s, src, i, now, c);
  }

  lemma LastOfTwo(c: u8)
    ensures Announce(c) in [Announce(c), Announce(c)] && Announce(c) in [Announce(c)]
  {
  }

  lemma LastOfPair(src: Mac, c: u8)
    ensures Announce(c) in [Tx(TxBeacon, c, Unicast(src)), Announce(c)]
  {
    assert [Tx(TxBeacon, c, Unicast(src)), Announce(c)][1] == Announce(c);
  }

  lemma HoldingOnBeacon(s: Station, src: Mac, i: u8, now: u32, c: u8)
    requires StationOk(s) && OnBeacon(s, src, i, now).s.Holds(c)
    ensures HoldStep(s, c, now, OnBeacon(s, src, i, now))
  {
    hide StartProbe, MemcmpLess, MacValue;
    if s.state == Probe {
      StartProbeRestarts(Note(s, i, now), now);
    } else if s.Holds(i) {
      StartProbeRestarts(SetId(Note(s, i, now), 0), now);
      LastOfTwo(c);
    }
  }

  /** The last beacon of a station that holds c. */
  lemma {:induction false} LastBeacon(h: History, n: nat, c: u8) returns (m: nat)
    requires h.Valid() && n <= |h.ev| && h.ss[n].Holds(c)
    ensures m < n && forall k :: 0 <= k <= n ==> StationOk(h.ss[k])
    ensures Announce(c) in h.Sent(m) && Quiet(h, m, n) && h.ss[n].lastBeaconMs == U32(h.ev[m].t)
  {
    hide React, StationOk, U32;
    StationsAreOk(h, n);
    NotHeldAtStart(h, n, c);
    OneStep(h, n - 1);
    HoldingOn(h.ss[n - 1], h.ev[n - 1].e, U32(h.ev[n - 1].t), c);
    if Announce(c) in h.Sent(n - 1) && h.ss[n].lastBeaconMs == U32(h.ev[n - 1].t) {
      m := n - 1;
    } else {
      m := LastBeacon(h, n - 1, c);
    }
  }

  lemma NotHeldAtStart(h: History, n: nat, c: u8)
    requires h.Valid() && n <= |h.ev| && h.ss[n].Holds(c)
    ensures n > 0
  {
  }

  lemma HeldTicks(s: Station, now: u32, c: u8)
    requires StationOk(s) && s.Holds(c)
    ensures var r := React(s, Clock, now);
      && r.s.Holds(c)
      && (if Elapsed(now, s.lastBeaconMs, 2000) then r.tx == [Announce(c)] else r.tx == [])
  {
  }

  /** A tick of a HELD station beacons its id exactly if its last beacon is 2000 ms old. */
  lemma BeaconTimer(h: History, n: nat, c: u8) returns (m: nat)
    requires h.Valid() && n < |h.ev| && h.ev[n].e == Clock && h.ss[n].Holds(c)
    ensures m < n && forall k :: 0 <= k <= n ==> StationOk(h.ss[k])
    ensures Announce(c) in h.Sent(m) && Quiet(h, m, n)
    ensures h.Sent(n) == if (h.ev[n].t - h.ev[m].t) % TWO32 >= 2000 then [Announce(c)] else []
  {
    hide React, StationOk, U32, Elapsed;
    m := LastBeacon(h, n, c);
    OneStep(h, n);
    HeldTicks(h.ss[n], U32(h.ev[n].t), c);
    ElapsedIsDistance(h.ev[n].t, h.ev[m].t, 2000);
  }

  // --- PROBE ------------------------------------------------------------------------------------

  lemma ProbeTicks(s: Station, now: u32, c: u8)
    requires StationOk(s) && s.Probes(c)
    ensures var r := React(s, Clock, now);
      if !Elapsed(now, s.lastProbeMs, 150) then r == Step(s, [])
      else if s.probesSent < 3 then r.s.Probes(c) && IsProbe(r.tx, c)
      else r.s.Holds(c) && r.tx == [Announce(c), Announce(c)]
  {
  }

  /**
   A tick of a probing station does nothing for 150 ms after its last probe; then it probes again
   or, after the third probe, takes the id and announces it twice.
   */
  lemma ProbeTimer(h: History, n: nat, c: u8) returns (ks: seq<nat>)
    requires h.Valid() && n < |h.ev| && h.ev[n].e == Clock && h.ss[n].Probes(c)
    ensures forall k :: 0 <= k <= n ==> StationOk(h.ss[k])
    ensures Attempt(h, n, c, ks) && Quiet(h, ks[|ks| - 1], n)
    ensures var due := (h.ev[n].t - h.ev[ks[|ks| - 1]].t) % TWO32 >= 150;
      if !due then h.ss[n + 1] == h.ss[n] && h.Sent(n) == []
      else if |ks| < 3 then h.ss[n + 1].Probes(c) && IsProbe(h.Sent(n), c)
      else h.ss[n + 1].Holds(c) && h.Sent(n) == [Announce(c), Announce(c)]
  {
    hide React, StationOk, U32, Elapsed;
    StationsAreOk(h, n);
    ks := AttemptSoFar(h, n, c);
    OneStep(h, n);
    ProbeTicks(h.ss[n], U32(h.ev[n].t), c);
    QuietSinceProbe(h, n, c, ks);
    ElapsedIsDistance(h.ev[n].t, h.ev[ks[|ks| - 1]].t, 150);
  }

  lemma {:induction false} Increasing(ks: seq<nat>, i: nat)
    requires i < |ks| && forall j :: 0 < j < |ks| ==> ks[j - 1] < ks[j]
    ensures ks[i] <= ks[|ks| - 1] && ks[0] <= ks[i]
    decreases |ks| - i
  {
    if i + 1 < |ks| { Increasing(ks, i + 1); }
    if i > 0 { FirstIsLeast(ks, i); }
  }

  lemma {:induction false} FirstIsLeast(ks: seq<nat>, i: nat)
    requires i < |ks| && forall j :: 0 < j < |ks| ==> ks[j - 1] < ks[j]
    ensures ks[0] <= ks[i]
    decreases i
  {
    if i > 0 { FirstIsLeast(ks, i - 1); }
  }

  lemma QuietSinceProbe(h: History, n: nat, c: u8, ks: seq<nat>)
    requires h.Sized() && n <= |h.ev| && (forall k :: 0 <= k < n ==> StationOk(h.ss[k])) && Attempt(h, n, c, ks)
    ensures ks[|ks| - 1] < n && Quiet(h, ks[|ks| - 1], n)
  {
    hide React, StationOk, Objects;
    Increasing(ks, 0);
    forall k | ks[|ks| - 1] < k < n ensures h.Sent(k) == [] {
      if h.Sent(k) != [] {
        var i :| 0 <= i < |ks| && ks[i] == k;
        Increasing(ks, i);
        assert false;
      }
    }
  }

  // --- LISTEN ------------------------------------------------------------------------------------

  /** A listening time begins with a boot, or when every id is occupied. */
  predicate ListenStep(s: Station, e: Event, now: u32, r: Step)
    requires r.s.Sized()
  {
    || (s.state == Listen && r.s.listenUntil == s.listenUntil && r.tx == [] && !e.Boot?)
    || (e.Boot? && r.s.listenUntil == U32(now + 3000) && r.tx == [])
    || (!e.Boot? && r.s.listenUntil == U32(now + 30000) && r.tx == [] &&
        forall c: u8 :: ValidId(c) ==> r.s.IsOccupied(c, now))
  }

  lemma StartListens(s: Station, now: u32)
    requires s.Sized() && s.preferred <= 15 && s.id == 0
    ensures var r := StartProbe(s, now);
      r.s.Sized() && (r.s.state == Listen ==>
        r.tx == [] && r.s.listenUntil == U32(now + 30000) && forall c: u8 :: ValidId(c) ==> r.s.IsOccupied(c, now))
  {
    StartProbeRestarts(s, now);
  }

  lemma ListeningOn(s: Station, e: Event, now: u32)
    requires StationOk(s) && React(s, e, now).s.state == Listen
    ensures React(s, e, now).s.Sized() && ListenStep(s, e, now, React(s, e, now))
  {
    hide StartProbe, MemcmpLess, MacValue, Station.IsOccupied, U32;
    match e
    case Boot(p) =>
    case Clock => if s.state == Listen { StartListens(s, now); }
    case Hit(i) => if s.state == Probe { StartListens(Note(s, i, now), now); }
    case ProbeFrom(src, i) => if s.state == Probe { StartListens(Note(s, i, now), now); }
    case BeaconFrom(src, i) =>
      if s.state == Probe {
        StartListens(Note(s, i, now), now);
      } else if s.Holds(i) {
        StartListens(SetId(Note(s, i, now), 0), now);
      }
  }

  /** How long the listening time lasts that began with event m. */
  function Wait(h: History, m: nat): nat
    requires m < |h.ev|
  {
    if h.ev[m].e.Boot? then 3000 else 30000
  }

  lemma AddToTicks(t: nat, wait: nat)
    ensures U32(U32(t) + wait) == U32(t + wait)
  {
  }

  /** The event that began the listening time in which event n finds the station. */
  lemma {:induction false} ListensSince(h: History, n: nat) returns (m: nat)
    requires h.Valid() && 0 < n <= |h.ev| && h.ss[n].state == Listen
    ensures m < n && forall k :: 0 <= k <= n ==> StationOk(h.ss[k])
    ensures h.ss[n].listenUntil == U32(h.ev[m].t + Wait(h, m))
    ensures Quiet(h, m, n) && forall k :: m < k < n ==> h.ss[k].state == Listen
    decreases n
  {
    hide React, StationOk, U32;
    StationsAreOk(h, n);
    var p := n - 1;
    OneStep(h, p);
    ListeningOn(h.ss[p], h.ev[p].e, U32(h.ev[p].t));
    AddToTicks(h.ev[p].t, 3000);
    AddToTicks(h.ev[p].t, 30000);
    if h.ss[n].listenUntil == U32(h.ev[p].t + Wait(h, p)) {
      m := p;
    } else {
      m := ListensSince(h, p);
    }
  }

  lemma ListenTicks(s: Station, now: u32)
    requires StationOk(s) && s.state == Listen
    ensures var r := React(s, Clock, now);
      && r.s.Sized()
      && if !Reached(now, s.listenUntil) then r == Step(s, [])
         else (r.s.state == Probe && IsProbe(r.tx, r.s.candidate) && !r.s.IsOccupied(r.s.candidate, now)) ||
              (r.s.state == Listen && r.s.listenUntil == U32(now + 30000) && r.tx == [] &&
               forall c: u8 :: ValidId(c) ==> r.s.IsOccupied(c, now))
  {
    hide StartProbe, Station.IsOccupied, U32;
    StartProbeRestarts(s, now);
    StartListens(s, now);
  }

  /**
   A tick of a listening station does nothing until the listening time is over, 3000 ms after the
   boot or 30000 ms after the station found every id occupied; then it starts an attempt or, with
   every id occupied, waits for 30000 ms more. The clock may wrap, but the tick comes within 2^31 ms.
   */
  lemma ListenTimer(h: History, n: nat) returns (m: nat)
    requires h.Valid() && 0 < n < |h.ev| && h.ev[n].e == Clock && h.ss[n].state == Listen
    ensures m < n && forall k :: 0 <= k <= n ==> StationOk(h.ss[k])
    ensures Quiet(h, m, n) && (forall k :: m < k < n ==> h.ss[k].state == Listen) && h.ss[n + 1].Sized()
    ensures h.ev[n].t < h.ev[m].t + Wait(h, m) ==> h.ss[n + 1] == h.ss[n] && h.Sent(n) == []
    ensures h.ev[m].t + Wait(h, m) <= h.ev[n].t < h.ev[m].t + Wait(h, m) + TWO31 ==>
      var s, now := h.ss[n + 1], U32(h.ev[n].t);
      || (s.state == Probe && IsProbe(h.Sent(n), s.candidate) && !s.IsOccupied(s.candidate, now))
      || (s.state == Listen && h.Sent(n) == [] && s.listenUntil == U32(now + 30000) &&
          forall c: u8 :: ValidId(c) ==> s.IsOccupied(c, now))
  {
    hide React, StationOk, U32, Reached, ListenStep;
    m := ListensSince(h, n);
    OneStep(h, n);
    ListenTicks(h.ss[n], U32(h.ev[n].t));
    TimerTest(h.ev[n].t, h.ev[m].t, Wait(h, m));
  }

  /** The wrapping test on a deadline set at time t0. */
  lemma TimerTest(t: nat, t0: nat, wait: nat)
    requires t0 <= t && wait < TWO31
    ensures t < t0 + wait ==> !Reached(U32(t), U32(t0 + wait))
    ensures t0 + wait <= t < t0 + wait + TWO31 ==> Reached(U32(t), U32(t0 + wait))
  {
    assert U32(U32(t) - U32(t0 + wait)) == (t - t0 - wait) % TWO32;
  }
}
