/**
 What must have happened before a station takes an id. One station, any sequence of events,
 true (unbounded) times of which the code sees only the low 32 bits.
 */
module IrIdTrace {
  import opened Words
  import opened IrIdStation
  import opened IrIdReaction

  datatype Timed = Timed(e: Event, t: nat)

  /** Events of one station and the states between them. */
  datatype History = History(ev: seq<Timed>, ss: seq<Station>) {
    predicate Sized() {
      |ss| == |ev| + 1
    }

    function Sent(k: nat): seq<Tx>
      requires Sized() && k < |ev| && StationOk(ss[k])
    {
      React(ss[k], ev[k].e, U32(ev[k].t)).tx
    }

    /** The station boots first; time never runs backwards; every state follows from the last. */
    ghost predicate Valid() {
      && Sized()
      && (exists mac :: ss[0] == Fresh(mac))
      && (|ev| > 0 ==> ev[0].e.Boot?)
      && (forall i, j :: 0 <= i <= j < |ev| ==> ev[i].t <= ev[j].t)
      && (forall k :: 0 <= k < |ev| ==> StationOk(ss[k]) ==> ss[k + 1] == React(ss[k], ev[k].e, U32(ev[k].t)).s)
    }
  }

  /** An event that speaks against this station taking c. */
  predicate Objects(e: Event, c: u8, mac: Mac) {
    match e
    case Boot(_) => true
    case Clock => false
    case Hit(i) => i == c
    case BeaconFrom(src, i) => i == c && src != mac
    case ProbeFrom(src, i) => i == c && MacValue(src) < MacValue(mac)
  }

  predicate IsProbe(tx: seq<Tx>, c: u8) {
    tx == [Tx(TxProbe, c, Broadcast)]
  }

  /** The probes of the current attempt on c are exactly those sent at events ks. */
  ghost predicate Attempt(h: History, n: nat, c: u8, ks: seq<nat>)
    requires h.Sized() && n <= |h.ev| && forall k :: 0 <= k < n ==> StationOk(h.ss[k])
  {
    && 1 <= |ks| <= N_PROBE
    && (forall i :: 0 <= i < |ks| ==> ks[i] < n && IsProbe(h.Sent(ks[i]), c))
    && (forall i :: 0 < i < |ks| ==> ks[i - 1] < ks[i] && h.ev[ks[i]].t - h.ev[ks[i - 1]].t >= T_PROBE)
    && (forall k :: ks[0] <= k < n && h.Sent(k) != [] ==> k in ks)
    && (forall k :: ks[0] < k < n ==> !Objects(h.ev[k].e, c, h.ss[k].mac))
  }

  /** How a station can be probing c after a step. */
  predicate ProbeStep(s: Station, e: Event, now: u32, c: u8, r: Step) {
    || (IsProbe(r.tx, c) && r.s.probesSent == 1 && r.s.lastProbeMs == now)
    || (IsProbe(r.tx, c) && e == Clock && s.Probes(c) && r.s.probesSent == s.probesSent + 1 <= N_PROBE &&
        r.s.lastProbeMs == now && Elapsed(now, s.lastProbeMs, T_PROBE))
    || (r.tx == [] && s.Probes(c) && r.s.probesSent == s.probesSent && r.s.lastProbeMs == s.lastProbeMs &&
        !Objects(e, c, s.mac))
  }

  lemma ProbingSteps(s: Station, e: Event, now: u32, c: u8)
    requires StationOk(s) && React(s, e, now).s.Probes(c)
    ensures ProbeStep(s, e, now, c, React(s, e, now))
  {
    match e
    case Boot(p) =>
    case Clock => if s.state == Listen { StartProbeRestarts(s, now); }
    case Hit(i) => if s.state == Probe { StartProbeRestarts(Note(s, i, now), now); }
    case ProbeFrom(src, i) => ProbingOnProbe(s, src, i, now, c);
    case BeaconFrom(src, i) => ProbingOnBeacon(s, src, i, now, c);
  }

  lemma ProbingOnProbe(s: Station, src: Mac, i: u8, now: u32, c: u8)
    requires StationOk(s) && OnProbe(s, src, i, now).s.Probes(c)
    ensures ProbeStep(s, ProbeFrom(src, i), now, c, OnProbe(s, src, i, now))
  {
    hide MemcmpLess, MacValue, StartProbe;
    MemcmpIsNumericOrder(src, s.mac);
    if s.state == Probe { StartProbeRestarts(Note(s, i, now), now); }
  }

  lemma ProbingOnBeacon(s: Station, src: Mac, i: u8, now: u32, c: u8)
    requires StationOk(s) && OnBeacon(s, src, i, now).s.Probes(c)
    ensures ProbeStep(s, BeaconFrom(src, i), now, c, OnBeacon(s, src, i, now))
  {
    hide MemcmpLess, MacValue, StartProbe;
    if s.state == Probe {
      StartProbeRestarts(Note(s, i, now), now);
    } else if s.Holds(i) {
      StartProbeRestarts(SetId(Note(s, i, now), 0), now);
    }
  }

  /** Which event makes a station take c, and from what state. */
  lemma HoldingSteps(s: Station, e: Event, now: u32, c: u8)
    requires StationOk(s) && React(s, e, now).s.Holds(c) && !s.Holds(c)
    ensures e == Clock && s.Probes(c) && s.probesSent == N_PROBE && Elapsed(now, s.lastProbeMs, T_PROBE)
  {
    ReactIsReaction(s, e, now);
  }

  lemma {:induction false} StationsAreOk(h: History, n: nat)
    requires h.Valid() && n <= |h.ev|
    ensures forall k :: 0 <= k <= n ==> StationOk(h.ss[k])
  {
    if n > 0 {
      StationsAreOk(h, n - 1);
      ReactIsReaction(h.ss[n - 1], h.ev[n - 1].e, U32(h.ev[n - 1].t));
    }
  }

  lemma OneStep(h: History, p: nat)
    requires h.Valid() && p < |h.ev| && StationOk(h.ss[p])
    ensures h.ss[p + 1] == React(h.ss[p], h.ev[p].e, U32(h.ev[p].t)).s
    ensures h.Sent(p) == React(h.ss[p], h.ev[p].e, U32(h.ev[p].t)).tx
  {
    hide React;
  }

  lemma AttemptRests(h: History, p: nat, c: u8, ks: seq<nat>)
    requires h.Sized() && p < |h.ev| && forall k :: 0 <= k <= p ==> StationOk(h.ss[k])
    requires Attempt(h, p, c, ks) && h.Sent(p) == [] && !Objects(h.ev[p].e, c, h.ss[p].mac)
    ensures Attempt(h, p + 1, c, ks)
  {
    hide React, Objects;
  }

  lemma AttemptGrows(h: History, p: nat, c: u8, ks: seq<nat>)
    requires h.Sized() && p < |h.ev| && forall k :: 0 <= k <= p ==> StationOk(h.ss[k])
    requires Attempt(h, p, c, ks) && |ks| < N_PROBE && IsProbe(h.Sent(p), c) && h.ev[p].e == Clock
    requires h.ev[p].t - h.ev[ks[|ks| - 1]].t >= T_PROBE
    ensures Attempt(h, p + 1, c, ks + [p])
  {
    hide React;
  }

  /** While a station probes c, its whole attempt so far is on record. */
  /** One event while c is probed: a new attempt, one more probe in time, or silence. */
  lemma AttemptStep(h: History, n: nat, c: u8)
    requires h.Valid() && 0 < n <= |h.ev| && h.ss[n].Probes(c) && StationOk(h.ss[n - 1])
    ensures var p := n - 1; var s := h.ss[p]; var now := U32(h.ev[p].t);
      || (IsProbe(h.Sent(p), c) && h.ss[n].probesSent == 1 && h.ss[n].lastProbeMs == now)
      || (IsProbe(h.Sent(p), c) && h.ev[p].e == Clock && s.Probes(c) && h.ss[n].probesSent == s.probesSent + 1 <= N_PROBE &&
          h.ss[n].lastProbeMs == now && Elapsed(now, s.lastProbeMs, T_PROBE))
      || (h.Sent(p) == [] && s.Probes(c) && h.ss[n].probesSent == s.probesSent && h.ss[n].lastProbeMs == s.lastProbeMs &&
          !Objects(h.ev[p].e, c, s.mac))
  {
    hide React, Objects, StationOk, Elapsed;
    OneStep(h, n - 1);
    ProbingSteps(h.ss[n - 1], h.ev[n - 1].e, U32(h.ev[n - 1].t), c);
  }

  lemma AttemptBegins(h: History, p: nat, c: u8)
    requires h.Sized() && p < |h.ev| && (forall k :: 0 <= k <= p ==> StationOk(h.ss[k])) && IsProbe(h.Sent(p), c)
    ensures Attempt(h, p + 1, c, [p])
  {
    hide React, Objects, StationOk;
  }

  lemma NotIdleAtStart(h: History, n: nat, c: u8)
    requires h.Valid() && n <= |h.ev| && h.ss[n].Probes(c)
    ensures n > 0
  {
  }

  /** While a station probes c, its whole attempt so far is on record. */
  lemma {:induction false} AttemptSoFar(h: History, n: nat, c: u8) returns (ks: seq<nat>)
    requires h.Valid() && n <= |h.ev| && h.ss[n].Probes(c)
    requires forall k :: 0 <= k <= n ==> StationOk(h.ss[k])
    ensures Attempt(h, n, c, ks)
    ensures |ks| == h.ss[n].probesSent && h.ss[n].lastProbeMs == U32(h.ev[ks[|ks| - 1]].t)
  {
    hide React, Objects, StationOk, Elapsed, U32;
    NotIdleAtStart(h, n, c);
    AttemptStep(h, n, c);
    var p := n - 1;
    if IsProbe(h.Sent(p), c) && h.ss[n].probesSent == 1 && h.ss[n].lastProbeMs == U32(h.ev[p].t) {
      ks := [p];
      AttemptBegins(h, p, c);
    } else {
      ks := AttemptSoFar(h, p, c);
      if h.Sent(p) == [] {
        AttemptRests(h, p, c, ks);
      } else {
        ElapsedIsDistance(h.ev[p].t, h.ev[ks[|ks| - 1]].t, T_PROBE);
        AttemptGrows(h, p, c, ks);
        ks := ks + [p];
      }
    }
  }

  /**
   Every entry to HELD on c: exactly three probes for c in the current attempt, at least
   150 ms apart, a final wait of 150 ms, and no objection since the first of them.
   */
  lemma HeldOnlyAfterThreeProbes(h: History, n: nat, c: u8) returns (ks: seq<nat>)
    requires h.Valid() && n < |h.ev| && !h.ss[n].Holds(c) && h.ss[n + 1].Holds(c)
    ensures forall k :: 0 <= k <= n ==> StationOk(h.ss[k])
    ensures |ks| == 3 && Attempt(h, n, c, ks)
    ensures h.ev[n].e == Clock && h.ev[n].t - h.ev[ks[2]].t >= T_PROBE
    ensures forall k :: ks[0] < k <= n ==> !Objects(h.ev[k].e, c, h.ss[k].mac)
  {
    StationsAreOk(h, n);
    HoldingSteps(h.ss[n], h.ev[n].e, U32(h.ev[n].t), c);
    ks := AttemptSoFar(h, n, c);
    ElapsedIsDistance(h.ev[n].t, h.ev[ks[2]].t, T_PROBE);
  }

  // --- the listening phase -----------------------------------------------------------

  /** b is the last boot before event n. */
  ghost predicate LastBoot(h: History, b: nat, n: nat) {
    b < n <= |h.ev| && h.ev[b].e.Boot? && forall k :: b < k < n ==> !h.ev[k].e.Boot?
  }

  lemma ListeningStep(s: Station, e: Event, now: u32)
    requires StationOk(s) && s.state == Listen && !e.Boot?
    ensures var r := React(s, e, now);
            (r.s.state == Listen && r.s.listenUntil == s.listenUntil && r.tx == []) ||
            (e == Clock && Reached(now, s.listenUntil))
  {
    ReactIsReaction(s, e, now);
  }

  lemma BootListens(h: History, b: nat)
    requires h.Valid() && b < |h.ev| && h.ev[b].e.Boot? && StationOk(h.ss[b])
    ensures h.ss[b + 1].state == Listen && h.ss[b + 1].listenUntil == U32(h.ev[b].t + T_LISTEN)
  {
    OneStep(h, b);
    assert U32(U32(h.ev[b].t) + T_LISTEN) == U32(h.ev[b].t + T_LISTEN);
  }

  /** Until 3000 ms have really passed since the last boot, a station only listens. */
  lemma {:induction false} ListensFirst(h: History, b: nat, n: nat)
    requires h.Valid() && LastBoot(h, b, n) && n <= |h.ev|
    requires forall k :: 0 <= k <= n ==> StationOk(h.ss[k])
    ensures (h.ss[n].state == Listen && h.ss[n].listenUntil == U32(h.ev[b].t + T_LISTEN)) ||
            h.ev[n - 1].t - h.ev[b].t >= T_LISTEN
  {
    hide React, StationOk;
    if n > b + 1 {
      OneStep(h, n - 1);
      ListensFirst(h, b, n - 1);
      if h.ss[n - 1].state == Listen && h.ss[n - 1].listenUntil == U32(h.ev[b].t + T_LISTEN) {
        ListeningStep(h.ss[n - 1], h.ev[n - 1].e, U32(h.ev[n - 1].t));
        if Reached(U32(h.ev[n - 1].t), h.ss[n - 1].listenUntil) {
          ReachedIsNotEarly(h.ev[n - 1].t, h.ev[b].t, T_LISTEN);
        }
      }
    } else {
      BootListens(h, b);
    }
  }

  /** No packet leaves a station within 3000 ms of its boot, across clock wrap. */
  lemma SilentAfterBoot(h: History, b: nat, n: nat)
    requires h.Valid() && LastBoot(h, b, n) && n < |h.ev| && !h.ev[n].e.Boot?
    ensures StationOk(h.ss[n])
    ensures h.Sent(n) != [] ==> h.ev[n].t - h.ev[b].t >= T_LISTEN
  {
    StationsAreOk(h, n);
    ListensFirst(h, b, n);
    if h.ev[n].t - h.ev[b].t < T_LISTEN {
      ListeningStep(h.ss[n], h.ev[n].e, U32(h.ev[n].t));
      if Reached(U32(h.ev[n].t), h.ss[n].listenUntil) {
        ReachedIsNotEarly(h.ev[n].t, h.ev[b].t, T_LISTEN);
      }
    }
  }

  // --- evidence lifetime ---------------------------------------------------------------

  /**
   Evidence noted at true time t0 counts at t exactly while its age, modulo 2^32, is below
   8000 ms; that is "younger than 8000 ms" except in the windows one or more wraps later.
   */
  lemma EvidenceLifetime(s: Station, c: u8, t0: nat, t: nat)
    requires StationOk(s) && ValidId(c) && t0 <= t
    ensures var n := Note(s, c, U32(t0));
      && (n.IsOccupied(c, U32(t)) <==> (t - t0) % 0x1_0000_0000 < 8000)
      && ((n.IsOccupied(c, U32(t)) <==> t - t0 < 8000) <==>
            !(t - t0 >= 0x1_0000_0000 && (t - t0) % 0x1_0000_0000 < 8000))
  {
    ElapsedIsDistance(t, t0, T_EXPIRE);
  }

  /** Such a window exists: evidence of age 2^32 ms is taken for fresh. */
  lemma StaleEvidenceRevives(s: Station, c: u8, t0: nat)
    requires StationOk(s) && ValidId(c)
    ensures Note(s, c, U32(t0)).IsOccupied(c, U32(t0 + TWO32))
  {
    ElapsedIsDistance(t0 + TWO32, t0, T_EXPIRE);
  }
}
