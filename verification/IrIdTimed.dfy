/**
 The timed network: every packet arrives, less than T_PROBE after it was sent, in any order,
 and a tick that is due during a probe attempt comes at most 850 ms late. Under these two
 assumptions ids are unique and stable in every run, with any number of stations, boots and
 reboots at any time, and a clock that wraps.
 */
module IrIdTimed {
  import opened Words
  import opened IrIdStation
  import opened IrIdReaction
  import IrIdTrace

  /** A packet in the air and when it was sent. */
  datatype Flight = Flight(m: Msg, at: nat)

  /** `since` and `last` are the true times of the first and the latest probe of each station's attempt. */
  datatype World = World(st: seq<Station>, since: seq<nat>, last: seq<nat>, air: seq<Flight>, now: nat)

  datatype Move =
    | Join(mac: Mac, preferred: u8, t: nat)
    | Act(j: nat, e: Event, t: nat)
    | Deliver(i: nat, t: nat)

  /** How late a due tick may be: three such waits are shorter than the listening phase. */
  const T_LATE: nat := 850

  /** At time t no packet is overdue and no probing station's tick is. */
  ghost predicate OnTime(w: World, t: nat) {
    && w.now <= t
    && (forall f :: f in w.air ==> t < f.at + T_PROBE)
    && (forall i :: 0 <= i < |w.st| == |w.last| && w.st[i].state == Probe ==> t < w.last[i] + T_PROBE + T_LATE)
  }

  ghost predicate Enabled(w: World, mv: Move) {
    && OnTime(w, mv.t)
    && match mv
       case Join(mac, p, t) => forall i :: 0 <= i < |w.st| ==> w.st[i].mac != mac
       case Act(j, e, t) => j < |w.st| && (e.Boot? || e.Clock? || e.Hit?)
       case Deliver(i, t) => i < |w.air|
  }

  function Sent(ms: seq<Msg>, t: nat): seq<Flight> {
    seq(|ms|, k requires 0 <= k < |ms| => Flight(ms[k], t))
  }

  predicate NewAttempt(r: Step) {
    r.s.state == Probe && r.s.probesSent == 1 && r.tx != []
  }

  /** Station x has reacted at time t with r; `rest` stays in the air. */
  function Absorb(w: World, x: nat, r: Step, rest: seq<Flight>, t: nat): World
    requires x < |w.st| == |w.since| == |w.last|
  {
    var st' := w.st[x := r.s];
    World(st',
          if NewAttempt(r) then w.since[x := t] else w.since,
          if r.s.state == Probe && r.tx != [] then w.last[x := t] else w.last,
          rest + Sent(Fanout(st', x, r.tx), t), t)
  }

  ghost function Next(w: World, mv: Move): World
    requires WellFormed(w) && Enabled(w, mv)
  {
    match mv
    case Join(mac, p, t) =>
      World(w.st + [Begin(Fresh(mac), mac, p, U32(t))], w.since + [0], w.last + [0], w.air, t)
    case Act(j, e, t) => Absorb(w, j, React(w.st[j], e, U32(t)), w.air, t)
    case Deliver(i, t) =>
      var f := w.air[i];
      assert f in w.air;
      Absorb(w, f.m.to, React(w.st[f.m.to], EventOf(w.st, f.m), U32(t)), w.air[..i] + w.air[i + 1..], t)
  }

  // --- what one reaction does to evidence, listening and probing -------------------------------

  predicate FreshNote(s: Station, c: u8, now: u32)
    requires s.Sized() && c <= 15
  {
    s.seen[c] && s.seenMs[c] == now
  }

  /** Evidence stays, newer or not, until a boot or until the station itself takes the id. */
  predicate KeepsEvidence(s: Station, e: Event, now: u32, r: Step)
    requires s.Sized() && r.s.Sized()
  {
    forall c: u8 :: ValidId(c) && !e.Boot? && !r.s.Holds(c) ==>
      && (s.seen[c] ==> r.s.seen[c] && (r.s.seenMs[c] == s.seenMs[c] || r.s.seenMs[c] == now))
      && (s.Holds(c) ==> FreshNote(r.s, c, now))
      && (e.ProbeFrom? && e.id == c && e.src != s.mac ==> FreshNote(r.s, c, now))
      && (e.BeaconFrom? && e.id == c && e.src != s.mac ==> FreshNote(r.s, c, now))
      && (e == Hit(c) ==> FreshNote(r.s, c, now))
  }

  predicate KeepsListening(s: Station, e: Event, now: u32, r: Step) {
    && (e.Boot? ==> r.s.state == Listen && r.s.listenUntil == U32(now + T_LISTEN))
    && (!e.Boot? && s.state == Listen ==>
          (r.s.state == Listen && r.s.listenUntil == s.listenUntil) || (e == Clock && Reached(now, s.listenUntil)))
  }

  /** A station probes a free id from now on, or goes on with its attempt, once or in silence. */
  predicate ProbesOn(s: Station, e: Event, now: u32, r: Step)
    requires r.s.Sized()
  {
    forall c: u8 :: r.s.Probes(c) ==>
      || (NewAttempt(r) && r.tx == [Tx(TxProbe, c, Broadcast)] && r.s.lastProbeMs == now && !r.s.IsOccupied(c, now))
      || (!NewAttempt(r) && s.Probes(c) && e == Clock && r.tx == [Tx(TxProbe, c, Broadcast)] && r.s.lastProbeMs == now &&
          r.s.probesSent == s.probesSent + 1 && Elapsed(now, s.lastProbeMs, T_PROBE))
      || (s.Probes(c) && r.tx == [] && r.s.probesSent == s.probesSent && r.s.lastProbeMs == s.lastProbeMs &&
          !IrIdTrace.Objects(e, c, s.mac))
  }

  predicate Steps(s: Station, e: Event, now: u32, r: Step) {
    && Reaction(s, e, r)
    && KeepsEvidence(s, e, now, r) && KeepsListening(s, e, now, r) && ProbesOn(s, e, now, r)
    && (forall c: u8 :: r.s.Holds(c) && !s.Holds(c) ==> s.probesSent == N_PROBE && Elapsed(now, s.lastProbeMs, T_PROBE))
  }

  lemma ReactSteps(s: Station, e: Event, now: u32)
    requires StationOk(s)
    ensures Steps(s, e, now, React(s, e, now))
  {
    hide Reaction;
    ReactIsReaction(s, e, now);
    assert StationOk(React(s, e, now).s) by { ReactIsSound(s, e, now); }
    TakesLate(s, e, now);
    match e
    case Boot(p) =>
    case Clock => ClockSteps(s, now);
    case ProbeFrom(src, i) => ProbeSteps(s, src, i, now);
    case BeaconFrom(src, i) => BeaconSteps(s, src, i, now);
    case Hit(i) => HitSteps(s, i, now);
  }

  /** An id is taken only when the third probe has been out for T_PROBE. */
  lemma TakesLate(s: Station, e: Event, now: u32)
    requires StationOk(s)
    ensures forall c: u8 :: React(s, e, now).s.Holds(c) && !s.Holds(c) ==>
              s.probesSent == N_PROBE && Elapsed(now, s.lastProbeMs, T_PROBE)
  {
    hide React, Elapsed;
    forall c: u8 | React(s, e, now).s.Holds(c) && !s.Holds(c)
      ensures s.probesSent == N_PROBE && Elapsed(now, s.lastProbeMs, T_PROBE)
    {
      IrIdTrace.HoldingSteps(s, e, now, c);
    }
  }

  /** The parts of Steps that do not follow from Reaction. */
  predicate Details(s: Station, e: Event, now: u32, r: Step)
    requires s.Sized() && r.s.Sized()
  {
    KeepsEvidence(s, e, now, r) && KeepsListening(s, e, now, r) && ProbesOn(s, e, now, r)
  }

  lemma ClockSteps(s: Station, now: u32)
    requires StationOk(s)
    ensures Details(s, Clock, now, Tick(s, now))
  {
    hide StartProbe;
    if s.state == Listen { StartProbeRestarts(s, now); }
  }

  lemma HitSteps(s: Station, i: u8, now: u32)
    requires StationOk(s)
    ensures Details(s, Hit(i), now, OnHitReport(s, i, now))
  {
    hide StartProbe;
    if s.state == Probe { StartProbeRestarts(Note(s, i, now), now); }
  }

  lemma ProbeSteps(s: Station, src: Mac, i: u8, now: u32)
    requires StationOk(s)
    ensures Details(s, ProbeFrom(src, i), now, OnProbe(s, src, i, now))
  {
    hide OnProbe, StationOk, KeepsEvidence, KeepsListening, ProbesOn;
    ProbeKeepsEvidence(s, src, i, now);
    ProbeProbesOn(s, src, i, now);
  }

  lemma ProbeKeepsEvidence(s: Station, src: Mac, i: u8, now: u32)
    requires StationOk(s)
    ensures s.Sized() && OnProbe(s, src, i, now).s.Sized()
    ensures KeepsEvidence(s, ProbeFrom(src, i), now, OnProbe(s, src, i, now))
    ensures KeepsListening(s, ProbeFrom(src, i), now, OnProbe(s, src, i, now))
  {
    hide PickCandidate, MemcmpLess, U8, U32;
  }

  lemma ProbeProbesOn(s: Station, src: Mac, i: u8, now: u32)
    requires StationOk(s) && OnProbe(s, src, i, now).s.Sized()
    ensures ProbesOn(s, ProbeFrom(src, i), now, OnProbe(s, src, i, now))
  {
    hide StartProbe, MemcmpLess, MacValue, Station.IsOccupied;
    MemcmpIsNumericOrder(src, s.mac);
    if s.state == Probe { StartProbeRestarts(Note(s, i, now), now); }
  }

  lemma BeaconSteps(s: Station, src: Mac, i: u8, now: u32)
    requires StationOk(s)
    ensures Details(s, BeaconFrom(src, i), now, OnBeacon(s, src, i, now))
  {
    hide OnBeacon, StationOk, KeepsEvidence, KeepsListening, ProbesOn;
    BeaconKeepsEvidence(s, src, i, now);
    BeaconProbesOn(s, src, i, now);
  }

  lemma BeaconKeepsEvidence(s: Station, src: Mac, i: u8, now: u32)
    requires StationOk(s)
    ensures s.Sized() && OnBeacon(s, src, i, now).s.Sized()
    ensures KeepsEvidence(s, BeaconFrom(src, i), now, OnBeacon(s, src, i, now))
    ensures KeepsListening(s, BeaconFrom(src, i), now, OnBeacon(s, src, i, now))
  {
    hide PickCandidate, MemcmpLess, U8, U32;
  }

  lemma BeaconProbesOn(s: Station, src: Mac, i: u8, now: u32)
    requires StationOk(s) && OnBeacon(s, src, i, now).s.Sized()
    ensures ProbesOn(s, BeaconFrom(src, i), now, OnBeacon(s, src, i, now))
  {
    hide StartProbe, MemcmpLess, MacValue, Station.IsOccupied;
    if s.state == Probe {
      StartProbeRestarts(Note(s, i, now), now);
    } else if s.Holds(i) {
      StartProbeRestarts(SetId(Note(s, i, now), 0), now);
    }
  }

  // --- invariants ------------------------------------------------------------------------------

  predicate WellFormed(w: World) {
    && AllOk(w.st) && DistinctMacs(w.st) && |w.since| == |w.last| == |w.st|
    && forall f :: f in w.air ==>
         f.m.from < |w.st| && f.m.to < |w.st| && f.m.from != f.m.to && ValidId(f.m.id) && f.at <= w.now
  }

  /** The clock readings of a probing station, in true time. */
  predicate Paced(w: World, i: nat)
    requires i < |w.st| == |w.since| == |w.last|
  {
    w.st[i].state == Probe ==>
      && w.st[i].lastProbeMs == U32(w.last[i])
      && w.since[i] + (w.st[i].probesSent - 1) * T_PROBE <= w.last[i] <= w.now
      && w.last[i] <= w.since[i] + (w.st[i].probesSent - 1) * (T_PROBE + T_LATE)
  }

  predicate AllPaced(w: World)
    requires |w.st| == |w.since| == |w.last|
  {
    forall i :: 0 <= i < |w.st| ==> Paced(w, i)
  }

  /** The first probe of a's attempt is on its way to b. */
  predicate FirstProbe(w: World, a: nat, b: nat, c: u8)
    requires a < |w.since|
  {
    Flight(Msg(a, b, TxProbe, c), w.since[a]) in w.air
  }

  /** Since the given time the station noted c or booted, or it holds c itself. */
  ghost predicate Aware(s: Station, c: u8, since: nat, now: nat)
    requires s.Sized() && c <= 15
  {
    || (exists v: nat :: since <= v <= now && NotedAt(s, c, v))
    || (exists v: nat :: since <= v <= now && BootedAt(s, v))
    || s.Holds(c)
  }

  predicate NotedAt(s: Station, c: u8, v: nat)
    requires s.Sized() && c <= 15
  {
    FreshNote(s, c, U32(v))
  }

  predicate BootedAt(s: Station, v: nat) {
    s.state == Listen && s.listenUntil == U32(v + T_LISTEN)
  }

  /** The first probe of a's attempt is still on its way to b, or b is aware of the attempt. */
  ghost predicate Knows(w: World, a: nat, b: nat, c: u8)
    requires a < |w.st| == |w.since| && b < |w.st| && ValidId(c) && w.st[b].Sized()
  {
    FirstProbe(w, a, b, c) || Aware(w.st[b], c, w.since[a], w.now)
  }

  ghost predicate AllKnow(w: World)
    requires AllOk(w.st) && |w.st| == |w.since|
  {
    forall a, b, c: u8 {:trigger w.st[a].Probes(c), w.st[b].mac} ::
      0 <= a < |w.st| && 0 <= b < |w.st| && a != b && ValidId(c) && w.st[a].Probes(c) ==> Knows(w, a, b, c)
  }

  /** Two probers of one id: the smaller one's first probe is still on its way to the larger one. */
  ghost predicate Resolved(w: World)
    requires |w.st| == |w.since|
  {
    forall a, b, c: u8 {:trigger w.st[a].Probes(c), w.st[b].Probes(c)} ::
      0 <= a < |w.st| && 0 <= b < |w.st| && w.st[a].Probes(c) && w.st[b].Probes(c) ==>
        MacValue(w.st[a].mac) < MacValue(w.st[b].mac) ==> FirstProbe(w, a, b, c)
  }

  /** The prober's first probe is on its way to the holder, or the holder's answer on its way back. */
  ghost predicate Answered(w: World, a: nat, b: nat, c: u8)
    requires b < |w.since|
  {
    || FirstProbe(w, b, a, c)
    || exists f :: f in w.air && f.m == Msg(a, b, TxBeacon, c) && f.at < w.since[b] + T_PROBE
  }

  ghost predicate Defended(w: World)
    requires |w.st| == |w.since|
  {
    forall a, b, c: u8 {:trigger w.st[a].Holds(c), w.st[b].Probes(c)} ::
      0 <= a < |w.st| && 0 <= b < |w.st| && w.st[a].Holds(c) && w.st[b].Probes(c) ==> Answered(w, a, b, c)
  }

  ghost predicate Unique(w: World) {
    forall i, j, c: u8 {:trigger w.st[i].Holds(c), w.st[j].Holds(c)} ::
      0 <= i < |w.st| && 0 <= j < |w.st| && w.st[i].Holds(c) && w.st[j].Holds(c) ==> i == j
  }

  /** A beacon in the air finds no other holder, and no prober that could still become one before it lands. */
  ghost predicate Harmless(w: World)
    requires |w.st| == |w.since|
  {
    forall f, a :: f in w.air && f.m.kind == TxBeacon && 0 <= a < |w.st| && a != f.m.from ==>
      && !w.st[a].Holds(f.m.id)
      && (w.st[a].Probes(f.m.id) ==> f.at < w.since[a] + 2 * T_PROBE)
  }

  ghost predicate Inv(w: World) {
    && WellFormed(w) && AllPaced(w) && AllKnow(w) && Resolved(w) && Defended(w) && Unique(w) && Harmless(w)
  }

  // --- one reaction at time t --------------------------------------------------------------------

  /** Station x reacts to e with r; what leaves the air is only the packet it reacts to. */
  ghost predicate Happens(w: World, x: nat, e: Event, r: Step, rest: seq<Flight>, t: nat) {
    && WellFormed(w) && OnTime(w, t) && x < |w.st| && Steps(w.st[x], e, U32(t), r)
    && (forall f :: f in rest ==> f in w.air)
    && (forall f :: f in w.air ==> f in rest || (f.m.to == x && e == EventOf(w.st, f.m)))
    && (e.BeaconFrom? ==> exists f :: f in w.air && f.m.to == x && f.m.kind == TxBeacon && e == EventOf(w.st, f.m))
  }

  lemma NewFlights(st: seq<Station>, x: nat, tx: seq<Tx>, t: nat)
    ensures forall f :: f in Sent(Fanout(st, x, tx), t) <==> f.at == t && f.m in Fanout(st, x, tx)
  {
    var ms := Fanout(st, x, tx);
    forall f: Flight | f.at == t && f.m in ms ensures f in Sent(ms, t) {
      var k :| 0 <= k < |ms| && ms[k] == f.m;
      assert Sent(ms, t)[k] == f;
    }
  }

  predicate NewFlight(w: World, x: nat, r: Step, f: Flight, t: nat) {
    && f.at == t && f.m.from == x && f.m.to < |w.st| && f.m.to != x && ValidId(f.m.id)
    && (f.m.kind == TxBeacon ==> r.s.Holds(f.m.id)) && (f.m.kind == TxProbe ==> r.s.Probes(f.m.id))
  }

  /** What a reaction adds to the air. */
  lemma AirAfter(w: World, x: nat, e: Event, r: Step, rest: seq<Flight>, t: nat)
    requires Happens(w, x, e, r, rest, t)
    ensures var w' := Absorb(w, x, r, rest, t);
      && (forall f :: f in rest ==> f in w'.air)
      && (forall f :: f in w'.air ==> f in rest || NewFlight(w, x, r, f, t))
      && (forall c: u8, k: TxKind, y: nat {:trigger Flight(Msg(x, y, k, c), t)} ::
            Tx(k, c, Broadcast) in r.tx && y < |w.st| && y != x ==> Flight(Msg(x, y, k, c), t) in w'.air)
      && (forall c: u8, y: nat {:trigger Flight(Msg(x, y, TxBeacon, c), t)} ::
            y < |w.st| && y != x && Tx(TxBeacon, c, Unicast(w.st[y].mac)) in r.tx ==>
              Flight(Msg(x, y, TxBeacon, c), t) in w'.air)
  {
    hide Fanout, Sent, OnTime, DistinctMacs, StationOk, KeepsEvidence, KeepsListening, ProbesOn;
    var st' := w.st[x := r.s];
    FanoutMembers(st', x, r.tx);
    NewFlights(st', x, r.tx, t);
  }

  lemma AbsorbWellFormed(w: World, x: nat, e: Event, r: Step, rest: seq<Flight>, t: nat)
    requires Happens(w, x, e, r, rest, t)
    ensures WellFormed(Absorb(w, x, r, rest, t))
  {
    AirAfter(w, x, e, r, rest, t);
    hide KeepsEvidence, KeepsListening, ProbesOn, Fanout;
  }

  lemma AbsorbPaced(w: World, x: nat, e: Event, r: Step, rest: seq<Flight>, t: nat)
    requires Happens(w, x, e, r, rest, t) && AllPaced(w)
    ensures var w' := Absorb(w, x, r, rest, t); |w'.st| == |w'.since| == |w'.last| && AllPaced(w')
  {
    var w' := Absorb(w, x, r, rest, t);
    hide KeepsEvidence, KeepsListening, Fanout;
    forall i | 0 <= i < |w'.st| ensures Paced(w', i) {
      assert Paced(w, i);
      if i == x && r.s.state == Probe {
        assert r.s.Probes(r.s.candidate);
        if !NewAttempt(r) && r.tx != [] { ElapsedIsDistance(t, w.last[x], T_PROBE); }
      }
    }
  }

  /** An attempt takes at least 450 ms to succeed and is always shorter than the listening phase. */
  lemma AttemptLength(w: World, i: nat, t: nat)
    requires WellFormed(w) && AllPaced(w) && OnTime(w, t) && i < |w.st| && w.st[i].state == Probe
    ensures w.since[i] <= w.now <= t < w.since[i] + T_LISTEN
  {
    assert Paced(w, i) && StationOk(w.st[i]);
  }

  lemma TakingTakesTime(w: World, x: nat, e: Event, r: Step, rest: seq<Flight>, t: nat, c: u8)
    requires Happens(w, x, e, r, rest, t) && AllPaced(w) && r.s.Holds(c) && !w.st[x].Holds(c)
    ensures e == Clock && w.st[x].Probes(c) && t >= w.since[x] + 3 * T_PROBE
  {
    assert Paced(w, x);
    hide KeepsEvidence, KeepsListening, ProbesOn;
    ElapsedIsDistance(t, w.last[x], T_PROBE);
  }

  /** Evidence noted since an attempt began is still good while the attempt lasts. */
  lemma NotedIsOccupied(s: Station, c: u8, v: nat, t: nat)
    requires s.Sized() && ValidId(c) && FreshNote(s, c, U32(v)) && v <= t < v + T_EXPIRE
    ensures s.IsOccupied(c, U32(t))
  {
    ElapsedIsDistance(t, v, T_EXPIRE);
  }

  /** What a prober's first probe does to the station it reaches. */
  lemma ProbeIsNoted(w: World, a: nat, x: nat, c: u8, e: Event, r: Step, rest: seq<Flight>, t: nat)
    requires Happens(w, x, e, r, rest, t) && a < |w.st| && a != x && ValidId(c)
    requires FirstProbe(w, a, x, c) && Flight(Msg(a, x, TxProbe, c), w.since[a]) !in rest
    ensures e == ProbeFrom(w.st[a].mac, c) && w.st[a].mac != w.st[x].mac
    ensures r.s.Holds(c) || FreshNote(r.s, c, U32(t))
  {
    hide KeepsListening, ProbesOn;
    assert w.st[a].mac != w.st[x].mac;
  }

  /** A station stays aware of an attempt for as long as the attempt may last. */
  lemma StaysAware(s: Station, c: u8, since: nat, now: nat, e: Event, r: Step, t: nat)
    requires Steps(s, e, U32(t), r) && ValidId(c) && Aware(s, c, since, now) && since <= now <= t < since + T_LISTEN
    ensures r.s.Sized() && Aware(r.s, c, since, t)
  {
    assert s.Sized() && r.s.Sized();
    hide ProbesOn, StationOk, Reaction;
    if r.s.Holds(c) {
    } else if e.Boot? {
      assert U32(U32(t) + T_LISTEN) == U32(t + T_LISTEN);
      assert BootedAt(r.s, t);
    } else if s.Holds(c) {
      assert NotedAt(r.s, c, t);
    } else if v: nat :| since <= v <= now && NotedAt(s, c, v) {
      assert NotedAt(r.s, c, v) || NotedAt(r.s, c, t);
    } else {
      var v: nat :| since <= v <= now && BootedAt(s, v);
      if e == Clock && Reached(U32(t), s.listenUntil) { ReachedIsNotEarly(t, v, T_LISTEN); }
      assert BootedAt(r.s, v);
    }
  }

  /** Station x still knows of a's attempt after its own reaction. */
  lemma StillKnows(w: World, a: nat, x: nat, c: u8, e: Event, r: Step, rest: seq<Flight>, t: nat)
    requires Happens(w, x, e, r, rest, t) && AllPaced(w) && a < |w.st| && a != x && ValidId(c)
    requires w.st[a].Probes(c) && Knows(w, a, x, c)
    ensures var w' := Absorb(w, x, r, rest, t); WellFormed(w') && Knows(w', a, x, c)
  {
    var w' := Absorb(w, x, r, rest, t);
    AbsorbWellFormed(w, x, e, r, rest, t);
    AirAfter(w, x, e, r, rest, t);
    AttemptLength(w, a, t);
    assert r.s.Sized() && w.st[x].Sized();
    if FirstProbe(w, a, x, c) {
      if Flight(Msg(a, x, TxProbe, c), w.since[a]) !in rest {
        ProbeIsNoted(w, a, x, c, e, r, rest, t);
        assert r.s.Holds(c) || NotedAt(r.s, c, t);
      }
    } else {
      StaysAware(w.st[x], c, w.since[a], w.now, e, r, t);
    }
    hide Aware, WellFormed, OnTime, Fanout, Steps;
  }

  /** A probe that begins or goes on is broadcast; a new attempt's first probe is in the air to everybody. */
  lemma NewAttemptIsKnown(w: World, x: nat, y: nat, c: u8, e: Event, r: Step, rest: seq<Flight>, t: nat)
    requires Happens(w, x, e, r, rest, t) && r.s.Probes(c) && NewAttempt(r) && y < |w.st| && y != x
    ensures FirstProbe(Absorb(w, x, r, rest, t), x, y, c)
  {
    AirAfter(w, x, e, r, rest, t);
    hide KeepsEvidence, KeepsListening, Fanout, WellFormed, OnTime;
    assert r.tx[0] in r.tx;
  }

  /** A station that goes on with an attempt was already making it. */
  lemma OldAttempt(w: World, x: nat, c: u8, e: Event, r: Step, rest: seq<Flight>, t: nat)
    requires Happens(w, x, e, r, rest, t) && r.s.Probes(c) && !NewAttempt(r)
    ensures w.st[x].Probes(c) && (e == Clock || !IrIdTrace.Objects(e, c, w.st[x].mac))
  {
    hide KeepsEvidence, KeepsListening, Fanout, WellFormed, OnTime, Reaction;
  }

  lemma AbsorbKnows(w: World, x: nat, e: Event, r: Step, rest: seq<Flight>, t: nat)
    requires Happens(w, x, e, r, rest, t) && AllPaced(w) && AllKnow(w)
    ensures var w' := Absorb(w, x, r, rest, t); WellFormed(w') && AllKnow(w')
  {
    var w' := Absorb(w, x, r, rest, t);
    AbsorbWellFormed(w, x, e, r, rest, t);
    AirAfter(w, x, e, r, rest, t);
    forall a, b, c: u8 | 0 <= a < |w'.st| && 0 <= b < |w'.st| && a != b && ValidId(c) && w'.st[a].Probes(c)
      ensures Knows(w', a, b, c)
    {
      if a == x && NewAttempt(r) {
        NewAttemptIsKnown(w, x, b, c, e, r, rest, t);
      } else {
        if a == x { OldAttempt(w, x, c, e, r, rest, t); }
        assert w.st[a].Probes(c) && w.st[b].mac == w.st[b].mac;
        assert Knows(w, a, b, c);
        if b == x {
          StillKnows(w, a, x, c, e, r, rest, t);
        } else {
          KnowsLater(w, w', a, b, c, x, e, rest, t);
        }
      }
    }
  }

  /** Nothing happens to a station that does not react, except that time goes on. */
  lemma KnowsLater(w: World, w': World, a: nat, b: nat, c: u8, x: nat, e: Event, rest: seq<Flight>, t: nat)
    requires WellFormed(w) && WellFormed(w') && a < |w.st| == |w'.st| && b < |w.st| && ValidId(c) && Knows(w, a, b, c)
    requires b != x && w'.st[b] == w.st[b] && w'.since[a] == w.since[a] && w.now <= w'.now
    requires forall f :: f in w.air ==> f in rest || (f.m.to == x && e == EventOf(w.st, f.m))
    requires forall f :: f in rest ==> f in w'.air
    ensures Knows(w', a, b, c)
  {
    assert w.st[b].Sized();
    hide WellFormed, NotedAt, BootedAt;
  }

  // --- two probers, and prober against holder --------------------------------------------------------

  lemma AbsorbResolved(w: World, x: nat, e: Event, r: Step, rest: seq<Flight>, t: nat)
    requires Happens(w, x, e, r, rest, t) && AllPaced(w) && AllKnow(w) && Resolved(w)
    ensures var w' := Absorb(w, x, r, rest, t); |w'.st| == |w'.since| && Resolved(w')
  {
    var w' := Absorb(w, x, r, rest, t);
    AirAfter(w, x, e, r, rest, t);
    hide Steps, AllOk, DistinctMacs, Fanout, AllKnow;
    forall a, b, c: u8 | 0 <= a < |w'.st| && 0 <= b < |w'.st| && w'.st[a].Probes(c) && w'.st[b].Probes(c) &&
                         MacValue(w'.st[a].mac) < MacValue(w'.st[b].mac)
      ensures FirstProbe(w', a, b, c)
    {
      if a == x && NewAttempt(r) {
        NewAttemptIsKnown(w, x, b, c, e, r, rest, t);
      } else if b == x {
        LargerProber(w, a, x, c, e, r, rest, t);
      } else {
        if a == x { OldAttempt(w, x, c, e, r, rest, t); }
        assert w.st[a].Probes(c) && w.st[b].Probes(c);
      }
    }
  }

  /** A larger station comes to probe c, or goes on probing it, only while a's first probe is on its way to it. */
  lemma LargerProber(w: World, a: nat, x: nat, c: u8, e: Event, r: Step, rest: seq<Flight>, t: nat)
    requires Happens(w, x, e, r, rest, t) && AllPaced(w) && AllKnow(w) && Resolved(w)
    requires a < |w.st| && a != x && w.st[a].Probes(c) && r.s.Probes(c)
    requires MacValue(w.st[a].mac) < MacValue(w.st[x].mac)
    ensures FirstProbe(Absorb(w, x, r, rest, t), a, x, c)
  {
    AirAfter(w, x, e, r, rest, t);
    assert StationOk(w.st[a]) && w.st[x].mac == w.st[x].mac;
    assert Knows(w, a, x, c);
    AttemptLength(w, a, t);
    if NewAttempt(r) {
      AwareDoesNotProbe(w.st[x], c, w.since[a], w.now, e, r, t);
    } else {
      OldAttempt(w, x, c, e, r, rest, t);
    }
    if FirstProbe(w, a, x, c) && Flight(Msg(a, x, TxProbe, c), w.since[a]) !in rest {
      ProbeIsNoted(w, a, x, c, e, r, rest, t);
      if NewAttempt(r) { NotedIsOccupied(r.s, c, t, t); }
    }
  }

  /** A station aware of an attempt does not begin to probe the same id while the attempt may last. */
  lemma AwareDoesNotProbe(s: Station, c: u8, since: nat, now: nat, e: Event, r: Step, t: nat)
    requires Steps(s, e, U32(t), r) && ValidId(c) && since <= now <= t < since + T_LISTEN
    requires r.s.Probes(c) && NewAttempt(r)
    ensures s.Sized() && !Aware(s, c, since, now)
  {
    assert s.Sized() && r.s.Sized() && StationOk(r.s);
    if Aware(s, c, since, now) {
      StaysAware(s, c, since, now, e, r, t);
      hide Reaction, KeepsEvidence, KeepsListening;
      var v: nat :| since <= v <= t && NotedAt(r.s, c, v);
      NotedIsOccupied(r.s, c, v, t);
      assert false;
    }
  }

  lemma AbsorbDefended(w: World, x: nat, e: Event, r: Step, rest: seq<Flight>, t: nat)
    requires Happens(w, x, e, r, rest, t) && AllPaced(w) && Resolved(w) && Defended(w)
    ensures var w' := Absorb(w, x, r, rest, t); |w'.st| == |w'.since| && Defended(w')
  {
    var w' := Absorb(w, x, r, rest, t);
    AirAfter(w, x, e, r, rest, t);
    forall a, b, c: u8 | 0 <= a < |w'.st| && 0 <= b < |w'.st| && w'.st[a].Holds(c) && w'.st[b].Probes(c)
      ensures Answered(w', a, b, c)
    {
      if b == x {
        ProberReacts(w, a, x, c, e, r, rest, t);
      } else if a == x {
        HolderReacts(w, x, b, c, e, r, rest, t);
      } else {
        assert w.st[a].Holds(c) && w.st[b].Probes(c);
        hide Happens, WellFormed, OnTime;
      }
    }
  }

  /** The prober of a held id moves: its first probe, or the answer to it, is still in the air. */
  lemma ProberReacts(w: World, a: nat, x: nat, c: u8, e: Event, r: Step, rest: seq<Flight>, t: nat)
    requires Happens(w, x, e, r, rest, t) && Defended(w) && a < |w.st| && a != x && w.st[a].Holds(c) && r.s.Probes(c)
    ensures Answered(Absorb(w, x, r, rest, t), a, x, c)
  {
    AirAfter(w, x, e, r, rest, t);
    if NewAttempt(r) {
      NewAttemptIsKnown(w, x, a, c, e, r, rest, t);
    } else {
      OldAttempt(w, x, c, e, r, rest, t);
      assert Answered(w, a, x, c) && w.st[a].mac != w.st[x].mac;
    }
  }

  /** The holder moves: it took the id before the prober began, or it answers the probe at once. */
  lemma HolderReacts(w: World, x: nat, b: nat, c: u8, e: Event, r: Step, rest: seq<Flight>, t: nat)
    requires Happens(w, x, e, r, rest, t) && AllPaced(w) && Resolved(w) && Defended(w)
    requires b < |w.st| && b != x && r.s.Holds(c) && w.st[b].Probes(c)
    ensures Answered(Absorb(w, x, r, rest, t), x, b, c)
  {
    AirAfter(w, x, e, r, rest, t);
    assert w.st[b].mac != w.st[x].mac;
    if w.st[x].Holds(c) {
      assert Answered(w, x, b, c);
      if FirstProbe(w, b, x, c) && Flight(Msg(b, x, TxProbe, c), w.since[b]) !in rest {
        AnswersAtOnce(w, x, b, c, e, r, rest, t);
      }
    } else {
      TakingTakesTime(w, x, e, r, rest, t, c);
      MemcmpIsNumericOrder(w.st[b].mac, w.st[x].mac);
      Overdue(w, b, x, c, t);
      assert w.st[x].Probes(c) && w.st[b].Probes(c);
    }
  }

  lemma AnswersAtOnce(w: World, x: nat, b: nat, c: u8, e: Event, r: Step, rest: seq<Flight>, t: nat)
    requires Happens(w, x, e, r, rest, t) && b < |w.st| && b != x && w.st[x].Holds(c)
    requires FirstProbe(w, b, x, c) && Flight(Msg(b, x, TxProbe, c), w.since[b]) !in rest
    ensures Answered(Absorb(w, x, r, rest, t), x, b, c)
  {
    AirAfter(w, x, e, r, rest, t);
    assert e == ProbeFrom(w.st[b].mac, c) && w.st[b].mac != w.st[x].mac;
    assert r.tx == [Tx(TxBeacon, c, Unicast(w.st[b].mac)), Announce(c)];
    assert r.tx[0] in r.tx;
    var f := Flight(Msg(x, b, TxBeacon, c), t);
    assert f in Absorb(w, x, r, rest, t).air;
  }

  lemma AbsorbUnique(w: World, x: nat, e: Event, r: Step, rest: seq<Flight>, t: nat)
    requires Happens(w, x, e, r, rest, t) && AllPaced(w) && Defended(w) && Unique(w)
    ensures Unique(Absorb(w, x, r, rest, t))
  {
    var w' := Absorb(w, x, r, rest, t);
    forall a, c: u8 | 0 <= a < |w.st| && a != x && w.st[a].Holds(c) ensures !r.s.Holds(c) {
      OnlyOneHolds(w, a, x, c, e, r, rest, t);
    }
    hide Happens, Defended, AllPaced;
  }

  /** 450 ms into an attempt nothing about its first probe is in the air any more. */
  lemma Overdue(w: World, a: nat, x: nat, c: u8, t: nat)
    requires WellFormed(w) && OnTime(w, t) && x < |w.st| && t >= w.since[x] + 3 * T_PROBE
    ensures !FirstProbe(w, x, a, c) && !Answered(w, a, x, c)
  {
  }

  /** A prober cannot take an id that is held: the answer to its first probe would be overdue. */
  lemma OnlyOneHolds(w: World, a: nat, x: nat, c: u8, e: Event, r: Step, rest: seq<Flight>, t: nat)
    requires Happens(w, x, e, r, rest, t) && AllPaced(w) && Defended(w) && Unique(w)
    requires a < |w.st| && a != x && w.st[a].Holds(c)
    ensures !r.s.Holds(c)
  {
    if r.s.Holds(c) && !w.st[x].Holds(c) {
      TakingTakesTime(w, x, e, r, rest, t, c);
      Overdue(w, a, x, c, t);
      assert false;
    }
  }

  lemma AbsorbHarmless(w: World, x: nat, e: Event, r: Step, rest: seq<Flight>, t: nat)
    requires Happens(w, x, e, r, rest, t) && Inv(w)
    ensures var w' := Absorb(w, x, r, rest, t); |w'.st| == |w'.since| && Harmless(w')
  {
    var w' := Absorb(w, x, r, rest, t);
    AirAfter(w, x, e, r, rest, t);
    AbsorbUnique(w, x, e, r, rest, t);
    AbsorbDefended(w, x, e, r, rest, t);
    assert |w'.st| == |w'.since| == |w.st|;
    hide Inv, Happens, Absorb, Unique, Defended;
    forall f, a | f in w'.air && f.m.kind == TxBeacon && 0 <= a < |w'.st| && a != f.m.from
      ensures !w'.st[a].Holds(f.m.id) && (w'.st[a].Probes(f.m.id) ==> f.at < w'.since[a] + 2 * T_PROBE)
    {
      if f in rest {
        OldBeacon(w, x, f, a, e, r, rest, t);
      } else {
        NewBeacon(w, x, f, a, e, r, rest, t);
      }
    }
  }

  lemma OldBeacon(w: World, x: nat, f: Flight, a: nat, e: Event, r: Step, rest: seq<Flight>, t: nat)
    requires Happens(w, x, e, r, rest, t) && Inv(w)
    requires f in rest && f.m.kind == TxBeacon && a < |w.st| && a != f.m.from
    ensures var w' := Absorb(w, x, r, rest, t);
      && a < |w'.st| == |w'.since|
      && !w'.st[a].Holds(f.m.id) && (w'.st[a].Probes(f.m.id) ==> f.at < w'.since[a] + 2 * T_PROBE)
  {
    assert f in w.air;
    assert !w.st[a].Holds(f.m.id);
    if a == x {
      if r.s.Holds(f.m.id) {
        TakingTakesTime(w, x, e, r, rest, t, f.m.id);
        assert false;
      } else if r.s.Probes(f.m.id) && !NewAttempt(r) {
        OldAttempt(w, x, f.m.id, e, r, rest, t);
      }
    }
  }

  lemma NewBeacon(w: World, x: nat, f: Flight, a: nat, e: Event, r: Step, rest: seq<Flight>, t: nat)
    requires Happens(w, x, e, r, rest, t)
    requires var w' := Absorb(w, x, r, rest, t); Unique(w') && Defended(w')
    requires NewFlight(w, x, r, f, t) && f.m.kind == TxBeacon && a < |w.st| && a != x
    ensures var w' := Absorb(w, x, r, rest, t);
      !w'.st[a].Holds(f.m.id) && (w'.st[a].Probes(f.m.id) ==> f.at < w'.since[a] + 2 * T_PROBE)
  {
    var w' := Absorb(w, x, r, rest, t);
    AirAfter(w, x, e, r, rest, t);
    assert w'.st[x].Holds(f.m.id);
    if w'.st[a].Probes(f.m.id) { assert Answered(w', x, a, f.m.id); }
    hide Steps, WellFormed, Defended, Fanout;
  }

  // --- moves and runs ------------------------------------------------------------------------------------

  lemma AbsorbKeepsInv(w: World, x: nat, e: Event, r: Step, rest: seq<Flight>, t: nat)
    requires Happens(w, x, e, r, rest, t) && Inv(w)
    ensures Inv(Absorb(w, x, r, rest, t))
    ensures forall c: u8 :: w.st[x].Holds(c) && !e.Boot? ==> r.s.Holds(c)
  {
    AbsorbWellFormed(w, x, e, r, rest, t);
    AbsorbPaced(w, x, e, r, rest, t);
    AbsorbKnows(w, x, e, r, rest, t);
    AbsorbResolved(w, x, e, r, rest, t);
    AbsorbDefended(w, x, e, r, rest, t);
    AbsorbUnique(w, x, e, r, rest, t);
    AbsorbHarmless(w, x, e, r, rest, t);
    forall c: u8 | w.st[x].Holds(c) && !e.Boot? ensures r.s.Holds(c) {
      NobodyIsYieldedTo(w, x, c, e, r, rest, t);
    }
    hide Absorb, Happens;
  }

  lemma NobodyIsYieldedTo(w: World, x: nat, c: u8, e: Event, r: Step, rest: seq<Flight>, t: nat)
    requires Happens(w, x, e, r, rest, t) && Inv(w) && w.st[x].Holds(c) && !e.Boot?
    ensures r.s.Holds(c)
  {
    hide KeepsEvidence, KeepsListening, ProbesOn;
    if !r.s.Holds(c) {
      assert e.BeaconFrom? && e.id == c;
      var f :| f in w.air && f.m.to == x && f.m.kind == TxBeacon && e == EventOf(w.st, f.m);
      FindsNoHolder(w, x, f);
      assert false;
    }
  }

  lemma FindsNoHolder(w: World, x: nat, f: Flight)
    requires Inv(w) && x < |w.st| && f in w.air && f.m.to == x && f.m.kind == TxBeacon
    ensures !w.st[x].Holds(f.m.id)
  {
  }

  /** A newcomer listens; for the others only time goes on. */
  predicate Joined(w: World, w': World, t: nat) {
    && WellFormed(w) && WellFormed(w') && w'.air == w.air && w.now <= w'.now == t
    && |w'.st| == |w.st| + 1 && BootedAt(w'.st[|w.st|], t)
    && (forall i :: 0 <= i < |w.st| ==> w'.st[i] == w.st[i] && w'.since[i] == w.since[i] && w'.last[i] == w.last[i])
  }

  lemma NewcomerListens(mac: Mac, p: u8, t: nat)
    ensures var s := Begin(Fresh(mac), mac, p, U32(t)); StationOk(s) && s.mac == mac && BootedAt(s, t)
  {
    assert U32(U32(t) + T_LISTEN) == U32(t + T_LISTEN);
  }

  lemma JoinIsJoined(w: World, mac: Mac, p: u8, t: nat)
    requires WellFormed(w) && Enabled(w, Join(mac, p, t))
    ensures Joined(w, Next(w, Join(mac, p, t)), t)
  {
    hide Begin, Fresh, StationOk, BootedAt, U32;
    NewcomerListens(mac, p, t);
  }

  lemma JoinKeepsPaced(w: World, w': World, t: nat)
    requires Joined(w, w', t) && AllPaced(w)
    ensures AllPaced(w')
  {
    forall i | 0 <= i < |w'.st| ensures Paced(w', i) {
      if i < |w.st| { assert Paced(w, i); }
    }
  }

  lemma JoinKeepsKnows(w: World, w': World, t: nat)
    requires Joined(w, w', t) && AllPaced(w) && AllKnow(w)
    ensures AllKnow(w')
  {
    forall a, b, c: u8 | 0 <= a < |w'.st| && 0 <= b < |w'.st| && a != b && ValidId(c) && w'.st[a].Probes(c)
      ensures Knows(w', a, b, c)
    {
      assert w.st[a].Probes(c) && Paced(w, a);
      if b < |w.st| {
        assert w.st[b].mac == w.st[b].mac;
        assert Knows(w, a, b, c);
      }
    }
  }

  lemma JoinKeepsRest(w: World, w': World, t: nat)
    requires Joined(w, w', t) && Resolved(w) && Defended(w) && Unique(w) && Harmless(w)
    ensures Resolved(w') && Defended(w') && Unique(w') && Harmless(w')
  {
    hide AllOk, DistinctMacs;
    forall a, b, c: u8 | 0 <= a < |w'.st| && 0 <= b < |w'.st| && w'.st[a].Holds(c) && w'.st[b].Probes(c)
      ensures Answered(w', a, b, c)
    {
      assert w.st[a].Holds(c) && w.st[b].Probes(c);
      assert Answered(w, a, b, c);
    }
  }

  lemma JoinKeepsInv(w: World, mac: Mac, p: u8, t: nat)
    requires Inv(w) && Enabled(w, Join(mac, p, t))
    ensures Inv(Next(w, Join(mac, p, t)))
  {
    var w' := Next(w, Join(mac, p, t));
    JoinIsJoined(w, mac, p, t);
    JoinKeepsPaced(w, w', t);
    JoinKeepsKnows(w, w', t);
    JoinKeepsRest(w, w', t);
  }

  /** Every move but a newcomer's is one station's reaction. */
  lemma MoveHappens(w: World, mv: Move) returns (x: nat, e: Event, r: Step, rest: seq<Flight>)
    requires WellFormed(w) && Enabled(w, mv) && !mv.Join?
    ensures Happens(w, x, e, r, rest, mv.t) && Next(w, mv) == Absorb(w, x, r, rest, mv.t)
    ensures r == React(w.st[x], e, U32(mv.t))
    ensures mv.Act? ==> x == mv.j && e == mv.e && rest == w.air
    ensures mv.Deliver? ==> w.air[mv.i] in w.air && w.air[mv.i].m.from < |w.st|
    ensures mv.Deliver? ==> x == w.air[mv.i].m.to && e == EventOf(w.st, w.air[mv.i].m)
  {
    hide Steps, Absorb, React;
    match mv
    case Act(j, e0, t) =>
      x, e, rest := j, e0, w.air;
      r := React(w.st[x], e, U32(t));
      ReactSteps(w.st[x], e, U32(t));
    case Deliver(i, t) =>
      var f := w.air[i];
      assert f in w.air;
      x, e, rest := f.m.to, EventOf(w.st, f.m), w.air[..i] + w.air[i + 1..];
      r := React(w.st[x], e, U32(t));
      ReactSteps(w.st[x], e, U32(t));
      AllButOne(w.air, i);
  }

  /** Every move keeps the invariant; only a reboot takes an id away. */
  lemma MoveKeepsInv(w: World, mv: Move)
    requires Inv(w) && Enabled(w, mv)
    ensures Inv(Next(w, mv)) && |w.st| <= |Next(w, mv).st|
    ensures forall k, c: u8 {:trigger w.st[k].Holds(c)} ::
              0 <= k < |w.st| && w.st[k].Holds(c) && !(mv.Act? && mv.j == k && mv.e.Boot?) ==> Next(w, mv).st[k].Holds(c)
  {
    hide Inv, Happens, Absorb, Next, Enabled;
    InvIsSound(w);
    if mv.Join? {
      JoinKeepsInv(w, mv.mac, mv.preferred, mv.t);
      JoinIsJoined(w, mv.mac, mv.preferred, mv.t);
    } else {
      var x, e, r, rest := MoveHappens(w, mv);
      AbsorbKeepsInv(w, x, e, r, rest, mv.t);
      OthersStay(w, x, e, r, rest, mv.t);
    }
  }

  lemma InvIsSound(w: World)
    requires Inv(w)
    ensures WellFormed(w)
  {
  }

  lemma OthersStay(w: World, x: nat, e: Event, r: Step, rest: seq<Flight>, t: nat)
    requires Happens(w, x, e, r, rest, t)
    ensures x < |w.st| == |w.since| && Absorb(w, x, r, rest, t).st == w.st[x := r.s]
    ensures Absorb(w, x, r, rest, t).now == t >= w.now
    ensures |Absorb(w, x, r, rest, t).since| == |w.since|
    ensures forall i :: 0 <= i < |w.since| ==>
              Absorb(w, x, r, rest, t).since[i] == if i == x && NewAttempt(r) then t else w.since[i]
  {
    hide Steps;
  }

  lemma AllButOne(air: seq<Flight>, i: nat)
    requires i < |air|
    ensures forall f :: f in air[..i] + air[i + 1..] ==> f in air
    ensures forall f :: f in air ==> f in air[..i] + air[i + 1..] || f == air[i]
  {
    var rest := air[..i] + air[i + 1..];
    forall f | f in air ensures f in rest || f == air[i] {
      var k :| 0 <= k < |air| && air[k] == f;
      if k < i { assert rest[k] == f; } else if k > i { assert rest[k - 1] == f; }
    }
  }

  /** A run starts with no station and no packet; the clock may show anything. */
  ghost predicate Run(ws: seq<World>, mvs: seq<Move>) {
    && |ws| == |mvs| + 1
    && ws[0].st == [] && ws[0].since == [] && ws[0].last == [] && ws[0].air == []
    && forall k :: 0 <= k < |mvs| ==>
         Enabled(ws[k], mvs[k]) && (WellFormed(ws[k]) ==> ws[k + 1] == Next(ws[k], mvs[k]))
  }

  lemma {:induction false} RunKeepsInv(ws: seq<World>, mvs: seq<Move>, k: nat)
    requires Run(ws, mvs) && k < |ws|
    ensures Inv(ws[k])
  {
    if k > 0 {
      RunKeepsInv(ws, mvs, k - 1);
      hide Inv, Enabled, Next;
      InvIsSound(ws[k - 1]);
      MoveKeepsInv(ws[k - 1], mvs[k - 1]);
    }
  }

  /** Uniqueness with delays: at every state of every run, two stations never hold the same id. */
  lemma HeldIdsAreDistinct(ws: seq<World>, mvs: seq<Move>, k: nat, i: nat, j: nat)
    requires Run(ws, mvs) && k < |ws| && i < |ws[k].st| && j < |ws[k].st| && i != j
    requires ws[k].st[i].state == Held && ws[k].st[j].state == Held
    ensures ws[k].st[i].id != ws[k].st[j].id
  {
    RunKeepsInv(ws, mvs, k);
    assert ws[k].st[i].Holds(ws[k].st[i].id) && ws[k].st[j].Holds(ws[k].st[j].id);
  }

  /** Stability with delays: a held id is kept for the rest of the run, unless the station is rebooted. */
  lemma {:induction false} HeldIdIsKept(ws: seq<World>, mvs: seq<Move>, k: nat, l: nat, i: nat, c: u8)
    requires Run(ws, mvs) && k <= l < |ws| && i < |ws[k].st| && ws[k].st[i].Holds(c)
    requires forall q :: k <= q < l ==> !(mvs[q].Act? && mvs[q].j == i && mvs[q].e.Boot?)
    ensures i < |ws[l].st| && ws[l].st[i].Holds(c)
  {
    if k < l {
      HeldIdIsKept(ws, mvs, k, l - 1, i, c);
      RunKeepsInv(ws, mvs, l - 1);
      hide Inv, Enabled, Next;
      InvIsSound(ws[l - 1]);
      MoveKeepsInv(ws[l - 1], mvs[l - 1]);
    }
  }
}
