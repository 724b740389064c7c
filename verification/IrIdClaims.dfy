/**
 What becomes of a claim in the timed network when no station boots or joins and no hit is
 reported: where packets, evidence and deadlines come from, and that an id which some station
 probes is held before long.
 */
module IrIdClaims {
  import opened Words
  import opened IrIdStation
  import opened IrIdReaction
  import opened IrIdTimed
  import IrIdTrace

  // --- one station -------------------------------------------------------------------------------

  /** The station just chose: it probes a free id, or knows all fifteen to be occupied and waits. */
  predicate Chose(s: Station, now: u32)
    requires s.Sized()
  {
    || (s.state == Listen && forall c: u8 :: ValidId(c) ==> s.IsOccupied(c, now))
    || (s.state == Probe && !s.IsOccupied(s.candidate, now))
  }

  predicate Radio(e: Event) {
    e.ProbeFrom? || e.BeaconFrom?
  }

  /** A probing station goes on, takes the id, or notes an objection and chooses again. */
  predicate ProbeEnds(s: Station, c: u8, e: Event, now: u32, r: Step)
    requires r.s.Sized() && c <= 15
  {
    if r.s.Probes(c) then !NewAttempt(r)
    else r.s.Holds(c) || (Radio(e) && IrIdTrace.Objects(e, c, s.mac) && FreshNote(r.s, c, now) && Chose(r.s, now))
  }

  lemma ProbingReacts(s: Station, c: u8, e: Event, now: u32)
    requires StationOk(s) && s.Probes(c) && (e == Clock || Radio(e))
    ensures React(s, e, now).s.Sized() && ProbeEnds(s, c, e, now, React(s, e, now))
  {
    hide StationOk, StartProbe, OnProbe, OnBeacon, Tick, IrIdTrace.Objects, Chose, FreshNote;
    ChoosesAgain(s, c, now);
    match e
    case Clock => ProbingTicks(s, c, now);
    case ProbeFrom(src, i) => ProbingHearsProbe(s, c, src, i, now);
    case BeaconFrom(src, i) => ProbingHearsBeacon(s, c, src, i, now);
  }

  lemma ProbingTicks(s: Station, c: u8, now: u32)
    requires StationOk(s) && s.Probes(c)
    ensures var r := Tick(s, now);
      r.s.Sized() && if r.s.Probes(c) then !NewAttempt(r) else r.s.Holds(c)
  {
    hide Elapsed;
  }

  /** A probing station hears an objection and chooses again, or goes on. */
  predicate Decides(s: Station, c: u8, e: Event, now: u32, r: Step)
    requires s.Sized()
  {
    if IrIdTrace.Objects(e, c, s.mac) then r == StartProbe(Note(s, c, now), now)
    else r.tx == [] && r.s.Probes(c) && r.s.Sized()
  }

  lemma ProbingHearsProbe(s: Station, c: u8, src: Mac, i: u8, now: u32)
    requires StationOk(s) && s.Probes(c)
    ensures Decides(s, c, ProbeFrom(src, i), now, OnProbe(s, src, i, now))
  {
    hide StartProbe, MemcmpLess, MacValue;
    MemcmpIsNumericOrder(src, s.mac);
  }

  lemma ProbingHearsBeacon(s: Station, c: u8, src: Mac, i: u8, now: u32)
    requires StationOk(s) && s.Probes(c)
    ensures Decides(s, c, BeaconFrom(src, i), now, OnBeacon(s, src, i, now))
  {
    hide StartProbe, MemcmpLess, MacValue;
  }

  /** Noting its candidate, a station chooses another one, or waits. */
  lemma ChoosesAgain(s: Station, c: u8, now: u32)
    requires StationOk(s) && s.Probes(c)
    ensures var r := StartProbe(Note(s, c, now), now).s;
      r.Sized() && !r.Probes(c) && FreshNote(r, c, now) && Chose(r, now)
  {
    hide StartProbe, Station.IsOccupied, U32;
    StartProbeRestarts(Note(s, c, now), now);
    FreshIsOccupied(StartProbe(Note(s, c, now), now).s, c, now);
  }

  lemma FreshIsOccupied(s: Station, c: u8, now: u32)
    requires s.Sized() && ValidId(c) && FreshNote(s, c, now)
    ensures s.IsOccupied(c, now)
  {
  }

  /** When the listening time is over, the next tick chooses. */
  lemma ListeningReacts(s: Station, now: u32)
    requires StationOk(s) && s.state == Listen
    ensures var r := React(s, Clock, now);
      if Reached(now, s.listenUntil) then r.s.Sized() && Chose(r.s, now) else r.s == s
  {
    StartProbeRestarts(s, now);
  }

  /** Evidence is old, or names an id that a packet or a hit report names in this step. */
  predicate HasCause(s: Station, e: Event, now: u32, c: u8, r: Step)
    requires s.Sized() && ValidId(c)
  {
    && r.s.Sized()
    && (r.s.seen[c] ==>
         || (s.seen[c] && r.s.seenMs[c] == s.seenMs[c])
         || (r.s.seenMs[c] == now && (e == Hit(c) || (Radio(e) && e.id == c))))
  }

  lemma EvidenceHasCause(s: Station, e: Event, now: u32, c: u8)
    requires StationOk(s) && ValidId(c)
    ensures HasCause(s, e, now, c, React(s, e, now))
  {
    hide OnProbe, OnBeacon, PickCandidate, U32;
    match e
    case Boot(_) =>
    case Clock =>
    case Hit(i) =>
    case ProbeFrom(src, i) => ProbeIsCause(s, src, i, now, c);
    case BeaconFrom(src, i) => BeaconIsCause(s, src, i, now, c);
  }

  lemma ProbeIsCause(s: Station, src: Mac, i: u8, now: u32, c: u8)
    requires s.Sized() && ValidId(c)
    ensures HasCause(s, ProbeFrom(src, i), now, c, OnProbe(s, src, i, now))
  {
    hide PickCandidate, U32, U8, MemcmpLess;
  }

  lemma BeaconIsCause(s: Station, src: Mac, i: u8, now: u32, c: u8)
    requires s.Sized() && ValidId(c)
    ensures HasCause(s, BeaconFrom(src, i), now, c, OnBeacon(s, src, i, now))
  {
    hide PickCandidate, U32, U8, MemcmpLess;
  }

  /** A listening station's deadline is old, or lies one listening or one retry time ahead. */
  lemma DeadlineHasCause(s: Station, e: Event, now: u32)
    requires s.Sized() && s.candidate <= 15
    ensures var r := React(s, e, now);
      r.s.state == Listen ==>
        || (s.state == Listen && r.s.listenUntil == s.listenUntil)
        || r.s.listenUntil == U32(now + T_LISTEN)
        || r.s.listenUntil == U32(now + T_RETRY)
  {
    hide MemcmpLess, U32, U8, PickCandidate, Elapsed, Reached;
  }

  // --- one step of a run -----------------------------------------------------------------------------

  /** Station x reacts to e with r on the way from w to w'. */
  ghost predicate Reacted(w: World, w': World, x: nat, e: Event, r: Step) {
    && WellFormed(w) && x < |w.st| && OnTime(w, w'.now)
    && r == React(w.st[x], e, U32(w'.now)) && w'.st == w.st[x := r.s]
    && |w'.since| == |w.since|
    && (forall i :: 0 <= i < |w.since| ==> w'.since[i] == if i == x && NewAttempt(r) then w'.now else w.since[i])
    && (forall f :: f in w'.air ==> f in w.air || NewFlight(w, x, r, f, w'.now))
    && (Radio(e) ==> exists f :: f in w.air && f.m.to == x && e == EventOf(w.st, f.m))
  }

  lemma StepIsReaction(w: World, w': World, x: nat, e: Event, r: Step)
    requires Reacted(w, w', x, e, r)
    ensures x < |w.st| && StationOk(w.st[x]) && w.st[x].Sized() && w.st[x].candidate <= 15
    ensures r == React(w.st[x], e, U32(w'.now))
  {
    hide React, OnTime, NewFlight, DistinctMacs;
  }

  lemma StepReacted(ws: seq<World>, mvs: seq<Move>, k: nat) returns (x: nat, e: Event, r: Step)
    requires Run(ws, mvs) && k < |mvs| && !mvs[k].Join?
    ensures Reacted(ws[k], ws[k + 1], x, e, r) && ws[k + 1].now == mvs[k].t
    ensures mvs[k].Act? ==> x == mvs[k].j && e == mvs[k].e
    ensures mvs[k].Deliver? ==> Radio(e)
  {
    hide Inv, Happens, Absorb, Next, Steps, React, OnTime;
    RunKeepsInv(ws, mvs, k);
    InvIsSound(ws[k]);
    var rest;
    x, e, r, rest := MoveHappens(ws[k], mvs[k]);
    OthersStay(ws[k], x, e, r, rest, mvs[k].t);
    NewsOnly(ws[k], x, e, r, rest, mvs[k].t);
  }

  lemma NewsOnly(w: World, x: nat, e: Event, r: Step, rest: seq<Flight>, t: nat)
    requires Happens(w, x, e, r, rest, t)
    ensures OnTime(w, t)
    ensures forall f :: f in Absorb(w, x, r, rest, t).air ==> f in w.air || NewFlight(w, x, r, f, t)
  {
    hide Steps;
    AirAfter(w, x, e, r, rest, t);
  }

  lemma RunIsSound(ws: seq<World>, mvs: seq<Move>, k: nat)
    requires Run(ws, mvs) && k < |ws|
    ensures WellFormed(ws[k])
  {
    hide WellFormed;
    RunKeepsInv(ws, mvs, k);
    InvIsSound(ws[k]);
  }

  lemma {:induction false} TimeGrows(ws: seq<World>, mvs: seq<Move>, k: nat, l: nat)
    requires Run(ws, mvs) && k <= l < |ws|
    ensures ws[k].now <= ws[l].now
  {
    hide Enabled, Next, WellFormed;
    if k < l {
      TimeGrows(ws, mvs, k, l - 1);
      TimeStep(ws, mvs, l - 1);
    }
  }

  lemma TimeStep(ws: seq<World>, mvs: seq<Move>, k: nat)
    requires Run(ws, mvs) && k < |mvs|
    ensures ws[k].now <= ws[k + 1].now == mvs[k].t
  {
    hide WellFormed;
    RunIsSound(ws, mvs, k);
    if !mvs[k].Join? { var x, e, r := StepReacted(ws, mvs, k); }
  }

  lemma JoinAdds(ws: seq<World>, mvs: seq<Move>, k: nat)
    requires Run(ws, mvs) && k < |mvs| && mvs[k].Join?
    ensures Joined(ws[k], ws[k + 1], ws[k + 1].now)
    ensures forall c: u8 :: ValidId(c) ==> !ws[k + 1].st[|ws[k].st|].seen[c]
  {
    hide Joined;
    RunIsSound(ws, mvs, k);
    JoinIsJoined(ws[k], mvs[k].mac, mvs[k].preferred, mvs[k].t);
    assert Joined(ws[k], ws[k + 1], mvs[k].t);
    hide WellFormed, OnTime;
  }

  // --- where packets, evidence and deadlines come from -------------------------------------------------

  lemma StepSends(w: World, w': World, x: nat, e: Event, r: Step, f: Flight)
    requires Reacted(w, w', x, e, r) && f in w'.air
    ensures x < |w.st| == |w'.st|
    ensures f in w.air || (f.at == w'.now && f.m.from == x &&
              if f.m.kind == TxProbe then w'.st[x].Probes(f.m.id) else w'.st[x].Holds(f.m.id))
  {
    hide React, OnTime, WellFormed;
  }

  /** A probe in the air was sent by a station that probed the id when it sent it. */
  lemma {:induction false} ProbeHasSender(ws: seq<World>, mvs: seq<Move>, k: nat, f: Flight) returns (p: nat)
    requires Run(ws, mvs) && k < |ws| && f in ws[k].air
    ensures p <= k && ws[p].now == f.at && f.m.from < |ws[p].st|
    ensures if f.m.kind == TxProbe then ws[p].st[f.m.from].Probes(f.m.id) else ws[p].st[f.m.from].Holds(f.m.id)
  {
    hide WellFormed, Enabled, Next, Reacted;
    assert k > 0;
    if mvs[k - 1].Join? {
      JoinAdds(ws, mvs, k - 1);
      p := ProbeHasSender(ws, mvs, k - 1, f);
    } else {
      var x, e, r := StepReacted(ws, mvs, k - 1);
      StepSends(ws[k - 1], ws[k], x, e, r, f);
      if f in ws[k - 1].air {
        p := ProbeHasSender(ws, mvs, k - 1, f);
      } else {
        p := k;
      }
    }
  }

  /** From state k0 on nobody boots or joins and no hit is reported. */
  ghost predicate Calm(ws: seq<World>, mvs: seq<Move>, k0: nat) {
    && |ws| == |mvs| + 1 && k0 < |ws|
    && forall q :: k0 <= q < |mvs| ==> mvs[q].Deliver? || (mvs[q].Act? && mvs[q].e == Clock)
  }

  lemma CalmStep(ws: seq<World>, mvs: seq<Move>, k0: nat, k: nat) returns (x: nat, e: Event, r: Step)
    requires Run(ws, mvs) && Calm(ws, mvs, k0) && k0 <= k < |mvs|
    ensures Reacted(ws[k], ws[k + 1], x, e, r) && (e == Clock || Radio(e)) && WellFormed(ws[k + 1])
    ensures mvs[k].Act? ==> x == mvs[k].j && e == Clock
    ensures ws[k + 1].now == mvs[k].t
  {
    hide Reacted, Enabled, Next, WellFormed;
    RunIsSound(ws, mvs, k + 1);
    x, e, r := StepReacted(ws, mvs, k);
  }

  /** Evidence was noted at time v; after k0, because station j had just claimed the id on the air. */
  ghost predicate Sourced(ws: seq<World>, k0: nat, k: nat, i: nat, c: u8, v: nat, p: nat, j: nat)
    requires k0 < |ws| && k < |ws| && i < |ws[k].st| && ws[k].st[i].Sized() && c <= 15
  {
    && ws[k].st[i].seenMs[c] == U32(v) && ws[0].now <= v <= ws[k].now
    && (v > ws[k0].now ==>
         p <= k && ws[p].now <= v < ws[p].now + T_PROBE && j < |ws[p].st| && Claims(ws[p].st[j], c))
  }

  predicate Claims(s: Station, c: u8) {
    s.Probes(c) || s.Holds(c)
  }

  lemma {:induction false} EvidenceHasSource(ws: seq<World>, mvs: seq<Move>, k0: nat, k: nat, i: nat, c: u8)
    returns (v: nat, p: nat, j: nat)
    requires Run(ws, mvs) && Calm(ws, mvs, k0) && k < |ws| && i < |ws[k].st| && ValidId(c)
    requires ws[k].st[i].Sized() && ws[k].st[i].seen[c]
    ensures Sourced(ws, k0, k, i, c, v, p, j)
  {
    hide WellFormed, Claims, Reacted, Enabled, Next;
    assert k > 0;
    RunIsSound(ws, mvs, k - 1);
    TimeStep(ws, mvs, k - 1);
    if mvs[k - 1].Join? {
      JoinAdds(ws, mvs, k - 1);
      v, p, j := EvidenceHasSource(ws, mvs, k0, k - 1, i, c);
    } else {
      var x, e, r := StepReacted(ws, mvs, k - 1);
      StepKeepsStations(ws[k - 1], ws[k], x, e, r);
      StepHasCause(ws[k - 1], ws[k], x, e, r, c);
      if i != x || (ws[k - 1].st[i].seen[c] && ws[k].st[i].seenMs[c] == ws[k - 1].st[i].seenMs[c]) {
        v, p, j := EvidenceHasSource(ws, mvs, k0, k - 1, i, c);
      } else {
        v, p, j := ws[k].now, 0, 0;
        TimeGrows(ws, mvs, 0, k);
        if Radio(e) {
          p, j := PacketHasSource(ws, mvs, k - 1, x, e, r);
        } else {
          TimeGrows(ws, mvs, k, k0);
        }
      }
    }
  }

  lemma StepHasCause(w: World, w': World, x: nat, e: Event, r: Step, c: u8)
    requires Reacted(w, w', x, e, r) && ValidId(c)
    ensures x < |w.st| && w.st[x].Sized()
    ensures HasCause(w.st[x], e, U32(w'.now), c, r)
  {
    hide Reacted, React, HasCause, StationOk;
    StepIsReaction(w, w', x, e, r);
    EvidenceHasCause(w.st[x], e, U32(w'.now), c);
  }

  lemma SoundSize(w: World)
    requires WellFormed(w)
    ensures forall i :: 0 <= i < |w.st| ==> StationOk(w.st[i]) && w.st[i].Sized()
    ensures |w.st| == |w.since|
  {
  }

  /** The packet a station reacts to. */
  lemma PacketOf(w: World, w': World, x: nat, e: Event, r: Step) returns (f: Flight)
    requires Reacted(w, w', x, e, r) && Radio(e)
    ensures f in w.air && f.m.from < |w.st| && f.m.id == e.id && f.at <= w.now <= w'.now < f.at + T_PROBE
    ensures e.ProbeFrom? <==> f.m.kind == TxProbe
    ensures e.src == w.st[f.m.from].mac
  {
    hide React, MacValue, AllOk, DistinctMacs, NewFlight;
    f :| f in w.air && f.m.to == x && e == EventOf(w.st, f.m);
  }

  /** Whoever sent that packet claimed its id less than 150 ms ago. */
  lemma PacketHasSource(ws: seq<World>, mvs: seq<Move>, k: nat, x: nat, e: Event, r: Step) returns (p: nat, j: nat)
    requires Run(ws, mvs) && k + 1 < |ws| && Reacted(ws[k], ws[k + 1], x, e, r) && Radio(e)
    ensures p <= k && ws[p].now <= ws[k + 1].now < ws[p].now + T_PROBE
    ensures j < |ws[p].st| && Claims(ws[p].st[j], e.id)
  {
    hide Run, Reacted, WellFormed;
    var f := PacketOf(ws[k], ws[k + 1], x, e, r);
    p := ProbeHasSender(ws, mvs, k, f);
    j := f.m.from;
  }

  lemma WrapAdd(t: nat, wait: nat)
    ensures U32(U32(t) + wait) == U32(t + wait)
  {
  }

  /** A deadline that is new was set for a listening or a retry time ahead. */
  lemma StepSetsDeadline(w: World, w': World, x: nat, e: Event, r: Step) returns (d: nat)
    requires Reacted(w, w', x, e, r) && r.s.state == Listen
    requires !(w.st[x].state == Listen && r.s.listenUntil == w.st[x].listenUntil)
    ensures r.s.listenUntil == U32(d) && w'.now <= d <= w'.now + T_RETRY
  {
    hide Reacted, React, U32, StationOk;
    StepIsReaction(w, w', x, e, r);
    DeadlineHasCause(w.st[x], e, U32(w'.now));
    WrapAdd(w'.now, T_LISTEN);
    WrapAdd(w'.now, T_RETRY);
    d := if r.s.listenUntil == U32(w'.now + T_LISTEN) then w'.now + T_LISTEN else w'.now + T_RETRY;
  }

  /** A station that listens does so for at most 30 s more. */
  lemma {:induction false} DeadlineIsNear(ws: seq<World>, mvs: seq<Move>, k: nat, i: nat) returns (d: nat)
    requires Run(ws, mvs) && k < |ws| && i < |ws[k].st| && ws[k].st[i].state == Listen
    ensures ws[k].st[i].listenUntil == U32(d) && ws[0].now <= d <= ws[k].now + T_RETRY
  {
    hide WellFormed, Reacted, Enabled, Next, U32;
    assert k > 0;
    TimeStep(ws, mvs, k - 1);
    TimeGrows(ws, mvs, 0, k);
    if mvs[k - 1].Join? {
      JoinAdds(ws, mvs, k - 1);
      if i < |ws[k - 1].st| {
        d := DeadlineIsNear(ws, mvs, k - 1, i);
      } else {
        d := ws[k].now + T_LISTEN;
      }
    } else {
      var x, e, r := StepReacted(ws, mvs, k - 1);
      StepKeepsStations(ws[k - 1], ws[k], x, e, r);
      if i != x || (ws[k - 1].st[i].state == Listen && ws[k].st[i].listenUntil == ws[k - 1].st[i].listenUntil) {
        d := DeadlineIsNear(ws, mvs, k - 1, i);
      } else {
        d := StepSetsDeadline(ws[k - 1], ws[k], x, e, r);
      }
    }
  }

  // --- a claim is decided ------------------------------------------------------------------------------

  ghost predicate Taken(w: World, c: u8) {
    exists i :: 0 <= i < |w.st| && w.st[i].Holds(c)
  }

  /** In calm times the stations stay the same and keep what they hold. */
  lemma {:induction false} StationsStay(ws: seq<World>, mvs: seq<Move>, k0: nat, k: nat)
    requires Run(ws, mvs) && Calm(ws, mvs, k0) && k0 <= k < |ws|
    ensures |ws[k].st| == |ws[k0].st| && forall i :: 0 <= i < |ws[k].st| ==> ws[k].st[i].mac == ws[k0].st[i].mac
  {
    hide WellFormed, Reacted, Enabled, Next;
    if k0 < k {
      StationsStay(ws, mvs, k0, k - 1);
      var x, e, r := CalmStep(ws, mvs, k0, k - 1);
      StepKeepsStations(ws[k - 1], ws[k], x, e, r);
    }
  }

  lemma StepKeepsStations(w: World, w': World, x: nat, e: Event, r: Step)
    requires Reacted(w, w', x, e, r)
    ensures x < |w.st| == |w.since| && |w'.st| == |w.st| == |w'.since| && w'.st[x] == r.s
    ensures forall i :: 0 <= i < |w.st| ==> w'.st[i].mac == w.st[i].mac
    ensures forall i :: 0 <= i < |w.st| && i != x ==> w'.st[i] == w.st[i] && w'.since[i] == w.since[i]
    ensures !NewAttempt(r) ==> w'.since[x] == w.since[x]
    ensures WellFormed(w) && OnTime(w, w'.now)
  {
    hide React, Reaction, OnTime, NewFlight, NewAttempt;
    SoundSize(w);
    ReactIsReaction(w.st[x], e, U32(w'.now));
    ReactionIsSound(w.st[x], e, r);
  }

  lemma TakenStays(ws: seq<World>, mvs: seq<Move>, k0: nat, k: nat, l: nat, c: u8)
    requires Run(ws, mvs) && Calm(ws, mvs, k0) && k0 <= k <= l < |ws| && Taken(ws[k], c)
    ensures Taken(ws[l], c)
  {
    hide Run;
    var i :| 0 <= i < |ws[k].st| && ws[k].st[i].Holds(c);
    HeldIdIsKept(ws, mvs, k, l, i, c);
    assert ws[l].st[i].Holds(c);
  }

  /** A beacon sent in calm times speaks for an id that is still held. */
  lemma BeaconIsTrue(ws: seq<World>, mvs: seq<Move>, k0: nat, k: nat, f: Flight)
    requires Run(ws, mvs) && Calm(ws, mvs, k0) && k0 <= k < |ws|
    requires f in ws[k].air && f.m.kind == TxBeacon && f.at > ws[k0].now
    ensures Taken(ws[k], f.m.id)
  {
    hide Run;
    var p := ProbeHasSender(ws, mvs, k, f);
    if p < k0 { TimeGrows(ws, mvs, p, k0); }
    assert ws[p].st[f.m.from].Holds(f.m.id);
    TakenStays(ws, mvs, k0, p, k, f.m.id);
  }

  /** The station knows of a claim on every id of D, not older than b. */
  ghost predicate Knowing(s: Station, D: set<u8>, b: nat, now: nat)
    requires s.Sized()
  {
    forall c :: c in D ==> ValidId(c) && exists v: nat :: b <= v <= now && NotedAt(s, c, v)
  }

  lemma KnowingStays(ws: seq<World>, mvs: seq<Move>, k0: nat, k: nat, i: nat, D: set<u8>, b: nat)
    requires Run(ws, mvs) && Calm(ws, mvs, k0) && k0 <= k < |mvs| && i < |ws[k].st|
    requires ws[k].st[i].Sized() && Knowing(ws[k].st[i], D, b, ws[k].now) && b <= ws[k].now
    ensures i < |ws[k + 1].st| && ws[k + 1].st[i].Sized()
    ensures ws[k + 1].st[i].state != Held ==> Knowing(ws[k + 1].st[i], D, b, ws[k + 1].now)
  {
    hide OnTime, React, Run, NewFlight;
    var x, e, r := CalmStep(ws, mvs, k0, k);
    TimeStep(ws, mvs, k);
    SoundSize(ws[k]);
    SoundSize(ws[k + 1]);
    if i == x && r.s.state != Held {
      NotesStay(ws[k].st[x], e, ws[k].now, ws[k + 1].now, D, b);
    }
  }

  lemma NotesStay(s: Station, e: Event, now: nat, t: nat, D: set<u8>, b: nat)
    requires StationOk(s) && !e.Boot? && b <= now <= t && Knowing(s, D, b, now)
    ensures var r := React(s, e, U32(t));
      r.s.Sized() && (r.s.state != Held ==> Knowing(r.s, D, b, t))
  {
    hide React, U32, Reaction;
    ReactSteps(s, e, U32(t));
    var r := React(s, e, U32(t));
    assert r.s.Sized() by { ReactionIsSound(s, e, r); }
    if r.s.state != Held {
      forall c | c in D ensures ValidId(c) && exists v: nat :: b <= v <= t && NotedAt(r.s, c, v) {
        var v: nat :| b <= v <= now && NotedAt(s, c, v);
        assert NotedAt(r.s, c, v) || NotedAt(r.s, c, t);
      }
    }
  }

  /** Every attempt ends within 3 s; what the station knew before, it still knows. */
  lemma {:induction false} AttemptEnds(ws: seq<World>, mvs: seq<Move>, k0: nat, k: nat, l: nat,
                                       i: nat, c: u8, D: set<u8>, b: nat)
    returns (q: nat, e: Event, r: Step)
    requires Run(ws, mvs) && Calm(ws, mvs, k0) && k0 <= k < l < |ws|
    requires i < |ws[k].st| == |ws[k].since| && ws[k].st[i].Probes(c) && ws[l].now >= ws[k].since[i] + T_LISTEN
    requires ws[k].st[i].Sized() && Knowing(ws[k].st[i], D, b, ws[k].now) && b <= ws[k].now
    ensures k <= q < l && i < |ws[q].st| == |ws[q].since| && ws[q].st[i].Probes(c)
    ensures ws[q].since[i] == ws[k].since[i]
    ensures Reacted(ws[q], ws[q + 1], i, e, r) && (e == Clock || Radio(e)) && !r.s.Probes(c)
    ensures ws[q + 1].now < ws[k].since[i] + T_LISTEN
    ensures r.s.Sized() && (r.s.state != Held ==> Knowing(r.s, D, b, ws[q + 1].now))
    decreases l - k
  {
    hide WellFormed, Reacted, Run, AllPaced, Defended, Unique, Knowing;
    RunPaced(ws, mvs, k);
    var x, e0, r0 := CalmStep(ws, mvs, k0, k);
    SoundSize(ws[k]);
    SoundSize(ws[k + 1]);
    KnowingStays(ws, mvs, k0, k, i, D, b);
    ProbingOn(ws[k], ws[k + 1], i, x, c, e0, r0);
    AttemptLength(ws[k], i, ws[k + 1].now);
    if ws[k + 1].st[i].Probes(c) {
      q, e, r := AttemptEnds(ws, mvs, k0, k + 1, l, i, c, D, b);
    } else {
      q, e, r := k, e0, r0;
    }
  }

  lemma RunPaced(ws: seq<World>, mvs: seq<Move>, k: nat)
    requires Run(ws, mvs) && k < |ws|
    ensures WellFormed(ws[k]) && AllPaced(ws[k]) && Defended(ws[k]) && Unique(ws[k])
  {
    hide WellFormed, AllPaced, Defended, Unique, Run;
    RunKeepsInv(ws, mvs, k);
    InvIsSound(ws[k]);
  }

  /** A station that still probes c makes the same attempt. */
  lemma ProbingOn(w: World, w': World, i: nat, x: nat, c: u8, e: Event, r: Step)
    requires Reacted(w, w', x, e, r) && (e == Clock || Radio(e)) && ValidId(c) && i < |w.st| && w.st[i].Probes(c)
    ensures i < |w'.st| == |w.since| == |w'.since| && OnTime(w, w'.now)
    ensures w'.st[i].Probes(c) ==> w'.since[i] == w.since[i]
    ensures !w'.st[i].Probes(c) ==> x == i && r.s == w'.st[i]
  {
    hide React, Reacted, NewAttempt;
    StepKeepsStations(w, w', x, e, r);
    if i == x { ProbingIsOld(w, w', x, c, e, r); }
  }

  lemma ProbingIsOld(w: World, w': World, x: nat, c: u8, e: Event, r: Step)
    requires Reacted(w, w', x, e, r) && (e == Clock || Radio(e)) && ValidId(c) && w.st[x].Probes(c)
    ensures r.s.Probes(c) ==> !NewAttempt(r)
  {
    hide Reacted, React, NewAttempt;
    StepIsReaction(w, w', x, e, r);
    ProbingReacts(w.st[x], c, e, U32(w'.now));
  }

  /** S holds every station that can win id c against station i, and i itself. */
  ghost predicate Rivals(w: World, i: nat, S: set<nat>) {
    && i < |w.st| && i in S
    && forall j :: 0 <= j < |w.st| && MacValue(w.st[j].mac) < MacValue(w.st[i].mac) ==> j in S
  }

  lemma SomeRival(w: World, i: nat, S: set<nat>)
    requires Rivals(w, i, S)
    ensures i < |w.st| && |S| > 0
  {
  }

  lemma SmallerRival(w: World, i: nat, j: nat, S: set<nat>)
    requires Rivals(w, i, S) && j < |w.st| && MacValue(w.st[j].mac) < MacValue(w.st[i].mac)
    ensures Rivals(w, j, S - {i}) && |S - {i}| == |S| - 1
  {
    hide MacValue;
  }

  lemma KnowsNothing(s: Station, now: nat)
    requires s.Sized()
    ensures Knowing(s, {}, now, now)
  {
  }

  /**
   A prober is beaten for its candidate only by a holder or by a smaller prober, which in turn holds
   it or is beaten: in the end somebody holds the id.
   */
  lemma {:induction false} ClaimIsTaken(ws: seq<World>, mvs: seq<Move>, k0: nat, k: nat, l: nat,
                                        i: nat, c: u8, S: set<nat>)
    requires Run(ws, mvs) && Calm(ws, mvs, k0) && k0 <= k < |ws| && l < |ws| && Rivals(ws[k0], i, S)
    requires i < |ws[k].st| && ws[k].st[i].Probes(c)
    requires ws[k].now >= ws[k0].now + T_PROBE * |S| && ws[l].now >= ws[k].now + T_LISTEN * |S|
    ensures Taken(ws[l], c)
    decreases |S|
  {
    hide WellFormed, Reacted, AllPaced, Defended, Unique, Run, Taken, MacValue, Chose, FreshNote, Knowing, Rivals;
    SomeRival(ws[k0], i, S);
    if l <= k { TimeGrows(ws, mvs, l, k); }
    RunPaced(ws, mvs, k);
    SoundSize(ws[k]);
    SinceIsPast(ws[k], i);
    KnowsNothing(ws[k].st[i], ws[k].now);
    var q, e, r := AttemptEnds(ws, mvs, k0, k, l, i, c, {}, ws[k].now);
    StepKeepsStations(ws[q], ws[q + 1], i, e, r);
    StepEndsProbe(ws[q], ws[q + 1], i, c, e, r);
    TimeGrows(ws, mvs, k, q + 1);
    if r.s.Holds(c) {
      HolderTakes(ws[q + 1], i, c);
      TakenStays(ws, mvs, k0, q + 1, l, c);
    } else {
      var f := PacketOf(ws[q], ws[q + 1], i, e, r);
      if f.m.kind == TxBeacon {
        BeaconIsTrue(ws, mvs, k0, q, f);
        TakenStays(ws, mvs, k0, q, l, c);
      } else {
        var p := ProbeHasSender(ws, mvs, q, f);
        TimeGrows(ws, mvs, p, q + 1);
        if p < k0 { TimeGrows(ws, mvs, p, k0); }
        StationsStay(ws, mvs, k0, q);
        SmallerRival(ws[k0], i, f.m.from, S);
        ClaimIsTaken(ws, mvs, k0, p, l, f.m.from, c, S - {i});
      }
    }
  }

  lemma StepEndsProbe(w: World, w': World, i: nat, c: u8, e: Event, r: Step)
    requires Reacted(w, w', i, e, r) && (e == Clock || Radio(e)) && w.st[i].Probes(c)
    ensures ValidId(c) && r.s.Sized() && ProbeEnds(w.st[i], c, e, U32(w'.now), r)
  {
    hide Reacted, React, ProbeEnds;
    StepIsReaction(w, w', i, e, r);
    ProbingReacts(w.st[i], c, e, U32(w'.now));
  }

  lemma SinceIsPast(w: World, i: nat)
    requires WellFormed(w) && AllPaced(w) && i < |w.st| && w.st[i].state == Probe
    ensures w.since[i] <= w.now
  {
    assert Paced(w, i) && StationOk(w.st[i]);
  }

  lemma HolderTakes(w: World, i: nat, c: u8)
    requires i < |w.st| && w.st[i].Holds(c)
    ensures Taken(w, c)
  {
  }

  /** An attempt on a held id is over within 300 ms: the holder answers the first probe. */
  lemma HeldClaimEnds(ws: seq<World>, mvs: seq<Move>, k0: nat, k: nat, l: nat, i: nat, c: u8, D: set<u8>, b: nat)
    returns (q: nat)
    requires Run(ws, mvs) && Calm(ws, mvs, k0) && k0 <= k < |ws| && l < |ws|
    requires i < |ws[k].st| && ws[k].st[i].Probes(c) && Taken(ws[k], c) && ws[l].now >= ws[k].now + T_LISTEN
    requires ws[k].st[i].Sized() && Knowing(ws[k].st[i], D, b, ws[k].now) && b <= ws[k].now
    ensures k < q <= l && ws[q].now <= ws[k].now + 2 * T_PROBE && i < |ws[q].st| && ws[q].st[i].Sized()
    ensures Chose(ws[q].st[i], U32(ws[q].now)) && Knowing(ws[q].st[i], D + {c}, b, ws[q].now)
  {
    hide WellFormed, OnTime, React, Run, NewFlight, Inv, MacValue, Calm, Defended, Unique, NewAttempt, Knowing;
    if l <= k { TimeGrows(ws, mvs, l, k); }
    RunPaced(ws, mvs, k);
    SoundSize(ws[k]);
    SinceIsPast(ws[k], i);
    var p, e, r := AttemptEnds(ws, mvs, k0, k, l, i, c, D, b);
    q := p + 1;
    RunPaced(ws, mvs, p);
    RunPaced(ws, mvs, q);
    SoundSize(ws[p]);
    var a :| 0 <= a < |ws[k].st| && ws[k].st[a].Holds(c);
    KeepsHolding(ws, mvs, k0, k, p, a, c);
    KeepsHolding(ws, mvs, k0, k, q, a, c);
    AnswerIsFast(ws[p], a, i, c, ws[q].now);
    NotBoth(ws[q], a, i, c);
    ProbingReacts(ws[p].st[i], c, e, U32(ws[q].now));
    TimeGrows(ws, mvs, k, q);
    KnowsMore(r.s, D, c, b, ws[q].now);
  }

  lemma KeepsHolding(ws: seq<World>, mvs: seq<Move>, k0: nat, k: nat, l: nat, a: nat, c: u8)
    requires Run(ws, mvs) && Calm(ws, mvs, k0) && k0 <= k <= l < |ws| && a < |ws[k].st| && ws[k].st[a].Holds(c)
    ensures a < |ws[l].st| && ws[l].st[a].Holds(c)
  {
    hide Run;
    HeldIdIsKept(ws, mvs, k, l, a, c);
  }

  lemma AnswerIsFast(w: World, a: nat, i: nat, c: u8, t: nat)
    requires WellFormed(w) && Defended(w) && OnTime(w, t)
    requires a < |w.st| && i < |w.st| && w.st[a].Holds(c) && w.st[i].Probes(c)
    ensures t < w.since[i] + 2 * T_PROBE
  {
    assert Answered(w, a, i, c);
  }

  lemma NotBoth(w: World, a: nat, i: nat, c: u8)
    requires Unique(w) && a < |w.st| && i < |w.st| && w.st[a].Holds(c) && a != i
    ensures !w.st[i].Holds(c)
  {
  }

  lemma KnowsMore(s: Station, D: set<u8>, c: u8, b: nat, now: nat)
    requires s.Sized() && ValidId(c) && b <= now && Knowing(s, D, b, now) && FreshNote(s, c, U32(now))
    ensures Knowing(s, D + {c}, b, now)
  {
    hide U32;
    assert NotedAt(s, c, now);
  }
}
