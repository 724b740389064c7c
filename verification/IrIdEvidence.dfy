/**
 What a station does with what it hears: every packet and every hit report that names an id is
 evidence against it, and an attempt is always made on the id the documented rule chooses. One
 station, any sequence of events, true times.
 */
module IrIdEvidence {
  import opened Words
  import opened IrIdStation
  import opened IrIdReaction
  import opened IrIdTimed
  import opened IrIdTrace

  /** An event that shows another station using id c. */
  predicate Names(e: Event, c: u8, mac: Mac) {
    match e
    case Boot(_) => false
    case Clock => false
    case Hit(i) => i == c
    case ProbeFrom(src, i) => i == c && src != mac
    case BeaconFrom(src, i) => i == c && src != mac
  }

  /** Whatever names an id makes it occupied, unless the station itself holds it afterwards. */
  lemma HeardIsEvidence(s: Station, e: Event, now: u32, c: u8)
    requires StationOk(s) && ValidId(c) && Names(e, c, s.mac)
    ensures var r := React(s, e, now).s;
      r.Sized() && (r.Holds(c) || (r.seen[c] && r.seenMs[c] == now && r.IsOccupied(c, now)))
  {
    hide React, Reaction;
    ReactSteps(s, e, now);
    assert React(s, e, now).s.Sized() by { ReactIsSound(s, e, now); }
  }

  /** A hit report is evidence in every state, for every id but the station's own. */
  lemma HitIsEvidence(s: Station, i: u8, now: u32)
    requires StationOk(s) && ValidId(i) && i != s.id
    ensures var r := React(s, Hit(i), now).s;
      r.Sized() && r.seen[i] && r.seenMs[i] == now && r.IsOccupied(i, now) && !r.Holds(i) && !r.Probes(i)
  {
    hide Restarted, PickCandidate;
    HeardIsEvidence(s, Hit(i), now, i);
    if s.state == Probe { StartProbeRestarts(Note(s, i, now), now); ChosenIsFree(Note(s, i, now), now, i); }
  }

  lemma ChosenIsFree(s: Station, now: u32, i: u8)
    requires s.Sized() && s.preferred <= 15 && s.id == 0 && ValidId(i) && s.IsOccupied(i, now)
    ensures !StartProbe(s, now).s.Probes(i)
  {
    PickCandidateRule(s, now);
  }

  /** What names no id of another station leaves no trace: own packets, and ids outside 1..15. */
  lemma OthersOnly(s: Station, e: Event, now: u32)
    requires StationOk(s) && !e.Boot? && e != Clock
    requires !(1 <= e.id <= 15) || (e.Hit? && e.id == s.id) || (!e.Hit? && e.src == s.mac)
    ensures React(s, e, now) == Step(s, [])
  {
  }

  /** Between its ticks a station speaks only when the id that it holds or probes is named. */
  lemma SpeaksWhenNamed(s: Station, e: Event, now: u32)
    requires StationOk(s) && e != Clock && React(s, e, now).tx != []
    ensures !e.Boot? && (s.Holds(e.id) || s.Probes(e.id)) && Names(e, e.id, s.mac)
  {
    hide StartProbe, MemcmpLess;
  }

  // --- evidence over a whole history ----------------------------------------------------------------

  /** Event n begins an attempt on c. */
  predicate Begins(h: History, n: nat, c: u8)
    requires h.Sized() && n < |h.ev| && StationOk(h.ss[n])
  {
    IsProbe(h.Sent(n), c) && h.ss[n + 1].probesSent == 1
  }

  /** No boot among events p..n. */
  predicate NoBoot(h: History, p: nat, n: nat)
    requires n < |h.ev|
  {
    forall k :: p <= k <= n ==> !h.ev[k].e.Boot?
  }

  /** What event n does, on true times. */
  lemma EventSteps(h: History, n: nat) returns (s: Station, r: Step)
    requires h.Valid() && n < |h.ev|
    ensures StationOk(h.ss[n]) && s == h.ss[n] && r.s == h.ss[n + 1] && r.tx == h.Sent(n)
    ensures s.Sized() && r.s.Sized() && StationOk(r.s) && Steps(s, h.ev[n].e, U32(h.ev[n].t), r)
  {
    hide React, Reaction, Steps, StationOk;
    StationsAreOk(h, n);
    OneStep(h, n);
    s := h.ss[n];
    OkIsSized(s);
    r := React(s, h.ev[n].e, U32(h.ev[n].t));
    ReactSteps(s, h.ev[n].e, U32(h.ev[n].t));
    ReactIsSound(s, h.ev[n].e, U32(h.ev[n].t));
    OkIsSized(r.s);
  }

  lemma OkIsSized(s: Station)
    requires StationOk(s)
    ensures s.Sized() && s.candidate <= 15
  {
  }

  /** The station holds c, or has a note of it made between the two times. */
  ghost predicate Remembers(s: Station, c: u8, since: nat, until: nat)
    requires s.Sized() && c <= 15
  {
    s.Holds(c) || exists v: nat :: since <= v <= until && NotedAt(s, c, v)
  }

  lemma {:induction false} EvidenceIsRemembered(h: History, p: nat, n: nat, c: u8)
    requires h.Valid() && p <= n < |h.ev| && ValidId(c) && NoBoot(h, p, n) && Names(h.ev[p].e, c, h.ss[p].mac)
    ensures h.ss[n + 1].Sized() && Remembers(h.ss[n + 1], c, h.ev[p].t, h.ev[n].t)
  {
    hide React, Reaction, StationOk, U32, KeepsListening, ProbesOn;
    var s, r := EventSteps(h, n);
    if n == p {
      assert r.s.Holds(c) || NotedAt(r.s, c, h.ev[n].t);
    } else {
      EvidenceIsRemembered(h, p, n - 1, c);
      if !s.Holds(c) && !r.s.Holds(c) {
        var v: nat :| h.ev[p].t <= v <= h.ev[n - 1].t && NotedAt(s, c, v);
        assert NotedAt(r.s, c, v) || NotedAt(r.s, c, h.ev[n].t);
      } else if !r.s.Holds(c) {
        assert NotedAt(r.s, c, h.ev[n].t);
      }
    }
  }

  /**
   For 8000 ms after a packet or a hit report named an id, no attempt on that id begins, across
   clock wrap.
   */
  lemma HeardIdIsAvoided(h: History, p: nat, n: nat, c: u8)
    requires h.Valid() && p <= n < |h.ev| && ValidId(c) && NoBoot(h, p, n) && Names(h.ev[p].e, c, h.ss[p].mac)
    requires h.ev[n].t - h.ev[p].t < 8000
    ensures StationOk(h.ss[n]) && !Begins(h, n, c)
  {
    hide React, Reaction, U32, KeepsListening, KeepsEvidence;
    var s, r := EventSteps(h, n);
    EvidenceIsRemembered(h, p, n, c);
    if Begins(h, n, c) {
      SentMeansProbing(s, h.ev[n].e, r, c);
      var v: nat :| h.ev[p].t <= v <= h.ev[n].t && NotedAt(r.s, c, v);
      NotedIsOccupied(r.s, c, v, h.ev[n].t);
      assert false;
    }
  }

  lemma SentMeansProbing(s: Station, e: Event, r: Step, c: u8)
    requires Reaction(s, e, r) && IsProbe(r.tx, c)
    ensures r.s.Probes(c) && !r.s.Holds(c)
  {
    assert Tx(TxProbe, c, Broadcast) in r.tx;
  }

  // --- the id an attempt is made on ---------------------------------------------------------------------

  /** c is what the documented rule chooses on the evidence of s. */
  ghost predicate Chosen(s: Station, preferred: u8, c: u8, now: u32)
    requires s.Sized()
  {
    && ValidId(c) && !s.IsOccupied(c, now)
    && if ValidId(preferred) && !s.IsOccupied(preferred, now) then c == preferred
       else exists j :: 0 <= j < 15 && c == ScanFrom(s.mac[5], j) &&
              forall i :: 0 <= i < j ==> s.IsOccupied(ScanFrom(s.mac[5], i), now)
  }

  /** The j-th id after the one that the last byte of the address gives, cyclically among 1..15. */
  function ScanFrom(last: u8, j: nat): u8 {
    (last + j) % 15 + 1
  }

  lemma ScansAlike(mac: Mac, j: nat)
    ensures ScanId(mac, j) == ScanFrom(mac[5], j)
  {
  }

  lemma StartsOnChosen(s: Station, now: u32)
    requires s.Sized() && s.preferred <= 15 && s.id == 0
    ensures var r := StartProbe(s, now).s;
      r.Sized() && (r.state == Probe ==> Chosen(r, s.preferred, r.candidate, now))
  {
    hide ScanId, ScanFrom, Elapsed;
    PickCandidateRule(s, now);
    forall j: nat ensures ScanId(s.mac, j) == ScanFrom(s.mac[5], j) { ScansAlike(s.mac, j); }
    assert StartProbe(s, now).s.seen == s.seen && StartProbe(s, now).s.seenMs == s.seenMs;
    forall i: u8 ensures StartProbe(s, now).s.IsOccupied(i, now) == s.IsOccupied(i, now) {}
  }

  /** What an event does to the choice: it keeps the preference, and a new attempt follows the rule. */
  ghost predicate KeepsRule(s: Station, now: u32, r: Step)
    requires r.s.Sized()
  {
    && r.s.preferred == s.preferred
    && (NewAttempt(r) ==> Chosen(r.s, s.preferred, r.s.candidate, now))
  }

  lemma ReactKeepsRule(s: Station, e: Event, now: u32)
    requires StationOk(s) && !e.Boot?
    ensures React(s, e, now).s.Sized() && KeepsRule(s, now, React(s, e, now))
  {
    hide StartProbe, Chosen, OnProbe, OnBeacon, Elapsed, Reached;
    match e
    case Clock => if s.state == Listen { StartKeepsRule(s, now); }
    case Hit(i) => if s.state == Probe { StartKeepsRule(Note(s, i, now), now); }
    case ProbeFrom(src, i) => ProbeKeepsRule(s, src, i, now);
    case BeaconFrom(src, i) => BeaconKeepsRule(s, src, i, now);
  }

  lemma StartKeepsRule(s: Station, now: u32)
    requires s.Sized() && s.preferred <= 15 && s.id == 0
    ensures StartProbe(s, now).s.Sized() && KeepsRule(s, now, StartProbe(s, now))
  {
    hide Chosen, PickCandidate;
    StartsOnChosen(s, now);
  }

  lemma ProbeKeepsRule(s: Station, src: Mac, i: u8, now: u32)
    requires StationOk(s)
    ensures OnProbe(s, src, i, now).s.Sized() && KeepsRule(s, now, OnProbe(s, src, i, now))
  {
    hide StartProbe, Chosen, MemcmpLess;
    if s.state == Probe { StartKeepsRule(Note(s, i, now), now); }
  }

  lemma BeaconKeepsRule(s: Station, src: Mac, i: u8, now: u32)
    requires StationOk(s)
    ensures OnBeacon(s, src, i, now).s.Sized() && KeepsRule(s, now, OnBeacon(s, src, i, now))
  {
    hide StartProbe, Chosen, MemcmpLess;
    if s.state == Probe {
      StartKeepsRule(Note(s, i, now), now);
    } else if s.Holds(i) {
      StartKeepsRule(SetId(Note(s, i, now), 0), now);
    }
  }

  /** The preference of the last boot, 0 if it named no id. */
  function Wanted(e: Event): u8
    requires e.Boot?
  {
    if 1 <= e.preferred <= 15 then e.preferred else 0
  }

  lemma {:induction false} PreferenceStays(h: History, b: nat, n: nat)
    requires h.Valid() && LastBoot(h, b, n)
    ensures h.ss[n].preferred == Wanted(h.ev[b].e)
  {
    hide React;
    StationsAreOk(h, n);
    OneStep(h, n - 1);
    if n == b + 1 {
      BootWants(h.ss[b], h.ev[b].e, U32(h.ev[b].t));
    } else {
      PreferenceStays(h, b, n - 1);
      ReactKeepsRule(h.ss[n - 1], h.ev[n - 1].e, U32(h.ev[n - 1].t));
    }
  }

  lemma BootWants(s: Station, e: Event, now: u32)
    requires StationOk(s) && e.Boot?
    ensures React(s, e, now).s.preferred == Wanted(e)
  {
  }

  /**
   Every attempt since the last boot is on the id that boot preferred, if no evidence speaks
   against it, and otherwise on the first free id in the cyclic order of the address.
   */
  lemma AttemptIsOnChosenId(h: History, b: nat, n: nat, c: u8)
    requires h.Valid() && LastBoot(h, b, n) && n < |h.ev| && !h.ev[n].e.Boot?
    ensures StationOk(h.ss[n]) && h.ss[n + 1].Sized()
    ensures Begins(h, n, c) ==> Chosen(h.ss[n + 1], h.ev[b].e.preferred, c, U32(h.ev[n].t))
  {
    hide React, Chosen, Steps, Reaction, StationOk;
    PreferenceStays(h, b, n);
    var s, r := EventSteps(h, n);
    OneStep(h, n);
    ReactKeepsRule(s, h.ev[n].e, U32(h.ev[n].t));
    if Begins(h, n, c) {
      StepsReact(s, h.ev[n].e, U32(h.ev[n].t), r);
      SentMeansProbing(s, h.ev[n].e, r, c);
      ChosenByWanted(r.s, h.ev[b].e, c, U32(h.ev[n].t));
    }
  }

  lemma StepsReact(s: Station, e: Event, now: u32, r: Step)
    requires Steps(s, e, now, r)
    ensures Reaction(s, e, r)
  {
  }

  lemma ChosenByWanted(s: Station, e: Event, c: u8, now: u32)
    requires s.Sized() && e.Boot? && Chosen(s, Wanted(e), c, now)
    ensures Chosen(s, e.preferred, c, now)
  {
  }
}
