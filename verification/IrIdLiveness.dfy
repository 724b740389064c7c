/**
 Liveness of the negotiation in the timed network. Once no station boots or joins and no hit is
 reported, and the clock of a listening station ticks at least once a second, then after a bounded
 time every station holds an id, or all fifteen ids are held: with n stations, min(n, 15) are HELD.
 */
module IrIdLiveness {
  import opened Words
  import opened IrIdStation
  import opened IrIdReaction
  import opened IrIdTimed
  import opened IrIdClaims

  // --- listening ends ------------------------------------------------------------------------------------

  const T_TICK: nat := 1000

  /** Station i ticks between states k and l, not later than a second after state k. */
  ghost predicate TickSoon(ws: seq<World>, mvs: seq<Move>, k: nat, l: nat, i: nat)
    requires k <= l < |ws| == |mvs| + 1
  {
    exists q :: k <= q < l && mvs[q].Act? && mvs[q].j == i && mvs[q].e == Clock && mvs[q].t <= ws[k].now + T_TICK
  }

  /** The clock of a listening station ticks at least once a second. */
  ghost predicate Ticking(ws: seq<World>, mvs: seq<Move>, k0: nat)
    requires |ws| == |mvs| + 1
  {
    forall k, l, i {:trigger TickSoon(ws, mvs, k, l, i)} ::
      k0 <= k <= l < |ws| && 0 <= i < |ws[k].st| && ws[k].st[i].state == Listen && ws[l].now >= ws[k].now + T_TICK ==>
        TickSoon(ws, mvs, k, l, i)
  }

  /** Everything the bound needs; the run takes less than 2^31 ms. */
  ghost predicate Settling(ws: seq<World>, mvs: seq<Move>, k0: nat) {
    Run(ws, mvs) && Calm(ws, mvs, k0) && Ticking(ws, mvs, k0) && ws[|ws| - 1].now < ws[0].now + TWO31
  }

  /** State p of station i follows its choice at a time not later than b. */
  ghost predicate ChoseBy(ws: seq<World>, k: nat, p: nat, i: nat, b: nat) {
    && k < p < |ws| && i < |ws[p].st| && ws[p].st[i].Sized()
    && ws[p].now <= b && Chose(ws[p].st[i], U32(ws[p].now))
  }

  /** A listening station either goes on listening up to state q, or has chosen before. */
  lemma {:induction false} ListensOrChose(ws: seq<World>, mvs: seq<Move>, k0: nat, k: nat, q: nat, i: nat)
    returns (p: nat, chose: bool)
    requires Run(ws, mvs) && Calm(ws, mvs, k0) && k0 <= k <= q < |ws| && i < |ws[k].st| && ws[k].st[i].state == Listen
    ensures if chose then p <= q && ChoseBy(ws, k, p, i, ws[q].now)
            else i < |ws[q].st| && ws[q].st[i].state == Listen && ws[q].st[i].listenUntil == ws[k].st[i].listenUntil
    decreases q - k
  {
    hide WellFormed, OnTime, React, Run, NewFlight, Chose;
    p, chose := k, false;
    if k < q {
      var x, e, r := CalmStep(ws, mvs, k0, k);
      ListeningStep(ws[k], ws[k + 1], i, x, e, r);
      if ws[k + 1].st[i].state == Listen && ws[k + 1].st[i].listenUntil == ws[k].st[i].listenUntil {
        p, chose := ListensOrChose(ws, mvs, k0, k + 1, q, i);
      } else {
        p, chose := k + 1, true;
        TimeGrows(ws, mvs, p, q);
      }
    }
  }

  lemma ListeningStep(w: World, w': World, i: nat, x: nat, e: Event, r: Step)
    requires Reacted(w, w', x, e, r) && (e == Clock || Radio(e)) && WellFormed(w') && i < |w.st| && w.st[i].state == Listen
    ensures i < |w'.st| && w'.st[i].Sized()
    ensures (w'.st[i].state == Listen && w'.st[i].listenUntil == w.st[i].listenUntil) || Chose(w'.st[i], U32(w'.now))
  {
    hide React, Chose, OnTime, NewFlight, Reaction, KeepsEvidence, ProbesOn;
    SoundSize(w);
    SoundSize(w');
    if i == x {
      ReactSteps(w.st[x], e, U32(w'.now));
      ListeningReacts(w.st[x], U32(w'.now));
    }
  }

  /** A listening station chooses at most a second after its deadline. */
  lemma {:induction false} ListeningEnds(ws: seq<World>, mvs: seq<Move>, k0: nat, k: nat, l: nat, i: nat, d: nat, b: nat)
    returns (p: nat)
    requires Settling(ws, mvs, k0) && k0 <= k < |ws| && k <= l < |ws|
    requires i < |ws[k].st| && ws[k].st[i].state == Listen && ws[k].st[i].listenUntil == U32(d)
    requires ws[0].now <= d <= ws[k].now + T_RETRY && b >= d + T_TICK && ws[l].now >= b >= ws[k].now + T_TICK
    ensures p <= l && ChoseBy(ws, k, p, i, b)
    decreases l - k
  {
    hide WellFormed, OnTime, React, Run, NewFlight, Chose, U32, Reached;
    assert TickSoon(ws, mvs, k, l, i);
    var q :| k <= q < l && mvs[q].Act? && mvs[q].j == i && mvs[q].e == Clock && mvs[q].t <= ws[k].now + T_TICK;
    var chose;
    p, chose := ListensOrChose(ws, mvs, k0, k, q, i);
    var x, e, r := CalmStep(ws, mvs, k0, q);
    TimeGrows(ws, mvs, q, q + 1);
    if !chose {
      SoundSize(ws[q]);
      ListeningReacts(ws[q].st[i], U32(ws[q + 1].now));
      TimeGrows(ws, mvs, q + 1, |ws| - 1);
      TimeGrows(ws, mvs, k, q + 1);
      if d <= ws[q + 1].now { PastIsReached(ws[q + 1].now, d); }
      if Reached(U32(ws[q + 1].now), U32(d)) {
        p := q + 1;
      } else {
        p := ListeningEnds(ws, mvs, k0, q + 1, l, i, d, b);
      }
    }
  }

  lemma PastIsReached(t: nat, d: nat)
    requires d <= t < d + TWO31
    ensures Reached(U32(t), U32(d))
  {
    assert U32(U32(t) - U32(d)) == (t - d) % TWO32;
  }

  // --- the held ids grow -----------------------------------------------------------------------------------

  /** How long evidence and packets from before the calm can matter. */
  function Lead(n: nat): nat {
    T_EXPIRE + T_PROBE + T_PROBE * n
  }

  /** Fifteen attempts on held ids, and one that is decided. */
  function Chain(n: nat): nat {
    15 * 2 * T_PROBE + T_LISTEN * n
  }

  function Indices(n: nat): (S: set<nat>)
    ensures |S| == n && forall j: nat :: j in S <==> j < n
  {
    if n == 0 then {} else Indices(n - 1) + {n - 1}
  }

  lemma ProbedIsTaken(ws: seq<World>, mvs: seq<Move>, k0: nat, k: nat, l: nat, i: nat, c: u8)
    requires Run(ws, mvs) && Calm(ws, mvs, k0) && k0 <= k < |ws| && l < |ws|
    requires i < |ws[k].st| && ws[k].st[i].Probes(c)
    requires ws[k].now >= ws[k0].now + T_PROBE * |ws[k0].st| && ws[l].now >= ws[k].now + T_LISTEN * |ws[k0].st|
    ensures Taken(ws[l], c)
  {
    hide Run, Calm, Taken;
    StationsStay(ws, mvs, k0, k);
    ClaimIsTaken(ws, mvs, k0, k, l, i, c, Indices(|ws[k0].st|));
  }

  /** A station that knows an id to be occupied knows it from a station that then took it, or held it. */
  lemma OccupiedIsTaken(ws: seq<World>, mvs: seq<Move>, k0: nat, k: nat, l: nat, i: nat, c: u8)
    requires Settling(ws, mvs, k0) && k0 <= k <= l < |ws| && i < |ws[k].st| && ws[k].st[i].Sized()
    requires ValidId(c) && ws[k].st[i].IsOccupied(c, U32(ws[k].now))
    requires ws[k].now >= ws[k0].now + Lead(|ws[k0].st|) && ws[l].now >= ws[k].now + T_LISTEN * |ws[k0].st|
    ensures Taken(ws[l], c)
  {
    hide Run, Calm, Ticking, Taken, U32, Elapsed;
    var v, p, j := EvidenceHasSource(ws, mvs, k0, k, i, c);
    TimeGrows(ws, mvs, k, |ws| - 1);
    ElapsedIsDistance(ws[k].now, v, T_EXPIRE);
    if p < k0 { TimeGrows(ws, mvs, p, k0); }
    TimeGrows(ws, mvs, p, k);
    if ws[p].st[j].Holds(c) {
      HolderTakes(ws[p], j, c);
      TakenStays(ws, mvs, k0, p, l, c);
    } else {
      ProbedIsTaken(ws, mvs, k0, p, l, j, c);
    }
  }

  /** Some id that was free at state k is held at state l. */
  ghost predicate Grown(ws: seq<World>, k: nat, l: nat)
    requires k < |ws| && l < |ws|
  {
    exists c: u8 :: ValidId(c) && !Taken(ws[k], c) && Taken(ws[l], c)
  }

  /** A station probes one held id after the other, at most fifteen, and then a free one, or knows all to be claimed. */
  lemma {:induction false} ChoiceGrows(ws: seq<World>, mvs: seq<Move>, k0: nat, k1: nat, k: nat, l: nat,
                                       i: nat, u: u8, D: set<u8>, b: nat)
    requires Settling(ws, mvs, k0) && k0 <= k1 <= k <= l < |ws| && ValidId(u) && !Taken(ws[k1], u)
    requires i < |ws[k].st| && StationOk(ws[k].st[i]) && Knowing(ws[k].st[i], D, b, ws[k].now)
    requires ws[k0].now + Lead(|ws[k0].st|) <= b <= ws[k].now <= b + 2 * T_PROBE * |D|
    requires ws[l].now >= b + Chain(|ws[k0].st|)
    requires Chose(ws[k].st[i], U32(ws[k].now)) || (ws[k].st[i].state == Probe && D == {})
    ensures Grown(ws, k1, l)
    decreases 15 - |D|
  {
    hide Run, Calm, Ticking, Taken, U32, StationOk, Chose, WellFormed, Knowing, Station.IsOccupied;
    StationsStay(ws, mvs, k0, k);
    var s := ws[k].st[i];
    AtMostFifteen(s, D, b, ws[k].now);
    if s.state == Listen {
      ListenerKnows(s, u, U32(ws[k].now));
      OccupiedIsTaken(ws, mvs, k0, k, l, i, u);
    } else {
      var c := s.candidate;
      NewCandidate(s, D, b, ws[k].now);
      if Taken(ws[k], c) {
        var q := HeldClaimEnds(ws, mvs, k0, k, l, i, c, D, b);
        RunIsSound(ws, mvs, q);
        SoundSize(ws[q]);
        TimeGrows(ws, mvs, k, q);
        AtMostFifteen(ws[q].st[i], D + {c}, b, ws[q].now);
        ChoiceGrows(ws, mvs, k0, k1, q, l, i, u, D + {c}, b);
      } else {
        if Taken(ws[k1], c) { TakenStays(ws, mvs, k0, k1, k, c); }
        ProbedIsTaken(ws, mvs, k0, k, l, i, c);
      }
    }
  }

  lemma ListenerKnows(s: Station, c: u8, now: u32)
    requires StationOk(s) && s.state == Listen && Chose(s, now) && ValidId(c)
    ensures s.Sized() && s.IsOccupied(c, now)
  {
  }

  lemma {:induction false} FewIds(D: set<u8>, n: u8)
    requires forall c :: c in D ==> 1 <= c <= n
    ensures |D| <= n
  {
    if n == 0 {
      if c :| c in D { assert false; }
    } else {
      FewIds(D - {n}, n - 1);
    }
  }

  lemma AtMostFifteen(s: Station, D: set<u8>, b: nat, now: nat)
    requires StationOk(s) && Knowing(s, D, b, now)
    ensures |D| <= 15 && s.Sized()
  {
    FewIds(D, 15);
  }

  /** A station that probes has chosen an id of which it knows no claim. */
  lemma NewCandidate(s: Station, D: set<u8>, b: nat, now: nat)
    requires StationOk(s) && s.state != Listen && Knowing(s, D, b, now) && b <= now < b + T_EXPIRE
    requires Chose(s, U32(now)) || (s.state == Probe && D == {})
    ensures s.Sized() && s.Probes(s.candidate) && ValidId(s.candidate) && s.candidate !in D
  {
    hide U32;
    var c := s.candidate;
    if c in D {
      var v: nat :| b <= v <= now && NotedAt(s, c, v);
      NotedIsOccupied(s, c, v, now);
      assert false;
    }
  }

  /** One retry time, one late tick and one chain of attempts. */
  function Round(n: nat): nat {
    T_RETRY + T_TICK + Chain(n)
  }

  /** While a station is without an id and an id is free, one more id is taken in every round. */
  lemma HeldIdsGrow(ws: seq<World>, mvs: seq<Move>, k0: nat, k: nat, l: nat, i: nat, u: u8)
    requires Settling(ws, mvs, k0) && k0 <= k <= l < |ws| && ValidId(u) && !Taken(ws[k], u)
    requires i < |ws[k].st| && ws[k].st[i].state != Held
    requires ws[k].now >= ws[k0].now + Lead(|ws[k0].st|) && ws[l].now >= ws[k].now + Round(|ws[k0].st|)
    ensures Grown(ws, k, l)
  {
    hide Run, WellFormed, Ticking, Taken, U32, StationOk, Chose, Grown;
    RunIsSound(ws, mvs, k);
    SoundSize(ws[k]);
    if ws[k].st[i].state == Listen {
      var d := DeadlineIsNear(ws, mvs, k, i);
      var p := ListeningEnds(ws, mvs, k0, k, l, i, d, ws[k].now + T_RETRY + T_TICK);
      TimeGrows(ws, mvs, k, p);
      RunIsSound(ws, mvs, p);
      SoundSize(ws[p]);
      KnowsNothing(ws[p].st[i], ws[p].now);
      ChoiceGrows(ws, mvs, k0, k, p, l, i, u, {}, ws[p].now);
    } else {
      KnowsNothing(ws[k].st[i], ws[k].now);
      ChoiceGrows(ws, mvs, k0, k, k, l, i, u, {}, ws[k].now);
    }
  }

  // --- all stations settle -----------------------------------------------------------------------------------

  ghost predicate AllHeld(w: World) {
    forall i :: 0 <= i < |w.st| ==> w.st[i].state == Held
  }

  ghost predicate AllTaken(w: World) {
    forall c: u8 :: ValidId(c) ==> Taken(w, c)
  }

  ghost function FreeIds(w: World, n: u8): (r: nat)
    requires n <= 15
    ensures r <= n
  {
    if n == 0 then 0 else FreeIds(w, n - 1) + (if Taken(w, n) then 0 else 1)
  }

  lemma {:induction false} FreeIdsShrink(ws: seq<World>, mvs: seq<Move>, k0: nat, k: nat, l: nat, n: u8)
    requires Run(ws, mvs) && Calm(ws, mvs, k0) && k0 <= k <= l < |ws| && n <= 15
    ensures FreeIds(ws[l], n) <= FreeIds(ws[k], n)
    ensures forall c: u8 :: 1 <= c <= n && !Taken(ws[k], c) && Taken(ws[l], c) ==> FreeIds(ws[l], n) < FreeIds(ws[k], n)
  {
    hide Run, Calm, Taken;
    if n > 0 {
      FreeIdsShrink(ws, mvs, k0, k, l, n - 1);
      if Taken(ws[k], n) { TakenStays(ws, mvs, k0, k, l, n); }
    }
  }

  lemma {:induction false} NoneIsFree(w: World, n: u8)
    requires n <= 15 && FreeIds(w, n) == 0
    ensures forall c: u8 :: 1 <= c <= n ==> Taken(w, c)
  {
    hide Taken;
    if n > 0 { NoneIsFree(w, n - 1); }
  }

  lemma AllHeldStays(ws: seq<World>, mvs: seq<Move>, k0: nat, k: nat, l: nat)
    requires Run(ws, mvs) && Calm(ws, mvs, k0) && k0 <= k <= l < |ws| && AllHeld(ws[k])
    ensures AllHeld(ws[l])
  {
    hide Run;
    StationsStay(ws, mvs, k0, k);
    StationsStay(ws, mvs, k0, l);
    forall i | 0 <= i < |ws[l].st| ensures ws[l].st[i].state == Held {
      KeepsHolding(ws, mvs, k0, k, l, i, ws[k].st[i].id);
    }
  }

  /** Time does not stand still around a station that is not HELD. */
  lemma NextIsSoon(ws: seq<World>, mvs: seq<Move>, k0: nat, k: nat, i: nat)
    requires Settling(ws, mvs, k0) && k0 <= k < |mvs| && i < |ws[k].st| && ws[k].st[i].state != Held
    ensures ws[k + 1].now <= ws[k].now + T_TICK
  {
    hide Enabled, Next, WellFormed, Reacted, AllPaced, Unique, Defended;
    TimeStep(ws, mvs, k);
    if ws[k].st[i].state == Listen {
      if ws[k + 1].now >= ws[k].now + T_TICK { assert TickSoon(ws, mvs, k, k + 1, i); }
    } else {
      RunPaced(ws, mvs, k);
      var x, e, r := CalmStep(ws, mvs, k0, k);
      StepKeepsStations(ws[k], ws[k + 1], x, e, r);
      ProbeIsDue(ws[k], i, ws[k + 1].now);
    }
  }

  lemma ProbeIsDue(w: World, i: nat, t: nat)
    requires WellFormed(w) && AllPaced(w) && OnTime(w, t) && i < |w.st| && w.st[i].state == Probe
    ensures t < w.now + T_TICK
  {
    assert Paced(w, i);
  }

  lemma {:induction false} FirstAfter(ws: seq<World>, k: nat, l: nat, t: nat) returns (m: nat)
    requires k <= l < |ws| && ws[k].now < t <= ws[l].now
    ensures k < m <= l && ws[m - 1].now < t <= ws[m].now
    decreases l - k
  {
    if ws[k + 1].now < t { m := FirstAfter(ws, k + 1, l, t); } else { m := k + 1; }
  }

  /** The first state after time t comes within a second, unless every station is HELD by then. */
  lemma Later(ws: seq<World>, mvs: seq<Move>, k0: nat, k: nat, l: nat, t: nat) returns (m: nat)
    requires Settling(ws, mvs, k0) && k0 <= k <= l < |ws| && ws[k].now < t <= ws[l].now
    ensures k < m <= l && t <= ws[m].now
    ensures AllHeld(ws[l]) || ws[m].now <= t + T_TICK
  {
    hide Run, Ticking;
    m := FirstAfter(ws, k, l, t);
    if AllHeld(ws[m - 1]) {
      AllHeldStays(ws, mvs, k0, m - 1, l);
    } else {
      var i :| 0 <= i < |ws[m - 1].st| && ws[m - 1].st[i].state != Held;
      NextIsSoon(ws, mvs, k0, m - 1, i);
    }
  }

  lemma OneRoundLess(f: nat, r: nat)
    requires f > 0
    ensures f * r == (f - 1) * r + r
  {
  }

  /** With f free ids, f rounds are enough. */
  lemma {:induction false} RoundsSettle(ws: seq<World>, mvs: seq<Move>, k0: nat, k: nat, l: nat, f: nat)
    requires Settling(ws, mvs, k0) && k0 <= k <= l < |ws| && FreeIds(ws[k], 15) <= f
    requires ws[k].now >= ws[k0].now + Lead(|ws[k0].st|)
    requires ws[l].now >= ws[k].now + f * (Round(|ws[k0].st|) + T_TICK)
    ensures AllHeld(ws[l]) || AllTaken(ws[l])
    decreases f
  {
    hide Run, Calm, Ticking, Taken, Lead, Round, FreeIds;
    var r := Round(|ws[k0].st|);
    if AllHeld(ws[k]) {
      AllHeldStays(ws, mvs, k0, k, l);
    } else if u: u8 :| ValidId(u) && !Taken(ws[k], u) {
      var i :| 0 <= i < |ws[k].st| && ws[k].st[i].state != Held;
      if f == 0 { NoneIsFree(ws[k], 15); }
      OneRoundLess(f, r + T_TICK);
      RoundIsLong(|ws[k0].st|);
      var m := Later(ws, mvs, k0, k, l, ws[k].now + r);
      HeldIdsGrow(ws, mvs, k0, k, m, i, u);
      FreeIdsShrink(ws, mvs, k0, k, m, 15);
      if !AllHeld(ws[l]) { RoundsSettle(ws, mvs, k0, m, l, f - 1); }
    } else {
      forall c: u8 | ValidId(c) ensures Taken(ws[l], c) {
        TakenStays(ws, mvs, k0, k, l, c);
      }
    }
  }

  lemma RoundIsLong(n: nat)
    ensures Round(n) > 0 && Lead(n) > 0
  {
  }

  /** The time n stations need at most. */
  function SettleTime(n: nat): nat {
    Lead(n) + T_TICK + 15 * (Round(n) + T_TICK)
  }

  lemma StationsSettle(ws: seq<World>, mvs: seq<Move>, k0: nat, l: nat)
    requires Settling(ws, mvs, k0) && k0 <= l < |ws| && ws[l].now >= ws[k0].now + SettleTime(|ws[k0].st|)
    ensures AllHeld(ws[l]) || AllTaken(ws[l])
  {
    hide Run, Calm, Ticking, Lead, Round, FreeIds, AllHeld, AllTaken;
    var n := |ws[k0].st|;
    RoundIsLong(n);
    var m := Later(ws, mvs, k0, k0, l, ws[k0].now + Lead(n));
    if !AllHeld(ws[l]) { RoundsSettle(ws, mvs, k0, m, l, 15); }
  }

  // --- how many hold an id --------------------------------------------------------------------------------------

  function HeldCount(st: seq<Station>, n: nat): (r: nat)
    requires n <= |st|
    ensures r <= n
  {
    if n == 0 then 0 else HeldCount(st, n - 1) + (if st[n - 1].state == Held then 1 else 0)
  }

  function HeldIds(st: seq<Station>, n: nat): set<u8>
    requires n <= |st|
  {
    if n == 0 then {}
    else HeldIds(st, n - 1) + (if st[n - 1].state == Held then {st[n - 1].id} else {})
  }

  lemma {:induction false} HeldIdsMembers(st: seq<Station>, n: nat, c: u8)
    requires n <= |st|
    ensures c in HeldIds(st, n) <==> exists i :: 0 <= i < n && st[i].Holds(c)
  {
    if n > 0 {
      HeldIdsMembers(st, n - 1, c);
      if st[n - 1].Holds(c) {
      } else if i :| 0 <= i < n && st[i].Holds(c) {
        assert 0 <= i < n - 1;
      }
    }
  }

  lemma NewIdIsNew(w: World, n: nat)
    requires Unique(w) && n < |w.st| && w.st[n].state == Held
    ensures w.st[n].id !in HeldIds(w.st, n)
  {
    hide HeldIds;
    HeldIdsMembers(w.st, n, w.st[n].id);
    assert w.st[n].Holds(w.st[n].id);
  }

  lemma {:induction false} HeldIdsCount(w: World, n: nat)
    requires Unique(w) && n <= |w.st|
    ensures |HeldIds(w.st, n)| == HeldCount(w.st, n)
  {
    hide Unique;
    if n > 0 {
      HeldIdsCount(w, n - 1);
      if w.st[n - 1].state == Held { NewIdIsNew(w, n - 1); }
    }
  }

  lemma {:induction false} ManyIds(D: set<u8>, n: u8)
    requires forall c :: 1 <= c <= n ==> c in D
    ensures |D| >= n
  {
    if n > 0 { ManyIds(D - {n}, n - 1); }
  }

  lemma {:induction false} AllAreCounted(st: seq<Station>, n: nat)
    requires n <= |st|
    ensures HeldCount(st, n) == n <==> forall i :: 0 <= i < n ==> st[i].state == Held
  {
    if n > 0 { AllAreCounted(st, n - 1); }
  }

  lemma TakenAreHeldIds(w: World, c: u8)
    requires WellFormed(w)
    ensures c in HeldIds(w.st, |w.st|) <==> Taken(w, c)
    ensures Taken(w, c) ==> ValidId(c)
  {
    hide HeldIds;
    HeldIdsMembers(w.st, |w.st|, c);
    SoundSize(w);
  }

  lemma CountOfHeld(w: World)
    requires WellFormed(w) && Unique(w) && (AllHeld(w) || AllTaken(w))
    ensures HeldCount(w.st, |w.st|) == Min(|w.st|, 15)
    ensures (|w.st| <= 15 ==> AllHeld(w)) && (|w.st| >= 15 ==> AllTaken(w))
  {
    hide WellFormed, Unique, Taken, HeldIds, HeldCount;
    var D := HeldIds(w.st, |w.st|);
    HeldIdsCount(w, |w.st|);
    forall c: u8 ensures (c in D <==> Taken(w, c)) && (c in D ==> ValidId(c)) {
      TakenAreHeldIds(w, c);
    }
    FewIds(D, 15);
    AllAreCounted(w.st, |w.st|);
    if AllTaken(w) {
      ManyIds(D, 15);
    } else {
      var c: u8 :| ValidId(c) && !Taken(w, c);
      FewIds(D + {c}, 15);
    }
  }

  /**
   The negotiation comes to its end: in every run, when n stations have been left in peace for
   SettleTime(n), exactly min(n, 15) of them hold an id, and no two the same.
   */
  lemma NegotiationSettles(ws: seq<World>, mvs: seq<Move>, k0: nat, l: nat)
    requires Settling(ws, mvs, k0) && k0 <= l < |ws| && ws[l].now >= ws[k0].now + SettleTime(|ws[k0].st|)
    ensures |ws[l].st| == |ws[k0].st| && HeldCount(ws[l].st, |ws[l].st|) == Min(|ws[l].st|, 15)
    ensures |ws[l].st| <= 15 ==> AllHeld(ws[l])
    ensures |ws[l].st| >= 15 ==> AllTaken(ws[l])
  {
    hide Run, Calm, Ticking, Unique, WellFormed, AllHeld, AllTaken;
    StationsSettle(ws, mvs, k0, l);
    StationsStay(ws, mvs, k0, l);
    RunPaced(ws, mvs, l);
    CountOfHeld(ws[l]);
  }
}
