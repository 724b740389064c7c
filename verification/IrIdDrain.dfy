/**
 Message cascades end. Deliveries trigger new probes and beacons, but every delivery
 lowers a lexicographic measure: free ids left to try, then probes in flight, then beacons
 in flight weighted by the rank of the sender's address.
 */
module IrIdDrain {
  import opened Words
  import opened IrIdStation
  import opened IrIdReaction
  import opened IrIdSync

  // --- how much a station can still do at this instant ---------------------------------

  /** Number of free ids among 1..k. */
  function FreeUpTo(s: Station, now: u32, k: nat): nat
    requires s.Sized() && k <= 15
  {
    if k == 0 then 0 else FreeUpTo(s, now, k - 1) + if s.IsOccupied(k, now) then 0 else 1
  }

  /** A station probing an id it already knows to be taken has one more move left. */
  function Slack(s: Station, now: u32): nat
    requires s.Sized()
  {
    2 * FreeUpTo(s, now, 15) + if s.state == Probe && s.IsOccupied(s.candidate, now) then 1 else 0
  }

  lemma {:induction false} NoteUsesUpAnId(s: Station, i: u8, now: u32, k: nat)
    requires s.Sized() && ValidId(i) && k <= 15
    ensures forall j: u8 :: Note(s, i, now).IsOccupied(j, now) <==> j == i || s.IsOccupied(j, now)
    ensures FreeUpTo(Note(s, i, now), now, k) + (if i <= k && !s.IsOccupied(i, now) then 1 else 0)
         == FreeUpTo(s, now, k)
  {
    if k > 0 { NoteUsesUpAnId(s, i, now, k - 1); }
  }

  lemma {:induction false} FreeDependsOnEvidence(s: Station, s': Station, now: u32, k: nat)
    requires s.Sized() && s'.Sized() && k <= 15 && s.seen == s'.seen && s.seenMs == s'.seenMs
    ensures FreeUpTo(s, now, k) == FreeUpTo(s', now, k)
    ensures forall j: u8 :: s.IsOccupied(j, now) <==> s'.IsOccupied(j, now)
  {
    if k > 0 { FreeDependsOnEvidence(s, s', now, k - 1); }
  }

  /** What one delivery costs the receiving station. */
  predicate Cost(s: Station, e: Event, r: Step, now: u32)
    requires s.Sized() && r.s.Sized()
  {
    || Slack(r.s, now) < Slack(s, now)
    || (Slack(r.s, now) == Slack(s, now) && r.tx == [])
    || (Slack(r.s, now) == Slack(s, now) && e.ProbeFrom? && forall t :: t in r.tx ==> t.kind == TxBeacon)
    || (Slack(r.s, now) == Slack(s, now) && e.BeaconFrom? && MacValue(s.mac) < MacValue(e.src) &&
        r.tx == [Announce(s.id)])
  }

  lemma ProbeCost(s: Station, src: Mac, i: u8, now: u32)
    requires StationOk(s) && ValidId(i) && src != s.mac
    ensures Cost(s, ProbeFrom(src, i), OnProbe(s, src, i, now), now)
  {
    hide StartProbe, MemcmpLess, FreeUpTo, Elapsed;
    NoteUsesUpAnId(s, i, now, 15);
    var n := Note(s, i, now);
    if s.state == Probe {
      StartProbeRestarts(n, now);
      FreeDependsOnEvidence(n, StartProbe(n, now).s, now, 15);
    } else if s.Holds(i) {
      FreeDependsOnEvidence(s, s.(lastBeaconMs := now), now, 15);
    }
  }

  lemma BeaconCost(s: Station, src: Mac, i: u8, now: u32)
    requires StationOk(s) && ValidId(i) && src != s.mac
    ensures Cost(s, BeaconFrom(src, i), OnBeacon(s, src, i, now), now)
  {
    hide StartProbe, MemcmpLess, MacValue, FreeUpTo, Elapsed;
    MemcmpIsNumericOrder(src, s.mac);
    NoteUsesUpAnId(s, i, now, 15);
    var n := Note(s, i, now);
    if s.state == Probe {
      StartProbeRestarts(n, now);
      FreeDependsOnEvidence(n, StartProbe(n, now).s, now, 15);
    } else if s.Holds(i) {
      FreeDependsOnEvidence(s, s.(lastBeaconMs := now), now, 15);
      StartProbeRestarts(SetId(n, 0), now);
      FreeDependsOnEvidence(n, StartProbe(SetId(n, 0), now).s, now, 15);
    }
  }

  // --- the measure of a network -----------------------------------------------------------

  function TotalSlack(st: seq<Station>, now: u32): nat
    requires AllOk(st)
  {
    if st == [] then 0 else TotalSlack(st[..|st| - 1], now) + Slack(st[|st| - 1], now)
  }

  lemma {:induction false} TotalSlackUpdate(st: seq<Station>, x: nat, s: Station, now: u32)
    requires AllOk(st) && x < |st| && StationOk(s)
    ensures TotalSlack(st[x := s], now) + Slack(st[x], now) == TotalSlack(st, now) + Slack(s, now)
  {
    var last := |st| - 1;
    if x < last {
      TotalSlackUpdate(st[..last], x, s, now);
      assert st[x := s][..last] == st[..last][x := s];
    } else {
      assert st[x := s][..last] == st[..last];
    }
  }

  function Macs(st: seq<Station>): seq<Mac> {
    seq(|st|, i requires 0 <= i < |st| => st[i].mac)
  }

  /** Number of stations with a smaller address. */
  function Rank(macs: seq<Mac>, i: nat): nat
    requires i < |macs|
  {
    |set j | 0 <= j < |macs| && MacValue(macs[j]) < MacValue(macs[i])|
  }

  /** k copies of a weight, as a sum. */
  function Times(k: nat, w: nat): nat {
    if k == 0 then 0 else Times(k - 1, w) + w
  }

  /** b to the power e. */
  function Pow(b: nat, e: nat): nat {
    if e == 0 then 1 else Times(b, Pow(b, e - 1))
  }

  /** A beacon weighs more than all the beacons one station of lower rank can answer with. */
  function Weight(macs: seq<Mac>, m: Msg): nat {
    if m.kind == TxBeacon && m.from < |macs| then Pow(|macs|, Rank(macs, m.from)) else 0
  }

  function BeaconLoad(macs: seq<Mac>, ms: seq<Msg>): nat {
    if ms == [] then 0 else BeaconLoad(macs, ms[..|ms| - 1]) + Weight(macs, ms[|ms| - 1])
  }

  function ProbeCount(ms: seq<Msg>): nat {
    if ms == [] then 0 else ProbeCount(ms[..|ms| - 1]) + if ms[|ms| - 1].kind == TxProbe then 1 else 0
  }

  lemma {:induction false} LoadsAdd(macs: seq<Mac>, a: seq<Msg>, b: seq<Msg>)
    ensures BeaconLoad(macs, a + b) == BeaconLoad(macs, a) + BeaconLoad(macs, b)
    ensures ProbeCount(a + b) == ProbeCount(a) + ProbeCount(b)
  {
    if b == [] {
      assert a + b == a;
    } else {
      var l := |b| - 1;
      LoadsAdd(macs, a, b[..l]);
      assert (a + b)[..|a + b| - 1] == a + b[..l];
    }
  }

  lemma LoadsWithout(macs: seq<Mac>, ms: seq<Msg>, i: nat)
    requires i < |ms|
    ensures BeaconLoad(macs, Without(ms, i)) + Weight(macs, ms[i]) == BeaconLoad(macs, ms)
    ensures ProbeCount(Without(ms, i)) + (if ms[i].kind == TxProbe then 1 else 0) == ProbeCount(ms)
  {
    assert ms == (ms[..i] + [ms[i]]) + ms[i + 1..];
    LoadsAdd(macs, ms[..i] + [ms[i]], ms[i + 1..]);
    LoadsAdd(macs, ms[..i], [ms[i]]);
    LoadsAdd(macs, ms[..i], ms[i + 1..]);
    assert [ms[i]][..0] == [];
  }

  lemma {:induction false} NoProbesInBeacons(st: seq<Station>, x: nat, tx: seq<Tx>)
    requires forall t :: t in tx ==> t.kind == TxBeacon
    ensures ProbeCount(Fanout(st, x, tx)) == 0
  {
    FanoutMembers(st, x, tx);
    NoProbesAmong(Fanout(st, x, tx));
  }

  lemma {:induction false} NoProbesAmong(ms: seq<Msg>)
    requires forall m :: m in ms ==> m.kind == TxBeacon
    ensures ProbeCount(ms) == 0
  {
    if ms != [] { NoProbesAmong(ms[..|ms| - 1]); }
  }

  lemma OneBeacon(macs: seq<Mac>, m: Msg)
    requires m.kind == TxBeacon
    ensures BeaconLoad(macs, [m]) == Weight(macs, m) && BeaconLoad(macs, []) == 0
  {
    hide Weight;
    assert [m][..0] == [];
  }

  lemma {:induction false} BroadcastLoad(macs: seq<Mac>, st: seq<Station>, x: nat, c: u8, n: nat, w: nat)
    requires n <= |st|
    requires forall y: nat {:trigger Msg(x, y, TxBeacon, c)} :: Weight(macs, Msg(x, y, TxBeacon, c)) == w
    ensures BeaconLoad(macs, Copies(st, x, Announce(c), n)) == Times(if x < n then n - 1 else n, w)
  {
    hide Weight, BeaconLoad;
    OneBeacon(macs, Msg(x, 0, TxBeacon, c));
    if n > 0 {
      BroadcastLoad(macs, st, x, c, n - 1, w);
      if n - 1 != x {
        OneBeacon(macs, Msg(x, n - 1, TxBeacon, c));
        LoadsAdd(macs, Copies(st, x, Announce(c), n - 1), [Msg(x, n - 1, TxBeacon, c)]);
      } else {
        assert Copies(st, x, Announce(c), n - 1) + [] == Copies(st, x, Announce(c), n - 1);
      }
    }
  }

  lemma {:induction false} PowGrows(b: nat, i: nat, j: nat)
    requires b > 0 && i <= j
    ensures 1 <= Pow(b, i) <= Pow(b, j)
  {
    if i < j {
      PowGrows(b, i, j - 1);
    } else if j > 0 {
      PowGrows(b, i - 1, j - 1);
    }
  }

  lemma RankIsStrict(macs: seq<Mac>, i: nat, j: nat)
    requires i < |macs| && j < |macs| && MacValue(macs[i]) < MacValue(macs[j])
    ensures Rank(macs, i) < Rank(macs, j)
  {
    var a := set k | 0 <= k < |macs| && MacValue(macs[k]) < MacValue(macs[i]);
    var b := set k | 0 <= k < |macs| && MacValue(macs[k]) < MacValue(macs[j]);
    assert a < b by { assert i in b && i !in a; }
    SubsetIsSmaller(a, b);
  }

  lemma {:induction false} SubsetIsSmaller(a: set<int>, b: set<int>)
    requires a < b
    ensures |a| < |b|
  {
    assert b == a + (b - a);
    assert b - a != {};
  }

  lemma FanoutOfOne(st: seq<Station>, x: nat, t: Tx)
    ensures Fanout(st, x, [t]) == Copies(st, x, t, |st|)
  {
    hide Copies;
    assert [t][1..] == [] && Copies(st, x, t, |st|) + [] == Copies(st, x, t, |st|);
  }

  /** A beacon's weight depends on its sender only. */
  lemma BeaconWeight(macs: seq<Mac>, m: Msg)
    requires m.from < |macs| && m.kind == TxBeacon
    ensures Weight(macs, m) == Pow(|macs|, Rank(macs, m.from))
  {
  }

  /** A smaller holder's insisting broadcast weighs less than the beacon that provoked it. */
  lemma InsistingIsLighter(macs: seq<Mac>, st: seq<Station>, x: nat, y: nat, c: u8)
    requires x < |macs| == |st| && y < |macs| && MacValue(macs[x]) < MacValue(macs[y])
    ensures BeaconLoad(macs, Fanout(st, x, [Announce(c)])) < Pow(|macs|, Rank(macs, y))
  {
    hide MacValue, Rank, Copies, BeaconLoad, Fanout, Weight, Announce;
    var n := |macs|;
    var w := Pow(n, Rank(macs, x));
    FanoutOfOne(st, x, Announce(c));
    forall z: nat ensures Weight(macs, Msg(x, z, TxBeacon, c)) == w { BeaconWeight(macs, Msg(x, z, TxBeacon, c)); }
    BroadcastLoad(macs, st, x, c, |st|, w);
    RankIsStrict(macs, x, y);
    PowGrows(n, Rank(macs, x), Rank(macs, x));
    PowGrows(n, Rank(macs, x) + 1, Rank(macs, y));
    assert Times(n, w) == Times(n - 1, w) + w;
    assert Pow(n, Rank(macs, x) + 1) == Times(n, w);
  }

  // --- every delivery lowers it ---------------------------------------------------------

  predicate Lower(a: (nat, nat, nat), b: (nat, nat, nat)) {
    a.0 < b.0 || (a.0 == b.0 && (a.1 < b.1 || (a.1 == b.1 && a.2 < b.2)))
  }

  function Measure(n: Net): (nat, nat, nat)
    requires AllOk(n.st)
  {
    (TotalSlack(n.st, U32(n.now)), ProbeCount(n.pending), BeaconLoad(Macs(n.st), n.pending))
  }

  /** What the delivery of message m costs the station it reaches. */
  lemma DeliveryCost(n: Net, m: Msg)
    requires WellFormed(n) && m in n.pending
    ensures Routable(n, m)
    ensures var s := n.st[m.to]; var r := React(s, EventOf(n.st, m), U32(n.now));
      && StationOk(s) && Reaction(s, EventOf(n.st, m), r) && StationOk(r.s) && r.s.mac == s.mac
      && Cost(s, EventOf(n.st, m), r, U32(n.now))
  {
    hide Cost, Reaction, OnProbe, OnBeacon;
    var s := n.st[m.to];
    assert n.st[m.from].mac != s.mac;
    ReactIsReaction(s, EventOf(n.st, m), U32(n.now));
    ReactionIsSound(s, EventOf(n.st, m), React(s, EventOf(n.st, m), U32(n.now)));
    if m.kind == TxProbe {
      ProbeCost(s, n.st[m.from].mac, m.id, U32(n.now));
    } else {
      BeaconCost(s, n.st[m.from].mac, m.id, U32(n.now));
    }
  }

  lemma DeliveryLowersMeasure(n: Net, i: nat)
    requires WellFormed(n) && i < |n.pending|
    ensures WellFormed(Next(n, Deliver(i)))
    ensures Lower(Measure(Next(n, Deliver(i))), Measure(n))
  {
    hide WellFormed, React, Reaction, Cost, Measure, Lower, Absorb, Without;
    var m := n.pending[i];
    assert m in n.pending;
    DeliveryCost(n, m);
    var r := React(n.st[m.to], EventOf(n.st, m), U32(n.now));
    WithoutMembers(n.pending, i);
    AbsorbWellFormed(n, m.to, EventOf(n.st, m), r, Without(n.pending, i), n.now);
    AbsorbLowersMeasure(n, i, r);
  }

  lemma AbsorbLowersMeasure(n: Net, i: nat, r: Step)
    requires WellFormed(n) && i < |n.pending| && Routable(n, n.pending[i])
    requires var m := n.pending[i]; StationOk(r.s) && r.s.mac == n.st[m.to].mac &&
                                    Cost(n.st[m.to], EventOf(n.st, m), r, U32(n.now))
    ensures var n' := Absorb(n.st, n.pending[i].to, r, Without(n.pending, i), n.now);
            AllOk(n'.st) && Lower(Measure(n'), Measure(n))
  {
    var m := n.pending[i];
    var x := m.to;
    var macs := Macs(n.st);
    var st' := n.st[x := r.s];
    var more := Fanout(st', x, r.tx);
    var s := n.st[x];
    assert Macs(st') == macs;
    TotalSlackUpdate(n.st, x, r.s, U32(n.now));
    LoadsWithout(macs, n.pending, i);
    LoadsAdd(macs, Without(n.pending, i), more);
    if Slack(r.s, U32(n.now)) == Slack(s, U32(n.now)) {
      if forall t :: t in r.tx ==> t.kind == TxBeacon { NoProbesInBeacons(st', x, r.tx); }
      if m.kind == TxBeacon {
        PowGrows(|macs|, 0, Rank(macs, m.from));
        if r.tx != [] { InsistingIsLighter(macs, st', x, m.from, s.id); }
      }
    }
  }

  /** Every drain ends: no order of deliveries goes on for ever. */
  lemma EveryDrainEnds(run: nat -> Net, pick: nat -> nat)
    requires WellFormed(run(0))
    requires forall k: nat :: WellFormed(run(k)) && run(k).pending != [] ==>
               pick(k) < |run(k).pending| && run(k + 1) == Next(run(k), Deliver(pick(k)))
    ensures exists k: nat :: run(k).pending == []
  {
    DrainEndsFrom(run, pick, 0);
  }

  lemma {:induction false} DrainEndsFrom(run: nat -> Net, pick: nat -> nat, j: nat)
    requires WellFormed(run(j))
    requires forall k: nat :: WellFormed(run(k)) && run(k).pending != [] ==>
               pick(k) < |run(k).pending| && run(k + 1) == Next(run(k), Deliver(pick(k)))
    ensures exists k: nat :: k >= j && run(k).pending == []
    decreases Measure(run(j)).0, Measure(run(j)).1, Measure(run(j)).2
  {
    if run(j).pending != [] {
      DeliveryLowersMeasure(run(j), pick(j));
      DrainEndsFrom(run, pick, j + 1);
    }
  }
}
