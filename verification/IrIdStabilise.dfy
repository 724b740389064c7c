/**
 Self-stabilisation. The network may start from any state whose stations are individually
 sound, duplicate holders included, as long as nothing is in flight. From there on, a
 round is one local action and the drain that follows it.
 */
module IrIdStabilise {
  import opened Words
  import opened IrIdStation
  import opened IrIdReaction
  import opened IrIdSync

  ghost function Holders(n: Net, c: u8): set<nat> {
    set i: nat | i < |n.st| && n.st[i].Holds(c)
  }

  /** How many holders of c there are beyond the first. */
  ghost function Surplus(n: Net, c: u8): nat {
    if Holders(n, c) == {} then 0 else |Holders(n, c)| - 1
  }

  /** x holds c and no other holder of c has a smaller address. */
  ghost predicate SmallestHolder(n: Net, c: u8, x: nat) {
    x in Holders(n, c) && forall y :: y in Holders(n, c) ==> MacValue(n.st[x].mac) <= MacValue(n.st[y].mac)
  }

  /** A beacon for c is in flight. */
  ghost predicate Beaconed(n: Net, c: u8) {
    exists m :: m in n.pending && m.kind == TxBeacon && m.id == c
  }

  /** The smallest holder x is about to be provoked, or about to be heard by every rival. */
  ghost predicate Settling(n: Net, c: u8, x: nat) {
    || (exists m :: m in n.pending && m.kind == TxBeacon && m.id == c && m.to == x)
    || (forall y :: y in Holders(n, c) && y != x ==> Msg(x, y, TxBeacon, c) in n.pending)
  }

  /** Drain invariant for id c, relative to the state `at` right after the local action. */
  ghost predicate Draining(at: Net, n: Net, c: u8, beaconed: bool) {
    && WellFormed(at) && WellFormed(n) && |n.st| == |at.st|
    && (forall i :: 0 <= i < |n.st| ==> n.st[i].mac == at.st[i].mac)
    && Holders(n, c) <= Holders(at, c)
    && (forall x: nat :: SmallestHolder(at, c, x) ==> x in Holders(n, c))
    && (forall m :: m in n.pending && m.kind == TxBeacon && m.id == c ==> m.from in Holders(at, c))
    && (Beaconed(n, c) ==> beaconed)
    && (beaconed ==> forall x: nat :: SmallestHolder(at, c, x) ==> Settling(n, c, x))
  }

  /** A station that beacons c, and holds it, starts the settling of c. */
  lemma BeaconSettles(n: Net, y: nat, c: u8, tx: seq<Tx>, rest: seq<Msg>, x: nat)
    requires x < |n.st| && y < |n.st| && n.pending == rest + Fanout(n.st, y, tx) && Announce(c) in tx
    ensures Settling(n, c, x)
  {
    FanoutMembers(n.st, y, tx);
    if x != y {
      assert Msg(y, x, TxBeacon, c) in n.pending;
    } else {
      forall z | z in Holders(n, c) && z != x ensures Msg(x, z, TxBeacon, c) in n.pending {
        assert Msg(x, z, TxBeacon, c) in Fanout(n.st, y, tx);
      }
    }
  }

  lemma DeliverKeepsDraining(at: Net, n: Net, i: nat, c: u8, beaconed: bool, r: Step)
    requires Draining(at, n, c, beaconed) && i < |n.pending|
    requires var m := n.pending[i]; m in n.pending && Reaction(n.st[m.to], EventOf(n.st, m), r)
    ensures var m := n.pending[i]; var n' := Absorb(n.st, m.to, r, Without(n.pending, i), n.now);
            Draining(at, n', c, beaconed || Beaconed(n', c))
  {
    var m := n.pending[i];
    var y := m.to;
    var e := EventOf(n.st, m);
    var rest := Without(n.pending, i);
    var n' := Absorb(n.st, y, r, rest, n.now);
    WithoutMembers(n.pending, i);
    FanoutMembers(n'.st, y, r.tx);
    AbsorbWellFormed(n, y, e, r, rest, n.now);
    forall x: nat | SmallestHolder(at, c, x) ensures x in Holders(n', c) {
      if y == x && !r.s.Holds(c) {
        assert false;
      }
    }
    forall x: nat | (beaconed || Beaconed(n', c)) && SmallestHolder(at, c, x) ensures Settling(n', c, x) {
      if Announce(c) in r.tx {
        BeaconSettles(n', y, c, r.tx, rest, x);
      } else {
        assert Beaconed(n', c) ==> Beaconed(n, c);
        SettlingSurvives(at, n, i, c, x, r);
      }
    }
  }

  lemma SettlingSurvives(at: Net, n: Net, i: nat, c: u8, x: nat, r: Step)
    requires Draining(at, n, c, true) && i < |n.pending| && SmallestHolder(at, c, x)
    requires var m := n.pending[i]; m in n.pending && Reaction(n.st[m.to], EventOf(n.st, m), r)
    requires Announce(c) !in r.tx
    ensures Settling(Absorb(n.st, n.pending[i].to, r, Without(n.pending, i), n.now), c, x)
  {
    var m := n.pending[i];
    var y := m.to;
    var n' := Absorb(n.st, y, r, Without(n.pending, i), n.now);
    WithoutMembers(n.pending, i);
    if b :| b in n.pending && b.kind == TxBeacon && b.id == c && b.to == x {
      if b == m {
        // x would have insisted
        assert false;
      }
      assert b in n'.pending;
    } else {
      forall z | z in Holders(n', c) && z != x ensures Msg(x, z, TxBeacon, c) in n'.pending {
        assert n.st[z].Holds(c);
        assert z in Holders(n, c);
        if Msg(x, z, TxBeacon, c) == m {
          // z would have yielded
          assert false;
        }
      }
    }
  }

  lemma ActStartsDraining(n: Net, j: nat, e: Event, t: nat, r: Step, c: u8)
    requires WellFormed(n) && n.pending == [] && j < |n.st| && Local(e)
    requires Reaction(n.st[j], e, r)
    ensures var at := Absorb(n.st, j, r, [], t);
      && Draining(at, at, c, Beaconed(at, c))
      && Holders(at, c) <= Holders(n, c) + {j}
      && (Announce(c) in r.tx && |n.st| > 1 ==> Beaconed(at, c))
  {
    var at := Absorb(n.st, j, r, [], t);
    AbsorbWellFormed(n, j, e, r, [], t);
    FanoutMembers(at.st, j, r.tx);
    forall i | i in Holders(at, c) ensures i in Holders(n, c) + {j} {
      assert at.st[i].Holds(c);
      if i != j { assert n.st[i].Holds(c); }
    }
    if Announce(c) in r.tx {
      if |n.st| > 1 {
        var z := if j == 0 then 1 else 0;
        assert Msg(j, z, TxBeacon, c) in at.pending;
      }
      forall x: nat | SmallestHolder(at, c, x) ensures Settling(at, c, x) {
        BeaconSettles(at, j, c, r.tx, [], x);
      }
    }
  }

  // --- rounds ------------------------------------------------------------------------

  /** A beacon for c was in flight somewhere between states q+1 and l of a run. */
  ghost predicate BeaconedWithin(ns: seq<Net>, q: nat, l: nat, c: u8) {
    exists k :: q < k <= l < |ns| && Beaconed(ns[k], c)
  }

  /** States q and l are the two ends of one round. */
  ghost predicate Round(ns: seq<Net>, mvs: seq<Move>, q: nat, l: nat) {
    && Run(ns, mvs) && q < l < |ns|
    && ns[q].pending == [] && ns[l].pending == []
    && (forall k :: q < k < l ==> ns[k].pending != [])
    && WellFormed(ns[q])
  }

  lemma FirstMoveStartsDraining(n: Net, mv: Move, c: u8)
    requires WellFormed(n) && Enabled(n, mv) && !mv.Deliver?
    ensures Draining(Next(n, mv), Next(n, mv), c, Beaconed(Next(n, mv), c))
    ensures !Beaconed(Next(n, mv), c) ==> Surplus(Next(n, mv), c) <= Surplus(n, c)
  {
    var at := Next(n, mv);
    match mv
    case Join(mac, p, t) =>
      assert Holders(at, c) == Holders(n, c);
    case Act(j, e, t) =>
      var r := React(n.st[j], e, U32(t));
      ReactIsReaction(n.st[j], e, U32(t));
      ActStartsDraining(n, j, e, t, r, c);
      if !Beaconed(at, c) {
        if r.s.Holds(c) && !n.st[j].Holds(c) {
          // nobody else is there to hear the two announcements
          assert r.tx[0] == Announce(c);
          assert |n.st| == 1;
          Fewer(Holders(at, c), {0});
        } else {
          assert Holders(at, c) <= Holders(n, c);
          Fewer(Holders(at, c), Holders(n, c));
        }
      }
  }

  lemma Fewer(a: set<nat>, b: set<nat>)
    requires a <= b
    ensures |a| <= |b|
  {
    assert b == a + (b - a);
  }

  lemma DeliveryKeepsDraining(at: Net, n: Net, i: nat, c: u8, beaconed: bool)
    requires Draining(at, n, c, beaconed) && i < |n.pending|
    ensures Draining(at, Next(n, Deliver(i)), c, beaconed || Beaconed(Next(n, Deliver(i)), c))
  {
    var m := n.pending[i];
    assert m in n.pending;
    var r := React(n.st[m.to], EventOf(n.st, m), U32(n.now));
    ReactIsReaction(n.st[m.to], EventOf(n.st, m), U32(n.now));
    DeliverKeepsDraining(at, n, i, c, beaconed, r);
  }

  lemma WithinSplits(ns: seq<Net>, q: nat, k: nat, c: u8)
    requires q < k < |ns|
    ensures BeaconedWithin(ns, q, k, c) <==> BeaconedWithin(ns, q, k - 1, c) || Beaconed(ns[k], c)
  {
    if i :| q < i <= k < |ns| && Beaconed(ns[i], c) {
      assert i == k || BeaconedWithin(ns, q, k - 1, c);
    }
  }

  lemma {:induction false} RoundDrains(ns: seq<Net>, mvs: seq<Move>, q: nat, k: nat, c: u8)
    requires Run(ns, mvs) && q < k < |ns| && ns[q].pending == [] && WellFormed(ns[q])
    requires forall i :: q < i < k ==> ns[i].pending != []
    ensures Draining(ns[q + 1], ns[k], c, BeaconedWithin(ns, q, k, c))
  {
    hide Next, Draining, WellFormed;
    WithinSplits(ns, q, k, c);
    if k == q + 1 {
      FirstMoveStartsDraining(ns[q], mvs[q], c);
    } else {
      RoundDrains(ns, mvs, q, k - 1, c);
      RunWellFormed(ns, mvs, q, k - 1);
      assert Enabled(ns[k - 1], mvs[k - 1]);
      DeliveryKeepsDraining(ns[q + 1], ns[k - 1], mvs[k - 1].i, c, BeaconedWithin(ns, q, k - 1, c));
    }
  }

  lemma {:induction false} SmallestExists(n: Net, c: u8, some: set<nat>) returns (x: nat)
    requires some <= Holders(n, c) && some != {}
    ensures x in some && forall y :: y in some ==> MacValue(n.st[x].mac) <= MacValue(n.st[y].mac)
    decreases |some|
  {
    x :| x in some;
    if some != {x} {
      var z := SmallestExists(n, c, some - {x});
      if MacValue(n.st[z].mac) < MacValue(n.st[x].mac) { x := z; }
    }
  }

  /**
   One round, for every id: the smallest holder never yields, nobody joins the holders after
   the round's first move, and once any holder has beaconed only the smallest is left.
   */
  lemma RoundSettles(ns: seq<Net>, mvs: seq<Move>, q: nat, l: nat, c: u8)
    requires Round(ns, mvs, q, l)
    ensures Holders(ns[l], c) <= Holders(ns[q + 1], c)
    ensures forall x: nat :: SmallestHolder(ns[q + 1], c, x) ==> x in Holders(ns[l], c)
    ensures BeaconedWithin(ns, q, l, c) ==>
              forall x: nat :: SmallestHolder(ns[q + 1], c, x) ==> Holders(ns[l], c) == {x}
    ensures Surplus(ns[l], c) <= Surplus(ns[q], c)
  {
    hide Next, Draining, Run;
    RoundDrains(ns, mvs, q, l, c);
    FirstMoveOfRound(ns, mvs, q, l, c);
    QuietMeansSettled(ns[q + 1], ns[l], c, BeaconedWithin(ns, q, l, c));
  }

  lemma FirstMoveOfRound(ns: seq<Net>, mvs: seq<Move>, q: nat, l: nat, c: u8)
    requires Round(ns, mvs, q, l)
    ensures !BeaconedWithin(ns, q, l, c) ==> Surplus(ns[q + 1], c) <= Surplus(ns[q], c)
  {
    hide Next, Draining;
    FirstMoveStartsDraining(ns[q], mvs[q], c);
  }

  lemma QuietMeansSettled(at: Net, n: Net, c: u8, beaconed: bool)
    requires Draining(at, n, c, beaconed) && n.pending == []
    ensures Holders(n, c) <= Holders(at, c)
    ensures forall x: nat :: SmallestHolder(at, c, x) ==> x in Holders(n, c)
    ensures beaconed ==> forall x: nat :: SmallestHolder(at, c, x) ==> Holders(n, c) == {x}
    ensures Surplus(n, c) <= if beaconed then 0 else Surplus(at, c)
  {
    Fewer(Holders(n, c), Holders(at, c));
    if beaconed {
      forall x: nat | SmallestHolder(at, c, x) ensures Holders(n, c) == {x} {
        assert Settling(n, c, x);
      }
      if Holders(at, c) != {} {
        var x := SmallestExists(at, c, Holders(at, c));
        assert SmallestHolder(at, c, x);
      }
    }
  }

  /** Over any number of rounds the number of duplicate holders of an id never grows. */
  lemma {:induction false} SurplusNeverGrows(ns: seq<Net>, mvs: seq<Move>, q: nat, l: nat, c: u8)
    requires Run(ns, mvs) && q <= l < |ns| && ns[q].pending == [] && ns[l].pending == []
    requires WellFormed(ns[q])
    ensures Surplus(ns[l], c) <= Surplus(ns[q], c)
    decreases l - q
  {
    hide Next;
    if q < l {
      var p := PreviousQuiet(ns, q, l);
      SurplusNeverGrows(ns, mvs, q, p, c);
      RunWellFormed(ns, mvs, q, p);
      RoundSettles(ns, mvs, p, l, c);
    }
  }

  lemma PreviousQuiet(ns: seq<Net>, q: nat, l: nat) returns (p: nat)
    requires q < l < |ns| && ns[q].pending == []
    ensures q <= p < l && ns[p].pending == [] && forall k :: p < k < l ==> ns[k].pending != []
  {
    p := l - 1;
    while ns[p].pending != []
      decreases p
      invariant q <= p < l && forall k :: p < k < l ==> ns[k].pending != []
    {
      p := p - 1;
    }
  }

  /**
   Self-healing: when a holder's periodic beacon falls due, the round it starts leaves
   exactly the holder with the smallest address, however many there were.
   */
  lemma BeaconHeals(ns: seq<Net>, mvs: seq<Move>, q: nat, l: nat, c: u8, j: nat, t: nat, x: nat)
    requires Round(ns, mvs, q, l) && mvs[q] == Act(j, Clock, t)
    requires j in Holders(ns[q], c) && Elapsed(U32(t), ns[q].st[j].lastBeaconMs, T_BEACON)
    requires SmallestHolder(ns[q], c, x)
    ensures Holders(ns[l], c) == {x}
  {
    hide Next;
    DueBeaconStarts(ns[q], j, t, c);
    RoundSettles(ns, mvs, q, l, c);
    assert SmallestHolder(ns[q + 1], c, x);
    if |ns[q].st| > 1 { assert BeaconedWithin(ns, q, l, c); }
  }

  lemma DueBeaconStarts(n: Net, j: nat, t: nat, c: u8)
    requires WellFormed(n) && Enabled(n, Act(j, Clock, t)) && j in Holders(n, c)
    requires Elapsed(U32(t), n.st[j].lastBeaconMs, T_BEACON)
    ensures var at := Next(n, Act(j, Clock, t));
      && |at.st| == |n.st|
      && (forall i :: 0 <= i < |n.st| ==> at.st[i].mac == n.st[i].mac)
      && Holders(at, c) == Holders(n, c)
      && (|n.st| > 1 ==> Beaconed(at, c))
  {
    var r := React(n.st[j], Clock, U32(t));
    ReactIsReaction(n.st[j], Clock, U32(t));
    assert r.tx == [Announce(c)] && r.s.Holds(c);
    ActStartsDraining(n, j, Clock, t, r, c);
  }
}
