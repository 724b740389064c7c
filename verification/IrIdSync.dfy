/**
 The synchronous lossless network: one station acts, then every packet in flight is
 delivered at that instant, in any order, before the next station acts. Any number of
 stations, any boot order, any tick schedule, reboots included.
 */
module IrIdSync {
  import opened Words
  import opened IrIdStation
  import opened IrIdReaction

  datatype Net = Net(st: seq<Station>, pending: seq<Msg>, now: nat)

  datatype Move =
    | Join(mac: Mac, preferred: u8, t: nat)
    | Act(j: nat, e: Event, t: nat)
    | Deliver(i: nat)

  predicate Local(e: Event) {
    e.Boot? || e.Clock? || e.Hit?
  }

  ghost predicate Enabled(n: Net, mv: Move) {
    match mv
    case Join(mac, p, t) => n.pending == [] && n.now <= t && forall i :: 0 <= i < |n.st| ==> n.st[i].mac != mac
    case Act(j, e, t) => n.pending == [] && n.now <= t && j < |n.st| && Local(e)
    case Deliver(i) => i < |n.pending|
  }

  /** Station x has reacted with r: its packets join those still in flight. */
  function Absorb(st: seq<Station>, x: nat, r: Step, rest: seq<Msg>, now: nat): Net
    requires x < |st|
  {
    var st' := st[x := r.s];
    Net(st', rest + Fanout(st', x, r.tx), now)
  }

  function Without(ms: seq<Msg>, i: nat): seq<Msg>
    requires i < |ms|
  {
    ms[..i] + ms[i + 1..]
  }

  ghost function Next(n: Net, mv: Move): Net
    requires WellFormed(n) && Enabled(n, mv)
  {
    match mv
    case Join(mac, p, t) => Net(n.st + [Begin(Fresh(mac), mac, p, U32(t))], [], t)
    case Act(j, e, t) => Absorb(n.st, j, React(n.st[j], e, U32(t)), [], t)
    case Deliver(i) =>
      var m := n.pending[i];
      assert m in n.pending;
      Absorb(n.st, m.to, React(n.st[m.to], EventOf(n.st, m), U32(n.now)), Without(n.pending, i), n.now)
  }

  // --- invariants ------------------------------------------------------------------

  predicate Routable(n: Net, m: Msg) {
    m.from < |n.st| && m.to < |n.st| && m.from != m.to && ValidId(m.id)
  }

  predicate WellFormed(n: Net) {
    && AllOk(n.st)
    && DistinctMacs(n.st)
    && forall m :: m in n.pending ==> Routable(n, m)
  }

  /** Held ids are pairwise distinct. */
  ghost predicate Unique(n: Net) {
    forall i, j, c: u8 {:trigger n.st[i].Holds(c), n.st[j].Holds(c)} ::
      0 <= i < |n.st| && 0 <= j < |n.st| && n.st[i].Holds(c) && n.st[j].Holds(c) ==> i == j
  }

  /** A prober of a held id and its holder are about to hear of each other. */
  ghost predicate Defended(n: Net) {
    forall a, b, c: u8 {:trigger n.st[a].Holds(c), n.st[b].Probes(c)} ::
      0 <= a < |n.st| && 0 <= b < |n.st| && n.st[a].Holds(c) && n.st[b].Probes(c) ==>
        Msg(a, b, TxBeacon, c) in n.pending || Msg(b, a, TxProbe, c) in n.pending
  }

  /** A beacon in flight is still true. */
  ghost predicate Truthful(n: Net) {
    forall m :: m in n.pending && m.kind == TxBeacon ==> m.from < |n.st| && n.st[m.from].Holds(m.id)
  }

  ghost predicate Inv(n: Net) {
    WellFormed(n) && Unique(n) && Defended(n) && Truthful(n)
  }

  // --- one move --------------------------------------------------------------------

  lemma WithoutMembers(ms: seq<Msg>, i: nat)
    requires i < |ms|
    ensures forall m :: m in Without(ms, i) ==> m in ms
    ensures forall m :: m in ms && m != ms[i] ==> m in Without(ms, i)
  {
    forall m | m in ms && m != ms[i] ensures m in Without(ms, i) {
      var k :| 0 <= k < |ms| && ms[k] == m;
      if k < i { assert Without(ms, i)[k] == m; } else { assert Without(ms, i)[k - 1] == m; }
    }
  }

  lemma AbsorbWellFormed(n: Net, x: nat, e: Event, r: Step, rest: seq<Msg>, now: nat)
    requires WellFormed(n) && x < |n.st| && Reaction(n.st[x], e, r)
    requires forall m :: m in rest ==> m in n.pending
    ensures WellFormed(Absorb(n.st, x, r, rest, now))
  {
    FanoutMembers(n.st[x := r.s], x, r.tx);
  }

  /** Under the invariant a delivery makes nobody take or give up an id. */
  lemma DeliverKeepsHolders(n: Net, m: Msg, r: Step)
    requires Inv(n) && m in n.pending && Reaction(n.st[m.to], EventOf(n.st, m), r)
    ensures forall c: u8 :: r.s.Holds(c) <==> n.st[m.to].Holds(c)
  {
    hide AllOk, DistinctMacs;
    forall c: u8 ensures r.s.Holds(c) <==> n.st[m.to].Holds(c) {
      if n.st[m.to].Holds(c) && !r.s.Holds(c) {
        // a yield needs a second holder, whose beacon was true
        assert false;
      }
    }
  }

  lemma DeliverDefends(n: Net, i: nat, r: Step)
    requires Inv(n) && i < |n.pending|
    requires var m := n.pending[i]; m in n.pending && Reaction(n.st[m.to], EventOf(n.st, m), r)
    requires forall c: u8 :: r.s.Holds(c) <==> n.st[n.pending[i].to].Holds(c)
    ensures Defended(Absorb(n.st, n.pending[i].to, r, Without(n.pending, i), n.now))
  {
    hide Truthful, Unique, AllOk;
    var m := n.pending[i];
    var x := m.to;
    var n' := Absorb(n.st, x, r, Without(n.pending, i), n.now);
    WithoutMembers(n.pending, i);
    FanoutMembers(n'.st, x, r.tx);
    hide Without, Fanout;
    forall a, b, c: u8 | 0 <= a < |n'.st| && 0 <= b < |n'.st| && n'.st[a].Holds(c) && n'.st[b].Probes(c)
      ensures Msg(a, b, TxBeacon, c) in n'.pending || Msg(b, a, TxProbe, c) in n'.pending
    {
      assert n.st[a].Holds(c);
      if b == x && r.tx == [Tx(TxProbe, c, Broadcast)] {
        assert r.tx[0] in r.tx;
        assert Msg(b, a, TxProbe, c) in Fanout(n'.st, x, r.tx);
      } else {
        assert n.st[b].Probes(c);
        if a == x && m == Msg(b, a, TxProbe, c) {
          assert Announce(c) in r.tx;
          assert Msg(a, b, TxBeacon, c) in Fanout(n'.st, x, r.tx);
        }
      }
    }
  }

  lemma DeliverKeepsInv(n: Net, i: nat, r: Step)
    requires Inv(n) && i < |n.pending|
    requires var m := n.pending[i]; m in n.pending && Reaction(n.st[m.to], EventOf(n.st, m), r)
    ensures var m := n.pending[i]; var n' := Absorb(n.st, m.to, r, Without(n.pending, i), n.now);
      && Inv(n')
      && forall k, c: u8 {:trigger n.st[k].Holds(c)} :: 0 <= k < |n.st| ==>
           (n'.st[k].Holds(c) <==> n.st[k].Holds(c))
  {
    var m := n.pending[i];
    var rest := Without(n.pending, i);
    WithoutMembers(n.pending, i);
    AbsorbWellFormed(n, m.to, EventOf(n.st, m), r, rest, n.now);
    DeliverKeepsHolders(n, m, r);
    DeliverDefends(n, i, r);
    FanoutMembers(n.st[m.to := r.s], m.to, r.tx);
    hide WellFormed, Defended, Without, Fanout, EventOf;
  }

  lemma ActKeepsInv(n: Net, j: nat, e: Event, t: nat, r: Step)
    requires Inv(n) && n.pending == [] && j < |n.st| && Local(e)
    requires Reaction(n.st[j], e, r)
    ensures var n' := Absorb(n.st, j, r, [], t);
      && Inv(n')
      && (!e.Boot? ==> forall k, c: u8 {:trigger n.st[k].Holds(c)} ::
            0 <= k < |n.st| && n.st[k].Holds(c) ==> n'.st[k].Holds(c))
  {
    AbsorbWellFormed(n, j, e, r, [], t);
    ActDefends(n, j, e, t, r);
    FanoutMembers(n.st[j := r.s], j, r.tx);
    hide WellFormed, Defended;
  }

  lemma ActDefends(n: Net, j: nat, e: Event, t: nat, r: Step)
    requires Inv(n) && n.pending == [] && j < |n.st| && Local(e)
    requires Reaction(n.st[j], e, r)
    ensures Defended(Absorb(n.st, j, r, [], t))
  {
    hide WellFormed, Truthful;
    var n' := Absorb(n.st, j, r, [], t);
    FanoutMembers(n'.st, j, r.tx);
    forall a, b, c: u8 | 0 <= a < |n'.st| && 0 <= b < |n'.st| && n'.st[a].Holds(c) && n'.st[b].Probes(c)
      ensures Msg(a, b, TxBeacon, c) in n'.pending || Msg(b, a, TxProbe, c) in n'.pending
    {
      if b == j && r.tx == [Tx(TxProbe, c, Broadcast)] {
        assert r.tx[0] in r.tx;
        assert Msg(b, a, TxProbe, c) in Fanout(n'.st, j, r.tx);
      } else {
        assert n.st[b].Probes(c);
        assert a == j && !n.st[a].Holds(c);
        assert r.tx[0] in r.tx;
        assert Msg(a, b, TxBeacon, c) in Fanout(n'.st, j, r.tx);
      }
    }
  }

  /** Every move keeps the invariant; only a reboot takes an id away. */
  lemma MoveKeepsInv(n: Net, mv: Move)
    requires Inv(n) && Enabled(n, mv)
    ensures Inv(Next(n, mv)) && |n.st| <= |Next(n, mv).st|
    ensures forall k, c: u8 {:trigger n.st[k].Holds(c)} ::
              0 <= k < |n.st| && n.st[k].Holds(c) && !(mv.Act? && mv.j == k && mv.e.Boot?) ==>
                Next(n, mv).st[k].Holds(c)
  {
    match mv
    case Join(mac, p, t) =>
    case Act(j, e, t) =>
      ReactIsReaction(n.st[j], e, U32(t));
      ActKeepsInv(n, j, e, t, React(n.st[j], e, U32(t)));
    case Deliver(i) =>
      var m := n.pending[i];
      assert m in n.pending;
      ReactIsReaction(n.st[m.to], EventOf(n.st, m), U32(n.now));
      DeliverKeepsInv(n, i, React(n.st[m.to], EventOf(n.st, m), U32(n.now)));
  }

  lemma MoveKeepsWellFormed(n: Net, mv: Move)
    requires WellFormed(n) && Enabled(n, mv)
    ensures WellFormed(Next(n, mv))
  {
    match mv
    case Join(mac, p, t) =>
    case Act(j, e, t) =>
      ReactIsReaction(n.st[j], e, U32(t));
      AbsorbWellFormed(n, j, e, React(n.st[j], e, U32(t)), [], t);
    case Deliver(i) =>
      var m := n.pending[i];
      assert m in n.pending;
      var e := EventOf(n.st, m);
      ReactIsReaction(n.st[m.to], e, U32(n.now));
      WithoutMembers(n.pending, i);
      AbsorbWellFormed(n, m.to, e, React(n.st[m.to], e, U32(n.now)), Without(n.pending, i), n.now);
  }

  // --- whole runs --------------------------------------------------------------------

  /** A run: a state before each move and one at the end. */
  ghost predicate Run(ns: seq<Net>, mvs: seq<Move>) {
    && |ns| == |mvs| + 1
    && forall k :: 0 <= k < |mvs| ==>
         Enabled(ns[k], mvs[k]) && (WellFormed(ns[k]) ==> ns[k + 1] == Next(ns[k], mvs[k]))
  }

  /** No station, no packet; the clock may show anything. */
  predicate Start(n: Net) {
    n.st == [] && n.pending == []
  }

  /** Sound stations stay sound, whatever happens. */
  lemma {:induction false} RunWellFormed(ns: seq<Net>, mvs: seq<Move>, q: nat, k: nat)
    requires Run(ns, mvs) && q <= k < |ns| && WellFormed(ns[q])
    ensures WellFormed(ns[k])
  {
    hide Next, WellFormed;
    if q < k {
      RunWellFormed(ns, mvs, q, k - 1);
      MoveKeepsWellFormed(ns[k - 1], mvs[k - 1]);
    }
  }

  lemma {:induction false} RunKeepsInv(ns: seq<Net>, mvs: seq<Move>, k: nat)
    requires Run(ns, mvs) && Inv(ns[0]) && k < |ns|
    ensures Inv(ns[k])
  {
    if k > 0 {
      RunKeepsInv(ns, mvs, k - 1);
      MoveKeepsInv(ns[k - 1], mvs[k - 1]);
    }
  }

  /** Uniqueness: at every state of every run, two stations never hold the same id. */
  lemma HeldIdsAreDistinct(ns: seq<Net>, mvs: seq<Move>, k: nat, i: nat, j: nat)
    requires Run(ns, mvs) && Start(ns[0])
    requires k < |ns| && i < |ns[k].st| && j < |ns[k].st| && i != j
    requires ns[k].st[i].state == Held && ns[k].st[j].state == Held
    ensures ns[k].st[i].id != ns[k].st[j].id
  {
    RunKeepsInv(ns, mvs, k);
    assert ns[k].st[i].Holds(ns[k].st[i].id) && ns[k].st[j].Holds(ns[k].st[j].id);
  }

  /** Stability: a held id is kept for the rest of the run, unless the station is rebooted. */
  lemma {:induction false} HeldIdIsKept(ns: seq<Net>, mvs: seq<Move>, k: nat, l: nat, i: nat, c: u8)
    requires Run(ns, mvs) && Start(ns[0])
    requires k <= l < |ns| && i < |ns[k].st| && ns[k].st[i].Holds(c)
    requires forall q :: k <= q < l ==> !(mvs[q].Act? && mvs[q].j == i && mvs[q].e.Boot?)
    ensures i < |ns[l].st| && ns[l].st[i].Holds(c)
  {
    if k < l {
      HeldIdIsKept(ns, mvs, k, l - 1, i, c);
      RunKeepsInv(ns, mvs, l - 1);
      MoveKeepsInv(ns[l - 1], mvs[l - 1]);
    }
  }
}
