/**
 The arbitrary network: packets may be lost, delayed and duplicated without bound and may
 arrive in any order, but are never forged. A packet that was sent once may therefore be
 received at any later time, any number of times, or never.
 */
module IrIdArbitrary {
  import opened Words
  import opened IrIdStation
  import opened IrIdReaction

  datatype World = World(st: seq<Station>, sent: set<Msg>, now: nat)

  datatype Move =
    | Join(mac: Mac, preferred: u8, t: nat)
    | Act(j: nat, e: Event, t: nat)
    | Receive(m: Msg, t: nat)

  /** The station that reacts, and the event it reacts to. */
  function Subject(w: World, mv: Move): (nat, Event)
    requires Enabled(w, mv) && !mv.Join?
  {
    if mv.Act? then (mv.j, mv.e) else (mv.m.to, EventOf(w.st, mv.m))
  }

  predicate Enabled(w: World, mv: Move) {
    match mv
    case Join(mac, p, t) => w.now <= t && forall i :: 0 <= i < |w.st| ==> w.st[i].mac != mac
    case Act(j, e, t) => w.now <= t && j < |w.st| && (e.Boot? || e.Clock? || e.Hit?)
    case Receive(m, t) => w.now <= t && m in w.sent && m.from < |w.st| && m.to < |w.st|
  }

  function Apply(w: World, x: nat, r: Step, t: nat): World
    requires x < |w.st|
  {
    var st' := w.st[x := r.s];
    World(st', w.sent + (set m | m in Fanout(st', x, r.tx)), t)
  }

  function Next(w: World, mv: Move): World
    requires Sound(w) && Enabled(w, mv)
  {
    match mv
    case Join(mac, p, t) => World(w.st + [Begin(Fresh(mac), mac, p, U32(t))], w.sent, t)
    case _ =>
      var (x, e) := Subject(w, mv);
      Apply(w, x, React(w.st[x], e, U32(mv.t)), mv.t)
  }

  predicate Sound(w: World) {
    && AllOk(w.st)
    && DistinctMacs(w.st)
    && forall m :: m in w.sent ==> m.from < |w.st| && m.to < |w.st| && m.from != m.to && ValidId(m.id)
  }

  ghost predicate Run(ws: seq<World>, mvs: seq<Move>) {
    && |ws| == |mvs| + 1
    && ws[0].st == [] && ws[0].sent == {}
    && forall k :: 0 <= k < |mvs| ==>
         Enabled(ws[k], mvs[k]) && (Sound(ws[k]) ==> ws[k + 1] == Next(ws[k], mvs[k]))
  }

  // --- one move ----------------------------------------------------------------------

  /** What any move does to any station that is already there, and to the air. */
  ghost predicate Moved(w: World, mv: Move, w': World) {
    && Sound(w) && Sound(w') && |w.st| <= |w'.st|
    && (forall i :: 0 <= i < |w.st| ==> w'.st[i].mac == w.st[i].mac)
    && (forall i, c: u8 {:trigger w.st[i].Holds(c)} ::
          0 <= i < |w.st| && w.st[i].Holds(c) && !w'.st[i].Holds(c) ==>
            || (mv.Act? && mv.j == i && mv.e.Boot?)
            || (mv.Receive? && mv.m.to == i && mv.m.kind == TxBeacon && mv.m.id == c && mv.m in w.sent &&
                MacValue(w.st[mv.m.from].mac) < MacValue(w.st[i].mac)))
    && (forall m :: m in w'.sent && m !in w.sent && m.kind == TxBeacon ==> w'.st[m.from].Holds(m.id))
  }

  lemma EveryMove(w: World, mv: Move)
    requires Sound(w) && Enabled(w, mv)
    ensures Moved(w, mv, Next(w, mv))
  {
    if !mv.Join? {
      var (x, e) := Subject(w, mv);
      ReactIsReaction(w.st[x], e, U32(mv.t));
      ApplyMoves(w, mv, x, e, React(w.st[x], e, U32(mv.t)), mv.t);
    }
  }

  lemma ApplyMoves(w: World, mv: Move, x: nat, e: Event, r: Step, t: nat)
    requires Sound(w) && Enabled(w, mv) && !mv.Join? && (x, e) == Subject(w, mv)
    requires Reaction(w.st[x], e, r)
    ensures Moved(w, mv, Apply(w, x, r, t))
  {
    FanoutMembers(w.st[x := r.s], x, r.tx);
  }

  // --- whole runs ----------------------------------------------------------------------

  /** Sender of a beacon in the air, and the id it held when it sent it. */
  ghost predicate HeldOnce(ws: seq<World>, k: nat, j: nat, c: u8) {
    exists q :: 0 <= q <= k < |ws| && j < |ws[q].st| && ws[q].st[j].Holds(c)
  }

  lemma {:induction false} RunInvariant(ws: seq<World>, mvs: seq<Move>, k: nat)
    requires Run(ws, mvs) && k < |ws|
    ensures Sound(ws[k])
    ensures forall m :: m in ws[k].sent && m.kind == TxBeacon ==> HeldOnce(ws, k, m.from, m.id)
  {
    if k == 0 {
    } else {
      RunInvariant(ws, mvs, k - 1);
      EveryMove(ws[k - 1], mvs[k - 1]);
      assert Moved(ws[k - 1], mvs[k - 1], ws[k]);
      SentWhileHeld(ws, mvs, k);
    }
  }

  lemma SentWhileHeld(ws: seq<World>, mvs: seq<Move>, k: nat)
    requires 0 < k < |ws| == |mvs| + 1 && Moved(ws[k - 1], mvs[k - 1], ws[k])
    requires forall m :: m in ws[k - 1].sent && m.kind == TxBeacon ==> HeldOnce(ws, k - 1, m.from, m.id)
    ensures forall m :: m in ws[k].sent && m.kind == TxBeacon ==> HeldOnce(ws, k, m.from, m.id)
  {
    forall m | m in ws[k].sent && m.kind == TxBeacon ensures HeldOnce(ws, k, m.from, m.id) {
      if m in ws[k - 1].sent {
        var q :| 0 <= q <= k - 1 && m.from < |ws[q].st| && ws[q].st[m.from].Holds(m.id);
      } else {
        assert ws[k].st[m.from].Holds(m.id);
      }
    }
  }

  lemma RunMoves(ws: seq<World>, mvs: seq<Move>, k: nat)
    requires Run(ws, mvs) && k < |mvs|
    ensures Moved(ws[k], mvs[k], ws[k + 1])
  {
    hide Next, Moved;
    RunInvariant(ws, mvs, k);
    EveryMove(ws[k], mvs[k]);
  }

  /**
   The per-station guarantees, at every state of every run: an id in 1..15 exactly while
   HELD, a candidate in 1..15 exactly while in PROBE, and no evidence against the own id.
   */
  lemma EveryStationIsSound(ws: seq<World>, mvs: seq<Move>, k: nat, i: nat, now: u32)
    requires Run(ws, mvs) && k < |ws| && i < |ws[k].st|
    ensures var s := ws[k].st[i];
      && s.Sized()
      && (if s.state == Held then 1 <= s.id <= 15 && !s.IsOccupied(s.id, now) else s.id == 0)
      && (if s.state == Probe then 1 <= s.candidate <= 15 && 1 <= s.probesSent <= 3 else s.candidate == 0)
  {
    RunInvariant(ws, mvs, k);
  }

  /** An id is lost only to a strictly smaller address that held the same id before. */
  lemma HeldIsLostOnlyToSmallerHolder(ws: seq<World>, mvs: seq<Move>, k: nat, i: nat, c: u8)
    requires Run(ws, mvs) && k < |mvs| && i < |ws[k].st| && ws[k].st[i].Holds(c)
    requires !(mvs[k].Act? && mvs[k].j == i && mvs[k].e.Boot?)
    requires !(i < |ws[k + 1].st| && ws[k + 1].st[i].Holds(c))
    ensures mvs[k].Receive? && mvs[k].m.to == i && mvs[k].m.kind == TxBeacon && mvs[k].m.id == c
    ensures var j := mvs[k].m.from;
            j < |ws[k].st| && MacValue(ws[k].st[j].mac) < MacValue(ws[k].st[i].mac) && HeldOnce(ws, k, j, c)
  {
    RunInvariant(ws, mvs, k);
    EveryMove(ws[k], mvs[k]);
    assert Moved(ws[k], mvs[k], ws[k + 1]);
  }

  /** The station with the smallest address never loses an id once held. */
  lemma {:induction false} SmallestAddressKeepsItsId(ws: seq<World>, mvs: seq<Move>, k: nat, l: nat, i: nat, c: u8)
    requires Run(ws, mvs) && k <= l < |ws| && i < |ws[k].st| && ws[k].st[i].Holds(c)
    requires forall q :: k <= q < l ==> !(mvs[q].Act? && mvs[q].j == i && mvs[q].e.Boot?)
    requires i < |ws[l].st| && forall j :: 0 <= j < |ws[l].st| ==> MacValue(ws[l].st[i].mac) <= MacValue(ws[l].st[j].mac)
    ensures ws[l].st[i].Holds(c)
  {
    hide Next, Enabled, AllOk, DistinctMacs;
    if k < l {
      RunMoves(ws, mvs, l - 1);
      StationsStay(ws, mvs, k, l - 1);
      SmallestBefore(ws[l - 1], mvs[l - 1], ws[l], i);
      SmallestAddressKeepsItsId(ws, mvs, k, l - 1, i, c);
    }
  }

  lemma SmallestBefore(w: World, mv: Move, w': World, i: nat)
    requires Moved(w, mv, w') && i < |w.st|
    requires forall j :: 0 <= j < |w'.st| ==> MacValue(w'.st[i].mac) <= MacValue(w'.st[j].mac)
    ensures forall j :: 0 <= j < |w.st| ==> MacValue(w.st[i].mac) <= MacValue(w.st[j].mac)
  {
    forall j | 0 <= j < |w.st| ensures MacValue(w.st[i].mac) <= MacValue(w.st[j].mac) {
      assert w'.st[j].mac == w.st[j].mac;
    }
  }

  lemma {:induction false} StationsStay(ws: seq<World>, mvs: seq<Move>, k: nat, l: nat)
    requires Run(ws, mvs) && k <= l < |ws|
    ensures |ws[k].st| <= |ws[l].st|
  {
    hide Next, Enabled, AllOk, DistinctMacs;
    if k < l {
      StationsStay(ws, mvs, k, l - 1);
      RunMoves(ws, mvs, l - 1);
    }
  }
}
