/**
 One relation that says what any event may do to any station, and how the packets of one
 station fan out to the others. The network proofs use only these facts.
 */
module IrIdReaction {
  import opened Words
  import opened IrIdStation

  datatype Event =
    | Boot(preferred: u8)
    | Clock
    | ProbeFrom(src: Mac, id: u8)
    | BeaconFrom(src: Mac, id: u8)
    | Hit(id: u8)

  function React(s: Station, e: Event, now: u32): Step
    requires s.Sized() && s.candidate <= 15
  {
    match e
    case Boot(p) => Step(Begin(s, s.mac, p, now), [])
    case Clock => Tick(s, now)
    case ProbeFrom(src, i) => OnProbe(s, src, i, now)
    case BeaconFrom(src, i) => OnBeacon(s, src, i, now)
    case Hit(i) => OnHitReport(s, i, now)
  }

  function Announce(i: u8): Tx {
    Tx(TxBeacon, i, Broadcast)
  }

  /** Everything the protocol relies on about one reaction `r` of `s` to `e`. */
  predicate Reaction(s: Station, e: Event, r: Step) {
    && StationOk(s) && StationOk(r.s)
    && r.s.mac == s.mac
    // an id is taken only by the clock, out of a probe for it, and is announced
    && (forall c: u8 :: r.s.Holds(c) && !s.Holds(c) ==>
          e == Clock && s.Probes(c) && r.tx == [Announce(c), Announce(c)])
    // an id is given up only at boot or to a smaller address that beacons it
    && (forall c: u8 :: s.Holds(c) && !r.s.Holds(c) ==>
          r.s.state != Held &&
          (e.Boot? || (e.BeaconFrom? && e.id == c && MacValue(e.src) < MacValue(s.mac))))
    // a probe is either the old one, unchanged, or is broadcast in this step
    && (forall c: u8 :: r.s.Probes(c) ==>
          || r.tx == [Tx(TxProbe, c, Broadcast)]
          || (r.tx == [] && s.Probes(c) && !(e.BeaconFrom? && e.id == c && e.src != s.mac)))
    // a station only speaks for the claim it ends up with; beacons always reach everybody
    && (forall t :: t in r.tx ==>
          ValidId(t.id) && (if t.kind == TxProbe then r.s.Probes(t.id) && t.dst == Broadcast
                            else r.s.Holds(t.id) && Announce(t.id) in r.tx))
    // a holder answers a probe for its id both ways
    && (forall c: u8 :: s.Holds(c) && e.ProbeFrom? && e.id == c && e.src != s.mac ==>
          r.tx == [Tx(TxBeacon, c, Unicast(e.src)), Announce(c)])
    // two holders meet: the smaller address insists, the larger one yields
    && (forall c: u8 :: s.Holds(c) && e.BeaconFrom? && e.id == c && e.src != s.mac ==>
          if MacValue(e.src) < MacValue(s.mac) then !r.s.Holds(c) else r.tx == [Announce(c)])
  }

  lemma ReactionIsSound(s: Station, e: Event, r: Step)
    requires Reaction(s, e, r)
    ensures StationOk(s) && StationOk(r.s) && r.s.mac == s.mac
  {
  }

  lemma ReactIsReaction(s: Station, e: Event, now: u32)
    requires StationOk(s)
    ensures Reaction(s, e, React(s, e, now))
  {
    match e
    case Boot(p) =>
    case Clock => TickReaction(s, now);
    case ProbeFrom(src, i) => OnProbeReaction(s, src, i, now);
    case BeaconFrom(src, i) => OnBeaconReaction(s, src, i, now);
    case Hit(i) => OnHitReaction(s, i, now);
  }

  lemma ReactIsSound(s: Station, e: Event, now: u32)
    requires StationOk(s)
    ensures StationOk(React(s, e, now).s)
  {
    hide Reaction, React;
    ReactIsReaction(s, e, now);
    ReactionIsSound(s, e, React(s, e, now));
  }

  lemma TickReaction(s: Station, now: u32)
    requires StationOk(s)
    ensures Reaction(s, Clock, Tick(s, now))
  {
    hide StartProbe, Station.IsOccupied;
    if s.state == Listen { StartProbeRestarts(s, now); }
  }

  lemma OnProbeReaction(s: Station, src: Mac, i: u8, now: u32)
    requires StationOk(s)
    ensures Reaction(s, ProbeFrom(src, i), OnProbe(s, src, i, now))
  {
    hide StartProbe, MemcmpLess, MacValue, Station.IsOccupied;
    var n := Note(s, i, now);
    if s.state == Probe { StartProbeRestarts(n, now); }
  }

  lemma OnBeaconReaction(s: Station, src: Mac, i: u8, now: u32)
    requires StationOk(s)
    ensures Reaction(s, BeaconFrom(src, i), OnBeacon(s, src, i, now))
  {
    hide StartProbe, MemcmpLess, MacValue, Station.IsOccupied;
    MemcmpIsNumericOrder(src, s.mac);
    if ValidId(i) && src != s.mac {
      var n := Note(s, i, now);
      if s.Probes(i) {
        StartProbeRestarts(n, now);
      } else if s.Holds(i) && MemcmpLess(src, s.mac) {
        YieldReaction(s, src, i, now);
      }
    }
  }

  lemma YieldReaction(s: Station, src: Mac, i: u8, now: u32)
    requires StationOk(s) && s.Holds(i) && MacValue(src) < MacValue(s.mac) && ValidId(i)
    ensures Reaction(s, BeaconFrom(src, i), StartProbe(SetId(Note(s, i, now), 0), now))
  {
    hide StartProbe, MacValue, Station.IsOccupied;
    StartProbeRestarts(SetId(Note(s, i, now), 0), now);
  }

  lemma OnHitReaction(s: Station, i: u8, now: u32)
    requires StationOk(s)
    ensures Reaction(s, Hit(i), OnHitReport(s, i, now))
  {
    if s.state == Probe { StartProbeRestarts(Note(s, i, now), now); }
  }

  // --- delivery --------------------------------------------------------------------

  /** A packet on its way from one station to another. */
  datatype Msg = Msg(from: nat, to: nat, kind: TxKind, id: u8)

  predicate Addressed(s: Station, dst: Dest) {
    dst == Broadcast || dst == Unicast(s.mac)
  }

  /** Copies of one packet for the stations below index n. */
  function Copies(st: seq<Station>, from: nat, t: Tx, n: nat): (ms: seq<Msg>)
    requires n <= |st|
  {
    if n == 0 then []
    else
      Copies(st, from, t, n - 1) +
      (if n - 1 != from && Addressed(st[n - 1], t.dst) then [Msg(from, n - 1, t.kind, t.id)] else [])
  }

  /** All copies of all packets of one step, in sending order. */
  function Fanout(st: seq<Station>, from: nat, tx: seq<Tx>): seq<Msg> {
    if tx == [] then [] else Copies(st, from, tx[0], |st|) + Fanout(st, from, tx[1..])
  }

  lemma {:induction false} CopiesMembers(st: seq<Station>, from: nat, t: Tx, n: nat)
    requires n <= |st|
    ensures forall m :: m in Copies(st, from, t, n) <==>
              m.from == from && m.to < n && m.to != from && m.kind == t.kind && m.id == t.id &&
              Addressed(st[m.to], t.dst)
  {
    if n > 0 { CopiesMembers(st, from, t, n - 1); }
  }

  /** Every station a packet is addressed to gets a copy, and nobody else does. */
  lemma {:induction false} FanoutMembers(st: seq<Station>, from: nat, tx: seq<Tx>)
    ensures forall m :: m in Fanout(st, from, tx) <==>
              m.from == from && m.to < |st| && m.to != from &&
              exists t :: t in tx && t.kind == m.kind && t.id == m.id && Addressed(st[m.to], t.dst)
  {
    if tx != [] {
      CopiesMembers(st, from, tx[0], |st|);
      FanoutMembers(st, from, tx[1..]);
    }
  }

  predicate DistinctMacs(st: seq<Station>) {
    forall i, j :: 0 <= i < j < |st| ==> st[i].mac != st[j].mac
  }

  predicate AllOk(st: seq<Station>) {
    forall i :: 0 <= i < |st| ==> StationOk(st[i])
  }

  function EventOf(st: seq<Station>, m: Msg): Event
    requires m.from < |st|
  {
    if m.kind == TxProbe then ProbeFrom(st[m.from].mac, m.id) else BeaconFrom(st[m.from].mac, m.id)
  }
}
