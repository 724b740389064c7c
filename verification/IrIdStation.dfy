/**
 Zero-config negotiation of a station's IR id: the state of one station and what each
 event does to it. Every event is a function from the old state to the new state and the
 packets handed to the radio; class IrIdNegotiator refines these functions in place.
 */
module IrIdStation {
  import opened Words

  const T_LISTEN: nat := 3000
  const T_PROBE: nat := 150
  const N_PROBE: nat := 3
  const T_BEACON: nat := 2000
  const T_EXPIRE: nat := 8000
  const T_RETRY: nat := 30000

  datatype State = Listen | Probe | Held
  datatype TxKind = TxProbe | TxBeacon
  datatype Dest = Broadcast | Unicast(mac: Mac)
  datatype Tx = Tx(kind: TxKind, id: u8, dst: Dest)

  datatype Station = Station(
    mac: Mac, preferred: u8, state: State, id: u8, candidate: u8, idChanged: bool,
    listenUntil: u32, lastProbeMs: u32, probesSent: u8, lastBeaconMs: u32,
    seen: seq<bool>, seenMs: seq<u32>)
  {
    /** The evidence table has one entry for each id 0..15. */
    predicate Sized() {
      |seen| == 16 && |seenMs| == 16
    }

    /** Evidence of another station holding `i` within T_EXPIRE. */
    predicate IsOccupied(i: u8, now: u32)
      requires Sized()
    {
      ValidId(i) && seen[i] && !Elapsed(now, seenMs[i], T_EXPIRE)
    }

    /** A claim on `c` that the station currently makes on the air. */
    predicate Holds(c: u8) {
      state == Held && id == c
    }

    predicate Probes(c: u8) {
      state == Probe && candidate == c
    }
  }

  /** An event's outcome: the new state and the packets sent, in order. */
  datatype Step = Step(s: Station, tx: seq<Tx>)

  predicate ValidId(i: u8) {
    1 <= i <= 15
  }

  /** What every reachable station satisfies. */
  predicate StationOk(s: Station) {
    && s.Sized()
    && s.preferred <= 15
    && (s.state == Held <==> ValidId(s.id))
    && (s.state != Held <==> s.id == 0)
    && (s.state == Probe <==> ValidId(s.candidate))
    && (s.state != Probe <==> s.candidate == 0)
    && (s.state == Probe ==> 1 <= s.probesSent <= N_PROBE)
    && (s.state == Held ==> !s.seen[s.id])
  }

  // --- internals -------------------------------------------------------------------

  function Note(s: Station, i: u8, now: u32): Station
    requires s.Sized()
  {
    if !ValidId(i) then s else s.(seen := s.seen[i := true], seenMs := s.seenMs[i := now])
  }

  /** The k-th id of the cyclic scan that starts at the MAC-derived base. */
  function ScanId(mac: Mac, k: nat): u8 {
    var base := mac[5] % 15 + 1;
    (base - 1 + k) % 15 + 1
  }

  /** First free id at scan position k or later, 0 if there is none. */
  function FirstFree(s: Station, now: u32, k: nat): u8
    requires s.Sized() && k <= 15
    decreases 15 - k
  {
    if k == 15 then 0
    else if !s.IsOccupied(ScanId(s.mac, k), now) then ScanId(s.mac, k)
    else FirstFree(s, now, k + 1)
  }

  function PickCandidate(s: Station, now: u32): u8
    requires s.Sized()
  {
    if s.preferred != 0 && !s.IsOccupied(s.preferred, now) then s.preferred
    else FirstFree(s, now, 0)
  }

  function SendProbe(s: Station, now: u32): Step {
    Step(s.(lastProbeMs := now, probesSent := U8(s.probesSent + 1)), [Tx(TxProbe, s.candidate, Broadcast)])
  }

  function StartProbe(s: Station, now: u32): Step
    requires s.Sized()
  {
    var c := PickCandidate(s, now);
    if c == 0 then
      Step(s.(state := Listen, candidate := 0, listenUntil := U32(now + T_RETRY)), [])
    else
      SendProbe(s.(state := Probe, candidate := c, probesSent := 0), now)
  }

  function SetId(s: Station, i: u8): Station {
    if i == s.id then s else s.(id := i, idChanged := true)
  }

  function BecomeHeld(s: Station, now: u32): Step
    requires s.Sized() && s.candidate <= 15
  {
    var h := SetId(s.(state := Held), s.candidate);
    Step(h.(candidate := 0, seen := h.seen[h.id := false], lastBeaconMs := now),
         [Tx(TxBeacon, h.id, Broadcast), Tx(TxBeacon, h.id, Broadcast)])
  }

  // --- events ----------------------------------------------------------------------

  /** Boot. The evidence flags are cleared; stale time stamps and counters stay. */
  function Begin(s: Station, mac: Mac, preferredId: u8, now: u32): Station {
    s.(mac := mac, preferred := if ValidId(preferredId) then preferredId else 0,
       state := Listen, id := 0, candidate := 0, idChanged := false,
       listenUntil := U32(now + T_LISTEN), seen := seq(16, _ => false))
  }

  /** The object before its first boot. */
  function Fresh(mac: Mac): Station {
    Station(mac, 0, Listen, 0, 0, false, 0, 0, 0, 0, seq(16, _ => false), seq(16, _ => 0))
  }

  function Tick(s: Station, now: u32): Step
    requires s.Sized() && s.candidate <= 15
  {
    match s.state
    case Listen =>
      if Reached(now, s.listenUntil) then StartProbe(s, now) else Step(s, [])
    case Probe =>
      if !Elapsed(now, s.lastProbeMs, T_PROBE) then Step(s, [])
      else if s.probesSent < N_PROBE then SendProbe(s, now)
      else BecomeHeld(s, now)
    case Held =>
      if Elapsed(now, s.lastBeaconMs, T_BEACON)
      then Step(s.(lastBeaconMs := now), [Tx(TxBeacon, s.id, Broadcast)])
      else Step(s, [])
  }

  function OnProbe(s: Station, src: Mac, i: u8, now: u32): Step
    requires s.Sized()
  {
    if !ValidId(i) || src == s.mac then Step(s, [])
    else
      var n := if i != s.id then Note(s, i, now) else s;
      if n.Probes(i) then
        if MemcmpLess(src, n.mac) then StartProbe(n, now) else Step(n, [])
      else if n.Holds(i) then
        Step(n.(lastBeaconMs := now), [Tx(TxBeacon, n.id, Unicast(src)), Tx(TxBeacon, n.id, Broadcast)])
      else Step(n, [])
  }

  function OnBeacon(s: Station, src: Mac, i: u8, now: u32): Step
    requires s.Sized()
  {
    if !ValidId(i) || src == s.mac then Step(s, [])
    else
      var n := if i != s.id then Note(s, i, now) else s;
      if n.Probes(i) then StartProbe(n, now)
      else if n.Holds(i) then
        if MemcmpLess(src, n.mac) then StartProbe(SetId(Note(n, i, now), 0), now)
        else Step(n.(lastBeaconMs := now), [Tx(TxBeacon, n.id, Broadcast)])
      else Step(n, [])
  }

  function OnHitReport(s: Station, shooter: u8, now: u32): Step
    requires s.Sized()
  {
    if !ValidId(shooter) || shooter == s.id then Step(s, [])
    else
      var n := Note(s, shooter, now);
      if n.Probes(shooter) then StartProbe(n, now) else Step(n, [])
  }

  // --- candidate choice --------------------------------------------------------------

  /** The scan visits every id 1..15 exactly once. */
  lemma ScanIsAPermutation(mac: Mac, c: u8)
    requires ValidId(c)
    ensures exists k :: 0 <= k < 15 && ScanId(mac, k) == c
    ensures forall j, k :: 0 <= j < 15 && 0 <= k < 15 && ScanId(mac, j) == ScanId(mac, k) ==> j == k
  {
    var k := (c - 1 + 15 - mac[5] % 15) % 15;
    assert ScanId(mac, k) == c;
  }

  lemma FirstFreeScans(s: Station, now: u32, k: nat)
    requires s.Sized() && k <= 15
    ensures var r := FirstFree(s, now, k);
            if r == 0 then forall j :: k <= j < 15 ==> s.IsOccupied(ScanId(s.mac, j), now)
            else exists j :: k <= j < 15 && r == ScanId(s.mac, j) && !s.IsOccupied(r, now) &&
                   forall i :: k <= i < j ==> s.IsOccupied(ScanId(s.mac, i), now)
    decreases 15 - k
  {
    if k < 15 && s.IsOccupied(ScanId(s.mac, k), now) {
      FirstFreeScans(s, now, k + 1);
    }
  }

  /** The documented candidate rule, in full. */
  lemma PickCandidateRule(s: Station, now: u32)
    requires s.Sized() && s.preferred <= 15
    ensures var r := PickCandidate(s, now);
      && (r == 0 <==> forall i: u8 :: ValidId(i) ==> s.IsOccupied(i, now))
      && (r != 0 ==> ValidId(r) && !s.IsOccupied(r, now))
      && (s.preferred != 0 && !s.IsOccupied(s.preferred, now) ==> r == s.preferred)
      && (r != 0 && (s.preferred == 0 || s.IsOccupied(s.preferred, now)) ==>
           exists j :: 0 <= j < 15 && r == ScanId(s.mac, j) &&
             forall i :: 0 <= i < j ==> s.IsOccupied(ScanId(s.mac, i), now))
  {
    FirstFreeScans(s, now, 0);
    if PickCandidate(s, now) == 0 {
      forall i: u8 | ValidId(i) ensures s.IsOccupied(i, now) {
        ScanIsAPermutation(s.mac, i);
      }
    }
  }

  // --- the step relation the network proofs rely on -----------------------------------

  /** A probe attempt that begins in this step: a free id, announced to everybody. */
  predicate Restarted(r: Step, now: u32)
    requires r.s.Sized()
  {
    || (r.s.state == Listen && r.tx == [] && forall i: u8 :: ValidId(i) ==> r.s.IsOccupied(i, now))
    || (r.s.state == Probe && r.tx == [Tx(TxProbe, r.s.candidate, Broadcast)] &&
        !r.s.IsOccupied(r.s.candidate, now))
  }

  lemma StartProbeRestarts(s: Station, now: u32)
    requires s.Sized() && s.preferred <= 15 && s.id == 0
    ensures var r := StartProbe(s, now);
      && StationOk(r.s) && r.s.mac == s.mac && r.s.preferred == s.preferred
      && r.s.seen == s.seen && r.s.seenMs == s.seenMs
      && Restarted(r, now)
      && (r.s.state == Probe ==> r.s.probesSent == 1 && r.s.lastProbeMs == now)
  {
    PickCandidateRule(s, now);
  }
}
