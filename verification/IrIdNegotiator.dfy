/**
 The negotiator as the firmware runs it: one object whose handlers update its fields and
 evidence table in place and send through a callback. The callback is modelled by `outbox`,
 the packets handed to it so far. Every handler is proved to do exactly what the
 corresponding function of module IrIdStation says.
 */
module IrIdNegotiator {
  import opened Words
  import opened IrIdStation
  import IrIdReaction

  class Negotiator {
    var attached: bool      // a send callback is registered
    var outbox: seq<Tx>

    var mac: Mac
    var preferred: u8
    var state: State
    var id: u8
    var candidate: u8
    var idChanged: bool
    var listenUntil: u32
    var lastProbeMs: u32
    var probesSent: u8
    var lastBeaconMs: u32
    const seenMs: array<u32>
    const seen: array<bool>

    /** The object's fields as one value. */
    ghost function Station(): Station
      reads this, seen, seenMs
    {
      IrIdStation.Station.Station(mac, preferred, state, id, candidate, idChanged, listenUntil, lastProbeMs,
                                  probesSent, lastBeaconMs, seen[..], seenMs[..])
    }

    ghost predicate Valid()
      reads this, seen, seenMs
    {
      seen.Length == 16 && seenMs.Length == 16 && StationOk(Station())
    }

    /** Outcome of a handler: the new state, and the packets if somebody listens. */
    twostate predicate Did(r: Step)
      reads this, seen, seenMs
    {
      Station() == r.s && outbox == old(outbox) + (if attached then r.tx else []) && attached == old(attached)
    }

    constructor (m: Mac)
      ensures Valid() && fresh(seen) && fresh(seenMs)
      ensures Station() == Fresh(m) && outbox == [] && !attached
    {
      attached, outbox := false, [];
      mac, preferred, state, id, candidate, idChanged := m, 0, Listen, 0, 0, false;
      listenUntil, lastProbeMs, probesSent, lastBeaconMs := 0, 0, 0, 0;
      seen := new bool[16](_ => false);
      seenMs := new u32[16](_ => 0);
      new;
      assert seen[..] == seq(16, _ => false);
      assert seenMs[..] == seq(16, _ => 0);
    }

    method Begin(ownMac: Mac, preferredId: u8, now: u32, send: bool)
      requires Valid()
      modifies this, seen
      ensures Valid() && attached == send && outbox == old(outbox)
      ensures Station() == IrIdStation.Begin(old(Station()), ownMac, preferredId, now)
    {
      ghost var stamps := seenMs[..];
      mac := ownMac;
      preferred := if ValidId(preferredId) then preferredId else 0;
      attached := send;
      state := Listen;
      id := 0;
      candidate := 0;
      idChanged := false;
      listenUntil := U32(now + T_LISTEN);
      ClearEvidence();
      assert seenMs[..] == stamps;
    }

    method ClearEvidence()
      requires seen.Length == 16
      modifies seen
      ensures seen[..] == seq(16, _ => false)
    {
      forall i | 0 <= i < seen.Length { seen[i] := false; }
    }

    method ConsumeIdChanged() returns (c: bool)
      requires Valid()
      modifies this
      ensures Valid() && c == old(idChanged) && Station() == old(Station()).(idChanged := false)
      ensures outbox == old(outbox) && attached == old(attached)
    {
      c := idChanged;
      idChanged := false;
    }

    method IsOccupied(i: u8, now: u32) returns (b: bool)
      requires seen.Length == 16 && seenMs.Length == 16
      ensures b == Station().IsOccupied(i, now)
    {
      if !ValidId(i) || !seen[i] {
        return false;
      }
      return !Elapsed(now, seenMs[i], T_EXPIRE);
    }

    method Note(i: u8, now: u32)
      requires seen.Length == 16 && seenMs.Length == 16
      modifies seen, seenMs
      ensures Station() == IrIdStation.Note(old(Station()), i, now)
    {
      if ValidId(i) {
        seen[i] := true;
        seenMs[i] := now;
      }
    }

    /** The scan of the evidence table; the result is the documented first free id. */
    method PickCandidate(now: u32) returns (c: u8)
      requires seen.Length == 16 && seenMs.Length == 16 && preferred <= 15
      ensures c == IrIdStation.PickCandidate(Station(), now)
    {
      hide Elapsed, IrIdStation.Station.IsOccupied;
      if preferred != 0 {
        var b := IsOccupied(preferred, now);
        if !b { return preferred; }
      }
      var base := mac[5] % 15 + 1;
      for i := 0 to 15
        invariant FirstFree(Station(), now, 0) == FirstFree(Station(), now, i)
      {
        var next: u8 := (base - 1 + i) % 15 + 1;
        var b := IsOccupied(next, now);
        if !b { return next; }
      }
      return 0;
    }

    method Send(t: Tx)
      modifies `outbox
      ensures outbox == old(outbox) + if attached then [t] else []
    {
      if attached { outbox := outbox + [t]; }
    }

    method SendProbe(now: u32)
      modifies this
      ensures Did(IrIdStation.SendProbe(old(Station()), now))
    {
      lastProbeMs := now;
      probesSent := U8(probesSent + 1);
      Send(Tx(TxProbe, candidate, Broadcast));
    }

    method SendBeacon(dst: Dest, now: u32)
      modifies this
      ensures Did(Step(old(Station()).(lastBeaconMs := now), [Tx(TxBeacon, old(id), dst)]))
    {
      lastBeaconMs := now;
      Send(Tx(TxBeacon, id, dst));
    }

    method SetId(i: u8)
      modifies this
      ensures Did(Step(IrIdStation.SetId(old(Station()), i), []))
    {
      if i != id {
        id := i;
        idChanged := true;
      }
    }

    method StartProbe(now: u32)
      requires seen.Length == 16 && seenMs.Length == 16 && preferred <= 15
      modifies this
      ensures Did(IrIdStation.StartProbe(old(Station()), now))
    {
      hide IrIdStation.PickCandidate, U32;
      var c := PickCandidate(now);
      if c == 0 {
        state := Listen;
        candidate := 0;
        listenUntil := U32(now + T_RETRY);
        return;
      }
      state := Probe;
      candidate := c;
      probesSent := 0;
      SendProbe(now);
    }

    method BecomeHeld(now: u32)
      requires seen.Length == 16 && seenMs.Length == 16 && candidate <= 15
      modifies this, seen
      ensures Did(IrIdStation.BecomeHeld(old(Station()), now))
    {
      state := Held;
      SetId(candidate);
      candidate := 0;
      seen[id] := false;
      SendBeacon(Broadcast, now);
      SendBeacon(Broadcast, now);
    }

    method Tick(now: u32)
      requires Valid()
      modifies this, seen
      ensures Valid() && Did(IrIdStation.Tick(old(Station()), now))
    {
      hide IrIdStation.StartProbe, Elapsed, Reached, U32;
      IrIdReaction.ReactIsSound(Station(), IrIdReaction.Clock, now);
      match state
      case Listen =>
        if Reached(now, listenUntil) { StartProbe(now); }
      case Probe =>
        if Elapsed(now, lastProbeMs, T_PROBE) {
          if probesSent < N_PROBE { SendProbe(now); } else { BecomeHeld(now); }
        }
      case Held =>
        if Elapsed(now, lastBeaconMs, T_BEACON) { SendBeacon(Broadcast, now); }
    }

    method OnProbe(src: Mac, i: u8, now: u32)
      requires Valid()
      modifies this, seen, seenMs
      ensures Valid() && Did(IrIdStation.OnProbe(old(Station()), src, i, now))
    {
      hide IrIdStation.StartProbe, MemcmpLess;
      IrIdReaction.ReactIsSound(Station(), IrIdReaction.ProbeFrom(src, i), now);
      if !ValidId(i) || src == mac { return; }
      if i != id { Note(i, now); }
      if state == Probe && i == candidate {
        if MemcmpLess(src, mac) { StartProbe(now); }
      } else if state == Held && i == id {
        SendBeacon(Unicast(src), now);
        SendBeacon(Broadcast, now);
      }
    }

    method OnBeacon(src: Mac, i: u8, now: u32)
      requires Valid()
      modifies this, seen, seenMs
      ensures Valid() && Did(IrIdStation.OnBeacon(old(Station()), src, i, now))
    {
      hide IrIdStation.StartProbe, MemcmpLess;
      IrIdReaction.ReactIsSound(Station(), IrIdReaction.BeaconFrom(src, i), now);
      if !ValidId(i) || src == mac { return; }
      if i != id { Note(i, now); }
      if state == Probe && i == candidate {
        StartProbe(now);
      } else if state == Held && i == id {
        if MemcmpLess(src, mac) {
          Note(i, now);
          SetId(0);
          StartProbe(now);
        } else {
          SendBeacon(Broadcast, now);
        }
      }
    }

    method OnHitReport(shooter: u8, now: u32)
      requires Valid()
      modifies this, seen, seenMs
      ensures Valid() && Did(IrIdStation.OnHitReport(old(Station()), shooter, now))
    {
      hide IrIdStation.StartProbe, MemcmpLess;
      IrIdReaction.ReactIsSound(Station(), IrIdReaction.Hit(shooter), now);
      if !ValidId(shooter) || shooter == id { return; }
      Note(shooter, now);
      if state == Probe && shooter == candidate { StartProbe(now); }
    }
  }
}
