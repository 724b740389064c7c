/**
 The peer cache of the ESP-NOW service: eighteen slots that mirror the radio's own peer table
 (which also holds the permanent broadcast peer), with least-recently-used eviction on the
 wrapping millisecond clock. `radio` is the radio's table; adding a peer may fail.
 */
module Peers {
  import opened Words

  const MAX_PEERS: nat := 18
  const BCAST: Mac := [0xFF, 0xFF, 0xFF, 0xFF, 0xFF, 0xFF]

  datatype Peer = Peer(mac: Mac, lastUse: u32, used: bool)
  datatype Cache = Cache(slots: seq<Peer>, radio: set<Mac>)

  /** First unused slot at or after i. */
  function FirstFree(slots: seq<Peer>, i: nat): (f: nat)
    requires i <= |slots|
    ensures i <= f <= |slots|
    ensures forall j :: i <= j < f ==> slots[j].used
    ensures f < |slots| ==> !slots[f].used
    decreases |slots| - i
  {
    if i == |slots| || !slots[i].used then i else FirstFree(slots, i + 1)
  }

  /** First slot with the smallest stamp among the first n. */
  function Oldest(slots: seq<Peer>, n: nat): (v: nat)
    requires 0 < n <= |slots|
    ensures v < n
    ensures forall j :: 0 <= j < n ==> slots[v].lastUse <= slots[j].lastUse
    ensures forall j :: 0 <= j < v ==> slots[v].lastUse < slots[j].lastUse
  {
    if n == 1 then 0
    else
      var v := Oldest(slots, n - 1);
      if slots[n - 1].lastUse < slots[v].lastUse then n - 1 else v
  }

  lemma FirstFreeIs(slots: seq<Peer>, f: nat)
    requires f < |slots| && !slots[f].used && forall j :: 0 <= j < f ==> slots[j].used
    ensures FirstFree(slots, 0) == f
  {
  }

  function Stamp(p: Peer, mac: Mac, now: u32): Peer {
    if p.used && p.mac == mac then p.(lastUse := now) else p
  }

  function Touched(slots: seq<Peer>, mac: Mac, now: u32): seq<Peer> {
    seq(|slots|, i requires 0 <= i < |slots| => Stamp(slots[i], mac, now))
  }

  /** The slot for a new peer, and the cache once that slot is free. */
  function MakeRoom(c: Cache): (Cache, nat)
    requires |c.slots| == MAX_PEERS
  {
    var f := FirstFree(c.slots, 0);
    if f < MAX_PEERS then (c, f)
    else
      var v := Oldest(c.slots, MAX_PEERS);
      (Cache(c.slots[v := c.slots[v].(used := false)], c.radio - {c.slots[v].mac}), v)
  }

  function EnsurePeer(c: Cache, mac: Mac, addOk: bool, now: u32): (Cache, bool)
    requires |c.slots| == MAX_PEERS
  {
    if mac in c.radio then (c.(slots := Touched(c.slots, mac, now)), true)
    else
      var (room, i) := MakeRoom(c);
      if !addOk then (room, false)
      else (Cache(room.slots[i := Peer(mac, now, true)], room.radio + {mac}), true)
  }

  // --- the cache mirrors the radio ------------------------------------------------------------

  /** The used slots are exactly the radio's peers, broadcast aside, each once. */
  ghost predicate Mirrors(c: Cache) {
    && |c.slots| == MAX_PEERS && BCAST in c.radio
    && (forall i :: 0 <= i < MAX_PEERS && c.slots[i].used ==> c.slots[i].mac in c.radio && c.slots[i].mac != BCAST)
    && (forall i, j :: 0 <= i < j < MAX_PEERS && c.slots[i].used && c.slots[j].used ==> c.slots[i].mac != c.slots[j].mac)
    && (forall m :: m in c.radio && m != BCAST ==> exists i :: 0 <= i < MAX_PEERS && c.slots[i].used && c.slots[i].mac == m)
  }

  lemma RoomMirrors(c: Cache)
    requires Mirrors(c)
    ensures var (room, i) := MakeRoom(c); Mirrors(room) && i < MAX_PEERS && !room.slots[i].used
  {
    hide Oldest, FirstFree;
    var (room, i) := MakeRoom(c);
    forall m | m in room.radio && m != BCAST
      ensures exists k :: 0 <= k < MAX_PEERS && room.slots[k].used && room.slots[k].mac == m
    {
      var k :| 0 <= k < MAX_PEERS && c.slots[k].used && c.slots[k].mac == m;
      assert room.slots[k] == c.slots[k];
    }
  }

  lemma AddingMirrors(c: Cache, i: nat, mac: Mac, now: u32)
    requires Mirrors(c) && i < MAX_PEERS && !c.slots[i].used && mac !in c.radio
    ensures Mirrors(Cache(c.slots[i := Peer(mac, now, true)], c.radio + {mac}))
  {
    var n := Cache(c.slots[i := Peer(mac, now, true)], c.radio + {mac});
    forall m | m in n.radio && m != BCAST
      ensures exists k :: 0 <= k < MAX_PEERS && n.slots[k].used && n.slots[k].mac == m
    {
      if m == mac {
        assert n.slots[i].mac == m;
      } else {
        var k :| 0 <= k < MAX_PEERS && c.slots[k].used && c.slots[k].mac == m;
        assert n.slots[k] == c.slots[k];
      }
    }
  }

  lemma TouchingMirrors(c: Cache, mac: Mac, now: u32)
    requires Mirrors(c)
    ensures Mirrors(c.(slots := Touched(c.slots, mac, now)))
  {
    var n := c.(slots := Touched(c.slots, mac, now));
    assert forall k :: 0 <= k < MAX_PEERS ==> n.slots[k].used == c.slots[k].used && n.slots[k].mac == c.slots[k].mac;
    forall m | m in n.radio && m != BCAST
      ensures exists k :: 0 <= k < MAX_PEERS && n.slots[k].used && n.slots[k].mac == m
    {
      var k :| 0 <= k < MAX_PEERS && c.slots[k].used && c.slots[k].mac == m;
      assert n.slots[k].used && n.slots[k].mac == m;
    }
  }

  /**
   One call: the cache still mirrors the radio, success means the peer is registered, and only
   a full cache loses a peer, exactly one.
   */
  lemma EnsurePeerMirrors(c: Cache, mac: Mac, addOk: bool, now: u32)
    requires Mirrors(c)
    ensures var (n, ok) := EnsurePeer(c, mac, addOk, now);
      && Mirrors(n)
      && (ok <==> mac in n.radio) && (ok <==> mac in c.radio || addOk)
      && n.radio <= c.radio + {mac}
      && (FirstFree(c.slots, 0) < MAX_PEERS || mac in c.radio ==> c.radio <= n.radio)
      && (mac !in c.radio ==>
           n.radio == (if FirstFree(c.slots, 0) < 18 then c.radio else c.radio - {c.slots[Oldest(c.slots, 18)].mac}) +
                      (if addOk then {mac} else {}))
  {
    hide Touched, MakeRoom;
    assert |c.slots| == MAX_PEERS;
    hide Mirrors, Oldest;
    if mac in c.radio {
      TouchingMirrors(c, mac, now);
    } else {
      var (room, i) := MakeRoom(c);
      RoomMirrors(c);
      RoomInRadio(c);
      if addOk { AddingMirrors(room, i, mac, now); }
    }
  }

  lemma RoomInRadio(c: Cache)
    requires Mirrors(c)
    ensures var room := MakeRoom(c).0; room.radio <= c.radio && (FirstFree(c.slots, 0) < MAX_PEERS ==> room == c)
    ensures FirstFree(c.slots, 0) >= 18 ==> MakeRoom(c).0.radio == c.radio - {c.slots[Oldest(c.slots, 18)].mac}
    ensures |c.slots| == |MakeRoom(c).0.slots| == MAX_PEERS && MakeRoom(c).1 < MAX_PEERS
  {
  }

  // --- whole runs ---------------------------------------------------------------------------------

  /** A call at true time `at`, of which the code sees 32 bits. */
  datatype Call = Call(mac: Mac, addOk: bool, at: nat)

  ghost predicate InOrder(calls: seq<Call>) {
    forall i, j :: 0 <= i < j < |calls| ==> calls[i].at <= calls[j].at
  }

  ghost predicate AfterBegin(c: Cache) {
    |c.slots| == MAX_PEERS && (forall i :: 0 <= i < MAX_PEERS ==> !c.slots[i].used) && c.radio == {BCAST}
  }

  function Replay(c0: Cache, calls: seq<Call>): (c: Cache)
    requires |c0.slots| == MAX_PEERS
    ensures |c.slots| == MAX_PEERS
  {
    if calls == [] then c0
    else
      var last := calls[|calls| - 1];
      EnsurePeer(Replay(c0, calls[..|calls| - 1]), last.mac, last.addOk, U32(last.at)).0
  }

  /** True time of the latest call for a peer. */
  function LastCall(calls: seq<Call>, mac: Mac): nat {
    if calls == [] then 0
    else if calls[|calls| - 1].mac == mac then calls[|calls| - 1].at
    else LastCall(calls[..|calls| - 1], mac)
  }

  /** The stamp of every cached peer is the low 32 bits of its latest call's time. */
  ghost predicate Stamped(c: Cache, calls: seq<Call>)
    requires |c.slots| == MAX_PEERS
  {
    forall i :: 0 <= i < MAX_PEERS && c.slots[i].used ==> c.slots[i].lastUse == U32(LastCall(calls, c.slots[i].mac))
  }

  /** After every sequence of calls, whatever the radio answered. */
  lemma {:induction false} RunMirrors(c0: Cache, calls: seq<Call>)
    requires AfterBegin(c0)
    ensures var c := Replay(c0, calls); Mirrors(c) && Stamped(c, calls)
  {
    if calls != [] {
      var n := |calls| - 1;
      RunMirrors(c0, calls[..n]);
      var c := Replay(c0, calls[..n]);
      EnsurePeerMirrors(c, calls[n].mac, calls[n].addOk, U32(calls[n].at));
      EnsurePeerStamps(c, calls);
    }
  }

  lemma EnsurePeerStamps(c: Cache, calls: seq<Call>)
    requires calls != [] && Mirrors(c) && Stamped(c, calls[..|calls| - 1])
    ensures var last := calls[|calls| - 1]; var n := EnsurePeer(c, last.mac, last.addOk, U32(last.at)).0;
      |n.slots| == MAX_PEERS && Stamped(n, calls)
  {
    var last := calls[|calls| - 1];
    var n := EnsurePeer(c, last.mac, last.addOk, U32(last.at)).0;
    forall i | 0 <= i < MAX_PEERS && n.slots[i].used
      ensures n.slots[i].lastUse == U32(LastCall(calls, n.slots[i].mac))
    {
      if n.slots[i].mac != last.mac { assert n.slots[i] == c.slots[i]; }
    }
  }

  /** At most eighteen peers besides broadcast are ever registered, and broadcast always is. */
  lemma RadioIsSmall(c0: Cache, calls: seq<Call>)
    requires AfterBegin(c0)
    ensures |Replay(c0, calls).radio| <= 19
    ensures [0xFF, 0xFF, 0xFF, 0xFF, 0xFF, 0xFF] in Replay(c0, calls).radio
  {
    RunMirrors(c0, calls);
    var c := Replay(c0, calls);
    SlotsBoundPeers(c.slots, MAX_PEERS, c.radio - {BCAST});
    assert c.radio == (c.radio - {BCAST}) + {BCAST};
  }

  lemma {:induction false} SlotsBoundPeers(slots: seq<Peer>, n: nat, macs: set<Mac>)
    requires n <= |slots| && forall m :: m in macs ==> exists i :: 0 <= i < n && slots[i].mac == m
    ensures |macs| <= n
  {
    if n == 0 {
      assert macs == {};
    } else {
      var less := macs - {slots[n - 1].mac};
      SlotsBoundPeers(slots, n - 1, less);
      assert macs <= less + {slots[n - 1].mac};
      assert |less + {slots[n - 1].mac}| <= |less| + 1;
      Subset(macs, less + {slots[n - 1].mac});
    }
  }

  lemma {:induction false} Subset(a: set<Mac>, b: set<Mac>)
    requires a <= b
    ensures |a| <= |b|
  {
    if a != {} {
      var x :| x in a;
      Subset(a - {x}, b - {x});
    }
  }

  // --- least recently used ---------------------------------------------------------------------------

  /** Among the cached peers, i was used longest ago. */
  ghost predicate LeastRecent(c: Cache, calls: seq<Call>, i: nat)
    requires |c.slots| == MAX_PEERS
  {
    i < MAX_PEERS && forall j :: 0 <= j < MAX_PEERS ==> LastCall(calls, c.slots[i].mac) <= LastCall(calls, c.slots[j].mac)
  }

  /** All cached peers were last used within one turn of the clock. */
  ghost predicate WithinOneTurn(c: Cache, calls: seq<Call>)
    requires |c.slots| == MAX_PEERS
  {
    forall i, j :: 0 <= i < MAX_PEERS && 0 <= j < MAX_PEERS ==>
      LastCall(calls, c.slots[j].mac) - LastCall(calls, c.slots[i].mac) < TWO32
  }

  /** Peer j was last used in the same turn of the 32-bit clock as peer i. */
  ghost predicate SameTurn(c: Cache, calls: seq<Call>, i: nat, j: nat)
    requires |c.slots| == MAX_PEERS && i < MAX_PEERS && j < MAX_PEERS
  {
    LastCall(calls, c.slots[i].mac) / TWO32 == LastCall(calls, c.slots[j].mac) / TWO32
  }

  /**
   When all cached peers were last used within 2^32 ms, a full cache evicts a least recently
   used peer exactly if all of them were last used in the same turn of the 32-bit clock, that
   is, if the clock did not pass zero between the oldest use and any other.
   */
  lemma {:induction false} EvictsLeastRecent(c0: Cache, calls: seq<Call>, lru: nat)
    requires AfterBegin(c0) && FirstFree(Replay(c0, calls).slots, 0) == MAX_PEERS
    requires LeastRecent(Replay(c0, calls), calls, lru) && WithinOneTurn(Replay(c0, calls), calls)
    ensures var c := Replay(c0, calls); var v := MakeRoom(c).1;
      && v < MAX_PEERS && MakeRoom(c).0.radio == c.radio - {c.slots[v].mac}
      && (LeastRecent(c, calls, v) <==> forall j :: 0 <= j < MAX_PEERS ==> SameTurn(c, calls, lru, j))
  {
    hide Replay, LastCall;
    RunMirrors(c0, calls);
    var c := Replay(c0, calls);
    var v := MakeRoom(c).1;
    SmallestStamp(c, calls);
    hide MakeRoom, Mirrors, Stamped;
    var b := LastCall(calls, c.slots[lru].mac);
    SameStamp(LastCall(calls, c.slots[v].mac), b);
    forall j | 0 <= j < MAX_PEERS ensures SameTurn(c, calls, lru, j) <==> U32(b) <= U32(LastCall(calls, c.slots[j].mac)) {
      TurnAndStamp(LastCall(calls, c.slots[j].mac), b);
    }
  }

  /** A later use within one turn has the smaller stamp exactly when the clock passed zero in between. */
  lemma TurnAndStamp(a: nat, b: nat)
    requires b <= a && a - b < TWO32
    ensures b / TWO32 == a / TWO32 <==> U32(b) <= U32(a)
  {
  }

  lemma SameStamp(a: nat, b: nat)
    requires b <= a && a - b < TWO32
    ensures U32(a) == U32(b) <==> a == b
  {
  }

  /** The evicted slot has the smallest stamp; the radio forgets its peer and no other. */
  lemma {:induction false} SmallestStamp(c: Cache, calls: seq<Call>)
    requires Mirrors(c) && Stamped(c, calls) && FirstFree(c.slots, 0) == MAX_PEERS
    ensures var v := MakeRoom(c).1;
      && v < MAX_PEERS && MakeRoom(c).0.radio == c.radio - {c.slots[v].mac}
      && forall j :: 0 <= j < MAX_PEERS ==>
           c.slots[v].lastUse <= c.slots[j].lastUse && c.slots[j].lastUse == U32(LastCall(calls, c.slots[j].mac))
  {
    hide LastCall;
    assert forall j :: 0 <= j < MAX_PEERS ==> c.slots[j].used;
  }

  /** As long as the millisecond counter has not wrapped, eviction is least-recently-used. */
  lemma {:induction false} EvictsLeastRecentBeforeWrap(c0: Cache, calls: seq<Call>)
    requires AfterBegin(c0) && FirstFree(Replay(c0, calls).slots, 0) == MAX_PEERS
    requires forall k :: 0 <= k < |calls| ==> calls[k].at < TWO32
    ensures var c := Replay(c0, calls); LeastRecent(c, calls, MakeRoom(c).1)
  {
    hide Replay, LastCall;
    RunMirrors(c0, calls);
    var c := Replay(c0, calls);
    var v := MakeRoom(c).1;
    SmallestStamp(c, calls);
    hide MakeRoom;
    forall j | 0 <= j < MAX_PEERS ensures LastCall(calls, c.slots[v].mac) <= LastCall(calls, c.slots[j].mac) {
      LastCallIsEarly(calls, c.slots[v].mac);
      LastCallIsEarly(calls, c.slots[j].mac);
    }
  }

  lemma {:induction false} LastCallIsEarly(calls: seq<Call>, mac: Mac)
    requires forall k :: 0 <= k < |calls| ==> calls[k].at < TWO32
    ensures LastCall(calls, mac) < TWO32
  {
    if calls != [] { LastCallIsEarly(calls[..|calls| - 1], mac); }
  }

  // --- a run across the wrap ---------------------------------------------------------------------------

  function Numbered(k: u8): Mac {
    [0, 0, 0, 0, 0, k]
  }

  /** The first n of eighteen peers, one call each. */
  function Filling(at: nat -> nat, n: nat): seq<Call>
    requires n <= MAX_PEERS
  {
    seq(n, k requires 0 <= k < n => Call(Numbered(k), true, at(k)))
  }

  lemma AddsAtFree(c: Cache, f: nat, mac: Mac, now: u32)
    requires |c.slots| == MAX_PEERS && f < MAX_PEERS && mac !in c.radio
    requires !c.slots[f].used && forall j :: 0 <= j < f ==> c.slots[j].used
    ensures EnsurePeer(c, mac, true, now).0 == Cache(c.slots[f := Peer(mac, now, true)], c.radio + {mac})
  {
    FirstFreeIs(c.slots, f);
  }

  lemma {:induction false} Fills(c0: Cache, at: nat -> nat, n: nat)
    requires AfterBegin(c0) && n <= MAX_PEERS
    ensures var c := Replay(c0, Filling(at, n));
      && (forall k :: n <= k < MAX_PEERS ==> Numbered(k) !in c.radio) && (n > 0 ==> Numbered(0) in c.radio)
      && (forall i :: 0 <= i < n ==> c.slots[i] == Peer(Numbered(i), U32(at(i)), true))
      && (forall i :: n <= i < MAX_PEERS ==> !c.slots[i].used)
  {
    hide EnsurePeer, U32;
    if n > 0 {
      var calls := Filling(at, n);
      assert calls[..n - 1] == Filling(at, n - 1);
      Fills(c0, at, n - 1);
      AddsAtFree(Replay(c0, Filling(at, n - 1)), n - 1, Numbered(n - 1), U32(at(n - 1)));
      assert forall k :: 0 <= k < MAX_PEERS ==> Numbered(k)[5] == k;
      hide Replay;
    } else {
      assert forall k :: 0 <= k < MAX_PEERS ==> Numbered(k)[0] == 0;
    }
  }

  lemma {:induction false} FillingLast(at: nat -> nat, n: nat, k: nat)
    requires k < n <= MAX_PEERS
    ensures LastCall(Filling(at, n), Numbered(k)) == at(k)
  {
    assert Filling(at, n)[..n - 1] == Filling(at, n - 1);
    if k < n - 1 {
      assert Numbered(k)[5] != Numbered(n - 1)[5];
      FillingLast(at, n - 1, k);
    }
  }

  /** One call each, one millisecond apart, the last exactly when the clock passes zero. */
  function AcrossZero(k: nat): nat {
    TWO32 - 17 + k
  }

  /** Across the wrap the newest peer can be the one that is evicted. */
  lemma {:induction false} WrapEvictsNewest(c0: Cache)
    requires AfterBegin(c0)
    ensures var calls := Filling(AcrossZero, MAX_PEERS); var c := Replay(c0, calls);
      && InOrder(calls) && FirstFree(c.slots, 0) == MAX_PEERS
      && MakeRoom(c).1 == MAX_PEERS - 1 && c.slots[MAX_PEERS - 1].mac == calls[MAX_PEERS - 1].mac
  {
    hide Replay;
    Fills(c0, AcrossZero, MAX_PEERS);
    var c := Replay(c0, Filling(AcrossZero, MAX_PEERS));
    FirstFreeAllUsed(c.slots, 0);
    assert c.slots[17].lastUse == 0 && forall i :: 0 <= i < 17 ==> c.slots[i].lastUse > 0;
  }

  function Early(k: nat): nat {
    if k <= 1 then k else 98 + k
  }

  /** Eighteen peers in the first 116 ms; the first of them again one turn of the clock later. */
  function TurnLater(): seq<Call> {
    Filling(Early, MAX_PEERS) + [Call(Numbered(0), true, TWO32 + 1)]
  }

  /**
   Beyond one turn stamps decide nothing: here the least recently used peer is in slot 1, no
   stamp is below its own, and still the newest peer, in slot 0, is the one evicted.
   */
  lemma {:induction false} BeyondOneTurn(c0: Cache)
    requires AfterBegin(c0)
    ensures var calls := TurnLater(); var c := Replay(c0, calls);
      && InOrder(calls) && FirstFree(c.slots, 0) == MAX_PEERS
      && LeastRecent(c, calls, 1) && !WithinOneTurn(c, calls)
      && (forall j :: 0 <= j < MAX_PEERS ==> c.slots[1].lastUse <= c.slots[j].lastUse)
      && MakeRoom(c).1 == 0 && !LeastRecent(c, calls, 0)
  {
    TurnLaterState(c0);
    TurnLaterTimes();
    hide Replay, LastCall, TurnLater;
    var calls := TurnLater();
    var c := Replay(c0, calls);
    FirstFreeAllUsed(c.slots, 0);
    assert LastCall(calls, c.slots[0].mac) == TWO32 + 1 && LastCall(calls, c.slots[1].mac) == 1;
  }

  lemma {:induction false} FirstFreeAllUsed(slots: seq<Peer>, i: nat)
    requires i <= |slots| && forall j :: i <= j < |slots| ==> slots[j].used
    ensures FirstFree(slots, i) == |slots|
  {
  }

  lemma {:induction false} TurnLaterState(c0: Cache)
    requires AfterBegin(c0)
    ensures var c := Replay(c0, TurnLater());
      && c.slots[0] == Peer(Numbered(0), 1, true)
      && forall i :: 1 <= i < MAX_PEERS ==> c.slots[i] == Peer(Numbered(i), Early(i), true)
  {
    hide EnsurePeer;
    var calls := TurnLater();
    assert calls[..MAX_PEERS] == Filling(Early, MAX_PEERS);
    Fills(c0, Early, MAX_PEERS);
    assert forall i :: 1 <= i < MAX_PEERS ==> Numbered(i)[5] != Numbered(0)[5];
    var c := Replay(c0, Filling(Early, MAX_PEERS));
    TouchesKnown(c, Numbered(0), U32(TWO32 + 1));
    hide Replay, U32;
  }

  lemma TouchesKnown(c: Cache, mac: Mac, now: u32)
    requires |c.slots| == MAX_PEERS && mac in c.radio
    ensures EnsurePeer(c, mac, true, now).0 == c.(slots := Touched(c.slots, mac, now))
  {
  }

  lemma {:induction false} TurnLaterTimes()
    ensures LastCall(TurnLater(), Numbered(0)) == TWO32 + 1
    ensures forall k :: 1 <= k < MAX_PEERS ==> LastCall(TurnLater(), Numbered(k)) == Early(k)
    ensures InOrder(TurnLater())
  {
    var calls := TurnLater();
    assert calls[..MAX_PEERS] == Filling(Early, MAX_PEERS);
    forall i | 0 <= i < |calls| ensures calls[i].at == if i < MAX_PEERS then Early(i) else TWO32 + 1 {
      if i < MAX_PEERS { assert calls[i] == Filling(Early, MAX_PEERS)[i]; }
    }
    forall k | 1 <= k < MAX_PEERS ensures LastCall(calls, Numbered(k)) == Early(k) {
      assert Numbered(k)[5] != Numbered(0)[5];
      FillingLast(Early, MAX_PEERS, k);
    }
  }
}

module PeerCache {
  import opened Words
  import opened Peers
  import Spec = Peers

  class Service {
    const peers: array<Peer>
    var radio: set<Mac>     // the radio's own peer table

    ghost function Value(): Cache
      reads this, peers
    {
      Cache(peers[..], radio)
    }

    ghost predicate Valid()
      reads this
    {
      peers.Length == MAX_PEERS
    }

    constructor ()
      ensures Valid() && AfterBegin(Value()) && fresh(peers)
    {
      peers := new Peer[MAX_PEERS](_ => Peer([0, 0, 0, 0, 0, 0], 0, false));
      radio := {BCAST};
    }

    /** Makes sure the radio knows the peer; `addOk` says whether it accepts a new one. */
    method EnsurePeer(mac: Mac, addOk: bool, now: u32) returns (ok: bool)
      requires Valid()
      modifies this, peers
      ensures Valid() && (Value(), ok) == Spec.EnsurePeer(old(Value()), mac, addOk, now)
    {
      if mac in radio {
        Touch(mac, now);
        return true;
      }
      var i := FindRoom();
      if !addOk { return false; }
      radio := radio + {mac};
      peers[i] := Peer(mac, now, true);
      return true;
    }

    method Touch(mac: Mac, now: u32)
      requires Valid()
      modifies peers
      ensures peers[..] == Touched(old(peers[..]), mac, now)
    {
      ghost var was := peers[..];
      var i := 0;
      while i < peers.Length
        invariant 0 <= i <= peers.Length
        invariant forall k :: 0 <= k < i ==> peers[k] == Stamp(was[k], mac, now)
        invariant forall k :: i <= k < peers.Length ==> peers[k] == was[k]
      {
        if peers[i].used && peers[i].mac == mac {
          peers[i] := peers[i].(lastUse := now);
        }
        i := i + 1;
      }
    }

    /** A free slot, if need be by forgetting the peer with the smallest stamp. */
    method FindRoom() returns (i: nat)
      requires Valid()
      modifies this, peers
      ensures Valid() && (Value(), i) == MakeRoom(old(Value()))
    {
      i := 0;
      while i < peers.Length && peers[i].used
        invariant 0 <= i <= peers.Length
        invariant FirstFree(peers[..], 0) == FirstFree(peers[..], i)
      {
        i := i + 1;
      }
      if i == peers.Length {
        var oldest, j := 0, 1;
        while j < peers.Length
          invariant 1 <= j <= peers.Length
          invariant oldest == Oldest(peers[..], j)
        {
          if peers[j].lastUse < peers[oldest].lastUse { oldest := j; }
          j := j + 1;
        }
        radio := radio - {peers[oldest].mac};
        peers[oldest] := peers[oldest].(used := false);
        i := oldest;
      }
    }
  }
}
