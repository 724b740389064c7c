/**
 The receive side of the ESP-NOW service: the radio callback validates what arrives and puts
 packets into the ring; everything else is offered to the raw handler. `offered` is what the
 raw handler was given.
 */
module EspNowRx {
  import opened Words
  import opened Crc
  import opened Packet
  import opened Queues
  import opened Ring

  const RX_RING: nat := 8

  datatype RxPacket = RxPacket(mac: Mac, pkt: seq<byte>)

  class Service {
    const ring: RingBuffer<RxPacket>
    var hooked: bool
    var offered: seq<RxPacket>

    /** Only packets with a good CRC and an admissible version wait in the ring. */
    ghost predicate Valid()
      reads this, ring, ring.slots
    {
      && ring.Valid() && ring.slots.Length == RX_RING
      && forall p :: p in ring.Contents() ==> Validate(p.pkt)
    }

    constructor ()
      ensures Valid() && fresh(ring) && fresh(ring.slots) && ring.Contents() == [] && !hooked && offered == []
    {
      ring := new RingBuffer(RX_RING);
      hooked, offered := false, [];
    }

    method SetRawHandler()
      modifies `hooked
      ensures hooked
    {
      hooked := true;
    }

    /** Runs in the radio task: exactly one of the ring and the raw handler gets the frame, if any does. */
    method OnRecv(mac: Mac, data: seq<byte>)
      requires Valid()
      modifies `offered, ring, ring.slots
      ensures Valid()
      ensures Validate(data) ==>
        ring.Contents() == Offer(old(ring.Contents()), RxPacket(mac, data), 8) && offered == old(offered)
      ensures !Validate(data) ==>
        ring.Contents() == old(ring.Contents()) && offered == old(offered) + if hooked then [RxPacket(mac, data)] else []
    {
      hide Crc16From, RingBuffer<RxPacket>.Contents;
      if !Validate(data) {
        if hooked { offered := offered + [RxPacket(mac, data)]; }
        return;
      }
      ring.Push(RxPacket(mac, data));
    }

    /** Hands out the oldest packet, which is a valid one. */
    method Receive() returns (have: bool, p: RxPacket)
      requires Valid()
      modifies ring
      ensures Valid()
      ensures have == (old(ring.Contents()) != [])
      ensures have ==> [p] + ring.Contents() == old(ring.Contents()) && Validate(p.pkt)
      ensures !have ==> ring.Contents() == []
    {
      hide Crc16From, RingBuffer<RxPacket>.Contents;
      ghost var was := ring.Contents();
      have, p := ring.Pop();
      assert have ==> p in was && forall q :: q in ring.Contents() ==> q in was;
    }
  }
}
