/** The fixed 36-byte packet: sealing, validation and what validation rules out. */
module Packet {
  import opened Crc

  const PACKET_SIZE: nat := 36
  const PROTOCOL_VERSION: byte := 3

  /** The four messages that are accepted from any protocol version. */
  predicate IsRescueMsg(msgType: byte) {
    msgType == 0x01 || msgType == 0x02 || msgType == 0xF2 || msgType == 0xF3
  }

  predicate Validate(data: seq<byte>) {
    && |data| == PACKET_SIZE
    && (data[0] == PROTOCOL_VERSION || IsRescueMsg(data[1]))
    && GetU16(data[34], data[35]) == Crc16(data[..34])
  }

  function GetU16(lo: byte, hi: byte): bv16 {
    (lo as bv16) | ((hi as bv16) << 8)
  }

  function LowByte(v: bv16): byte {
    (v & 0xFF) as byte
  }

  function HighByte(v: bv16): byte {
    (v >> 8) as byte
  }

  lemma U16RoundTrip(v: bv16)
    ensures GetU16(LowByte(v), HighByte(v)) == v
  {
  }

  /** Stores the CRC of bytes 0..33 in bytes 34 and 35; nothing else changes. */
  method Seal(p: array<byte>)
    requires p.Length == PACKET_SIZE
    modifies p
    ensures p[..34] == old(p[..34])
    ensures Validate(p[..]) <==> old(p[0]) == 3 || old(p[1]) in {0x01, 0x02, 0xF2, 0xF3}
    ensures p[34] == (Crc16(old(p[..34])) & 0xFF) as byte && p[35] == (Crc16(old(p[..34])) >> 8) as byte
  {
    hide Crc16From;
    var crc := ComputeCrc16(p, 34);
    p[34] := LowByte(crc);
    p[35] := HighByte(crc);
    U16RoundTrip(crc);
    assert p[..34] == old(p[..34]);
    assert p[..][..34] == p[..34];
  }

  /**
   A valid packet that is changed only within two adjacent bytes of 0..33 is never valid,
   whatever the change and whatever the message type.
   */
  lemma BurstIsRejected(p: seq<byte>, q: seq<byte>, k: nat)
    requires Validate(p) && |q| == PACKET_SIZE && k < 33 && q != p
    requires forall i :: 0 <= i < PACKET_SIZE && i != k && i != k + 1 ==> q[i] == p[i]
    ensures !Validate(q)
  {
    hide Crc16From;
    var a, b := p[..k], p[k + 2..34];
    assert p[..34] == a + p[k..k + 2] + b;
    assert q[..34] == a + q[k..k + 2] + b;
    BurstChangesCrc16(0xFFFF, a, p[k..k + 2], q[k..k + 2], b);
  }

  /** Packets of a foreign version pass exactly when they are rescue messages. */
  lemma ForeignVersion(p: seq<byte>, version: byte)
    requires |p| == 36 && version != 3
    requires GetU16(p[34], p[35]) == Crc16([version] + p[1..34])
    ensures Validate(p[0 := version]) <==> p[1] in {0x01, 0x02, 0xF2, 0xF3}
  {
    hide Crc16From;
    assert p[0 := version][..34] == [version] + p[1..34];
  }
}
