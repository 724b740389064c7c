/** The payloads of the push control packets, written and read in place, little-endian. */
module PushCodec {
  import opened Words
  import opened Crc
  import opened Bytes
  import opened Packet
  import opened PushLayout

  const PAYLOAD_AT: nat := 8
  const PAYLOAD_SIZE: nat := 26
  const MSG_PUSH_BEGIN: byte := 0xF4
  const MSG_PUSH_ACK: byte := 0xF5

  datatype PushBegin = PushBegin(size: u32, crc: bv32, major: byte, minor: byte, patch: byte)
  datatype PushAck = PushAck(window: bv16, missing: bv32, status: byte, detail: byte)

  // --- 32-bit masks and checksums as bytes ------------------------------------------------------

  function Byte0(v: bv32): byte { (v & 0xFF) as byte }
  function Byte1(v: bv32): byte { ((v >> 8) & 0xFF) as byte }
  function Byte2(v: bv32): byte { ((v >> 16) & 0xFF) as byte }
  function Byte3(v: bv32): byte { ((v >> 24) & 0xFF) as byte }

  function Join(b0: byte, b1: byte, b2: byte, b3: byte): bv32 {
    (b0 as bv32) | ((b1 as bv32) << 8) | ((b2 as bv32) << 16) | ((b3 as bv32) << 24)
  }

  function Put32(v: bv32): seq<byte> {
    [Byte0(v), Byte1(v), Byte2(v), Byte3(v)]
  }

  function Get32(p: seq<byte>): bv32
    requires |p| == 4
  {
    Join(p[0], p[1], p[2], p[3])
  }

  lemma Joined(v: bv32)
    ensures Join(Byte0(v), Byte1(v), Byte2(v), Byte3(v)) == v
  {
  }

  // --- decoding ------------------------------------------------------------------------------------

  function DecodePushBegin(p: seq<byte>): PushBegin
    requires |p| == PAYLOAD_SIZE
  {
    PushBegin(RdU32(p[..4]), Get32(p[4..8]), p[8], p[9], p[10])
  }

  function DecodePushAck(p: seq<byte>): PushAck
    requires |p| == PAYLOAD_SIZE
  {
    PushAck(GetU16(p[0], p[1]), Get32(p[2..6]), p[6], p[7])
  }

  /** Where the fields of a BEGIN lie: both words with the lowest byte first. */
  lemma BeginLayout(p: seq<byte>)
    requires |p| == 26
    ensures var b := DecodePushBegin(p);
      && b.size == (p[0] as nat) + 0x100 * (p[1] as nat) + 0x1_0000 * (p[2] as nat) + 0x100_0000 * (p[3] as nat)
      && b.crc == (p[4] as bv32) | ((p[5] as bv32) << 8) | ((p[6] as bv32) << 16) | ((p[7] as bv32) << 24)
      && b.major == p[8] && b.minor == p[9] && b.patch == p[10]
  {
    LittleEndian(p[..4]);
  }

  /** Where the fields of an ack lie. */
  lemma AckLayout(p: seq<byte>)
    requires |p| == 26
    ensures var a := DecodePushAck(p);
      && a.window == (p[0] as bv16) | ((p[1] as bv16) << 8)
      && a.missing == (p[2] as bv32) | ((p[3] as bv32) << 8) | ((p[4] as bv32) << 16) | ((p[5] as bv32) << 24)
      && a.status == p[6] && a.detail == p[7]
  {
  }

  // --- packets -------------------------------------------------------------------------------------

  /** An empty packet of this type. */
  method Init(p: array<byte>, msgType: byte, deviceType: byte)
    requires p.Length == PACKET_SIZE
    modifies p
    ensures p[0] == PROTOCOL_VERSION && p[1] == msgType && p[2] == deviceType
    ensures forall i :: 3 <= i < PACKET_SIZE ==> p[i] == 0
  {
    forall i | 0 <= i < p.Length { p[i] := 0; }
    p[0], p[1], p[2] := PROTOCOL_VERSION, msgType, deviceType;
  }

  /** Copies bytes into a packet. */
  method Put(p: array<byte>, at: nat, data: seq<byte>)
    requires at + |data| <= p.Length
    modifies p
    ensures p[at..at + |data|] == data
    ensures forall i :: 0 <= i < p.Length && !(at <= i < at + |data|) ==> p[i] == old(p[i])
  {
    forall i | 0 <= i < |data| { p[at + i] := data[i]; }
  }

  /** The thirteen bytes of a BEGIN. */
  function BeginBytes(b: PushBegin): (data: seq<byte>)
    ensures |data| == 13 && data[11] == 242 && data[12] == 16
  {
    WordBytes(b.size);
    WrU32(b.size) + Put32(b.crc) + [b.major, b.minor, b.patch, 242, 16]
  }

  lemma WordBytes(v: u32)
    ensures |WrU32(v)| == 4
  {
    U32RoundTrip(v);
  }

  lemma BeginFields(b: PushBegin, s: seq<byte>)
    requires |s| == PAYLOAD_SIZE && s[..13] == BeginBytes(b)
    ensures DecodePushBegin(s) == b
  {
    hide WrU32, RdU32, Join, Byte0, Byte1, Byte2, Byte3;
    U32RoundTrip(b.size);
    Joined(b.crc);
    assert s[..4] == s[..13][..4] == WrU32(b.size);
    assert s[4..8] == s[..13][4..8] == Put32(b.crc);
    assert s[8] == s[..13][8] && s[9] == s[..13][9] && s[10] == s[..13][10];
  }

  method EncodePushBegin(b: PushBegin, p: array<byte>)
    requires p.Length == PACKET_SIZE
    modifies p
    ensures p[..PAYLOAD_AT] == old(p[..PAYLOAD_AT]) && p[34..] == old(p[34..])
    ensures DecodePushBegin(p[PAYLOAD_AT..34]) == b
    ensures p[PAYLOAD_AT + 11] == 242 && p[PAYLOAD_AT + 12] == 16
    ensures forall i :: PAYLOAD_AT + 13 <= i < 34 ==> p[i] == 0
  {
    hide BeginBytes, DecodePushBegin;
    forall i | PAYLOAD_AT <= i < 34 { p[i] := 0; }
    Put(p, PAYLOAD_AT, BeginBytes(b));
    assert p[..PAYLOAD_AT] == old(p[..PAYLOAD_AT]) && p[34..] == old(p[34..]);
    ghost var s := p[PAYLOAD_AT..34];
    assert s[..13] == p[PAYLOAD_AT..PAYLOAD_AT + 13];
    BeginFields(b, s);
    assert p[19] == s[..13][11] && p[20] == s[..13][12];
  }

  /** The eight bytes of an ack. */
  function AckBytes(a: PushAck): (data: seq<byte>)
    ensures |data| == 8
  {
    [LowByte(a.window), HighByte(a.window)] + Put32(a.missing) + [a.status, a.detail]
  }

  lemma AckFields(a: PushAck, s: seq<byte>)
    requires |s| == PAYLOAD_SIZE && s[..8] == AckBytes(a)
    ensures DecodePushAck(s) == a
  {
    hide Join, Byte0, Byte1, Byte2, Byte3, GetU16, LowByte, HighByte;
    U16RoundTrip(a.window);
    Joined(a.missing);
    assert s[2..6] == s[..8][2..6] == Put32(a.missing);
    assert s[0] == s[..8][0] && s[1] == s[..8][1] && s[6] == s[..8][6] && s[7] == s[..8][7];
  }

  method EncodePushAck(a: PushAck, p: array<byte>)
    requires p.Length == PACKET_SIZE
    modifies p
    ensures p[..PAYLOAD_AT] == old(p[..PAYLOAD_AT]) && p[34..] == old(p[34..])
    ensures DecodePushAck(p[PAYLOAD_AT..34]) == a
    ensures forall i :: PAYLOAD_AT + 8 <= i < 34 ==> p[i] == 0
  {
    hide AckBytes, DecodePushAck;
    forall i | PAYLOAD_AT <= i < 34 { p[i] := 0; }
    Put(p, PAYLOAD_AT, AckBytes(a));
    assert p[..PAYLOAD_AT] == old(p[..PAYLOAD_AT]) && p[34..] == old(p[34..]);
    ghost var s := p[PAYLOAD_AT..34];
    assert s[..8] == p[PAYLOAD_AT..PAYLOAD_AT + 8];
    AckFields(a, s);
  }

  /** The receiver's ack, built and sealed: it validates and says what was meant. */
  method AckPacket(a: PushAck, p: array<byte>)
    requires p.Length == PACKET_SIZE
    modifies p
    ensures Validate(p[..]) && p[0] == 3 && p[1] == 0xF5 && DecodePushAck(p[8..34]) == a
  {
    hide Validate, DecodePushAck, Crc16From;
    Init(p, MSG_PUSH_ACK, 0);
    EncodePushAck(a, p);
    assert p[0] == p[..PAYLOAD_AT][0] && p[1] == p[..PAYLOAD_AT][1];
    ghost var was := p[..34];
    Seal(p);
    assert p[0] == p[..34][0] && p[1] == p[..34][1] && p[PAYLOAD_AT..34] == p[..34][PAYLOAD_AT..];
    assert was[PAYLOAD_AT..] == p[PAYLOAD_AT..34];
  }

  /** The sender's BEGIN likewise. */
  method BeginPacket(b: PushBegin, p: array<byte>)
    requires p.Length == PACKET_SIZE
    modifies p
    ensures Validate(p[..]) && p[0] == 3 && p[1] == 0xF4 && DecodePushBegin(p[8..34]) == b
  {
    hide Validate, DecodePushBegin, Crc16From;
    Init(p, MSG_PUSH_BEGIN, 0);
    EncodePushBegin(b, p);
    assert p[0] == p[..PAYLOAD_AT][0] && p[1] == p[..PAYLOAD_AT][1];
    ghost var was := p[..34];
    Seal(p);
    assert p[0] == p[..34][0] && p[1] == p[..34][1] && p[PAYLOAD_AT..34] == p[..34][PAYLOAD_AT..];
    assert was[PAYLOAD_AT..] == p[PAYLOAD_AT..34];
  }

  /** No raw frame, of whatever length and content, is ever taken for a protocol packet. */
  lemma RawFrameIsNoPacket(idx: u32, data: seq<byte>)
    ensures !Validate(RawFrame(idx, data))
  {
    hide Crc16From, WrU32;
    U32RoundTrip(idx);
    var raw := RawFrame(idx, data);
    assert raw[0] == 0x49 && raw[1] == 0x4E;
  }
}
