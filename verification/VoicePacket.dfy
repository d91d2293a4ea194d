/**
  The voice packet: built by client/src/network/VoiceManager.java `write`, checked by the server, parsed by
  VoiceManager `read`. Layout: phone number (11 bytes), type, sequence number, origin flag, timestamp, data,
  and the length of all that.
 */
module VoicePacket {
  import opened Framing
  import opened Options

  const PHONE_NUMBER_LENGTH: nat := 11
  const LENGTH_TAG_SIZE: nat := 4
  const VOICE_MIN_PACKET_SIZE: nat := 25
  const SEQ_INDEX: nat := 12
  const PACKET_TYPE_IP: byte := 0
  const PACKET_TYPE_DATA: byte := 1

  type int32 = v: int | -0x8000_0000 <= v < 0x8000_0000

  /** ByteBuffer.putInt: big-endian two's complement. */
  function IntBytes(v: int32): (s: seq<byte>)
    ensures |s| == 4
  {
    var u := if v < 0 then v + 0x1_0000_0000 else v;
    [u / 0x100_0000, u / 0x1_0000 % 256, u / 0x100 % 256, u % 256]
  }

  /** ByteBuffer.getInt */
  function GetInt(s: seq<byte>, i: nat): int32
    requires i + 4 <= |s|
  {
    WordBound(s, i);
    var u := Word(s, i);
    if u >= 0x8000_0000 then u - 0x1_0000_0000 else u
  }

  lemma Horner(u: nat)
    requires u < 0x1_0000_0000
    ensures ((u / 0x100_0000 * 256 + u / 0x1_0000 % 256) * 256 + u / 0x100 % 256) * 256 + u % 256 == u
  {
  }

  lemma IntRoundTrip(v: int32, s: seq<byte>, i: nat)
    requires i + 4 <= |s| && s[i..i + 4] == IntBytes(v)
    ensures GetInt(s, i) == v
  {
    var u := if v < 0 then v + 0x1_0000_0000 else v;
    Horner(u);
    var t := s[i..i + 4];
    assert s[i] == t[0] && s[i + 1] == t[1] && s[i + 2] == t[2] && s[i + 3] == t[3];
  }

  lemma IntBytesOfGet(s: seq<byte>, i: nat)
    requires i + 4 <= |s|
    ensures IntBytes(GetInt(s, i)) == s[i..i + 4]
  {
    var a, b, c, d := s[i] as int, s[i + 1] as int, s[i + 2] as int, s[i + 3] as int;
    Digits(a, b, c, d);
    assert s[i..i + 4] == [s[i], s[i + 1], s[i + 2], s[i + 3]];
  }

  lemma Digits(a: int, b: int, c: int, d: int)
    requires 0 <= a < 256 && 0 <= b < 256 && 0 <= c < 256 && 0 <= d < 256
    ensures var u := ((a * 256 + b) * 256 + c) * 256 + d;
            u / 0x100_0000 == a && u / 0x1_0000 % 256 == b && u / 0x100 % 256 == c && u % 256 == d
  {
  }

  datatype Voice = Voice(seqNumber: int32, fromFlag: byte, timestamp: int32, data: seq<byte>)

  predicate Sendable(v: Voice) {
    |v.data| < 0x7fff_0000
  }

  /** The packet a client sends; the tag is the buffer position where it is written. */
  function Build(phoneNumber: seq<byte>, v: Voice): (p: seq<byte>)
    requires |phoneNumber| == PHONE_NUMBER_LENGTH && Sendable(v)
    ensures |p| == VOICE_MIN_PACKET_SIZE + |v.data|
  {
    var body := Body(phoneNumber, v);
    body + IntBytes(|body|)
  }

  function Body(phoneNumber: seq<byte>, v: Voice): (p: seq<byte>)
    requires |phoneNumber| == PHONE_NUMBER_LENGTH
    ensures |p| == VOICE_MIN_PACKET_SIZE - LENGTH_TAG_SIZE + |v.data|
  {
    phoneNumber + [PACKET_TYPE_DATA] + IntBytes(v.seqNumber) + [v.fromFlag] + IntBytes(v.timestamp) + v.data
  }

  /** The length check of both sides. */
  predicate LengthOk(p: seq<byte>) {
    |p| >= LENGTH_TAG_SIZE && GetInt(p, |p| - LENGTH_TAG_SIZE) == |p| - LENGTH_TAG_SIZE
  }

  /** ByteBuffer.putLong, as the bytes it writes. */
  type Long = s: seq<byte> | |s| == 8 witness [0, 0, 0, 0, 0, 0, 0, 0]

  /** Where a client can be reached. */
  datatype Address = Address(ip: Long, port: int32)

  /** The packet by which a client tells the server its private address. */
  function BuildAddress(phoneNumber: seq<byte>, a: Address): (p: seq<byte>)
    requires |phoneNumber| == PHONE_NUMBER_LENGTH
    ensures |p| == 28
  {
    phoneNumber + [PACKET_TYPE_IP] + a.ip + IntBytes(a.port) + IntBytes(24)
  }

  /** It passes the length check, and is no voice packet. */
  lemma AddressShape(phoneNumber: seq<byte>, a: Address)
    requires |phoneNumber| == PHONE_NUMBER_LENGTH
    ensures var p := BuildAddress(phoneNumber, a);
            LengthOk(p) && p[..PHONE_NUMBER_LENGTH] == phoneNumber && p[PHONE_NUMBER_LENGTH] == PACKET_TYPE_IP
  {
    hide IntBytes, GetInt;
    var p := BuildAddress(phoneNumber, a);
    assert p[24..24 + 4] == IntBytes(24);
    IntRoundTrip(24, p, 24);
    assert p[..11] == phoneNumber;
  }

  /** What a client reads from a packet, if it accepts it. */
  function Parse(p: seq<byte>): Option<Voice> {
    if |p| < VOICE_MIN_PACKET_SIZE then None
    else if !LengthOk(p) then None
    else
      var q := p[..|p| - LENGTH_TAG_SIZE];
      if q[PHONE_NUMBER_LENGTH] != PACKET_TYPE_DATA then None
      else Some(Voice(GetInt(q, SEQ_INDEX), q[16], GetInt(q, 17), q[21..]))
  }

  /** Every packet built parses to what was put in, passes the length check, and shows its sequence number. */
  lemma BuildParses(phoneNumber: seq<byte>, v: Voice)
    requires |phoneNumber| == PHONE_NUMBER_LENGTH && Sendable(v)
    ensures var p := Build(phoneNumber, v);
            && Parse(p) == Some(v) && LengthOk(p) && p[..PHONE_NUMBER_LENGTH] == phoneNumber
            && p[PHONE_NUMBER_LENGTH] == PACKET_TYPE_DATA && GetInt(p, SEQ_INDEX) == v.seqNumber
  {
    hide IntBytes, GetInt;
    var p, body := Build(phoneNumber, v), Body(phoneNumber, v);
    assert p[|p| - 4..|p| - 4 + 4] == IntBytes(|body|);
    IntRoundTrip(|body|, p, |p| - 4);
    assert p[..|p| - 4] == body;
    assert p[12..12 + 4] == body[12..12 + 4] == IntBytes(v.seqNumber);
    IntRoundTrip(v.seqNumber, p, 12);
    IntRoundTrip(v.seqNumber, body, 12);
    assert body[17..17 + 4] == IntBytes(v.timestamp);
    IntRoundTrip(v.timestamp, body, 17);
    assert body[21..] == v.data;
    assert p[..11] == phoneNumber;
  }

  /** Where the fields of a packet are, and that numbers are written highest byte first. */
  lemma BuiltLayout(phoneNumber: seq<byte>, v: Voice)
    requires |phoneNumber| == PHONE_NUMBER_LENGTH && Sendable(v)
    ensures var p := Build(phoneNumber, v);
            && p[..11] == phoneNumber && p[11] == 1 && IsBigEndian(p[12..16], v.seqNumber) && p[16] == v.fromFlag
            && IsBigEndian(p[17..21], v.timestamp) && p[21..21 + |v.data|] == v.data
            && IsBigEndian(p[21 + |v.data|..], 21 + |v.data|)
  {
    hide IntBytes, IsBigEndian;
    var p, body := Build(phoneNumber, v), Body(phoneNumber, v);
    assert p[12..16] == body[12..16] == IntBytes(v.seqNumber) && p[17..21] == body[17..21] == IntBytes(v.timestamp);
    assert p[21 + |v.data|..] == IntBytes(|body|) && p[..11] == phoneNumber;
    assert p[21..21 + |v.data|] == body[21..] == v.data;
    BigEndian(v.seqNumber);
    BigEndian(v.timestamp);
    BigEndian(|body|);
  }

  predicate IsBigEndian(s: seq<byte>, v: int32) {
    |s| == 4 && s[0] as int * 0x100_0000 + s[1] as int * 0x1_0000 + s[2] as int * 0x100 + s[3] as int == if v < 0 then v + 0x1_0000_0000 else v
  }

  lemma BigEndian(v: int32)
    ensures IsBigEndian(IntBytes(v), v)
  {
    Horner(if v < 0 then v + 0x1_0000_0000 else v);
  }

  /** The same for the address packet. */
  lemma AddressLayout(phoneNumber: seq<byte>, a: Address)
    requires |phoneNumber| == PHONE_NUMBER_LENGTH
    ensures var p := BuildAddress(phoneNumber, a);
            p[..11] == phoneNumber && p[11] == 0 && p[12..20] == a.ip && IsBigEndian(p[20..24], a.port) && IsBigEndian(p[24..], 24)
  {
    hide IntBytes, IsBigEndian;
    var p := BuildAddress(phoneNumber, a);
    assert p[..11] == phoneNumber && p[12..20] == a.ip && p[20..24] == IntBytes(a.port) && p[24..] == IntBytes(24);
    BigEndian(a.port);
    BigEndian(24);
  }

  /** And conversely: an accepted packet is the one built from its phone number and what was read. */
  lemma ParsedWasBuilt(p: seq<byte>)
    requires Parse(p).Some? && |p| < 0x7fff_0000
    ensures p == Build(p[..PHONE_NUMBER_LENGTH], Parse(p).value)
  {
    hide IntBytes, GetInt;
    var q, v := p[..|p| - 4], Parse(p).value;
    IntBytesOfGet(p, |p| - 4);
    IntBytesOfGet(q, 12);
    IntBytesOfGet(q, 17);
    assert p == q + p[|p| - 4..|p| - 4 + 4];
    assert q == q[..11] + [q[11]] + q[12..12 + 4] + [q[16]] + q[17..17 + 4] + q[21..];
    assert q[..11] == p[..11];
  }
}
