/** Which datagrams reach a session, told from their bytes alone, and which bytes of the
    body are passed up. */
module Datagrams {
  import opened Bytes
  import opened Header
  import opened RoundTrip

  /** The number written in big-endian order. */
  function BigEndian(bytes: seq<Byte>): nat {
    if bytes == [] then 0 else 256 * BigEndian(bytes[..|bytes| - 1]) + bytes[|bytes| - 1]
  }

  lemma BigEndianSnoc(bytes: seq<Byte>, last: Byte)
    ensures BigEndian(bytes + [last]) == 256 * BigEndian(bytes) + last
  {
    assert (bytes + [last])[..|bytes|] == bytes;
  }

  lemma TwoBytes(data: seq<Byte>, at: nat)
    requires at + 2 <= |data|
    ensures BigEndian(data[at..at + 2]) == GetU16At(data, at)
  {
    BigEndianSnoc([], data[at]);
    BigEndianSnoc([data[at]], data[at + 1]);
    assert data[at..at + 2] == [data[at]] + [data[at + 1]] && [] + [data[at]] == [data[at]];
  }

  lemma FourBytes(data: seq<Byte>, at: nat)
    requires at + 4 <= |data|
    ensures BigEndian(data[at..at + 4]) == GetU32At(data, at)
  {
    TwoBytes(data, at);
    BigEndianSnoc(data[at..at + 2], data[at + 2]);
    BigEndianSnoc(data[at..at + 3], data[at + 3]);
    assert data[at..at + 2] + [data[at + 2]] == data[at..at + 3];
    assert data[at..at + 3] + [data[at + 3]] == data[at..at + 4];
  }

  lemma BigEndianOf16(v: nat)
    requires v < 0x1_0000
    ensures BigEndian(U16(v)) == v
  {
    NetworkOrder(v);
    TwoBytes(U16(v), 0);
    assert U16(v)[0..2] == U16(v);
  }

  lemma BigEndianOf32(v: nat)
    requires v < 0x1_0000_0000
    ensures BigEndian(U32(v)) == v
  {
    NetworkOrder(v);
    FourBytes(U32(v), 0);
    assert U32(v)[0..4] == U32(v);
  }

  // ---- UDP -----------------------------------------------------------------------------------

  lemma HighByte(flags: nat, a: nat, b: nat)
    requires a < 256 && b < 256 && flags == 256 * a + b
    ensures flags / 0x8000 == a / 0x80 && flags / 0x4000 == a / 0x40
    ensures flags / 0x800 == a / 8 && flags / 0x200 == a / 2
  {
  }

  lemma LowBits(flags: nat, a: nat, b: nat)
    requires flags == 256 * a + b
    ensures flags % 16 == b % 16
  {
  }

  /** The flags in the first two bytes. */
  lemma FlagBits(a: Byte, b: Byte)
    ensures var flags := GetU16(a, b);
      && flags % 16 == b % 16
      && Bit(flags, FLAG_T) == (a >= 0x80) && Bit(flags, FLAG_L) == (a / 0x40 % 2 == 1)
      && Bit(flags, FLAG_S) == (a / 8 % 2 == 1) && Bit(flags, FLAG_O) == (a / 2 % 2 == 1)
  {
    HighByte(GetU16(a, b), a, b);
    LowBits(GetU16(a, b), a, b);
  }

  /** A data message of the tunnel's version: at least ten bytes, the type bit clear, and
      the version in the low four bits of the second byte. */
  predicate IsDataMessage(version: Version, data: seq<Byte>) {
    |data| >= 10 && data[0] < 0x80 && data[1] % 16 == (if version == V2 then 2 else 3)
  }

  /** Where the session id of a data message stands: behind the tunnel id in L2TPv2,
      which follows the length if that is present, and at a fixed place in L2TPv3. */
  function SessionIdAt(version: Version, data: seq<Byte>): (at: nat)
    requires IsDataMessage(version, data)
    ensures at <= 6
  {
    if version == V3 then 4 else if data[0] / 0x40 % 2 == 1 then 6 else 4
  }

  function IdWidth(version: Version): nat {
    if version == V2 then 2 else 4
  }

  function IdOf(version: Version, data: seq<Byte>): nat
    requires IsDataMessage(version, data)
  {
    var at := SessionIdAt(version, data);
    BigEndian(data[at..at + IdWidth(version)])
  }

  /** A UDP datagram reaches the lookup if and only if it is a data message, with the
      session id found in its place and the walk continued behind it; everything else,
      control messages included, goes to user space. */
  lemma UdpLookupIff(version: Version, data: seq<Byte>)
    ensures UdpStage1(version, data).Data? <==> IsDataMessage(version, data)
    ensures !IsDataMessage(version, data) ==> UdpStage1(version, data) == PassUp
    ensures IsDataMessage(version, data) ==>
      UdpStage1(version, data) == Data(IdOf(version, data), SessionIdAt(version, data) + IdWidth(version), BigEndian(data[..2]))
  {
    if |data| >= 10 {
      FlagBits(data[0], data[1]);
      TwoBytes(data, 0);
      assert data[0..2] == data[..2];
      if IsDataMessage(version, data) {
        var at := SessionIdAt(version, data);
        TwoBytes(data, at);
        if version == V3 {
          FourBytes(data, 4);
        }
      }
    }
  }

  // ---- IP --------------------------------------------------------------------------------------

  /** The four bytes of the session id are zero. */
  predicate ZeroId(data: seq<Byte>)
    requires |data| >= 4
  {
    data[0] == 0 && data[1] == 0 && data[2] == 0 && data[3] == 0
  }

  lemma ZeroIff(data: seq<Byte>)
    requires |data| >= 4
    ensures GetU32At(data, 0) == 0 <==> ZeroId(data)
  {
    var x: int, y: int := GetU16(data[0], data[1]), GetU16(data[2], data[3]);
    assert GetU32At(data, 0) == 0x1_0000 * x + y;
  }

  lemma IpOfId(data: seq<Byte>, id: nat)
    requires |data| >= 4 && id == GetU32At(data, 0) && id != 0
    ensures IpStage1(data) == Data(id, 4, 0)
  {
  }

  lemma IpOfNonzeroId(data: seq<Byte>)
    requires |data| >= 4 && !ZeroId(data)
    ensures IpStage1(data) == Data(BigEndian(data[..4]), 4, 0)
  {
    ZeroIff(data);
    FourBytes(data, 0);
    assert data[0..4] == data[..4];
    IpOfId(data, BigEndian(data[..4]));
  }

  /** Behind a zero id: twelve more bytes that start with type and length bit. */
  predicate IsControlMessage(data: seq<Byte>) {
    |data| >= 16 && ZeroId(data) && data[4] >= 0xc0
  }

  lemma IpOfZero(data: seq<Byte>)
    requires |data| >= 4 && GetU32At(data, 0) == 0
    ensures IpStage1(data) == if IsControl(data) then PassUp else Drop
  {
  }

  lemma ControlOfZero(data: seq<Byte>, s: Stage1)
    requires |data| >= 4 && ZeroId(data) && s == if IsControl(data) then PassUp else Drop
    ensures s == if IsControlMessage(data) then PassUp else Drop
  {
  }

  lemma IpOfZeroId(data: seq<Byte>)
    requires |data| >= 4 && ZeroId(data)
    ensures IpStage1(data) == if IsControlMessage(data) then PassUp else Drop
  {
    ZeroIff(data);
    IpOfZero(data);
    ControlOfZero(data, IpStage1(data));
  }

  /** An IP datagram reaches the lookup if and only if it has a session id other than 0,
      which is then looked up. It goes to user space if and only if it is a control
      message; the others are freed. */
  lemma IpLookupIff(data: seq<Byte>)
    ensures IpStage1(data).Data? <==> |data| >= 4 && !ZeroId(data)
    ensures |data| >= 4 && !ZeroId(data) ==> IpStage1(data) == Data(BigEndian(data[..4]), 4, 0)
    ensures IpStage1(data) == PassUp <==> IsControlMessage(data)
  {
    if |data| >= 4 {
      if ZeroId(data) {
        IpOfZeroId(data);
      } else {
        IpOfNonzeroId(data);
      }
    }
  }

  // ---- bodies --------------------------------------------------------------------------------------

  /** A session without PPP passes every body up whole. With PPP, a body that starts with
      FF 03 loses these two bytes, every other body of two bytes or more is passed up
      whole, and shorter ones are refused; so is a frame that ends before its body. */
  lemma BodyPassedUp(c: Config, header: seq<Byte>, body: seq<Byte>)
    ensures !c.ppp ==> CutPayload(c, header + body, |header|) == Payload.Payload(body)
    ensures c.ppp ==> CutPayload(c, header + ([0xff, 0x03] + body), |header|) == Payload.Payload(body)
    ensures c.ppp && |body| >= 2 && body[..2] != [0xff, 0x03] ==> CutPayload(c, header + body, |header|) == Payload.Payload(body)
    ensures c.ppp && |body| < 2 ==> CutPayload(c, header + body, |header|) == NoPayload
    ensures CutPayload(c, header, |header| + 1 + |body|) == NoPayload
  {
    assert (header + body)[|header|..] == body;
    var b := [0xff, 0x03] + body;
    assert (header + b)[|header|..] == b && b[2..] == body;
    if |body| >= 2 {
      assert body[..2] == [body[0], body[1]];
    }
  }

  /** The same from the wire, for every data header of section 3.1 of RFC 2661: a PPP body
      without the header FF 03 comes out unchanged. */
  lemma UncompressedBody(c: Config, flags: nat, length: nat, tunnelId: nat, sessionId: nat, ns: nat, nr: nat,
                         pad: seq<Byte>, body: seq<Byte>, beyond: nat -> Byte)
    requires ValidConfig(c) && c.version == V2 && c.ppp
    requires flags < 0x1_0000 && flags % 16 == 2 && !Bit(flags, FLAG_T)
    requires length < 0x1_0000 && tunnelId < 0x1_0000 && sessionId < 0x1_0000
    requires ns < 0x1_0000 && nr < 0x1_0000 && |pad| < 0x1_0000
    requires |body| >= 2 && body[..2] != [0xff, 0x03]
    requires |Rfc2661(flags, length, tunnelId, sessionId, ns, nr, pad, body)| >= HDR_SIZE_SEQ
    ensures var data := Rfc2661(flags, length, tunnelId, sessionId, ns, nr, pad, body);
      && Stage1Of(c, data) == Data(sessionId, IdEnd(flags), flags)
      && ParseStage2(c, data, IdEnd(flags), flags, beyond)
         == Found(Bit(flags, FLAG_S), if Bit(flags, FLAG_S) then ns else 0, Payload.Payload(body))
  {
    var plain := c.(ppp := false);
    var data := Rfc2661(flags, length, tunnelId, sessionId, ns, nr, pad, body);
    assert Body(plain, body) == body;
    Rfc2661Parses(plain, flags, length, tunnelId, sessionId, ns, nr, pad, body, beyond);
    WithoutHeader(c, plain, data, IdEnd(flags), flags, body, beyond);
  }

  lemma SamePlace(c: Config, plain: Config, data: seq<Byte>, ptr: nat, flags: nat, beyond: nat -> Byte)
    requires plain == c.(ppp := false)
    ensures ParseSeq(c, data, ptr, flags, beyond) == ParseSeq(plain, data, ptr, flags, beyond)
    ensures PayloadAt(c, data, ptr, flags, beyond) == PayloadAt(plain, data, ptr, flags, beyond)
  {
  }

  lemma CutWhole(c: Config, plain: Config, data: seq<Byte>, at: nat, body: seq<Byte>)
    requires c.ppp && !plain.ppp && |body| >= 2 && body[..2] != [0xff, 0x03]
    requires CutPayload(plain, data, at) == Payload.Payload(body)
    ensures CutPayload(c, data, at) == Payload.Payload(body)
  {
    assert data[at..] == body && body[..2] == [body[0], body[1]];
  }

  /** What a session without PPP reads as `body`, one with PPP reads the same. */
  lemma WithoutHeader(c: Config, plain: Config, data: seq<Byte>, ptr: nat, flags: nat, body: seq<Byte>, beyond: nat -> Byte)
    requires c.ppp && plain == c.(ppp := false) && |body| >= 2 && body[..2] != [0xff, 0x03]
    requires var p := ParseStage2(plain, data, ptr, flags, beyond); p.Found? && p.payload == Payload.Payload(body)
    ensures ParseStage2(c, data, ptr, flags, beyond) == ParseStage2(plain, data, ptr, flags, beyond)
  {
    assert CookieMatches(c, data, ptr, beyond);
    SamePlace(c, plain, data, ptr + |plain.peerCookie|, flags, beyond);
    var f := ParseSeq(plain, data, ptr + |plain.peerCookie|, flags, beyond);
    SamePlace(c, plain, data, f.next, flags, beyond);
    var at := PayloadAt(plain, data, f.next, flags, beyond);
    CutWhole(c, plain, data, at, body);
  }
}
