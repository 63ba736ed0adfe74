/** What the builders write is what the parser reads. */
module RoundTrip {
  import opened Bytes
  import opened Header

  /** The receiving session is configured as the mirror image of the sending one. */
  ghost predicate Mirrored(s: Config, r: Config) {
    && s.version == r.version && s.encap == r.encap
    && s.peerSessionId == r.sessionId
    && s.cookie == r.peerCookie
    && s.l2specDefault == r.l2specDefault && s.l2specLen == r.l2specLen && s.offset == r.offset
    && s.ppp == r.ppp
  }

  /** Identifiers that the header can carry and that name a data session. */
  ghost predicate IdFits(c: Config) {
    match c.version
    case V2 => c.peerSessionId < 0x1_0000
    case V3 => c.peerSessionId < 0x1_0000_0000 && (c.encap == Ip ==> c.peerSessionId != 0)
  }

  /** The header can carry sequence numbers at all. */
  predicate CarriesSeq(c: Config) {
    c.version == V2 || c.l2specDefault
  }

  /** The sublayer word that the parser always reads is one that the builder wrote,
      and it ends before the payload. */
  predicate Faithful(c: Config) {
    c.version == V3 && c.l2specDefault ==> 1 <= c.l2specLen && 4 <= c.l2specLen + c.offset
  }

  /** The frame body: the PPP header, if the session carries PPP, and the payload. */
  function Body(c: Config, payload: seq<Byte>): seq<Byte> {
    (if c.ppp then [0xff, 0x03] else []) + payload
  }

  /** The frame on the wire: header space holding `junk`, body behind it, and then
      the builder's stores. */
  ghost function Wire(c: Config, sendSeq: bool, ns: nat, junk: seq<Byte>, payload: seq<Byte>): (w: seq<Byte>)
    requires ValidConfig(c) && NsFits(c, ns) && |junk| == HeaderBytes(c, sendSeq)
    requires HasRoom(c, sendSeq, |junk| + |Body(c, payload)|)
    ensures |w| == |junk| + |Body(c, payload)|
  {
    Built(c, sendSeq, ns, junk + Body(c, payload))
  }

  /** Both stages recover the session id, the presence of a sequence number, the
      number and the exact payload. */
  ghost predicate Recovers(s: Config, r: Config, sendSeq: bool, ns: nat, w: seq<Byte>, payload: seq<Byte>, beyond: nat -> Byte) {
    var one := Stage1Of(r, w);
    && one.Data?
    && one.sessionId == r.sessionId
    && ParseStage2(r, w, one.ptr, one.flags, beyond)
       == Found(sendSeq && CarriesSeq(s), if sendSeq && CarriesSeq(s) then ns else 0, Payload.Payload(payload))
  }

  // ---- reading back single fields ---------------------------------------------------

  lemma PeekBack16(data: seq<Byte>, i: nat, v: nat, beyond: nat -> Byte)
    requires v < 0x1_0000 && i + 2 <= |data| && data[i..i + 2] == U16(v)
    ensures PeekU16(data, i, beyond) == v && GetU16At(data, i) == v
  {
    NetworkOrder(v);
    assert data[i] == data[i..i + 2][0] && data[i + 1] == data[i..i + 2][1];
  }

  lemma PeekBack32(data: seq<Byte>, i: nat, v: nat, beyond: nat -> Byte)
    requires v < 0x1_0000_0000 && i + 4 <= |data| && data[i..i + 4] == U32(v)
    ensures PeekU32(data, i, beyond) == v && GetU32At(data, i) == v
  {
    NetworkOrder(v);
    var d := data[i..i + 4];
    assert data[i] == d[0] && data[i + 1] == d[1] && data[i + 2] == d[2] && data[i + 3] == d[3];
  }

  lemma CutBack(c: Config, data: seq<Byte>, at: nat, payload: seq<Byte>)
    requires at <= |data| && data[at..] == Body(c, payload)
    ensures CutPayload(c, data, at) == Payload.Payload(payload)
  {
    if c.ppp {
      assert data[at..][2..] == payload;
    } else {
      assert data[at..] == payload;
    }
  }

  // ---- every data header of RFC 2661 section 3.1 ----------------------------------------

  /** A data message as section 3.1 of RFC 2661 lays it out: flags and version,
      optional length, tunnel and session id, optional Ns and Nr, optional offset
      size with its padding, payload. */
  function Rfc2661(flags: nat, length: nat, tunnelId: nat, sessionId: nat, ns: nat, nr: nat, pad: seq<Byte>, body: seq<Byte>): seq<Byte>
    requires flags < 0x1_0000 && length < 0x1_0000 && tunnelId < 0x1_0000 && sessionId < 0x1_0000
    requires ns < 0x1_0000 && nr < 0x1_0000 && |pad| < 0x1_0000
  {
    U16(flags)
    + (if Bit(flags, FLAG_L) then U16(length) else [])
    + U16(tunnelId) + U16(sessionId)
    + (if Bit(flags, FLAG_S) then U16(ns) + U16(nr) else [])
    + (if Bit(flags, FLAG_O) then U16(|pad|) + pad else [])
    + body
  }

  /** Where the session id ends. */
  function IdEnd(flags: nat): nat {
    if Bit(flags, FLAG_L) then 8 else 6
  }

  /** Positions of the fields, by the parts in front of them. */
  lemma Rfc2661Layout(flags: nat, length: nat, tunnelId: nat, sessionId: nat, ns: nat, nr: nat, pad: seq<Byte>, body: seq<Byte>)
    requires flags < 0x1_0000 && length < 0x1_0000 && tunnelId < 0x1_0000 && sessionId < 0x1_0000
    requires ns < 0x1_0000 && nr < 0x1_0000 && |pad| < 0x1_0000
    ensures var data := Rfc2661(flags, length, tunnelId, sessionId, ns, nr, pad, body);
      var at := IdEnd(flags);
      && at <= |data| && data[0..2] == U16(flags) && data[at - 2..at] == U16(sessionId)
      && data[at..] == (if Bit(flags, FLAG_S) then U16(ns) + U16(nr) else [])
                       + ((if Bit(flags, FLAG_O) then U16(|pad|) + pad else []) + body)
  {
    var h := U16(flags) + (if Bit(flags, FLAG_L) then U16(length) else []) + U16(tunnelId) + U16(sessionId);
    var sq := if Bit(flags, FLAG_S) then U16(ns) + U16(nr) else [];
    var off := if Bit(flags, FLAG_O) then U16(|pad|) + pad else [];
    assert Rfc2661(flags, length, tunnelId, sessionId, ns, nr, pad, body) == h + (sq + (off + body));
  }

  /** The sequence field of an L2TPv2 frame. */
  lemma V2Seq(c: Config, data: seq<Byte>, at: nat, flags: nat, ns: nat, nr: nat, rest: seq<Byte>, beyond: nat -> Byte)
    requires c.version == V2 && c.l2specLen == 0 && ns < 0x1_0000 && nr < 0x1_0000 && at <= |data|
    requires data[at..] == (if Bit(flags, FLAG_S) then U16(ns) + U16(nr) else []) + rest
    ensures var f := ParseSeq(c, data, at, flags, beyond);
      && f.hasSeq == Bit(flags, FLAG_S) && f.ns == (if f.hasSeq then ns else 0)
      && f.next <= |data| && data[f.next..] == rest
  {
    if Bit(flags, FLAG_S) {
      assert data[at..at + 2] == data[at..][..2] == U16(ns);
      PeekBack16(data, at, ns, beyond);
      assert data[at + 4..] == data[at..][4..] == rest;
    }
  }

  /** The offset field of an L2TPv2 frame. */
  lemma V2Offset(c: Config, data: seq<Byte>, at: nat, flags: nat, pad: seq<Byte>, body: seq<Byte>, beyond: nat -> Byte)
    requires c.version == V2 && |pad| < 0x1_0000 && at <= |data|
    requires data[at..] == (if Bit(flags, FLAG_O) then U16(|pad|) + pad else []) + body
    ensures var p := PayloadAt(c, data, at, flags, beyond);
      p <= |data| && data[p..] == body
  {
    if Bit(flags, FLAG_O) {
      assert data[at..at + 2] == data[at..][..2] == U16(|pad|);
      PeekBack16(data, at, |pad|, beyond);
      assert data[at + 2 + |pad|..] == data[at..][2 + |pad|..] == body;
    }
  }

  /** The two stages invert that layout for every combination of the L, S, O, P and
      reserved bits and any padding, skipping exactly the header. */
  lemma Rfc2661Parses(c: Config, flags: nat, length: nat, tunnelId: nat, sessionId: nat, ns: nat, nr: nat,
                      pad: seq<Byte>, payload: seq<Byte>, beyond: nat -> Byte)
    requires ValidConfig(c) && c.version == V2
    requires flags < 0x1_0000 && flags % 16 == 2 && !Bit(flags, FLAG_T)
    requires length < 0x1_0000 && tunnelId < 0x1_0000 && sessionId < 0x1_0000
    requires ns < 0x1_0000 && nr < 0x1_0000 && |pad| < 0x1_0000
    requires |Rfc2661(flags, length, tunnelId, sessionId, ns, nr, pad, Body(c, payload))| >= HDR_SIZE_SEQ
    ensures var data := Rfc2661(flags, length, tunnelId, sessionId, ns, nr, pad, Body(c, payload));
      && Stage1Of(c, data) == Data(sessionId, IdEnd(flags), flags)
      && ParseStage2(c, data, IdEnd(flags), flags, beyond)
         == Found(Bit(flags, FLAG_S), if Bit(flags, FLAG_S) then ns else 0, Payload.Payload(payload))
  {
    var data := Rfc2661(flags, length, tunnelId, sessionId, ns, nr, pad, Body(c, payload));
    Rfc2661Layout(flags, length, tunnelId, sessionId, ns, nr, pad, Body(c, payload));
    PeekBack16(data, 0, flags, beyond);
    PeekBack16(data, IdEnd(flags) - 2, sessionId, beyond);
    var off := (if Bit(flags, FLAG_O) then U16(|pad|) + pad else []) + Body(c, payload);
    V2Seq(c, data, IdEnd(flags), flags, ns, nr, off, beyond);
    var next := ParseSeq(c, data, IdEnd(flags), flags, beyond).next;
    V2Offset(c, data, next, flags, pad, Body(c, payload), beyond);
    CutBack(c, data, PayloadAt(c, data, next, flags, beyond), payload);
  }

  // ---- L2TPv2 ----------------------------------------------------------------------

  /** The builder writes a section 3.1 header without length and offset. */
  lemma V2WireIsRfc2661(s: Config, sendSeq: bool, ns: nat, junk: seq<Byte>, payload: seq<Byte>)
    requires ValidConfig(s) && s.version == V2 && NsFits(s, ns) && |junk| == HeaderBytes(s, sendSeq)
    ensures HasRoom(s, sendSeq, |junk| + |Body(s, payload)|)
    ensures var flags := if sendSeq then 2 + FLAG_S else 2;
      && !Bit(flags, FLAG_T) && !Bit(flags, FLAG_L) && !Bit(flags, FLAG_O) && Bit(flags, FLAG_S) == sendSeq
      && Wire(s, sendSeq, ns, junk, payload)
         == Rfc2661(flags, 0, s.peerTunnelId % 0x1_0000, s.peerSessionId % 0x1_0000, ns, 0, [], Body(s, payload))
  {
    var flags := if sendSeq then 2 + FLAG_S else 2;
    assert !Bit(flags, FLAG_L) && !Bit(flags, FLAG_O) && Bit(flags, FLAG_S) == sendSeq;
    var body := Body(s, payload);
    assert (junk + body)[|junk|..] == body;
  }

  lemma V2Recovers(s: Config, r: Config, sendSeq: bool, ns: nat, flags: nat, tunnelId: nat, payload: seq<Byte>, beyond: nat -> Byte)
    requires ValidConfig(r) && s.version == V2 && r.version == V2 && r.sessionId < 0x1_0000 && ns < 0x1_0000 && tunnelId < 0x1_0000
    requires flags < 0x1_0000 && flags % 16 == 2 && !Bit(flags, FLAG_T) && Bit(flags, FLAG_S) == sendSeq
    requires |Rfc2661(flags, 0, tunnelId, r.sessionId, ns, 0, [], Body(r, payload))| >= HDR_SIZE_SEQ
    ensures Recovers(s, r, sendSeq, ns, Rfc2661(flags, 0, tunnelId, r.sessionId, ns, 0, [], Body(r, payload)), payload, beyond)
  {
    Rfc2661Parses(r, flags, 0, tunnelId, r.sessionId, ns, 0, [], payload, beyond);
  }

  lemma V2RoundTrip(s: Config, r: Config, sendSeq: bool, ns: nat, junk: seq<Byte>, payload: seq<Byte>, beyond: nat -> Byte)
    requires ValidConfig(s) && ValidConfig(r) && Mirrored(s, r) && IdFits(s) && s.version == V2 && NsFits(s, ns)
    requires |junk| == HeaderBytes(s, sendSeq)
    requires |junk| + |Body(s, payload)| >= HDR_SIZE_SEQ
    ensures HasRoom(s, sendSeq, |junk| + |Body(s, payload)|)
    ensures Recovers(s, r, sendSeq, ns, Wire(s, sendSeq, ns, junk, payload), payload, beyond)
  {
    V2WireIsRfc2661(s, sendSeq, ns, junk, payload);
    var flags := if sendSeq then 2 + FLAG_S else 2;
    assert s.peerSessionId % 0x1_0000 == r.sessionId;
    assert Body(s, payload) == Body(r, payload);
    assert flags % 16 == 2;
    V2Recovers(s, r, sendSeq, ns, flags, s.peerTunnelId % 0x1_0000, payload, beyond);
  }

  // ---- L2TPv3 ----------------------------------------------------------------------

  /** Position of the cookie. */
  function CookieAt(c: Config): nat {
    if c.encap == Udp then 8 else 4
  }

  lemma V3Ids(s: Config, r: Config, w: seq<Byte>)
    requires ValidConfig(s) && Mirrored(s, r) && IdFits(s) && s.version == V3
    requires V3Prefix(s) <= w && (s.encap == Udp ==> |w| >= HDR_SIZE_SEQ)
    ensures Stage1Of(r, w) == Data(r.sessionId, CookieAt(r), if r.encap == Udp then 3 else 0)
  {
    var h := V3Prefix(s);
    var at := CookieAt(s);
    assert w[at - 4..at] == h[at - 4..at] == U32(s.peerSessionId);
    PeekBack32(w, at - 4, s.peerSessionId, Behind(0, 0));
    if s.encap == Udp {
      assert w[0..2] == h[0..2] == U16(3);
      PeekBack16(w, 0, 3, Behind(0, 0));
    }
  }

  lemma V3Cookie(s: Config, r: Config, w: seq<Byte>, beyond: nat -> Byte)
    requires ValidConfig(s) && Mirrored(s, r) && V3Prefix(s) <= w
    ensures CookieMatches(r, w, CookieAt(r), beyond)
  {
    var h := V3Prefix(s);
    forall i | 0 <= i < |r.peerCookie|
      ensures Peek(w, CookieAt(r) + i, beyond) == r.peerCookie[i]
    {
      assert h[CookieAt(s) + i] == s.cookie[i];
    }
  }

  lemma V3Stage1(s: Config, r: Config, w: seq<Byte>, beyond: nat -> Byte)
    requires ValidConfig(s) && ValidConfig(r) && Mirrored(s, r) && IdFits(s) && s.version == V3
    requires V3Prefix(s) <= w && (s.encap == Udp ==> |w| >= HDR_SIZE_SEQ)
    ensures Stage1Of(r, w) == Data(r.sessionId, CookieAt(r), if r.encap == Udp then 3 else 0)
    ensures CookieMatches(r, w, CookieAt(r), beyond)
  {
    V3Ids(s, r, w);
    V3Cookie(s, r, w, beyond);
  }

  lemma SublayerBits(sendSeq: bool, ns: nat)
    requires ns < SL_SEQ_SIZE
    ensures var l2h := if sendSeq then SL_FLAG_S + ns else 0;
      Bit(l2h, SL_FLAG_S) == sendSeq && (sendSeq ==> l2h % SL_SEQ_SIZE == ns)
  {
    if sendSeq {
      assert SL_FLAG_S == 64 * SL_SEQ_SIZE;
      assert (SL_FLAG_S + ns) / SL_FLAG_S == 1;
      assert (64 * SL_SEQ_SIZE + ns) % SL_SEQ_SIZE == ns;
    }
  }

  /** What a faithful builder leaves on the wire. */
  lemma V3Layout(s: Config, sendSeq: bool, ns: nat, junk: seq<Byte>, payload: seq<Byte>)
    requires ValidConfig(s) && s.version == V3 && NsFits(s, ns) && Faithful(s)
    requires |junk| == HeaderBytes(s, sendSeq)
    ensures HasRoom(s, sendSeq, |junk| + |Body(s, payload)|)
    ensures var w := Wire(s, sendSeq, ns, junk, payload); var h := V3Prefix(s);
      && h <= w && w[|junk|..] == Body(s, payload)
      && (s.l2specDefault ==> |h| + 4 <= |w| && w[|h|..|h| + 4] == Sublayer(sendSeq, ns))
  {
    var w := Wire(s, sendSeq, ns, junk, payload);
    var h := V3Prefix(s);
    var room := junk + Body(s, payload);
    if s.l2specDefault {
      assert w == h + Sublayer(sendSeq, ns) + room[|h| + 4..];
      assert w[|h|..|h| + 4] == Sublayer(sendSeq, ns);
      forall i | |junk| <= i < |w|
        ensures w[i] == room[i]
      {
      }
    } else {
      assert w == h + room[|h|..];
    }
    assert room[|junk|..] == Body(s, payload);
    assert w[|junk|..] == room[|junk|..];
  }

  lemma V3Stage2(r: Config, sendSeq: bool, ns: nat, w: seq<Byte>, payload: seq<Byte>, flags: nat, beyond: nat -> Byte)
    requires r.version == V3 && ns < SL_SEQ_SIZE && CookieMatches(r, w, CookieAt(r), beyond)
    requires var p := CookieAt(r) + |r.peerCookie|; var n := p + r.l2specLen + r.offset;
      && n <= |w| && w[n..] == Body(r, payload)
      && (r.l2specDefault ==> p + 4 <= |w| && w[p..p + 4] == Sublayer(sendSeq, ns))
    ensures ParseStage2(r, w, CookieAt(r), flags, beyond)
         == Found(sendSeq && r.l2specDefault, if sendSeq && r.l2specDefault then ns else 0, Payload.Payload(payload))
  {
    var p := CookieAt(r) + |r.peerCookie|;
    if r.l2specDefault {
      PeekBack32(w, p, if sendSeq then SL_FLAG_S + ns else 0, beyond);
      SublayerBits(sendSeq, ns);
    }
    CutBack(r, w, p + r.l2specLen + r.offset, payload);
  }

  lemma V3RoundTrip(s: Config, r: Config, sendSeq: bool, ns: nat, junk: seq<Byte>, payload: seq<Byte>, beyond: nat -> Byte)
    requires ValidConfig(s) && ValidConfig(r) && Mirrored(s, r) && IdFits(s) && s.version == V3 && NsFits(s, ns)
    requires |junk| == HeaderBytes(s, sendSeq) && Faithful(s)
    requires s.encap == Udp ==> |junk| + |Body(s, payload)| >= HDR_SIZE_SEQ
    ensures HasRoom(s, sendSeq, |junk| + |Body(s, payload)|)
    ensures Recovers(s, r, sendSeq, ns, Wire(s, sendSeq, ns, junk, payload), payload, beyond)
  {
    V3Layout(s, sendSeq, ns, junk, payload);
    var w := Wire(s, sendSeq, ns, junk, payload);
    V3Stage1(s, r, w, beyond);
    V3Stage2(r, sendSeq, ns, w, payload, Stage1Of(r, w).flags, beyond);
  }

  /** What the builder leaves on the wire in L2TPv3, byte by byte: over UDP the flags of
      a data message and two reserved bytes (section 4.1.2.1 of RFC 3931), session id
      and cookie, and a default sublayer with the S bit and a 24-bit number (section 4.6),
      or without both. */
  lemma V3WireIsRfc3931(s: Config, sendSeq: bool, ns: nat, junk: seq<Byte>, payload: seq<Byte>)
    requires ValidConfig(s) && s.version == V3 && NsFits(s, ns) && Faithful(s)
    requires |junk| == HeaderBytes(s, sendSeq)
    ensures HasRoom(s, sendSeq, |junk| + |Body(s, payload)|)
    ensures var w := Wire(s, sendSeq, ns, junk, payload);
      var head := (if s.encap == Udp then [0, 3, 0, 0] else []) + U32(s.peerSessionId) + s.cookie;
      && head <= w && w[|junk|..] == Body(s, payload)
      && (s.l2specDefault ==> |head| + 4 <= |w| && w[|head|..|head| + 4] == SublayerBytes(sendSeq, ns))
  {
    V3Layout(s, sendSeq, ns, junk, payload);
    SublayerInBytes(sendSeq, ns);
    assert U16(3) + U16(0) == [0, 3, 0, 0];
  }

  function SublayerBytes(sendSeq: bool, ns: nat): seq<Byte>
    requires ns < 0x100_0000
  {
    if sendSeq then [0x40, ns / 0x1_0000, ns / 256 % 256, ns % 256] else [0, 0, 0, 0]
  }

  lemma SublayerInBytes(sendSeq: bool, ns: nat)
    requires ns < 0x100_0000
    ensures Sublayer(sendSeq, ns) == SublayerBytes(sendSeq, ns)
  {
    if sendSeq {
      TopByte(SL_FLAG_S + ns, ns);
      SecondByte(SL_FLAG_S + ns, ns);
      LowBytes(SL_FLAG_S + ns, ns);
    }
  }

  lemma TopByte(v: nat, ns: nat)
    requires ns < 0x100_0000 && v == 0x40 * 0x100_0000 + ns
    ensures v / 0x100_0000 == 0x40
  {
  }

  lemma SecondByte(v: nat, ns: nat)
    requires ns < 0x100_0000 && v == 0x40 * 0x100_0000 + ns
    ensures v / 0x1_0000 % 256 == ns / 0x1_0000
  {
    assert v / 0x1_0000 == 256 * 0x40 + ns / 0x1_0000;
  }

  lemma LowBytes(v: nat, ns: nat)
    requires v == 0x40 * 0x100_0000 + ns
    ensures v / 256 % 256 == ns / 256 % 256 && v % 256 == ns % 256
  {
    assert v / 256 == 256 * 0x4000 + ns / 256;
  }

  // ---- the exact condition -------------------------------------------------------------

  /** Stage one of the UDP path demands ten bytes. */
  ghost predicate LongEnough(s: Config, sendSeq: bool, payload: seq<Byte>) {
    s.encap == Udp ==> HeaderBytes(s, sendSeq) + |Body(s, payload)| >= HDR_SIZE_SEQ
  }

  /** A built frame of this session comes back, whatever the header space held
      before and whatever lies behind the frame. */
  ghost predicate FrameRecovers(s: Config, r: Config, sendSeq: bool, ns: nat, junk: seq<Byte>, payload: seq<Byte>, beyond: nat -> Byte)
    requires ValidConfig(s)
  {
    NsFits(s, ns) && |junk| == HeaderBytes(s, sendSeq) && HasRoom(s, sendSeq, |junk| + |Body(s, payload)|)
    && LongEnough(s, sendSeq, payload)
    ==> Recovers(s, r, sendSeq, ns, Wire(s, sendSeq, ns, junk, payload), payload, beyond)
  }

  ghost predicate AlwaysRecovers(s: Config, r: Config)
    requires ValidConfig(s)
  {
    forall sendSeq: bool, ns: nat, junk: seq<Byte>, payload: seq<Byte>, beyond: nat -> Byte ::
      FrameRecovers(s, r, sendSeq, ns, junk, payload, beyond)
  }

  function Fill(n: nat, b: Byte): (f: seq<Byte>)
    ensures |f| == n && forall i :: 0 <= i < n ==> f[i] == b
  {
    seq(n, i => b)
  }

  /** The first byte of the word decides whether it carries a number. */
  lemma FirstByteDecides(data: seq<Byte>, i: nat, beyond: nat -> Byte)
    requires i < |data|
    ensures Bit(PeekU32(data, i, beyond), SL_FLAG_S) == Bit(data[i], 0x40)
  {
    var a: int := Peek(data, i, beyond);
    var low: int := PeekU32(data, i, beyond) - 0x100_0000 * a;
    assert 0 <= low < 0x100_0000;
    assert (0x100_0000 * a + low) / 0x4000_0000 == a / 0x40;
  }

  /** How an L2TPv3 frame with a default sublayer is read when its cookie matches. */
  lemma V3Reading(r: Config, w: seq<Byte>, at: nat, flags: nat, beyond: nat -> Byte)
    requires r.version == V3 && r.l2specDefault && CookieMatches(r, w, at, beyond) && at + |r.peerCookie| < |w|
    ensures var p := ParseStage2(r, w, at, flags, beyond);
      && p.Found?
      && p.hasSeq == Bit(w[at + |r.peerCookie|], 0x40)
      && p.payload == CutPayload(r, w, at + |r.peerCookie| + r.l2specLen + r.offset)
  {
    FirstByteDecides(w, at + |r.peerCookie|, beyond);
  }

  /** The round trip includes this frame. */
  lemma Instance(s: Config, r: Config, junk: seq<Byte>, payload: seq<Byte>, beyond: nat -> Byte)
    requires ValidConfig(s) && |junk| == HeaderBytes(s, false) && NsFits(s, 0)
    requires HasRoom(s, false, |junk| + |Body(s, payload)|) && LongEnough(s, false, payload)
    ensures AlwaysRecovers(s, r) ==> Recovers(s, r, false, 0, Wire(s, false, 0, junk, payload), payload, beyond)
  {
    if AlwaysRecovers(s, r) {
      assert FrameRecovers(s, r, false, 0, junk, payload, beyond);
    }
  }

  lemma UnwrittenLayout(s: Config, junk: seq<Byte>, payload: seq<Byte>)
    requires ValidConfig(s) && s.version == V3 && s.l2specDefault && s.l2specLen == 0
    requires junk == Fill(HeaderBytes(s, false), 0x40) && payload == Fill(12, 0x40)
    ensures HasRoom(s, false, |junk| + |Body(s, payload)|)
    ensures var w := Wire(s, false, 0, junk, payload); var h := V3Prefix(s);
      h < w && Bit(w[|h|], 0x40)
  {
    var w := Wire(s, false, 0, junk, payload);
    var h := V3Prefix(s);
    var room := junk + Body(s, payload);
    assert w == h + room[|h|..];
    assert w[|h|] == room[|h|];
    assert room[|h|] == 0x40 || room[|h|] == 0xff;
    assert Bit(0x40, 0x40) && Bit(0xff, 0x40);
  }

  lemma UnwantedNumber(s: Config, r: Config, w: seq<Byte>, payload: seq<Byte>, beyond: nat -> Byte)
    requires var one := Stage1Of(r, w); one.Data? && ParseStage2(r, w, one.ptr, one.flags, beyond).Found?
    requires var one := Stage1Of(r, w); ParseStage2(r, w, one.ptr, one.flags, beyond).hasSeq
    ensures !Recovers(s, r, false, 0, w, payload, beyond)
  {
  }

  /** Without a sublayer length nothing is written, and the parser takes header
      space or payload for the sublayer. */
  lemma UnwrittenSublayer(s: Config, r: Config)
    requires ValidConfig(s) && ValidConfig(r) && Mirrored(s, r) && IdFits(s)
    requires s.version == V3 && s.l2specDefault && s.l2specLen == 0
    ensures !AlwaysRecovers(s, r)
  {
    var junk, payload := Fill(HeaderBytes(s, false), 0x40), Fill(12, 0x40);
    var beyond := (i: nat) => 0 as Byte;
    UnwrittenLayout(s, junk, payload);
    UnwrittenRead(s, r, Wire(s, false, 0, junk, payload), payload, beyond);
    Instance(s, r, junk, payload, beyond);
  }

  lemma UnwrittenRead(s: Config, r: Config, w: seq<Byte>, payload: seq<Byte>, beyond: nat -> Byte)
    requires ValidConfig(s) && ValidConfig(r) && Mirrored(s, r) && IdFits(s) && s.version == V3 && s.l2specDefault
    requires V3Prefix(s) < w && |w| >= HDR_SIZE_SEQ && Bit(w[|V3Prefix(s)|], 0x40)
    ensures !Recovers(s, r, false, 0, w, payload, beyond)
  {
    V3Stage1(s, r, w, beyond);
    assert |V3Prefix(s)| == CookieAt(r) + |r.peerCookie|;
    V3Reading(r, w, CookieAt(r), Stage1Of(r, w).flags, beyond);
    UnwantedNumber(s, r, w, payload, beyond);
  }

  lemma OverwrittenLayout(s: Config, junk: seq<Byte>, payload: seq<Byte>)
    requires ValidConfig(s) && WritesSublayer(s) && s.l2specLen + s.offset < 4
    requires |junk| == HeaderBytes(s, false) && |payload| == 12
    ensures HasRoom(s, false, |junk| + |Body(s, payload)|)
    ensures var w := Wire(s, false, 0, junk, payload); V3Prefix(s) <= w && w[|junk|] == 0
  {
    var w := Wire(s, false, 0, junk, payload);
    var h := V3Prefix(s);
    var k := s.l2specLen + s.offset;
    assert |junk| == |h| + k;
    assert w == h + (Sublayer(false, 0) + (junk + Body(s, payload))[|h| + 4..]);
    assert w[|h| + k] == Sublayer(false, 0)[k];
  }

  lemma OverwrittenRead(s: Config, r: Config, w: seq<Byte>, payload: seq<Byte>, beyond: nat -> Byte)
    requires ValidConfig(s) && ValidConfig(r) && Mirrored(s, r) && IdFits(s) && WritesSublayer(s)
    requires V3Prefix(s) <= w && payload == Fill(12, 1)
    requires var n := HeaderBytes(s, false); |w| == n + |Body(s, payload)| && w[n] == 0
    ensures !Recovers(s, r, false, 0, w, payload, beyond)
  {
    V3Stage1(s, r, w, beyond);
    V3Reading(r, w, CookieAt(r), Stage1Of(r, w).flags, beyond);
    OverwrittenBody(r, w, HeaderBytes(s, false), payload);
  }

  /** A sublayer that reaches past the header overwrites the front of the body. */
  lemma OverwrittenPayload(s: Config, r: Config)
    requires ValidConfig(s) && ValidConfig(r) && Mirrored(s, r) && IdFits(s)
    requires WritesSublayer(s) && s.l2specLen + s.offset < 4
    ensures !AlwaysRecovers(s, r)
  {
    var junk, payload := Fill(HeaderBytes(s, false), 0), Fill(12, 1);
    var beyond := (i: nat) => 0 as Byte;
    OverwrittenLayout(s, junk, payload);
    OverwrittenRead(s, r, Wire(s, false, 0, junk, payload), payload, beyond);
    Instance(s, r, junk, payload, beyond);
  }

  lemma OverwrittenBody(r: Config, w: seq<Byte>, at: nat, payload: seq<Byte>)
    requires payload == Fill(12, 1) && |w| == at + |Body(r, payload)| && w[at] == 0
    ensures CutPayload(r, w, at) != Payload.Payload(payload)
  {
    assert w[at..][0] == 0 && payload[0] == 1;
  }

  /** Header round trip, exactly: between mirrored sessions every built frame gives
      back the session id, the presence and value of the sequence number and the
      payload, if and only if a default sublayer has a length and ends before the
      payload. */
  lemma RoundTripIff(s: Config, r: Config)
    requires ValidConfig(s) && ValidConfig(r) && Mirrored(s, r) && IdFits(s)
    ensures AlwaysRecovers(s, r) <==> Faithful(s)
  {
    if Faithful(s) {
      forall sendSeq: bool, ns: nat, junk: seq<Byte>, payload: seq<Byte>, beyond: nat -> Byte
        ensures FrameRecovers(s, r, sendSeq, ns, junk, payload, beyond)
      {
        if NsFits(s, ns) && |junk| == HeaderBytes(s, sendSeq) && LongEnough(s, sendSeq, payload) {
          match s.version
          case V2 => V2RoundTrip(s, r, sendSeq, ns, junk, payload, beyond);
          case V3 => V3RoundTrip(s, r, sendSeq, ns, junk, payload, beyond);
        }
      }
    } else if s.l2specLen == 0 {
      UnwrittenSublayer(s, r);
    } else {
      OverwrittenPayload(s, r);
    }
  }

  /** A frame below ten bytes in UDP is not handled by the session at all, so the
      length condition is exact as well. */
  lemma ShortFramesPassUp(s: Config, r: Config, sendSeq: bool, ns: nat, junk: seq<Byte>, payload: seq<Byte>)
    requires ValidConfig(s) && ValidConfig(r) && Mirrored(s, r) && IdFits(s) && NsFits(s, ns) && Faithful(s)
    requires |junk| == HeaderBytes(s, sendSeq)
    ensures HasRoom(s, sendSeq, |junk| + |Body(s, payload)|)
    ensures Stage1Of(r, Wire(s, sendSeq, ns, junk, payload)).Data? <==> LongEnough(s, sendSeq, payload)
  {
    if LongEnough(s, sendSeq, payload) {
      var beyond := (i: nat) => 0 as Byte;
      match s.version
      case V2 => V2RoundTrip(s, r, sendSeq, ns, junk, payload, beyond);
      case V3 => V3RoundTrip(s, r, sendSeq, ns, junk, payload, beyond);
    }
  }

  // ---- reads stay inside accepted frames ----------------------------------------------

  /** How this session reads a data frame, up to the payload. */
  ghost function Reading(c: Config, data: seq<Byte>, beyond: nat -> Byte): Stage2 {
    match Stage1Of(c, data)
    case Data(_, ptr, flags) => ParseStage2(c, data, ptr, flags, beyond)
    case _ => BadCookie
  }

  /** The frame is a data frame of this session, with a payload. */
  ghost predicate Accepted(c: Config, data: seq<Byte>, beyond: nat -> Byte) {
    var one := Stage1Of(c, data);
    one.Data? && one.sessionId == c.sessionId && Reading(c, data, beyond).Found? && Reading(c, data, beyond).payload.Payload?
  }

  /** Whatever lies behind an accepted frame has no say in how it is read. */
  ghost predicate StandsAlone(c: Config) {
    forall data: seq<Byte>, beyond: nat -> Byte, other: nat -> Byte ::
      Accepted(c, data, beyond) ==> Reading(c, data, other) == Reading(c, data, beyond)
  }

  /** The sublayer word that the parser reads ends inside every frame that is long
      enough to be accepted. The payload hook of PPP demands two bytes of payload. */
  predicate WordInside(c: Config) {
    c.version == V3 && c.l2specDefault ==> 4 <= c.l2specLen + c.offset + (if c.ppp then 2 else 0)
  }

  lemma AcceptedStandsAlone(c: Config, data: seq<Byte>, ptr: nat, flags: nat, beyond: nat -> Byte, other: nat -> Byte)
    requires WordInside(c)
    requires var p := ParseStage2(c, data, ptr, flags, beyond); p.Found? && p.payload.Payload?
    ensures ParseStage2(c, data, ptr, flags, other) == ParseStage2(c, data, ptr, flags, beyond)
  {
    var f := ParseSeq(c, data, ptr + |c.peerCookie|, flags, beyond);
    assert PayloadAt(c, data, f.next, flags, beyond) + (if c.ppp then 2 else 0) <= |data|;
    CookieInside(c, data, ptr, beyond, other);
    SeqInside(c, data, ptr + |c.peerCookie|, flags, beyond, other);
  }

  lemma CookieInside(c: Config, data: seq<Byte>, ptr: nat, beyond: nat -> Byte, other: nat -> Byte)
    requires CookieMatches(c, data, ptr, beyond) && ptr + |c.peerCookie| <= |data|
    ensures CookieMatches(c, data, ptr, other)
  {
    forall i | 0 <= i < |c.peerCookie|
      ensures Peek(data, ptr + i, other) == c.peerCookie[i]
    {
      assert Peek(data, ptr + i, beyond) == c.peerCookie[i];
    }
  }

  lemma SeqInside(c: Config, data: seq<Byte>, ptr: nat, flags: nat, beyond: nat -> Byte, other: nat -> Byte)
    requires WordInside(c)
    requires PayloadAt(c, data, ParseSeq(c, data, ptr, flags, beyond).next, flags, beyond) + (if c.ppp then 2 else 0) <= |data|
    ensures ParseSeq(c, data, ptr, flags, other) == ParseSeq(c, data, ptr, flags, beyond)
    ensures var next := ParseSeq(c, data, ptr, flags, beyond).next;
      PayloadAt(c, data, next, flags, other) == PayloadAt(c, data, next, flags, beyond)
  {
  }

  /** The session at the other end. */
  function Mirror(c: Config): Config {
    c.(peerSessionId := c.sessionId, cookie := c.peerCookie)
  }

  /** A frame up to its cookie, and `n` bytes 0x40 behind it. */
  ghost function Stub(c: Config, n: nat): seq<Byte>
    requires c.sessionId < 0x1_0000_0000
  {
    V3Prefix(Mirror(c)) + Fill(n, 0x40)
  }

  lemma StubReads(c: Config, n: nat, beyond: nat -> Byte)
    requires ValidConfig(c) && c.version == V3 && (c.encap == Ip ==> c.sessionId != 0)
    requires c.encap == Udp ==> |Stub(c, n)| >= HDR_SIZE_SEQ
    ensures var one := Stage1Of(c, Stub(c, n)); one.Data? && one.sessionId == c.sessionId && one.ptr == CookieAt(c)
    ensures CookieMatches(c, Stub(c, n), CookieAt(c), beyond)
  {
    V3Stage1(Mirror(c), c, Stub(c, n), beyond);
  }

  /** A word of which the first byte sets the flag and the last byte lies behind the
      frame. */
  lemma LastByteCounts(data: seq<Byte>, p: nat, beyond: nat -> Byte, other: nat -> Byte)
    requires |data| <= p + 3 && Peek(data, p, beyond) == Peek(data, p, other) == 0x40
    requires Peek(data, p + 1, beyond) == Peek(data, p + 1, other) && Peek(data, p + 2, beyond) == Peek(data, p + 2, other)
    requires Peek(data, p + 1, beyond) <= 0x40 && beyond(p + 3) == 0 && other(p + 3) == 1
    ensures Bit(PeekU32(data, p, beyond), SL_FLAG_S) && Bit(PeekU32(data, p, other), SL_FLAG_S)
    ensures PeekU32(data, p, beyond) % SL_SEQ_SIZE + 1 == PeekU32(data, p, other) % SL_SEQ_SIZE <= 0x41_0000
  {
    var low: int := 0x1_0000 * Peek(data, p + 1, beyond) + 256 * Peek(data, p + 2, beyond);
    assert PeekU32(data, p, beyond) == 0x4000_0000 + low;
    assert PeekU32(data, p, other) == 0x4000_0000 + low + 1;
    SublayerBits(true, low);
    SublayerBits(true, low + 1);
  }

  /** Such a word is read as two different numbers. */
  lemma TwoReadings(c: Config, data: seq<Byte>, at: nat, flags: nat, beyond: nat -> Byte, other: nat -> Byte)
    requires c.version == V3 && c.l2specDefault
    requires CookieMatches(c, data, at, beyond) && CookieMatches(c, data, at, other)
    requires var p := at + |c.peerCookie|;
      && p + c.l2specLen + c.offset + (if c.ppp then 2 else 0) <= |data| <= p + 3
      && Peek(data, p, beyond) == Peek(data, p, other) == 0x40
      && Peek(data, p + 1, beyond) == Peek(data, p + 1, other) && Peek(data, p + 2, beyond) == Peek(data, p + 2, other)
      && Peek(data, p + 1, beyond) <= 0x40 && beyond(p + 3) == 0 && other(p + 3) == 1
    ensures var r, q := ParseStage2(c, data, at, flags, beyond), ParseStage2(c, data, at, flags, other);
      && r.Found? && r.hasSeq && r.payload.Payload?
      && q == Found(true, r.ns + 1, r.payload) && r.ns < 0x41_0000
  {
    LastByteCounts(data, at + |c.peerCookie|, beyond, other);
  }

  /** Bytes behind the frame: 0x40 at `p`, `last` at p + 3, otherwise 0. */
  function Behind(p: nat, last: Byte): nat -> Byte {
    i => if i == p then 0x40 else if i == p + 3 then last else 0
  }

  lemma StubPeeks(c: Config, n: nat, p: nat)
    requires c.sessionId < 0x1_0000_0000 && p == CookieAt(c) + |c.peerCookie| && n <= 3
    ensures var data := Stub(c, n);
      && |data| == p + n
      && Peek(data, p, Behind(p, 0)) == Peek(data, p, Behind(p, 1)) == 0x40
      && Peek(data, p + 1, Behind(p, 0)) == Peek(data, p + 1, Behind(p, 1)) <= 0x40
      && Peek(data, p + 2, Behind(p, 0)) == Peek(data, p + 2, Behind(p, 1))
  {
  }

  /** The shortest frame that is accepted, apart from flags, identifiers and cookie. */
  function Shortest(c: Config): nat {
    var p := CookieAt(c) + |c.peerCookie|;
    var x := c.l2specLen + c.offset + (if c.ppp then 2 else 0);
    if c.encap == Udp && p + x < HDR_SIZE_SEQ then HDR_SIZE_SEQ - p else x
  }

  /** The frame is accepted, and read as two different numbers with two memories. */
  ghost predicate TwoNumbers(c: Config, data: seq<Byte>, beyond: nat -> Byte, other: nat -> Byte) {
    var r, q := Reading(c, data, beyond), Reading(c, data, other);
    Accepted(c, data, beyond) && r.hasSeq && q == Found(true, r.ns + 1, r.payload) && r.ns < 0x41_0000
  }

  /** What the parser finds behind the cookie of a stub. */
  lemma StubTwoNumbers(c: Config, n: nat, p: nat)
    requires ValidConfig(c) && c.version == V3 && c.l2specDefault && (c.encap == Ip ==> c.sessionId != 0)
    requires p == CookieAt(c) + |c.peerCookie| && c.l2specLen + c.offset + (if c.ppp then 2 else 0) <= n <= 3
    requires c.encap == Udp ==> p + n >= HDR_SIZE_SEQ
    ensures TwoNumbers(c, Stub(c, n), Behind(p, 0), Behind(p, 1))
  {
    var data := Stub(c, n);
    StubPeeks(c, n, p);
    StubReads(c, n, Behind(p, 0));
    StubReads(c, n, Behind(p, 1));
    TwoReadings(c, data, CookieAt(c), Stage1Of(c, data).flags, Behind(p, 0), Behind(p, 1));
  }

  /** Otherwise the shortest frame that is accepted ends before the word does, and is
      read as two different numbers for two different bytes behind it. */
  lemma ReadsTwoNumbers(c: Config) returns (data: seq<Byte>, beyond: nat -> Byte, other: nat -> Byte)
    requires ValidConfig(c) && (c.encap == Ip ==> c.sessionId != 0) && !WordInside(c)
    ensures TwoNumbers(c, data, beyond, other)
  {
    var p, n := CookieAt(c) + |c.peerCookie|, Shortest(c);
    StubTwoNumbers(c, n, p);
    data, beyond, other := Stub(c, n), Behind(p, 0), Behind(p, 1);
  }

  lemma ReadsBeyond(c: Config)
    requires ValidConfig(c) && (c.encap == Ip ==> c.sessionId != 0) && !WordInside(c)
    ensures !StandsAlone(c)
  {
    var data, beyond, other := ReadsTwoNumbers(c);
    assert Accepted(c, data, beyond) && Reading(c, data, other) != Reading(c, data, beyond);
  }

  /** An accepted frame is always read from its own bytes alone, if and only if the
      sublayer word ends inside the shortest frame that is accepted. */
  lemma AcceptedFramesStandAlone(c: Config)
    requires ValidConfig(c) && (c.encap == Ip ==> c.sessionId != 0)
    ensures StandsAlone(c) <==> WordInside(c)
  {
    if WordInside(c) {
      forall data: seq<Byte>, beyond: nat -> Byte, other: nat -> Byte | Accepted(c, data, beyond)
        ensures Reading(c, data, other) == Reading(c, data, beyond)
      {
        var one := Stage1Of(c, data);
        AcceptedStandsAlone(c, data, one.ptr, one.flags, beyond, other);
      }
    } else {
      ReadsBeyond(c);
    }
  }
}
