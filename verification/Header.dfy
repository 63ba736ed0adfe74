/** Data headers of L2TPv2 and L2TPv3: the two builders as printers, and the parser
    in two stages, first up to the session id and then up to the payload. */
module Header {
  import opened Bytes

  datatype Version = V2 | V3
  datatype Encap = Udp | Ip

  const FLAG_T: nat := 0x8000
  const FLAG_L: nat := 0x4000
  const FLAG_S: nat := 0x0800
  const FLAG_O: nat := 0x0200

  const SL_FLAG_S: nat := 0x4000_0000
  const SL_SEQ_SIZE: nat := 0x100_0000

  /** UDP datagrams shorter than this are passed up to user space. */
  const HDR_SIZE_SEQ: nat := 10

  /** What is fixed when a session is created: protocol and encapsulation of its
      tunnel, identifiers, cookies (with their lengths), whether the default
      L2-specific sublayer is in use, the lengths of sublayer and offset padding,
      and whether the PPP payload hook is installed. */
  datatype Config = Config(
    version: Version,
    encap: Encap,
    peerTunnelId: nat,
    sessionId: nat,
    peerSessionId: nat,
    cookie: seq<Byte>,
    peerCookie: seq<Byte>,
    l2specDefault: bool,
    l2specLen: nat,
    offset: nat,
    ppp: bool)

  /** The limits that session creation enforces: cookies of at most 8 bytes, an
      8-bit sublayer length, a 16-bit offset, and none of them in L2TPv2. */
  ghost predicate ValidConfig(c: Config) {
    && c.peerTunnelId < 0x1_0000_0000 && c.sessionId < 0x1_0000_0000 && c.peerSessionId < 0x1_0000_0000
    && |c.cookie| <= 8 && |c.peerCookie| <= 8 && c.l2specLen < 256 && c.offset < 0x1_0000
    && (c.version == V2 ==> c.encap == Udp && c.cookie == [] && c.peerCookie == [] && c.l2specLen == 0 && c.offset == 0)
  }

  // ---- builders --------------------------------------------------------------------

  /** The number of bytes that the builder claims at the front of the buffer. */
  function HeaderBytes(c: Config, sendSeq: bool): nat {
    match c.version
    case V2 => if sendSeq then 10 else 6
    case V3 => 4 + |c.cookie| + c.l2specLen + c.offset + (if c.encap == Udp then 4 else 0)
  }

  function V2Ids(c: Config, sendSeq: bool): seq<Byte> {
    U16(if sendSeq then 2 + FLAG_S else 2)
    + U16(c.peerTunnelId % 0x1_0000)
    + U16(c.peerSessionId % 0x1_0000)
  }

  function V2Head(c: Config, sendSeq: bool, ns: nat): (h: seq<Byte>)
    requires ns < 0x1_0000
  {
    V2Ids(c, sendSeq) + (if sendSeq then U16(ns) + U16(0) else [])
  }

  function V3Prefix(c: Config): seq<Byte>
    requires c.peerSessionId < 0x1_0000_0000
  {
    (if c.encap == Udp then U16(3) + U16(0) else []) + U32(c.peerSessionId) + c.cookie
  }

  /** The default sublayer is written only if it has a length, and then as four
      bytes whatever that length is. */
  predicate WritesSublayer(c: Config) {
    c.version == V3 && c.l2specLen > 0 && c.l2specDefault
  }

  function Sublayer(sendSeq: bool, ns: nat): (b: seq<Byte>)
    requires ns < SL_SEQ_SIZE
    ensures |b| == 4
  {
    U32(if sendSeq then SL_FLAG_S + ns else 0)
  }

  /** The builder writes inside the buffer. */
  ghost predicate HasRoom(c: Config, sendSeq: bool, room: nat) {
    && HeaderBytes(c, sendSeq) <= room
    && (WritesSublayer(c) ==> |c.cookie| + (if c.encap == Udp then 8 else 4) + 4 <= room)
  }

  /** The range of sequence numbers that fit the version's header. */
  predicate NsFits(c: Config, ns: nat) {
    ns < (if c.version == V2 then 0x1_0000 else SL_SEQ_SIZE)
  }

  /** The buffer after the builder ran on a buffer that held `room`. */
  ghost function Built(c: Config, sendSeq: bool, ns: nat, room: seq<Byte>): (b: seq<Byte>)
    requires c.peerSessionId < 0x1_0000_0000 && NsFits(c, ns) && HasRoom(c, sendSeq, |room|)
    ensures |b| == |room|
  {
    match c.version
    case V2 =>
      var h := V2Head(c, sendSeq, ns);
      h + room[|h|..]
    case V3 =>
      var h := V3Prefix(c);
      if WritesSublayer(c) then h + Sublayer(sendSeq, ns) + room[|h| + 4..] else h + room[|h|..]
  }

  // ---- first stage: up to the session id ---------------------------------------------

  /** Stage one either gives the frame to someone else or finds the session id, the
      position behind it and the header flags. */
  datatype Stage1 = PassUp | Drop | Data(sessionId: nat, ptr: nat, flags: nat)

  function GetU16At(data: seq<Byte>, i: nat): (v: nat)
    requires i + 2 <= |data|
    ensures v < 0x1_0000
  {
    GetU16(data[i], data[i + 1])
  }

  function GetU32At(data: seq<Byte>, i: nat): (v: nat)
    requires i + 4 <= |data|
    ensures v < 0x1_0000_0000
  {
    GetU32(data[i], data[i + 1], data[i + 2], data[i + 3])
  }

  /** l2tp_udp_recv_core before the lookup. */
  function UdpStage1(version: Version, data: seq<Byte>): Stage1 {
    if |data| < HDR_SIZE_SEQ then PassUp
    else
      var flags := GetU16At(data, 0);
      if flags % 16 != (if version == V2 then 2 else 3) then PassUp
      else if Bit(flags, FLAG_T) then PassUp
      else if version == V2 then
        var ptr := if Bit(flags, FLAG_L) then 4 else 2;
        Data(GetU16At(data, ptr + 2), ptr + 4, flags)
      else
        Data(GetU32At(data, 4), 8, flags)
  }

  /** A control message behind the id 0: type and length bit set, and long enough for
      the tunnel id and the numbers. */
  predicate IsControl(data: seq<Byte>) {
    |data| >= 16 && data[4] >= 0xc0
  }

  /** l2tp_ip_recv before the lookup. */
  function IpStage1(data: seq<Byte>): Stage1 {
    if |data| < 4 then Drop
    else
      var id := GetU32At(data, 0);
      if id != 0 then Data(id, 4, 0) else if IsControl(data) then PassUp else Drop
  }

  /** The first stage on either receive path. */
  function Stage1On(path: Encap, version: Version, data: seq<Byte>): Stage1 {
    if path == Udp then UdpStage1(version, data) else IpStage1(data)
  }

  /** The first stage on the path of the session's own tunnel. */
  function Stage1Of(c: Config, data: seq<Byte>): Stage1 {
    Stage1On(c.encap, c.version, data)
  }

  /** The lookup behind the first stage finds this session. In UDP it looks into the
      tunnel of the socket; in IP it looks into the index of all L2TPv3 sessions,
      including those of tunnels in UDP. */
  predicate Finds(c: Config, path: Encap, data: seq<Byte>) {
    var one := Stage1On(path, c.version, data);
    && one.Data? && one.sessionId == c.sessionId
    && (if path == Udp then c.encap == Udp else c.version == V3)
  }

  // ---- second stage: up to the payload ------------------------------------------------

  /** The parser dereferences its pointer before it checks the length; `beyond` is
      whatever memory lies behind the frame. */
  function Peek(data: seq<Byte>, i: nat, beyond: nat -> Byte): Byte {
    if i < |data| then data[i] else beyond(i)
  }

  function PeekU16(data: seq<Byte>, i: nat, beyond: nat -> Byte): (v: nat)
    ensures v < 0x1_0000
  {
    GetU16(Peek(data, i, beyond), Peek(data, i + 1, beyond))
  }

  function PeekU32(data: seq<Byte>, i: nat, beyond: nat -> Byte): (v: nat)
    ensures v < 0x1_0000_0000
  {
    GetU32(Peek(data, i, beyond), Peek(data, i + 1, beyond), Peek(data, i + 2, beyond), Peek(data, i + 3, beyond))
  }

  ghost predicate CookieMatches(c: Config, data: seq<Byte>, ptr: nat, beyond: nat -> Byte) {
    forall i {:trigger c.peerCookie[i]} :: 0 <= i < |c.peerCookie| ==> Peek(data, ptr + i, beyond) == c.peerCookie[i]
  }

  /** Sequence information and the position behind it. */
  datatype SeqField = SeqField(hasSeq: bool, ns: nat, next: nat)

  function ParseSeq(c: Config, data: seq<Byte>, ptr: nat, flags: nat, beyond: nat -> Byte): (f: SeqField)
    ensures f.hasSeq ==> NsFits(c, f.ns)
    ensures ptr <= f.next
  {
    if c.version == V2 then
      if Bit(flags, FLAG_S) then SeqField(true, PeekU16(data, ptr, beyond), ptr + 4 + c.l2specLen)
      else SeqField(false, 0, ptr + c.l2specLen)
    else if c.l2specDefault then
      var l2h := PeekU32(data, ptr, beyond);
      SeqField(Bit(l2h, SL_FLAG_S), if Bit(l2h, SL_FLAG_S) then l2h % SL_SEQ_SIZE else 0, ptr + c.l2specLen)
    else
      SeqField(false, 0, ptr + c.l2specLen)
  }

  /** Where the payload starts. */
  function PayloadAt(c: Config, data: seq<Byte>, ptr: nat, flags: nat, beyond: nat -> Byte): (p: nat)
    ensures ptr <= p
  {
    if c.version == V2 then
      if Bit(flags, FLAG_O) then ptr + 2 + PeekU16(data, ptr, beyond) else ptr
    else ptr + c.offset
  }

  datatype Payload = NoPayload | Payload(bytes: seq<Byte>)

  /** Cut the header off, then let the payload hook strip the PPP header FF 03. */
  function CutPayload(c: Config, data: seq<Byte>, at: nat): Payload {
    if at > |data| then NoPayload
    else
      var body := data[at..];
      if !c.ppp then Payload(body)
      else if |body| < 2 then NoPayload
      else if body[0] == 0xff && body[1] == 0x03 then Payload(body[2..])
      else Payload(body)
  }

  /** What the second stage finds in a frame whose session id ends at `ptr`. */
  datatype Stage2 = BadCookie | Found(hasSeq: bool, ns: nat, payload: Payload)

  ghost function ParseStage2(c: Config, data: seq<Byte>, ptr: nat, flags: nat, beyond: nat -> Byte): (r: Stage2)
    ensures r.Found? && r.hasSeq ==> NsFits(c, r.ns)
  {
    if !CookieMatches(c, data, ptr, beyond) then BadCookie
    else
      var f := ParseSeq(c, data, ptr + |c.peerCookie|, flags, beyond);
      Found(f.hasSeq, f.ns, CutPayload(c, data, PayloadAt(c, data, f.next, flags, beyond)))
  }
}
