/** A whole session: configuration, sequencing flags, send number, cached header
    length and receive state, and what each call does to it. */
module SessionState {
  import opened Common
  import opened Bytes
  import opened SequenceSpace
  import opened Receive
  import opened Header

  /** A received buffer: its identity, its bytes from the L2TP header on, and the
      sequence number left in its control block by an earlier owner. */
  datatype Skb = Skb(id: nat, data: seq<Byte>, stale: nat)

  datatype Sess = Sess(
    cfg: Config,
    sendSeq: bool,
    recvSeq: bool,
    lnsMode: bool,
    ns: nat,
    hdrLen: nat,
    rx: Rx)

  function NrMaxOf(v: Version): nat {
    if v == V2 then NR_MAX_V2 else NR_MAX_V3
  }

  /** l2tp_session_set_header_len; the field has 16 bits. */
  function SetHeaderLen(s: Sess): Sess {
    s.(hdrLen := HeaderBytes(s.cfg, s.sendSeq) % 0x1_0000)
  }

  /** l2tp_session_create. */
  function Create(cfg: Config, sendSeq: bool, recvSeq: bool, lnsMode: bool, timeout: nat): Sess {
    SetHeaderLen(Sess(cfg, sendSeq, recvSeq, lnsMode, 0, 0, Init(NrMaxOf(cfg.version), timeout)))
  }

  // ---- receiving -------------------------------------------------------------------

  /** The frame has no sequence number although one is required. */
  predicate MissingSeq(s: Sess, hasSeq: bool) {
    !hasSeq && (s.recvSeq || (s.lnsMode && s.sendSeq))
  }

  /** A LAC sends sequence numbers if and only if the LNS does. */
  function Negotiate(s: Sess, hasSeq: bool): Sess {
    if hasSeq && !s.lnsMode && !s.sendSeq then SetHeaderLen(s.(sendSeq := true))
    else if !hasSeq && !s.recvSeq && !s.lnsMode && s.sendSeq then SetHeaderLen(s.(sendSeq := false))
    else s
  }

  /** What a parsed frame means for the receive state. */
  function Interpret(s: Sess, skb: Skb, p: Stage2, now: nat): Input {
    match p
    case BadCookie => Refused(Frame(skb.id, skb.data, false, skb.stale, 0), Cookie)
    case Found(hasSeq, ns, payload) =>
      var n := if hasSeq then ns else skb.stale;
      if MissingSeq(s, hasSeq) then Refused(Frame(skb.id, skb.data, hasSeq, n, 0), NoSequence)
      else if payload.NoPayload? then Refused(Frame(skb.id, skb.data, hasSeq, n, 0), Malformed)
      else if hasSeq then Sequenced(Frame(skb.id, payload.bytes, true, n, 0), now)
      else Plain(Frame(skb.id, payload.bytes, false, n, 0), now)
  }

  ghost predicate SessOk(s: Sess) {
    && Wf(s.rx) && s.rx.nrMax == NrMaxOf(s.cfg.version)
    && NsFits(s.cfg, s.ns)
    && s.hdrLen == HeaderBytes(s.cfg, s.sendSeq) % 0x1_0000
  }

  lemma InterpretAcceptable(s: Sess, skb: Skb, p: Stage2, now: nat)
    requires p.Found? && p.hasSeq ==> NsFits(s.cfg, p.ns)
    ensures Acceptable(Interpret(s, skb, p, now), NrMaxOf(s.cfg.version))
  {
  }

  /** l2tp_recv_common. */
  ghost function RecvCommon(s: Sess, skb: Skb, ptr: nat, flags: nat, beyond: nat -> Byte, now: nat): Sess
    requires SessOk(s)
  {
    var p := ParseStage2(s.cfg, skb.data, ptr, flags, beyond);
    var t := if p.Found? then Negotiate(s, p.hasSeq) else s;
    InterpretAcceptable(s, skb, p, now);
    t.(rx := Step(s.rx, Interpret(s, skb, p, now)))
  }

  lemma RecvCommonOk(s: Sess, skb: Skb, ptr: nat, flags: nat, beyond: nat -> Byte, now: nat)
    requires SessOk(s)
    ensures SessOk(RecvCommon(s, skb, ptr, flags, beyond, now)) && RecvCommon(s, skb, ptr, flags, beyond, now).cfg == s.cfg
    ensures var i := Interpret(s, skb, ParseStage2(s.cfg, skb.data, ptr, flags, beyond), now);
      Acceptable(i, s.rx.nrMax) && RecvCommon(s, skb, ptr, flags, beyond, now).rx == Step(s.rx, i)
  {
    var p := ParseStage2(s.cfg, skb.data, ptr, flags, beyond);
    InterpretAcceptable(s, skb, p, now);
    StepWf(s.rx, Interpret(s, skb, p, now));
  }

  /** A datagram on one of the receive paths: the session handles it if the lookup
      finds it. */
  ghost function Datagram(s: Sess, path: Encap, skb: Skb, beyond: nat -> Byte, now: nat): Sess
    requires SessOk(s)
  {
    var one := Stage1On(path, s.cfg.version, skb.data);
    if Finds(s.cfg, path, skb.data) then RecvCommon(s, skb, one.ptr, one.flags, beyond, now) else s
  }

  // ---- sending and configuring ---------------------------------------------------------

  /** The header to be built next carries a sequence number. */
  predicate NumbersNext(s: Sess) {
    s.sendSeq && (s.cfg.version == V2 || WritesSublayer(s.cfg))
  }

  /** Effect of a builder on the session. */
  function AfterBuild(s: Sess): Sess {
    if NumbersNext(s) then s.(ns := Next(s.ns, NrMaxOf(s.cfg.version))) else s
  }

  /** A one-bit field keeps the low bit of the 8-bit attribute. */
  function SetFlag(was: bool, attr: Option<nat>): bool {
    if attr.Some? then attr.value % 2 == 1 else was
  }

  /** l2tp_nl_cmd_session_modify; a socket option sets one of the attributes. */
  function Modify(s: Sess, recvSeq: Option<nat>, sendSeq: Option<nat>, lnsMode: Option<nat>, timeout: Option<nat>): Sess {
    var a := s.(recvSeq := SetFlag(s.recvSeq, recvSeq));
    var b := if sendSeq.Some? then SetHeaderLen(a.(sendSeq := SetFlag(a.sendSeq, sendSeq))) else a;
    b.(lnsMode := SetFlag(b.lnsMode, lnsMode),
       rx := if timeout.Some? then b.rx.(timeout := timeout.value) else b.rx)
  }

  // ---- runs ------------------------------------------------------------------------------

  datatype Op =
    | Arrival(path: Encap, skb: Skb, beyond: nat -> Byte, now: nat)
    | Transmit
    | Change(recvSeq: Option<nat>, sendSeq: Option<nat>, lnsMode: Option<nat>, timeout: Option<nat>)
    | QueuePurge

  ghost function Apply(s: Sess, op: Op): Sess
    requires SessOk(s)
  {
    match op
    case Arrival(path, skb, beyond, now) => Datagram(s, path, skb, beyond, now)
    case Transmit => AfterBuild(s)
    case Change(r, q, l, t) => Modify(s, r, q, l, t)
    case QueuePurge => s.(rx := Step(s.rx, Purge))
  }

  /** The call's effect on the receive state, as receive inputs. */
  ghost function InputsOf(s: Sess, op: Op): seq<Input>
    requires SessOk(s)
  {
    match op
    case Arrival(path, skb, beyond, now) =>
      var one := Stage1On(path, s.cfg.version, skb.data);
      if Finds(s.cfg, path, skb.data)
      then [Interpret(s, skb, ParseStage2(s.cfg, skb.data, one.ptr, one.flags, beyond), now)] else []
    case Transmit => []
    case Change(_, _, _, timeout) => if timeout.Some? then [SetTimeout(timeout.value)] else []
    case QueuePurge => [Purge]
  }

  lemma ApplyOk(s: Sess, op: Op)
    requires SessOk(s)
    ensures SessOk(Apply(s, op)) && Apply(s, op).cfg == s.cfg
    ensures AllAcceptable(InputsOf(s, op), s.rx.nrMax) && |InputsOf(s, op)| <= 1
    ensures Apply(s, op).rx == (if InputsOf(s, op) == [] then s.rx else Step(s.rx, InputsOf(s, op)[0]))
  {
    match op
    case Arrival(path, skb, beyond, now) =>
      var one := Stage1On(path, s.cfg.version, skb.data);
      if Finds(s.cfg, path, skb.data) {
        RecvCommonOk(s, skb, one.ptr, one.flags, beyond, now);
      }
    case Transmit =>
    case Change(_, _, _, _) =>
    case QueuePurge => PurgeWf(s.rx);
  }

  ghost function RunOps(s: Sess, ops: seq<Op>): (t: Sess)
    requires SessOk(s)
    ensures SessOk(t) && t.cfg == s.cfg
    decreases |ops|
  {
    if ops == [] then s
    else
      var before := RunOps(s, ops[..|ops| - 1]);
      ApplyOk(before, ops[|ops| - 1]);
      Apply(before, ops[|ops| - 1])
  }

  ghost function RunInputs(s: Sess, ops: seq<Op>): seq<Input>
    requires SessOk(s)
    decreases |ops|
  {
    if ops == [] then []
    else
      RunInputs(s, ops[..|ops| - 1]) + InputsOf(RunOps(s, ops[..|ops| - 1]), ops[|ops| - 1])
  }

  lemma RunSnoc(s: Rx, inputs: seq<Input>, i: Input)
    requires Wf(s) && AllAcceptable(inputs, s.nrMax) && Acceptable(i, s.nrMax)
    ensures AllAcceptable(inputs + [i], s.nrMax)
    ensures Run(s, inputs + [i]) == Step(Run(s, inputs), i)
  {
    assert (inputs + [i])[..|inputs|] == inputs;
  }

  /** Every run of session calls is a run of the receive path, so all that holds of
      receive runs holds of sessions parsing bytes. */
  lemma {:induction false} SessionRunsAreReceiveRuns(s: Sess, ops: seq<Op>)
    requires SessOk(s)
    ensures AllAcceptable(RunInputs(s, ops), s.rx.nrMax)
    ensures RunOps(s, ops).rx == Run(s.rx, RunInputs(s, ops))
    decreases |ops|
  {
    if ops != [] {
      var n := |ops| - 1;
      SessionRunsAreReceiveRuns(s, ops[..n]);
      var t := RunOps(s, ops[..n]);
      ApplyOk(t, ops[n]);
      var inputs := InputsOf(t, ops[n]);
      if inputs == [] {
        assert RunInputs(s, ops) == RunInputs(s, ops[..n]);
      } else {
        assert inputs == [inputs[0]];
        RunSnoc(s.rx, RunInputs(s, ops[..n]), inputs[0]);
      }
    }
  }

  /** In every state a session can reach, whatever was received, sent or modified,
      the send number fits its header field, and the cached header length is the
      byte count of the builder if and only if that count fits 16 bits. */
  lemma {:induction false} HeaderLenExactIff(cfg: Config, sendSeq: bool, recvSeq: bool, lnsMode: bool, timeout: nat, ops: seq<Op>)
    ensures SessOk(Create(cfg, sendSeq, recvSeq, lnsMode, timeout))
    ensures var s := RunOps(Create(cfg, sendSeq, recvSeq, lnsMode, timeout), ops);
      && NsFits(cfg, s.ns)
      && (s.hdrLen == HeaderBytes(cfg, s.sendSeq)
          <==> cfg.version == V2 || 4 + |cfg.cookie| + cfg.l2specLen + cfg.offset + (if cfg.encap == Udp then 4 else 0) < 0x1_0000)
  {
    HeaderLenOf(RunOps(Create(cfg, sendSeq, recvSeq, lnsMode, timeout), ops));
  }

  lemma HeaderLenOf(s: Sess)
    requires s.hdrLen == HeaderBytes(s.cfg, s.sendSeq) % 0x1_0000
    ensures s.hdrLen == HeaderBytes(s.cfg, s.sendSeq) <==> HeaderBytes(s.cfg, s.sendSeq) < 0x1_0000
    ensures s.cfg.version == V2 ==> HeaderBytes(s.cfg, s.sendSeq) < 0x1_0000
  {
  }
}
