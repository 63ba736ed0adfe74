/** The session object of the source, with its fields and its in-place updates. Each
    method is proved to compute the corresponding function on the session's value. */
module Session {
  import opened Common
  import opened Bytes
  import opened SequenceSpace
  import opened Receive
  import opened Header
  import opened SessionState
  import opened Datagrams

  /** What becomes of a datagram: this session takes it, it goes up the socket to user
      space, or it is freed. */
  datatype Verdict = Taken | PassedUp | Dropped

  /** In UDP whatever is not a data frame of this session goes to user space. In IP
      only control messages do; other datagrams of no session are freed. */
  function VerdictOn(c: Config, path: Encap, data: seq<Byte>): Verdict {
    match Stage1On(path, c.version, data)
    case PassUp => PassedUp
    case Drop => Dropped
    case Data(_, _, _) => if Finds(c, path, data) then Taken else if path == Udp then PassedUp else Dropped
  }

  /** The verdict told from the bytes: over UDP the session takes exactly the data
      messages of its version that carry its id, and everything else goes to user
      space; over IP it takes exactly the datagrams that carry its id, and of the rest
      only control messages go to user space. */
  lemma VerdictFromBytes(c: Config, path: Encap, data: seq<Byte>)
    ensures path == Udp && !IsDataMessage(c.version, data) ==> VerdictOn(c, path, data) == PassedUp
    ensures path == Udp && IsDataMessage(c.version, data) ==>
      VerdictOn(c, path, data) == (if c.encap == Udp && IdOf(c.version, data) == c.sessionId then Taken else PassedUp)
    ensures path == Ip ==> (VerdictOn(c, path, data) == PassedUp <==> IsControlMessage(data))
    ensures path == Ip ==> (VerdictOn(c, path, data) == Taken
      <==> c.version == V3 && |data| >= 4 && !ZeroId(data) && BigEndian(data[..4]) == c.sessionId)
  {
    if path == Udp {
      UdpLookupIff(c.version, data);
    } else {
      IpLookupIff(data);
    }
  }

  /** A flag is switched on by 1 and off by 0, and left alone by an absent attribute. */
  predicate Follows(flag: bool, was: bool, attr: Option<nat>) {
    (attr == Some(1) ==> flag) && (attr == Some(0) ==> !flag) && (attr.None? ==> flag == was)
  }

  class L2tpSession {
    const cfg: Config

    var sendSeq: bool
    var recvSeq: bool
    var lnsMode: bool
    var ns: nat
    var hdrLen: nat

    const nrMax: nat
    var nr: nat
    var nrOos: nat
    var nrOosCount: nat
    var reorderSkip: bool
    var reorderTimeout: nat
    var reorderQ: seq<Frame>

    var rxPackets: nat
    var rxErrors: nat
    var rxSeqDiscards: nat
    var rxCookieDiscards: nat
    var rxOosPackets: nat

    /** Calls of the ref callback minus calls of the deref callback. */
    ghost var refs: int

    /** What has happened to frames so far. */
    ghost var log: seq<Event>

    ghost function RxView(): Rx
      reads this
    {
      Rx(nr, nrMax, nrOos, nrOosCount, reorderSkip, reorderTimeout, reorderQ,
         rxPackets, rxErrors, rxSeqDiscards, rxCookieDiscards, rxOosPackets, refs, log)
    }

    ghost function View(): Sess
      reads this
    {
      Sess(cfg, sendSeq, recvSeq, lnsMode, ns, hdrLen, RxView())
    }

    ghost predicate Valid()
      reads this
    {
      SessOk(View())
    }

    /** l2tp_session_create, the part that fills in the session. */
    constructor (cfg: Config, sendSeq: bool, recvSeq: bool, lnsMode: bool, timeout: nat)
      ensures Valid() && View() == Create(cfg, sendSeq, recvSeq, lnsMode, timeout)
    {
      this.cfg := cfg;
      nr := 0;
      nrMax := if cfg.version == V2 then 0xffff else 0xff_ffff;
      nrOos, nrOosCount := 0, 0;
      reorderSkip := true;
      reorderTimeout := timeout;
      reorderQ := [];
      rxPackets, rxErrors, rxSeqDiscards, rxCookieDiscards, rxOosPackets := 0, 0, 0, 0, 0;
      this.sendSeq, this.recvSeq, this.lnsMode := sendSeq, recvSeq, lnsMode;
      ns, hdrLen := 0, 0;
      refs, log := 0, [];
      new;
      UpdateHeaderLen();
    }

    /** l2tp_session_set_header_len, in 16-bit arithmetic. */
    method UpdateHeaderLen()
      modifies `hdrLen
      ensures View() == SetHeaderLen(old(View()))
    {
      if cfg.version == V2 {
        hdrLen := 6;
        if sendSeq {
          hdrLen := (hdrLen + 4) % 0x1_0000;
        }
      } else {
        hdrLen := (4 + |cfg.cookie| + cfg.l2specLen + cfg.offset) % 0x1_0000;
        if cfg.encap == Udp {
          hdrLen := (hdrLen + 4) % 0x1_0000;
        }
      }
    }

    // ---- the reorder queue ----------------------------------------------------------

    /** l2tp_recv_queue_skb: walk to the first larger number and queue before it. */
    method RecvQueueSkb(f: Frame)
      modifies `reorderQ, `rxOosPackets
      ensures reorderQ == Insert(old(reorderQ), f)
      ensures rxOosPackets == old(rxOosPackets) + (if InsertAt(old(reorderQ), f.ns) < |old(reorderQ)| then 1 else 0)
    {
      var i := 0;
      while i < |reorderQ|
        invariant 0 <= i <= |reorderQ|
        invariant reorderQ == old(reorderQ) && rxOosPackets == old(rxOosPackets)
        invariant forall j :: 0 <= j < i ==> reorderQ[j].ns <= f.ns
      {
        if reorderQ[i].ns > f.ns {
          InsertAtUnique(reorderQ, f.ns, i);
          reorderQ := reorderQ[..i] + [f] + reorderQ[i..];
          rxOosPackets := rxOosPackets + 1;
          return;
        }
        i := i + 1;
      }
      InsertAtUnique(reorderQ, f.ns, i);
      assert reorderQ + [f] == reorderQ[..i] + [f] + reorderQ[i..];
      reorderQ := reorderQ + [f];
    }

    /** l2tp_recv_dequeue_skb, for a frame just unlinked from the head. */
    method RecvDequeueSkb(f: Frame)
      requires ValidNrMax(nrMax) && nr <= nrMax
      modifies `rxPackets, `nr, `refs, `log
      ensures rxPackets == old(rxPackets) + 1
      ensures nr == if f.hasSeq then Next(old(nr), nrMax) else old(nr)
      ensures refs == old(refs) - 1 && log == old(log) + [Delivered(f)]
    {
      rxPackets := rxPackets + 1;
      if f.hasSeq {
        MaskIsNext(nr, nrMax);
        nr := nr + 1;
        nr := And(nr, nrMax);
      }
      log := log + [Delivered(f)];
      refs := refs - 1;
    }

    /** Count and free a frame that is not (or no longer) queued, and drop its
        reference. */
    method DiscardFrame(f: Frame, why: Reason)
      modifies `rxErrors, `rxSeqDiscards, `rxCookieDiscards, `refs, `log
      ensures RxView() == Free(old(RxView()), f, why)
    {
      if why == Cookie {
        rxCookieDiscards := rxCookieDiscards + 1;
      }
      if CountsAsSeqDiscard(why) {
        rxSeqDiscards := rxSeqDiscards + 1;
      }
      rxErrors := rxErrors + 1;
      log := log + [Freed(f, why)];
      refs := refs - 1;
    }

    /** One trip of the dequeue loop; false if the head has to wait. */
    method RecvDequeueHead(now: nat) returns (more: bool)
      requires Wf(RxView()) && reorderQ != []
      modifies `rxPackets, `rxErrors, `rxSeqDiscards, `rxCookieDiscards, `nr, `reorderSkip, `reorderQ, `refs, `log
      ensures more == !Holding(old(RxView()), now)
      ensures RxView() == if more then DrainOne(old(RxView()), now) else old(RxView())
    {
      var f := reorderQ[0];
      assert f in reorderQ;
      if now > f.expires {
        reorderSkip := true;
        reorderQ := reorderQ[1..];
        DiscardFrame(f, Expired);
        return true;
      }
      if f.hasSeq {
        if reorderSkip {
          log := log + [Skipped(nr, f.ns)];
          reorderSkip := false;
          nr := f.ns;
        }
        if f.ns != nr {
          return false;
        }
      }
      reorderQ := reorderQ[1..];
      RecvDequeueSkb(f);
      more := true;
    }

    /** l2tp_recv_dequeue: free what is too old, pass up what is in sequence, stop at
        the first frame that has to wait. */
    method RecvDequeue(now: nat)
      requires Wf(RxView())
      modifies `rxPackets, `rxErrors, `rxSeqDiscards, `rxCookieDiscards, `nr, `reorderSkip, `reorderQ, `refs, `log
      ensures RxView() == Drain(old(RxView()), now)
    {
      ghost var start := RxView();
      ghost var state := start;
      while reorderQ != []
        invariant state == RxView() && Wf(state) && Drain(state, now) == Drain(start, now)
        decreases |reorderQ|
      {
        var more := RecvDequeueHead(now);
        if !more {
          return;
        }
        DrainOneWf(state, now);
        state := DrainOne(state, now);
      }
    }

    /** l2tp_session_queue_purge. */
    method QueuePurge()
      modifies `rxErrors, `rxSeqDiscards, `rxCookieDiscards, `reorderQ, `refs, `log
      ensures RxView() == PurgeAll(old(RxView())) && reorderQ == []
    {
      ghost var start := RxView();
      ghost var state := start;
      while reorderQ != []
        invariant state == RxView() && PurgeAll(state) == PurgeAll(start)
        decreases |reorderQ|
      {
        var f := reorderQ[0];
        reorderQ := reorderQ[1..];
        DiscardFrame(f, Purged);
        state := Free(state.(queue := state.queue[1..]), f, Purged);
      }
    }

    /** Track consecutive out-of-sequence numbers; enough of them reset nr. */
    method CountOutOfSequence(n: nat)
      requires ValidNrMax(nrMax) && nrOos <= nrMax
      modifies `nrOos, `nrOosCount, `reorderSkip
      ensures RxView() == NoteOutOfSequence(old(RxView()), n)
    {
      MaskIsNext(nrOos, nrMax);
      var nrNext := And(nrOos + 1, nrMax);
      if n == nrNext {
        nrOosCount := nrOosCount + 1;
      } else {
        nrOosCount := 0;
      }
      nrOos := n;
      if nrOosCount > OOS_COUNT_MAX {
        reorderSkip := true;
      }
    }

    /** l2tp_recv_data_seq: queue a numbered frame if it is acceptable. The reason is
        recorded for the history; the source returns only non-zero. */
    method RecvDataSeq(f: Frame) returns (discard: bool, why: Reason)
      requires Wf(RxView()) && f.ns <= nrMax
      modifies `reorderQ, `rxOosPackets, `nrOos, `nrOosCount, `reorderSkip
      ensures var a := DataSeq(old(RxView()), f);
        RxView() == a.state && discard == a.Discard? && (discard ==> why == a.why)
    {
      why := OutsideWindow;
      var ok := SeqCheckRxWindow(nr, nrMax, WindowSize(nrMax), f.ns);
      if !ok {
        return true, OutsideWindow;
      }
      if reorderTimeout != 0 {
        RecvQueueSkb(f);
        return false, why;
      }
      if f.ns == nr {
        reorderQ := reorderQ + [f];
      } else {
        CountOutOfSequence(f.ns);
        if !reorderSkip {
          return true, OutOfSequence;
        }
        reorderQ := reorderQ + [f];
      }
      discard := false;
    }

    // ---- the receive path --------------------------------------------------------------

    /** memcmp of the peer's cookie. */
    method CheckCookie(data: seq<Byte>, ptr: nat, beyond: nat -> Byte) returns (ok: bool)
      ensures ok <==> CookieMatches(cfg, data, ptr, beyond)
    {
      var i := 0;
      while i < |cfg.peerCookie|
        invariant 0 <= i <= |cfg.peerCookie|
        invariant forall j {:trigger cfg.peerCookie[j]} :: 0 <= j < i ==> Peek(data, ptr + j, beyond) == cfg.peerCookie[j]
      {
        if Peek(data, ptr + i, beyond) != cfg.peerCookie[i] {
          return false;
        }
        i := i + 1;
      }
      ok := true;
    }

    /** Sequence numbers switched on or off under control of the LNS. */
    method NegotiateSeq(hasSeq: bool) returns (missing: bool)
      modifies `sendSeq, `hdrLen
      ensures View() == Negotiate(old(View()), hasSeq)
      ensures missing == MissingSeq(old(View()), hasSeq)
      ensures missing <==> !hasSeq && (recvSeq || (lnsMode && old(sendSeq)))
    {
      missing := false;
      if hasSeq {
        if !lnsMode && !sendSeq {
          sendSeq := true;
          UpdateHeaderLen();
        }
      } else {
        if recvSeq {
          return true;
        }
        if !lnsMode && sendSeq {
          sendSeq := false;
          UpdateHeaderLen();
        } else if sendSeq {
          return true;
        }
      }
    }

    /** The end of l2tp_recv_common: stamp the frame, queue it and drain, or discard. */
    method AcceptFrame(f: Frame, now: nat)
      requires Wf(RxView()) && InRange(f, nrMax)
      modifies `rxPackets, `rxErrors, `rxSeqDiscards, `rxCookieDiscards, `rxOosPackets,
               `nr, `nrOos, `nrOosCount, `reorderSkip, `reorderQ, `refs, `log
      ensures RxView() == Settled(old(RxView()), f, now)
    {
      var g := f.(expires := now + (if reorderTimeout != 0 then reorderTimeout else HZ));
      if g.hasSeq {
        AdmissionWf(RxView(), g);
        var discard, why := RecvDataSeq(g);
        if discard {
          DiscardFrame(g, why);
          return;
        }
      } else {
        reorderQ := reorderQ + [g];
      }
      RecvDequeue(now);
    }

    /** The sequence field: `ptr` walks over the numbers of L2TPv2 or looks at the
        sublayer of L2TPv3, and then over the sublayer. A frame without a number keeps
        what its control block held. */
    method ReadSequence(skb: Skb, start: nat, flags: nat, beyond: nat -> Byte) returns (hasSeq: bool, n: nat, ptr: nat)
      ensures var f := ParseSeq(cfg, skb.data, start, flags, beyond);
        hasSeq == f.hasSeq && n == (if f.hasSeq then f.ns else skb.stale) && ptr == f.next
    {
      ptr, hasSeq, n := start, false, skb.stale;
      if cfg.version == V2 {
        if Bit(flags, FLAG_S) {
          n := PeekU16(skb.data, ptr, beyond);
          ptr := ptr + 2;
          ptr := ptr + 2;
          hasSeq := true;
        }
      } else if cfg.l2specDefault {
        var l2h := PeekU32(skb.data, ptr, beyond);
        if Bit(l2h, SL_FLAG_S) {
          n := l2h % SL_SEQ_SIZE;
          hasSeq := true;
        }
      }
      ptr := ptr + cfg.l2specLen;
    }

    /** The offset: a field in the header of L2TPv2, a constant of the session in
        L2TPv3. */
    method SkipOffset(data: seq<Byte>, start: nat, flags: nat, beyond: nat -> Byte) returns (ptr: nat)
      ensures ptr == PayloadAt(cfg, data, start, flags, beyond)
    {
      ptr := start;
      if cfg.version == V2 {
        if Bit(flags, FLAG_O) {
          var offset := PeekU16(data, ptr, beyond);
          ptr := ptr + 2 + offset;
        }
      } else {
        ptr := ptr + cfg.offset;
      }
    }

    /** The length test, the pull and the payload hook. */
    method PullHeader(data: seq<Byte>, offset: nat) returns (ok: bool, body: seq<Byte>)
      ensures CutPayload(cfg, data, offset) == if ok then Payload.Payload(body) else NoPayload
    {
      body := [];
      if offset > |data| {
        return false, body;
      }
      body := data[offset..];
      if cfg.ppp {
        if |body| < 2 {
          return false, body;
        }
        if body[0] == 0xff && body[1] == 0x03 {
          body := body[2..];
        }
      }
      ok := true;
    }

    /** l2tp_recv_common behind the sequence check: `ptr` walks over the offset to the
        payload. */
    method FinishFrame(skb: Skb, missing: bool, hasSeq: bool, n: nat, start: nat, flags: nat, beyond: nat -> Byte, now: nat)
      requires Wf(RxView()) && (hasSeq ==> n <= nrMax)
      modifies `rxPackets, `rxErrors, `rxSeqDiscards, `rxCookieDiscards, `rxOosPackets,
               `nr, `nrOos, `nrOosCount, `reorderSkip, `reorderQ, `refs, `log
      ensures var payload := CutPayload(cfg, skb.data, PayloadAt(cfg, skb.data, start, flags, beyond));
        RxView() == Outcome(old(RxView()), skb, missing, hasSeq, n, payload, now)
    {
      if missing {
        DiscardFrame(Frame(skb.id, skb.data, hasSeq, n, 0), NoSequence);
        return;
      }
      var ptr := SkipOffset(skb.data, start, flags, beyond);
      var ok, body := PullHeader(skb.data, ptr);
      if !ok {
        DiscardFrame(Frame(skb.id, skb.data, hasSeq, n, 0), Malformed);
        return;
      }
      AcceptFrame(Frame(skb.id, body, hasSeq, n, 0), now);
    }

    /** The ref callback. */
    method TakeReference()
      modifies `refs
      ensures View() == old(View()).(rx := TakeRef(old(RxView())))
    {
      refs := refs + 1;
    }

    /** The wrong cookie. */
    method RejectCookie(skb: Skb)
      modifies `rxErrors, `rxSeqDiscards, `rxCookieDiscards, `refs, `log
      ensures View() == old(View()).(rx := Free(old(RxView()), Frame(skb.id, skb.data, false, skb.stale, 0), Cookie))
    {
      DiscardFrame(Frame(skb.id, skb.data, false, skb.stale, 0), Cookie);
    }

    /** The body of l2tp_recv_common behind the cookie: `ptr` walks over sequence
        field, sublayer and offset to the payload. */
    method HandleBehindCookie(skb: Skb, start: nat, flags: nat, beyond: nat -> Byte, now: nat)
      requires Wf(RxView()) && nrMax == NrMaxOf(cfg.version)
      modifies this
      ensures View() == BehindCookie(old(View()), skb, start, flags, beyond, now)
    {
      var hasSeq, n, ptr := ReadSequence(skb, start, flags, beyond);
      var missing := NegotiateSeq(hasSeq);
      FinishFrame(skb, missing, hasSeq, n, ptr, flags, beyond, now);
    }

    /** The body of l2tp_recv_common. */
    method HandleFrame(skb: Skb, start: nat, flags: nat, beyond: nat -> Byte, now: nat)
      requires Wf(RxView()) && nrMax == NrMaxOf(cfg.version)
      modifies this
      ensures View() == Handled(old(View()), skb, start, flags, beyond, now)
    {
      TakeReference();
      var ok := CheckCookie(skb.data, start, beyond);
      if ok {
        HandleBehindCookie(skb, start + |cfg.peerCookie|, flags, beyond, now);
      } else {
        RejectCookie(skb);
      }
    }

    /** l2tp_recv_common. */
    method RecvCommon(skb: Skb, start: nat, flags: nat, beyond: nat -> Byte, now: nat)
      requires Valid()
      modifies this
      ensures Valid() && View() == SessionState.RecvCommon(old(View()), skb, start, flags, beyond, now)
    {
      HandledIsRecvCommon(View(), skb, start, flags, beyond, now);
      HandleFrame(skb, start, flags, beyond, now);
    }

    /** l2tp_udp_recv_core up to the lookup: `ptr` walks over flags, length and
        identifiers. */
    method ReadUdpHeader(data: seq<Byte>) returns (found: Stage1)
      ensures found == UdpStage1(cfg.version, data)
      ensures found.Data? <==> IsDataMessage(cfg.version, data)
    {
      UdpLookupIff(cfg.version, data);
      if |data| < HDR_SIZE_SEQ {
        return PassUp;
      }
      var ptr := 0;
      var flags := GetU16At(data, ptr);
      if flags % 16 != (if cfg.version == V2 then 2 else 3) {
        return PassUp;
      }
      if Bit(flags, FLAG_T) {
        return PassUp;
      }
      ptr := ptr + 2;
      var sessionId;
      if cfg.version == V2 {
        if Bit(flags, FLAG_L) {
          ptr := ptr + 2;
        }
        ptr := ptr + 2;
        sessionId := GetU16At(data, ptr);
        ptr := ptr + 2;
      } else {
        ptr := ptr + 2;
        sessionId := GetU32At(data, ptr);
        ptr := ptr + 4;
      }
      found := Data(sessionId, ptr, flags);
    }

    /** l2tp_ip_recv up to the lookup. */
    method ReadIpHeader(data: seq<Byte>) returns (found: Stage1)
      ensures found == IpStage1(data)
    {
      var ptr := 0;
      if |data| < 4 {
        return Drop;
      }
      var sessionId := GetU32At(data, ptr);
      ptr := ptr + 4;
      if sessionId == 0 {
        if |data| - ptr < 12 {
          return Drop;
        }
        if data[ptr] < 0xc0 {
          return Drop;
        }
        return PassUp;
      }
      found := Data(sessionId, ptr, 0);
    }

    /** l2tp_udp_recv_core and l2tp_ip_recv, for a net with this one session. */
    method RecvDatagram(path: Encap, skb: Skb, beyond: nat -> Byte, now: nat) returns (verdict: Verdict)
      requires Valid()
      modifies this
      ensures Valid() && View() == Datagram(old(View()), path, skb, beyond, now)
      ensures verdict == VerdictOn(cfg, path, skb.data)
      ensures verdict != Taken ==> View() == old(View())
      ensures path == Udp && !IsDataMessage(cfg.version, skb.data) ==> verdict == PassedUp
      ensures path == Udp && |skb.data| > 0 && skb.data[0] >= 0x80 ==> verdict == PassedUp && View() == old(View())
      ensures path == Ip ==> (verdict == PassedUp <==> IsControlMessage(skb.data))
    {
      VerdictFromBytes(cfg, path, skb.data);
      var found;
      if path == Udp {
        found := ReadUdpHeader(skb.data);
      } else {
        found := ReadIpHeader(skb.data);
      }
      match found
      case PassUp => verdict := PassedUp;
      case Drop => verdict := Dropped;
      case Data(id, ptr, flags) =>
        if id != cfg.sessionId || (if path == Udp then cfg.encap != Udp else cfg.version != V3) {
          verdict := if path == Udp then PassedUp else Dropped;
        } else {
          RecvCommon(skb, ptr, flags, beyond, now);
          verdict := Taken;
        }
    }

    // ---- the transmit path ----------------------------------------------------------------

    /** l2tp_build_l2tpv2_header; the result counts 16-bit words. */
    method BuildV2Header(buf: array<Byte>) returns (words: nat)
      requires Valid() && cfg.version == V2 && cfg.peerSessionId < 0x1_0000_0000
      requires HasRoom(cfg, sendSeq, buf.Length)
      modifies `ns, buf
      ensures Valid() && View() == AfterBuild(old(View()))
      ensures buf[..] == Built(cfg, sendSeq, old(ns), old(buf[..]))
      ensures 2 * words == HeaderBytes(cfg, sendSeq)
    {
      ghost var room := buf[..];
      ghost var head := V2Ids(cfg, sendSeq);
      var at := BuildV2Ids(buf);
      if sendSeq {
        at := Store(buf, at, U16(ns), head, room);
        at := Store(buf, at, U16(0), head + U16(ns), room);
        head := head + (U16(ns) + U16(0));
        NextV2Number();
      }
      assert head == V2Head(cfg, sendSeq, old(ns));
      words := at / 2;
    }

    /** Flags, tunnel id and session id. */
    method BuildV2Ids(buf: array<Byte>) returns (at: nat)
      requires cfg.peerSessionId < 0x1_0000_0000 && buf.Length >= 6
      modifies buf
      ensures at == 6 && buf[..] == V2Ids(cfg, sendSeq) + old(buf[..])[6..]
    {
      ghost var room := buf[..];
      assert room == [] + room[0..];
      ghost var head := U16(if sendSeq then 2 + FLAG_S else 2);
      at := Store(buf, 0, U16(if sendSeq then 2 + FLAG_S else 2), [], room);
      at := Store(buf, at, U16(cfg.peerTunnelId % 0x1_0000), head, room);
      at := Store(buf, at, U16(cfg.peerSessionId % 0x1_0000), head + U16(cfg.peerTunnelId % 0x1_0000), room);
    }

    /** The send number of L2TPv2 moves on. */
    method NextV2Number()
      requires ns <= 0xffff
      modifies `ns
      ensures ns == Next(old(ns), 0xffff)
    {
      MaskIsNext(ns, 0xffff);
      ns := ns + 1;
      ns := And(ns, 0xffff);
    }

    /** Flags for UDP, session id and cookie. */
    method BuildV3Prefix(buf: array<Byte>) returns (at: nat)
      requires cfg.peerSessionId < 0x1_0000_0000 && |V3Prefix(cfg)| <= buf.Length
      modifies buf
      ensures at == |V3Prefix(cfg)| && buf[..] == V3Prefix(cfg) + old(buf[..])[at..]
    {
      ghost var room := buf[..];
      ghost var head: seq<Byte> := [];
      assert room == [] + room[0..];
      at := 0;
      if cfg.encap == Udp {
        at := Store(buf, at, U16(3), head, room);
        at := Store(buf, at, U16(0), U16(3), room);
        head := U16(3) + U16(0);
      }
      at := Store(buf, at, U32(cfg.peerSessionId), head, room);
      at := Store(buf, at, cfg.cookie, head + U32(cfg.peerSessionId), room);
    }

    /** l2tp_build_l2tpv3_header; the result counts bytes. */
    method BuildV3Header(buf: array<Byte>) returns (count: nat)
      requires Valid() && cfg.version == V3 && cfg.peerSessionId < 0x1_0000_0000
      requires HasRoom(cfg, sendSeq, buf.Length)
      modifies `ns, buf
      ensures Valid() && View() == AfterBuild(old(View()))
      ensures buf[..] == Built(cfg, sendSeq, old(ns), old(buf[..]))
      ensures count == HeaderBytes(cfg, sendSeq)
    {
      ghost var room := buf[..];
      var at := BuildV3Prefix(buf);
      if cfg.l2specLen > 0 {
        if cfg.l2specDefault {
          var l2h := NextSublayer();
          var _ := Store(buf, at, U32(l2h), V3Prefix(cfg), room);
          assert buf[..] == V3Prefix(cfg) + Sublayer(sendSeq, old(ns)) + room[at + 4..];
        }
        at := at + cfg.l2specLen;
      }
      count := at + cfg.offset;
    }

    /** The default sublayer, with the send number if numbers are sent. */
    method NextSublayer() returns (l2h: nat)
      requires ns <= 0xff_ffff
      modifies `ns
      ensures l2h == (if sendSeq then SL_FLAG_S + old(ns) else 0) && l2h < 0x1_0000_0000
      ensures ns == if sendSeq then Next(old(ns), 0xff_ffff) else old(ns)
    {
      l2h := 0;
      if sendSeq {
        l2h := SL_FLAG_S + ns;
        MaskIsNext(ns, 0xff_ffff);
        ns := ns + 1;
        ns := And(ns, 0xff_ffff);
      }
    }

    // ---- configuration --------------------------------------------------------------------

    /** Set send_seq and recompute the header length. */
    method SetSendSeq(on: bool)
      modifies `sendSeq, `hdrLen
      ensures View() == SetHeaderLen(old(View()).(sendSeq := on))
    {
      sendSeq := on;
      UpdateHeaderLen();
    }

    /** l2tp_nl_cmd_session_modify. */
    method ModifySession(recv: Option<nat>, send: Option<nat>, lns: Option<nat>, timeout: Option<nat>)
      modifies `recvSeq, `sendSeq, `hdrLen, `lnsMode, `reorderTimeout
      ensures View() == Modify(old(View()), recv, send, lns, timeout)
      ensures Follows(recvSeq, old(recvSeq), recv)
      ensures Follows(sendSeq, old(sendSeq), send)
      ensures Follows(lnsMode, old(lnsMode), lns)
    {
      ModifiedFlags(View(), recv, send, lns, timeout);
      SetReceiveFlags(recv, lns);
      SetSendFlag(send);
      if timeout.Some? {
        reorderTimeout := timeout.value;
      }
    }

    method SetSendFlag(send: Option<nat>)
      modifies `sendSeq, `hdrLen
      ensures View() == if send.Some? then SetHeaderLen(old(View()).(sendSeq := SetFlag(old(sendSeq), send))) else old(View())
    {
      if send.Some? {
        SetSendSeq(send.value % 2 == 1);
      }
    }

    method SetReceiveFlags(recv: Option<nat>, lns: Option<nat>)
      modifies `recvSeq, `lnsMode
      ensures View() == old(View()).(recvSeq := SetFlag(old(recvSeq), recv), lnsMode := SetFlag(old(lnsMode), lns))
    {
      if recv.Some? {
        recvSeq := recv.value % 2 == 1;
      }
      if lns.Some? {
        lnsMode := lns.value % 2 == 1;
      }
    }

    /** The SENDSEQ socket option: other values than 0 and 1 are refused. */
    method SetSendSeqOption(val: int) returns (ok: bool)
      requires Valid()
      modifies `sendSeq, `hdrLen
      ensures Valid() && (ok <==> val == 0 || val == 1)
      ensures View() == if ok then Modify(old(View()), None, Some(val), None, None) else old(View())
      ensures sendSeq == if val == 1 then true else if val == 0 then false else old(sendSeq)
    {
      if val != 0 && val != 1 {
        return false;
      }
      SetSendSeq(val != 0);
      ok := true;
    }
  }

  lemma ModifiedFlags(s: Sess, recv: Option<nat>, send: Option<nat>, lns: Option<nat>, timeout: Option<nat>)
    ensures var t := Modify(s, recv, send, lns, timeout);
      Follows(t.recvSeq, s.recvSeq, recv) && Follows(t.sendSeq, s.sendSeq, send) && Follows(t.lnsMode, s.lnsMode, lns)
  {
  }

  /** What the end of the receive path does to the receive state. */
  function Settled(s: Rx, f: Frame, now: nat): Rx
    requires s.nr <= s.nrMax && InRange(f, s.nrMax)
  {
    var g := Stamp(s, f, now);
    if f.hasSeq then
      match DataSeq(s, g)
      case Queued(t) => Drain(t, now)
      case Discard(t, why) => Free(t, g, why)
    else Drain(Enqueue(s, g), now)
  }

  /** The three ways out of the receive path behind the cookie. */
  function Outcome(s: Rx, skb: Skb, missing: bool, hasSeq: bool, n: nat, payload: Payload, now: nat): Rx
    requires s.nr <= s.nrMax && (hasSeq ==> n <= s.nrMax)
  {
    if missing then Free(s, Frame(skb.id, skb.data, hasSeq, n, 0), NoSequence)
    else if payload.NoPayload? then Free(s, Frame(skb.id, skb.data, hasSeq, n, 0), Malformed)
    else Settled(s, Frame(skb.id, payload.bytes, hasSeq, n, 0), now)
  }

  /** The receive path behind the cookie. */
  ghost function BehindCookie(s: Sess, skb: Skb, ptr: nat, flags: nat, beyond: nat -> Byte, now: nat): Sess
    requires s.rx.nr <= s.rx.nrMax == NrMaxOf(s.cfg.version)
  {
    var f := ParseSeq(s.cfg, skb.data, ptr, flags, beyond);
    var payload := CutPayload(s.cfg, skb.data, PayloadAt(s.cfg, skb.data, f.next, flags, beyond));
    var n := if f.hasSeq then f.ns else skb.stale;
    Negotiate(s, f.hasSeq).(rx := Outcome(s.rx, skb, MissingSeq(s, f.hasSeq), f.hasSeq, n, payload, now))
  }

  /** The receive path, branch by branch. */
  ghost function Handled(s: Sess, skb: Skb, start: nat, flags: nat, beyond: nat -> Byte, now: nat): Sess
    requires s.rx.nr <= s.rx.nrMax == NrMaxOf(s.cfg.version)
  {
    var t := s.(rx := TakeRef(s.rx));
    if CookieMatches(s.cfg, skb.data, start, beyond)
    then BehindCookie(t, skb, start + |s.cfg.peerCookie|, flags, beyond, now)
    else t.(rx := Free(t.rx, Frame(skb.id, skb.data, false, skb.stale, 0), Cookie))
  }

  lemma SettledIsAccept(s: Rx, f: Frame, now: nat)
    requires s.nr <= s.nrMax && InRange(f, s.nrMax)
    ensures Settled(TakeRef(s), f, now) == Accept(s, f, now)
  {
    assert Stamp(TakeRef(s), f, now) == Stamp(s, f, now);
  }

  lemma OutcomeIsStep(s: Sess, skb: Skb, hasSeq: bool, ns: nat, payload: Payload, now: nat)
    requires s.rx.nr <= s.rx.nrMax == NrMaxOf(s.cfg.version) && (hasSeq ==> ns <= s.rx.nrMax)
    ensures var i := Interpret(s, skb, Found(hasSeq, ns, payload), now);
      && Acceptable(i, s.rx.nrMax)
      && Outcome(TakeRef(s.rx), skb, MissingSeq(s, hasSeq), hasSeq, if hasSeq then ns else skb.stale, payload, now) == Step(s.rx, i)
  {
    if payload.Payload? {
      SettledIsAccept(s.rx, Frame(skb.id, payload.bytes, hasSeq, if hasSeq then ns else skb.stale, 0), now);
    }
  }

  lemma BehindCookieIsRecvCommon(s: Sess, skb: Skb, start: nat, flags: nat, beyond: nat -> Byte, now: nat)
    requires SessOk(s) && CookieMatches(s.cfg, skb.data, start, beyond)
    ensures BehindCookie(s.(rx := TakeRef(s.rx)), skb, start + |s.cfg.peerCookie|, flags, beyond, now)
         == SessionState.RecvCommon(s, skb, start, flags, beyond, now)
  {
    var p := ParseStage2(s.cfg, skb.data, start, flags, beyond);
    OutcomeIsStep(s, skb, p.hasSeq, p.ns, p.payload, now);
  }

  lemma HandledIsRecvCommon(s: Sess, skb: Skb, start: nat, flags: nat, beyond: nat -> Byte, now: nat)
    requires SessOk(s)
    ensures Handled(s, skb, start, flags, beyond, now) == SessionState.RecvCommon(s, skb, start, flags, beyond, now)
    ensures SessOk(Handled(s, skb, start, flags, beyond, now))
  {
    RecvCommonOk(s, skb, start, flags, beyond, now);
    if CookieMatches(s.cfg, skb.data, start, beyond) {
      BehindCookieIsRecvCommon(s, skb, start, flags, beyond, now);
    }
  }

  lemma InsertAtUnique(q: seq<Frame>, ns: nat, i: nat)
    requires i <= |q| && (forall j :: 0 <= j < i ==> q[j].ns <= ns) && (i < |q| ==> ns < q[i].ns)
    ensures InsertAt(q, ns) == i
  {
  }

  /** Store `b` behind `head` in a buffer that held `room`. */
  method Store(buf: array<Byte>, at: nat, b: seq<Byte>, ghost head: seq<Byte>, ghost room: seq<Byte>) returns (next: nat)
    requires |head| == at && at + |b| <= buf.Length == |room| && buf[..] == head + room[at..]
    modifies buf
    ensures next == at + |b| && buf[..] == head + b + room[next..]
  {
    var i := 0;
    while i < |b|
      invariant 0 <= i <= |b|
      invariant buf[..] == head + b[..i] + room[at + i..]
    {
      buf[at + i] := b[i];
      i := i + 1;
    }
    next := at + |b|;
  }
}
