/** Who must number its frames: what a session does with frames that carry no sequence
    number, over single calls and over runs, and what sets the flags that decide it. */
module Numbering {
  import opened Common
  import opened Bytes
  import opened SequenceSpace
  import opened Receive
  import opened Header
  import opened SessionState

  /** The session requires numbers, or it is an LNS that sends them. */
  predicate DemandsNumbers(s: Sess) {
    s.recvSeq || (s.lnsMode && s.sendSeq)
  }

  // ---- one call ----------------------------------------------------------------------

  /** The history grows from `log` to `more` without a frame freed for that reason. */
  ghost predicate NoneFreed(log: seq<Event>, more: seq<Event>, why: Reason) {
    && log <= more
    && forall i {:trigger more[i]} :: |log| <= i < |more| && more[i].Freed? ==> more[i].why != why
  }

  /** The reasons for which a frame is refused before it is queued. */
  predicate IsRefusal(why: Reason) {
    why == Cookie || why == NoSequence || why == Malformed
  }

  lemma DrainOneFreesNone(s: Rx, now: nat, why: Reason)
    requires s.queue != [] && !Holding(s, now) && IsRefusal(why)
    ensures NoneFreed(s.log, DrainOne(s, now).log, why)
  {
  }

  lemma {:induction false} DrainFreesNone(s: Rx, now: nat, why: Reason)
    requires IsRefusal(why)
    ensures NoneFreed(s.log, Drain(s, now).log, why)
    decreases |s.queue|
  {
    if s.queue != [] && !Holding(s, now) {
      DrainOneFreesNone(s, now, why);
      DrainFreesNone(DrainOne(s, now), now, why);
    }
  }

  lemma AcceptFreesNone(s: Rx, f: Frame, now: nat, why: Reason)
    requires Wf(s) && InRange(f, s.nrMax) && IsRefusal(why)
    ensures NoneFreed(s.log, Accept(s, f, now).log, why)
  {
    var g := Stamp(s, f, now);
    if f.hasSeq {
      var a := DataSeq(TakeRef(s), g);
      assert a.state.log == s.log;
      if a.Queued? {
        DrainFreesNone(a.state, now, why);
      }
    } else {
      DrainFreesNone(Enqueue(TakeRef(s), g), now, why);
    }
  }

  lemma HandledFreesNone(s: Rx, i: Input, why: Reason)
    requires Wf(s) && Acceptable(i, s.nrMax) && !i.SetTimeout? && !i.Purge? && IsRefusal(why)
    requires i.Refused? ==> i.why != why
    ensures NoneFreed(s.log, Step(s, i).log, why)
  {
    if i.Sequenced? || i.Plain? {
      AcceptFreesNone(s, i.frame, i.now, why);
    }
  }

  /** A frame of the session that is long enough to have a cookie is freed for it if and
      only if the bytes behind the session id are not the cookie that is expected. The
      call then counts one error and one cookie discard and changes nothing else. */
  lemma WrongCookieIff(s: Sess, path: Encap, skb: Skb, beyond: nat -> Byte, now: nat)
    requires SessOk(s) && Finds(s.cfg, path, skb.data)
    requires Stage1On(path, s.cfg.version, skb.data).ptr + |s.cfg.peerCookie| <= |skb.data|
    ensures var at := Stage1On(path, s.cfg.version, skb.data).ptr;
      var t := Datagram(s, path, skb, beyond, now);
      if skb.data[at..at + |s.cfg.peerCookie|] != s.cfg.peerCookie then
        t == s.(rx := s.rx.(
          errors := s.rx.errors + 1,
          cookieDiscards := s.rx.cookieDiscards + 1,
          log := s.rx.log + [Freed(Frame(skb.id, skb.data, false, skb.stale, 0), Cookie)]))
      else
        NoneFreed(s.rx.log, t.rx.log, Cookie)
  {
    var one := Stage1On(path, s.cfg.version, skb.data);
    CookieBytes(s.cfg, skb.data, one.ptr, beyond);
    CookieVerdict(s, skb, one.ptr, one.flags, beyond, now);
  }

  lemma CookieVerdict(s: Sess, skb: Skb, ptr: nat, flags: nat, beyond: nat -> Byte, now: nat)
    requires SessOk(s)
    ensures var t := RecvCommon(s, skb, ptr, flags, beyond, now);
      if !CookieMatches(s.cfg, skb.data, ptr, beyond) then
        t == s.(rx := s.rx.(
          errors := s.rx.errors + 1,
          cookieDiscards := s.rx.cookieDiscards + 1,
          log := s.rx.log + [Freed(Frame(skb.id, skb.data, false, skb.stale, 0), Cookie)]))
      else
        NoneFreed(s.rx.log, t.rx.log, Cookie)
  {
    if CookieMatches(s.cfg, skb.data, ptr, beyond) {
      var p := ParseStage2(s.cfg, skb.data, ptr, flags, beyond);
      RecvCommonOk(s, skb, ptr, flags, beyond, now);
      HandledFreesNone(s.rx, Interpret(s, skb, p, now), Cookie);
    }
  }

  lemma CookieBytes(c: Config, data: seq<Byte>, at: nat, beyond: nat -> Byte)
    requires at + |c.peerCookie| <= |data|
    ensures CookieMatches(c, data, at, beyond) <==> data[at..at + |c.peerCookie|] == c.peerCookie
  {
    var read := data[at..at + |c.peerCookie|];
    assert forall i :: 0 <= i < |c.peerCookie| ==> read[i] == Peek(data, at + i, beyond);
  }

  /** A frame of the session whose cookie matches is freed for want of a number if and
      only if it has none and the session demands numbers. The call then counts one
      error and one sequence discard and changes nothing else: nothing is delivered or
      queued, and neither flag changes. */
  lemma MissingNumberIff(s: Sess, path: Encap, skb: Skb, beyond: nat -> Byte, now: nat)
    requires SessOk(s) && Finds(s.cfg, path, skb.data)
    requires var one := Stage1On(path, s.cfg.version, skb.data); CookieMatches(s.cfg, skb.data, one.ptr, beyond)
    ensures var one := Stage1On(path, s.cfg.version, skb.data);
      var t := Datagram(s, path, skb, beyond, now);
      if !ParseStage2(s.cfg, skb.data, one.ptr, one.flags, beyond).hasSeq && DemandsNumbers(s) then
        t == s.(rx := s.rx.(
          errors := s.rx.errors + 1,
          seqDiscards := s.rx.seqDiscards + 1,
          log := s.rx.log + [Freed(Frame(skb.id, skb.data, false, skb.stale, 0), NoSequence)]))
      else
        NoneFreed(s.rx.log, t.rx.log, NoSequence)
  {
    var one := Stage1On(path, s.cfg.version, skb.data);
    var p := ParseStage2(s.cfg, skb.data, one.ptr, one.flags, beyond);
    InterpretAcceptable(s, skb, p, now);
    var i := Interpret(s, skb, p, now);
    if p.hasSeq || !DemandsNumbers(s) {
      HandledFreesNone(s.rx, i, NoSequence);
    }
  }

  /** The first frame of a new session. Without a number it is delivered, and numbers
      are no longer sent, unless the session demands them. With a number inside the
      window it is delivered whatever that number is, and a LAC starts to send numbers. */
  lemma FirstFrame(cfg: Config, sendSeq: bool, recvSeq: bool, lnsMode: bool, timeout: nat,
                   path: Encap, skb: Skb, beyond: nat -> Byte, now: nat)
    requires Finds(cfg, path, skb.data)
    requires var one := Stage1On(path, cfg.version, skb.data);
      var p := ParseStage2(cfg, skb.data, one.ptr, one.flags, beyond);
      && p.Found? && p.payload.Payload?
      && (if p.hasSeq then InWindow(0, p.ns, NrMaxOf(cfg.version)) else !recvSeq && !(lnsMode && sendSeq))
    ensures SessOk(Create(cfg, sendSeq, recvSeq, lnsMode, timeout))
    ensures var one := Stage1On(path, cfg.version, skb.data);
      var p := ParseStage2(cfg, skb.data, one.ptr, one.flags, beyond);
      var t := Datagram(Create(cfg, sendSeq, recvSeq, lnsMode, timeout), path, skb, beyond, now);
      var f := Frame(skb.id, p.payload.bytes, p.hasSeq, if p.hasSeq then p.ns else skb.stale,
                     now + if timeout == 0 then HZ else timeout);
      && t.rx.log == (if p.hasSeq then [Skipped(0, p.ns)] else []) + [Delivered(f)]
      && t.rx.nr == (if p.hasSeq then Next(p.ns, NrMaxOf(cfg.version)) else 0)
      && t.rx.queue == [] && t.rx.packets == 1 && t.rx.errors == 0
      && t.sendSeq == (p.hasSeq && (sendSeq || !lnsMode))
  {
    var s := Create(cfg, sendSeq, recvSeq, lnsMode, timeout);
    var one := Stage1On(path, cfg.version, skb.data);
    var p := ParseStage2(cfg, skb.data, one.ptr, one.flags, beyond);
    InterpretAcceptable(s, skb, p, now);
    var i := Interpret(s, skb, p, now);
    FirstAccepted(s.rx, i.frame, now);
  }

  lemma FirstAccepted(s: Rx, f: Frame, now: nat)
    requires s == Init(s.nrMax, s.timeout) && Wf(s) && InRange(f, s.nrMax)
    requires f.hasSeq ==> InWindow(0, f.ns, s.nrMax)
    ensures var t := Accept(s, f, now); var g := f.(expires := now + if s.timeout == 0 then HZ else s.timeout);
      && t.log == (if f.hasSeq then [Skipped(0, f.ns)] else []) + [Delivered(g)]
      && t.nr == (if f.hasSeq then Next(f.ns, s.nrMax) else 0)
      && t.queue == [] && t.packets == 1 && t.errors == 0
  {
    var g := Stamp(s, f, now);
    assert Insert([], g) == [g] && [] + [g] == [g];
    var t := if f.hasSeq then DataSeq(TakeRef(s), g).state else Enqueue(TakeRef(s), g);
    assert t.queue == [g] && t.skip && t.log == [] && t.nr == 0;
    var d := DrainOne(t, now);
    assert d.queue == [];
    assert Drain(t, now) == d;
  }

  // ---- runs ------------------------------------------------------------------------------

  /** Every frame queued, or delivered behind the first `base` events, carries a number
      or is one of `early`. */
  ghost predicate Numbered(early: seq<Frame>, base: nat, r: Rx) {
    && base <= |r.log|
    && (forall f :: f in r.queue ==> f.hasSeq || f in early)
    && forall k {:trigger r.log[k]} :: base <= k < |r.log| && r.log[k].Delivered? ==>
         r.log[k].frame.hasSeq || r.log[k].frame in early
  }

  lemma {:induction false} DrainNumbered(early: seq<Frame>, base: nat, s: Rx, now: nat)
    requires Numbered(early, base, s)
    ensures Numbered(early, base, Drain(s, now))
    decreases |s.queue|
  {
    if s.queue != [] && !Holding(s, now) {
      assert s.queue[0] in s.queue;
      DrainNumbered(early, base, DrainOne(s, now), now);
    }
  }

  lemma {:induction false} PurgeNumbered(early: seq<Frame>, base: nat, s: Rx)
    requires Numbered(early, base, s)
    ensures Numbered(early, base, PurgeAll(s))
    decreases |s.queue|
  {
    if s.queue != [] {
      PurgeNumbered(early, base, Free(s.(queue := s.queue[1..]), s.queue[0], Purged));
    }
  }

  lemma StepNumbered(early: seq<Frame>, base: nat, s: Rx, i: Input)
    requires Wf(s) && Acceptable(i, s.nrMax) && !i.Plain? && Numbered(early, base, s)
    ensures Numbered(early, base, Step(s, i))
  {
    if i.Purge? {
      PurgeNumbered(early, base, s);
    } else if i.Sequenced? {
      var g := Stamp(s, i.frame, i.now);
      InsertContents(s.queue, g);
      var a := DataSeq(TakeRef(s), g);
      if a.Queued? {
        DrainNumbered(early, base, a.state, i.now);
      }
    }
  }

  /** The call does not clear the demand for numbers on receive. */
  predicate KeepsRecvSeq(op: Op) {
    op.Change? && op.recvSeq.Some? ==> op.recvSeq.value % 2 == 1
  }

  lemma RecvSeqStep(s: Sess, op: Op)
    requires SessOk(s) && s.recvSeq && KeepsRecvSeq(op)
    ensures Apply(s, op).recvSeq
    ensures forall i :: i in InputsOf(s, op) ==> !i.Plain?
  {
  }

  /** While a session requires numbers, every frame it delivers carries one, except for
      those queued before, whatever is received, sent, modified or purged meanwhile. */
  lemma {:induction false} OnlyNumberedDelivered(s: Sess, ops: seq<Op>)
    requires SessOk(s) && s.recvSeq && forall op :: op in ops ==> KeepsRecvSeq(op)
    ensures RunOps(s, ops).recvSeq
    ensures Numbered(s.rx.queue, |s.rx.log|, RunOps(s, ops).rx)
    decreases |ops|
  {
    if ops != [] {
      var n := |ops| - 1;
      OnlyNumberedDelivered(s, ops[..n]);
      var t := RunOps(s, ops[..n]);
      ApplyOk(t, ops[n]);
      RecvSeqStep(t, ops[n]);
      var inputs := InputsOf(t, ops[n]);
      if inputs != [] {
        assert inputs[0] in inputs;
        StepNumbered(s.rx.queue, |s.rx.log|, t.rx, inputs[0]);
      }
    }
  }

  // ---- who sets the flags ---------------------------------------------------------------

  /** A flag after a series of settings: the last one that is present decides, and an
      odd value switches the flag on. */
  ghost function LastSetting(was: bool, settings: seq<Option<nat>>): bool {
    if settings == [] then was
    else
      var last := settings[|settings| - 1];
      if last.Some? then last.value % 2 != 0 else LastSetting(was, settings[..|settings| - 1])
  }

  datatype Flag = ReceiveNumbers | SendNumbers | Lns

  /** The flag, and what a call sets it to. */
  function ValueOf(s: Sess, flag: Flag): bool {
    match flag
    case ReceiveNumbers => s.recvSeq
    case SendNumbers => s.sendSeq
    case Lns => s.lnsMode
  }

  function SettingIn(op: Op, flag: Flag): Option<nat> {
    if !op.Change? then None
    else
      match flag
      case ReceiveNumbers => op.recvSeq
      case SendNumbers => op.sendSeq
      case Lns => op.lnsMode
  }

  ghost function Settings(ops: seq<Op>, flag: Flag): (r: seq<Option<nat>>)
    ensures |r| == |ops|
  {
    if ops == [] then [] else Settings(ops[..|ops| - 1], flag) + [SettingIn(ops[|ops| - 1], flag)]
  }

  lemma FlagStep(s: Sess, op: Op, flag: Flag)
    requires SessOk(s) && (flag == SendNumbers && op.Arrival? ==> s.lnsMode)
    ensures var setting := SettingIn(op, flag);
      ValueOf(Apply(s, op), flag) == if setting.Some? then setting.value % 2 != 0 else ValueOf(s, flag)
  {
  }

  /** The session is an LNS whenever a frame arrives. */
  ghost predicate LnsOnArrivals(s: Sess, ops: seq<Op>)
    requires SessOk(s)
  {
    forall n {:trigger ops[n]} :: 0 <= n < |ops| && ops[n].Arrival? ==> RunOps(s, ops[..n]).lnsMode
  }

  /** Only configuration changes a session's role and what it requires on receive; and
      what it sends, as long as it is an LNS whenever a frame arrives. */
  lemma {:induction false} FlagIsLastSetting(s: Sess, ops: seq<Op>, flag: Flag)
    requires SessOk(s) && (flag == SendNumbers ==> LnsOnArrivals(s, ops))
    ensures ValueOf(RunOps(s, ops), flag) == LastSetting(ValueOf(s, flag), Settings(ops, flag))
    decreases |ops|
  {
    if ops != [] {
      var n := |ops| - 1;
      assert forall m :: 0 <= m < n ==> ops[..n][..m] == ops[..m];
      FlagIsLastSetting(s, ops[..n], flag);
      FlagStep(RunOps(s, ops[..n]), ops[n], flag);
      assert Settings(ops, flag)[..n] == Settings(ops[..n], flag);
    }
  }

  ghost function LastTimeout(was: nat, ops: seq<Op>): nat {
    if ops == [] then was
    else
      var last := ops[|ops| - 1];
      if last.Change? && last.timeout.Some? then last.timeout.value else LastTimeout(was, ops[..|ops| - 1])
  }

  lemma TimeoutStep(s: Sess, op: Op)
    requires SessOk(s)
    ensures Apply(s, op).rx.timeout == if op.Change? && op.timeout.Some? then op.timeout.value else s.rx.timeout
  {
    ApplyOk(s, op);
    var inputs := InputsOf(s, op);
    if inputs != [] {
      assert inputs[0] in inputs;
      StepWf(s.rx, inputs[0]);
      if op.QueuePurge? {
        PurgeKeepsTimeout(s.rx);
      }
    }
  }

  lemma {:induction false} PurgeKeepsTimeout(s: Rx)
    ensures PurgeAll(s).timeout == s.timeout
    decreases |s.queue|
  {
    if s.queue != [] {
      PurgeKeepsTimeout(Free(s.(queue := s.queue[1..]), s.queue[0], Purged));
    }
  }

  /** The reorder timeout is the last one set, whatever else happened since. */
  lemma {:induction false} TimeoutIsLastSetting(s: Sess, ops: seq<Op>)
    requires SessOk(s)
    ensures RunOps(s, ops).rx.timeout == LastTimeout(s.rx.timeout, ops)
    decreases |ops|
  {
    if ops != [] {
      var n := |ops| - 1;
      TimeoutIsLastSetting(s, ops[..n]);
      TimeoutStep(RunOps(s, ops[..n]), ops[n]);
    }
  }
}
