/** Section 5.4 of RFC 2661: the LNS decides whether sequence numbers are sent, and
    the LAC follows. */
module Negotiation {
  import opened Common
  import opened Bytes
  import opened SequenceSpace
  import opened Receive
  import opened Header
  import opened RoundTrip
  import opened SessionState

  /** A built frame of the session `s` with number `ns`. */
  datatype Emitted = Emitted(ns: nat, junk: seq<Byte>, payload: seq<Byte>)

  ghost predicate CanEmit(s: Sess, e: Emitted) {
    && NsFits(s.cfg, e.ns) && |e.junk| == HeaderBytes(s.cfg, s.sendSeq)
    && HasRoom(s.cfg, s.sendSeq, |e.junk| + |Body(s.cfg, e.payload)|)
    && LongEnough(s.cfg, s.sendSeq, e.payload)
  }

  ghost function Emit(s: Sess, e: Emitted): seq<Byte>
    requires ValidConfig(s.cfg) && CanEmit(s, e)
  {
    Wire(s.cfg, s.sendSeq, e.ns, e.junk, e.payload)
  }

  /** The two ends of one session. */
  ghost predicate Peers(s: Sess, r: Sess) {
    && SessOk(s) && SessOk(r) && ValidConfig(s.cfg) && ValidConfig(r.cfg)
    && Mirrored(s.cfg, r.cfg) && IdFits(s.cfg) && Faithful(s.cfg)
  }

  /** How the receiving end reads a frame of the sending end. */
  lemma EmittedParses(s: Sess, r: Sess, e: Emitted, beyond: nat -> Byte)
    requires Peers(s, r) && CanEmit(s, e)
    ensures var one := Stage1Of(r.cfg, Emit(s, e)); var carried := s.sendSeq && CarriesSeq(s.cfg);
      && one.Data? && one.sessionId == r.cfg.sessionId
      && ParseStage2(r.cfg, Emit(s, e), one.ptr, one.flags, beyond)
         == Found(carried, if carried then e.ns else 0, Payload.Payload(e.payload))
  {
    RoundTripIff(s.cfg, r.cfg);
    assert FrameRecovers(s.cfg, r.cfg, s.sendSeq, e.ns, e.junk, e.payload, beyond);
  }

  // ---- numbering what is sent --------------------------------------------------------

  /** The session after it has built `n` headers. */
  ghost function Builds(s: Sess, n: nat): Sess {
    if n == 0 then s else AfterBuild(Builds(s, n - 1))
  }

  lemma {:induction false} BuildsAdvance(s: Sess, n: nat)
    requires SessOk(s) && Faithful(s.cfg)
    ensures Builds(s, n) == s.(ns := if s.sendSeq && CarriesSeq(s.cfg) then Advance(s.ns, n, NrMaxOf(s.cfg.version)) else s.ns)
    ensures NsFits(s.cfg, Builds(s, n).ns)
  {
    if n > 0 {
      BuildsAdvance(s, n - 1);
    }
    AdvanceRange(s.ns, n, NrMaxOf(s.cfg.version));
  }

  lemma PeersLater(s: Sess, r: Sess, n: nat)
    requires Peers(s, r)
    ensures Peers(Builds(s, n), r)
  {
    BuildsAdvance(s, n);
  }

  /** The send number moves exactly with the numbers that are written. */
  lemma BuildsModular(s: Sess, n: nat)
    requires SessOk(s) && Faithful(s.cfg)
    ensures var size := NrMaxOf(s.cfg.version) + 1;
      if s.sendSeq && CarriesSeq(s.cfg)
      then Builds(s, n).ns == (s.ns + n) % size && Builds(s, n + 1).ns == (Builds(s, n).ns + 1) % size
      else Builds(s, n) == s
  {
    BuildsAdvance(s, n);
    BuildsAdvance(s, n + 1);
    TwoModular(s.ns, n, NrMaxOf(s.cfg.version));
  }

  lemma NextModular(a: nat, nrMax: nat)
    requires a <= nrMax
    ensures Next(a, nrMax) == (a + 1) % (nrMax + 1)
  {
    AdvanceRemainder(a, 1, nrMax);
    assert Advance(a, 0, nrMax) == a;
  }

  lemma TwoModular(n: nat, k: nat, nrMax: nat)
    requires n <= nrMax
    ensures Advance(n, k, nrMax) == (n + k) % (nrMax + 1)
    ensures Advance(n, k + 1, nrMax) == (Advance(n, k, nrMax) + 1) % (nrMax + 1)
  {
    AdvanceRange(n, k, nrMax);
    NextModular(Advance(n, k, nrMax), nrMax);
    AdvanceRemainder(n, k, nrMax);
  }

  /** The frame behind `n` others carries a number if numbers are sent and the header
      has a place for them: the n-th one after the session's, on the circle, as the peer
      reads it. The next number is then one further, and otherwise the same. */
  lemma SuccessiveNumbers(s: Sess, u: Sess, r: Sess, n: nat, e: Emitted, beyond: nat -> Byte)
    requires Peers(s, r) && u == Builds(s, n) && u.cfg == s.cfg && CanEmit(u, e) && e.ns == u.ns
    ensures var one := Stage1Of(r.cfg, Emit(u, e)); var size := NrMaxOf(s.cfg.version) + 1;
      && one.Data?
      && var p := ParseStage2(r.cfg, Emit(u, e), one.ptr, one.flags, beyond);
      && p.Found? && p.hasSeq == (s.sendSeq && CarriesSeq(s.cfg)) && p.payload == Payload.Payload(e.payload)
      && (p.hasSeq ==> p.ns == (s.ns + n) % size)
      && AfterBuild(u).ns == if p.hasSeq then (p.ns + 1) % size else s.ns
  {
    BuildsModular(s, n);
    BuildsAdvance(s, n);
    PeersLater(s, r, n);
    assert AfterBuild(u) == Builds(s, n + 1);
    EmittedParses(u, r, e, beyond);
  }

  // ---- the LAC follows -------------------------------------------------------------

  /** What happens at the LAC: a frame of the LNS arrives, or it builds one itself,
      or its reorder queue is reconfigured or purged. */
  datatype LacStep =
    | FromLns(frame: Emitted, id: nat, stale: nat, beyond: nat -> Byte, now: nat)
    | Build
    | Reorder(timeout: nat)
    | Clear

  ghost function LacOp(lns: Sess, step: LacStep): Op
    requires ValidConfig(lns.cfg) && (step.FromLns? ==> CanEmit(lns, step.frame))
  {
    match step
    case FromLns(e, id, stale, beyond, now) => Arrival(lns.cfg.encap, Skb(id, Emit(lns, e), stale), beyond, now)
    case Build => Transmit
    case Reorder(t) => Change(None, None, None, Some(t))
    case Clear => QueuePurge
  }

  ghost predicate LacStepOk(lns: Sess, step: LacStep) {
    step.FromLns? ==> CanEmit(lns, step.frame)
  }

  ghost predicate IsLac(lac: Sess) {
    !lac.lnsMode && !lac.recvSeq
  }

  lemma LacFollows(lns: Sess, lac: Sess, step: LacStep)
    requires Peers(lns, lac) && IsLac(lac) && LacStepOk(lns, step)
    ensures var t := Apply(lac, LacOp(lns, step));
      && IsLac(t) && SessOk(t) && t.cfg == lac.cfg
      && t.sendSeq == if step.FromLns? then lns.sendSeq && CarriesSeq(lns.cfg) else lac.sendSeq
  {
    ApplyOk(lac, LacOp(lns, step));
    if step.FromLns? {
      EmittedParses(lns, lac, step.frame, step.beyond);
    }
  }

  ghost function LacRun(lns: Sess, lac: Sess, steps: seq<LacStep>): (t: Sess)
    requires Peers(lns, lac) && IsLac(lac) && forall i :: 0 <= i < |steps| ==> LacStepOk(lns, steps[i])
    ensures IsLac(t) && SessOk(t) && t.cfg == lac.cfg
    decreases |steps|
  {
    if steps == [] then lac
    else
      var n := |steps| - 1;
      var t := LacRun(lns, lac, steps[..n]);
      LacFollows(lns, t, steps[n]);
      Apply(t, LacOp(lns, steps[n]))
  }

  /** Once the LAC has processed any one frame of an LNS whose setting is fixed, it
      sends sequence numbers exactly if the LNS does and the header has a place for
      them, for the rest of the run. */
  lemma {:induction false} LacAgreesForever(lns: Sess, lac: Sess, steps: seq<LacStep>, heard: nat)
    requires Peers(lns, lac) && IsLac(lac) && forall i :: 0 <= i < |steps| ==> LacStepOk(lns, steps[i])
    requires heard < |steps| && steps[heard].FromLns?
    ensures LacRun(lns, lac, steps).sendSeq == (lns.sendSeq && CarriesSeq(lns.cfg))
    decreases |steps|
  {
    var n := |steps| - 1;
    var t := LacRun(lns, lac, steps[..n]);
    LacFollows(lns, t, steps[n]);
    if heard < n {
      assert forall i :: 0 <= i < n ==> steps[..n][i] == steps[i];
      LacAgreesForever(lns, lac, steps[..n], heard);
    }
  }

  // ---- and is not discarded ----------------------------------------------------------

  ghost function AtLns(lns: Sess, lac: Sess, e: Emitted, id: nat, stale: nat, beyond: nat -> Byte, now: nat): Input
    requires Peers(lac, lns) && CanEmit(lac, e)
  {
    EmittedParses(lac, lns, e, beyond);
    var w := Emit(lac, e);
    var one := Stage1Of(lns.cfg, w);
    Interpret(lns, Skb(id, w, stale), ParseStage2(lns.cfg, w, one.ptr, one.flags, beyond), now)
  }

  /** A frame of a LAC in agreement is discarded by the LNS for a missing sequence
      number if and only if the LNS demands numbers that it does not have sent: it
      requires them on receive without sending them, or it sends them although the
      header has no place for them. */
  lemma AgreedFramesDiscardedIff(lns: Sess, lac: Sess, e: Emitted, id: nat, stale: nat, beyond: nat -> Byte, now: nat)
    requires Peers(lac, lns) && CanEmit(lac, e) && lns.lnsMode
    requires lac.sendSeq == (lns.sendSeq && CarriesSeq(lns.cfg))
    ensures var i := AtLns(lns, lac, e, id, stale, beyond, now);
      i.Refused? <==> (lns.recvSeq || lns.sendSeq) && !(lns.sendSeq && CarriesSeq(lns.cfg))
    ensures var i := AtLns(lns, lac, e, id, stale, beyond, now);
      if i.Refused? then i.why == NoSequence else i.frame.payload == e.payload
  {
    EmittedParses(lac, lns, e, beyond);
  }

  /** The whole exchange: after the LAC has heard the LNS once, no frame that it
      builds is discarded, provided that the LNS requires numbers only if it sends
      them and that the header carries them. */
  lemma NoFrameDiscardedAfterAgreement(lns: Sess, lac: Sess, steps: seq<LacStep>, heard: nat,
                                       e: Emitted, id: nat, stale: nat, beyond: nat -> Byte, now: nat)
    requires Peers(lns, lac) && Peers(lac, lns) && IsLac(lac) && lns.lnsMode
    requires forall i :: 0 <= i < |steps| ==> LacStepOk(lns, steps[i])
    requires heard < |steps| && steps[heard].FromLns?
    requires CanEmit(LacRun(lns, lac, steps), e)
    requires CarriesSeq(lns.cfg) && (lns.recvSeq ==> lns.sendSeq)
    ensures var t := LacRun(lns, lac, steps);
      var i := AtLns(lns, t, e, id, stale, beyond, now);
      !i.Refused? && i.frame.payload == e.payload && (i.Sequenced? <==> lns.sendSeq)
  {
    LacAgreesForever(lns, lac, steps, heard);
    var t := LacRun(lns, lac, steps);
    AgreedFramesDiscardedIff(lns, t, e, id, stale, beyond, now);
    EmittedParses(t, lns, e, beyond);
  }
}
