/** The receive side of one session: window test, reorder queue, resynchronisation
    counter, expiry and delivery, as functions on the session's receive state. One
    call is atomic and reads one clock value. */
module Receive {
  import opened SequenceSpace

  /** Clock ticks per second, an option of the kernel with any value. While reordering
      is off, frames are held for at most one second. */
  const HZ: nat

  const OOS_COUNT_MAX: nat := 4

  /** A received data frame with the parse results kept in its control block.
      `id` stands for the identity of the buffer. When `hasSeq` is false, `ns`
      holds whatever the control block held before: the parser does not clear it. */
  datatype Frame = Frame(id: nat, payload: seq<int>, hasSeq: bool, ns: nat, expires: nat)

  /** Why a frame was freed instead of being delivered. */
  datatype Reason = Cookie | NoSequence | Malformed | OutsideWindow | OutOfSequence | Expired | Purged

  datatype Event =
    | Delivered(frame: Frame)
    | Freed(frame: Frame, why: Reason)
    | Skipped(from: nat, to: nat)

  /** Receive state of a session. `refs` counts the calls of the `ref` callback
      minus those of `deref`; `log` is the history of what happened to frames. */
  datatype Rx = Rx(
    nr: nat,
    nrMax: nat,
    oos: nat,
    oosCount: nat,
    skip: bool,
    timeout: nat,
    queue: seq<Frame>,
    packets: nat,
    errors: nat,
    seqDiscards: nat,
    cookieDiscards: nat,
    oosPackets: nat,
    refs: int,
    log: seq<Event>)

  predicate InRange(f: Frame, nrMax: nat) {
    f.hasSeq ==> f.ns <= nrMax
  }

  ghost predicate Wf(s: Rx) {
    && ValidNrMax(s.nrMax)
    && s.nr <= s.nrMax
    && s.oos <= s.nrMax
    && forall f :: f in s.queue ==> InRange(f, s.nrMax)
  }

  /** The state set up by session creation. */
  function Init(nrMax: nat, timeout: nat): Rx {
    Rx(0, nrMax, 0, 0, true, timeout, [], 0, 0, 0, 0, 0, 0, [])
  }

  // ---- the reorder queue ------------------------------------------------------

  /** Index of the first queued frame with a larger number, compared as integers. */
  function InsertAt(q: seq<Frame>, ns: nat): (i: nat)
    ensures i <= |q|
    ensures forall j :: 0 <= j < i ==> q[j].ns <= ns
    ensures i < |q| ==> ns < q[i].ns
  {
    if q == [] then 0
    else if q[0].ns > ns then 0
    else 1 + InsertAt(q[1..], ns)
  }

  function Insert(q: seq<Frame>, f: Frame): seq<Frame> {
    var i := InsertAt(q, f.ns);
    q[..i] + [f] + q[i..]
  }

  lemma InsertContents(q: seq<Frame>, f: Frame)
    ensures |Insert(q, f)| == |q| + 1
    ensures multiset(Insert(q, f)) == multiset(q) + multiset{f}
    ensures forall g :: g in Insert(q, f) <==> g in q || g == f
  {
    var i := InsertAt(q, f.ns);
    assert q == q[..i] + q[i..];
    assert multiset(Insert(q, f)) == multiset(q[..i]) + multiset{f} + multiset(q[i..]);
    forall g
      ensures g in Insert(q, f) <==> g in q || g == f
    {
      assert g in Insert(q, f) <==> g in multiset(Insert(q, f));
      assert g in q <==> g in multiset(q);
    }
  }

  // ---- freeing, delivering, draining ------------------------------------------

  predicate CountsAsSeqDiscard(why: Reason) {
    why == NoSequence || why == OutOfSequence || why == Expired
  }

  /** Free a frame that is not (or no longer) queued, and drop its reference. */
  function Free(s: Rx, f: Frame, why: Reason): Rx {
    s.(errors := s.errors + 1,
       seqDiscards := s.seqDiscards + (if CountsAsSeqDiscard(why) then 1 else 0),
       cookieDiscards := s.cookieDiscards + (if why == Cookie then 1 else 0),
       refs := s.refs - 1,
       log := s.log + [Freed(f, why)])
  }

  /** The head has been held too long: free it and let the next one set nr. */
  function ExpireHead(s: Rx): Rx
    requires s.queue != []
  {
    Free(s.(queue := s.queue[1..], skip := true), s.queue[0], Expired)
  }

  /** After a loss, the head decides which number is expected next. */
  function SkipToHead(s: Rx): Rx
    requires s.queue != []
  {
    s.(skip := false, nr := s.queue[0].ns, log := s.log + [Skipped(s.nr, s.queue[0].ns)])
  }

  /** Pass the head up. */
  function DeliverHead(s: Rx): Rx
    requires s.queue != []
  {
    var f := s.queue[0];
    s.(queue := s.queue[1..],
       packets := s.packets + 1,
       nr := if f.hasSeq then Next(s.nr, s.nrMax) else s.nr,
       refs := s.refs - 1,
       log := s.log + [Delivered(f)])
  }

  /** The head is neither expired nor deliverable. */
  predicate Holding(s: Rx, now: nat) {
    && s.queue != []
    && now <= s.queue[0].expires
    && s.queue[0].hasSeq
    && !s.skip
    && s.queue[0].ns != s.nr
  }

  /** One trip of the dequeue loop. */
  function DrainOne(s: Rx, now: nat): Rx
    requires s.queue != [] && !Holding(s, now)
  {
    if now > s.queue[0].expires then ExpireHead(s)
    else if s.queue[0].hasSeq && s.skip then DeliverHead(SkipToHead(s))
    else DeliverHead(s)
  }

  /** l2tp_recv_dequeue. */
  function Drain(s: Rx, now: nat): Rx
    decreases |s.queue|
  {
    if s.queue == [] || Holding(s, now) then s
    else Drain(DrainOne(s, now), now)
  }

  /** Draining stops only at an empty queue or in front of a head that is fresh,
      numbered, different from nr, with no skip pending. */
  lemma {:induction false} DrainEnds(s: Rx, now: nat)
    ensures var d := Drain(s, now);
      d.queue == [] || Holding(d, now)
    ensures exists n :: 0 <= n <= |s.queue| && Drain(s, now).queue == s.queue[n..]
    ensures Drain(Drain(s, now), now) == Drain(s, now)
    decreases |s.queue|
  {
    if s.queue == [] || Holding(s, now) {
      assert s.queue[0..] == s.queue;
    } else {
      var t := DrainOne(s, now);
      DrainEnds(t, now);
      var n :| 0 <= n <= |t.queue| && Drain(t, now).queue == t.queue[n..];
      assert t.queue == s.queue[1..];
      assert t.queue[n..] == s.queue[n + 1..];
    }
  }

  // ---- sequenced frames ---------------------------------------------------------

  datatype Admission = Queued(state: Rx) | Discard(state: Rx, why: Reason)

  function Enqueue(s: Rx, f: Frame): Rx {
    s.(queue := s.queue + [f])
  }

  /** The count of consecutive out-of-sequence numbers, and its effect, when `ns`
      arrives out of sequence while reordering is off. */
  function NoteOutOfSequence(s: Rx, ns: nat): Rx {
    var count := if ns == Next(s.oos, s.nrMax) then s.oosCount + 1 else 0;
    s.(oos := ns, oosCount := count, skip := s.skip || count > OOS_COUNT_MAX)
  }

  /** l2tp_recv_data_seq. */
  function DataSeq(s: Rx, f: Frame): Admission
    requires s.nr <= s.nrMax && f.ns <= s.nrMax
  {
    if !InWindow(s.nr, f.ns, s.nrMax) then
      Discard(s, OutsideWindow)
    else if s.timeout != 0 then
      Queued(s.(queue := Insert(s.queue, f),
                oosPackets := s.oosPackets + (if InsertAt(s.queue, f.ns) < |s.queue| then 1 else 0)))
    else if f.ns == s.nr then
      Queued(Enqueue(s, f))
    else
      var t := NoteOutOfSequence(s, f.ns);
      if t.skip then Queued(Enqueue(t, f)) else Discard(t, OutOfSequence)
  }

  // ---- one call of the receive path, and runs of calls ---------------------------

  /** What one call does to the receive state: a frame refused while parsing, a
      frame with or without sequence numbers that got through, a change of the
      reorder timeout, or a purge. */
  datatype Input =
    | Refused(frame: Frame, why: Reason)
    | Sequenced(frame: Frame, now: nat)
    | Plain(frame: Frame, now: nat)
    | SetTimeout(ticks: nat)
    | Purge

  predicate Acceptable(i: Input, nrMax: nat) {
    match i
    case Refused(f, why) => why == Cookie || why == NoSequence || why == Malformed
    case Sequenced(f, _) => f.hasSeq && f.ns <= nrMax
    case Plain(f, _) => !f.hasSeq
    case SetTimeout(_) => true
    case Purge => true
  }

  function Stamp(s: Rx, f: Frame, now: nat): Frame {
    f.(expires := now + (if s.timeout != 0 then s.timeout else HZ))
  }

  function TakeRef(s: Rx): Rx {
    s.(refs := s.refs + 1)
  }

  /** l2tp_recv_common from the point where the frame has been parsed. */
  function Accept(s: Rx, f: Frame, now: nat): Rx
    requires s.nr <= s.nrMax && InRange(f, s.nrMax)
  {
    var g := Stamp(s, f, now);
    if f.hasSeq then
      match DataSeq(TakeRef(s), g)
      case Queued(t) => Drain(t, now)
      case Discard(t, why) => Free(t, g, why)
    else
      Drain(Enqueue(TakeRef(s), g), now)
  }

  /** l2tp_session_queue_purge. */
  function PurgeAll(s: Rx): Rx
    decreases |s.queue|
  {
    if s.queue == [] then s
    else PurgeAll(Free(s.(queue := s.queue[1..]), s.queue[0], Purged))
  }

  function Step(s: Rx, i: Input): Rx
    requires s.nr <= s.nrMax && Acceptable(i, s.nrMax)
  {
    match i
    case Refused(f, why) => Free(TakeRef(s), f, why)
    case Sequenced(f, now) => Accept(s, f, now)
    case Plain(f, now) => Accept(s, f, now)
    case SetTimeout(t) => s.(timeout := t)
    case Purge => PurgeAll(s)
  }

  // ---- well-formedness is kept ----------------------------------------------------

  lemma DrainOneWf(s: Rx, now: nat)
    requires Wf(s) && s.queue != [] && !Holding(s, now)
    ensures Wf(DrainOne(s, now)) && DrainOne(s, now).nrMax == s.nrMax
  {
    assert s.queue[0] in s.queue;
    assert forall f :: f in s.queue[1..] ==> f in s.queue;
  }

  lemma {:induction false} DrainWf(s: Rx, now: nat)
    requires Wf(s)
    ensures Wf(Drain(s, now)) && Drain(s, now).nrMax == s.nrMax
    ensures Drain(s, now).timeout == s.timeout
    ensures Drain(s, now).oos == s.oos && Drain(s, now).oosCount == s.oosCount
    decreases |s.queue|
  {
    if s.queue != [] && !Holding(s, now) {
      DrainOneWf(s, now);
      DrainWf(DrainOne(s, now), now);
    }
  }

  lemma {:induction false} PurgeWf(s: Rx)
    requires Wf(s)
    ensures Wf(PurgeAll(s)) && PurgeAll(s).nrMax == s.nrMax && PurgeAll(s).queue == []
    decreases |s.queue|
  {
    if s.queue != [] {
      assert forall f :: f in s.queue[1..] ==> f in s.queue;
      PurgeWf(Free(s.(queue := s.queue[1..]), s.queue[0], Purged));
    }
  }

  lemma AdmissionWf(s: Rx, f: Frame)
    requires Wf(s) && f.hasSeq && f.ns <= s.nrMax
    ensures Wf(DataSeq(s, f).state) && DataSeq(s, f).state.nrMax == s.nrMax
    ensures DataSeq(s, f).state.timeout == s.timeout
  {
    InsertContents(s.queue, f);
  }

  lemma AcceptWf(s: Rx, f: Frame, now: nat)
    requires Wf(s) && InRange(f, s.nrMax)
    ensures Wf(Accept(s, f, now)) && Accept(s, f, now).nrMax == s.nrMax
    ensures Accept(s, f, now).timeout == s.timeout
  {
    var g := Stamp(s, f, now);
    if f.hasSeq {
      AdmissionWf(TakeRef(s), g);
      match DataSeq(TakeRef(s), g)
      case Queued(t) => DrainWf(t, now);
      case Discard(t, why) =>
    } else {
      DrainWf(Enqueue(TakeRef(s), g), now);
    }
  }

  lemma StepWf(s: Rx, i: Input)
    requires Wf(s) && Acceptable(i, s.nrMax)
    ensures Wf(Step(s, i)) && Step(s, i).nrMax == s.nrMax
    ensures !i.SetTimeout? && !i.Purge? ==> Step(s, i).timeout == s.timeout
  {
    match i
    case Refused(f, why) =>
    case Sequenced(f, now) => AcceptWf(s, f, now);
    case Plain(f, now) => AcceptWf(s, f, now);
    case SetTimeout(t) =>
    case Purge => PurgeWf(s);
  }

  ghost predicate AllAcceptable(inputs: seq<Input>, nrMax: nat) {
    forall i :: i in inputs ==> Acceptable(i, nrMax)
  }

  /** The state after a whole run of calls. */
  ghost function Run(s: Rx, inputs: seq<Input>): (r: Rx)
    requires Wf(s) && AllAcceptable(inputs, s.nrMax)
    ensures Wf(r) && r.nrMax == s.nrMax
    decreases |inputs|
  {
    if inputs == [] then s
    else
      var n := |inputs| - 1;
      var before := Run(s, inputs[..n]);
      StepWf(before, inputs[n]);
      Step(before, inputs[n])
  }

  /** A run, one call longer. */
  lemma RunOneMore(s: Rx, inputs: seq<Input>, n: nat)
    requires Wf(s) && AllAcceptable(inputs, s.nrMax) && n < |inputs|
    ensures AllAcceptable(inputs[..n], s.nrMax) && AllAcceptable(inputs[..n + 1], s.nrMax)
    ensures Acceptable(inputs[n], s.nrMax)
    ensures Run(s, inputs[..n + 1]) == Step(Run(s, inputs[..n]), inputs[n])
  {
    assert inputs[..n + 1][..n] == inputs[..n];
    assert forall i :: i in inputs[..n + 1] ==> i in inputs;
    assert inputs[n] in inputs;
  }
}
