/** Frames that have waited too long: how a session gets over a loss, when a skip is
    pending, and for how long a frame can be held. */
module Expiry {
  import opened Common
  import opened SequenceSpace
  import opened Receive
  import opened ReceiveRuns

  // ---- getting over a loss ---------------------------------------------------------------

  /** One record of expiry for each frame. */
  ghost function Expiries(q: seq<Frame>): (es: seq<Event>)
    ensures |es| == |q| && forall i :: 0 <= i < |q| ==> es[i] == Freed(q[i], Expired)
  {
    seq(|q|, i requires 0 <= i < |q| => Freed(q[i], Expired))
  }

  ghost predicate AllExpired(q: seq<Frame>, now: nat) {
    forall g :: g in q ==> now > g.expires
  }

  /** Everything waiting has expired, and one skip has led to the frame `f`. */
  ghost predicate Recovered(s: Rx, t: Rx, q: seq<Frame>, f: Frame) {
    && t.queue == [] && !t.skip && t.nr == Next(f.ns, s.nrMax)
    && t.log == s.log + Expiries(q) + [Skipped(s.nr, f.ns), Delivered(f)]
  }

  lemma RecoveredOneMore(s: Rx, t: Rx, q: seq<Frame>, f: Frame)
    requires s.queue != [] && q != [] && s.queue[0] == q[0] && Recovered(ExpireHead(s), t, q[1..], f)
    ensures Recovered(s, t, q, f)
  {
    ExpiriesCons(q);
    Regroup(s.log, Freed(q[0], Expired), Expiries(q[1..]), [Skipped(s.nr, f.ns), Delivered(f)]);
  }

  lemma ExpiriesCons(q: seq<Frame>)
    requires q != []
    ensures Expiries(q) == [Freed(q[0], Expired)] + Expiries(q[1..])
  {
  }

  lemma Regroup(a: seq<Event>, e: Event, b: seq<Event>, c: seq<Event>)
    ensures (a + [e]) + b + c == a + ([e] + b) + c
  {
    assert (a + [e]) + b == a + ([e] + b);
  }

  /** Draining a queue of expired frames in front of a fresh numbered one. */
  lemma {:induction false} DrainExpired(s: Rx, q: seq<Frame>, f: Frame, now: nat)
    requires s.queue == q + [f] && AllExpired(q, now) && now <= f.expires && f.hasSeq && (s.skip || q != [])
    ensures Recovered(s, Drain(s, now), q, f)
    decreases |q|
  {
    if q == [] {
      FreshDelivered(s, f, now);
    } else {
      HeadExpires(s, q, f, now);
      DrainExpired(ExpireHead(s), q[1..], f, now);
      RecoveredOneMore(s, Drain(s, now), q, f);
    }
  }

  lemma FreshDelivered(s: Rx, f: Frame, now: nat)
    requires s.queue == [] + [f] && now <= f.expires && f.hasSeq && s.skip
    ensures Recovered(s, Drain(s, now), [], f)
  {
    assert s.queue == [f] && Expiries([]) == [];
    DrainSingle(s, now);
  }

  lemma HeadExpires(s: Rx, q: seq<Frame>, f: Frame, now: nat)
    requires s.queue == q + [f] && q != [] && AllExpired(q, now)
    ensures Drain(s, now) == Drain(ExpireHead(s), now)
    ensures ExpireHead(s).queue == q[1..] + [f] && AllExpired(q[1..], now)
    ensures ExpireHead(s).log == s.log + [Freed(q[0], Expired)]
  {
    assert s.queue[0] == q[0] && q[0] in q;
    assert forall g :: g in q[1..] ==> g in q;
  }

  lemma InsertLast(q: seq<Frame>, f: Frame)
    requires forall g :: g in q ==> g.ns <= f.ns
    ensures Insert(q, f) == q + [f]
  {
    var i := InsertAt(q, f.ns);
    assert forall j :: 0 <= j < |q| ==> q[j] in q;
    assert q[..|q|] == q && q[|q|..] == [];
  }

  /** Recovery from a loss, with reordering on: when every waiting frame is past its
      deadline, the next frame in the window with a number not below theirs has them all
      freed, makes up for the loss with one skip to its own number, and is passed up. */
  lemma LossRecovery(s: Rx, f: Frame, now: nat)
    requires Wf(s) && s.timeout != 0 && s.queue != [] && AllExpired(s.queue, now)
    requires f.hasSeq && f.ns <= s.nrMax && InWindow(s.nr, f.ns, s.nrMax) && forall g :: g in s.queue ==> g.ns <= f.ns
    ensures var t := Step(s, Sequenced(f, now));
      && t.queue == [] && !t.skip && t.nr == Next(f.ns, s.nrMax)
      && t.log == s.log + Expiries(s.queue) + [Skipped(s.nr, f.ns), Delivered(f.(expires := now + s.timeout))]
  {
    var g := Stamp(s, f, now);
    InsertLast(s.queue, g);
    DrainExpired(DataSeq(TakeRef(s), g).state, s.queue, g, now);
  }

  // ---- when a skip is pending -----------------------------------------------------------------

  /** Computed from the history alone: nothing has been skipped yet, or a frame has
      expired since the last skip. */
  ghost function SkipPending(log: seq<Event>): bool {
    if log == [] then true
    else
      match log[|log| - 1]
      case Skipped(_, _) => false
      case Delivered(_) => SkipPending(log[..|log| - 1])
      case Freed(_, why) => why == Expired || SkipPending(log[..|log| - 1])
  }

  lemma PendingSnoc(log: seq<Event>, e: Event)
    ensures SkipPending(log + [e]) == (!e.Skipped? && ((e.Freed? && e.why == Expired) || SkipPending(log)))
  {
    assert (log + [e])[..|log|] == log;
  }

  /** While draining, a skip may be pending because the frame at the tail demands it. */
  ghost predicate SkipExplained(s: Rx, now: nat) {
    || s.skip == SkipPending(s.log)
    || (s.skip && s.queue != [] && var f := s.queue[|s.queue| - 1]; f.hasSeq && now <= f.expires)
  }

  lemma DrainOneSkip(s: Rx, now: nat)
    requires SkipExplained(s, now) && s.queue != [] && !Holding(s, now)
    ensures SkipExplained(DrainOne(s, now), now)
  {
    var f := s.queue[0];
    var t := DrainOne(s, now);
    assert t.queue != [] ==> t.queue[|t.queue| - 1] == s.queue[|s.queue| - 1];
    if now > f.expires {
      PendingSnoc(s.log, Freed(f, Expired));
    } else if f.hasSeq && s.skip {
      PendingSnoc(s.log, Skipped(s.nr, f.ns));
      PendingSnoc(SkipToHead(s).log, Delivered(f));
    } else {
      PendingSnoc(s.log, Delivered(f));
    }
  }

  lemma {:induction false} DrainSkip(s: Rx, now: nat)
    requires SkipExplained(s, now)
    ensures SkipExplained(Drain(s, now), now)
    decreases |s.queue|
  {
    if s.queue != [] && !Holding(s, now) {
      DrainOneSkip(s, now);
      DrainSkip(DrainOne(s, now), now);
    }
  }

  lemma DrainedSkip(s: Rx, now: nat)
    requires SkipExplained(s, now)
    ensures Drain(s, now).skip == SkipPending(Drain(s, now).log)
  {
    DrainSkip(s, now);
    DrainEnds(s, now);
  }

  lemma {:induction false} PurgeSkip(s: Rx)
    ensures PurgeAll(s).skip == s.skip && SkipPending(PurgeAll(s).log) == SkipPending(s.log)
    decreases |s.queue|
  {
    if s.queue != [] {
      PendingSnoc(s.log, Freed(s.queue[0], Purged));
      PurgeSkip(Free(s.(queue := s.queue[1..]), s.queue[0], Purged));
    }
  }

  lemma AcceptSkip(s: Rx, f: Frame, now: nat)
    requires Wf(s) && InRange(f, s.nrMax) && s.skip == SkipPending(s.log)
    ensures Accept(s, f, now).skip == SkipPending(Accept(s, f, now).log)
  {
    var g := Stamp(s, f, now);
    if f.hasSeq {
      match DataSeq(TakeRef(s), g)
      case Queued(t) => DrainedSkip(t, now);
      case Discard(t, why) => PendingSnoc(s.log, Freed(g, why));
    } else {
      DrainedSkip(Enqueue(TakeRef(s), g), now);
    }
  }

  lemma StepSkip(s: Rx, i: Input)
    requires Wf(s) && Acceptable(i, s.nrMax) && s.skip == SkipPending(s.log)
    ensures Step(s, i).skip == SkipPending(Step(s, i).log)
  {
    match i
    case Refused(f, why) => PendingSnoc(s.log, Freed(f, why));
    case Sequenced(f, now) => AcceptSkip(s, f, now);
    case Plain(f, now) => AcceptSkip(s, f, now);
    case SetTimeout(t) =>
    case Purge => PurgeSkip(s);
  }

  /** Over every run, with reordering on or off, a skip is pending between calls exactly
      if the run has not skipped yet or a frame has expired since the last skip. */
  lemma {:induction false} SkipPendingIff(nrMax: nat, timeout: nat, inputs: seq<Input>)
    requires ValidNrMax(nrMax) && AllAcceptable(inputs, nrMax)
    ensures var s := Run(Init(nrMax, timeout), inputs); s.skip <==> SkipPending(s.log)
    decreases |inputs|
  {
    if inputs != [] {
      var n := |inputs| - 1;
      SkipPendingIff(nrMax, timeout, inputs[..n]);
      StepSkip(Run(Init(nrMax, timeout), inputs[..n]), inputs[n]);
    }
  }

  // ---- for how long a frame is held ---------------------------------------------------------------

  /** The time that a frame may wait when it enters at a given timeout. */
  function HoldTime(timeout: nat): nat {
    if timeout != 0 then timeout else HZ
  }

  /** Call `n` of the run brought the frame `f` in, and gave it its deadline. */
  ghost predicate EnteredAt(nrMax: nat, timeout: nat, inputs: seq<Input>, n: nat, f: Frame)
    requires ValidNrMax(nrMax) && AllAcceptable(inputs, nrMax)
  {
    && n < |inputs| && (inputs[n].Sequenced? || inputs[n].Plain?) && Bare(inputs[n].frame) == Bare(f)
    && f.expires == inputs[n].now + HoldTime(Run(Init(nrMax, timeout), inputs[..n]).timeout)
  }

  /** A drain leaves behind only what was queued. */
  lemma DrainLeaves(s: Rx, now: nat)
    ensures forall f :: f in Drain(s, now).queue ==> f in s.queue
  {
    DrainEnds(s, now);
    var n :| 0 <= n <= |s.queue| && Drain(s, now).queue == s.queue[n..];
  }

  lemma StepLeaves(s: Rx, i: Input)
    requires Wf(s) && Acceptable(i, s.nrMax)
    ensures forall f :: f in Step(s, i).queue ==>
      f in s.queue || ((i.Sequenced? || i.Plain?) && f == Stamp(s, i.frame, i.now))
  {
    match i
    case Refused(f, why) =>
    case Sequenced(f, now) =>
      InsertContents(s.queue, Stamp(s, f, now));
      var a := DataSeq(TakeRef(s), Stamp(s, f, now));
      if a.Queued? {
        DrainLeaves(a.state, now);
      }
    case Plain(f, now) => DrainLeaves(Enqueue(TakeRef(s), Stamp(s, f, now)), now);
    case SetTimeout(t) =>
    case Purge => PurgeWf(s);
  }

  /** Every queued frame came in with some call and still has the deadline of that call. */
  lemma {:induction false} QueuedEntered(nrMax: nat, timeout: nat, inputs: seq<Input>, f: Frame) returns (n: nat)
    requires ValidNrMax(nrMax) && AllAcceptable(inputs, nrMax)
    requires f in Run(Init(nrMax, timeout), inputs).queue
    ensures EnteredAt(nrMax, timeout, inputs, n, f)
    decreases |inputs|
  {
    var m := |inputs| - 1;
    var s := Run(Init(nrMax, timeout), inputs[..m]);
    StepLeaves(s, inputs[m]);
    if f in s.queue {
      n := QueuedEntered(nrMax, timeout, inputs[..m], f);
      assert inputs[..m][..n] == inputs[..n];
    } else {
      n := m;
    }
  }

  /** The call has drained the queue: it admitted its frame. */
  ghost predicate Drains(s: Rx, i: Input)
    requires Wf(s) && Acceptable(i, s.nrMax)
  {
    i.Plain? || (i.Sequenced? && DataSeq(TakeRef(s), Stamp(s, i.frame, i.now)).Queued?)
  }

  /** A frame is held no longer than promised: if the frame at the head is still there
      after a call at time `now` that drained the queue, then no more than the timeout in
      force when it came in has passed since. */
  lemma HeldAtMost(nrMax: nat, timeout: nat, inputs: seq<Input>, i: Input) returns (n: nat)
    requires ValidNrMax(nrMax) && AllAcceptable(inputs, nrMax) && Acceptable(i, nrMax)
    requires Drains(Run(Init(nrMax, timeout), inputs), i)
    requires Step(Run(Init(nrMax, timeout), inputs), i).queue != []
    ensures AllAcceptable(inputs + [i], nrMax)
    ensures var f := Step(Run(Init(nrMax, timeout), inputs), i).queue[0];
      && EnteredAt(nrMax, timeout, inputs + [i], n, f)
      && i.now <= (inputs + [i])[n].now + HoldTime(Run(Init(nrMax, timeout), (inputs + [i])[..n]).timeout)
  {
    var all := inputs + [i];
    var s := Run(Init(nrMax, timeout), inputs);
    assert all[..|inputs|] == inputs;
    assert Run(Init(nrMax, timeout), all) == Step(s, i);
    var f := Step(s, i).queue[0];
    assert f in Step(s, i).queue;
    n := QueuedEntered(nrMax, timeout, all, f);
    HeadIsFresh(s, i);
  }

  lemma HeadIsFresh(s: Rx, i: Input)
    requires Wf(s) && Acceptable(i, s.nrMax) && Drains(s, i) && Step(s, i).queue != []
    ensures i.now <= Step(s, i).queue[0].expires
  {
    var g := Stamp(s, i.frame, i.now);
    if i.Plain? {
      DrainEnds(Enqueue(TakeRef(s), g), i.now);
    } else {
      DrainEnds(DataSeq(TakeRef(s), g).state, i.now);
    }
  }
}
