/** What every run of the receive path keeps: deliveries between two skips are
    consecutive, no frame is lost or doubled, and the queue stays ordered. */
module ReceiveRuns {
  import opened Common
  import opened SequenceSpace
  import opened Receive

  // ---- replaying the history ---------------------------------------------------

  /** The next expected number, computed from the history alone. */
  ghost function NrAfter(log: seq<Event>, nrMax: nat): nat {
    if log == [] then 0
    else
      match log[|log| - 1]
      case Skipped(_, to) => to
      case Delivered(f) => if f.hasSeq then Next(f.ns, nrMax) else NrAfter(log[..|log| - 1], nrMax)
      case Freed(_, _) => NrAfter(log[..|log| - 1], nrMax)
  }

  predicate IsNumbered(e: Event) {
    e.Delivered? && e.frame.hasSeq
  }

  /** Every numbered delivery carries the number that was expected at that moment. */
  ghost predicate InOrder(log: seq<Event>, nrMax: nat) {
    forall i {:trigger log[i]} :: 0 <= i < |log| && IsNumbered(log[i]) ==> log[i].frame.ns == NrAfter(log[..i], nrMax)
  }

  /** The numbers delivered, in order of delivery. */
  ghost function Numbers(log: seq<Event>): seq<nat> {
    if log == [] then []
    else
      var e := log[|log| - 1];
      Numbers(log[..|log| - 1]) + (if IsNumbered(e) then [e.frame.ns] else [])
  }

  ghost predicate NoSkip(log: seq<Event>) {
    forall e :: e in log ==> !e.Skipped?
  }

  ghost predicate HistoryOk(s: Rx) {
    s.nr == NrAfter(s.log, s.nrMax) && InOrder(s.log, s.nrMax)
  }

  lemma Appended(log: seq<Event>, e: Event, nrMax: nat)
    requires InOrder(log, nrMax)
    requires IsNumbered(e) ==> e.frame.ns == NrAfter(log, nrMax)
    ensures InOrder(log + [e], nrMax)
    ensures NrAfter(log + [e], nrMax) ==
            if e.Skipped? then e.to else if IsNumbered(e) then Next(e.frame.ns, nrMax) else NrAfter(log, nrMax)
  {
    var l := log + [e];
    assert l[..|l| - 1] == log;
    forall i | 0 <= i < |l| && IsNumbered(l[i])
      ensures l[i].frame.ns == NrAfter(l[..i], nrMax)
    {
      if i < |log| {
        assert l[..i] == log[..i];
        assert l[i] == log[i];
      } else {
        assert l[..i] == log;
      }
    }
  }

  lemma DrainOneHistory(s: Rx, now: nat)
    requires HistoryOk(s) && s.queue != [] && !Holding(s, now)
    ensures HistoryOk(DrainOne(s, now))
  {
    var f := s.queue[0];
    if now > f.expires {
      Appended(s.log, Freed(f, Expired), s.nrMax);
    } else if f.hasSeq && s.skip {
      Appended(s.log, Skipped(s.nr, f.ns), s.nrMax);
      Appended(SkipToHead(s).log, Delivered(f), s.nrMax);
    } else {
      Appended(s.log, Delivered(f), s.nrMax);
    }
  }

  lemma {:induction false} DrainHistory(s: Rx, now: nat)
    requires HistoryOk(s)
    ensures HistoryOk(Drain(s, now))
    decreases |s.queue|
  {
    if s.queue != [] && !Holding(s, now) {
      DrainOneHistory(s, now);
      DrainHistory(DrainOne(s, now), now);
    }
  }

  lemma {:induction false} PurgeHistory(s: Rx)
    requires HistoryOk(s)
    ensures HistoryOk(PurgeAll(s))
    decreases |s.queue|
  {
    if s.queue != [] {
      Appended(s.log, Freed(s.queue[0], Purged), s.nrMax);
      PurgeHistory(Free(s.(queue := s.queue[1..]), s.queue[0], Purged));
    }
  }

  lemma AcceptHistory(s: Rx, f: Frame, now: nat)
    requires Wf(s) && HistoryOk(s) && InRange(f, s.nrMax)
    ensures HistoryOk(Accept(s, f, now))
  {
    var g := Stamp(s, f, now);
    if f.hasSeq {
      match DataSeq(TakeRef(s), g)
      case Queued(t) => DrainHistory(t, now);
      case Discard(t, why) => Appended(s.log, Freed(g, why), s.nrMax);
    } else {
      DrainHistory(Enqueue(TakeRef(s), g), now);
    }
  }

  lemma StepHistory(s: Rx, i: Input)
    requires Wf(s) && HistoryOk(s) && Acceptable(i, s.nrMax)
    ensures HistoryOk(Step(s, i))
  {
    match i
    case Refused(f, why) => Appended(s.log, Freed(f, why), s.nrMax);
    case Sequenced(f, now) => AcceptHistory(s, f, now);
    case Plain(f, now) => AcceptHistory(s, f, now);
    case SetTimeout(t) =>
    case Purge => PurgeHistory(s);
  }

  /** Delivery safety over whole runs: every numbered delivery matched the number
      expected at that moment, and the expected number is a function of history. */
  lemma {:induction false} RunsDeliverInOrder(nrMax: nat, timeout: nat, inputs: seq<Input>)
    requires ValidNrMax(nrMax) && AllAcceptable(inputs, nrMax)
    ensures HistoryOk(Run(Init(nrMax, timeout), inputs))
    decreases |inputs|
  {
    if inputs != [] {
      var n := |inputs| - 1;
      RunsDeliverInOrder(nrMax, timeout, inputs[..n]);
      StepHistory(Run(Init(nrMax, timeout), inputs[..n]), inputs[n]);
    }
  }

  lemma NrAfterOne(log: seq<Event>, j: nat, nrMax: nat)
    requires 1 <= j <= |log|
    ensures NrAfter(log[..j], nrMax) ==
            var e := log[j - 1];
            if e.Skipped? then e.to else if IsNumbered(e) then Next(e.frame.ns, nrMax) else NrAfter(log[..j - 1], nrMax)
  {
    assert log[..j][..j - 1] == log[..j - 1];
  }

  lemma NumbersOne(e: Event)
    ensures Numbers([e]) == if IsNumbered(e) then [e.frame.ns] else []
  {
    assert [e][..0] == [];
  }

  /** Consecutive numbers around the circle, from `first` on. */
  ghost predicate IsWalk(ns: seq<nat>, first: nat, nrMax: nat) {
    forall k :: 0 <= k < |ns| ==> ns[k] == Advance(first, k, nrMax)
  }

  /** A history without skips after its first `i` events delivers consecutive
      numbers from there on, and the expected number counts them. */
  lemma {:induction false} SegmentIsConsecutive(log: seq<Event>, i: nat, j: nat, nrMax: nat)
    requires InOrder(log, nrMax) && i <= j <= |log| && NoSkip(log[i..j])
    ensures var ns := Numbers(log[i..j]); var first := NrAfter(log[..i], nrMax);
      && IsWalk(ns, first, nrMax)
      && NrAfter(log[..j], nrMax) == Advance(first, |ns|, nrMax)
    decreases j
  {
    if i < j {
      assert log[i..j] == log[i..j - 1] + [log[j - 1]];
      assert log[j - 1] in log[i..j];
      SegmentIsConsecutive(log, i, j - 1, nrMax);
      NrAfterOne(log, j, nrMax);
      NumbersSnoc(log, i, j);
      var ns := Numbers(log[i..j - 1]);
      if IsNumbered(log[j - 1]) {
        WalkGrows(ns, NrAfter(log[..i], nrMax), log[j - 1].frame.ns, nrMax);
      }
    } else {
      assert log[i..j] == [];
    }
  }

  lemma NumbersSnoc(log: seq<Event>, i: nat, j: nat)
    requires i < j <= |log|
    ensures Numbers(log[i..j]) == Numbers(log[i..j - 1]) + (if IsNumbered(log[j - 1]) then [log[j - 1].frame.ns] else [])
  {
    assert log[i..j][..j - i - 1] == log[i..j - 1];
  }

  lemma WalkGrows(ns: seq<nat>, first: nat, n: nat, nrMax: nat)
    requires IsWalk(ns, first, nrMax) && n == Advance(first, |ns|, nrMax)
    ensures IsWalk(ns + [n], first, nrMax) && Next(n, nrMax) == Advance(first, |ns| + 1, nrMax)
  {
  }

  /** Any two successive numbered deliveries of a run with no skip between them
      differ by exactly one step around the circle, whatever else happened. */
  lemma SuccessiveDeliveries(nrMax: nat, timeout: nat, inputs: seq<Input>, i: nat, j: nat)
    requires ValidNrMax(nrMax) && AllAcceptable(inputs, nrMax)
    requires var log := Run(Init(nrMax, timeout), inputs).log;
      && i < j < |log| && IsNumbered(log[i]) && IsNumbered(log[j])
      && NoSkip(log[i..j])
      && forall m {:trigger log[m]} :: i < m < j ==> !IsNumbered(log[m])
    ensures var log := Run(Init(nrMax, timeout), inputs).log;
      log[j].frame.ns == Next(log[i].frame.ns, nrMax)
  {
    RunsDeliverInOrder(nrMax, timeout, inputs);
    SuccessiveInLog(Run(Init(nrMax, timeout), inputs).log, i, j, nrMax);
  }

  lemma SuccessiveInLog(log: seq<Event>, i: nat, j: nat, nrMax: nat)
    requires InOrder(log, nrMax) && i < j < |log| && IsNumbered(log[i]) && IsNumbered(log[j]) && NoSkip(log[i..j])
    requires forall m {:trigger log[m]} :: i < m < j ==> !IsNumbered(log[m])
    ensures log[j].frame.ns == Next(log[i].frame.ns, nrMax)
  {
    assert forall e :: e in log[i + 1..j] ==> e in log[i..j];
    SegmentIsConsecutive(log, i + 1, j, nrMax);
    NumbersEmpty(log[i + 1..j]);
    NrAfterOne(log, i + 1, nrMax);
  }

  lemma {:induction false} NumbersEmpty(log: seq<Event>)
    requires forall m {:trigger log[m]} :: 0 <= m < |log| ==> !IsNumbered(log[m])
    ensures Numbers(log) == []
  {
    if log != [] {
      NumbersEmpty(log[..|log| - 1]);
    }
  }

  lemma {:induction false} NumbersConcat(a: seq<Event>, b: seq<Event>)
    ensures Numbers(a + b) == Numbers(a) + Numbers(b)
    decreases |b|
  {
    if b == [] {
      assert a + b == a;
    } else {
      var n := |b| - 1;
      NumbersConcat(a, b[..n]);
      assert (a + b)[..|a + b| - 1] == a + b[..n];
      assert (a + b)[|a + b| - 1] == b[n];
    }
  }

  /** Replay protection over whole runs: a number delivered at event `i` is refused
      when it is presented again, as long as no skip happened since and at most
      nr_max + 1 - window numbers were delivered from there on. The copy is freed
      and nothing else changes. */
  lemma ReplayIsRefused(nrMax: nat, timeout: nat, inputs: seq<Input>, i: nat, copy: Frame, now: nat)
    requires ValidNrMax(nrMax) && AllAcceptable(inputs, nrMax)
    requires var log := Run(Init(nrMax, timeout), inputs).log;
      && i < |log| && IsNumbered(log[i]) && NoSkip(log[i..])
      && log[i].frame.ns == copy.ns
      && |Numbers(log[i..])| <= nrMax + 1 - WindowSize(nrMax)
    requires copy.hasSeq && copy.ns <= nrMax
    ensures var s := Run(Init(nrMax, timeout), inputs);
      Step(s, Sequenced(copy, now)) == Free(TakeRef(s), Stamp(s, copy, now), OutsideWindow)
  {
    var s := Run(Init(nrMax, timeout), inputs);
    RunsDeliverInOrder(nrMax, timeout, inputs);
    ReplayInLog(s.log, i, nrMax);
  }

  /** A number delivered at event `i` is outside the window that the history leads to. */
  lemma ReplayInLog(log: seq<Event>, i: nat, nrMax: nat)
    requires ValidNrMax(nrMax) && InOrder(log, nrMax) && i < |log| && IsNumbered(log[i]) && NoSkip(log[i..])
    requires log[i].frame.ns <= nrMax && |Numbers(log[i..])| <= nrMax + 1 - WindowSize(nrMax)
    ensures NrAfter(log, nrMax) <= nrMax && !InWindow(NrAfter(log, nrMax), log[i].frame.ns, nrMax)
  {
    assert log[i..|log|] == log[i..];
    SegmentIsConsecutive(log, i, |log|, nrMax);
    assert log[..|log|] == log;
    assert log[i..] == [log[i]] + log[i + 1..];
    NumbersConcat([log[i]], log[i + 1..]);
    NumbersOne(log[i]);
    ReplayRefusedIff(log[i].frame.ns, |Numbers(log[i..])|, nrMax);
  }

  // ---- the ledger ---------------------------------------------------------------

  /** A frame apart from the deadline that the queue gives it. */
  function Bare(f: Frame): Frame {
    f.(expires := 0)
  }

  /** How often the frame `x` is waiting in a queue. */
  ghost function Waiting(q: seq<Frame>, x: Frame): nat {
    if q == [] then 0 else One(Bare(q[0]) == x) + Waiting(q[1..], x)
  }

  /** How often the frame `x` was passed up. */
  ghost function TimesDelivered(log: seq<Event>, x: Frame): nat {
    if log == [] then 0
    else
      var e := log[|log| - 1];
      TimesDelivered(log[..|log| - 1], x) + One(e.Delivered? && Bare(e.frame) == x)
  }

  /** How often the frame `x` was freed without being passed up. */
  ghost function TimesFreed(log: seq<Event>, x: Frame): nat {
    if log == [] then 0
    else
      var e := log[|log| - 1];
      TimesFreed(log[..|log| - 1], x) + One(e.Freed? && Bare(e.frame) == x)
  }

  predicate CarriesFrame(i: Input) {
    i.Refused? || i.Sequenced? || i.Plain?
  }

  /** How often a run hands the frame `x` to the receive path. */
  ghost function TimesEntered(inputs: seq<Input>, x: Frame): nat {
    if inputs == [] then 0
    else
      var i := inputs[|inputs| - 1];
      TimesEntered(inputs[..|inputs| - 1], x) + One(CarriesFrame(i) && Bare(i.frame) == x)
  }

  /** How many frames a run hands to the receive path. */
  ghost function FramesIn(inputs: seq<Input>): nat {
    if inputs == [] then 0
    else FramesIn(inputs[..|inputs| - 1]) + One(CarriesFrame(inputs[|inputs| - 1]))
  }

  ghost function DeliveredIn(log: seq<Event>): nat {
    if log == [] then 0 else DeliveredIn(log[..|log| - 1]) + One(log[|log| - 1].Delivered?)
  }

  ghost function FreedIn(log: seq<Event>): nat {
    if log == [] then 0 else FreedIn(log[..|log| - 1]) + One(log[|log| - 1].Freed?)
  }

  /** Frames freed for one of the reasons. */
  ghost function FreedFor(log: seq<Event>, reasons: set<Reason>): nat {
    if log == [] then 0
    else
      var e := log[|log| - 1];
      FreedFor(log[..|log| - 1], reasons) + One(e.Freed? && e.why in reasons)
  }

  /** Copies of the frame `x` accounted for: passed up, freed, or still queued. */
  ghost function Accounted(s: Rx, x: Frame): nat {
    TimesDelivered(s.log, x) + TimesFreed(s.log, x) + Waiting(s.queue, x)
  }

  /** Frames accounted for by the statistics and the queue. */
  function Total(s: Rx): nat {
    s.packets + s.errors + |s.queue|
  }

  /** The statistics and the outstanding references agree with the history. */
  ghost predicate CountersOk(s: Rx) {
    && s.packets == DeliveredIn(s.log)
    && s.errors == FreedIn(s.log)
    && DiscardsOk(s)
    && s.refs == |s.queue|
  }

  ghost predicate DiscardsOk(s: Rx) {
    && s.seqDiscards == FreedFor(s.log, {NoSequence, OutOfSequence, Expired})
    && s.cookieDiscards == FreedFor(s.log, {Cookie})
  }

  lemma {:induction false} WaitingConcat(a: seq<Frame>, b: seq<Frame>, x: Frame)
    ensures Waiting(a + b, x) == Waiting(a, x) + Waiting(b, x)
  {
    if a == [] {
      assert a + b == b;
    } else {
      WaitingConcat(a[1..], b, x);
      assert (a + b)[1..] == a[1..] + b;
    }
  }

  lemma WaitingInsert(q: seq<Frame>, f: Frame, x: Frame)
    ensures Waiting(Insert(q, f), x) == Waiting(q, x) + One(Bare(f) == x)
  {
    var i := InsertAt(q, f.ns);
    WaitingConcat(q[..i] + [f], q[i..], x);
    WaitingConcat(q[..i], [f], x);
    WaitingConcat(q[..i], q[i..], x);
    assert q == q[..i] + q[i..];
  }

  lemma LogCounts(log: seq<Event>, e: Event, x: Frame)
    ensures TimesDelivered(log + [e], x) == TimesDelivered(log, x) + One(e.Delivered? && Bare(e.frame) == x)
    ensures TimesFreed(log + [e], x) == TimesFreed(log, x) + One(e.Freed? && Bare(e.frame) == x)
    ensures DeliveredIn(log + [e]) == DeliveredIn(log) + One(e.Delivered?)
    ensures FreedIn(log + [e]) == FreedIn(log) + One(e.Freed?)
  {
    assert (log + [e])[..|log|] == log;
  }

  lemma ReasonCounts(log: seq<Event>, e: Event, reasons: set<Reason>)
    ensures FreedFor(log + [e], reasons) == FreedFor(log, reasons) + One(e.Freed? && e.why in reasons)
  {
    assert (log + [e])[..|log|] == log;
  }

  lemma FreeCounts(s: Rx, f: Frame, why: Reason, x: Frame)
    requires s.packets == DeliveredIn(s.log) && s.errors == FreedIn(s.log)
    requires DiscardsOk(s) && s.refs == |s.queue| + 1
    ensures CountersOk(Free(s, f, why))
    ensures Accounted(Free(s, f, why), x) == Accounted(s, x) + One(Bare(f) == x)
    ensures Total(Free(s, f, why)) == Total(s) + 1
  {
    ReasonCounts(s.log, Freed(f, why), {NoSequence, OutOfSequence, Expired});
    ReasonCounts(s.log, Freed(f, why), {Cookie});
    LogCounts(s.log, Freed(f, why), x);
  }

  /** Passing the head up. */
  lemma DeliverBalanced(s: Rx, x: Frame)
    requires CountersOk(s) && s.queue != []
    ensures CountersOk(DeliverHead(s))
    ensures Accounted(DeliverHead(s), x) == Accounted(s, x)
    ensures Total(DeliverHead(s)) == Total(s)
  {
    LogCounts(s.log, Delivered(s.queue[0]), x);
  }

  lemma SkipBalanced(s: Rx, x: Frame)
    requires CountersOk(s) && s.queue != []
    ensures CountersOk(SkipToHead(s))
    ensures Accounted(SkipToHead(s), x) == Accounted(s, x)
    ensures Total(SkipToHead(s)) == Total(s)
  {
    LogCounts(s.log, Skipped(s.nr, s.queue[0].ns), x);
  }

  lemma ExpireBalanced(s: Rx, x: Frame)
    requires CountersOk(s) && s.queue != []
    ensures CountersOk(ExpireHead(s))
    ensures Accounted(ExpireHead(s), x) == Accounted(s, x)
    ensures Total(ExpireHead(s)) == Total(s)
  {
    FreeCounts(s.(queue := s.queue[1..], skip := true), s.queue[0], Expired, x);
  }

  /** Moving the head out of the queue loses nothing and doubles nothing. */
  lemma DrainOneBalanced(s: Rx, now: nat, x: Frame)
    requires CountersOk(s) && s.queue != [] && !Holding(s, now)
    ensures CountersOk(DrainOne(s, now))
    ensures Accounted(DrainOne(s, now), x) == Accounted(s, x)
    ensures Total(DrainOne(s, now)) == Total(s)
  {
    if now > s.queue[0].expires {
      ExpireBalanced(s, x);
    } else if s.queue[0].hasSeq && s.skip {
      SkipBalanced(s, x);
      DeliverBalanced(SkipToHead(s), x);
    } else {
      DeliverBalanced(s, x);
    }
  }

  lemma {:induction false} DrainBalanced(s: Rx, now: nat, x: Frame)
    requires CountersOk(s)
    ensures CountersOk(Drain(s, now))
    ensures Accounted(Drain(s, now), x) == Accounted(s, x)
    ensures Total(Drain(s, now)) == Total(s)
    decreases |s.queue|
  {
    if s.queue != [] && !Holding(s, now) {
      DrainOneBalanced(s, now, x);
      DrainBalanced(DrainOne(s, now), now, x);
    }
  }

  /** Purging frees exactly what was queued and returns every reference. */
  lemma {:induction false} PurgeBalanced(s: Rx, x: Frame)
    requires CountersOk(s)
    ensures CountersOk(PurgeAll(s))
    ensures PurgeAll(s).queue == [] && PurgeAll(s).refs == 0
    ensures TimesFreed(PurgeAll(s).log, x) == TimesFreed(s.log, x) + Waiting(s.queue, x)
    ensures TimesDelivered(PurgeAll(s).log, x) == TimesDelivered(s.log, x)
    ensures Total(PurgeAll(s)) == Total(s)
    decreases |s.queue|
  {
    if s.queue != [] {
      var t := s.(queue := s.queue[1..]);
      FreeCounts(t, s.queue[0], Purged, x);
      LogCounts(s.log, Freed(s.queue[0], Purged), x);
      PurgeBalanced(Free(t, s.queue[0], Purged), x);
    }
  }

  lemma AdmissionBalanced(s: Rx, f: Frame, x: Frame)
    requires s.nr <= s.nrMax && f.ns <= s.nrMax
    ensures var a := DataSeq(s, f);
      && a.state.log == s.log && a.state.refs == s.refs
      && a.state.packets == s.packets && a.state.errors == s.errors
      && a.state.seqDiscards == s.seqDiscards && a.state.cookieDiscards == s.cookieDiscards
      && (a.Queued? ==> |a.state.queue| == |s.queue| + 1 && Waiting(a.state.queue, x) == Waiting(s.queue, x) + One(Bare(f) == x))
      && (a.Discard? ==> a.state.queue == s.queue)
  {
    WaitingInsert(s.queue, f, x);
    WaitingConcat(s.queue, [f], x);
  }

  lemma AcceptBalanced(s: Rx, f: Frame, now: nat, x: Frame)
    requires s.nr <= s.nrMax && CountersOk(s) && InRange(f, s.nrMax)
    ensures CountersOk(Accept(s, f, now))
    ensures Accounted(Accept(s, f, now), x) == Accounted(s, x) + One(Bare(f) == x)
    ensures Total(Accept(s, f, now)) == Total(s) + 1
  {
    var g := Stamp(s, f, now);
    assert Bare(g) == Bare(f);
    if f.hasSeq {
      AdmissionBalanced(TakeRef(s), g, x);
      match DataSeq(TakeRef(s), g)
      case Queued(t) => DrainBalanced(t, now, x);
      case Discard(t, why) => FreeCounts(t, g, why, x);
    } else {
      WaitingConcat(s.queue, [g], x);
      DrainBalanced(Enqueue(TakeRef(s), g), now, x);
    }
  }

  lemma StepBalanced(s: Rx, i: Input, x: Frame)
    requires s.nr <= s.nrMax && CountersOk(s) && Acceptable(i, s.nrMax)
    ensures CountersOk(Step(s, i))
    ensures Accounted(Step(s, i), x) == Accounted(s, x) + One(CarriesFrame(i) && Bare(i.frame) == x)
    ensures Total(Step(s, i)) == Total(s) + One(CarriesFrame(i))
  {
    match i
    case Refused(f, why) => FreeCounts(TakeRef(s), f, why, x);
    case Sequenced(f, now) => AcceptBalanced(s, f, now, x);
    case Plain(f, now) => AcceptBalanced(s, f, now, x);
    case SetTimeout(t) =>
    case Purge => PurgeBalanced(s, x);
  }

  /** Conservation over whole runs: every frame `x` was passed up, freed or is still
      queued exactly as often as it entered; the counters agree, so the frames that
      entered number packets + errors + queue length; and every queued frame holds
      one reference, if the ref and deref callbacks are set throughout. */
  lemma {:induction false} RunsAreBalanced(nrMax: nat, timeout: nat, inputs: seq<Input>, x: Frame)
    requires ValidNrMax(nrMax) && AllAcceptable(inputs, nrMax)
    ensures var s := Run(Init(nrMax, timeout), inputs);
      && Accounted(s, x) == TimesEntered(inputs, x)
      && FramesIn(inputs) == s.packets + s.errors + |s.queue|
      && CountersOk(s)
    decreases |inputs|
  {
    if inputs != [] {
      var n := |inputs| - 1;
      RunsAreBalanced(nrMax, timeout, inputs[..n], x);
      StepBalanced(Run(Init(nrMax, timeout), inputs[..n]), inputs[n], x);
    }
  }

  /** A numbered frame is admitted to the reorder queue behind its turn: one with a larger
      number waits already. */
  ghost predicate ArrivesLate(s: Rx, i: Input)
    requires Wf(s) && Acceptable(i, s.nrMax)
  {
    && i.Sequenced? && s.timeout != 0 && InWindow(s.nr, i.frame.ns, s.nrMax)
    && exists g :: g in s.queue && g.ns > i.frame.ns
  }

  ghost function LateArrivals(s: Rx, inputs: seq<Input>): nat
    requires Wf(s) && AllAcceptable(inputs, s.nrMax)
    decreases |inputs|
  {
    if inputs == [] then 0
    else
      var n := |inputs| - 1;
      LateArrivals(s, inputs[..n]) + One(ArrivesLate(Run(s, inputs[..n]), inputs[n]))
  }

  lemma {:induction false} DrainCountsNone(s: Rx, now: nat)
    ensures Drain(s, now).oosPackets == s.oosPackets
    decreases |s.queue|
  {
    if s.queue != [] && !Holding(s, now) {
      DrainCountsNone(DrainOne(s, now), now);
    }
  }

  lemma {:induction false} PurgeCountsNone(s: Rx)
    ensures PurgeAll(s).oosPackets == s.oosPackets
    decreases |s.queue|
  {
    if s.queue != [] {
      PurgeCountsNone(Free(s.(queue := s.queue[1..]), s.queue[0], Purged));
    }
  }

  lemma InsertedAhead(q: seq<Frame>, ns: nat)
    ensures InsertAt(q, ns) < |q| <==> exists g :: g in q && g.ns > ns
  {
    var i := InsertAt(q, ns);
    if i < |q| {
      assert q[i] in q;
    }
  }

  lemma StepCountsLate(s: Rx, i: Input)
    requires Wf(s) && Acceptable(i, s.nrMax)
    ensures Step(s, i).oosPackets == s.oosPackets + One(ArrivesLate(s, i))
  {
    if i.Purge? {
      PurgeCountsNone(s);
    } else if i.Plain? {
      DrainCountsNone(Enqueue(TakeRef(s), Stamp(s, i.frame, i.now)), i.now);
    } else if i.Sequenced? {
      var g := Stamp(s, i.frame, i.now);
      InsertedAhead(s.queue, g.ns);
      var a := DataSeq(TakeRef(s), g);
      if a.Queued? {
        DrainCountsNone(a.state, i.now);
      }
    }
  }

  /** Over every run, rx_oos_packets counts exactly the frames that were admitted after one
      with a larger number had been queued. */
  lemma {:induction false} RunsCountLateArrivals(s: Rx, inputs: seq<Input>)
    requires Wf(s) && AllAcceptable(inputs, s.nrMax)
    ensures Run(s, inputs).oosPackets == s.oosPackets + LateArrivals(s, inputs)
    decreases |inputs|
  {
    if inputs != [] {
      var n := |inputs| - 1;
      RunsCountLateArrivals(s, inputs[..n]);
      StepCountsLate(Run(s, inputs[..n]), inputs[n]);
    }
  }

  // ---- queue order ---------------------------------------------------------------

  /** Each numbered entry is at least as large as everything ahead of it, including
      the stale numbers of unnumbered frames. */
  ghost predicate Dominating(q: seq<Frame>) {
    forall i, j :: 0 <= i < j < |q| && q[j].hasSeq ==> q[i].ns <= q[j].ns
  }

  lemma InsertDominating(q: seq<Frame>, f: Frame)
    requires Dominating(q) && f.hasSeq
    ensures Dominating(Insert(q, f))
  {
    var at := InsertAt(q, f.ns);
    var r := Insert(q, f);
    forall i, j | 0 <= i < j < |r| && r[j].hasSeq
      ensures r[i].ns <= r[j].ns
    {
      var qi := if i < at then i else i - 1;
      var qj := if j < at then j else j - 1;
      if i != at {
        assert r[i] == q[qi];
      }
      if j != at {
        assert r[j] == q[qj];
        if i == at && at < qj {
          assert q[at].ns <= q[qj].ns;
        }
      }
    }
  }

  /** The queue is ordered, and empty between calls while reordering is off. */
  ghost predicate QueueOrdered(s: Rx) {
    Dominating(s.queue) && (s.timeout == 0 ==> s.queue == [])
  }

  lemma DrainKeepsDominating(s: Rx, now: nat)
    requires Dominating(s.queue)
    ensures Dominating(Drain(s, now).queue)
  {
    DrainEnds(s, now);
    var n :| 0 <= n <= |s.queue| && Drain(s, now).queue == s.queue[n..];
    var r := s.queue[n..];
    assert forall i :: 0 <= i < |r| ==> r[i] == s.queue[n + i];
  }

  /** A frame that is alone in the queue and deliverable leaves it empty. */
  lemma DrainSingle(s: Rx, now: nat)
    requires |s.queue| == 1 && !Holding(s, now)
    ensures Drain(s, now) == DrainOne(s, now) && Drain(s, now).queue == []
  {
  }

  lemma AcceptOrdered(s: Rx, f: Frame, now: nat)
    requires Wf(s) && QueueOrdered(s) && InRange(f, s.nrMax)
    ensures QueueOrdered(Accept(s, f, now))
  {
    AcceptWf(s, f, now);
    var g := Stamp(s, f, now);
    if f.hasSeq {
      match DataSeq(TakeRef(s), g)
      case Queued(t) =>
        if s.timeout != 0 {
          InsertDominating(s.queue, g);
          DrainKeepsDominating(t, now);
        } else {
          DrainSingle(t, now);
        }
      case Discard(t, why) =>
    } else {
      var t := Enqueue(TakeRef(s), g);
      if s.timeout != 0 {
        assert forall i :: 0 <= i < |s.queue| ==> t.queue[i] == s.queue[i];
        DrainKeepsDominating(t, now);
      } else {
        DrainSingle(t, now);
      }
    }
  }

  /** The call leaves the queue ordered, unless it switches reordering off while
      frames wait. */
  lemma StepOrdered(s: Rx, i: Input)
    requires Wf(s) && Acceptable(i, s.nrMax) && QueueOrdered(s)
    ensures QueueOrdered(Step(s, i)) <==> (i == SetTimeout(0) ==> s.queue == [])
  {
    match i
    case Refused(f, why) =>
    case Sequenced(f, now) => AcceptOrdered(s, f, now);
    case Plain(f, now) => AcceptOrdered(s, f, now);
    case SetTimeout(t) =>
    case Purge => PurgeWf(s);
  }

  /** Reordering was switched off only while the queue was empty. */
  ghost predicate SwitchedOffEmpty(nrMax: nat, timeout: nat, inputs: seq<Input>)
    requires ValidNrMax(nrMax) && AllAcceptable(inputs, nrMax)
  {
    forall n {:trigger inputs[n]} :: 0 <= n < |inputs| && inputs[n] == SetTimeout(0) ==>
      Run(Init(nrMax, timeout), inputs[..n]).queue == []
  }

  ghost predicate AlwaysOrdered(nrMax: nat, timeout: nat, inputs: seq<Input>)
    requires ValidNrMax(nrMax) && AllAcceptable(inputs, nrMax)
  {
    forall n {:trigger inputs[..n]} :: 0 <= n <= |inputs| ==> QueueOrdered(Run(Init(nrMax, timeout), inputs[..n]))
  }

  lemma {:induction false} OrderedSoFar(nrMax: nat, timeout: nat, inputs: seq<Input>, n: nat)
    requires ValidNrMax(nrMax) && AllAcceptable(inputs, nrMax) && n <= |inputs|
    requires SwitchedOffEmpty(nrMax, timeout, inputs)
    ensures QueueOrdered(Run(Init(nrMax, timeout), inputs[..n]))
  {
    if n > 0 {
      OrderedSoFar(nrMax, timeout, inputs, n - 1);
      RunOneMore(Init(nrMax, timeout), inputs, n - 1);
      StepOrdered(Run(Init(nrMax, timeout), inputs[..n - 1]), inputs[n - 1]);
    }
  }

  /** Queue order, exactly: with numbered and unnumbered frames interleaved in any way,
      the queue is ordered after every call of a run if and only if reordering was
      switched off only while the queue was empty. */
  lemma QueueOrderedIff(nrMax: nat, timeout: nat, inputs: seq<Input>)
    requires ValidNrMax(nrMax) && AllAcceptable(inputs, nrMax)
    ensures AlwaysOrdered(nrMax, timeout, inputs) <==> SwitchedOffEmpty(nrMax, timeout, inputs)
  {
    if SwitchedOffEmpty(nrMax, timeout, inputs) {
      forall n | 0 <= n <= |inputs|
        ensures QueueOrdered(Run(Init(nrMax, timeout), inputs[..n]))
      {
        OrderedSoFar(nrMax, timeout, inputs, n);
      }
    }
    if AlwaysOrdered(nrMax, timeout, inputs) {
      forall n | 0 <= n < |inputs| && inputs[n] == SetTimeout(0)
        ensures Run(Init(nrMax, timeout), inputs[..n]).queue == []
      {
        RunOneMore(Init(nrMax, timeout), inputs, n);
        assert QueueOrdered(Run(Init(nrMax, timeout), inputs[..n]));
        assert QueueOrdered(Run(Init(nrMax, timeout), inputs[..n + 1]));
        StepOrdered(Run(Init(nrMax, timeout), inputs[..n]), inputs[n]);
      }
    }
  }

  /** Switching reordering off while a frame waits breaks the order: the very frame
      that was missing is appended behind it and waits as well. */
  lemma SwitchingOffBlocks(s: Rx, f: Frame, now: nat)
    requires Wf(s) && Holding(s, now) && s.nr < s.queue[0].ns && f.hasSeq && f.ns == s.nr
    ensures var t := Step(Step(s, SetTimeout(0)), Sequenced(f, now));
      && t.queue == s.queue + [Stamp(s.(timeout := 0), f, now)]
      && t.nr == s.nr && t.log == s.log && !Dominating(t.queue)
  {
    var g := Stamp(s.(timeout := 0), f, now);
    var q := s.queue + [g];
    assert q[0].ns > q[|s.queue|].ns;
  }

  ghost predicate NoTimeoutChange(inputs: seq<Input>) {
    forall i :: i in inputs ==> !i.SetTimeout?
  }

  /** Between calls the head of the queue waits for another number. */
  ghost predicate Blocked(s: Rx) {
    s.queue == [] || (s.queue[0].hasSeq && !s.skip && s.queue[0].ns != s.nr)
  }

  lemma StepBlocked(s: Rx, i: Input)
    requires Wf(s) && Acceptable(i, s.nrMax) && Blocked(s)
    ensures Blocked(Step(s, i))
  {
    match i
    case Refused(f, why) =>
    case Sequenced(f, now) =>
      var a := DataSeq(TakeRef(s), Stamp(s, f, now));
      if a.Queued? {
        DrainEnds(a.state, now);
      }
    case Plain(f, now) => DrainEnds(Enqueue(TakeRef(s), Stamp(s, f, now)), now);
    case SetTimeout(t) =>
    case Purge => PurgeWf(s);
  }

  lemma {:induction false} RunBlocked(nrMax: nat, timeout: nat, inputs: seq<Input>)
    requires ValidNrMax(nrMax) && AllAcceptable(inputs, nrMax)
    ensures Blocked(Run(Init(nrMax, timeout), inputs))
    decreases |inputs|
  {
    if inputs != [] {
      var n := |inputs| - 1;
      RunBlocked(nrMax, timeout, inputs[..n]);
      StepBlocked(Run(Init(nrMax, timeout), inputs[..n]), inputs[n]);
    }
  }

  /** The queue is ordered after every continuation that leaves the timeout alone. */
  ghost predicate StaysDominating(s: Rx)
    requires Wf(s)
  {
    forall more: seq<Input> :: AllAcceptable(more, s.nrMax) && NoTimeoutChange(more) ==> Dominating(Run(s, more).queue)
  }

  lemma {:induction false} OrderedStays(s: Rx, more: seq<Input>)
    requires Wf(s) && QueueOrdered(s) && AllAcceptable(more, s.nrMax) && NoTimeoutChange(more)
    ensures QueueOrdered(Run(s, more))
    decreases |more|
  {
    if more != [] {
      var n := |more| - 1;
      OrderedStays(s, more[..n]);
      assert more[n] in more;
      StepOrdered(Run(s, more[..n]), more[n]);
    }
  }

  lemma TailStays(s: Rx, f: Frame)
    requires Wf(s) && s.timeout == 0 && s.queue != [] && Blocked(s) && (f.hasSeq ==> f.ns == s.nr)
    ensures var g := Stamp(s, f, 0); var t := Accept(s, f, 0);
      t.queue == s.queue + [g] && t.nr == s.nr && t.nrMax == s.nrMax && t.timeout == 0 && Blocked(t)
  {
    var g := Stamp(s, f, 0);
    assert Holding(Enqueue(TakeRef(s), g), 0);
  }

  /** Behind a waiting frame, an unnumbered frame with a large number in its control
      block and then the missing frame end up in this order. */
  lemma Disorder(s: Rx) returns (more: seq<Input>)
    requires Wf(s) && s.timeout == 0 && s.queue != [] && Blocked(s)
    ensures AllAcceptable(more, s.nrMax) && NoTimeoutChange(more) && !Dominating(Run(s, more).queue)
  {
    var f, g := Frame(0, [], false, s.nrMax + 1, 0), Frame(1, [], true, s.nr, 0);
    var a, b := Plain(f, 0), Sequenced(g, 0);
    more := [a, b];
    RunOneMore(s, more, 0);
    RunOneMore(s, more, 1);
    assert more[..0] == [] && more[..2] == more;
    TailStays(s, f);
    var t := Step(s, a);
    StepWf(s, a);
    TailStays(t, g);
    var q, n := Step(t, b).queue, |s.queue|;
    assert q[n].ns == s.nrMax + 1 && q[n + 1].ns == s.nr && q[n + 1].hasSeq;
  }

  /** Order alone, exactly: after reordering is switched off, the queue stays ordered in
      every continuation without a further change of the timeout, if and only if no
      frame waited. */
  lemma SwitchingOffIff(nrMax: nat, timeout: nat, inputs: seq<Input>)
    requires ValidNrMax(nrMax) && AllAcceptable(inputs, nrMax)
    ensures StaysDominating(Step(Run(Init(nrMax, timeout), inputs), SetTimeout(0)))
       <==> Run(Init(nrMax, timeout), inputs).queue == []
  {
    var s := Step(Run(Init(nrMax, timeout), inputs), SetTimeout(0));
    if s.queue == [] {
      forall more: seq<Input> | AllAcceptable(more, s.nrMax) && NoTimeoutChange(more)
        ensures Dominating(Run(s, more).queue)
      {
        OrderedStays(s, more);
      }
    } else {
      RunBlocked(nrMax, timeout, inputs);
      var more := Disorder(s);
    }
  }

  // ---- unnumbered frames are not overtaken -----------------------------------------

  /** Frame ids follow the order of arrival. */
  ghost predicate ArrivalOrder(inputs: seq<Input>) {
    forall i, j :: 0 <= i < j < |inputs| && CarriesFrame(inputs[i]) && CarriesFrame(inputs[j])
                   ==> inputs[i].frame.id < inputs[j].frame.id
  }

  /** Everything behind an unnumbered frame arrived after it. */
  ghost predicate BehindIsLater(q: seq<Frame>) {
    forall i, j :: 0 <= i < j < |q| && !q[i].hasSeq ==> q[i].id < q[j].id
  }

  ghost predicate IdsBelow(s: Rx, bound: nat) {
    && (forall f :: f in s.queue ==> f.id < bound)
    && (forall e :: e in s.log && e.Delivered? ==> e.frame.id < bound)
  }

  /** Whenever an unnumbered frame was passed up, all `n` copies of the earlier
      frame `x` had already left the queue. */
  ghost predicate NotOvertaken(log: seq<Event>, x: Frame, n: nat) {
    forall k {:trigger log[k]} ::
      0 <= k < |log| && log[k].Delivered? && !log[k].frame.hasSeq && x.id < log[k].frame.id
      ==> TimesDelivered(log[..k], x) + TimesFreed(log[..k], x) == n
  }

  ghost predicate FifoOk(s: Rx, x: Frame, n: nat, bound: nat) {
    && CountersOk(s) && Accounted(s, x) == n
    && BehindIsLater(s.queue) && IdsBelow(s, bound) && NotOvertaken(s.log, x, n)
  }

  lemma {:induction false} NotWaiting(q: seq<Frame>, x: Frame)
    requires forall f :: f in q ==> f.id != x.id
    ensures Waiting(q, x) == 0
  {
    if q != [] {
      assert q[0] in q;
      NotWaiting(q[1..], x);
    }
  }

  lemma OvertakenAppend(log: seq<Event>, e: Event, x: Frame, n: nat)
    requires NotOvertaken(log, x, n)
    requires e.Delivered? && !e.frame.hasSeq && x.id < e.frame.id ==> TimesDelivered(log, x) + TimesFreed(log, x) == n
    ensures NotOvertaken(log + [e], x, n)
  {
    var l := log + [e];
    forall k | 0 <= k < |l| && l[k].Delivered? && !l[k].frame.hasSeq && x.id < l[k].frame.id
      ensures TimesDelivered(l[..k], x) + TimesFreed(l[..k], x) == n
    {
      if k < |log| {
        assert l[k] == log[k];
        assert l[..k] == log[..k];
      } else {
        assert l[..k] == log;
      }
    }
  }

  lemma RestBehind(q: seq<Frame>)
    requires BehindIsLater(q) && q != []
    ensures BehindIsLater(q[1..]) && q[0] in q && forall g :: g in q[1..] ==> g in q
  {
    var rest := q[1..];
    assert forall i :: 0 <= i < |rest| ==> rest[i] == q[i + 1];
  }

  lemma DrainOneFifo(s: Rx, now: nat, x: Frame, n: nat, bound: nat)
    requires FifoOk(s, x, n, bound) && s.queue != [] && !Holding(s, now)
    ensures FifoOk(DrainOne(s, now), x, n, bound)
  {
    DrainOneBalanced(s, now, x);
    RestBehind(s.queue);
    var f := s.queue[0];
    if now > f.expires {
      OvertakenAppend(s.log, Freed(f, Expired), x, n);
    } else if f.hasSeq && s.skip {
      OvertakenAppend(s.log, Skipped(s.nr, f.ns), x, n);
      OvertakenAppend(SkipToHead(s).log, Delivered(f), x, n);
    } else {
      if !f.hasSeq && x.id < f.id {
        NotWaiting(s.queue, x);
      }
      OvertakenAppend(s.log, Delivered(f), x, n);
    }
  }

  lemma {:induction false} DrainFifo(s: Rx, now: nat, x: Frame, n: nat, bound: nat)
    requires FifoOk(s, x, n, bound)
    ensures FifoOk(Drain(s, now), x, n, bound)
    decreases |s.queue|
  {
    if s.queue != [] && !Holding(s, now) {
      DrainOneFifo(s, now, x, n, bound);
      DrainFifo(DrainOne(s, now), now, x, n, bound);
    }
  }

  lemma {:induction false} PurgeFifo(s: Rx, x: Frame, n: nat, bound: nat)
    requires FifoOk(s, x, n, bound)
    ensures FifoOk(PurgeAll(s), x, n, bound)
    decreases |s.queue|
  {
    if s.queue != [] {
      var t := s.(queue := s.queue[1..]);
      RestBehind(s.queue);
      FreeCounts(t, s.queue[0], Purged, x);
      OvertakenAppend(s.log, Freed(s.queue[0], Purged), x, n);
      PurgeFifo(Free(t, s.queue[0], Purged), x, n, bound);
    }
  }

  /** A frame newer than everything queued may be put anywhere if it is numbered,
      and at the end if it is not. */
  lemma InsertBehind(q: seq<Frame>, f: Frame, at: nat)
    requires BehindIsLater(q) && at <= |q| && (f.hasSeq || at == |q|)
    requires forall g :: g in q ==> g.id < f.id
    ensures BehindIsLater(q[..at] + [f] + q[at..])
  {
    var r := q[..at] + [f] + q[at..];
    forall i, j | 0 <= i < j < |r| && !r[i].hasSeq
      ensures r[i].id < r[j].id
    {
      assert i != at ==> r[i] == q[if i < at then i else i - 1];
      assert j != at ==> r[j] == q[if j < at then j else j - 1];
    }
  }

  /** The new frame raises the count of `x` only if it is `x`, and then no
      unnumbered frame younger than `x` has been passed up yet. */
  lemma NewFrameNotOvertaken(log: seq<Event>, f: Frame, x: Frame, n: nat)
    requires NotOvertaken(log, x, n)
    requires forall e :: e in log && e.Delivered? ==> e.frame.id < f.id
    ensures NotOvertaken(log, x, n + One(Bare(f) == x))
  {
    forall k | 0 <= k < |log| && log[k].Delivered? && !log[k].frame.hasSeq && x.id < log[k].frame.id
      ensures TimesDelivered(log[..k], x) + TimesFreed(log[..k], x) == n + One(Bare(f) == x)
    {
      assert log[k] in log;
    }
  }

  lemma AdmissionBehind(s: Rx, f: Frame)
    requires s.nr <= s.nrMax && f.hasSeq && f.ns <= s.nrMax && BehindIsLater(s.queue)
    requires forall g :: g in s.queue ==> g.id < f.id
    ensures var t := DataSeq(s, f).state;
      BehindIsLater(t.queue) && forall g :: g in t.queue ==> g.id <= f.id
  {
    var t := DataSeq(s, f).state;
    assert t.queue == s.queue || t.queue == Insert(s.queue, f) || t.queue == s.queue + [f];
    if t.queue == Insert(s.queue, f) {
      InsertedBehind(s.queue, f);
    } else if t.queue == s.queue + [f] {
      TailBehind(s.queue, f);
    }
  }

  lemma InsertedBehind(q: seq<Frame>, f: Frame)
    requires f.hasSeq && BehindIsLater(q) && forall g :: g in q ==> g.id < f.id
    ensures BehindIsLater(Insert(q, f)) && forall g :: g in Insert(q, f) ==> g.id <= f.id
  {
    InsertBehind(q, f, InsertAt(q, f.ns));
    InsertContents(q, f);
  }

  lemma AdmittedFifo(s: Rx, g: Frame, x: Frame, n: nat, bound: nat)
    requires s.nr <= s.nrMax && g.hasSeq && g.ns <= s.nrMax && FifoOk(s, x, n, g.id) && g.id < bound
    requires DataSeq(TakeRef(s), g).Queued?
    ensures FifoOk(DataSeq(TakeRef(s), g).state, x, n + One(Bare(g) == x), bound)
  {
    NewFrameNotOvertaken(s.log, g, x, n);
    AdmissionBalanced(TakeRef(s), g, x);
    AdmissionBehind(TakeRef(s), g);
  }

  lemma DiscardedFifo(s: Rx, g: Frame, x: Frame, n: nat, bound: nat)
    requires s.nr <= s.nrMax && g.hasSeq && g.ns <= s.nrMax && FifoOk(s, x, n, g.id) && g.id < bound
    requires DataSeq(TakeRef(s), g).Discard?
    ensures var a := DataSeq(TakeRef(s), g); FifoOk(Free(a.state, g, a.why), x, n + One(Bare(g) == x), bound)
  {
    NewFrameNotOvertaken(s.log, g, x, n);
    AdmissionBalanced(TakeRef(s), g, x);
    var a := DataSeq(TakeRef(s), g);
    FreeCounts(a.state, g, a.why, x);
    OvertakenAppend(s.log, Freed(g, a.why), x, n + One(Bare(g) == x));
  }

  lemma NumberedFifo(s: Rx, f: Frame, now: nat, x: Frame, n: nat, bound: nat)
    requires s.nr <= s.nrMax && f.hasSeq && f.ns <= s.nrMax && FifoOk(s, x, n, f.id) && f.id < bound
    ensures FifoOk(Accept(s, f, now), x, n + One(Bare(f) == x), bound)
  {
    var g := Stamp(s, f, now);
    assert Bare(g) == Bare(f);
    if DataSeq(TakeRef(s), g).Queued? {
      AdmittedFifo(s, g, x, n, bound);
      DrainFifo(DataSeq(TakeRef(s), g).state, now, x, n + One(Bare(f) == x), bound);
    } else {
      DiscardedFifo(s, g, x, n, bound);
    }
  }

  lemma EnqueuedFifo(s: Rx, g: Frame, x: Frame, n: nat, bound: nat)
    requires FifoOk(s, x, n, g.id) && g.id < bound
    ensures FifoOk(Enqueue(TakeRef(s), g), x, n + One(Bare(g) == x), bound)
  {
    NewFrameNotOvertaken(s.log, g, x, n);
    WaitingConcat(s.queue, [g], x);
    TailBehind(s.queue, g);
  }

  lemma AcceptFifo(s: Rx, f: Frame, now: nat, x: Frame, n: nat, bound: nat)
    requires s.nr <= s.nrMax && InRange(f, s.nrMax) && FifoOk(s, x, n, f.id) && f.id < bound
    ensures FifoOk(Accept(s, f, now), x, n + One(Bare(f) == x), bound)
  {
    if f.hasSeq {
      NumberedFifo(s, f, now, x, n, bound);
    } else {
      var g := Stamp(s, f, now);
      assert Bare(g) == Bare(f);
      EnqueuedFifo(s, g, x, n, bound);
      DrainFifo(Enqueue(TakeRef(s), g), now, x, n + One(Bare(f) == x), bound);
    }
  }

  lemma TailBehind(q: seq<Frame>, f: Frame)
    requires BehindIsLater(q)
    requires forall g :: g in q ==> g.id < f.id
    ensures BehindIsLater(q + [f])
  {
    InsertBehind(q, f, |q|);
    assert q[..|q|] + [f] + q[|q|..] == q + [f];
  }

  lemma StepFifo(s: Rx, i: Input, x: Frame, n: nat, bound: nat)
    requires s.nr <= s.nrMax && Acceptable(i, s.nrMax)
    requires CarriesFrame(i) ==> i.frame.id < bound && FifoOk(s, x, n, i.frame.id)
    requires !CarriesFrame(i) ==> FifoOk(s, x, n, bound)
    ensures FifoOk(Step(s, i), x, n + One(CarriesFrame(i) && Bare(i.frame) == x), bound)
  {
    match i
    case Refused(f, why) =>
      FreeCounts(TakeRef(s), f, why, x);
      NewFrameNotOvertaken(s.log, f, x, n);
      OvertakenAppend(s.log, Freed(f, why), x, n + One(Bare(f) == x));
    case Sequenced(f, now) => AcceptFifo(s, f, now, x, n, bound);
    case Plain(f, now) => AcceptFifo(s, f, now, x, n, bound);
    case SetTimeout(t) =>
    case Purge => PurgeFifo(s, x, n, bound);
  }

  lemma {:induction false} RunsAreFifo(nrMax: nat, timeout: nat, inputs: seq<Input>, x: Frame, bound: nat)
    requires ValidNrMax(nrMax) && AllAcceptable(inputs, nrMax) && ArrivalOrder(inputs)
    requires forall i :: i in inputs && CarriesFrame(i) ==> i.frame.id < bound
    ensures FifoOk(Run(Init(nrMax, timeout), inputs), x, TimesEntered(inputs, x), bound)
    decreases |inputs|
  {
    if inputs != [] {
      var n := |inputs| - 1;
      var prefix := inputs[..n];
      var i := inputs[n];
      assert forall j :: 0 <= j < n ==> prefix[j] == inputs[j];
      RunsAreFifo(nrMax, timeout, prefix, x, if CarriesFrame(i) then i.frame.id else bound);
      assert i in inputs;
      StepFifo(Run(Init(nrMax, timeout), prefix), i, x, TimesEntered(prefix, x), bound);
    }
  }

  /** Over any run, an unnumbered frame is passed up only after every copy of every
      frame that arrived before it has left the queue, passed up or freed. */
  lemma PlainFramesAreNotOvertaken(nrMax: nat, timeout: nat, inputs: seq<Input>, k: nat, x: Frame)
    requires ValidNrMax(nrMax) && AllAcceptable(inputs, nrMax) && ArrivalOrder(inputs)
    requires var log := Run(Init(nrMax, timeout), inputs).log;
      k < |log| && log[k].Delivered? && !log[k].frame.hasSeq && x.id < log[k].frame.id
    ensures var log := Run(Init(nrMax, timeout), inputs).log;
      TimesDelivered(log[..k], x) + TimesFreed(log[..k], x) == TimesEntered(inputs, x)
  {
    var bound := IdBound(inputs);
    RunsAreFifo(nrMax, timeout, inputs, x, bound);
  }

  ghost function IdBound(inputs: seq<Input>): (b: nat)
    ensures forall i :: i in inputs && CarriesFrame(i) ==> i.frame.id < b
  {
    if inputs == [] then 0
    else
      var rest := IdBound(inputs[1..]);
      if CarriesFrame(inputs[0]) && inputs[0].frame.id >= rest then inputs[0].frame.id + 1 else rest
  }
}
