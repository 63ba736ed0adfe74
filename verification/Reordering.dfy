/** Reordering sorts a batch of consecutive frames, whatever the order of arrival:
    exactly when the batch fits the window and does not wrap past nr_max. */
module Reordering {
  import opened SequenceSpace
  import opened Receive
  import opened ReceiveRuns

  /** Frames that carry the numbers that follow `base`, in sending order. */
  ghost predicate IsBatch(batch: seq<Frame>, base: nat, nrMax: nat) {
    && |batch| <= nrMax + 1
    && forall i {:trigger batch[i]} :: 0 <= i < |batch| ==> batch[i].hasSeq && batch[i].ns == Advance(base, i, nrMax)
  }

  /** An order of arrival: every position of the batch once. */
  ghost predicate IsOrder(order: seq<nat>, k: nat) {
    && |order| == k
    && (forall i {:trigger order[i]} :: 0 <= i < k ==> order[i] < k)
    && (forall i, j :: 0 <= i < j < k ==> order[i] != order[j])
  }

  /** Arrival times that keep the first arrival fresh until the last one. */
  ghost predicate InTime(times: seq<nat>, k: nat, timeout: nat) {
    && |times| == k
    && forall i, j :: 0 <= i < k && 0 <= j < k ==> times[j] <= times[i] + timeout
  }

  ghost function Arrivals(batch: seq<Frame>, order: seq<nat>, times: seq<nat>): (inputs: seq<Input>)
    requires IsOrder(order, |batch|) && |times| == |batch|
    ensures |inputs| == |batch|
    ensures forall i {:trigger inputs[i]} :: 0 <= i < |inputs| ==> inputs[i] == Sequenced(batch[order[i]], times[i])
  {
    seq(|batch|, i requires 0 <= i < |batch| => Sequenced(batch[order[i]], times[i]))
  }

  lemma ArrivalsAcceptable(batch: seq<Frame>, order: seq<nat>, times: seq<nat>, base: nat, nrMax: nat)
    requires IsOrder(order, |batch|) && |times| == |batch| && IsBatch(batch, base, nrMax) && base <= nrMax
    ensures AllAcceptable(Arrivals(batch, order, times), nrMax)
  {
    var inputs := Arrivals(batch, order, times);
    forall i | i in inputs
      ensures Acceptable(i, nrMax)
    {
      var j :| 0 <= j < |inputs| && inputs[j] == i;
      AdvanceRange(base, order[j], nrMax);
    }
  }

  ghost predicate Delivers(log: seq<Event>, batch: seq<Frame>, i: nat) {
    i < |log| && i < |batch| && log[i].Delivered? && Bare(log[i].frame) == Bare(batch[i])
  }

  /** `t` came from `s` by passing up the first `c` frames of the batch, in sending
      order, and doing nothing else that the history records. */
  ghost predicate PassedUp(s: Rx, t: Rx, batch: seq<Frame>, c: nat) {
    && c <= |batch|
    && t.nr == Advance(s.nr, c, s.nrMax)
    && |t.log| == |s.log| + c
    && t.log[..|s.log|] == s.log
    && forall i :: 0 <= i < c ==> Delivers(t.log[|s.log|..], batch, i)
  }

  /** Ready to reorder: nothing queued, no skip pending, reordering on. */
  ghost predicate Ready(s: Rx) {
    Wf(s) && s.queue == [] && !s.skip && s.timeout != 0
  }

  /** Every order of arrival ends with the whole batch passed up in sending order
      and nothing left behind. */
  ghost predicate Sorts(s: Rx, batch: seq<Frame>)
    requires Wf(s) && IsBatch(batch, s.nr, s.nrMax)
  {
    forall order: seq<nat>, times: seq<nat> :: IsOrder(order, |batch|) && InTime(times, |batch|, s.timeout) ==>
      (ArrivalsAcceptable(batch, order, times, s.nr, s.nrMax);
       var t := Run(s, Arrivals(batch, order, times));
       t.queue == [] && PassedUp(s, t, batch, |batch|))
  }

  // ---- the batch fits: every order is sorted -------------------------------------

  ghost predicate FitsAhead(s: Rx, batch: seq<Frame>) {
    s.nr + |batch| <= s.nrMax + 1 && |batch| <= WindowSize(s.nrMax)
  }

  /** A queued frame that belongs to the batch, has arrived, is not passed up yet
      and stays fresh until `deadline`. */
  ghost predicate Waits(f: Frame, s: Rx, batch: seq<Frame>, arrived: set<nat>, c: nat, deadline: nat) {
    && s.nr + c <= f.ns < s.nr + |batch|
    && f.ns - s.nr in arrived
    && Bare(f) == Bare(batch[f.ns - s.nr])
    && f.hasSeq && deadline <= f.expires
  }

  predicate StrictlySorted(q: seq<Frame>) {
    forall i, j :: 0 <= i < j < |q| ==> q[i].ns < q[j].ns
  }

  ghost predicate AllWait(q: seq<Frame>, s: Rx, batch: seq<Frame>, arrived: set<nat>, c: nat, deadline: nat) {
    StrictlySorted(q) && forall j {:trigger q[j]} :: 0 <= j < |q| ==> Waits(q[j], s, batch, arrived, c, deadline)
  }

  /** In state `t`, reached from `s`, the first `c` frames have been passed up and
      the queue holds the other frames that arrived, sorted. */
  ghost predicate Partial(s: Rx, t: Rx, batch: seq<Frame>, arrived: set<nat>, c: nat, deadline: nat) {
    && Wf(t) && t.nrMax == s.nrMax && t.timeout == s.timeout && !t.skip
    && PassedUp(s, t, batch, c)
    && (forall i :: 0 <= i < c ==> i in arrived)
    && AllWait(t.queue, s, batch, arrived, c, deadline)
    && c + |t.queue| == |arrived|
  }

  lemma PassUpOne(s: Rx, t: Rx, batch: seq<Frame>, c: nat)
    requires PassedUp(s, t, batch, c) && c < |batch| && t.nrMax == s.nrMax
    requires t.queue != [] && t.queue[0].hasSeq && Bare(t.queue[0]) == Bare(batch[c])
    ensures PassedUp(s, DeliverHead(t), batch, c + 1)
  {
    var u := DeliverHead(t);
    assert u.log[..|s.log|] == t.log[..|s.log|];
    assert u.log[|s.log|..] == t.log[|s.log|..] + [Delivered(t.queue[0])];
    forall i | 0 <= i < c + 1
      ensures Delivers(u.log[|s.log|..], batch, i)
    {
      if i < c {
        assert Delivers(t.log[|s.log|..], batch, i);
      }
    }
  }

  lemma TailWaits(q: seq<Frame>, s: Rx, batch: seq<Frame>, arrived: set<nat>, c: nat, deadline: nat)
    requires AllWait(q, s, batch, arrived, c, deadline) && q != [] && q[0].ns == s.nr + c
    ensures AllWait(q[1..], s, batch, arrived, c + 1, deadline)
  {
    var rest := q[1..];
    forall j | 0 <= j < |rest|
      ensures Waits(rest[j], s, batch, arrived, c + 1, deadline)
    {
      assert rest[j] == q[j + 1];
    }
  }

  lemma DrainOnePartial(s: Rx, t: Rx, batch: seq<Frame>, arrived: set<nat>, c: nat, now: nat, deadline: nat)
    requires Ready(s) && FitsAhead(s, batch)
    requires Partial(s, t, batch, arrived, c, deadline) && now <= deadline
    requires t.queue != [] && !Holding(t, now)
    ensures c < |batch| && Partial(s, DrainOne(t, now), batch, arrived, c + 1, deadline)
  {
    var f := t.queue[0];
    assert Waits(f, s, batch, arrived, c, deadline);
    AdvanceClosed(s.nr, c, s.nrMax);
    assert f.ns == s.nr + c;
    DrainOneWf(t, now);
    PassUpOne(s, t, batch, c);
    TailWaits(t.queue, s, batch, arrived, c, deadline);
  }

  /** Draining keeps the shape. */
  lemma {:induction false} DrainPartial(s: Rx, t: Rx, batch: seq<Frame>, arrived: set<nat>, c: nat, now: nat, deadline: nat)
    returns (d: nat)
    requires Ready(s) && FitsAhead(s, batch)
    requires Partial(s, t, batch, arrived, c, deadline) && now <= deadline
    ensures Partial(s, Drain(t, now), batch, arrived, d, deadline)
    decreases |t.queue|
  {
    if t.queue == [] || Holding(t, now) {
      d := c;
    } else {
      DrainOnePartial(s, t, batch, arrived, c, now, deadline);
      d := DrainPartial(s, DrainOne(t, now), batch, arrived, c + 1, now, deadline);
    }
  }

  lemma InsertSorted(q: seq<Frame>, f: Frame)
    requires StrictlySorted(q) && forall g :: g in q ==> g.ns != f.ns
    ensures StrictlySorted(Insert(q, f))
  {
    var at := InsertAt(q, f.ns);
    var r := Insert(q, f);
    forall i, j | 0 <= i < j < |r|
      ensures r[i].ns < r[j].ns
    {
      assert i != at ==> r[i] == q[if i < at then i else i - 1];
      assert j != at ==> r[j] == q[if j < at then j else j - 1];
    }
  }

  lemma InsertWaits(q: seq<Frame>, f: Frame, s: Rx, batch: seq<Frame>, arrived: set<nat>, c: nat, x: nat, deadline: nat)
    requires AllWait(q, s, batch, arrived, c, deadline) && x !in arrived
    requires f.ns == s.nr + x && Waits(f, s, batch, arrived + {x}, c, deadline)
    ensures AllWait(Insert(q, f), s, batch, arrived + {x}, c, deadline)
  {
    var r := Insert(q, f);
    forall g | g in q
      ensures g.ns != f.ns
    {
      var j :| 0 <= j < |q| && q[j] == g;
      assert Waits(q[j], s, batch, arrived, c, deadline);
    }
    InsertSorted(q, f);
    InsertContents(q, f);
    forall j | 0 <= j < |r|
      ensures Waits(r[j], s, batch, arrived + {x}, c, deadline)
    {
      assert r[j] in r;
      if r[j] in q {
        var i :| 0 <= i < |q| && q[i] == r[j];
        assert Waits(q[i], s, batch, arrived, c, deadline);
      }
    }
  }

  /** One more arrival keeps the shape, and draining passes up what is complete. */
  lemma ArrivalPartial(s: Rx, t: Rx, batch: seq<Frame>, arrived: set<nat>, c: nat, x: nat, now: nat, deadline: nat)
    returns (d: nat)
    requires Ready(s) && IsBatch(batch, s.nr, s.nrMax) && FitsAhead(s, batch)
    requires Partial(s, t, batch, arrived, c, deadline) && now <= deadline <= now + s.timeout
    requires x < |batch| && x !in arrived && batch[x].ns <= s.nrMax
    ensures var u := Step(t, Sequenced(batch[x], now));
      && Partial(s, u, batch, arrived + {x}, d, deadline)
      && (u.queue == [] || u.queue[0].ns != u.nr)
  {
    var g := Stamp(t, batch[x], now);
    AdvanceClosed(s.nr, x, s.nrMax);
    AdvanceClosed(s.nr, c, s.nrMax);
    assert c <= x;
    assert InWindow(t.nr, g.ns, t.nrMax);
    InsertWaits(t.queue, g, s, batch, arrived, c, x, deadline);
    AdmissionWf(TakeRef(t), g);
    var u := DataSeq(TakeRef(t), g).state;
    d := DrainPartial(s, u, batch, arrived + {x}, c, now, deadline);
    DrainEnds(u, now);
  }

  ghost function SeenAfter(order: seq<nat>, n: nat): set<nat>
    requires n <= |order|
  {
    set i | 0 <= i < n :: order[i]
  }

  lemma {:induction false} PrefixPartial(s: Rx, batch: seq<Frame>, order: seq<nat>, times: seq<nat>, n: nat, deadline: nat)
    returns (d: nat)
    requires Ready(s) && IsBatch(batch, s.nr, s.nrMax) && FitsAhead(s, batch)
    requires IsOrder(order, |batch|) && |times| == |batch| && n <= |batch|
    requires forall i {:trigger times[i]} :: 0 <= i < |times| ==> times[i] <= deadline <= times[i] + s.timeout
    requires AllAcceptable(Arrivals(batch, order, times), s.nrMax)
    ensures AllAcceptable(Arrivals(batch, order, times)[..n], s.nrMax)
    ensures var t := Run(s, Arrivals(batch, order, times)[..n]);
      && Partial(s, t, batch, SeenAfter(order, n), d, deadline)
      && (t.queue == [] || t.queue[0].ns != t.nr)
    decreases n
  {
    var inputs := Arrivals(batch, order, times);
    if n == 0 {
      d := StartPartial(s, batch, order, deadline);
    } else {
      var c := PrefixPartial(s, batch, order, times, n - 1, deadline);
      SeenOneMore(order, n);
      RunOneMore(s, inputs, n - 1);
      var t := Run(s, inputs[..n - 1]);
      assert inputs[n - 1] == Sequenced(batch[order[n - 1]], times[n - 1]);
      d := NextPartial(s, t, batch, SeenAfter(order, n - 1), c, order[n - 1], times[n - 1], deadline);
    }
  }

  lemma SeenOneMore(order: seq<nat>, n: nat)
    requires 1 <= n <= |order| && forall i, j :: 0 <= i < j < |order| ==> order[i] != order[j]
    ensures SeenAfter(order, n) == SeenAfter(order, n - 1) + {order[n - 1]} && order[n - 1] !in SeenAfter(order, n - 1)
  {
  }

  lemma NextPartial(s: Rx, t: Rx, batch: seq<Frame>, arrived: set<nat>, c: nat, x: nat, now: nat, deadline: nat)
    returns (d: nat)
    requires Ready(s) && IsBatch(batch, s.nr, s.nrMax) && FitsAhead(s, batch)
    requires Partial(s, t, batch, arrived, c, deadline) && now <= deadline <= now + s.timeout
    requires x < |batch| && x !in arrived && Acceptable(Sequenced(batch[x], now), s.nrMax)
    ensures var u := Step(t, Sequenced(batch[x], now));
      && Partial(s, u, batch, arrived + {x}, d, deadline)
      && (u.queue == [] || u.queue[0].ns != u.nr)
  {
    d := ArrivalPartial(s, t, batch, arrived, c, x, now, deadline);
  }

  lemma StartPartial(s: Rx, batch: seq<Frame>, order: seq<nat>, deadline: nat) returns (d: nat)
    requires Ready(s)
    ensures Partial(s, s, batch, SeenAfter(order, 0), d, deadline)
  {
    d := 0;
    assert s.log[..|s.log|] == s.log;
    assert SeenAfter(order, 0) == {};
  }

  lemma {:induction false} SeenSize(order: seq<nat>, n: nat)
    requires n <= |order| && forall i, j :: 0 <= i < j < |order| ==> order[i] != order[j]
    ensures |SeenAfter(order, n)| == n
  {
    if n > 0 {
      SeenSize(order, n - 1);
      assert SeenAfter(order, n) == SeenAfter(order, n - 1) + {order[n - 1]};
    } else {
      assert SeenAfter(order, n) == {};
    }
  }

  /** A strictly sorted queue is no longer than the range of its numbers. */
  lemma {:induction false} SortedSpan(q: seq<Frame>, lo: nat, hi: nat)
    requires StrictlySorted(q) && lo <= hi && forall j {:trigger q[j]} :: 0 <= j < |q| ==> lo <= q[j].ns < hi
    ensures |q| <= hi - lo
    decreases hi - lo
  {
    if q != [] {
      var rest := q[1..];
      assert forall j :: 0 <= j < |rest| ==> rest[j] == q[j + 1];
      SortedSpan(rest, q[0].ns + 1, hi);
    }
  }

  /** The earliest time plus the timeout. */
  lemma {:induction false} Deadline(times: seq<nat>, k: nat, timeout: nat) returns (deadline: nat)
    requires InTime(times, k, timeout)
    ensures forall i {:trigger times[i]} :: 0 <= i < k ==> times[i] <= deadline <= times[i] + timeout
  {
    if k == 0 {
      deadline := 0;
    } else {
      var least := times[0];
      for j := 0 to k
        invariant exists i :: 0 <= i < k && times[i] == least
        invariant forall i {:trigger times[i]} :: 0 <= i < j ==> least <= times[i]
      {
        if times[j] < least {
          least := times[j];
        }
      }
      deadline := least + timeout;
    }
  }

  lemma FittingBatchIsSorted(s: Rx, batch: seq<Frame>, order: seq<nat>, times: seq<nat>)
    requires Ready(s) && IsBatch(batch, s.nr, s.nrMax) && FitsAhead(s, batch)
    requires IsOrder(order, |batch|) && InTime(times, |batch|, s.timeout)
    requires AllAcceptable(Arrivals(batch, order, times), s.nrMax)
    ensures var t := Run(s, Arrivals(batch, order, times));
      t.queue == [] && PassedUp(s, t, batch, |batch|)
  {
    var k := |batch|;
    var deadline := Deadline(times, k, s.timeout);
    var inputs := Arrivals(batch, order, times);
    assert inputs[..k] == inputs;
    var d := PrefixPartial(s, batch, order, times, k, deadline);
    SeenSize(order, k);
    NothingWaits(s, Run(s, inputs), batch, SeenAfter(order, k), d, deadline);
  }

  /** When the whole batch has arrived, the queue is empty. */
  lemma NothingWaits(s: Rx, t: Rx, batch: seq<Frame>, arrived: set<nat>, c: nat, deadline: nat)
    requires Ready(s) && FitsAhead(s, batch) && Partial(s, t, batch, arrived, c, deadline)
    requires |arrived| == |batch| && (t.queue == [] || t.queue[0].ns != t.nr)
    ensures t.queue == [] && c == |batch|
  {
    AdvanceClosed(s.nr, c, s.nrMax);
    if t.queue != [] {
      assert Waits(t.queue[0], s, batch, arrived, c, deadline);
      LongQueue(t.queue, s, batch, arrived, c, deadline);
      assert false;
    }
  }

  /** A queue of all frames from `c` on starts with frame `c`. */
  lemma LongQueue(q: seq<Frame>, s: Rx, batch: seq<Frame>, arrived: set<nat>, c: nat, deadline: nat)
    requires AllWait(q, s, batch, arrived, c, deadline) && q != [] && c + |q| == |batch|
    ensures q[0].ns == s.nr + c
  {
    assert Waits(q[0], s, batch, arrived, c, deadline);
    forall j | 0 <= j < |q|
      ensures q[0].ns <= q[j].ns < s.nr + |batch|
    {
      assert Waits(q[j], s, batch, arrived, c, deadline);
    }
    SortedSpan(q, q[0].ns, s.nr + |batch|);
  }

  // ---- the batch does not fit: some order is not sorted ----------------------------

  /** The history only grows. */
  lemma {:induction false} DrainGrows(s: Rx, now: nat)
    ensures s.log <= Drain(s, now).log
    decreases |s.queue|
  {
    if s.queue != [] && !Holding(s, now) {
      DrainGrows(DrainOne(s, now), now);
    }
  }

  lemma SequencedGrows(s: Rx, f: Frame, now: nat)
    requires s.nr <= s.nrMax && f.hasSeq && f.ns <= s.nrMax
    ensures s.log <= Step(s, Sequenced(f, now)).log
  {
    match DataSeq(TakeRef(s), Stamp(s, f, now))
    case Queued(t) => DrainGrows(t, now);
    case Discard(t, why) =>
  }

  /** Position `first` arrives first, the others in sending order. */
  ghost function FirstThenRest(k: nat, first: nat): (order: seq<nat>)
    requires first < k
    ensures IsOrder(order, k) && order[0] == first
  {
    seq(k, i requires 0 <= i < k => if i == 0 then first else if i <= first then i - 1 else i)
  }

  /** What keeps an unlucky order from being sorted: the number 0 is at the head
      while a larger number is expected, or the history shows a freed frame. */
  ghost predicate Stuck(s: Rx, t: Rx) {
    || (t.log == s.log && t.nr > 0 && t.queue != [] && t.queue[0].ns == 0 && t.queue[0].hasSeq && !t.skip)
    || (s.log < t.log && t.log[|s.log|].Freed?)
  }

  lemma StuckStaysStuck(s: Rx, t: Rx, f: Frame)
    requires t.nr <= t.nrMax && Stuck(s, t) && t.timeout != 0 && f.hasSeq && f.ns <= t.nrMax
    ensures Stuck(s, Step(t, Sequenced(f, 0)))
  {
    SequencedGrows(t, f, 0);
    var g := Stamp(t, f, 0);
    if t.log == s.log && InWindow(t.nr, f.ns, t.nrMax) {
      var q := Insert(t.queue, g);
      assert q[0] == t.queue[0];
      assert Holding(DataSeq(TakeRef(t), g).state, 0);
    }
  }

  predicate UnluckyStart(s: Rx, f: Frame)
    requires s.nr <= s.nrMax && f.ns <= s.nrMax
  {
    (s.nr > 0 && f.ns == 0) || !InWindow(s.nr, f.ns, s.nrMax)
  }

  lemma UnluckyStartSticks(s: Rx, f: Frame)
    requires Ready(s) && f.hasSeq && f.ns <= s.nrMax && UnluckyStart(s, f)
    ensures Stuck(s, Step(s, Sequenced(f, 0)))
  {
  }

  lemma {:induction false} UnluckyPrefix(s: Rx, inputs: seq<Input>)
    requires Ready(s) && AllAcceptable(inputs, s.nrMax) && inputs != []
    requires forall i :: i in inputs ==> i.Sequenced? && i.now == 0
    requires UnluckyStart(s, inputs[0].frame)
    ensures Stuck(s, Run(s, inputs)) && Run(s, inputs).timeout == s.timeout
    decreases |inputs|
  {
    var n := |inputs| - 1;
    var last := inputs[n];
    assert last in inputs;
    if n == 0 {
      assert inputs[..0] == [];
      UnluckyStartSticks(s, last.frame);
      StepWf(s, last);
    } else {
      UnluckyPrefix(s, inputs[..n]);
      var t := Run(s, inputs[..n]);
      StuckStaysStuck(s, t, last.frame);
      StepWf(t, last);
    }
  }

  /** The first unlucky arrival: a wrapped batch contains the number 0, and a batch
      longer than the window ends outside it. */
  lemma UnluckyFirst(s: Rx, batch: seq<Frame>) returns (first: nat)
    requires Ready(s) && IsBatch(batch, s.nr, s.nrMax) && !FitsAhead(s, batch)
    ensures first < |batch| && batch[first].ns <= s.nrMax && UnluckyStart(s, batch[first])
  {
    first := if s.nr + |batch| > s.nrMax + 1 then s.nrMax + 1 - s.nr else |batch| - 1;
    AdvanceClosed(s.nr, first, s.nrMax);
    DistanceUnique(s.nr, first, s.nrMax);
  }

  lemma UnfittingBatchIsNotSorted(s: Rx, batch: seq<Frame>) returns (order: seq<nat>, times: seq<nat>)
    requires Ready(s) && IsBatch(batch, s.nr, s.nrMax) && !FitsAhead(s, batch)
    ensures IsOrder(order, |batch|) && InTime(times, |batch|, s.timeout)
    ensures AllAcceptable(Arrivals(batch, order, times), s.nrMax)
    ensures !PassedUp(s, Run(s, Arrivals(batch, order, times)), batch, |batch|)
  {
    var first := UnluckyFirst(s, batch);
    order := FirstThenRest(|batch|, first);
    times := seq(|batch|, i => 0);
    ArrivalsAcceptable(batch, order, times, s.nr, s.nrMax);
    var inputs := Arrivals(batch, order, times);
    assert inputs[0] == Sequenced(batch[first], 0);
    UnluckyPrefix(s, inputs);
    var t := Run(s, inputs);
    assert !Delivers(t.log[|s.log|..], batch, 0);
  }

  /** From an empty queue with no skip pending, a batch of consecutive frames is
      passed up whole and in sending order for every order of arrival if and only
      if it is no longer than the window and does not run past nr_max. */
  lemma SortsIffFits(s: Rx, batch: seq<Frame>)
    requires Ready(s) && IsBatch(batch, s.nr, s.nrMax)
    ensures Sorts(s, batch) <==> s.nr + |batch| <= s.nrMax + 1 && |batch| <= WindowSize(s.nrMax)
  {
    if FitsAhead(s, batch) {
      forall order: seq<nat>, times: seq<nat> | IsOrder(order, |batch|) && InTime(times, |batch|, s.timeout)
        ensures AllAcceptable(Arrivals(batch, order, times), s.nrMax)
        ensures var t := Run(s, Arrivals(batch, order, times)); t.queue == [] && PassedUp(s, t, batch, |batch|)
      {
        ArrivalsAcceptable(batch, order, times, s.nr, s.nrMax);
        FittingBatchIsSorted(s, batch, order, times);
      }
    } else {
      var order, times := UnfittingBatchIsNotSorted(s, batch);
    }
  }
}
