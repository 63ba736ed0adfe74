/** Reordering switched off: frames out of sequence are dropped, consecutive ones
    are counted, and enough of them move the expected number. */
module Resync {
  import opened SequenceSpace
  import opened Receive
  import opened ReceiveRuns

  /** A session between two calls while reordering is off. */
  ghost predicate Off(s: Rx) {
    Wf(s) && s.timeout == 0 && s.queue == []
  }

  predicate OutOfSequenceAt(s: Rx, f: Frame)
    requires s.nr <= s.nrMax && f.ns <= s.nrMax
  {
    InWindow(s.nr, f.ns, s.nrMax) && f.ns != s.nr
  }

  ghost predicate JustDelivered(t: Rx, f: Frame) {
    t.log != [] && var e := t.log[|t.log| - 1]; e.Delivered? && Bare(e.frame) == Bare(f)
  }

  ghost predicate JustFreed(t: Rx, f: Frame) {
    t.log != [] && var e := t.log[|t.log| - 1]; e.Freed? && Bare(e.frame) == Bare(f)
  }

  /** One numbered frame while reordering is off: it is passed up or freed at once. */
  lemma OffStep(s: Rx, f: Frame, now: nat)
    requires Off(s) && f.hasSeq && f.ns <= s.nrMax
    ensures var t := Step(s, Sequenced(f, now));
      var noted := NoteOutOfSequence(s, f.ns);
      var passes := InWindow(s.nr, f.ns, s.nrMax) && (f.ns == s.nr || noted.skip);
      && Off(t) && t.nrMax == s.nrMax
      && (passes ==> JustDelivered(t, f) && t.nr == Next(f.ns, s.nrMax) && !t.skip)
      && (!passes ==> JustFreed(t, f) && t.nr == s.nr && t.skip == s.skip)
      && (if OutOfSequenceAt(s, f) then t.oos == noted.oos && t.oosCount == noted.oosCount
          else t.oos == s.oos && t.oosCount == s.oosCount)
  {
    StepWf(s, Sequenced(f, now));
    var g := Stamp(s, f, now);
    match DataSeq(TakeRef(s), g)
    case Queued(t) => DrainSingle(t, now);
    case Discard(t, why) =>
  }

  // ---- the counter counts links ---------------------------------------------------

  /** The numbers that arrived in the window but out of sequence, behind the initial
      value 0 of nr_oos. */
  ghost function OosHistory(nrMax: nat, inputs: seq<Input>): (h: seq<nat>)
    requires ValidNrMax(nrMax) && AllAcceptable(inputs, nrMax)
    ensures |h| >= 1
    decreases |inputs|
  {
    if inputs == [] then [0]
    else
      var n := |inputs| - 1;
      var h := OosHistory(nrMax, inputs[..n]);
      assert Acceptable(inputs[n], nrMax);
      if inputs[n].Sequenced? && OutOfSequenceAt(Run(Init(nrMax, 0), inputs[..n]), inputs[n].frame)
      then h + [inputs[n].frame.ns] else h
  }

  /** The last `n` steps of `h` are single steps around the circle. */
  ghost predicate EndsWithLinks(h: seq<nat>, n: nat, nrMax: nat) {
    n < |h| && forall i {:trigger h[i]} :: |h| - n <= i < |h| ==> h[i] == Next(h[i - 1], nrMax)
  }

  /** `count` is the number of links at the end of `h`, and no more. */
  ghost predicate CountsLinks(h: seq<nat>, count: nat, nrMax: nat) {
    forall n: nat :: n <= count <==> EndsWithLinks(h, n, nrMax)
  }

  lemma CountsOneMore(h: seq<nat>, count: nat, x: nat, nrMax: nat)
    requires h != [] && CountsLinks(h, count, nrMax)
    ensures CountsLinks(h + [x], if x == Next(h[|h| - 1], nrMax) then count + 1 else 0, nrMax)
  {
    var g := h + [x];
    var linked := x == Next(h[|h| - 1], nrMax);
    forall n: nat
      ensures n <= (if linked then count + 1 else 0) <==> EndsWithLinks(g, n, nrMax)
    {
      if n > 0 {
        assert EndsWithLinks(h, n - 1, nrMax) && linked <==> EndsWithLinks(g, n, nrMax) by {
          assert g[|h|] == x && g[|h| - 1] == h[|h| - 1];
          if EndsWithLinks(g, n, nrMax) {
            forall i | |h| - (n - 1) <= i < |h|
              ensures h[i] == Next(h[i - 1], nrMax)
            {
              assert g[i] == h[i] && g[i - 1] == h[i - 1];
            }
          }
        }
        assert n - 1 <= count <==> EndsWithLinks(h, n - 1, nrMax);
      }
    }
  }

  /** In every run with reordering off the queue is empty between calls, nr_oos is
      the last out-of-sequence number, and nr_oos_count is the number of links that
      end the history of out-of-sequence numbers. */
  lemma {:induction false} RunsCountLinks(nrMax: nat, inputs: seq<Input>)
    requires ValidNrMax(nrMax) && AllAcceptable(inputs, nrMax) && NoTimeoutChange(inputs)
    ensures var s := Run(Init(nrMax, 0), inputs); var h := OosHistory(nrMax, inputs);
      Off(s) && s.oos == h[|h| - 1] && CountsLinks(h, s.oosCount, nrMax)
    decreases |inputs|
  {
    if inputs == [] {
      assert CountsLinks([0], 0, nrMax);
    } else {
      var n := |inputs| - 1;
      var i := inputs[n];
      assert i in inputs && Acceptable(i, nrMax);
      RunsCountLinks(nrMax, inputs[..n]);
      StepCountsLinks(Run(Init(nrMax, 0), inputs[..n]), i, OosHistory(nrMax, inputs[..n]));
    }
  }

  lemma StepCountsLinks(s: Rx, i: Input, h: seq<nat>)
    requires Off(s) && Acceptable(i, s.nrMax) && !i.SetTimeout?
    requires h != [] && s.oos == h[|h| - 1] && CountsLinks(h, s.oosCount, s.nrMax)
    ensures var t := Step(s, i);
      var g := if i.Sequenced? && OutOfSequenceAt(s, i.frame) then h + [i.frame.ns] else h;
      Off(t) && t.oos == g[|g| - 1] && CountsLinks(g, t.oosCount, s.nrMax)
  {
    match i
    case Refused(f, why) =>
    case Sequenced(f, now) =>
      OffStep(s, f, now);
      CountsOneMore(h, s.oosCount, f.ns, s.nrMax);
    case Plain(f, now) =>
      var t := Enqueue(TakeRef(s), Stamp(s, f, now));
      AcceptWf(s, f, now);
      DrainSingle(t, now);
      DrainWf(t, now);
    case Purge =>
  }

  // ---- six consecutive frames resynchronise -----------------------------------------

  /** Numbered frames with consecutive numbers, all different. */
  ghost predicate Consecutive(frames: seq<Frame>, nrMax: nat) {
    && (forall i {:trigger frames[i]} :: 0 <= i < |frames| ==> frames[i].hasSeq && frames[i].ns <= nrMax)
    && (forall i {:trigger frames[i]} :: 1 <= i < |frames| ==> frames[i].ns == Next(frames[i - 1].ns, nrMax))
  }

  /** The states passed while the frames arrive one by one. */
  ghost function After(s: Rx, frames: seq<Frame>, times: seq<nat>, n: nat): (t: Rx)
    requires Off(s) && Consecutive(frames, s.nrMax) && |times| == |frames| && n <= |frames|
    ensures Off(t) && t.nrMax == s.nrMax
  {
    if n == 0 then s
    else
      var t := After(s, frames, times, n - 1);
      OffStep(t, frames[n - 1], times[n - 1]);
      Step(t, Sequenced(frames[n - 1], times[n - 1]))
  }

  ghost predicate Synced(t: Rx, f: Frame) {
    JustDelivered(t, f) && t.nr == Next(f.ns, t.nrMax) && !t.skip
  }

  ghost predicate InWindowOnArrival(s: Rx, frames: seq<Frame>, times: seq<nat>)
    requires Off(s) && Consecutive(frames, s.nrMax) && |times| == |frames|
  {
    forall i {:trigger frames[i]} :: 0 <= i < |frames| ==>
      InWindow(After(s, frames, times, i).nr, frames[i].ns, s.nrMax)
  }

  lemma {:induction false} SyncedOrCounting(s: Rx, frames: seq<Frame>, times: seq<nat>, n: nat)
    requires Off(s) && Consecutive(frames, s.nrMax) && |times| == |frames| && 1 <= n <= |frames|
    requires InWindowOnArrival(s, frames, times)
    ensures var t := After(s, frames, times, n);
      || Synced(t, frames[n - 1])
      || (t.oos == frames[n - 1].ns && n - 1 <= t.oosCount <= OOS_COUNT_MAX)
  {
    var t := After(s, frames, times, n - 1);
    var f := frames[n - 1];
    OffStep(t, f, times[n - 1]);
    assert InWindow(t.nr, f.ns, s.nrMax);
    if n > 1 {
      SyncedOrCounting(s, frames, times, n - 1);
    }
  }

  /** From any state with reordering off, six consecutive frames that are in the
      window as they arrive leave the last one passed up and nr one past it. */
  lemma SixResynchronise(s: Rx, frames: seq<Frame>, times: seq<nat>)
    requires Off(s) && |frames| == 6 && |times| == 6 && Consecutive(frames, s.nrMax)
    requires InWindowOnArrival(s, frames, times)
    ensures Synced(After(s, frames, times, 6), frames[5])
  {
    SyncedOrCounting(s, frames, times, 6);
  }

  /** While nothing is passed up, the frames move one step further from nr each. */
  lemma {:induction false} SyncedOrAhead(s: Rx, frames: seq<Frame>, times: seq<nat>, n: nat)
    requires Off(s) && Consecutive(frames, s.nrMax) && |times| == |frames| && 1 <= n <= |frames|
    requires Distance(s.nr, frames[0].ns, s.nrMax) + |frames| <= WindowSize(s.nrMax)
    ensures var t := After(s, frames, times, n);
      || Synced(t, frames[n - 1])
      || (t.nr == s.nr && Distance(s.nr, frames[n - 1].ns, s.nrMax) == Distance(s.nr, frames[0].ns, s.nrMax) + n - 1)
  {
    var t := After(s, frames, times, n - 1);
    if n > 1 {
      SyncedOrAhead(s, frames, times, n - 1);
      AheadStep(s, t, frames[n - 2], frames[n - 1], times[n - 1], Distance(s.nr, frames[0].ns, s.nrMax) + n - 2);
    } else {
      OffStep(s, frames[0], times[0]);
    }
  }

  /** The frame behind `before`, which was passed up last or lies `d` ahead of nr. */
  lemma AheadStep(s: Rx, t: Rx, before: Frame, f: Frame, now: nat, d: nat)
    requires Wf(s) && Off(t) && t.nrMax == s.nrMax && before.ns <= s.nrMax && f.hasSeq && f.ns == Next(before.ns, s.nrMax)
    requires d + 1 < WindowSize(s.nrMax)
    requires Synced(t, before) || (t.nr == s.nr && Distance(s.nr, before.ns, s.nrMax) == d)
    ensures var u := Step(t, Sequenced(f, now));
      Synced(u, f) || (u.nr == s.nr && Distance(s.nr, f.ns, s.nrMax) == d + 1)
  {
    OffStep(t, f, now);
    if !Synced(t, before) {
      FurtherAhead(s.nr, before.ns, s.nrMax);
    }
  }

  lemma FurtherAhead(nr: nat, ns: nat, nrMax: nat)
    requires nr <= nrMax && ns <= nrMax && Distance(nr, ns, nrMax) < nrMax
    ensures Distance(nr, Next(ns, nrMax), nrMax) == Distance(nr, ns, nrMax) + 1
  {
  }

  /** The same, checked before the first frame arrives: the first number is at least
      six short of the end of the window. */
  lemma SixAheadResynchronise(s: Rx, frames: seq<Frame>, times: seq<nat>)
    requires Off(s) && |frames| == 6 && |times| == 6 && Consecutive(frames, s.nrMax)
    requires Distance(s.nr, frames[0].ns, s.nrMax) + 6 <= WindowSize(s.nrMax)
    ensures Synced(After(s, frames, times, 6), frames[5])
  {
    forall i | 0 <= i < 6
      ensures InWindow(After(s, frames, times, i).nr, frames[i].ns, s.nrMax)
    {
      if i > 0 {
        SyncedOrAhead(s, frames, times, i);
      }
    }
    SixResynchronise(s, frames, times);
  }

  /** Five are not enough: with no skip pending, five consecutive frames that start
      ahead of nr and do not continue the counted history are all freed. */
  lemma {:induction false} FiveAreFreed(s: Rx, frames: seq<Frame>, times: seq<nat>, n: nat)
    requires Off(s) && !s.skip && |frames| == 5 && |times| == 5 && Consecutive(frames, s.nrMax) && 1 <= n <= 5
    requires frames[0].ns != s.nr && frames[0].ns != Next(s.oos, s.nrMax)
    requires Distance(s.nr, frames[0].ns, s.nrMax) + 5 <= WindowSize(s.nrMax)
    ensures var t := After(s, frames, times, n);
      && t.nr == s.nr && !t.skip && JustFreed(t, frames[n - 1])
      && t.oos == frames[n - 1].ns && t.oosCount == n - 1
      && Distance(s.nr, frames[n - 1].ns, s.nrMax) == Distance(s.nr, frames[0].ns, s.nrMax) + n - 1
  {
    var t := After(s, frames, times, n - 1);
    if n > 1 {
      FiveAreFreed(s, frames, times, n - 1);
      FurtherAhead(s.nr, frames[n - 2].ns, s.nrMax);
    }
    CountedAndFreed(t, frames[n - 1], times[n - 1], n - 1);
  }

  /** One frame ahead of nr that raises the counter to `count`, no more than 4. */
  lemma CountedAndFreed(t: Rx, f: Frame, now: nat, count: nat)
    requires Off(t) && !t.skip && f.hasSeq && f.ns <= t.nrMax && f.ns != t.nr && InWindow(t.nr, f.ns, t.nrMax)
    requires count == (if f.ns == Next(t.oos, t.nrMax) then t.oosCount + 1 else 0) && count <= OOS_COUNT_MAX
    ensures var u := Step(t, Sequenced(f, now));
      u.nr == t.nr && !u.skip && JustFreed(u, f) && u.oos == f.ns && u.oosCount == count
  {
    OffStep(t, f, now);
  }

  // ---- the first frame of a session ---------------------------------------------------

  /** A new session starts with a skip pending, so that the first frame may set nr. It
      does so, with reordering on or off, if and only if its number lies in the window
      that starts at 0; a sender that starts in the other half is refused. */
  lemma FirstFrameTakenIff(nrMax: nat, timeout: nat, f: Frame, now: nat)
    requires ValidNrMax(nrMax) && f.hasSeq && f.ns <= nrMax
    ensures var t := Step(Init(nrMax, timeout), Sequenced(f, now));
      && (f.ns < WindowSize(nrMax) <==> JustDelivered(t, f) && t.nr == Next(f.ns, nrMax))
      && (f.ns >= WindowSize(nrMax) ==> JustFreed(t, f) && t.nr == 0)
  {
    var s := Init(nrMax, timeout);
    match DataSeq(TakeRef(s), Stamp(s, f, now))
    case Queued(t) =>
      assert t.queue == [Stamp(s, f, now)];
      DrainSingle(t, now);
    case Discard(t, why) =>
  }
}
