/** Two endpoints and a network that may lose, reorder and duplicate frames: what
    the receiver passes up between two skips is a contiguous piece of what was sent. */
module EndToEnd {
  import opened Common
  import opened Bytes
  import opened SequenceSpace
  import opened Receive
  import opened ReceiveRuns
  import opened Header
  import opened RoundTrip
  import opened SessionState

  /** The sender, the receiver, every frame ever put on the wire, the payloads in
      sending order, and for every buffer that the network handed over the position of
      its frame in that order. */
  datatype World = World(
    sender: Sess,
    receiver: Sess,
    wires: seq<seq<Byte>>,
    sent: seq<seq<Byte>>,
    origins: seq<nat>)

  /** The sender builds a frame; the network hands over any frame sent so far, any
      number of times and in any order, each time in a buffer of its own; the
      receiver's timeout changes or its queue is purged. A frame that is never handed
      over is lost. */
  datatype Act =
    | SendFrame(junk: seq<Byte>, payload: seq<Byte>)
    | HandOver(k: nat, stale: nat, beyond: nat -> Byte, now: nat)
    | ChangeTimeout(timeout: nat)
    | PurgeQueue

  ghost predicate Enabled(w: World, a: Act) {
    match a
    case SendFrame(junk, payload) => |junk| == HeaderBytes(w.sender.cfg, w.sender.sendSeq)
    case HandOver(k, _, _, _) => k < |w.wires|
    case ChangeTimeout(_) => true
    case PurgeQueue => true
  }

  /** Both ends are set up for each other and the sender numbers its frames. */
  ghost predicate Connected(s: Config, r: Config) {
    ValidConfig(s) && ValidConfig(r) && Mirrored(s, r) && IdFits(s) && Faithful(s) && CarriesSeq(s)
  }

  ghost function Start(s: Config, r: Config, recvSeq: bool, lnsMode: bool, timeout: nat): World {
    World(Create(s, true, false, true, 0), Create(r, false, recvSeq, lnsMode, timeout), [], [], [])
  }

  ghost predicate Runnable(w: World) {
    && SessOk(w.sender) && SessOk(w.receiver) && w.sender.sendSeq
    && Connected(w.sender.cfg, w.receiver.cfg)
  }

  ghost function ReceiverOp(w: World, a: Act): Op
    requires Enabled(w, a) && !a.SendFrame?
  {
    match a
    case HandOver(k, stale, beyond, now) => Arrival(w.receiver.cfg.encap, Skb(|w.origins|, w.wires[k], stale), beyond, now)
    case ChangeTimeout(t) => Change(None, None, None, Some(t))
    case PurgeQueue => QueuePurge
  }

  ghost function Do(w: World, a: Act): World
    requires Runnable(w) && Enabled(w, a)
  {
    match a
    case SendFrame(junk, payload) =>
      RoomForFrame(w.sender.cfg, junk, payload);
      w.(sender := AfterBuild(w.sender),
         wires := w.wires + [Wire(w.sender.cfg, true, w.sender.ns, junk, payload)],
         sent := w.sent + [payload])
    case HandOver(k, _, _, _) =>
      w.(receiver := Apply(w.receiver, ReceiverOp(w, a)), origins := w.origins + [k])
    case _ =>
      w.(receiver := Apply(w.receiver, ReceiverOp(w, a)))
  }

  lemma RoomForFrame(c: Config, junk: seq<Byte>, payload: seq<Byte>)
    requires ValidConfig(c) && Faithful(c) && CarriesSeq(c) && |junk| == HeaderBytes(c, true)
    ensures HasRoom(c, true, |junk| + |Body(c, payload)|) && LongEnough(c, true, payload)
  {
  }

  // ---- the frames that the receiver holds ------------------------------------------------

  /** The buffer `f` carries the frame that its origin names, under that frame's number,
      which repeats after nr_max + 1 frames. */
  ghost predicate Matches(f: Frame, origins: seq<nat>, sent: seq<seq<int>>, nrMax: nat) {
    && f.hasSeq && f.id < |origins| && origins[f.id] < |sent|
    && f.ns == NumberOf(origins[f.id], nrMax) && f.payload == sent[origins[f.id]]
  }

  ghost predicate Genuine(e: Event, origins: seq<nat>, sent: seq<seq<int>>, nrMax: nat) {
    e.Delivered? ==> Matches(e.frame, origins, sent, nrMax)
  }

  /** Everything queued or passed up was sent. */
  ghost predicate Owns(s: Rx, origins: seq<nat>, sent: seq<seq<int>>) {
    && (forall f :: f in s.queue ==> Matches(f, origins, sent, s.nrMax))
    && (forall e :: e in s.log ==> Genuine(e, origins, sent, s.nrMax))
  }

  lemma DrainOneOwns(s: Rx, now: nat, origins: seq<nat>, sent: seq<seq<int>>)
    requires Owns(s, origins, sent) && s.queue != [] && !Holding(s, now)
    ensures Owns(DrainOne(s, now), origins, sent)
  {
    var t := DrainOne(s, now);
    assert s.queue[0] in s.queue;
    assert forall f :: f in t.queue ==> f in s.queue;
    forall e | e in t.log
      ensures Genuine(e, origins, sent, t.nrMax)
    {
      assert e in s.log || !e.Delivered? || e.frame == s.queue[0];
    }
  }

  lemma {:induction false} PurgeOwns(s: Rx, origins: seq<nat>, sent: seq<seq<int>>)
    requires Owns(s, origins, sent)
    ensures Owns(PurgeAll(s), origins, sent)
    decreases |s.queue|
  {
    if s.queue != [] {
      assert forall f :: f in s.queue[1..] ==> f in s.queue;
      PurgeOwns(Free(s.(queue := s.queue[1..]), s.queue[0], Purged), origins, sent);
    }
  }

  lemma OwnsMore(s: Rx, origins: seq<nat>, sent: seq<seq<int>>, origins': seq<nat>, sent': seq<seq<int>>)
    requires Owns(s, origins, sent) && origins <= origins' && sent <= sent'
    ensures Owns(s, origins', sent')
  {
    forall f | f in s.queue
      ensures Matches(f, origins', sent', s.nrMax)
    {
      assert Matches(f, origins, sent, s.nrMax);
    }
    forall e | e in s.log
      ensures Genuine(e, origins', sent', s.nrMax)
    {
      assert Genuine(e, origins, sent, s.nrMax);
    }
  }

  // ---- successive deliveries ----------------------------------------------------------------

  /** The buffer passed up last, unless a skip followed it. */
  ghost function Latest(log: seq<Event>): Option<nat> {
    if log == [] then None
    else
      match log[|log| - 1]
      case Delivered(f) => Some(f.id)
      case Skipped(_, _) => None
      case Freed(_, _) => Latest(log[..|log| - 1])
  }

  ghost predicate Follows(id: nat, before: Option<nat>, origins: seq<nat>) {
    before.Some? ==> id < |origins| && before.value < |origins| && origins[id] == origins[before.value] + 1
  }

  /** Every frame passed up was sent right behind the one passed up before it, apart from
      skips. */
  ghost predicate Successive(log: seq<Event>, origins: seq<nat>) {
    forall j {:trigger log[j]} :: 0 <= j < |log| && log[j].Delivered? ==> Follows(log[j].frame.id, Latest(log[..j]), origins)
  }

  lemma SuccessiveSnoc(log: seq<Event>, e: Event, origins: seq<nat>)
    requires Successive(log, origins) && (e.Delivered? ==> Follows(e.frame.id, Latest(log), origins))
    ensures Successive(log + [e], origins)
    ensures Latest(log + [e]) == if e.Delivered? then Some(e.frame.id) else if e.Skipped? then None else Latest(log)
  {
    var l := log + [e];
    assert l[..|log|] == log;
    forall j | 0 <= j < |l| && l[j].Delivered?
      ensures Follows(l[j].frame.id, Latest(l[..j]), origins)
    {
      if j < |log| {
        assert l[..j] == log[..j] && l[j] == log[j];
      }
    }
  }

  lemma SuccessiveMore(log: seq<Event>, origins: seq<nat>, origins': seq<nat>)
    requires Successive(log, origins) && origins <= origins'
    ensures Successive(log, origins')
  {
    forall j | 0 <= j < |log| && log[j].Delivered?
      ensures Follows(log[j].frame.id, Latest(log[..j]), origins')
    {
      assert Follows(log[j].frame.id, Latest(log[..j]), origins);
    }
  }

  /** The next expected number is that of the frame behind the one passed up last. */
  ghost predicate InStep(s: Rx, origins: seq<nat>) {
    && Successive(s.log, origins)
    && (Latest(s.log).Some? ==>
          Latest(s.log).value < |origins| && s.nr == NumberOf(origins[Latest(s.log).value] + 1, s.nrMax))
  }

  /** One of the last nr_max frames sent, when `n` have been sent. */
  predicate Recent(k: nat, n: nat, nrMax: nat) {
    k < n <= k + nrMax
  }

  ghost predicate RecentBuffer(id: nat, origins: seq<nat>, n: nat, nrMax: nat) {
    id < |origins| && Recent(origins[id], n, nrMax)
  }

  /** All frames that wait, and the one passed up last if the next one has to follow it,
      are among the last nr_max frames sent. */
  ghost predicate UpToDate(s: Rx, origins: seq<nat>, n: nat) {
    && (forall f :: f in s.queue ==> RecentBuffer(f.id, origins, n, s.nrMax))
    && (!s.skip && Latest(s.log).Some? ==> RecentBuffer(Latest(s.log).value, origins, n, s.nrMax))
  }

  /** Among recent frames a number names one frame only. */
  lemma RecentUnique(k: nat, j: nat, n: nat, nrMax: nat)
    requires Recent(k, n, nrMax) && Recent(j, n, nrMax) && NumberOf(k, nrMax) == NumberOf(j + 1, nrMax)
    ensures k == j + 1
  {
    if k > j + 1 {
      NumbersDiffer(j + 1, k, nrMax);
    } else if k < j + 1 {
      NumbersDiffer(k, j + 1, nrMax);
    }
  }

  /** The head carries the frame behind the one passed up last. */
  lemma HeadFollows(s: Rx, f: Frame, origins: seq<nat>, sent: seq<seq<int>>, n: nat)
    requires InStep(s, origins) && UpToDate(s, origins, n) && !s.skip
    requires f in s.queue && Matches(f, origins, sent, s.nrMax) && f.ns == s.nr
    ensures Follows(f.id, Latest(s.log), origins)
  {
    if Latest(s.log).Some? {
      RecentUnique(origins[f.id], origins[Latest(s.log).value], n, s.nrMax);
    }
  }

  lemma PassUpInStep(s: Rx, origins: seq<nat>, sent: seq<seq<int>>, n: nat)
    requires InStep(s, origins) && UpToDate(s, origins, n) && !s.skip
    requires s.queue != [] && Matches(s.queue[0], origins, sent, s.nrMax) && s.queue[0].ns == s.nr
    ensures InStep(DeliverHead(s), origins) && UpToDate(DeliverHead(s), origins, n)
  {
    var f := s.queue[0];
    HeadFollows(s, f, origins, sent, n);
    SuccessiveSnoc(s.log, Delivered(f), origins);
    NumberNext(origins[f.id], s.nrMax);
    assert forall g :: g in s.queue[1..] ==> g in s.queue;
  }

  lemma SkipInStep(s: Rx, origins: seq<nat>, n: nat)
    requires InStep(s, origins) && UpToDate(s, origins, n) && s.queue != []
    ensures InStep(SkipToHead(s), origins) && UpToDate(SkipToHead(s), origins, n)
  {
    SuccessiveSnoc(s.log, Skipped(s.nr, s.queue[0].ns), origins);
  }

  lemma ExpireInStep(s: Rx, origins: seq<nat>, n: nat)
    requires InStep(s, origins) && UpToDate(s, origins, n) && s.queue != []
    ensures InStep(ExpireHead(s), origins) && UpToDate(ExpireHead(s), origins, n)
  {
    SuccessiveSnoc(s.log, Freed(s.queue[0], Expired), origins);
    assert forall g :: g in s.queue[1..] ==> g in s.queue;
  }

  lemma DrainOneInStep(s: Rx, now: nat, origins: seq<nat>, sent: seq<seq<int>>, n: nat)
    requires InStep(s, origins) && UpToDate(s, origins, n) && Owns(s, origins, sent)
    requires s.queue != [] && !Holding(s, now)
    ensures InStep(DrainOne(s, now), origins) && UpToDate(DrainOne(s, now), origins, n)
  {
    assert s.queue[0] in s.queue;
    assert Matches(s.queue[0], origins, sent, s.nrMax);
    if now > s.queue[0].expires {
      ExpireInStep(s, origins, n);
    } else if s.skip {
      SkipInStep(s, origins, n);
      PassUpInStep(SkipToHead(s), origins, sent, n);
    } else {
      PassUpInStep(s, origins, sent, n);
    }
  }

  lemma {:induction false} DrainOwns(s: Rx, now: nat, origins: seq<nat>, sent: seq<seq<int>>)
    requires Owns(s, origins, sent)
    ensures Owns(Drain(s, now), origins, sent)
    decreases |s.queue|
  {
    if s.queue != [] && !Holding(s, now) {
      DrainOneOwns(s, now, origins, sent);
      DrainOwns(DrainOne(s, now), now, origins, sent);
    }
  }

  lemma {:induction false} DrainInStep(s: Rx, now: nat, origins: seq<nat>, sent: seq<seq<int>>, n: nat)
    requires InStep(s, origins) && UpToDate(s, origins, n) && Owns(s, origins, sent)
    ensures InStep(Drain(s, now), origins)
    decreases |s.queue|
  {
    if s.queue != [] && !Holding(s, now) {
      DrainOneInStep(s, now, origins, sent, n);
      DrainOneOwns(s, now, origins, sent);
      DrainInStep(DrainOne(s, now), now, origins, sent, n);
    }
  }

  /** Admission puts at most the new frame into the queue and may leave a skip pending. */
  lemma AdmissionAdds(s: Rx, g: Frame)
    requires s.nr <= s.nrMax && g.ns <= s.nrMax
    ensures var t := DataSeq(s, g).state;
      && t.log == s.log && t.nr == s.nr && t.nrMax == s.nrMax && (s.skip ==> t.skip)
      && (forall f :: f in t.queue ==> f in s.queue || f == g)
  {
    InsertContents(s.queue, g);
  }

  lemma ArrivalOwns(s: Rx, f: Frame, now: nat, origins: seq<nat>, sent: seq<seq<int>>)
    requires Wf(s) && f.ns <= s.nrMax && Owns(s, origins, sent) && Matches(f, origins, sent, s.nrMax)
    ensures Owns(Step(s, Sequenced(f, now)), origins, sent)
  {
    var g := Stamp(s, f, now);
    AdmissionAdds(TakeRef(s), g);
    match DataSeq(TakeRef(s), g)
    case Queued(t) => DrainOwns(t, now, origins, sent);
    case Discard(t, why) =>
  }

  lemma ArrivalInStep(s: Rx, f: Frame, now: nat, origins: seq<nat>, sent: seq<seq<int>>, n: nat)
    requires Wf(s) && f.ns <= s.nrMax && Owns(s, origins, sent) && Matches(f, origins, sent, s.nrMax)
    requires InStep(s, origins) && UpToDate(s, origins, n) && RecentBuffer(f.id, origins, n, s.nrMax)
    ensures InStep(Step(s, Sequenced(f, now)), origins)
  {
    var g := Stamp(s, f, now);
    AdmissionAdds(TakeRef(s), g);
    match DataSeq(TakeRef(s), g)
    case Queued(t) => DrainInStep(t, now, origins, sent, n);
    case Discard(t, why) => SuccessiveSnoc(s.log, Freed(g, why), origins);
  }

  lemma {:induction false} PurgeInStep(s: Rx, origins: seq<nat>)
    requires InStep(s, origins)
    ensures InStep(PurgeAll(s), origins)
    decreases |s.queue|
  {
    if s.queue != [] {
      SuccessiveSnoc(s.log, Freed(s.queue[0], Purged), origins);
      PurgeInStep(Free(s.(queue := s.queue[1..]), s.queue[0], Purged), origins);
    }
  }

  // ---- what every step keeps --------------------------------------------------------------------

  ghost function NrMax(w: World): nat {
    NrMaxOf(w.receiver.cfg.version)
  }

  /** Frame `k` on the wire reads back as its number with payload `k`. */
  ghost predicate Readable(w: World, k: nat) {
    k < |w.wires| && k < |w.sent| &&
    forall beyond: nat -> Byte ::
      Recovers(w.sender.cfg, w.receiver.cfg, true, NumberOf(k, NrMax(w)), w.wires[k], w.sent[k], beyond)
  }

  ghost predicate WorldOk(w: World) {
    && Runnable(w)
    && |w.wires| == |w.sent| && w.sender.ns == NumberOf(|w.sent|, NrMax(w))
    && (forall k :: 0 <= k < |w.wires| ==> Readable(w, k))
    && Owns(w.receiver.rx, w.origins, w.sent)
  }

  lemma SendReadable(w: World, junk: seq<Byte>, payload: seq<Byte>)
    requires WorldOk(w) && Enabled(w, SendFrame(junk, payload))
    ensures Readable(Do(w, SendFrame(junk, payload)), |w.sent|)
  {
    var t := Do(w, SendFrame(junk, payload));
    var n := |w.sent|;
    RoomForFrame(w.sender.cfg, junk, payload);
    RoundTripIff(w.sender.cfg, w.receiver.cfg);
    forall beyond: nat -> Byte
      ensures Recovers(t.sender.cfg, t.receiver.cfg, true, NumberOf(n, NrMax(t)), t.wires[n], t.sent[n], beyond)
    {
      assert FrameRecovers(w.sender.cfg, w.receiver.cfg, true, w.sender.ns, junk, payload, beyond);
    }
  }

  lemma SendKeeps(w: World, junk: seq<Byte>, payload: seq<Byte>)
    requires WorldOk(w) && Enabled(w, SendFrame(junk, payload))
    ensures WorldOk(Do(w, SendFrame(junk, payload)))
  {
    var t := Do(w, SendFrame(junk, payload));
    SendReadable(w, junk, payload);
    forall k | 0 <= k < |t.wires|
      ensures Readable(t, k)
    {
      if k < |w.wires| {
        assert Readable(w, k);
      }
    }
    NumberNext(|w.sent|, NrMax(w));
    OwnsMore(w.receiver.rx, w.origins, w.sent, w.origins, t.sent);
  }

  /** What the receiver makes of a frame that is handed over. */
  ghost function Arriving(w: World, k: nat): Frame
    requires k < |w.sent|
  {
    Frame(|w.origins|, w.sent[k], true, NumberOf(k, NrMax(w)), 0)
  }

  lemma HandOverInput(w: World, a: Act)
    requires WorldOk(w) && Enabled(w, a) && a.HandOver?
    ensures InputsOf(w.receiver, ReceiverOp(w, a)) == [Sequenced(Arriving(w, a.k), a.now)]
    ensures Arriving(w, a.k).ns <= NrMax(w) && Matches(Arriving(w, a.k), w.origins + [a.k], w.sent, NrMax(w))
    ensures Do(w, a).receiver.rx == Step(w.receiver.rx, Sequenced(Arriving(w, a.k), a.now))
  {
    assert Readable(w, a.k);
    assert Recovers(w.sender.cfg, w.receiver.cfg, true, NumberOf(a.k, NrMax(w)), w.wires[a.k], w.sent[a.k], a.beyond);
    ApplyOk(w.receiver, ReceiverOp(w, a));
  }

  lemma ReceiverKeeps(w: World, a: Act)
    requires WorldOk(w) && Enabled(w, a) && !a.SendFrame?
    ensures WorldOk(Do(w, a))
  {
    var t := Do(w, a);
    ApplyOk(w.receiver, ReceiverOp(w, a));
    forall k | 0 <= k < |t.wires|
      ensures Readable(t, k)
    {
      assert Readable(w, k);
    }
    OwnsMore(w.receiver.rx, w.origins, w.sent, t.origins, w.sent);
    match a
    case HandOver(k, _, _, now) =>
      HandOverInput(w, a);
      ArrivalOwns(w.receiver.rx, Arriving(w, k), now, t.origins, w.sent);
    case ChangeTimeout(_) =>
    case PurgeQueue => PurgeOwns(w.receiver.rx, w.origins, w.sent);
  }

  /** A run of actions, each enabled when its turn comes. */
  ghost predicate IsRun(worlds: seq<World>, acts: seq<Act>) {
    && |worlds| == |acts| + 1
    && forall n {:trigger acts[n]} :: 0 <= n < |acts| ==>
         Runnable(worlds[n]) && Enabled(worlds[n], acts[n]) && worlds[n + 1] == Do(worlds[n], acts[n])
  }

  lemma DoKeeps(w: World, a: Act)
    requires WorldOk(w) && Enabled(w, a)
    ensures WorldOk(Do(w, a))
  {
    if a.SendFrame? {
      SendKeeps(w, a.junk, a.payload);
    } else {
      ReceiverKeeps(w, a);
    }
  }

  lemma {:induction false} RunKeeps(worlds: seq<World>, acts: seq<Act>, n: nat)
    requires IsRun(worlds, acts) && WorldOk(worlds[0]) && n < |worlds|
    ensures WorldOk(worlds[n])
  {
    if n > 0 {
      RunKeeps(worlds, acts, n - 1);
      DoKeeps(worlds[n - 1], acts[n - 1]);
    }
  }

  lemma StartOk(s: Config, r: Config, recvSeq: bool, lnsMode: bool, timeout: nat)
    requires Connected(s, r)
    ensures WorldOk(Start(s, r, recvSeq, lnsMode, timeout))
  {
  }

  // ---- the receiver keeps up -----------------------------------------------------------------------

  /** The state and the frame about to be handed over are no more than nr_max sends old. */
  ghost predicate KeepsUp(w: World, a: Act) {
    a.HandOver? ==> Recent(a.k, |w.sent|, NrMax(w)) && UpToDate(w.receiver.rx, w.origins, |w.sent|)
  }

  lemma DoInStep(w: World, a: Act)
    requires WorldOk(w) && Enabled(w, a) && InStep(w.receiver.rx, w.origins) && KeepsUp(w, a)
    ensures InStep(Do(w, a).receiver.rx, Do(w, a).origins)
  {
    match a
    case SendFrame(_, _) =>
    case HandOver(k, _, _, now) => HandOverInStep(w, a);
    case ChangeTimeout(_) =>
    case PurgeQueue => PurgeInStep(w.receiver.rx, w.origins);
  }

  lemma HandOverInStep(w: World, a: Act)
    requires WorldOk(w) && Enabled(w, a) && InStep(w.receiver.rx, w.origins) && KeepsUp(w, a) && a.HandOver?
    ensures InStep(Do(w, a).receiver.rx, Do(w, a).origins)
  {
    var rx := w.receiver.rx;
    var origins := w.origins + [a.k];
    HandOverInput(w, a);
    OwnsMore(rx, w.origins, w.sent, origins, w.sent);
    SuccessiveMore(rx.log, w.origins, origins);
    ArrivalInStep(rx, Arriving(w, a.k), a.now, origins, w.sent, |w.sent|);
  }

  lemma {:induction false} RunInStep(worlds: seq<World>, acts: seq<Act>, n: nat)
    requires IsRun(worlds, acts) && WorldOk(worlds[0]) && InStep(worlds[0].receiver.rx, worlds[0].origins) && n < |worlds|
    requires forall m {:trigger acts[m]} :: 0 <= m < n ==> KeepsUp(worlds[m], acts[m])
    ensures InStep(worlds[n].receiver.rx, worlds[n].origins)
  {
    if n > 0 {
      RunInStep(worlds, acts, n - 1);
      RunKeeps(worlds, acts, n - 1);
      DoInStep(worlds[n - 1], acts[n - 1]);
    }
  }

  // ---- the result -----------------------------------------------------------------------------------

  /** The payloads passed up, in order. */
  ghost function Payloads(log: seq<Event>): seq<seq<int>> {
    if log == [] then []
    else
      var e := log[|log| - 1];
      Payloads(log[..|log| - 1]) + (if e.Delivered? then [e.frame.payload] else [])
  }

  lemma PayloadsSnoc(log: seq<Event>, i: nat, j: nat)
    requires i < j <= |log|
    ensures Payloads(log[i..j]) == Payloads(log[i..j - 1]) + (if log[j - 1].Delivered? then [log[j - 1].frame.payload] else [])
  {
    assert log[i..j][..j - i - 1] == log[i..j - 1];
  }

  lemma LatestSnoc(log: seq<Event>, j: nat)
    requires 1 <= j <= |log|
    ensures Latest(log[..j]) ==
            var e := log[j - 1];
            if e.Delivered? then Some(e.frame.id) else if e.Skipped? then None else Latest(log[..j - 1])
  {
    assert log[..j][..j - 1] == log[..j - 1];
  }

  /** The payloads are a slice of what was sent that ends with the frame passed up last. */
  ghost predicate IsSlice(ps: seq<seq<int>>, sent: seq<seq<int>>, from: nat, to: nat, last: Option<nat>, origins: seq<nat>) {
    && from <= to <= |sent| && ps == sent[from..to]
    && (ps != [] ==> last.Some? && last.value < |origins| && to == origins[last.value] + 1)
  }

  lemma SliceGrows(ps: seq<seq<int>>, sent: seq<seq<int>>, from: nat, to: nat, last: Option<nat>, origins: seq<nat>, f: Frame, nrMax: nat)
    returns (from': nat, to': nat)
    requires IsSlice(ps, sent, from, to, last, origins) && Follows(f.id, last, origins) && Matches(f, origins, sent, nrMax)
    ensures IsSlice(ps + [f.payload], sent, from', to', Some(f.id), origins)
  {
    var k := origins[f.id];
    if ps == [] {
      from', to' := k, k + 1;
      assert sent[k..k + 1] == [sent[k]];
    } else {
      from', to' := from, to + 1;
      assert sent[from..to + 1] == sent[from..to] + [sent[to]];
    }
  }

  lemma {:induction false} SegmentIsSlice(log: seq<Event>, origins: seq<nat>, sent: seq<seq<int>>, nrMax: nat, i: nat, j: nat)
    returns (from: nat, to: nat)
    requires Successive(log, origins) && i <= j <= |log| && NoSkip(log[i..j])
    requires forall e :: e in log ==> Genuine(e, origins, sent, nrMax)
    ensures IsSlice(Payloads(log[i..j]), sent, from, to, Latest(log[..j]), origins)
    decreases j
  {
    if i == j {
      assert log[i..j] == [];
      from, to := 0, 0;
    } else {
      var e := log[j - 1];
      assert log[i..j] == log[i..j - 1] + [e];
      from, to := SegmentIsSlice(log, origins, sent, nrMax, i, j - 1);
      PayloadsSnoc(log, i, j);
      LatestSnoc(log, j);
      assert e in log && e in log[i..j];
      if e.Delivered? {
        from, to := SliceGrows(Payloads(log[i..j - 1]), sent, from, to, Latest(log[..j - 1]), origins, e.frame, nrMax);
      }
    }
  }

  /** End to end, with any number of frames: while the receiver keeps up, whatever else
      the network does, the payloads that it passes up between two skips are a
      contiguous segment of the sent list, in sending order. */
  lemma SegmentsWhileKeepingUp(s: Config, r: Config, recvSeq: bool, lnsMode: bool, timeout: nat,
                               worlds: seq<World>, acts: seq<Act>, i: nat, j: nat)
    returns (from: nat, to: nat)
    requires Connected(s, r) && IsRun(worlds, acts) && worlds[0] == Start(s, r, recvSeq, lnsMode, timeout)
    requires forall n {:trigger acts[n]} :: 0 <= n < |acts| ==> KeepsUp(worlds[n], acts[n])
    requires var log := worlds[|acts|].receiver.rx.log; i <= j <= |log| && NoSkip(log[i..j])
    ensures var w := worlds[|acts|];
      && from <= to <= |w.sent|
      && Payloads(w.receiver.rx.log[i..j]) == w.sent[from..to]
  {
    var w := worlds[|acts|];
    StartOk(s, r, recvSeq, lnsMode, timeout);
    RunKeeps(worlds, acts, |acts|);
    RunInStep(worlds, acts, |acts|);
    from, to := SegmentIsSlice(w.receiver.rx.log, w.origins, w.sent, NrMax(w), i, j);
  }

  /** Over every run, everything passed up was sent, under its own number. */
  lemma DeliveredWasSent(s: Config, r: Config, recvSeq: bool, lnsMode: bool, timeout: nat,
                         worlds: seq<World>, acts: seq<Act>, k: nat)
    requires Connected(s, r) && IsRun(worlds, acts) && worlds[0] == Start(s, r, recvSeq, lnsMode, timeout)
    requires k < |worlds[|acts|].receiver.rx.log|
    ensures var w := worlds[|acts|]; Genuine(w.receiver.rx.log[k], w.origins, w.sent, NrMax(w))
  {
    StartOk(s, r, recvSeq, lnsMode, timeout);
    RunKeeps(worlds, acts, |acts|);
    var w := worlds[|acts|];
    assert w.receiver.rx.log[k] in w.receiver.rx.log;
  }

  // ---- less than one circle ------------------------------------------------------------------------------

  /** Frames are never unsent, and the receiver stays configured as it was. */
  lemma SentGrows(w: World, a: Act)
    requires Runnable(w) && Enabled(w, a)
    ensures |w.sent| <= |Do(w, a).sent| && NrMax(Do(w, a)) == NrMax(w)
  {
    if !a.SendFrame? {
      ApplyOk(w.receiver, ReceiverOp(w, a));
    }
  }

  lemma {:induction false} SentGrowsTo(worlds: seq<World>, acts: seq<Act>, n: nat, m: nat)
    requires IsRun(worlds, acts) && n <= m < |worlds|
    ensures |worlds[n].sent| <= |worlds[m].sent| && NrMax(worlds[m]) == NrMax(worlds[n])
    decreases m
  {
    if n < m {
      SentGrowsTo(worlds, acts, n, m - 1);
      SentGrows(worlds[m - 1], acts[m - 1]);
    }
  }

  lemma {:induction false} LatestInLog(log: seq<Event>)
    requires Latest(log).Some?
    ensures exists e :: e in log && e.Delivered? && e.frame.id == Latest(log).value
  {
    var e := log[|log| - 1];
    if e.Freed? {
      LatestInLog(log[..|log| - 1]);
    } else {
      assert e in log;
    }
  }

  /** Before numbers repeat, every frame is recent. */
  lemma FewFramesKeepUp(w: World, a: Act)
    requires WorldOk(w) && Enabled(w, a) && |w.sent| <= NrMax(w)
    ensures KeepsUp(w, a)
  {
    var rx := w.receiver.rx;
    forall f | f in rx.queue
      ensures RecentBuffer(f.id, w.origins, |w.sent|, rx.nrMax)
    {
      assert Matches(f, w.origins, w.sent, rx.nrMax);
    }
    if Latest(rx.log).Some? {
      LatestInLog(rx.log);
      var e :| e in rx.log && e.Delivered? && e.frame.id == Latest(rx.log).value;
      assert Genuine(e, w.origins, w.sent, rx.nrMax);
    }
  }

  /** End to end within one circle: as long as fewer than nr_max + 1 frames have been
      sent, nothing at all is asked of the network. */
  lemma SegmentsOfWhatWasSent(s: Config, r: Config, recvSeq: bool, lnsMode: bool, timeout: nat,
                              worlds: seq<World>, acts: seq<Act>, i: nat, j: nat)
    returns (from: nat, to: nat)
    requires Connected(s, r) && IsRun(worlds, acts) && worlds[0] == Start(s, r, recvSeq, lnsMode, timeout)
    requires var w := worlds[|acts|]; |w.sent| < NrMax(w) + 1
    requires var log := worlds[|acts|].receiver.rx.log; i <= j <= |log| && NoSkip(log[i..j])
    ensures var w := worlds[|acts|];
      && from <= to <= |w.sent|
      && Payloads(w.receiver.rx.log[i..j]) == w.sent[from..to]
  {
    StartOk(s, r, recvSeq, lnsMode, timeout);
    forall n | 0 <= n < |acts|
      ensures KeepsUp(worlds[n], acts[n])
    {
      RunKeeps(worlds, acts, n);
      SentGrowsTo(worlds, acts, n, |acts|);
      FewFramesKeepUp(worlds[n], acts[n]);
    }
    from, to := SegmentsWhileKeepingUp(s, r, recvSeq, lnsMode, timeout, worlds, acts, i, j);
  }

  /** A contiguous segment of what was sent. */
  ghost predicate IsSegment(ps: seq<seq<int>>, sent: seq<seq<int>>) {
    exists from, to {:trigger sent[from..to]} :: 0 <= from <= to <= |sent| && ps == sent[from..to]
  }

  // ---- losing a whole circle -------------------------------------------------------------------------------

  /** A run, one action longer. */
  lemma Extend(worlds: seq<World>, acts: seq<Act>, a: Act) returns (longer: seq<World>)
    requires IsRun(worlds, acts) && WorldOk(worlds[|acts|]) && Enabled(worlds[|acts|], a)
    ensures IsRun(longer, acts + [a]) && longer[0] == worlds[0]
    ensures longer[|acts| + 1] == Do(worlds[|acts|], a) && WorldOk(longer[|acts| + 1])
  {
    longer := worlds + [Do(worlds[|acts|], a)];
    DoKeeps(worlds[|acts|], a);
    forall n | 0 <= n < |acts + [a]|
      ensures Runnable(longer[n]) && Enabled(longer[n], (acts + [a])[n]) && longer[n + 1] == Do(longer[n], (acts + [a])[n])
    {
      if n < |acts| {
        assert (acts + [a])[n] == acts[n];
      }
    }
  }

  function Empties(n: nat): (ps: seq<seq<Byte>>)
    ensures |ps| == n && forall i :: 0 <= i < n ==> ps[i] == []
  {
    if n == 0 then [] else Empties(n - 1) + [[]]
  }

  function Junk(w: World): (junk: seq<Byte>)
    ensures |junk| == HeaderBytes(w.sender.cfg, w.sender.sendSeq)
  {
    Fill(HeaderBytes(w.sender.cfg, w.sender.sendSeq), 0)
  }

  /** `n` frames without payload are sent and lost. */
  lemma {:induction false} LoseMany(worlds: seq<World>, acts: seq<Act>, n: nat) returns (longer: seq<World>, more: seq<Act>)
    requires IsRun(worlds, acts) && WorldOk(worlds[|acts|])
    ensures IsRun(longer, more) && longer[0] == worlds[0] && WorldOk(longer[|more|])
    ensures var w, v := worlds[|acts|], longer[|more|];
      v.receiver == w.receiver && v.origins == w.origins && v.sent == w.sent + Empties(n)
  {
    if n == 0 {
      longer, more := worlds, acts;
    } else {
      longer, more := LoseMany(worlds, acts, n - 1);
      var a := SendFrame(Junk(longer[|more|]), []);
      longer := Extend(longer, more, a);
      more := more + [a];
    }
  }

  /** A frame with the expected number is passed up at once if nothing waits. */
  lemma InSequence(s: Rx, f: Frame, now: nat)
    requires Wf(s) && s.queue == [] && f.hasSeq && f.ns == s.nr
    ensures var t := Step(s, Sequenced(f, now));
      && t.queue == [] && !t.skip && t.nr == Next(f.ns, s.nrMax)
      && t.log == s.log + (if s.skip then [Skipped(s.nr, f.ns)] else []) + [Delivered(Stamp(s, f, now))]
  {
    var g := Stamp(s, f, now);
    var t := DataSeq(TakeRef(s), g).state;
    assert t.queue == [g];
    DrainSingle(t, now);
  }

  /** One frame is sent and handed over, which the receiver is waiting for. */
  lemma SendAndHandOver(worlds: seq<World>, acts: seq<Act>, payload: seq<Byte>) returns (longer: seq<World>, more: seq<Act>)
    requires IsRun(worlds, acts) && WorldOk(worlds[|acts|])
    requires var w := worlds[|acts|]; w.receiver.rx.queue == [] && w.receiver.rx.nr == w.sender.ns
    ensures IsRun(longer, more) && longer[0] == worlds[0] && WorldOk(longer[|more|])
    ensures var w, v := worlds[|acts|], longer[|more|]; var s, t := w.receiver.rx, v.receiver.rx;
      && v.sent == w.sent + [payload] && NrMax(v) == NrMax(w)
      && t.queue == [] && !t.skip && t.nr == Next(s.nr, NrMax(w))
      && |t.log| == |s.log| + 1 + One(s.skip) && s.log <= t.log
      && (s.skip ==> t.log[|s.log|].Skipped?)
      && t.log[|t.log| - 1].Delivered? && t.log[|t.log| - 1].frame.payload == payload
  {
    var w := worlds[|acts|];
    var a := SendFrame(Junk(w), payload);
    longer := Extend(worlds, acts, a);
    more := acts + [a];
    var u := longer[|more|];
    var h := HandOver(|w.sent|, 0, Behind(0, 0), 0);
    HandOverInput(u, h);
    InSequence(u.receiver.rx, Arriving(u, |w.sent|), 0);
    SentGrows(w, a);
    SentGrows(u, h);
    longer := Extend(longer, more, h);
    more := more + [h];
  }

  /** Keeping up is needed: a receiver that has passed one frame up and then misses all
      frames until numbers repeat takes a frame that was sent a whole circle later for
      the next one. What it passes up, without a skip, was not sent in that order. */
  lemma LostCircle(s: Config, r: Config, recvSeq: bool, lnsMode: bool, timeout: nat) returns (worlds: seq<World>, acts: seq<Act>)
    requires Connected(s, r)
    ensures IsRun(worlds, acts) && worlds[0] == Start(s, r, recvSeq, lnsMode, timeout)
    ensures var w := worlds[|acts|]; var log := w.receiver.rx.log;
      |log| == 3 && NoSkip(log[1..3]) && |w.sent| == NrMax(w) + 3 && !IsSegment(Payloads(log[1..3]), w.sent)
  {
    worlds, acts := FirstFrame(s, r, recvSeq, lnsMode, timeout);
    worlds, acts := LoseCircle(worlds, acts);
    worlds, acts := SecondFrame(worlds, acts);
    var w := worlds[|acts|];
    NotASlice([[1]], NrMax(w) + 1, w.receiver.rx.log, w.sent);
  }

  lemma SecondFrame(worlds: seq<World>, acts: seq<Act>) returns (longer: seq<World>, more: seq<Act>)
    requires IsRun(worlds, acts) && PassedOne(worlds[|acts|]) && worlds[|acts|].sender.ns == worlds[|acts|].receiver.rx.nr
    ensures IsRun(longer, more) && longer[0] == worlds[0]
    ensures var v := longer[|more|]; var log := v.receiver.rx.log;
      && v.sent == worlds[|acts|].sent + [[2]] && NrMax(v) == NrMax(worlds[|acts|])
      && |log| == 3 && log[1].Delivered? && log[1].frame.payload == [1] && log[2].Delivered? && log[2].frame.payload == [2]
  {
    longer, more := SendAndHandOver(worlds, acts, [2]);
  }

  /** The receiver has passed up the first frame and waits for the second. */
  ghost predicate PassedOne(w: World) {
    var rx := w.receiver.rx;
    && WorldOk(w) && rx.nr == NumberOf(1, NrMax(w)) && rx.queue == [] && !rx.skip
    && |rx.log| == 2 && rx.log[1].Delivered? && rx.log[1].frame.payload == [1]
  }

  lemma LoseCircle(worlds: seq<World>, acts: seq<Act>) returns (longer: seq<World>, more: seq<Act>)
    requires IsRun(worlds, acts) && PassedOne(worlds[|acts|]) && worlds[|acts|].sent == [[1]]
    ensures IsRun(longer, more) && longer[0] == worlds[0] && PassedOne(longer[|more|])
    ensures var v := longer[|more|]; v.sent == [[1]] + Empties(NrMax(v) + 1) && v.sender.ns == v.receiver.rx.nr
  {
    var nrMax := NrMax(worlds[|acts|]);
    longer, more := LoseMany(worlds, acts, nrMax + 1);
    NumbersRepeat(1, nrMax);
  }

  lemma FirstFrame(s: Config, r: Config, recvSeq: bool, lnsMode: bool, timeout: nat) returns (worlds: seq<World>, acts: seq<Act>)
    requires Connected(s, r)
    ensures IsRun(worlds, acts) && worlds[0] == Start(s, r, recvSeq, lnsMode, timeout)
    ensures PassedOne(worlds[|acts|]) && worlds[|acts|].sent == [[1]]
  {
    StartOk(s, r, recvSeq, lnsMode, timeout);
    worlds, acts := [Start(s, r, recvSeq, lnsMode, timeout)], [];
    worlds, acts := SendAndHandOver(worlds, acts, [1]);
    assert NumberOf(0, NrMax(worlds[|acts|])) == 0;
  }

  lemma NotASlice(first: seq<seq<Byte>>, n: nat, log: seq<Event>, sent: seq<seq<Byte>>)
    requires first == [[1]] && n > 0 && sent == first + Empties(n) + [[2]]
    requires |log| == 3 && log[1].Delivered? && log[2].Delivered? && log[1].frame.payload == [1] && log[2].frame.payload == [2]
    ensures NoSkip(log[1..3]) && !IsSegment(Payloads(log[1..3]), sent)
  {
    assert Payloads(log[1..1]) == [];
    PayloadsSnoc(log, 1, 2);
    PayloadsSnoc(log, 1, 3);
    assert Payloads(log[1..3]) == [[1], [2]];
    forall from, to | 0 <= from <= to <= |sent|
      ensures sent[from..to] != [[1], [2]]
    {
      var ps := sent[from..to];
      if |ps| == 2 {
        assert ps[0] == sent[from] && ps[1] == sent[from + 1];
        assert if from == 0 then sent[from + 1] == [] else sent[from] != [1];
      }
    }
  }

  // ---- exactly one circle ----------------------------------------------------------------------------------

  /** All `n` frames sent so far have been passed up one by one. */
  ghost predicate AllPassedUp(w: World, n: nat) {
    var rx := w.receiver.rx;
    && WorldOk(w) && |w.sent| == n && rx.queue == [] && rx.nr == w.sender.ns
    && (if n == 0 then rx.log == [] && rx.skip
        else !rx.skip && |rx.log| == n + 1 && OnlyDeliveries(rx.log[1..]))
  }

  ghost predicate OnlyDeliveries(log: seq<Event>) {
    forall e :: e in log ==> e.Delivered?
  }

  lemma {:induction false} PayloadsOf(log: seq<Event>)
    requires OnlyDeliveries(log)
    ensures NoSkip(log) && |Payloads(log)| == |log|
  {
    if log != [] {
      assert log[|log| - 1] in log;
      PayloadsOf(log[..|log| - 1]);
    }
  }

  lemma OneMoreDelivery(log: seq<Event>, more: seq<Event>)
    requires log <= more && |more| == |log| + 1 && |log| > 0 && OnlyDeliveries(log[1..]) && more[|log|].Delivered?
    ensures OnlyDeliveries(more[1..])
  {
    assert more[1..] == log[1..] + [more[|log|]];
  }

  lemma {:induction false} PassUpMany(worlds: seq<World>, acts: seq<Act>, n: nat) returns (longer: seq<World>, more: seq<Act>)
    requires IsRun(worlds, acts) && AllPassedUp(worlds[|acts|], 0)
    ensures IsRun(longer, more) && longer[0] == worlds[0] && AllPassedUp(longer[|more|], n)
    ensures NrMax(longer[|more|]) == NrMax(worlds[|acts|])
  {
    if n == 0 {
      longer, more := worlds, acts;
    } else {
      longer, more := PassUpMany(worlds, acts, n - 1);
      longer, more := PassUpOneMore(longer, more, n - 1);
    }
  }

  lemma PassUpOneMore(worlds: seq<World>, acts: seq<Act>, n: nat) returns (longer: seq<World>, more: seq<Act>)
    requires IsRun(worlds, acts) && AllPassedUp(worlds[|acts|], n)
    ensures IsRun(longer, more) && longer[0] == worlds[0] && AllPassedUp(longer[|more|], n + 1)
    ensures NrMax(longer[|more|]) == NrMax(worlds[|acts|])
  {
    longer, more := SendAndHandOver(worlds, acts, []);
    var s, t := worlds[|acts|].receiver.rx, longer[|more|].receiver.rx;
    NumberNext(n, NrMax(worlds[|acts|]));
    if n == 0 {
      assert t.log[1..] == [t.log[1]];
    } else {
      OneMoreDelivery(s.log, t.log);
    }
  }

  /** After a whole circle of deliveries, a copy of the first frame is passed up again. */
  lemma FirstFrameAgain(worlds: seq<World>, acts: seq<Act>) returns (longer: seq<World>, more: seq<Act>)
    requires IsRun(worlds, acts) && AllPassedUp(worlds[|acts|], NrMax(worlds[|acts|]) + 1)
    ensures IsRun(longer, more) && longer[0] == worlds[0]
    ensures var w, v := worlds[|acts|], longer[|more|];
      v.sent == w.sent && |v.receiver.rx.log| == NrMax(w) + 3 && OnlyDeliveries(v.receiver.rx.log[1..])
  {
    var w := worlds[|acts|];
    var a := HandOver(0, 0, Behind(0, 0), 0);
    CopyPassedUp(w, a);
    longer := Extend(worlds, acts, a);
    more := acts + [a];
    OneMoreDelivery(w.receiver.rx.log, longer[|more|].receiver.rx.log);
  }

  lemma CopyPassedUp(w: World, a: Act)
    requires AllPassedUp(w, NrMax(w) + 1) && a == HandOver(0, 0, Behind(0, 0), 0)
    ensures Enabled(w, a)
    ensures var s, t := w.receiver.rx, Do(w, a).receiver.rx;
      Do(w, a).sent == w.sent && s.log <= t.log && |t.log| == |s.log| + 1 && t.log[|s.log|].Delivered?
  {
    HandOverInput(w, a);
    NumbersRepeat(0, NrMax(w));
    InSequence(w.receiver.rx, Arriving(w, 0), 0);
  }

  /** A run in which nr_max + 1 frames are sent, and one more is passed up. */
  lemma RepeatedFrame(s: Config, r: Config, recvSeq: bool, lnsMode: bool, timeout: nat) returns (worlds: seq<World>, acts: seq<Act>)
    requires Connected(s, r)
    ensures IsRun(worlds, acts) && worlds[0] == Start(s, r, recvSeq, lnsMode, timeout)
    ensures var w := worlds[|acts|]; var log := w.receiver.rx.log;
      |w.sent| == NrMaxOf(r.version) + 1 && |log| >= 1 && NoSkip(log[1..]) && |Payloads(log[1..])| > |w.sent|
  {
    StartOk(s, r, recvSeq, lnsMode, timeout);
    worlds, acts := [Start(s, r, recvSeq, lnsMode, timeout)], [];
    worlds, acts := PassUpMany(worlds, acts, NrMaxOf(r.version) + 1);
    worlds, acts := FirstFrameAgain(worlds, acts);
    PayloadsOf(worlds[|acts|].receiver.rx.log[1..]);
  }

  /** Whatever the run, as long as no more than `n` frames have been sent. */
  ghost predicate Contiguous(s: Config, r: Config, recvSeq: bool, lnsMode: bool, timeout: nat, n: nat) {
    forall worlds: seq<World>, acts: seq<Act>, i: nat, j: nat ::
      IsRun(worlds, acts) && worlds[0] == Start(s, r, recvSeq, lnsMode, timeout) && |worlds[|acts|].sent| <= n
      ==> SegmentContiguous(worlds[|acts|], i, j)
  }

  ghost predicate SegmentContiguous(w: World, i: nat, j: nat) {
    var log := w.receiver.rx.log;
    i <= j <= |log| && NoSkip(log[i..j]) ==> IsSegment(Payloads(log[i..j]), w.sent)
  }

  /** End to end, exactly: what is passed up between two skips is a contiguous segment of
      what was sent in every run with at most `n` frames sent, whatever the network does,
      if and only if n is at most nr_max. */
  lemma ContiguousIff(s: Config, r: Config, recvSeq: bool, lnsMode: bool, timeout: nat, n: nat)
    requires Connected(s, r)
    ensures Contiguous(s, r, recvSeq, lnsMode, timeout, n) <==> n <= NrMaxOf(r.version)
  {
    if n <= NrMaxOf(r.version) {
      forall worlds: seq<World>, acts: seq<Act>, i: nat, j: nat |
        IsRun(worlds, acts) && worlds[0] == Start(s, r, recvSeq, lnsMode, timeout) && |worlds[|acts|].sent| <= n
        ensures SegmentContiguous(worlds[|acts|], i, j)
      {
        FewFramesContiguous(s, r, recvSeq, lnsMode, timeout, worlds, acts, i, j);
      }
    } else {
      var worlds, acts := RepeatedFrame(s, r, recvSeq, lnsMode, timeout);
      TooLong(worlds[|acts|]);
    }
  }

  lemma FewFramesContiguous(s: Config, r: Config, recvSeq: bool, lnsMode: bool, timeout: nat,
                            worlds: seq<World>, acts: seq<Act>, i: nat, j: nat)
    requires Connected(s, r) && IsRun(worlds, acts) && worlds[0] == Start(s, r, recvSeq, lnsMode, timeout)
    requires |worlds[|acts|].sent| <= NrMaxOf(r.version)
    ensures SegmentContiguous(worlds[|acts|], i, j)
  {
    var w := worlds[|acts|];
    var log := w.receiver.rx.log;
    SentGrowsTo(worlds, acts, 0, |acts|);
    if i <= j <= |log| && NoSkip(log[i..j]) {
      var from, to := SegmentsOfWhatWasSent(s, r, recvSeq, lnsMode, timeout, worlds, acts, i, j);
      assert Payloads(log[i..j]) == w.sent[from..to];
    }
  }

  lemma TooLong(w: World)
    requires var log := w.receiver.rx.log; |log| >= 1 && NoSkip(log[1..]) && |Payloads(log[1..])| > |w.sent|
    ensures !SegmentContiguous(w, 1, |w.receiver.rx.log|)
  {
    var log := w.receiver.rx.log;
    assert log[1..|log|] == log[1..];
  }
}
