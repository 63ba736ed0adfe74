/** What holds after any sequence of creations, deletions, closes, socket releases,
    work items and frames, in any order. */
module LifecycleRuns {
  import opened Common
  import opened Lifecycle

  // ---- every call keeps the invariant -----------------------------------------------------

  /** A session of L2TPv3 gets its socket while no frame waits for it. Nothing is asked
      of other calls, nor of L2TPv2. */
  predicate Safe(w: World, op: Op) {
    op.ConnectSock? && Goes(w, op) && w.sessions[op.s].v3 ==> w.sessions[op.s].queued == 0
  }

  lemma ConnectKept(w: World, s: nat, k: nat)
    requires Valid(w) && Goes(w, ConnectSock(s, k)) && Safe(w, ConnectSock(s, k))
    ensures Valid(Connect(w, s, k))
  {
    HashedIsLive(w, s);
    RestFacts(w, s);
    ConnectKeeps(w, s, k);
  }

  lemma ReleaseKept(w: World, k: nat)
    requires Valid(w) && k in w.socks
    ensures Valid(Release(w, k))
  {
    ReleaseKeeps(w, k);
    ReleaseClean(w, k);
  }

  lemma DropSockKept(w: World, k: nat)
    requires Valid(w) && k in w.socks && w.socks[k].others > 0
    ensures Valid(DropOther(w, k))
  {
    DropSockKeeps(w, k);
    PutClean(SetSock(w, k, w.socks[k].(others := w.socks[k].others - 1)), k);
  }

  lemma DequeueKept(w: World, s: nat)
    requires s in w.sessions && w.sessions[s].queued > 0 && Valid(w)
    ensures Valid(DequeueOne(w, s))
  {
    QueuedIsLive(w, s);
    DequeueKeeps(w, s);
    DequeueClean(w, s);
  }

  lemma DeleteKept(w: World, s: nat)
    requires Valid(w) && s in w.sessions && w.sessions[s].hashed
    ensures Valid(SessionDelete(w, s))
  {
    DeleteKeeps(w, s);
    DeleteClean(w, s);
  }

  lemma CloseAllKept(w: World, t: nat)
    requires Valid(w) && t in w.tunnels
    ensures Valid(CloseAll(w, t))
  {
    CloseAllEffect(w, t);
    CloseAllClean(w, t);
  }

  lemma FrameStepKept(w: World, op: Op)
    requires Valid(w) && Goes(w, op) && (op.QueueFrame? || op.DequeueFrame?)
    ensures Valid(SockStep(w, op))
  {
    match op
    case QueueFrame(s, path) => QueueKeeps(w, s, path);
    case DequeueFrame(s) => DequeueKept(w, s);
  }

  lemma SockStepKept(w: World, op: Op)
    requires Valid(w) && Goes(w, op) && Safe(w, op) && (op.NewSock? || op.ConnectSock? || op.ReleaseSock?)
    ensures Valid(SockStep(w, op))
  {
    match op
    case NewSock(k) => SockAlone(w, SockCreate(w, k), k);
    case ConnectSock(s, k) => ConnectKept(w, s, k);
    case ReleaseSock(k) => ReleaseKept(w, k);
  }

  lemma CountStepKept(w: World, op: Op)
    requires Valid(w) && Goes(w, op) && (op.HoldSock? || op.DropSock?)
    ensures Valid(SockStep(w, op))
  {
    match op
    case HoldSock(k) => HoldSockKeeps(w, k);
    case DropSock(k) => DropSockKept(w, k);
  }

  lemma CreateStepKept(w: World, op: Op)
    requires Valid(w) && Goes(w, op) && (op.NewTunnel? || op.NewSession?)
    ensures Valid(TunnelStep(w, op))
  {
    match op
    case NewTunnel(t, v3, ip) => NewTunnelKept(w, t, v3, ip);
    case NewSession(s, t, id) => NewSessionKept(w, s, t, id);
  }

  lemma NewTunnelKept(w: World, t: nat, v3: bool, ip: bool)
    requires Valid(w) && t !in w.tunnels
    ensures Valid(TunnelCreate(w, t, v3, ip))
  {
    TunnelCreateKeeps(w, t, v3, ip);
  }

  lemma NewSessionKept(w: World, s: nat, t: nat, id: nat)
    requires Valid(w) && s !in w.sessions && t in w.tunnels && w.tunnels[t].hasSock
    ensures Valid(SessionCreate(w, s, t, id))
  {
    SessionCreateKeeps(w, s, t, id);
  }

  lemma CloseStepKept(w: World, op: Op)
    requires Valid(w) && Goes(w, op) && (op.DeleteSession? || op.CloseTunnel? || op.DeleteTunnel?)
    ensures Valid(TunnelStep(w, op))
  {
    match op
    case DeleteSession(s) => DeleteKept(w, s);
    case CloseTunnel(t) => CloseAllKept(w, t);
    case DeleteTunnel(t) => DeleteTunnelKeeps(w, t);
  }

  lemma TunnelStepKept(w: World, op: Op)
    requires Valid(w) && Goes(w, op) && (op.RunWork? || op.HoldTunnelSock? || op.DropTunnelSock?)
    ensures Valid(TunnelStep(w, op))
  {
    match op
    case RunWork(t) => WorkKeeps(w, t);
    case HoldTunnelSock(t) => HoldTunnelSockKeeps(w, t);
    case DropTunnelSock(t) => DropTunnelSockKeeps(w, t);
  }

  /** Every safe call keeps the invariant. */
  lemma StepKeeps(w: World, op: Op)
    requires Valid(w) && Safe(w, op)
    ensures Valid(Step(w, op))
  {
    if Goes(w, op) {
      if op.QueueFrame? || op.DequeueFrame? {
        FrameStepKept(w, op);
      } else if op.HoldSock? || op.DropSock? {
        CountStepKept(w, op);
      } else if op.NewSock? || op.ConnectSock? || op.ReleaseSock? {
        SockStepKept(w, op);
      } else if op.NewTunnel? || op.NewSession? {
        CreateStepKept(w, op);
      } else if op.DeleteSession? || op.CloseTunnel? || op.DeleteTunnel? {
        CloseStepKept(w, op);
      } else {
        TunnelStepKept(w, op);
      }
    }
  }

  // ---- runs -------------------------------------------------------------------------------

  /** The state after a run of calls and events. */
  function RunFrom(w: World, ops: seq<Op>): World
    decreases |ops|
  {
    if ops == [] then w else Step(RunFrom(w, ops[..|ops| - 1]), ops[|ops| - 1])
  }

  /** A run from an empty module. */
  function Run(ops: seq<Op>): World {
    RunFrom(EMPTY, ops)
  }

  ghost predicate SafeRun(ops: seq<Op>) {
    forall n {:trigger ops[n]} :: 0 <= n < |ops| ==> Safe(Run(ops[..n]), ops[n])
  }

  lemma RunOneMore(w: World, ops: seq<Op>, n: nat)
    requires n < |ops|
    ensures RunFrom(w, ops[..n + 1]) == Step(RunFrom(w, ops[..n]), ops[n])
  {
    assert ops[..n + 1][..n] == ops[..n];
  }

  lemma RunSnoc(w: World, ops: seq<Op>, op: Op)
    ensures RunFrom(w, ops + [op]) == Step(RunFrom(w, ops), op)
  {
    assert (ops + [op])[..|ops|] == ops;
  }

  lemma {:induction false} RunConcat(w: World, a: seq<Op>, b: seq<Op>)
    ensures RunFrom(w, a + b) == RunFrom(RunFrom(w, a), b)
    decreases |b|
  {
    if b == [] {
      assert a + b == a;
    } else {
      var n := |b| - 1;
      RunConcat(w, a, b[..n]);
      assert b == b[..n] + [b[n]];
      assert a + b == (a + b[..n]) + [b[n]];
      RunSnoc(w, a + b[..n], b[n]);
      RunSnoc(RunFrom(w, a), b[..n], b[n]);
    }
  }

  lemma EmptyIsValid()
    ensures Valid(EMPTY)
  {
    assert Counted(EMPTY) == {};
  }

  lemma {:induction false} PrefixValid(ops: seq<Op>, n: nat)
    requires SafeRun(ops) && n <= |ops|
    ensures Valid(Run(ops[..n]))
  {
    if n == 0 {
      EmptyIsValid();
    } else {
      PrefixValid(ops, n - 1);
      NextValid(ops, n - 1);
    }
  }

  lemma NextValid(ops: seq<Op>, n: nat)
    requires n < |ops| && Valid(Run(ops[..n])) && Safe(Run(ops[..n]), ops[n])
    ensures Valid(Run(ops[..n + 1]))
  {
    RunOneMore(EMPTY, ops, n);
    StepKeeps(Run(ops[..n]), ops[n]);
  }

  lemma RunValid(ops: seq<Op>)
    requires SafeRun(ops)
    ensures Valid(Run(ops))
  {
    PrefixValid(ops, |ops|);
    assert ops[..|ops|] == ops;
  }

  // ---- what every safe run keeps ------------------------------------------------------------

  /** A tunnel's count is its list reference plus its live sessions plus its pending
      delete work; live sessions imply that the tunnel is alive and has its socket; a
      tunnel is freed exactly when nothing of that is left, and then has no socket. */
  ghost predicate TunnelCounts(w: World, t: nat)
    requires t in w.tunnels
  {
    var r := w.tunnels[t];
    && r.refCount == One(r.listed) + |Live(w, t)| + One(r.pending)
    && (Live(w, t) != {} ==> r.hasSock && !r.freed)
    && (r.freed <==> !r.listed && Live(w, t) == {} && !r.pending)
    && (r.freed ==> !r.hasSock)
  }

  /** Reference counts and the session counter over every safe run. */
  lemma ReferenceCounts(ops: seq<Op>, t: nat)
    requires SafeRun(ops) && t in Run(ops).tunnels
    ensures TunnelCounts(Run(ops), t)
    ensures Run(ops).count == |Counted(Run(ops))|
  {
    RunValid(ops);
    CountsOf(Run(ops), t);
  }

  lemma CountsOf(w: World, t: nat)
    requires TunnelsOk(w) && NoCallHolds(w) && t in w.tunnels
    ensures TunnelCounts(w, t)
  {
    assert TunnelOk(w.tunnels[t], |Live(w, t)|) && w.tunnels[t].held == 0;
  }

  /** A connected session is freed exactly when its socket has been destroyed, and that
      happens only after the owner has let go of the socket. */
  ghost predicate SessionFate(w: World, s: nat)
    requires s in w.sessions
  {
    var e := w.sessions[s];
    && (e.sock.Some? ==> e.sock.value in w.socks)
    && (e.sock.Some? ==> (e.freed <==> w.socks[e.sock.value].destroyed))
    && (e.sock.Some? && e.freed ==> !w.socks[e.sock.value].attached)
    && (!e.freed ==> e.refCount == 1)
    && (e.freed ==> e.refCount == 0 && !e.hashed && e.queued == 0)
  }

  /** Every session meets its fate, and the log names each freed session once. */
  ghost predicate AllFreedOnce(w: World) {
    && (forall s {:trigger w.sessions[s]} :: s in w.sessions ==>
          SessionFate(w, s) && (w.sessions[s].freed <==> s in w.freeLog))
    && Distinct(w.freeLog)
  }

  lemma FateOf(w: World, s: nat)
    requires SessionsOk(w, {}) && SocksOk(w) && s in w.sessions
    ensures SessionFate(w, s)
  {
    if w.sessions[s].freed {
      assert Unreferenced(w, s);
    } else {
      RestFacts(w, s);
    }
    if w.sessions[s].sock.Some? {
      var k := w.sessions[s].sock.value;
      assert SockOk(w, w.socks[k], k);
    }
  }

  lemma ValidFreedOnce(w: World)
    requires Inv(w, {})
    ensures AllFreedOnce(w)
  {
    forall s | s in w.sessions
      ensures SessionFate(w, s)
    {
      FateOf(w, s);
    }
  }

  /** Over every safe run and in every order of delete, closeall, release and destruct, a
      connected session is freed exactly when its socket has been destroyed, and it is
      freed at most once. */
  lemma FreedOnceWithItsSocket(ops: seq<Op>)
    requires SafeRun(ops)
    ensures AllFreedOnce(Run(ops))
  {
    RunValid(ops);
    ValidFreedOnce(Run(ops));
  }

  // ---- what no run can undo --------------------------------------------------------------------

  lemma DequeueClean(w: World, s: nat)
    requires SessionAt(w, s).queued > 0
    ensures Clean(w, DequeueOne(w, s))
  {
    var e := SessionAt(w, s);
    var v := SetSession(w, s, e.(queued := e.queued - 1));
    SessionClean(w, s, e.(queued := e.queued - 1));
    if e.sock.Some? {
      PutClean(v, e.sock.value);
      CleanTrans(w, v, SockPut(v, e.sock.value));
    }
  }

  lemma DropClean(w: World, k: nat)
    requires k in w.socks && w.socks[k].others > 0
    ensures Clean(w, DropOther(w, k))
  {
    var e := w.socks[k].(others := w.socks[k].others - 1);
    SockClean(w, k, e);
    PutClean(SetSock(w, k, e), k);
    CleanTrans(w, SetSock(w, k, e), DropOther(w, k));
  }

  /** Sessions freed stay freed, and L2TPv3 comes in only with a tunnel. */
  ghost predicate Forward(w: World, v: World, v3: bool) {
    w.freeLog <= v.freeLog && (NoV3(w) && !v3 ==> NoV3(v))
  }

  lemma SockStepForward(w: World, op: Op)
    requires IsSockOp(op) && Goes(w, op)
    ensures Forward(w, SockStep(w, op), false)
  {
    match op
    case NewSock(k) =>
    case ConnectSock(s, k) =>
    case ReleaseSock(k) => ReleaseClean(w, k);
    case HoldSock(k) =>
    case DropSock(k) => DropClean(w, k);
    case QueueFrame(s, _) =>
    case DequeueFrame(s) => DequeueClean(w, s);
  }

  lemma TunnelDeleteForward(w: World, t: nat)
    requires t in w.tunnels
    ensures Forward(w, TunnelDelete(w, t), false)
  {
    CloseAllClean(Held(w, t), t);
    assert NoV3(w) ==> NoV3(Held(w, t));
  }

  lemma TunnelStepForward(w: World, op: Op)
    requires !IsSockOp(op) && Goes(w, op)
    ensures Forward(w, TunnelStep(w, op), op.NewTunnel? && op.v3)
  {
    match op
    case NewTunnel(t, v3, ip) =>
    case NewSession(s, t, id) =>
    case DeleteSession(s) => DeleteClean(w, s);
    case CloseTunnel(t) => CloseAllClean(w, t);
    case DeleteTunnel(t) => TunnelDeleteForward(w, t);
    case RunWork(t) =>
    case HoldTunnelSock(t) =>
    case DropTunnelSock(t) =>
  }

  lemma StepForward(w: World, op: Op)
    ensures Forward(w, Step(w, op), op.NewTunnel? && op.v3)
  {
    if Goes(w, op) {
      if IsSockOp(op) {
        SockStepForward(w, op);
      } else {
        TunnelStepForward(w, op);
      }
    }
  }

  /** Once freed, a session stays freed for the rest of the run, safe or not. */
  lemma {:induction false} FreedForever(ops: seq<Op>, n: nat)
    requires n <= |ops|
    ensures Run(ops[..n]).freeLog <= Run(ops).freeLog
    decreases |ops| - n
  {
    if n == |ops| {
      assert ops[..n] == ops;
    } else {
      RunOneMore(EMPTY, ops, n);
      StepForward(Run(ops[..n]), ops[n]);
      FreedForever(ops, n + 1);
    }
  }

  lemma {:induction false} V2Prefix(ops: seq<Op>, n: nat)
    requires n <= |ops| && forall op :: op in ops && op.NewTunnel? ==> !op.v3
    ensures NoV3(Run(ops[..n]))
  {
    if n > 0 {
      V2Prefix(ops, n - 1);
      RunOneMore(EMPTY, ops, n - 1);
      assert ops[n - 1] in ops;
      StepForward(Run(ops[..n - 1]), ops[n - 1]);
    }
  }

  /** Every run without L2TPv3 tunnels is safe. */
  lemma V2RunsAreSafe(ops: seq<Op>)
    requires forall op :: op in ops && op.NewTunnel? ==> !op.v3
    ensures SafeRun(ops)
  {
    forall n | 0 <= n < |ops|
      ensures Safe(Run(ops[..n]), ops[n])
    {
      V2Prefix(ops, n);
    }
  }

  // ---- connecting with frames in the queue -----------------------------------------------------

  function Drops(k: nat, n: nat): (ops: seq<Op>)
    ensures |ops| == n && forall op :: op in ops ==> op == DropSock(k)
  {
    if n == 0 then [] else Drops(k, n - 1) + [DropSock(k)]
  }

  /** The socket after the rest of the kernel dropped `n` of its references. */
  function LetGo(w: World, k: nat, n: nat): World
    requires n <= SockAt(w, k).others
  {
    SetSock(w, k, SockAt(w, k).(refs := SockAt(w, k).refs - n, others := SockAt(w, k).others - n))
  }

  lemma {:induction false} DropSome(w: World, k: nat, n: nat)
    requires k in w.socks && n <= w.socks[k].others && w.socks[k].refs == 1 + w.socks[k].others
    ensures RunFrom(w, Drops(k, n)) == LetGo(w, k, n)
  {
    if n == 0 {
      assert LetGo(w, k, 0).socks == w.socks;
    } else {
      DropSome(w, k, n - 1);
      assert Drops(k, n)[..n - 1] == Drops(k, n - 1);
      DropOneMore(w, k, n);
    }
  }

  lemma DropOneMore(w: World, k: nat, n: nat)
    requires k in w.socks && 1 <= n <= w.socks[k].others && w.socks[k].refs == 1 + w.socks[k].others
    ensures Step(LetGo(w, k, n - 1), DropSock(k)) == LetGo(w, k, n)
  {
    assert DropOther(LetGo(w, k, n - 1), k).socks == LetGo(w, k, n).socks;
  }

  /** One more frame arrives, and two frames leave the queue. */
  function Exchange(s: nat, path: Path): seq<Op> {
    [QueueFrame(s, path)] + [DequeueFrame(s)] + [DequeueFrame(s)]
  }

  lemma ExchangeSteps(w: World, s: nat, path: Path)
    ensures RunFrom(w, Exchange(s, path)) == Step(Step(Step(w, QueueFrame(s, path)), DequeueFrame(s)), DequeueFrame(s))
  {
    var a := [QueueFrame(s, path)];
    RunSnoc(w, [], QueueFrame(s, path));
    assert [] + a == a;
    RunSnoc(w, a, DequeueFrame(s));
    RunSnoc(w, a + [DequeueFrame(s)], DequeueFrame(s));
  }

  lemma QueueStep(w: World, s: nat, k: nat, path: Path)
    requires s in w.sessions && Reaches(w, s, path) && w.sessions[s].sock == Some(k) && k in w.socks
    ensures var e := w.sessions[s];
      Step(w, QueueFrame(s, path)) == SetSock(SetSession(w, s, e.(queued := e.queued + 1)), k, w.socks[k].(refs := w.socks[k].refs + 1))
  {
  }

  lemma DequeueStep(w: World, s: nat, k: nat)
    requires s in w.sessions && w.sessions[s].queued > 0 && w.sessions[s].sock == Some(k) && k in w.socks && w.socks[k].refs > 1
    ensures var e := w.sessions[s];
      Step(w, DequeueFrame(s)) == SetSock(SetSession(w, s, e.(queued := e.queued - 1)), k, w.socks[k].(refs := w.socks[k].refs - 1))
  {
  }

  /** The owner's reference is the last one. */
  lemma LastDequeueStep(w: World, s: nat, k: nat)
    requires s in w.sessions && w.sessions[s].queued > 0 && w.sessions[s].sock == Some(k) && w.sessions[s].refCount == 1
    requires k in w.socks && w.socks[k].refs == 1 && w.socks[k].session == Some(s)
    ensures var v := Step(w, DequeueFrame(s));
      && s in v.sessions && v.sessions[s].sock == Some(k) && v.sessions[s].freed && v.sessions[s].hashed == w.sessions[s].hashed
      && k in v.socks && v.socks[k].destroyed && v.socks[k].attached == w.socks[k].attached
  {
  }

  /** A session with a socket that nobody but its owner holds, and a frame in its queue
      that took no reference: the second frame to leave drops the owner's reference. */
  lemma ExchangeDestroys(w: World, s: nat, k: nat, path: Path)
    requires s in w.sessions && Reaches(w, s, path) && w.sessions[s].sock == Some(k) && w.sessions[s].queued > 0
    requires k in w.socks && w.socks[k].refs == 1 && w.socks[k].attached && w.socks[k].session == Some(s)
    requires w.sessions[s].refCount == 1
    ensures var v := RunFrom(w, Exchange(s, path));
      && s in v.sessions && k in v.socks && v.sessions[s].sock == Some(k)
      && v.socks[k].destroyed && v.socks[k].attached && v.sessions[s].freed && v.sessions[s].hashed
  {
    ExchangeSteps(w, s, path);
    QueueStep(w, s, k, path);
    var a := Step(w, QueueFrame(s, path));
    DequeueStep(a, s, k);
    LastDequeueStep(Step(a, DequeueFrame(s)), s, k);
  }

  /** Everybody but the owner lets go of the socket, and then frames are exchanged. */
  function Undoing(s: nat, k: nat, others: nat): (more: seq<Op>)
    ensures forall op :: op in more ==> !op.ConnectSock?
  {
    Drops(k, others) + Exchange(s, OverIp)
  }

  lemma UndoingDestroys(u: World, s: nat, k: nat)
    requires s in u.sessions && u.sessions[s].hashed && u.sessions[s].v3 && u.sessions[s].sock == Some(k) && u.sessions[s].queued > 0
    requires k in u.socks && u.socks[k].refs == 1 + u.socks[k].others && u.socks[k].attached && u.socks[k].session == Some(s)
    requires u.sessions[s].refCount == 1
    ensures !AllFreedOnce(RunFrom(u, Undoing(s, k, u.socks[k].others)))
  {
    var n := u.socks[k].others;
    DropSome(u, k, n);
    ExchangeDestroys(LetGo(u, k, n), s, k, OverIp);
    RunConcat(u, Drops(k, n), Exchange(s, OverIp));
    assert !SessionFate(RunFrom(u, Undoing(s, k, n)), s);
  }

  /** Without any further connect, the run can go on to destroy the socket under its
      owner and to free the session while it is hashed. */
  lemma UnsafeConnectFails(w: World, s: nat, k: nat) returns (more: seq<Op>)
    requires Inv(w, {}) && Goes(w, ConnectSock(s, k)) && w.sessions[s].queued > 0
    ensures forall op :: op in more ==> !op.ConnectSock?
    ensures !AllFreedOnce(RunFrom(Connect(w, s, k), more))
  {
    HashedIsLive(w, s);
    RestFacts(w, s);
    assert SockOk(w, w.socks[k], k);
    more := Undoing(s, k, w.socks[k].others);
    UndoingDestroys(Connect(w, s, k), s, k);
  }

  /** Whatever follows, apart from further connects. */
  ghost predicate StaysRight(w: World) {
    forall more: seq<Op> :: (forall op :: op in more ==> !op.ConnectSock?) ==> AllFreedOnce(RunFrom(w, more))
  }

  lemma {:induction false} ValidStaysRight(w: World, more: seq<Op>)
    requires Valid(w) && forall op :: op in more ==> !op.ConnectSock?
    ensures Valid(RunFrom(w, more))
    decreases |more|
  {
    if more != [] {
      var n := |more| - 1;
      ValidStaysRight(w, more[..n]);
      assert !more[n].ConnectSock?;
      StepKeeps(RunFrom(w, more[..n]), more[n]);
    }
  }

  /** Connecting a socket after a safe run, exactly: every session is freed once and with
      its socket in every continuation, if and only if no frame waited when the session
      got its socket. */
  lemma ConnectRightIff(ops: seq<Op>, s: nat, k: nat)
    requires SafeRun(ops) && Goes(Run(ops), ConnectSock(s, k))
    ensures StaysRight(Connect(Run(ops), s, k)) <==> Run(ops).sessions[s].queued == 0
  {
    var w := Run(ops);
    RunValid(ops);
    if w.sessions[s].queued == 0 {
      ConnectKept(w, s, k);
      forall more: seq<Op> | forall op :: op in more ==> !op.ConnectSock?
        ensures AllFreedOnce(RunFrom(Connect(w, s, k), more))
      {
        ValidStaysRight(Connect(w, s, k), more);
        ValidFreedOnce(RunFrom(Connect(w, s, k), more));
      }
    } else {
      var more := UnsafeConnectFails(w, s, k);
    }
  }

  /** An L2TPv3 tunnel, a session in it and a socket. */
  lemma FreshSession(ip: bool) returns (ops: seq<Op>)
    ensures ops == [NewTunnel(0, true, ip), NewSession(0, 0, 1), NewSock(0)]
    ensures var w := Run(ops);
      && 0 in w.tunnels && w.tunnels[0].ip == ip
      && 0 in w.sessions && w.sessions[0] == Session(0, 1, 1, true, None, 0, false, true)
      && 0 in w.socks && w.socks[0] == Sock(1, None, true, 0, false)
  {
    var a := [NewTunnel(0, true, ip)];
    var b := a + [NewSession(0, 0, 1)];
    RunSnoc(EMPTY, [], NewTunnel(0, true, ip));
    assert [] + a == a;
    RunSnoc(EMPTY, a, NewSession(0, 0, 1));
    assert Run(a).sessions == map[];
    RunSnoc(EMPTY, b, NewSock(0));
    assert Run(b).socks == map[];
    ops := b + [NewSock(0)];
  }

  /** The failing runs from an empty module, for tunnels in UDP and in IP: a frame that
      came as an IP datagram waits for a session of L2TPv3 without a socket, the session
      gets its socket, one more frame arrives on either path that reaches the session,
      and both frames are passed on. */
  lemma WaitingFrameFails(ip: bool, path: Path)
    requires path == OverIp || !ip
    ensures !AllFreedOnce(Run([NewTunnel(0, true, ip), NewSession(0, 0, 1), NewSock(0), QueueFrame(0, OverIp), ConnectSock(0, 0)]
                              + Exchange(0, path)))
  {
    var c := FreshSession(ip);
    RunSnoc(EMPTY, c, QueueFrame(0, OverIp));
    var d := c + [QueueFrame(0, OverIp)];
    assert Run(d) == SetSession(Run(c), 0, Session(0, 1, 1, true, None, 1, false, true));
    RunSnoc(EMPTY, d, ConnectSock(0, 0));
    var e := d + [ConnectSock(0, 0)];
    assert e == [NewTunnel(0, true, ip), NewSession(0, 0, 1), NewSock(0), QueueFrame(0, OverIp), ConnectSock(0, 0)];
    RunConcat(EMPTY, e, Exchange(0, path));
    ExchangeDestroys(Run(e), 0, 0, path);
    assert !SessionFate(RunFrom(Run(e), Exchange(0, path)), 0);
  }
}
