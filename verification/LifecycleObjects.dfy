/** The reference-counting code in its own form: objects updated in place, with each
    BUG_ON check of the source, and each use of an object through a pointer, as an
    assertion. */
module LifecycleObjects {
  import opened Common
  import L = Lifecycle
  import opened Lifecycle
  import Runs = LifecycleRuns

  /** A tunnel whose references add up and whose chain holds live sessions only. */
  ghost predicate TunnelFit(w: World, t: nat) {
    && t in w.tunnels && TunnelOk(w.tunnels[t], |Live(w, t)|)
    && forall x :: x in w.tunnels[t].hlist ==> x in Live(w, t)
  }

  /** What l2tp_session_dec_refcount needs: the session and its tunnel exist, and a
      session with one reference left is not in the index. */
  ghost predicate CanDrop(w: World, s: nat) {
    && s in w.sessions && !w.sessions[s].freed && w.sessions[s].refCount >= 1
    && TunnelFit(w, w.sessions[s].tunnel)
    && (w.sessions[s].refCount == 1 ==> s !in w.tunnels[w.sessions[s].tunnel].hlist)
  }

  /** What sock_put on a PPP socket needs. */
  ghost predicate CanPut(w: World, k: nat) {
    && k in w.socks && !w.socks[k].destroyed && w.socks[k].refs >= 1
    && (w.socks[k].refs == 1 && w.socks[k].session.Some? ==> CanDrop(w, w.socks[k].session.value))
  }

  class Core {
    var tunnels: map<nat, Tunnel>
    var sessions: map<nat, Session>
    var socks: map<nat, Sock>
    var sessionCount: int

    /** Sessions in the order in which they were freed. */
    ghost var freeLog: seq<nat>

    ghost function View(): World
      reads this
    {
      World(tunnels, sessions, socks, sessionCount, freeLog)
    }

    constructor ()
      ensures View() == EMPTY
    {
      tunnels, sessions, socks, sessionCount, freeLog := map[], map[], map[], 0, [];
    }

    /** l2tp_tunnel_dec_refcount, and l2tp_tunnel_free with its two checks. */
    method TunnelDecRefcount(t: nat)
      requires t in tunnels && !tunnels[t].freed && tunnels[t].refCount >= 1
      requires tunnels[t].refCount == 1 ==> !tunnels[t].hasSock
      modifies `tunnels
      ensures tunnels == old(tunnels)[t := L.TunnelDec(old(tunnels)[t])]
    {
      var r := tunnels[t];
      r := r.(refCount := r.refCount - 1);
      if r.refCount == 0 {
        assert !(r.refCount != 0);
        assert !r.hasSock;
        r := r.(freed := true);
      }
      tunnels := tunnels[t := r];
    }

    /** l2tp_tunnel_destruct: the tunnel loses its socket and its place in the list;
        no session is left for the closeall that follows. */
    method TunnelDestruct(t: nat)
      requires t in tunnels && !tunnels[t].freed && tunnels[t].hasSock && tunnels[t].refCount >= 1 && tunnels[t].hlist == []
      modifies `tunnels
      ensures tunnels == old(tunnels)[t := L.TunnelDec(old(tunnels)[t].(hasSock := false, listed := false))]
    {
      tunnels := tunnels[t := tunnels[t].(hasSock := false)];
      tunnels := tunnels[t := tunnels[t].(listed := false)];
      assert tunnels[t].hlist == [];
      TunnelDecRefcount(t);
    }

    /** sock_put on the tunnel socket. */
    method TunnelSockPut(t: nat)
      requires t in tunnels && !tunnels[t].freed && tunnels[t].hasSock && tunnels[t].sockRefs >= 1 && tunnels[t].refCount >= 1
      requires tunnels[t].sockRefs == 1 ==> tunnels[t].hlist == []
      modifies `tunnels
      ensures tunnels == old(tunnels)[t := L.TunnelSockPut(old(tunnels)[t])]
    {
      tunnels := tunnels[t := tunnels[t].(sockRefs := tunnels[t].sockRefs - 1)];
      if tunnels[t].sockRefs == 0 {
        TunnelDestruct(t);
      }
    }

    /** l2tp_session_free with its check; it puts the tunnel's socket and then the
        tunnel, both of which are still there. */
    method SessionFree(s: nat)
      requires s in sessions && !sessions[s].freed && sessions[s].refCount == 0
      requires TunnelFit(View(), sessions[s].tunnel) && s !in tunnels[sessions[s].tunnel].hlist
      modifies this
      ensures View() == L.SessionFree(old(View()), s)
    {
      assert !(sessions[s].refCount != 0);
      var t := sessions[s].tunnel;
      LastSession(View(), s, t);
      DropSessionOk(tunnels[t], |Live(View(), t)|);
      assert !tunnels[t].freed;
      if sessions[s].id != 0 {
        sessionCount := sessionCount - 1;
      }
      assert tunnels[t].hasSock;
      TunnelSockPut(t);
      TunnelDecRefcount(t);
      sessions := sessions[s := sessions[s].(freed := true)];
      freeLog := freeLog + [s];
    }

    /** l2tp_session_dec_refcount. */
    method SessionDecRefcount(s: nat)
      requires CanDrop(View(), s)
      modifies this
      ensures View() == L.SessionDec(old(View()), s)
    {
      ghost var t := sessions[s].tunnel;
      ghost var live := Live(View(), t);
      sessions := sessions[s := sessions[s].(refCount := sessions[s].refCount - 1)];
      assert Live(View(), t) == live;
      if sessions[s].refCount == 0 {
        SessionFree(s);
      }
    }

    method SockHold(k: nat)
      requires k in socks && !socks[k].destroyed
      modifies `socks
      ensures View() == L.SockHold(old(View()), k)
    {
      socks := socks[k := socks[k].(refs := socks[k].refs + 1)];
    }

    /** sock_put on a PPP socket, and pppol2tp_session_destruct at zero. */
    method SockPut(k: nat)
      requires CanPut(View(), k)
      modifies this
      ensures View() == L.SockPut(old(View()), k)
    {
      ghost var w := View();
      var e := socks[k];
      e := e.(refs := e.refs - 1);
      if e.refs != 0 {
        socks := socks[k := e];
        return;
      }
      var session := e.session;
      socks := socks[k := e.(destroyed := true, session := None)];
      if session.Some? {
        assert Live(View(), sessions[session.value].tunnel) == Live(w, sessions[session.value].tunnel);
        SessionDecRefcount(session.value);
      }
    }

    /** __l2tp_session_unhash. */
    method SessionUnhash(s: nat)
      requires s in sessions && sessions[s].tunnel in tunnels
      modifies `sessions, `tunnels
      ensures View() == L.Unhash(old(View()), s)
    {
      var t := sessions[s].tunnel;
      sessions := sessions[s := sessions[s].(hashed := false)];
      tunnels := tunnels[t := tunnels[t].(hlist := Without(tunnels[t].hlist, s))];
    }

    /** l2tp_session_queue_purge, while the caller holds the socket. */
    method QueuePurge(s: nat)
      requires s in sessions
      requires sessions[s].sock.Some? ==> var k := sessions[s].sock.value; k in socks && !socks[k].destroyed && socks[k].refs > sessions[s].queued
      modifies this
      ensures View() == L.Purge(old(View()), s)
    {
      ghost var start := View();
      while sessions[s].queued > 0
        invariant s in sessions && sessions[s].sock == start.sessions[s].sock
        invariant sessions[s].sock.Some? ==>
          var k := sessions[s].sock.value; k in socks && !socks[k].destroyed && socks[k].refs > sessions[s].queued
        invariant PurgeN(View(), s, sessions[s].queued) == L.Purge(start, s)
        decreases sessions[s].queued
      {
        var sock := sessions[s].sock;
        sessions := sessions[s := sessions[s].(queued := sessions[s].queued - 1)];
        if sock.Some? {
          SockPut(sock.value);
        }
      }
    }

    /** pppol2tp_session_close: the socket is still there, and keeps the session if it
        is attached. */
    method SessionClose(s: nat, k: nat)
      requires s in sessions && k in socks && !socks[k].destroyed
      modifies `sessions
      ensures View() == if socks[k].attached then SessionInc(old(View()), s) else old(View())
    {
      assert !socks[k].destroyed;
      if socks[k].attached {
        sessions := sessions[s := sessions[s].(refCount := sessions[s].refCount + 1)];
      }
    }

    /** l2tp_session_delete of a connected session. */
    method DeleteConnected(s: nat, k: nat)
      requires s in sessions && !sessions[s].freed && sessions[s].tunnel in tunnels && sessions[s].hashed && sessions[s].sock == Some(k)
      requires TunnelFit(View(), sessions[s].tunnel) && k in socks && SockOf(socks[k], s, sessions[s]) && sessions[s].refCount == 1
      modifies this
      ensures View() == L.SessionDelete(old(View()), s)
    {
      ConnectedHeld(View(), s, k);
      SockHold(k);
      SessionUnhash(s);
      QueuePurge(s);
      SessionClose(s, k);
      SockPut(k);
      SessionDecRefcount(s);
    }

    /** l2tp_session_delete and the body of the closeall loop. */
    method SessionDelete(s: nat)
      requires Inv(View(), {}) && s in sessions && sessions[s].hashed
      modifies this
      ensures View() == L.SessionDelete(old(View()), s)
    {
      HashedIsLive(View(), s);
      RestFacts(View(), s);
      InvFit(View(), sessions[s].tunnel);
      var sock := sessions[s].sock;
      if sock.None? {
        UnconnectedDrops(View(), s);
        SessionUnhash(s);
        QueuePurge(s);
        SessionDecRefcount(s);
      } else {
        DeleteConnected(s, sock.value);
      }
    }

    /** One round of closeall. */
    method CloseHead(t: nat)
      requires Inv(View(), {}) && t in tunnels && tunnels[t].hlist != []
      modifies this
      ensures Inv(View(), {}) && t in tunnels && |tunnels[t].hlist| < |old(tunnels)[t].hlist|
      ensures L.CloseAll(View(), t) == old(L.CloseAll(View(), t))
    {
      HeadIsHashed(View(), t);
      ghost var v := CloseOne(View(), t);
      SessionDelete(tunnels[t].hlist[0]);
      assert View() == v;
    }

    /** l2tp_tunnel_closeall: restart at the head of the chain after each session. */
    method TunnelCloseAll(t: nat)
      requires Inv(View(), {}) && t in tunnels
      modifies this
      ensures Inv(View(), {}) && View() == L.CloseAll(old(View()), t)
      ensures t in tunnels && tunnels[t].hlist == []
    {
      while tunnels[t].hlist != []
        invariant Inv(View(), {}) && t in tunnels && L.CloseAll(View(), t) == old(L.CloseAll(View(), t))
        decreases |tunnels[t].hlist|
      {
        CloseHead(t);
      }
    }

    /** pppol2tp_release; a socket that is already dead is refused. */
    method SockRelease(k: nat) returns (ok: bool)
      requires Inv(View(), {}) && k in socks
      modifies this
      ensures ok == old(socks)[k].attached && View() == L.Release(old(View()), k)
    {
      if !socks[k].attached {
        return false;
      }
      ReleaseHeld(View(), k);
      socks := socks[k := socks[k].(attached := false)];
      var session := socks[k].session;
      if session.Some? {
        SockHold(k);
        SessionUnhash(session.value);
        QueuePurge(session.value);
        SockPut(k);
      }
      SockPut(k);
      ok := true;
    }

    // ---- tunnels ------------------------------------------------------------------------

    /** l2tp_tunnel_create. */
    method TunnelCreate(t: nat, v3: bool, ip: bool)
      requires t !in tunnels
      modifies `tunnels
      ensures View() == L.TunnelCreate(old(View()), t, v3, ip)
    {
      tunnels := tunnels[t := Tunnel(1, true, true, 1, 1, false, 0, [], false, v3, ip)];
    }

    /** l2tp_session_create: the session holds its tunnel and the tunnel's socket. */
    method SessionCreate(s: nat, t: nat, id: nat)
      requires s !in sessions && t in tunnels
      modifies `tunnels, `sessions, `sessionCount
      ensures View() == L.SessionCreate(old(View()), s, t, id)
    {
      sessions := sessions[s := Session(t, id, 1, true, None, 0, false, tunnels[t].v3)];
      var r := tunnels[t];
      r := r.(refCount := r.refCount + 1);
      r := r.(sockRefs := r.sockRefs + 1);
      r := r.(hlist := [s] + r.hlist);
      tunnels := tunnels[t := r];
      if id != 0 {
        sessionCount := sessionCount + 1;
      }
    }

    /** queue_work: the caller's reference passes to the work, or is dropped if the work
        is queued already. */
    method QueueDelWork(t: nat)
      requires t in tunnels && !tunnels[t].freed && (tunnels[t].pending ==> tunnels[t].refCount >= 2)
      modifies `tunnels
      ensures View() == L.QueueWork(old(View()), t)
    {
      tunnels := tunnels[t := tunnels[t].(held := tunnels[t].held - 1)];
      if tunnels[t].pending {
        TunnelDecRefcount(t);
      } else {
        tunnels := tunnels[t := tunnels[t].(pending := true)];
      }
    }

    /** l2tp_tunnel_inc_refcount for the call in progress. */
    method TunnelIncRefcount(t: nat)
      requires t in tunnels && !tunnels[t].freed
      modifies `tunnels
      ensures View() == L.Held(old(View()), t)
    {
      tunnels := tunnels[t := tunnels[t].(refCount := tunnels[t].refCount + 1, held := tunnels[t].held + 1)];
    }

    /** l2tp_tunnel_delete: close all sessions under a reference, then queue the work. */
    method TunnelDelete(t: nat)
      requires L.Valid(View()) && t in tunnels && tunnels[t].listed
      modifies this
      ensures View() == L.TunnelDelete(old(View()), t)
    {
      HeldByDelete(View(), t);
      TunnelIncRefcount(t);
      TunnelCloseAll(t);
      QueueDelWork(t);
    }

    /** l2tp_tunnel_del_work: hold the socket while it is shut down, if it is still
        there, and drop the reference of the work. */
    method DelWork(t: nat)
      requires TunnelFit(View(), t) && tunnels[t].pending
      modifies `tunnels
      ensures View() == SetTunnel(old(View()), t, FinishWork(old(tunnels)[t]))
      ensures var r := old(tunnels)[t];
        tunnels == old(tunnels)[t := r.(pending := false, refCount := r.refCount - 1, freed := r.refCount == 1)]
    {
      tunnels := tunnels[t := tunnels[t].(pending := false)];
      if tunnels[t].hasSock {
        tunnels := tunnels[t := tunnels[t].(sockRefs := tunnels[t].sockRefs + 1)];
        TunnelSockPut(t);
      }
      TunnelDecRefcount(t);
    }

    /** The rest of the kernel takes a reference of the tunnel socket. */
    method TunnelSockHold(t: nat)
      requires t in tunnels && tunnels[t].hasSock
      modifies `tunnels
      ensures View() == SetTunnel(old(View()), t, HoldOwner(old(tunnels)[t]))
    {
      tunnels := tunnels[t := tunnels[t].(ownerRefs := tunnels[t].ownerRefs + 1)];
      tunnels := tunnels[t := tunnels[t].(sockRefs := tunnels[t].sockRefs + 1)];
    }

    /** The rest of the kernel drops one; the last reference destroys the socket. */
    method TunnelSockDrop(t: nat)
      requires TunnelFit(View(), t) && tunnels[t].hasSock && tunnels[t].ownerRefs > 0
      modifies `tunnels
      ensures View() == SetTunnel(old(View()), t, DropOwner(old(tunnels)[t]))
    {
      NoSession(View(), t);
      tunnels := tunnels[t := tunnels[t].(ownerRefs := tunnels[t].ownerRefs - 1)];
      TunnelSockPut(t);
    }

    // ---- sockets and frames ---------------------------------------------------------------

    /** pppol2tp_create. */
    method SockCreate(k: nat)
      requires k !in socks
      modifies `socks
      ensures View() == L.SockCreate(old(View()), k)
    {
      socks := socks[k := Sock(1, None, true, 0, false)];
    }

    /** The end of pppol2tp_connect: session and socket point to each other, and the
        callbacks are set. */
    method SockConnect(s: nat, k: nat)
      requires s in sessions && k in socks
      modifies `sessions, `socks
      ensures View() == L.Connect(old(View()), s, k)
    {
      sessions := sessions[s := sessions[s].(sock := Some(k))];
      socks := socks[k := socks[k].(session := Some(s))];
    }

    /** The rest of the kernel takes and drops references of a PPP socket. */
    method SockHoldOther(k: nat)
      requires k in socks && !socks[k].destroyed
      modifies `socks
      ensures View() == L.HoldOther(old(View()), k)
    {
      socks := socks[k := socks[k].(others := socks[k].others + 1)];
      SockHold(k);
    }

    method SockDropOther(k: nat)
      requires Inv(View(), {}) && k in socks && socks[k].others > 0
      modifies this
      ensures View() == L.DropOther(old(View()), k)
    {
      DropHeld(View(), k);
      socks := socks[k := socks[k].(others := socks[k].others - 1)];
      SockPut(k);
    }

    /** A frame enters the reorder queue, with the ref callback if there is one. */
    method FrameQueued(s: nat)
      requires s in sessions
      requires sessions[s].sock.Some? ==> sessions[s].sock.value in socks && !socks[sessions[s].sock.value].destroyed
      modifies `sessions, `socks
      ensures View() == L.QueueOne(old(View()), s)
    {
      sessions := sessions[s := sessions[s].(queued := sessions[s].queued + 1)];
      if sessions[s].sock.Some? {
        SockHold(sessions[s].sock.value);
      }
    }

    /** A frame leaves the reorder queue, with the deref callback if there is one. */
    method FrameDequeued(s: nat)
      requires s in sessions && sessions[s].queued > 0
      requires sessions[s].sock.Some? ==>
        CanPut(SetSession(View(), s, sessions[s].(queued := sessions[s].queued - 1)), sessions[s].sock.value)
      modifies this
      ensures View() == L.DequeueOne(old(View()), s)
    {
      sessions := sessions[s := sessions[s].(queued := sessions[s].queued - 1)];
      if sessions[s].sock.Some? {
        SockPut(sessions[s].sock.value);
      }
    }

    // ---- whole runs -------------------------------------------------------------------------

    method ExecuteSockOp(op: Op)
      requires L.Valid(View()) && IsSockOp(op) && L.Goes(View(), op)
      modifies this
      ensures View() == L.SockStep(old(View()), op)
    {
      match op
      case NewSock(k) => SockCreate(k);
      case ConnectSock(s, k) => SockConnect(s, k);
      case ReleaseSock(k) => var _ := SockRelease(k);
      case HoldSock(k) => SockHoldOther(k);
      case DropSock(k) => SockDropOther(k);
      case QueueFrame(s, _) =>
        QueueHeld(View(), s);
        FrameQueued(s);
      case DequeueFrame(s) =>
        DequeueHeld(View(), s);
        FrameDequeued(s);
    }

    method ExecuteTunnelOp(op: Op)
      requires L.Valid(View()) && !IsSockOp(op) && L.Goes(View(), op)
      modifies this
      ensures View() == L.TunnelStep(old(View()), op)
    {
      match op
      case NewTunnel(t, v3, ip) => TunnelCreate(t, v3, ip);
      case NewSession(s, t, id) => SessionCreate(s, t, id);
      case DeleteSession(s) => SessionDelete(s);
      case CloseTunnel(t) => TunnelCloseAll(t);
      case DeleteTunnel(t) => TunnelDelete(t);
      case RunWork(t) =>
        InvFit(View(), t);
        DelWork(t);
      case HoldTunnelSock(t) => TunnelSockHold(t);
      case DropTunnelSock(t) =>
        InvFit(View(), t);
        TunnelSockDrop(t);
    }

    /** One call or event, with all its checks; a call that fails its own checks returns
        an error and changes nothing. */
    method Execute(op: Op)
      requires L.Valid(View()) && Runs.Safe(View(), op)
      modifies this
      ensures L.Valid(View()) && View() == L.Step(old(View()), op)
    {
      Runs.StepKeeps(View(), op);
      if L.Goes(World(tunnels, sessions, socks, sessionCount, []), op) {
        if IsSockOp(op) {
          ExecuteSockOp(op);
        } else {
          ExecuteTunnelOp(op);
        }
      }
    }
  }

  /** A whole safe run in place: no check of the source fails in any of its calls. */
  method ExecuteAll(ops: seq<Op>) returns (core: Core)
    requires Runs.SafeRun(ops)
    ensures fresh(core) && core.View() == Runs.Run(ops)
  {
    core := new Core();
    Runs.EmptyIsValid();
    var n := 0;
    while n < |ops|
      invariant 0 <= n <= |ops| && fresh(core)
      invariant L.Valid(core.View()) && core.View() == Runs.Run(ops[..n])
    {
      Runs.RunOneMore(EMPTY, ops, n);
      core.Execute(ops[n]);
      n := n + 1;
    }
    assert ops[..n] == ops;
  }

  // ---- what the calls rely on ----------------------------------------------------------------

  lemma InvFit(w: World, t: nat)
    requires TunnelsOk(w) && SessionsOk(w, {}) && ListsOk(w) && t in w.tunnels
    ensures TunnelFit(w, t)
  {
    assert TunnelOk(w.tunnels[t], |Live(w, t)|);
    assert ListOk(w.sessions, w.tunnels[t].hlist, t);
  }

  /** When the last session of a tunnel goes and nobody else holds its socket, its chain
      is empty. */
  lemma LastSession(w: World, s: nat, t: nat)
    requires TunnelFit(w, t) && s in w.sessions && !w.sessions[s].freed && w.sessions[s].tunnel == t && s !in w.tunnels[t].hlist
    ensures |Live(w, t)| >= 1 && (w.tunnels[t].sockRefs == 1 ==> w.tunnels[t].hlist == [])
  {
    assert s in Live(w, t);
    var rest := Live(w, t) - {s};
    if w.tunnels[t].hlist != [] {
      var x := w.tunnels[t].hlist[0];
      assert x in w.tunnels[t].hlist;
      assert x in rest;
      assert |rest| == |Live(w, t)| - 1;
    }
  }

  /** A tunnel socket with no reference but the owner's belongs to a tunnel without
      sessions. */
  lemma NoSession(w: World, t: nat)
    requires TunnelFit(w, t) && w.tunnels[t].hasSock && w.tunnels[t].ownerRefs > 0
    ensures w.tunnels[t].sockRefs == 1 ==> w.tunnels[t].hlist == []
    ensures w.tunnels[t].refCount >= 1 && !w.tunnels[t].freed
  {
    if w.tunnels[t].hlist != [] {
      assert w.tunnels[t].hlist[0] in w.tunnels[t].hlist;
      assert w.tunnels[t].hlist[0] in Live(w, t);
    }
  }

  /** While l2tp_tunnel_delete holds the tunnel, closing its sessions cannot free it. */
  lemma HeldByDelete(w: World, t: nat)
    requires L.Valid(w) && t in w.tunnels && w.tunnels[t].listed
    ensures !w.tunnels[t].freed && Inv(Held(w, t), {})
    ensures var b := L.CloseAll(Held(w, t), t);
      t in b.tunnels && !b.tunnels[t].freed && (b.tunnels[t].pending ==> b.tunnels[t].refCount >= 2)
  {
    assert TunnelOk(w.tunnels[t], |Live(w, t)|);
    HeldOk(w, t);
    CloseAllEffect(Held(w, t), t);
    var b := L.CloseAll(Held(w, t), t);
    assert TunnelOk(b.tunnels[t], |Live(b, t)|);
  }

  /** A reference of the rest of the kernel can be dropped. */
  lemma DropHeld(w: World, k: nat)
    requires Inv(w, {}) && k in w.socks && w.socks[k].others > 0
    ensures CanPut(SetSock(w, k, w.socks[k].(others := w.socks[k].others - 1)), k)
  {
    assert SockOk(w, w.socks[k], k);
    if w.socks[k].session.Some? {
      var s := w.socks[k].session.value;
      var u := SetSock(w, k, w.socks[k].(others := w.socks[k].others - 1));
      RestFacts(w, s);
      InvFit(w, w.sessions[s].tunnel);
      assert ListOk(w.sessions, w.tunnels[w.sessions[s].tunnel].hlist, w.sessions[s].tunnel);
      assert Live(u, w.sessions[s].tunnel) == Live(w, w.sessions[s].tunnel);
    }
  }

  lemma QueueHeld(w: World, s: nat)
    requires SessionsOk(w, {}) && SocksOk(w) && s in w.sessions && w.sessions[s].hashed
    ensures w.sessions[s].sock.Some? ==> w.sessions[s].sock.value in w.socks && !w.socks[w.sessions[s].sock.value].destroyed
  {
    HashedIsLive(w, s);
    RestFacts(w, s);
  }

  /** So can the reference of a queued frame, and that is never the last one while the
      session is in the index. */
  lemma DequeueHeld(w: World, s: nat)
    requires Inv(w, {}) && s in w.sessions && w.sessions[s].queued > 0
    ensures w.sessions[s].sock.Some? ==>
      CanPut(SetSession(w, s, w.sessions[s].(queued := w.sessions[s].queued - 1)), w.sessions[s].sock.value)
  {
    QueuedIsLive(w, s);
    RestFacts(w, s);
  }

  /** A session without a socket can be dropped after it has left the index. */
  lemma UnconnectedDrops(w: World, s: nat)
    requires s in w.sessions && !w.sessions[s].freed && TunnelFit(w, w.sessions[s].tunnel)
    requires w.sessions[s].refCount == 1 && w.sessions[s].sock.None?
    ensures CanDrop(L.Cleared(w, s), s)
  {
    var t := w.sessions[s].tunnel;
    DropSteps(w, s);
    assert Live(L.Cleared(w, s), t) == Live(w, t);
  }

  /** While the call holds the socket of a connected session, purging its queue cannot
      destroy it, and the session has a second reference when the call lets go. */
  lemma ConnectedHeld(w: World, s: nat, k: nat)
    requires s in w.sessions && !w.sessions[s].freed && TunnelFit(w, w.sessions[s].tunnel) && w.sessions[s].hashed
    requires k in w.socks && w.sessions[s].sock == Some(k) && SockOf(w.socks[k], s, w.sessions[s]) && w.sessions[s].refCount == 1
    ensures var a := L.Purge(L.Unhash(L.SockHold(w, k), s), s);
      && k in a.socks && s in a.sessions && a.socks[k].attached && !a.socks[k].destroyed && a.socks[k].refs >= 2
      && CanPut(SessionInc(a, s), k) && CanDrop(L.SockPut(SessionInc(a, s), k), s)
  {
    var u := L.Unhash(L.SockHold(w, k), s);
    PurgeHeld(u, s, k, w.sessions[s].queued);
    var t := w.sessions[s].tunnel;
    var c := L.SockPut(SessionInc(L.Purge(u, s), s), k);
    assert Live(c, t) == Live(w, t);
  }

  /** During pppol2tp_release the socket survives until the last sock_put, and that
      one may free the session. */
  lemma ReleaseHeld(w: World, k: nat)
    requires Inv(w, {}) && k in w.socks && w.socks[k].attached
    ensures !w.socks[k].destroyed && w.socks[k].refs >= 1
    ensures w.socks[k].session.None? ==> CanPut(SetSock(w, k, w.socks[k].(attached := false)), k)
    ensures w.socks[k].session.Some? ==>
      var s := w.socks[k].session.value;
      var u := L.Unhash(L.SockHold(SetSock(w, k, w.socks[k].(attached := false)), k), s);
      && s in w.sessions && w.sessions[s].tunnel in w.tunnels && w.sessions[s].sock == Some(k)
      && w.socks[k].refs > w.sessions[s].queued
      && CanPut(L.Purge(u, s), k) && CanPut(L.SockPut(L.Purge(u, s), k), k)
  {
    assert SockOk(w, w.socks[k], k);
    if w.socks[k].session.Some? {
      var s := w.socks[k].session.value;
      RestFacts(w, s);
      var t := w.sessions[s].tunnel;
      InvFit(w, t);
      ReleasePuts(w, s, k, t);
    }
  }

  lemma ReleasePuts(w: World, s: nat, k: nat, t: nat)
    requires s in w.sessions && !w.sessions[s].freed && w.sessions[s].sock == Some(k) && w.sessions[s].tunnel == t
    requires TunnelFit(w, t) && w.sessions[s].refCount == 1
    requires k in w.socks && SockOf(w.socks[k], s, w.sessions[s]) && w.socks[k].attached
    ensures var u := L.Unhash(L.SockHold(SetSock(w, k, w.socks[k].(attached := false)), k), s);
      CanPut(L.Purge(u, s), k) && CanPut(L.SockPut(L.Purge(u, s), k), k)
  {
    var u := L.Unhash(L.SockHold(SetSock(w, k, w.socks[k].(attached := false)), k), s);
    PurgeHeld(u, s, k, w.sessions[s].queued);
    var p := L.Purge(u, s);
    assert p.socks[k].refs == 2 + p.socks[k].others;
    var q := L.SockPut(p, k);
    assert Live(q, t) == Live(w, t);
  }
}
