/** Creation and destruction of tunnels, sessions and PPP sockets. Objects live in
    maps and are marked when freed, so that their history stays visible. */
module Lifecycle {
  import opened Common

  /** A tunnel. `sockRefs` counts its socket: `ownerRefs` for the owner and the rest
      of the kernel, and one for each session. `pending` tells that the delete work
      is queued, `held` counts references of calls in progress, and `hlist` holds the
      sessions in the hash table. `v3` tells L2TPv3 from L2TPv2, `ip` IP from UDP
      encapsulation. */
  datatype Tunnel = Tunnel(
    refCount: int, listed: bool, hasSock: bool, sockRefs: int, ownerRefs: nat, pending: bool, held: int,
    hlist: seq<nat>, freed: bool, v3: bool, ip: bool)

  /** A PPP session. `sock` is the PPP socket in its private part, `queued` the length
      of its reorder queue. `v3` repeats the version of its tunnel: sessions of L2TPv3
      are in the index of the whole net. */
  datatype Session = Session(
    tunnel: nat, id: nat, refCount: int, hashed: bool, sock: Option<nat>, queued: nat, freed: bool, v3: bool)

  /** A PPP socket. `session` is sk_user_data, `attached` tells whether sk_socket is
      set, `others` counts references of the rest of the kernel. */
  datatype Sock = Sock(refs: int, session: Option<nat>, attached: bool, others: nat, destroyed: bool)

  /** All objects, the session counter, and the sessions in the order of freeing. */
  datatype World = World(
    tunnels: map<nat, Tunnel>, sessions: map<nat, Session>, socks: map<nat, Sock>, count: int, freeLog: seq<nat>)

  const EMPTY: World := World(map[], map[], map[], 0, [])

  // ---- reference counting -------------------------------------------------------------

  /** l2tp_tunnel_dec_refcount, with l2tp_tunnel_free at zero. */
  function TunnelDec(t: Tunnel): Tunnel {
    t.(refCount := t.refCount - 1, freed := t.freed || t.refCount == 1)
  }

  /** sock_put on the tunnel socket; the last one runs l2tp_tunnel_destruct. */
  function TunnelSockPut(t: Tunnel): Tunnel {
    var r := t.(sockRefs := t.sockRefs - 1);
    if r.sockRefs == 0 then TunnelDec(r.(hasSock := false, listed := false)) else r
  }

  function SetTunnel(w: World, t: nat, r: Tunnel): World {
    w.(tunnels := w.tunnels[t := r])
  }

  function SetSession(w: World, s: nat, e: Session): World {
    w.(sessions := w.sessions[s := e])
  }

  function SetSock(w: World, k: nat, e: Sock): World {
    w.(socks := w.socks[k := e])
  }

  /** The object that a pointer refers to; every state reached has it in its map. */
  function TunnelAt(w: World, t: nat): Tunnel {
    if t in w.tunnels then w.tunnels[t] else Tunnel(0, false, false, 0, 0, false, 0, [], true, false, false)
  }

  function SessionAt(w: World, s: nat): Session {
    if s in w.sessions then w.sessions[s] else Session(0, 0, 0, false, None, 0, true, false)
  }

  function SockAt(w: World, k: nat): Sock {
    if k in w.socks then w.socks[k] else Sock(0, None, false, 0, true)
  }

  /** l2tp_session_free. */
  function SessionFree(w: World, s: nat): World {
    var e := SessionAt(w, s);
    World(w.tunnels[e.tunnel := TunnelDec(TunnelSockPut(TunnelAt(w, e.tunnel)))],
          w.sessions[s := e.(freed := true)],
          w.socks,
          w.count - One(e.id != 0),
          w.freeLog + [s])
  }

  function SessionInc(w: World, s: nat): World {
    SetSession(w, s, SessionAt(w, s).(refCount := SessionAt(w, s).refCount + 1))
  }

  /** l2tp_session_dec_refcount. */
  function SessionDec(w: World, s: nat): World {
    var e := SessionAt(w, s).(refCount := SessionAt(w, s).refCount - 1);
    if e.refCount == 0 then SessionFree(SetSession(w, s, e), s) else SetSession(w, s, e)
  }

  function SockHold(w: World, k: nat): World {
    SetSock(w, k, SockAt(w, k).(refs := SockAt(w, k).refs + 1))
  }

  /** sock_put on a PPP socket; the last one runs pppol2tp_session_destruct. */
  function SockPut(w: World, k: nat): World {
    var e := SockAt(w, k).(refs := SockAt(w, k).refs - 1);
    if e.refs != 0 then SetSock(w, k, e)
    else
      var v := SetSock(w, k, e.(destroyed := true, session := None));
      if e.session.Some? then SessionDec(v, e.session.value) else v
  }

  // ---- leaving the index and the queue ---------------------------------------------------

  /** __l2tp_session_unhash. */
  function Unhash(w: World, s: nat): World {
    var e := SessionAt(w, s);
    var t := TunnelAt(w, e.tunnel);
    SetTunnel(SetSession(w, s, e.(hashed := false)), e.tunnel, t.(hlist := Without(t.hlist, s)))
  }

  /** Take `n` frames off the queue, with one sock_put each if the session has a socket
      by now. */
  function PurgeN(w: World, s: nat, n: nat): World
    decreases n
  {
    if n == 0 then w
    else
      var e := SessionAt(w, s);
      var v := SetSession(w, s, e.(queued := n - 1));
      PurgeN(if e.sock.Some? then SockPut(v, e.sock.value) else v, s, n - 1)
  }

  /** l2tp_session_queue_purge. */
  function Purge(w: World, s: nat): World {
    PurgeN(w, s, SessionAt(w, s).queued)
  }

  /** Out of the index and with an empty queue. */
  function Cleared(w: World, s: nat): World {
    Purge(Unhash(w, s), s)
  }

  // ---- operations -----------------------------------------------------------------------------

  /** l2tp_session_delete, and the body of the loop in l2tp_tunnel_closeall. The
      callbacks are set only if the session has a socket; pppol2tp_session_close takes
      a reference for a socket that is still attached. */
  function SessionDelete(w: World, s: nat): World {
    var k := SessionAt(w, s).sock;
    if k.None? then SessionDec(Cleared(w, s), s)
    else
      var a := Cleared(SockHold(w, k.value), s);
      var b := if SockAt(a, k.value).attached then SessionInc(a, s) else a;
      SessionDec(SockPut(b, k.value), s)
  }

  /** pppol2tp_release. */
  function Release(w: World, k: nat): World {
    if !SockAt(w, k).attached then w
    else
      var a := SetSock(w, k, SockAt(w, k).(attached := false));
      var s := SockAt(w, k).session;
      SockPut(if s.Some? then SockPut(Cleared(SockHold(a, k), s.value), k) else a, k)
  }

  // ---- what every call keeps --------------------------------------------------------------------

  ghost function Live(w: World, t: nat): set<nat> {
    set s | s in w.sessions && !w.sessions[s].freed && w.sessions[s].tunnel == t
  }

  /** Live sessions apart from management sessions. */
  ghost function Counted(w: World): set<nat> {
    set s | s in w.sessions && !w.sessions[s].freed && w.sessions[s].id != 0
  }

  /** The references of a tunnel with `live` sessions: one for the list, one for each
      session, one for the pending delete work, and those of calls in progress. A
      tunnel with sessions has its socket, and a tunnel is freed exactly when nothing
      refers to it. */
  predicate TunnelOk(t: Tunnel, live: nat) {
    && t.held >= 0 && t.refCount == One(t.listed) + live + One(t.pending) + t.held
    && t.listed == t.hasSock
    && (t.hasSock ==> t.sockRefs == t.ownerRefs + live && t.sockRefs > 0)
    && (!t.hasSock ==> live == 0 && t.ownerRefs == 0)
    && (t.freed <==> t.refCount == 0)
  }

  ghost predicate TunnelsOk(w: World) {
    forall t {:trigger w.tunnels[t]} :: t in w.tunnels ==> TunnelOk(w.tunnels[t], |Live(w, t)|)
  }

  /** A session at rest has one reference. Without a socket it is in the hash table, and
      only one of L2TPv3 can have frames queued; with one, the socket is alive, points back,
      and counts its owner, the queued frames and the rest of the kernel. */
  ghost predicate AtRest(w: World, s: nat) {
    var e := SessionAt(w, s);
    && e.refCount == 1
    && (e.sock.None? ==> e.hashed && (e.queued == 0 || e.v3))
    && (!e.hashed ==> e.queued == 0)
    && (e.sock.Some? ==> e.sock.value in w.socks && SockOf(w.socks[e.sock.value], s, e))
  }

  predicate SockOf(k: Sock, s: nat, e: Session) {
    && !k.destroyed && k.session == Some(s)
    && k.refs == One(k.attached) + e.queued + k.others
    && (e.hashed ==> k.attached)
  }

  /** Nothing refers to the session any more, and its socket is gone. */
  ghost predicate Unreferenced(w: World, s: nat) {
    var e := SessionAt(w, s);
    && e.refCount == 0 && !e.hashed && e.queued == 0
    && (e.sock.Some? ==> e.sock.value in w.socks && w.socks[e.sock.value].destroyed)
  }

  /** Every session is at rest or freed, except `dying`, which is about to be freed. */
  ghost predicate SessionsOk(w: World, dying: set<nat>) {
    forall s {:trigger w.sessions[s]} :: s in w.sessions ==>
      && w.sessions[s].tunnel in w.tunnels
      && (if w.sessions[s].freed || s in dying then Unreferenced(w, s) else AtRest(w, s))
  }

  ghost predicate SockOk(w: World, k: Sock, at: nat) {
    && (k.destroyed ==> k.refs == 0 && k.session.None? && !k.attached && k.others == 0)
    && (!k.destroyed ==> k.refs > 0)
    && (k.session.None? ==> k.refs == One(k.attached) + k.others)
    && (k.session.Some? ==> k.session.value in w.sessions
                            && !w.sessions[k.session.value].freed && w.sessions[k.session.value].sock == Some(at))
  }

  ghost predicate SocksOk(w: World) {
    forall k {:trigger w.socks[k]} :: k in w.socks ==> SockOk(w, w.socks[k], k)
  }

  /** Each chain holds exactly the hashed sessions of its tunnel. */
  ghost predicate ListsOk(w: World) {
    forall t {:trigger w.tunnels[t]} :: t in w.tunnels ==> ListOk(w.sessions, w.tunnels[t].hlist, t)
  }

  ghost predicate ListOk(sessions: map<nat, Session>, hlist: seq<nat>, t: nat) {
    forall s {:trigger s in hlist} :: s in hlist <==> s in sessions && sessions[s].hashed && sessions[s].tunnel == t
  }

  /** The log lists every freed session once. */
  ghost predicate LogOk(w: World) {
    Distinct(w.freeLog) && forall s :: s in w.freeLog <==> s in w.sessions && w.sessions[s].freed
  }

  ghost predicate Inv(w: World, dying: set<nat>) {
    && TunnelsOk(w) && SessionsOk(w, dying) && SocksOk(w) && ListsOk(w) && LogOk(w)
    && w.count == |Counted(w)|
    && forall s :: s in dying ==> s in w.sessions && !w.sessions[s].freed
  }

  // ---- freeing ------------------------------------------------------------------------------------

  lemma DropSessionOk(t: Tunnel, live: nat)
    requires TunnelOk(t, live) && live >= 1
    ensures TunnelOk(TunnelDec(TunnelSockPut(t)), live - 1)
    ensures !t.freed && t.hasSock
    ensures var r := TunnelDec(TunnelSockPut(t)); r.hlist == t.hlist && r.held == t.held && r.pending == t.pending && r.ownerRefs == t.ownerRefs
  {
  }

  lemma LiveAfter(w: World, v: World, s: nat)
    requires s in w.sessions && !w.sessions[s].freed
    requires v.sessions == w.sessions[s := w.sessions[s].(freed := true)]
    ensures |Live(v, w.sessions[s].tunnel)| == |Live(w, w.sessions[s].tunnel)| - 1
    ensures forall t :: t != w.sessions[s].tunnel ==> Live(v, t) == Live(w, t)
    ensures |Counted(v)| == |Counted(w)| - One(w.sessions[s].id != 0)
  {
    var t := w.sessions[s].tunnel;
    assert s in Live(w, t);
    assert Live(v, t) == Live(w, t) - {s};
    if w.sessions[s].id != 0 {
      assert s in Counted(w);
      assert Counted(v) == Counted(w) - {s};
    } else {
      assert Counted(v) == Counted(w);
    }
  }

  lemma FreeKeepsTunnels(w: World, s: nat)
    requires TunnelsOk(w) && w.count == |Counted(w)|
    requires s in w.sessions && !w.sessions[s].freed && w.sessions[s].tunnel in w.tunnels
    ensures var v := SessionFree(w, s); TunnelsOk(v) && v.count == |Counted(v)|
  {
    var v := SessionFree(w, s);
    var t := w.sessions[s].tunnel;
    assert s in Live(w, t);
    assert TunnelOk(w.tunnels[t], |Live(w, t)|);
    DropSessionOk(w.tunnels[t], |Live(w, t)|);
    LiveAfter(w, v, s);
    forall u | u in v.tunnels
      ensures TunnelOk(v.tunnels[u], |Live(v, u)|)
    {
      if u != t {
        assert TunnelOk(w.tunnels[u], |Live(w, u)|);
      }
    }
  }

  lemma FreeKeepsLists(w: World, s: nat)
    requires ListsOk(w) && s in w.sessions && w.sessions[s].tunnel in w.tunnels
    ensures ListsOk(SessionFree(w, s))
  {
    var v := SessionFree(w, s);
    forall t | t in v.tunnels
      ensures ListOk(v.sessions, v.tunnels[t].hlist, t)
    {
      assert ListOk(w.sessions, w.tunnels[t].hlist, t);
      assert v.tunnels[t].hlist == w.tunnels[t].hlist;
    }
  }

  lemma FreeKeepsSessions(w: World, s: nat)
    requires SessionsOk(w, {s}) && SocksOk(w) && LogOk(w) && s in w.sessions && !w.sessions[s].freed
    ensures var v := SessionFree(w, s); SessionsOk(v, {}) && SocksOk(v) && LogOk(v)
  {
    var v := SessionFree(w, s);
    assert s in {s};
    forall x | x in v.sessions
      ensures v.sessions[x].tunnel in v.tunnels
      ensures if v.sessions[x].freed then Unreferenced(v, x) else AtRest(v, x)
    {
      assert w.sessions[x].tunnel in w.tunnels;
    }
    forall k | k in v.socks
      ensures SockOk(v, v.socks[k], k)
    {
      assert SockOk(w, w.socks[k], k);
    }
  }

  /** Freeing an unreferenced session restores the invariant. */
  lemma FreeKeeps(w: World, s: nat)
    requires Inv(w, {s})
    ensures Inv(SessionFree(w, s), {})
  {
    assert s in {s};
    FreeKeepsTunnels(w, s);
    FreeKeepsLists(w, s);
    FreeKeepsSessions(w, s);
  }

  // ---- changes around one session and its socket ------------------------------------------------------

  /** `v` differs from `w` at most in the reference count, queue and hash state of the
      session `s` and in the state of the socket `k`. */
  ghost predicate ChangedAt(w: World, v: World, s: nat, k: nat) {
    && s in w.sessions && k in w.socks && s in v.sessions && k in v.socks
    && v.count == w.count && v.freeLog == w.freeLog
    && v.sessions == w.sessions[s := v.sessions[s]]
    && v.socks == w.socks[k := v.socks[k]]
    && v.sessions[s] == w.sessions[s].(refCount := v.sessions[s].refCount, queued := v.sessions[s].queued, hashed := v.sessions[s].hashed)
    && (|| (v.tunnels == w.tunnels && v.sessions[s].hashed == w.sessions[s].hashed)
        || (v.tunnels == Unhash(w, s).tunnels && !v.sessions[s].hashed))
  }

  lemma SameLive(w: World, v: World)
    requires v.sessions.Keys == w.sessions.Keys
    requires forall s :: s in w.sessions ==>
      v.sessions[s].freed == w.sessions[s].freed && v.sessions[s].tunnel == w.sessions[s].tunnel && v.sessions[s].id == w.sessions[s].id
    ensures Counted(v) == Counted(w) && forall t :: Live(v, t) == Live(w, t)
  {
  }

  lemma UnhashKeepsTunnels(w: World, v: World)
    requires TunnelsOk(w) && v.tunnels.Keys == w.tunnels.Keys && forall t :: Live(v, t) == Live(w, t)
    requires forall t {:trigger v.tunnels[t]} :: t in w.tunnels ==> v.tunnels[t] == w.tunnels[t].(hlist := v.tunnels[t].hlist)
    ensures TunnelsOk(v)
  {
    forall t | t in v.tunnels
      ensures TunnelOk(v.tunnels[t], |Live(v, t)|)
    {
      assert TunnelOk(w.tunnels[t], |Live(w, t)|);
    }
  }

  /** The chains after the session `s` has left its own. */
  lemma UnhashKeepsLists(w: World, v: World, s: nat)
    requires ListsOk(w) && s in w.sessions && w.sessions[s].tunnel in w.tunnels && v.tunnels == Unhash(w, s).tunnels
    requires s in v.sessions && v.sessions == w.sessions[s := v.sessions[s]]
    requires !v.sessions[s].hashed && v.sessions[s].tunnel == w.sessions[s].tunnel
    ensures ListsOk(v)
  {
    forall t | t in v.tunnels
      ensures ListOk(v.sessions, v.tunnels[t].hlist, t)
    {
      assert ListOk(w.sessions, w.tunnels[t].hlist, t);
    }
  }

  lemma ChangeKeepsTunnels(w: World, v: World, s: nat, k: nat)
    requires TunnelsOk(w) && w.count == |Counted(w)| && ChangedAt(w, v, s, k) && w.sessions[s].tunnel in w.tunnels
    ensures TunnelsOk(v) && v.count == |Counted(v)|
  {
    SameLive(w, v);
    ChangedTunnels(w, v, s, k);
    UnhashKeepsTunnels(w, v);
  }

  lemma ChangedTunnels(w: World, v: World, s: nat, k: nat)
    requires ChangedAt(w, v, s, k) && w.sessions[s].tunnel in w.tunnels
    ensures v.tunnels.Keys == w.tunnels.Keys
    ensures forall t {:trigger v.tunnels[t]} :: t in w.tunnels ==> v.tunnels[t] == w.tunnels[t].(hlist := v.tunnels[t].hlist)
  {
  }

  lemma SameLists(w: World, v: World, s: nat)
    requires ListsOk(w) && s in w.sessions && s in v.sessions && v.tunnels == w.tunnels && v.sessions == w.sessions[s := v.sessions[s]]
    requires v.sessions[s].hashed == w.sessions[s].hashed && v.sessions[s].tunnel == w.sessions[s].tunnel
    ensures ListsOk(v)
  {
    forall t | t in v.tunnels
      ensures ListOk(v.sessions, v.tunnels[t].hlist, t)
    {
      assert ListOk(w.sessions, w.tunnels[t].hlist, t);
    }
  }

  lemma ChangeKeepsLists(w: World, v: World, s: nat, k: nat)
    requires ListsOk(w) && LogOk(w) && ChangedAt(w, v, s, k) && w.sessions[s].tunnel in w.tunnels
    ensures ListsOk(v) && LogOk(v)
  {
    SameLog(w, v, s);
    if v.tunnels == w.tunnels && v.sessions[s].hashed == w.sessions[s].hashed {
      SameLists(w, v, s);
    } else {
      UnhashKeepsLists(w, v, s);
    }
  }

  lemma ChangeKeepsSocks(w: World, v: World, s: nat, k: nat)
    requires SocksOk(w) && ChangedAt(w, v, s, k) && SockOk(v, v.socks[k], k)
    ensures SocksOk(v)
  {
    forall j | j in v.socks
      ensures SockOk(v, v.socks[j], j)
    {
      assert SockOk(w, w.socks[j], j);
    }
  }

  /** A session other than `s` does not use the socket of `s`, unless it is freed. */
  lemma OtherSession(w: World, v: World, s: nat, k: nat, x: nat)
    requires ChangedAt(w, v, s, k) && w.sessions[s].sock == Some(k) && x in w.sessions && x != s
    requires !w.sessions[s].freed && AtRest(w, s)
    requires if w.sessions[x].freed then Unreferenced(w, x) else AtRest(w, x)
    ensures if v.sessions[x].freed then Unreferenced(v, x) else AtRest(v, x)
  {
  }

  lemma ChangeKeepsSessions(w: World, v: World, s: nat, k: nat, dying: set<nat>)
    requires SessionsOk(w, {}) && ChangedAt(w, v, s, k) && w.sessions[s].tunnel in w.tunnels
    requires !w.sessions[s].freed && w.sessions[s].sock == Some(k) && dying <= {s}
    requires if s in dying then Unreferenced(v, s) else AtRest(v, s)
    ensures SessionsOk(v, dying)
  {
    assert AtRest(w, s);
    forall x | x in v.sessions
      ensures v.sessions[x].tunnel in v.tunnels
      ensures if v.sessions[x].freed || x in dying then Unreferenced(v, x) else AtRest(v, x)
    {
      assert w.sessions[x].tunnel in w.tunnels;
      if x != s {
        OtherSession(w, v, s, k, x);
      }
    }
  }

  /** Such a change keeps the invariant if the session and its socket agree again. */
  lemma ChangeKeeps(w: World, v: World, s: nat, k: nat, dying: set<nat>)
    requires Inv(w, {}) && ChangedAt(w, v, s, k)
    requires !w.sessions[s].freed && w.sessions[s].sock == Some(k) && dying <= {s}
    requires if s in dying then Unreferenced(v, s) else AtRest(v, s)
    requires SockOk(v, v.socks[k], k)
    ensures Inv(v, dying)
  {
    assert w.sessions[s].tunnel in w.tunnels;
    ChangeKeepsTunnels(w, v, s, k);
    ChangeKeepsLists(w, v, s, k);
    ChangeKeepsSocks(w, v, s, k);
    ChangeKeepsSessions(w, v, s, k, dying);
  }

  // ---- deleting and releasing -----------------------------------------------------------------------

  /** `n` frames have left the queue of the session `s`, each with a reference of the
      socket `k`. */
  function Shrunk(w: World, s: nat, k: nat, n: nat): World
    requires n <= SessionAt(w, s).queued
  {
    SetSock(SetSession(w, s, SessionAt(w, s).(queued := SessionAt(w, s).queued - n)), k,
            SockAt(w, k).(refs := SockAt(w, k).refs - n))
  }

  /** Purging a queue while someone holds the socket only lowers the counts. */
  lemma {:induction false} PurgeHeld(w: World, s: nat, k: nat, n: nat)
    requires s in w.sessions && k in w.socks && w.sessions[s].sock == Some(k)
    requires w.sessions[s].queued == n && w.socks[k].refs > n
    ensures PurgeN(w, s, n) == Shrunk(w, s, k, n)
    decreases n
  {
    if n == 0 {
      assert w.sessions[s := w.sessions[s].(queued := 0)] == w.sessions;
      assert w.socks[k := w.socks[k].(refs := w.socks[k].refs - 0)] == w.socks;
    } else {
      PurgeHeldOne(w, s, k, n);
      PurgeHeld(Shrunk(w, s, k, 1), s, k, n - 1);
      ShrunkTwice(w, s, k, n);
    }
  }

  lemma PurgeHeldOne(w: World, s: nat, k: nat, n: nat)
    requires s in w.sessions && k in w.socks && w.sessions[s].sock == Some(k)
    requires w.sessions[s].queued == n > 0 && w.socks[k].refs > n
    ensures PurgeN(w, s, n) == PurgeN(Shrunk(w, s, k, 1), s, n - 1)
  {
  }

  lemma ShrunkTwice(w: World, s: nat, k: nat, n: nat)
    requires s in w.sessions && k in w.socks && w.sessions[s].queued == n > 0
    ensures Shrunk(Shrunk(w, s, k, 1), s, k, n - 1) == Shrunk(w, s, k, n)
  {
    var a, b := Shrunk(Shrunk(w, s, k, 1), s, k, n - 1), Shrunk(w, s, k, n);
    assert a.sessions == b.sessions;
    assert a.socks == b.socks;
  }

  /** A session with an open socket after deletion: out of the index, queue empty,
      kept alive by the socket. */
  function Detached(w: World, s: nat, k: nat): World {
    var u := Unhash(w, s);
    SetSock(SetSession(u, s, SessionAt(u, s).(queued := 0)), k, SockAt(w, k).(refs := SockAt(w, k).refs - SessionAt(w, s).queued))
  }

  /** Step by step, deletion comes down to that. */
  lemma DeleteSteps(w: World, s: nat, k: nat)
    requires s in w.sessions && k in w.socks && w.sessions[s].sock == Some(k) && w.sessions[s].tunnel in w.tunnels
    requires w.sessions[s].refCount == 1 && w.socks[k].attached && w.socks[k].refs > w.sessions[s].queued
    ensures SessionDelete(w, s) == Detached(w, s, k)
  {
    var n := w.sessions[s].queued;
    var u := Unhash(SockHold(w, k), s);
    PurgeHeld(u, s, k, n);
    DetachSteps(w, Cleared(SockHold(w, k), s), s, k);
  }

  lemma PutNotLast(w: World, k: nat)
    requires k in w.socks && w.socks[k].refs > 1
    ensures SockPut(w, k) == SetSock(w, k, w.socks[k].(refs := w.socks[k].refs - 1))
  {
  }

  lemma DecNotLast(w: World, s: nat)
    requires s in w.sessions && w.sessions[s].refCount > 1
    ensures SessionDec(w, s) == SetSession(w, s, w.sessions[s].(refCount := w.sessions[s].refCount - 1))
  {
  }

  lemma DetachSteps(w: World, a: World, s: nat, k: nat)
    requires s in w.sessions && k in w.socks && w.sessions[s].refCount == 1 && w.socks[k].refs > w.sessions[s].queued
    requires a == Shrunk(Unhash(SockHold(w, k), s), s, k, w.sessions[s].queued)
    ensures SessionDec(SockPut(SessionInc(a, s), k), s) == Detached(w, s, k)
  {
    var b := SessionInc(a, s);
    PutNotLast(b, k);
    DecNotLast(SockPut(b, k), s);
    DetachedState(w, a, s, k);
  }

  lemma DetachedState(w: World, a: World, s: nat, k: nat)
    requires s in w.sessions && k in w.socks && w.sessions[s].refCount == 1
    requires a == Shrunk(Unhash(SockHold(w, k), s), s, k, w.sessions[s].queued)
    ensures var c := SetSock(SessionInc(a, s), k, a.socks[k].(refs := a.socks[k].refs - 1));
      SetSession(c, s, c.sessions[s].(refCount := c.sessions[s].refCount - 1)) == Detached(w, s, k)
  {
    var c := SetSock(SessionInc(a, s), k, a.socks[k].(refs := a.socks[k].refs - 1));
    var v := Detached(w, s, k);
    assert c.socks == v.socks;
    assert c.sessions[s := c.sessions[s].(refCount := 1)] == v.sessions;
  }

  lemma DetachedFits(w: World, s: nat, k: nat)
    requires s in w.sessions && !w.sessions[s].freed && w.sessions[s].sock == Some(k) && w.sessions[s].tunnel in w.tunnels
    requires AtRest(w, s) && SockOk(w, w.socks[k], k) && w.sessions[s].hashed
    ensures var v := Detached(w, s, k);
      ChangedAt(w, v, s, k) && AtRest(v, s) && SockOk(v, v.socks[k], k)
  {
  }

  /** What the invariant says about a session that has not been freed. */
  lemma RestFacts(w: World, s: nat)
    requires SessionsOk(w, {}) && SocksOk(w) && s in w.sessions && !w.sessions[s].freed
    ensures AtRest(w, s) && w.sessions[s].tunnel in w.tunnels
    ensures w.sessions[s].sock.Some? ==>
      var k := w.sessions[s].sock.value; k in w.socks && SockOk(w, w.socks[k], k) && SockOf(w.socks[k], s, w.sessions[s])
  {
  }

  lemma HashedIsLive(w: World, s: nat)
    requires SessionsOk(w, {}) && s in w.sessions && w.sessions[s].hashed
    ensures !w.sessions[s].freed
  {
  }

  lemma DeleteConnected(w: World, s: nat, k: nat)
    requires Inv(w, {}) && s in w.sessions && w.sessions[s].hashed && w.sessions[s].sock == Some(k)
    ensures SessionDelete(w, s) == Detached(w, s, k) && Inv(Detached(w, s, k), {})
  {
    HashedIsLive(w, s);
    RestFacts(w, s);
    DeleteSteps(w, s, k);
    DetachedFits(w, s, k);
    ChangeKeeps(w, Detached(w, s, k), s, k, {});
  }

  lemma DeleteUnconnected(w: World, s: nat)
    requires Inv(w, {}) && s in w.sessions && w.sessions[s].hashed && w.sessions[s].sock.None?
    ensures SessionDelete(w, s) == SessionFree(Dropped(w, s), s) && Inv(SessionDelete(w, s), {})
  {
    HashedIsLive(w, s);
    RestFacts(w, s);
    DropSteps(w, s);
    DroppedIsLost(w, s);
    UnconnectedDies(w, Dropped(w, s), s);
    FreeKeeps(Dropped(w, s), s);
  }

  lemma DroppedIsLost(w: World, s: nat)
    requires s in w.sessions && w.sessions[s].tunnel in w.tunnels
    ensures Lost(w, Dropped(w, s), s)
  {
  }

  /** A session without a socket that has left the index, the queue and its last
      reference. */
  function Dropped(w: World, s: nat): World {
    SetSession(Unhash(w, s), s, SessionAt(w, s).(hashed := false, queued := 0, refCount := 0))
  }

  lemma {:induction false} PurgeUnheld(w: World, s: nat, n: nat)
    requires s in w.sessions && w.sessions[s].sock.None? && w.sessions[s].queued == n
    ensures PurgeN(w, s, n) == SetSession(w, s, w.sessions[s].(queued := 0))
    decreases n
  {
    if n == 0 {
      assert w.sessions[s := w.sessions[s].(queued := 0)] == w.sessions;
    } else {
      var v := SetSession(w, s, w.sessions[s].(queued := n - 1));
      PurgeUnheld(v, s, n - 1);
    }
  }

  lemma DropSteps(w: World, s: nat)
    requires s in w.sessions && w.sessions[s].sock.None? && w.sessions[s].refCount == 1
    ensures Purge(Unhash(w, s), s) == SetSession(Unhash(w, s), s, w.sessions[s].(hashed := false, queued := 0))
    ensures SessionDelete(w, s) == SessionFree(Dropped(w, s), s)
  {
    var u := Unhash(w, s);
    PurgeUnheld(u, s, w.sessions[s].queued);
    var a := Purge(u, s);
    assert SetSession(a, s, a.sessions[s].(refCount := 0)) == Dropped(w, s);
  }

  lemma UnconnectedDiesSessions(w: World, v: World, s: nat)
    requires SessionsOk(w, {}) && SocksOk(w) && s in w.sessions && w.sessions[s].sock.None? && !w.sessions[s].freed && AtRest(w, s)
    requires v.sessions == w.sessions[s := w.sessions[s].(hashed := false, queued := 0, refCount := 0)]
    requires v.socks == w.socks && v.tunnels.Keys == w.tunnels.Keys
    ensures SessionsOk(v, {s}) && SocksOk(v)
  {
    forall x | x in v.sessions
      ensures v.sessions[x].tunnel in v.tunnels
      ensures if v.sessions[x].freed || x in {s} then Unreferenced(v, x) else AtRest(v, x)
    {
      assert w.sessions[x].tunnel in w.tunnels;
    }
    forall k | k in v.socks
      ensures SockOk(v, v.socks[k], k)
    {
      assert SockOk(w, w.socks[k], k);
    }
  }

  /** The session without a socket has lost its place in the index and its last
      reference. */
  ghost predicate Lost(w: World, v: World, s: nat) {
    && s in w.sessions && s in v.sessions && w.sessions[s].tunnel in w.tunnels
    && v.tunnels == Unhash(w, s).tunnels
    && v.sessions == w.sessions[s := v.sessions[s]]
    && v.sessions[s] == w.sessions[s].(hashed := false, queued := 0, refCount := 0)
    && v.socks == w.socks && v.count == w.count && v.freeLog == w.freeLog
  }

  lemma UnconnectedDiesTunnels(w: World, v: World, s: nat)
    requires TunnelsOk(w) && w.count == |Counted(w)| && Lost(w, v, s)
    ensures TunnelsOk(v) && v.count == |Counted(v)|
  {
    SameLive(w, v);
    UnhashKeepsTunnels(w, v);
  }

  lemma UnconnectedDies(w: World, v: World, s: nat)
    requires Inv(w, {}) && Lost(w, v, s) && w.sessions[s].sock.None? && !w.sessions[s].freed && AtRest(w, s)
    ensures Inv(v, {s})
  {
    UnconnectedDiesTunnels(w, v, s);
    UnhashKeepsLists(w, v, s);
    UnconnectedDiesSessions(w, v, s);
    SameLog(w, v, s);
  }

  lemma SameLog(w: World, v: World, s: nat)
    requires LogOk(w) && v.freeLog == w.freeLog && s in w.sessions && s in v.sessions
    requires v.sessions == w.sessions[s := v.sessions[s]] && v.sessions[s].freed == w.sessions[s].freed
    ensures LogOk(v)
  {
  }

  /** Closing sessions touches neither the owner's nor the callers' references. */
  predicate SameHolders(t: Tunnel, r: Tunnel) {
    r.held == t.held && r.pending == t.pending && r.ownerRefs == t.ownerRefs
  }

  /** The session has left its chain, and no other tunnel has changed. */
  ghost predicate LeftChain(w: World, v: World, s: nat) {
    var t := SessionAt(w, s).tunnel;
    && t in w.tunnels && t in v.tunnels
    && v.tunnels == w.tunnels[t := v.tunnels[t]]
    && v.tunnels[t].hlist == Without(w.tunnels[t].hlist, s)
    && SameHolders(w.tunnels[t], v.tunnels[t])
  }

  lemma DetachedLeaves(w: World, s: nat, k: nat)
    requires s in w.sessions && w.sessions[s].tunnel in w.tunnels
    ensures LeftChain(w, Detached(w, s, k), s)
  {
  }

  lemma UnconnectedLeaves(w: World, s: nat)
    requires s in w.sessions && w.sessions[s].tunnel in w.tunnels
    ensures LeftChain(w, SessionFree(Dropped(w, s), s), s)
  {
    var t := w.sessions[s].tunnel;
    var v := SessionFree(Dropped(w, s), s);
    assert v.tunnels == w.tunnels[t := v.tunnels[t]];
  }

  /** Deleting any hashed session keeps the invariant and takes it off its chain. */
  lemma DeleteKeeps(w: World, s: nat)
    requires Inv(w, {}) && s in w.sessions && w.sessions[s].hashed
    ensures Inv(SessionDelete(w, s), {}) && LeftChain(w, SessionDelete(w, s), s)
  {
    HashedIsLive(w, s);
    RestFacts(w, s);
    if w.sessions[s].sock.None? {
      DeleteUnconnected(w, s);
      UnconnectedLeaves(w, s);
    } else {
      var k := w.sessions[s].sock.value;
      DeleteConnected(w, s, k);
      DetachedLeaves(w, s, k);
    }
  }

  /** The extra reference that is about to be dropped. */
  ghost predicate OneTooMany(u: World, s: nat, k: nat) {
    && s in u.sessions && k in u.socks
    && u.sessions[s].refCount == 1 && u.sessions[s].sock == Some(k)
    && (!u.sessions[s].hashed ==> u.sessions[s].queued == 0)
    && (u.sessions[s].hashed ==> u.socks[k].attached)
    && !u.socks[k].destroyed && u.socks[k].session == Some(s)
    && u.socks[k].refs == 1 + One(u.socks[k].attached) + u.sessions[s].queued + u.socks[k].others
  }

  /** Dropping a reference of a connected socket: the last one destroys the socket
      and frees the session. */
  lemma FinalPut(w: World, u: World, s: nat, k: nat)
    requires Inv(w, {}) && ChangedAt(w, u, s, k) && OneTooMany(u, s, k)
    requires !w.sessions[s].freed && w.sessions[s].sock == Some(k)
    ensures Inv(SockPut(u, k), {})
    ensures var v := SockPut(u, k); s in v.sessions && (v.sessions[s].freed <==> u.socks[k].refs == 1)
  {
    var v := SockPut(u, k);
    if u.socks[k].refs > 1 {
      StillReferenced(w, u, v, s, k);
      ChangeKeeps(w, v, s, k, {});
    } else {
      var e := u.socks[k].(refs := 0, destroyed := true, session := None);
      var x := SetSession(SetSock(u, k, e), s, u.sessions[s].(refCount := 0));
      LastReference(w, u, x, s, k);
      ChangeKeeps(w, x, s, k, {s});
      FreeKeeps(x, s);
    }
  }

  lemma StillReferenced(w: World, u: World, v: World, s: nat, k: nat)
    requires ChangedAt(w, u, s, k) && OneTooMany(u, s, k) && u.socks[k].refs > 1 && v == SockPut(u, k)
    requires !w.sessions[s].freed && w.sessions[s].sock == Some(k)
    ensures ChangedAt(w, v, s, k) && AtRest(v, s) && SockOk(v, v.socks[k], k)
  {
    assert v.socks == w.socks[k := v.socks[k]];
  }

  lemma LastReference(w: World, u: World, x: World, s: nat, k: nat)
    requires ChangedAt(w, u, s, k) && OneTooMany(u, s, k) && u.socks[k].refs == 1
    requires !w.sessions[s].freed && w.sessions[s].sock == Some(k)
    requires x == SetSession(SetSock(u, k, u.socks[k].(refs := 0, destroyed := true, session := None)), s, u.sessions[s].(refCount := 0))
    ensures ChangedAt(w, x, s, k) && Unreferenced(x, s) && SockOk(x, x.socks[k], k)
    ensures SockPut(u, k) == SessionFree(x, s)
  {
    assert x.socks == w.socks[k := x.socks[k]];
    assert x.sessions == w.sessions[s := x.sessions[s]];
  }

  /** A socket that belongs to no session changes on its own. */
  lemma SockAlone(w: World, v: World, k: nat)
    requires Inv(w, {}) && k in v.socks && v == w.(socks := w.socks[k := v.socks[k]])
    requires SockAt(w, k).session.None? && v.socks[k].session.None?
    requires k in w.socks && w.socks[k].destroyed ==> v.socks[k].destroyed
    requires SockOk(v, v.socks[k], k)
    ensures Inv(v, {})
  {
    SockAloneSessions(w, v, k);
    assert forall t :: Live(v, t) == Live(w, t);
    assert Counted(v) == Counted(w);
  }

  lemma SockAloneSessions(w: World, v: World, k: nat)
    requires SessionsOk(w, {}) && SocksOk(w) && k in v.socks && v == w.(socks := w.socks[k := v.socks[k]])
    requires SockAt(w, k).session.None? && v.socks[k].session.None?
    requires k in w.socks && w.socks[k].destroyed ==> v.socks[k].destroyed
    requires SockOk(v, v.socks[k], k)
    ensures SessionsOk(v, {}) && SocksOk(v)
  {
    forall x | x in v.sessions
      ensures v.sessions[x].tunnel in v.tunnels
      ensures if v.sessions[x].freed then Unreferenced(v, x) else AtRest(v, x)
    {
      assert w.sessions[x].tunnel in w.tunnels;
    }
    forall j | j in v.socks
      ensures SockOk(v, v.socks[j], j)
    {
      if j != k {
        assert SockOk(w, w.socks[j], j);
      }
    }
  }

  /** The socket lets go of its owner, the session leaves index and queue. */
  function Closing(w: World, s: nat, k: nat): World {
    var u := Unhash(w, s);
    SetSock(SetSession(u, s, SessionAt(u, s).(queued := 0)), k,
            SockAt(w, k).(attached := false, refs := SockAt(w, k).refs - SessionAt(w, s).queued))
  }

  lemma ReleaseSteps(w: World, s: nat, k: nat)
    requires s in w.sessions && k in w.socks && w.sessions[s].sock == Some(k) && w.sessions[s].tunnel in w.tunnels
    requires w.socks[k].session == Some(s) && w.socks[k].attached && w.socks[k].refs > w.sessions[s].queued
    ensures Release(w, k) == SockPut(Closing(w, s, k), k)
  {
    var n := w.sessions[s].queued;
    var a := SetSock(w, k, w.socks[k].(attached := false));
    var u := Unhash(SockHold(a, k), s);
    PurgeHeld(u, s, k, n);
    var b := SockPut(PurgeN(u, s, n), k);
    var c := Closing(w, s, k);
    assert b.socks == c.socks;
    assert b.sessions == c.sessions;
    assert b.tunnels == c.tunnels;
  }

  lemma ClosingFits(w: World, s: nat, k: nat)
    requires s in w.sessions && k in w.socks && w.sessions[s].sock == Some(k) && w.sessions[s].tunnel in w.tunnels
    requires AtRest(w, s) && w.socks[k].attached
    ensures ChangedAt(w, Closing(w, s, k), s, k) && OneTooMany(Closing(w, s, k), s, k)
  {
  }

  lemma ReleaseConnected(w: World, s: nat, k: nat)
    requires Inv(w, {}) && s in w.sessions && !w.sessions[s].freed && w.sessions[s].sock == Some(k)
    requires k in w.socks && w.socks[k].attached && w.socks[k].session == Some(s)
    ensures Inv(Release(w, k), {})
  {
    RestFacts(w, s);
    ReleaseSteps(w, s, k);
    ClosingFits(w, s, k);
    FinalPut(w, Closing(w, s, k), s, k);
  }

  lemma PutAloneFits(w: World, u: World, k: nat)
    requires k in w.socks && k in u.socks && u == w.(socks := w.socks[k := u.socks[k]])
    requires u.socks[k].session.None? && !u.socks[k].destroyed
    requires u.socks[k].refs == 1 + One(u.socks[k].attached) + u.socks[k].others
    ensures var v := SockPut(u, k);
      k in v.socks && v == w.(socks := w.socks[k := v.socks[k]]) && v.socks[k].session.None? && SockOk(v, v.socks[k], k)
  {
    var v := SockPut(u, k);
    assert v.socks == w.socks[k := v.socks[k]];
  }

  /** Dropping a reference of a socket without a session. */
  lemma PutAlone(w: World, u: World, k: nat)
    requires Inv(w, {}) && k in w.socks && k in u.socks && u == w.(socks := w.socks[k := u.socks[k]])
    requires w.socks[k].session.None? && !w.socks[k].destroyed && u.socks[k].session.None? && !u.socks[k].destroyed
    requires u.socks[k].refs == 1 + One(u.socks[k].attached) + u.socks[k].others
    ensures Inv(SockPut(u, k), {})
  {
    PutAloneFits(w, u, k);
    SockAlone(w, SockPut(u, k), k);
  }

  lemma ReleaseKeeps(w: World, k: nat)
    requires Inv(w, {}) && k in w.socks
    ensures Inv(Release(w, k), {})
  {
    assert SockOk(w, w.socks[k], k);
    if w.socks[k].attached {
      match w.socks[k].session
      case None => PutAlone(w, SetSock(w, k, w.socks[k].(attached := false)), k);
      case Some(s) => ReleaseConnected(w, s, k);
    }
  }

  // ---- the other operations -------------------------------------------------------------------------

  /** l2tp_tunnel_create. */
  function TunnelCreate(w: World, t: nat, v3: bool, ip: bool): World {
    SetTunnel(w, t, Tunnel(1, true, true, 1, 1, false, 0, [], false, v3, ip))
  }

  /** l2tp_session_create. */
  function SessionCreate(w: World, s: nat, t: nat, id: nat): World {
    var r := TunnelAt(w, t);
    World(w.tunnels[t := r.(refCount := r.refCount + 1, sockRefs := r.sockRefs + 1, hlist := [s] + r.hlist)],
          w.sessions[s := Session(t, id, 1, true, None, 0, false, r.v3)],
          w.socks,
          w.count + One(id != 0),
          w.freeLog)
  }

  /** pppol2tp_create. */
  function SockCreate(w: World, k: nat): World {
    SetSock(w, k, Sock(1, None, true, 0, false))
  }

  /** The successful end of pppol2tp_connect. */
  function Connect(w: World, s: nat, k: nat): World {
    SetSock(SetSession(w, s, SessionAt(w, s).(sock := Some(k))), k, SockAt(w, k).(session := Some(s)))
  }

  /** A tunnel without the head of its chain. */
  function Unchained(w: World, t: nat): World
    requires TunnelAt(w, t).hlist != []
  {
    SetTunnel(w, t, TunnelAt(w, t).(hlist := TunnelAt(w, t).hlist[1..]))
  }

  /** l2tp_tunnel_closeall: take the head off the chain and delete it, until the chain
      is empty. */
  function CloseAll(w: World, t: nat): World
    decreases |TunnelAt(w, t).hlist|
  {
    var l := TunnelAt(w, t).hlist;
    if l == [] then w
    else
      DeleteClean(Unchained(w, t), l[0]);
      CloseAll(SessionDelete(Unchained(w, t), l[0]), t)
  }

  /** Taking the head off first makes no difference, since deleting unhashes it. */
  lemma UnchainedDelete(w: World, t: nat)
    requires TunnelAt(w, t).hlist != [] && SessionAt(w, TunnelAt(w, t).hlist[0]).tunnel == t
    ensures SessionDelete(Unchained(w, t), TunnelAt(w, t).hlist[0]) == SessionDelete(w, TunnelAt(w, t).hlist[0])
  {
    var s := TunnelAt(w, t).hlist[0];
    UnchainedUnhash(w, t, s);
    var k := SessionAt(w, s).sock;
    if k.Some? {
      assert SockHold(Unchained(w, t), k.value) == Unchained(SockHold(w, k.value), t);
      UnchainedUnhash(SockHold(w, k.value), t, s);
    }
  }

  lemma UpdateTwice(m: map<nat, Tunnel>, t: nat, a: Tunnel, b: Tunnel)
    ensures m[t := a][t := b] == m[t := b]
  {
  }

  lemma UnchainedUnhash(w: World, t: nat, s: nat)
    requires TunnelAt(w, t).hlist != [] && s == TunnelAt(w, t).hlist[0] && SessionAt(w, s).tunnel == t
    ensures Unhash(Unchained(w, t), s) == Unhash(w, s)
  {
    var r := TunnelAt(w, t);
    var l := Without(r.hlist[1..], s);
    assert Without(r.hlist, s) == l;
    UpdateTwice(w.tunnels, t, r.(hlist := r.hlist[1..]), r.(hlist := l));
  }

  /** No other tunnel than `t` has changed, and its holders are the same. */
  ghost predicate OnlyTunnel(w: World, v: World, t: nat) {
    t in w.tunnels && t in v.tunnels && v.tunnels == w.tunnels[t := v.tunnels[t]] && SameHolders(w.tunnels[t], v.tunnels[t])
  }

  lemma OnlyTunnelTwice(w: World, v: World, x: World, t: nat)
    requires OnlyTunnel(w, v, t) && OnlyTunnel(v, x, t)
    ensures OnlyTunnel(w, x, t)
  {
  }

  lemma LeavingIsOnlyTunnel(w: World, v: World, s: nat, t: nat)
    requires LeftChain(w, v, s) && SessionAt(w, s).tunnel == t && s in w.tunnels[t].hlist
    ensures OnlyTunnel(w, v, t) && |v.tunnels[t].hlist| < |w.tunnels[t].hlist|
  {
  }

  /** One round of the loop. */
  lemma CloseOne(w: World, t: nat) returns (v: World)
    requires Inv(w, {}) && t in w.tunnels && w.tunnels[t].hlist != []
    ensures Inv(v, {}) && OnlyTunnel(w, v, t) && |v.tunnels[t].hlist| < |w.tunnels[t].hlist|
    ensures v == SessionDelete(w, w.tunnels[t].hlist[0]) && CloseAll(w, t) == CloseAll(v, t)
  {
    var s := w.tunnels[t].hlist[0];
    HeadIsHashed(w, t);
    DeleteKeeps(w, s);
    UnchainedDelete(w, t);
    v := SessionDelete(w, s);
    LeavingIsOnlyTunnel(w, v, s, t);
  }

  /** The invariant holds again, the chain is empty, and no other tunnel has changed. */
  lemma {:induction false} CloseAllEffect(w: World, t: nat)
    requires Inv(w, {}) && t in w.tunnels
    ensures Inv(CloseAll(w, t), {})
    ensures OnlyTunnel(w, CloseAll(w, t), t) && CloseAll(w, t).tunnels[t].hlist == []
    decreases |w.tunnels[t].hlist|
  {
    if w.tunnels[t].hlist == [] {
      assert w.tunnels == w.tunnels[t := w.tunnels[t]];
    } else {
      var v := CloseOne(w, t);
      CloseAllEffect(v, t);
      OnlyTunnelTwice(w, v, CloseAll(v, t), t);
    }
  }

  lemma HeadIsHashed(w: World, t: nat)
    requires ListsOk(w) && t in w.tunnels && w.tunnels[t].hlist != []
    ensures var s := w.tunnels[t].hlist[0]; s in w.sessions && w.sessions[s].hashed && w.sessions[s].tunnel == t
  {
    assert ListOk(w.sessions, w.tunnels[t].hlist, t);
    assert w.tunnels[t].hlist[0] in w.tunnels[t].hlist;
  }

  /** A tunnel changes its own counts. */
  lemma TunnelAlone(w: World, v: World, t: nat)
    requires Inv(w, {}) && t in v.tunnels && v == w.(tunnels := w.tunnels[t := v.tunnels[t]])
    requires v.tunnels[t].hlist == TunnelAt(w, t).hlist
    requires TunnelOk(v.tunnels[t], |Live(w, t)|)
    ensures Inv(v, {})
  {
    TunnelAloneLists(w, v, t);
    assert forall u :: Live(v, u) == Live(w, u);
    assert Counted(v) == Counted(w);
    forall u | u in v.tunnels
      ensures TunnelOk(v.tunnels[u], |Live(v, u)|)
    {
      assert u != t ==> u in w.tunnels;
    }
  }

  lemma TunnelAloneLists(w: World, v: World, t: nat)
    requires ListsOk(w) && SessionsOk(w, {}) && SocksOk(w)
    requires t in v.tunnels && v == w.(tunnels := w.tunnels[t := v.tunnels[t]]) && v.tunnels[t].hlist == TunnelAt(w, t).hlist
    ensures ListsOk(v) && SessionsOk(v, {}) && SocksOk(v)
  {
    forall u | u in v.tunnels
      ensures ListOk(v.sessions, v.tunnels[u].hlist, u)
    {
      if u in w.tunnels {
        assert ListOk(w.sessions, w.tunnels[u].hlist, u);
      } else {
        assert forall s :: s in w.sessions ==> w.sessions[s].tunnel != u;
      }
    }
    forall x | x in v.sessions
      ensures v.sessions[x].tunnel in v.tunnels
      ensures if v.sessions[x].freed then Unreferenced(v, x) else AtRest(v, x)
    {
      assert w.sessions[x].tunnel in w.tunnels;
    }
    forall k | k in v.socks
      ensures SockOk(v, v.socks[k], k)
    {
      assert SockOk(w, w.socks[k], k);
    }
  }

  lemma TunnelCreateKeeps(w: World, t: nat, v3: bool, ip: bool)
    requires Inv(w, {}) && t !in w.tunnels
    ensures Inv(TunnelCreate(w, t, v3, ip), {})
  {
    assert Live(w, t) == {} by {
      forall s | s in w.sessions
        ensures w.sessions[s].tunnel != t
      {
      }
    }
    TunnelAlone(w, TunnelCreate(w, t, v3, ip), t);
  }

  lemma NewSessionLive(w: World, v: World, s: nat, t: nat)
    requires s !in w.sessions && s in v.sessions && v.sessions == w.sessions[s := v.sessions[s]]
    requires v.sessions[s].tunnel == t && !v.sessions[s].freed
    ensures |Live(v, t)| == |Live(w, t)| + 1 && forall u :: u != t ==> Live(v, u) == Live(w, u)
  {
    assert Live(v, t) == Live(w, t) + {s};
  }

  lemma NewSessionCounted(w: World, v: World, s: nat)
    requires s !in w.sessions && s in v.sessions && v.sessions == w.sessions[s := v.sessions[s]] && !v.sessions[s].freed
    ensures |Counted(v)| == |Counted(w)| + One(v.sessions[s].id != 0)
  {
    if v.sessions[s].id != 0 {
      assert Counted(v) == Counted(w) + {s};
    } else {
      assert Counted(v) == Counted(w);
    }
  }

  lemma NewSessionTunnels(w: World, v: World, s: nat, t: nat, id: nat)
    requires TunnelsOk(w) && ListsOk(w) && s !in w.sessions && t in w.tunnels && w.tunnels[t].hasSock
    requires v == SessionCreate(w, s, t, id)
    ensures TunnelsOk(v) && ListsOk(v)
  {
    NewSessionLive(w, v, s, t);
    forall u | u in v.tunnels
      ensures TunnelOk(v.tunnels[u], |Live(v, u)|)
    {
      assert TunnelOk(w.tunnels[u], |Live(w, u)|);
    }
    NewSessionLists(w, v, s, t, id);
  }

  lemma NewSessionLists(w: World, v: World, s: nat, t: nat, id: nat)
    requires ListsOk(w) && s !in w.sessions && t in w.tunnels && v == SessionCreate(w, s, t, id)
    ensures ListsOk(v)
  {
    forall u | u in v.tunnels
      ensures ListOk(v.sessions, v.tunnels[u].hlist, u)
    {
      assert ListOk(w.sessions, w.tunnels[u].hlist, u);
    }
  }

  lemma NewSessionOthers(w: World, v: World, s: nat, t: nat, id: nat)
    requires SessionsOk(w, {}) && SocksOk(w) && LogOk(w) && s !in w.sessions && t in w.tunnels
    requires v == SessionCreate(w, s, t, id)
    ensures SessionsOk(v, {}) && SocksOk(v) && LogOk(v)
  {
    forall x | x in v.sessions
      ensures v.sessions[x].tunnel in v.tunnels
      ensures if v.sessions[x].freed then Unreferenced(v, x) else AtRest(v, x)
    {
      if x != s {
        assert w.sessions[x].tunnel in w.tunnels;
      }
    }
    forall k | k in v.socks
      ensures SockOk(v, v.socks[k], k)
    {
      assert SockOk(w, w.socks[k], k);
    }
  }

  lemma SessionCreateKeeps(w: World, s: nat, t: nat, id: nat)
    requires Inv(w, {}) && s !in w.sessions && t in w.tunnels && w.tunnels[t].hasSock
    ensures Inv(SessionCreate(w, s, t, id), {})
  {
    var v := SessionCreate(w, s, t, id);
    NewSessionCounted(w, v, s);
    NewSessionTunnels(w, v, s, t, id);
    NewSessionOthers(w, v, s, t, id);
  }

  lemma ConnectSessions(w: World, s: nat, k: nat)
    requires SessionsOk(w, {}) && SocksOk(w) && s in w.sessions && w.sessions[s].hashed && w.sessions[s].sock.None?
    requires k in w.socks && w.socks[k].attached && !w.socks[k].destroyed && w.socks[k].session.None?
    requires w.sessions[s].queued == 0
    ensures SessionsOk(Connect(w, s, k), {}) && SocksOk(Connect(w, s, k))
  {
    var v := Connect(w, s, k);
    HashedIsLive(w, s);
    RestFacts(w, s);
    assert SockOk(w, w.socks[k], k);
    forall x | x in v.sessions
      ensures v.sessions[x].tunnel in v.tunnels
      ensures if v.sessions[x].freed then Unreferenced(v, x) else AtRest(v, x)
    {
      assert w.sessions[x].tunnel in w.tunnels;
    }
    forall j | j in v.socks
      ensures SockOk(v, v.socks[j], j)
    {
      assert SockOk(w, w.socks[j], j);
    }
  }

  lemma ConnectLists(w: World, s: nat, k: nat)
    requires TunnelsOk(w) && ListsOk(w) && LogOk(w) && w.count == |Counted(w)| && s in w.sessions
    ensures var v := Connect(w, s, k); TunnelsOk(v) && ListsOk(v) && LogOk(v) && v.count == |Counted(v)|
  {
    var v := Connect(w, s, k);
    SameCounts(w, v);
    SameLog(w, v, s);
    SameLists(w, v, s);
  }

  /** Connecting a session with an empty queue keeps the invariant. */
  lemma ConnectKeeps(w: World, s: nat, k: nat)
    requires Inv(w, {}) && s in w.sessions && w.sessions[s].hashed && w.sessions[s].sock.None? && w.sessions[s].queued == 0
    requires k in w.socks && w.socks[k].attached && !w.socks[k].destroyed && w.socks[k].session.None?
    ensures Inv(Connect(w, s, k), {})
  {
    ConnectSessions(w, s, k);
    ConnectLists(w, s, k);
  }

  // ---- runs -----------------------------------------------------------------------------------------

  /** How a frame comes in: through the socket of a UDP tunnel, or as an IP datagram. */
  datatype Path = OverUdp | OverIp

  /** The receive path finds the session. l2tp_udp_recv_core looks into the tunnel of
      the socket and wants a receive handler, which comes with the PPP socket;
      l2tp_ip_recv looks into the index of the whole net, whatever the encapsulation of
      the session's tunnel, and asks for nothing else. */
  predicate Reaches(w: World, s: nat, path: Path)
    requires s in w.sessions
  {
    var e := w.sessions[s];
    e.hashed && (if path == OverUdp then !TunnelAt(w, e.tunnel).ip && e.sock.Some? else e.v3)
  }

  /** Calls into the module and events around it. */
  datatype Op =
    | NewTunnel(t: nat, v3: bool, ip: bool)
    | NewSession(s: nat, t: nat, id: nat)
    | NewSock(k: nat)
    | ConnectSock(s: nat, k: nat)
    | DeleteSession(s: nat)
    | CloseTunnel(t: nat)
    | DeleteTunnel(t: nat)
    | RunWork(t: nat)
    | HoldTunnelSock(t: nat)
    | DropTunnelSock(t: nat)
    | ReleaseSock(k: nat)
    | HoldSock(k: nat)
    | DropSock(k: nat)
    | QueueFrame(s: nat, path: Path)
    | DequeueFrame(s: nat)

  predicate IdTaken(w: World, t: nat, id: nat) {
    exists s :: s in w.sessions && w.sessions[s].hashed && w.sessions[s].tunnel == t && w.sessions[s].id == id
  }

  /** The call finds its object and passes its checks; otherwise it returns an error
      and changes nothing. */
  predicate Goes(w: World, op: Op) {
    match op
    case NewTunnel(t, _, _) => t !in w.tunnels
    case NewSession(s, t, id) => s !in w.sessions && t in w.tunnels && w.tunnels[t].listed && w.tunnels[t].hasSock && !IdTaken(w, t, id)
    case NewSock(k) => k !in w.socks
    case ConnectSock(s, k) =>
      && s in w.sessions && w.sessions[s].hashed && w.sessions[s].sock.None?
      && k in w.socks && w.socks[k].attached && !w.socks[k].destroyed && w.socks[k].session.None?
    case DeleteSession(s) => s in w.sessions && w.sessions[s].hashed
    case CloseTunnel(t) => t in w.tunnels && w.tunnels[t].hasSock
    case DeleteTunnel(t) => t in w.tunnels && w.tunnels[t].listed
    case RunWork(t) => t in w.tunnels && w.tunnels[t].pending
    case HoldTunnelSock(t) => t in w.tunnels && w.tunnels[t].hasSock && w.tunnels[t].ownerRefs > 0
    case DropTunnelSock(t) => t in w.tunnels && w.tunnels[t].hasSock && w.tunnels[t].ownerRefs > 0
    case ReleaseSock(k) => k in w.socks
    case HoldSock(k) => k in w.socks && !w.socks[k].destroyed
    case DropSock(k) => k in w.socks && w.socks[k].others > 0
    case QueueFrame(s, path) => s in w.sessions && Reaches(w, s, path)
    case DequeueFrame(s) => s in w.sessions && w.sessions[s].queued > 0
  }

  ghost predicate Valid(w: World) {
    Inv(w, {}) && NoCallHolds(w)
  }

  /** No call is in progress. */
  ghost predicate NoCallHolds(w: World) {
    forall t {:trigger w.tunnels[t]} :: t in w.tunnels ==> w.tunnels[t].held == 0
  }

  /** The tunnel with a reference for the call in progress. */
  function Held(w: World, t: nat): World {
    var r := TunnelAt(w, t);
    SetTunnel(w, t, r.(refCount := r.refCount + 1, held := r.held + 1))
  }

  /** queue_work: the call's reference passes to the work, or is dropped if the work
      was queued already. */
  function QueueWork(w: World, t: nat): World {
    var r := TunnelAt(w, t);
    SetTunnel(w, t, if r.pending then TunnelDec(r.(held := r.held - 1)) else r.(held := r.held - 1, pending := true))
  }

  /** l2tp_tunnel_delete. */
  function TunnelDelete(w: World, t: nat): World {
    QueueWork(CloseAll(Held(w, t), t), t)
  }

  /** The rest of the kernel takes or drops a reference of a PPP socket. */
  function HoldOther(w: World, k: nat): World
    requires k in w.socks
  {
    SockHold(SetSock(w, k, w.socks[k].(others := w.socks[k].others + 1)), k)
  }

  function DropOther(w: World, k: nat): World
    requires k in w.socks && w.socks[k].others > 0
  {
    SockPut(SetSock(w, k, w.socks[k].(others := w.socks[k].others - 1)), k)
  }

  /** A frame enters the reorder queue with the ref callback, or leaves it with the
      deref callback. Both callbacks are set when the session gets its socket; until
      then frames come and go without them. */
  function QueueOne(w: World, s: nat): World {
    var e := SessionAt(w, s);
    var v := SetSession(w, s, e.(queued := e.queued + 1));
    if e.sock.Some? then SockHold(v, e.sock.value) else v
  }

  function DequeueOne(w: World, s: nat): World
    requires SessionAt(w, s).queued > 0
  {
    var e := SessionAt(w, s);
    var v := SetSession(w, s, e.(queued := e.queued - 1));
    if e.sock.Some? then SockPut(v, e.sock.value) else v
  }

  /** The end of l2tp_tunnel_del_work. */
  function FinishWork(r: Tunnel): Tunnel {
    TunnelDec(r.(pending := false))
  }

  /** The rest of the kernel takes or drops a reference of the tunnel socket. */
  function HoldOwner(r: Tunnel): Tunnel {
    r.(sockRefs := r.sockRefs + 1, ownerRefs := r.ownerRefs + 1)
  }

  function DropOwner(r: Tunnel): Tunnel
    requires r.ownerRefs > 0
  {
    TunnelSockPut(r.(ownerRefs := r.ownerRefs - 1))
  }

  predicate IsSockOp(op: Op) {
    op.NewSock? || op.ConnectSock? || op.ReleaseSock? || op.HoldSock? || op.DropSock? || op.QueueFrame? || op.DequeueFrame?
  }

  /** Calls and events on PPP sockets. */
  function SockStep(w: World, op: Op): World
    requires IsSockOp(op) && Goes(w, op)
  {
    match op
    case NewSock(k) => SockCreate(w, k)
    case ConnectSock(s, k) => Connect(w, s, k)
    case ReleaseSock(k) => Release(w, k)
    case HoldSock(k) => HoldOther(w, k)
    case DropSock(k) => DropOther(w, k)
    case QueueFrame(s, _) => QueueOne(w, s)
    case DequeueFrame(s) => DequeueOne(w, s)
  }

  /** Calls and events on tunnels and sessions. */
  function TunnelStep(w: World, op: Op): World
    requires !IsSockOp(op) && Goes(w, op)
  {
    match op
    case NewTunnel(t, v3, ip) => TunnelCreate(w, t, v3, ip)
    case NewSession(s, t, id) => SessionCreate(w, s, t, id)
    case DeleteSession(s) => SessionDelete(w, s)
    case CloseTunnel(t) => CloseAll(w, t)
    case DeleteTunnel(t) => TunnelDelete(w, t)
    case RunWork(t) => SetTunnel(w, t, FinishWork(w.tunnels[t]))
    case HoldTunnelSock(t) => SetTunnel(w, t, HoldOwner(w.tunnels[t]))
    case DropTunnelSock(t) => SetTunnel(w, t, DropOwner(w.tunnels[t]))
  }

  /** One call or event; a call that fails its checks changes nothing. */
  function Step(w: World, op: Op): World {
    if !Goes(w, op) then w else if IsSockOp(op) then SockStep(w, op) else TunnelStep(w, op)
  }

  lemma HeldOk(w: World, t: nat)
    requires Inv(w, {}) && t in w.tunnels && w.tunnels[t].listed
    ensures Inv(Held(w, t), {})
  {
    assert TunnelOk(w.tunnels[t], |Live(w, t)|);
    TunnelAlone(w, Held(w, t), t);
  }

  // ---- each operation keeps the invariant -------------------------------------------------------

  lemma TunnelAloneValid(w: World, t: nat, r: Tunnel)
    requires Valid(w) && t in w.tunnels && r.hlist == w.tunnels[t].hlist && r.held == 0
    requires TunnelOk(w.tunnels[t], |Live(w, t)|) ==> TunnelOk(r, |Live(w, t)|)
    ensures Valid(SetTunnel(w, t, r))
  {
    assert TunnelOk(w.tunnels[t], |Live(w, t)|);
    TunnelAlone(w, SetTunnel(w, t, r), t);
  }

  lemma WorkKeeps(w: World, t: nat)
    requires Valid(w) && t in w.tunnels && w.tunnels[t].pending
    ensures Valid(SetTunnel(w, t, FinishWork(w.tunnels[t])))
  {
    TunnelAloneValid(w, t, FinishWork(w.tunnels[t]));
  }

  lemma HoldTunnelSockKeeps(w: World, t: nat)
    requires Valid(w) && Goes(w, HoldTunnelSock(t))
    ensures Valid(SetTunnel(w, t, HoldOwner(w.tunnels[t])))
  {
    TunnelAloneValid(w, t, HoldOwner(w.tunnels[t]));
  }

  lemma DropTunnelSockKeeps(w: World, t: nat)
    requires Valid(w) && Goes(w, DropTunnelSock(t))
    ensures Valid(SetTunnel(w, t, DropOwner(w.tunnels[t])))
  {
    TunnelAloneValid(w, t, DropOwner(w.tunnels[t]));
  }

  lemma QueueWorkKeeps(w: World, t: nat)
    requires Inv(w, {}) && t in w.tunnels && w.tunnels[t].held == 1
    ensures Inv(QueueWork(w, t), {})
  {
    assert TunnelOk(w.tunnels[t], |Live(w, t)|);
    TunnelAlone(w, QueueWork(w, t), t);
  }

  lemma DeleteTunnelKeeps(w: World, t: nat)
    requires Valid(w) && t in w.tunnels && w.tunnels[t].listed
    ensures Valid(TunnelDelete(w, t)) && t in TunnelDelete(w, t).tunnels
    ensures TunnelDelete(w, t).tunnels[t].hlist == [] && TunnelDelete(w, t).tunnels[t].pending
  {
    HeldOk(w, t);
    var a := Held(w, t);
    CloseAllEffect(a, t);
    var b := CloseAll(a, t);
    assert a.tunnels[t].held == 1;
    QueueWorkKeeps(b, t);
    HeldAgain(w, a, b, t);
  }

  lemma HeldAgain(w: World, a: World, b: World, t: nat)
    requires t in w.tunnels && a == Held(w, t) && OnlyTunnel(a, b, t)
    requires NoCallHolds(w)
    ensures TunnelAt(b, t).held == 1 && NoCallHolds(QueueWork(b, t))
  {
  }

  /** A piece of a call keeps no tunnel reference, forgets no freed session, makes no
      chain longer, hashes no session and does not bring in L2TPv3. */
  ghost predicate Clean(w: World, v: World) {
    && (NoCallHolds(w) ==> NoCallHolds(v)) && w.freeLog <= v.freeLog
    && (forall t :: |TunnelAt(v, t).hlist| <= |TunnelAt(w, t).hlist|)
    && (NoV3(w) ==> NoV3(v))
    && NoneHashed(w, v)
  }

  /** Whatever is hashed was so before, in the same tunnel and with the same id. */
  ghost predicate NoneHashed(w: World, v: World) {
    forall s {:trigger v.sessions[s]} :: s in v.sessions && v.sessions[s].hashed ==> Placed(w, s, v.sessions[s].tunnel, v.sessions[s].id)
  }

  predicate Placed(w: World, s: nat, t: nat, id: nat) {
    s in w.sessions && w.sessions[s].hashed && w.sessions[s].tunnel == t && w.sessions[s].id == id
  }

  /** All tunnels and sessions are of L2TPv2. */
  ghost predicate NoV3(w: World) {
    && (forall t {:trigger w.tunnels[t]} :: t in w.tunnels ==> !w.tunnels[t].v3)
    && (forall s {:trigger w.sessions[s]} :: s in w.sessions ==> !w.sessions[s].v3)
  }

  lemma CleanTrans(w: World, v: World, x: World)
    requires Clean(w, v) && Clean(v, x)
    ensures Clean(w, x)
  {
  }

  lemma SessionClean(w: World, s: nat, e: Session)
    requires e.v3 == SessionAt(w, s).v3 && (e.hashed ==> Placed(w, s, e.tunnel, e.id))
    ensures Clean(w, SetSession(w, s, e))
  {
  }

  lemma SockClean(w: World, k: nat, e: Sock)
    ensures Clean(w, SetSock(w, k, e))
  {
  }

  lemma TunnelClean(w: World, t: nat, r: Tunnel)
    requires r.held == TunnelAt(w, t).held && r.v3 == TunnelAt(w, t).v3 && |r.hlist| <= |TunnelAt(w, t).hlist|
    ensures Clean(w, SetTunnel(w, t, r))
  {
  }

  lemma LogClean(w: World, count: int, s: nat)
    ensures Clean(w, w.(count := count, freeLog := w.freeLog + [s]))
  {
  }

  lemma FreeClean(w: World, s: nat)
    ensures Clean(w, SessionFree(w, s))
  {
    var e := SessionAt(w, s);
    var a := SetTunnel(w, e.tunnel, TunnelDec(TunnelSockPut(TunnelAt(w, e.tunnel))));
    TunnelClean(w, e.tunnel, a.tunnels[e.tunnel]);
    var b := SetSession(a, s, e.(freed := true));
    SessionClean(a, s, e.(freed := true));
    CleanTrans(w, a, b);
    LogClean(b, w.count - One(e.id != 0), s);
    CleanTrans(w, b, SessionFree(w, s));
  }

  lemma DecClean(w: World, s: nat)
    ensures Clean(w, SessionDec(w, s))
  {
    var e := SessionAt(w, s).(refCount := SessionAt(w, s).refCount - 1);
    var v := SetSession(w, s, e);
    SessionClean(w, s, e);
    if e.refCount == 0 {
      FreeClean(v, s);
      CleanTrans(w, v, SessionFree(v, s));
    }
  }

  lemma PutClean(w: World, k: nat)
    ensures Clean(w, SockPut(w, k))
  {
    var e := SockAt(w, k).(refs := SockAt(w, k).refs - 1);
    if e.refs != 0 {
      SockClean(w, k, e);
    } else {
      var v := SetSock(w, k, e.(destroyed := true, session := None));
      SockClean(w, k, e.(destroyed := true, session := None));
      if e.session.Some? {
        DecClean(v, e.session.value);
        CleanTrans(w, v, SessionDec(v, e.session.value));
      }
    }
  }

  lemma {:induction false} PurgeClean(w: World, s: nat, n: nat)
    ensures Clean(w, PurgeN(w, s, n))
    decreases n
  {
    if n > 0 {
      var e := SessionAt(w, s);
      var v := SetSession(w, s, e.(queued := n - 1));
      var x := if e.sock.Some? then SockPut(v, e.sock.value) else v;
      SessionClean(w, s, e.(queued := n - 1));
      if e.sock.Some? {
        PutClean(v, e.sock.value);
        CleanTrans(w, v, x);
      }
      PurgeClean(x, s, n - 1);
      CleanTrans(w, x, PurgeN(x, s, n - 1));
    }
  }

  lemma UnhashClean(w: World, s: nat)
    ensures Clean(w, Unhash(w, s))
  {
    var e := SessionAt(w, s).(hashed := false);
    var a := SetSession(w, s, e);
    SessionClean(w, s, e);
    var r := TunnelAt(w, e.tunnel);
    TunnelClean(a, e.tunnel, r.(hlist := Without(r.hlist, s)));
    CleanTrans(w, a, Unhash(w, s));
  }

  lemma ClearedClean(w: World, s: nat)
    ensures Clean(w, Cleared(w, s))
  {
    var u := Unhash(w, s);
    UnhashClean(w, s);
    PurgeClean(u, s, SessionAt(u, s).queued);
    CleanTrans(w, u, Cleared(w, s));
  }

  lemma HoldClean(w: World, k: nat)
    ensures Clean(w, SockHold(w, k))
  {
    SockClean(w, k, SockAt(w, k).(refs := SockAt(w, k).refs + 1));
  }

  lemma DeleteClean(w: World, s: nat)
    ensures Clean(w, SessionDelete(w, s))
  {
    var k := SessionAt(w, s).sock;
    if k.None? {
      ClearedClean(w, s);
      DecClean(Cleared(w, s), s);
      CleanTrans(w, Cleared(w, s), SessionDelete(w, s));
    } else {
      DeleteHeldClean(w, s, k.value);
    }
  }

  lemma DeleteHeldClean(w: World, s: nat, k: nat)
    requires SessionAt(w, s).sock == Some(k)
    ensures Clean(w, SessionDelete(w, s))
  {
    HeldClearedClean(w, s, k);
    var a := Cleared(SockHold(w, k), s);
    IncClean(w, a, s, k);
    PutDecClean(w, if SockAt(a, k).attached then SessionInc(a, s) else a, s, k);
  }

  lemma HeldClearedClean(w: World, s: nat, k: nat)
    ensures Clean(w, Cleared(SockHold(w, k), s))
  {
    var h := SockHold(w, k);
    HoldClean(w, k);
    ClearedClean(h, s);
    CleanTrans(w, h, Cleared(h, s));
  }

  lemma IncClean(w: World, a: World, s: nat, k: nat)
    requires Clean(w, a)
    ensures Clean(w, if SockAt(a, k).attached then SessionInc(a, s) else a)
  {
    SessionClean(a, s, SessionAt(a, s).(refCount := SessionAt(a, s).refCount + 1));
    CleanTrans(w, a, SessionInc(a, s));
  }

  lemma PutDecClean(w: World, b: World, s: nat, k: nat)
    requires Clean(w, b)
    ensures Clean(w, SessionDec(SockPut(b, k), s))
  {
    PutClean(b, k);
    CleanTrans(w, b, SockPut(b, k));
    DecClean(SockPut(b, k), s);
    CleanTrans(w, SockPut(b, k), SessionDec(SockPut(b, k), s));
  }

  lemma ReleaseClean(w: World, k: nat)
    ensures Clean(w, Release(w, k))
  {
    if SockAt(w, k).attached {
      var a := SetSock(w, k, SockAt(w, k).(attached := false));
      SockClean(w, k, SockAt(w, k).(attached := false));
      match SockAt(w, k).session
      case None =>
        PutClean(a, k);
        CleanTrans(w, a, SockPut(a, k));
      case Some(s) =>
        ReleaseHeldClean(a, s, k);
        CleanTrans(w, a, SockPut(SockPut(Cleared(SockHold(a, k), s), k), k));
    }
  }

  lemma ReleaseHeldClean(a: World, s: nat, k: nat)
    ensures Clean(a, SockPut(SockPut(Cleared(SockHold(a, k), s), k), k))
  {
    var h := SockHold(a, k);
    HoldClean(a, k);
    ClearedClean(h, s);
    var b := Cleared(h, s);
    CleanTrans(a, h, b);
    PutClean(b, k);
    CleanTrans(a, b, SockPut(b, k));
    PutClean(SockPut(b, k), k);
    CleanTrans(a, SockPut(b, k), SockPut(SockPut(b, k), k));
  }

  lemma {:induction false} CloseAllClean(w: World, t: nat)
    ensures Clean(w, CloseAll(w, t))
    decreases |TunnelAt(w, t).hlist|
  {
    if TunnelAt(w, t).hlist != [] {
      var a := Unchained(w, t);
      var s := TunnelAt(w, t).hlist[0];
      TunnelClean(w, t, a.tunnels[t]);
      DeleteClean(a, s);
      CleanTrans(w, a, SessionDelete(a, s));
      CloseAllClean(SessionDelete(a, s), t);
      CleanTrans(w, SessionDelete(a, s), CloseAll(w, t));
    }
  }

  // ---- sockets and frames -------------------------------------------------------------------------------

  lemma HoldSockKeeps(w: World, k: nat)
    requires Inv(w, {}) && k in w.socks && !w.socks[k].destroyed
    ensures Inv(HoldOther(w, k), {})
  {
    var v := HoldOther(w, k);
    assert v.socks == w.socks[k := v.socks[k]];
    assert SockOk(w, w.socks[k], k);
    match w.socks[k].session
    case None => SockAlone(w, v, k);
    case Some(s) =>
      RestFacts(w, s);
      SockStepFits(w, v, s, k);
      ChangeKeeps(w, v, s, k, {});
  }

  lemma SockStepFits(w: World, v: World, s: nat, k: nat)
    requires s in w.sessions && !w.sessions[s].freed && w.sessions[s].sock == Some(k) && AtRest(w, s)
    requires k in v.socks && v == w.(socks := w.socks[k := v.socks[k]])
    requires SockOf(v.socks[k], s, w.sessions[s]) && v.socks[k].refs > 0
    ensures ChangedAt(w, v, s, k) && AtRest(v, s) && SockOk(v, v.socks[k], k)
  {
    assert w.sessions == w.sessions[s := w.sessions[s]];
  }

  lemma DropSockKeeps(w: World, k: nat)
    requires Inv(w, {}) && k in w.socks && w.socks[k].others > 0
    ensures Inv(DropOther(w, k), {})
  {
    var u := SetSock(w, k, w.socks[k].(others := w.socks[k].others - 1));
    assert SockOk(w, w.socks[k], k);
    match w.socks[k].session
    case None => PutAlone(w, u, k);
    case Some(s) =>
      RestFacts(w, s);
      DropFits(w, u, s, k);
      FinalPut(w, u, s, k);
  }

  lemma DropFits(w: World, u: World, s: nat, k: nat)
    requires s in w.sessions && w.sessions[s].sock == Some(k) && AtRest(w, s) && k in w.socks && w.socks[k].others > 0
    requires u == SetSock(w, k, w.socks[k].(others := w.socks[k].others - 1))
    ensures ChangedAt(w, u, s, k) && OneTooMany(u, s, k)
  {
    assert w.sessions == w.sessions[s := w.sessions[s]];
  }

  /** The queue of a session without a socket changes on its own. */
  lemma QueueAlone(w: World, v: World, s: nat)
    requires Inv(w, {}) && s in w.sessions && !w.sessions[s].freed && w.sessions[s].sock.None? && w.sessions[s].v3
    requires s in v.sessions && v == SetSession(w, s, w.sessions[s].(queued := v.sessions[s].queued))
    ensures Inv(v, {})
  {
    RestFacts(w, s);
    QueueAloneSessions(w, v, s);
    SameCounts(w, v);
    SameLog(w, v, s);
    SameLists(w, v, s);
  }

  lemma SameCounts(w: World, v: World)
    requires TunnelsOk(w) && w.count == |Counted(w)| && v.tunnels == w.tunnels && v.count == w.count
    requires v.sessions.Keys == w.sessions.Keys
    requires forall s :: s in w.sessions ==>
      v.sessions[s].freed == w.sessions[s].freed && v.sessions[s].tunnel == w.sessions[s].tunnel && v.sessions[s].id == w.sessions[s].id
    ensures TunnelsOk(v) && v.count == |Counted(v)|
  {
    SameLive(w, v);
  }

  lemma QueueAloneSessions(w: World, v: World, s: nat)
    requires SessionsOk(w, {}) && SocksOk(w) && s in w.sessions && AtRest(w, s) && w.sessions[s].sock.None? && w.sessions[s].v3
    requires s in v.sessions && v == SetSession(w, s, w.sessions[s].(queued := v.sessions[s].queued))
    ensures SessionsOk(v, {}) && SocksOk(v)
  {
    forall x | x in v.sessions
      ensures v.sessions[x].tunnel in v.tunnels
      ensures if v.sessions[x].freed then Unreferenced(v, x) else AtRest(v, x)
    {
      assert w.sessions[x].tunnel in w.tunnels;
    }
    forall k | k in v.socks
      ensures SockOk(v, v.socks[k], k)
    {
      assert SockOk(w, w.socks[k], k);
    }
  }

  lemma QueueKeeps(w: World, s: nat, path: Path)
    requires Inv(w, {}) && Goes(w, QueueFrame(s, path))
    ensures Inv(QueueOne(w, s), {})
  {
    HashedIsLive(w, s);
    RestFacts(w, s);
    match w.sessions[s].sock
    case None => QueueAlone(w, QueueOne(w, s), s);
    case Some(k) => ChangeKeeps(w, QueueOne(w, s), s, k, {});
  }

  lemma DequeueKeeps(w: World, s: nat)
    requires Inv(w, {}) && s in w.sessions && !w.sessions[s].freed && w.sessions[s].queued > 0
    ensures Inv(DequeueOne(w, s), {})
  {
    if w.sessions[s].sock.None? {
      assert AtRest(w, s);
      QueueAlone(w, DequeueOne(w, s), s);
    } else {
      DequeueHeldKeeps(w, s, w.sessions[s].sock.value);
    }
  }

  lemma DequeueHeldKeeps(w: World, s: nat, k: nat)
    requires Inv(w, {}) && s in w.sessions && !w.sessions[s].freed && w.sessions[s].queued > 0 && w.sessions[s].sock == Some(k)
    ensures Inv(DequeueOne(w, s), {})
  {
    RestFacts(w, s);
    var u := SetSession(w, s, w.sessions[s].(queued := w.sessions[s].queued - 1));
    DequeueFits(w, u, s, k);
    FinalPut(w, u, s, k);
  }

  lemma DequeueFits(w: World, u: World, s: nat, k: nat)
    requires s in w.sessions && w.sessions[s].sock == Some(k) && AtRest(w, s) && k in w.socks && w.sessions[s].queued > 0
    requires u == SetSession(w, s, w.sessions[s].(queued := w.sessions[s].queued - 1))
    ensures ChangedAt(w, u, s, k) && OneTooMany(u, s, k)
  {
    assert u.socks == w.socks[k := u.socks[k]];
  }

  lemma QueuedIsLive(w: World, s: nat)
    requires SessionsOk(w, {}) && s in w.sessions && w.sessions[s].queued > 0
    ensures !w.sessions[s].freed
  {
  }
}
