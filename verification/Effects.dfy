/** What single calls do to the objects they name and to nothing else, and which call
    undoes which. */
module Effects {
  import opened Common
  import opened Bytes
  import H = Header
  import D = Datagrams
  import opened Lifecycle
  import Runs = LifecycleRuns

  // ---- references -------------------------------------------------------------------------

  lemma StepHoldSock(w: World, k: nat, v: World)
    requires Goes(w, HoldSock(k)) && v == HoldOther(w, k)
    ensures Step(w, HoldSock(k)) == v
  {
  }

  lemma StepDropSock(w: World, k: nat, v: World)
    requires Goes(w, DropSock(k)) && v == DropOther(w, k)
    ensures Step(w, DropSock(k)) == v
  {
  }

  lemma HeldOther(w: World, k: nat) returns (a: World)
    requires k in w.socks && !w.socks[k].destroyed && w.socks[k].refs > 0
    ensures a == Step(w, HoldSock(k)) && Goes(a, DropSock(k))
    ensures a == SetSock(w, k, w.socks[k].(refs := w.socks[k].refs + 1, others := w.socks[k].others + 1))
  {
    a := HoldOther(w, k);
    StepHoldSock(w, k, a);
    assert a.socks == w.socks[k := a.socks[k]];
  }

  lemma DroppedOther(w: World, k: nat, a: World)
    requires k in w.socks && w.socks[k].refs > 0
    requires a == SetSock(w, k, w.socks[k].(refs := w.socks[k].refs + 1, others := w.socks[k].others + 1))
    ensures DropOther(a, k) == w
  {
    assert DropOther(a, k).socks == w.socks;
  }

  /** Dropping a reference of a PPP socket undoes taking it. */
  lemma HoldThenDrop(w: World, k: nat)
    requires Inv(w, {}) && k in w.socks && !w.socks[k].destroyed
    ensures Step(w, HoldSock(k)) == SetSock(w, k, w.socks[k].(refs := w.socks[k].refs + 1, others := w.socks[k].others + 1))
    ensures Step(Step(w, HoldSock(k)), DropSock(k)) == w
  {
    assert SockOk(w, w.socks[k], k);
    var a := HeldOther(w, k);
    DroppedOther(w, k, a);
    StepDropSock(a, k, w);
  }

  lemma StepHoldOwner(w: World, t: nat, v: World)
    requires Goes(w, HoldTunnelSock(t)) && v == SetTunnel(w, t, HoldOwner(w.tunnels[t]))
    ensures Step(w, HoldTunnelSock(t)) == v
  {
  }

  lemma StepDropOwner(w: World, t: nat, v: World)
    requires Goes(w, DropTunnelSock(t)) && v == SetTunnel(w, t, DropOwner(w.tunnels[t]))
    ensures Step(w, DropTunnelSock(t)) == v
  {
  }

  /** The same for the tunnel socket, whose owners can share it. */
  lemma HoldThenDropOwner(w: World, t: nat)
    requires Inv(w, {}) && t in w.tunnels && w.tunnels[t].hasSock && w.tunnels[t].ownerRefs > 0
    ensures var r := w.tunnels[t];
      Step(w, HoldTunnelSock(t)) == SetTunnel(w, t, r.(sockRefs := r.sockRefs + 1, ownerRefs := r.ownerRefs + 1))
    ensures Step(Step(w, HoldTunnelSock(t)), DropTunnelSock(t)) == w
  {
    SockCounted(w, t);
    HoldsAndDrops(w, t);
  }

  lemma SockCounted(w: World, t: nat)
    requires Inv(w, {}) && t in w.tunnels && w.tunnels[t].hasSock
    ensures w.tunnels[t].sockRefs > 0
  {
    assert TunnelOk(w.tunnels[t], |Live(w, t)|);
  }

  lemma HoldsAndDrops(w: World, t: nat)
    requires t in w.tunnels && w.tunnels[t].hasSock && w.tunnels[t].ownerRefs > 0 && w.tunnels[t].sockRefs > 0
    ensures var r := w.tunnels[t];
      Step(w, HoldTunnelSock(t)) == SetTunnel(w, t, r.(sockRefs := r.sockRefs + 1, ownerRefs := r.ownerRefs + 1))
    ensures Step(Step(w, HoldTunnelSock(t)), DropTunnelSock(t)) == w
  {
    var a := SetTunnel(w, t, HoldOwner(w.tunnels[t]));
    StepHoldOwner(w, t, a);
    DropUndoesHold(w.tunnels[t]);
    SetTwice(w, t, a.tunnels[t]);
    StepDropOwner(a, t, w);
  }

  lemma DropUndoesHold(r: Tunnel)
    requires r.sockRefs > 0
    ensures DropOwner(HoldOwner(r)) == r
  {
  }

  lemma SetTwice(w: World, t: nat, r: Tunnel)
    requires t in w.tunnels
    ensures SetTunnel(SetTunnel(w, t, r), t, w.tunnels[t]) == w
  {
    assert w.tunnels[t := r][t := w.tunnels[t]] == w.tunnels;
  }

  /** A new tunnel has one owner: when that lets go, the tunnel is freed. */
  lemma NewTunnelDropped(w: World, t: nat, v3: bool, ip: bool)
    requires t !in w.tunnels
    ensures var a := Step(w, NewTunnel(t, v3, ip)); t in a.tunnels && a.tunnels[t].listed && !a.tunnels[t].freed
    ensures var b := Step(Step(w, NewTunnel(t, v3, ip)), DropTunnelSock(t));
      t in b.tunnels && b.tunnels[t].freed && b.tunnels[t].refCount == 0 && !b.tunnels[t].listed && !b.tunnels[t].hasSock
  {
    var a := TunnelCreate(w, t, v3, ip);
    StepNewTunnel(w, t, v3, ip, a);
    var b := SetTunnel(a, t, DropOwner(a.tunnels[t]));
    StepDropOwner(a, t, b);
  }

  lemma StepNewTunnel(w: World, t: nat, v3: bool, ip: bool, v: World)
    requires Goes(w, NewTunnel(t, v3, ip)) && v == TunnelCreate(w, t, v3, ip)
    ensures Step(w, NewTunnel(t, v3, ip)) == v
  {
  }

  // ---- frames ---------------------------------------------------------------------------------

  lemma StepQueue(w: World, s: nat, path: Path, v: World)
    requires Goes(w, QueueFrame(s, path)) && v == QueueOne(w, s)
    ensures Step(w, QueueFrame(s, path)) == v
  {
  }

  lemma StepDequeue(w: World, s: nat, v: World)
    requires Goes(w, DequeueFrame(s)) && v == DequeueOne(w, s)
    ensures Step(w, DequeueFrame(s)) == v
  {
  }

  lemma QueuedBack(w: World, s: nat)
    requires s in w.sessions
    requires w.sessions[s].sock.Some? ==> w.sessions[s].sock.value in w.socks && w.socks[w.sessions[s].sock.value].refs > 0
    ensures DequeueOne(QueueOne(w, s), s) == w
    ensures Goes(QueueOne(w, s), DequeueFrame(s))
  {
    var e := w.sessions[s];
    var a := QueueOne(w, s);
    assert a.sessions == w.sessions[s := e.(queued := e.queued + 1)];
    var b := DequeueOne(a, s);
    assert b.sessions == w.sessions;
    if e.sock.Some? {
      assert b.socks == w.socks;
    }
  }

  /** A frame that leaves the queue gives back what it took when it came in. */
  lemma QueueThenDequeue(w: World, s: nat, path: Path)
    requires Inv(w, {}) && s in w.sessions && Reaches(w, s, path)
    ensures Step(Step(w, QueueFrame(s, path)), DequeueFrame(s)) == w
  {
    HashedIsLive(w, s);
    RestFacts(w, s);
    QueuedBack(w, s);
    StepQueue(w, s, path, QueueOne(w, s));
    StepDequeue(QueueOne(w, s), s, w);
  }

  function EncapOf(path: Path): H.Encap {
    if path == OverUdp then H.Udp else H.Ip
  }

  /** Some datagram on that path is found to be for a session of this configuration. */
  ghost predicate HasDatagram(c: H.Config, path: H.Encap) {
    exists data :: H.Finds(c, path, data)
  }

  /** The frames that reach a session are those whose bytes the receive path finds it by:
      with the configuration of the session and its tunnel there is such a datagram if
      and only if the session is reached, apart from the handler that UDP asks for. */
  lemma ReachesIffFound(w: World, s: nat, path: Path, c: H.Config)
    requires s in w.sessions && w.sessions[s].hashed && (path == OverUdp ==> w.sessions[s].sock.Some?)
    requires c.version == (if w.sessions[s].v3 then H.V3 else H.V2)
    requires c.encap == (if TunnelAt(w, w.sessions[s].tunnel).ip then H.Ip else H.Udp)
    requires 0 < c.sessionId < if c.version == H.V2 then 0x1_0000 else 0x1_0000_0000
    ensures Reaches(w, s, path) <==> HasDatagram(c, EncapOf(path))
  {
    if path == OverUdp && c.encap == H.Udp {
      UdpHas(c);
    } else if path == OverIp && c.version == H.V3 {
      IpHas(c);
    }
  }

  lemma UdpHas(c: H.Config)
    requires c.encap == H.Udp && c.sessionId < if c.version == H.V2 then 0x1_0000 else 0x1_0000_0000
    ensures HasDatagram(c, H.Udp)
  {
    if c.version == H.V2 {
      FoundBy2(c, UdpProbe2(c.sessionId));
    } else {
      FoundBy3(c, UdpProbe3(c.sessionId));
    }
  }

  lemma FoundBy2(c: H.Config, data: seq<Byte>)
    requires c.encap == H.Udp && c.version == H.V2 && c.sessionId < 0x1_0000
    requires D.IsDataMessage(H.V2, data) && data[0] == 0 && data[4..6] == U16(c.sessionId)
    ensures H.Finds(c, H.Udp, data)
  {
    D.UdpLookupIff(H.V2, data);
    D.BigEndianOf16(c.sessionId);
  }

  lemma FoundBy3(c: H.Config, data: seq<Byte>)
    requires c.encap == H.Udp && c.version == H.V3 && c.sessionId < 0x1_0000_0000
    requires D.IsDataMessage(H.V3, data) && data[4..8] == U32(c.sessionId)
    ensures H.Finds(c, H.Udp, data)
  {
    D.UdpLookupIff(H.V3, data);
    D.BigEndianOf32(c.sessionId);
  }

  function UdpProbe2(id: nat): (data: seq<Byte>)
    requires id < 0x1_0000
    ensures D.IsDataMessage(H.V2, data) && data[0] == 0 && data[4..6] == U16(id)
  {
    [0, 2, 0, 0] + U16(id) + [0, 0, 0, 0]
  }

  function UdpProbe3(id: nat): (data: seq<Byte>)
    requires id < 0x1_0000_0000
    ensures D.IsDataMessage(H.V3, data) && data[4..8] == U32(id)
  {
    [0, 3, 0, 0] + U32(id) + [0, 0]
  }

  lemma IpHas(c: H.Config)
    requires c.version == H.V3 && 0 < c.sessionId < 0x1_0000_0000
    ensures HasDatagram(c, H.Ip)
  {
    NetworkOrder(c.sessionId);
    var data := U32(c.sessionId);
    assert H.GetU32At(data, 0) == c.sessionId;
    D.IpOfId(data, c.sessionId);
    assert H.Finds(c, H.Ip, data);
  }

  // ---- sessions ---------------------------------------------------------------------------------

  /** A session that has been closed: out of the index and with an empty queue, and freed
      if no socket keeps it. */
  function Closed(e: Session): Session {
    if e.sock.None? then e.(hashed := false, queued := 0, refCount := 0, freed := true)
    else e.(hashed := false, queued := 0)
  }

  lemma DroppedCloses(w: World, s: nat)
    requires s in w.sessions && w.sessions[s].sock.None?
    ensures SessionFree(Dropped(w, s), s).sessions == w.sessions[s := Closed(w.sessions[s])]
  {
  }

  lemma DetachedCloses(w: World, s: nat, k: nat)
    requires s in w.sessions && w.sessions[s].sock == Some(k)
    ensures Detached(w, s, k).sessions == w.sessions[s := Closed(w.sessions[s])]
  {
  }

  lemma DeleteCloses(w: World, s: nat)
    requires Inv(w, {}) && s in w.sessions && w.sessions[s].hashed
    ensures SessionDelete(w, s).sessions == w.sessions[s := Closed(w.sessions[s])]
  {
    if w.sessions[s].sock.None? {
      DeleteUnconnected(w, s);
      DroppedCloses(w, s);
    } else {
      var k := w.sessions[s].sock.value;
      DeleteConnected(w, s, k);
      DetachedCloses(w, s, k);
    }
  }

  lemma StepDeleteSession(w: World, s: nat, v: World)
    requires Goes(w, DeleteSession(s)) && v == SessionDelete(w, s)
    ensures Step(w, DeleteSession(s)) == v
  {
  }

  /** Deleting a session closes it and no other. */
  lemma DeletedIff(w: World, s: nat)
    requires Inv(w, {}) && s in w.sessions && w.sessions[s].hashed
    ensures Step(w, DeleteSession(s)).sessions == w.sessions[s := Closed(w.sessions[s])]
  {
    DeleteCloses(w, s);
    StepDeleteSession(w, s, SessionDelete(w, s));
  }

  /** Every session of the chain is closed, and every other one is as before. */
  ghost predicate ChainClosed(w: World, v: World, chain: seq<nat>) {
    && v.sessions.Keys == w.sessions.Keys
    && forall x {:trigger v.sessions[x]} :: x in w.sessions ==>
         v.sessions[x] == if x in chain then Closed(w.sessions[x]) else w.sessions[x]
  }

  lemma OneMoreClosed(w: World, v: World, x: World, s: nat, rest: seq<nat>, chain: seq<nat>)
    requires s in w.sessions && v.sessions == w.sessions[s := Closed(w.sessions[s])] && ChainClosed(v, x, rest)
    requires s in chain && forall y :: y in rest <==> y in chain && y != s
    ensures ChainClosed(w, x, chain)
  {
  }

  lemma {:induction false} CloseAllCloses(w: World, t: nat)
    requires Inv(w, {}) && t in w.tunnels
    ensures ChainClosed(w, CloseAll(w, t), w.tunnels[t].hlist)
    decreases |w.tunnels[t].hlist|
  {
    if w.tunnels[t].hlist != [] {
      var s := w.tunnels[t].hlist[0];
      HeadIsHashed(w, t);
      DeleteCloses(w, s);
      DeleteKeeps(w, s);
      var v := CloseOne(w, t);
      CloseAllCloses(v, t);
      OneMoreClosed(w, v, CloseAll(v, t), s, v.tunnels[t].hlist, w.tunnels[t].hlist);
    }
  }

  lemma StepClose(w: World, t: nat, v: World)
    requires Goes(w, CloseTunnel(t)) && v == CloseAll(w, t)
    ensures Step(w, CloseTunnel(t)) == v
  {
  }

  /** Closing a tunnel closes the sessions in its chain and no other. */
  lemma TunnelClosed(w: World, t: nat)
    requires Inv(w, {}) && t in w.tunnels && w.tunnels[t].hasSock
    ensures ChainClosed(w, Step(w, CloseTunnel(t)), w.tunnels[t].hlist)
  {
    CloseAllCloses(w, t);
    StepClose(w, t, CloseAll(w, t));
  }

  lemma StepNewSession(w: World, s: nat, t: nat, id: nat, v: World)
    requires Goes(w, NewSession(s, t, id)) && v == SessionCreate(w, s, t, id)
    ensures Step(w, NewSession(s, t, id)) == v
  {
  }

  /** No session in the tunnel's chain has the id. */
  ghost predicate IdFree(w: World, t: nat, id: nat) {
    forall x {:trigger w.sessions[x]} :: x in w.sessions && w.sessions[x].hashed && w.sessions[x].tunnel == t ==> w.sessions[x].id != id
  }

  /** A new session is created if and only if its tunnel is listed and the id is free. */
  lemma CreatedIff(w: World, s: nat, t: nat, id: nat)
    requires Inv(w, {}) && s !in w.sessions
    ensures var v := Step(w, NewSession(s, t, id));
      if t in w.tunnels && w.tunnels[t].listed && IdFree(w, t, id)
      then s in v.sessions && v.sessions[s].hashed && v.sessions[s].id == id && v.tunnels[t].hlist == [s] + w.tunnels[t].hlist
      else v == w
  {
    if t in w.tunnels {
      assert TunnelOk(w.tunnels[t], |Live(w, t)|);
      if Goes(w, NewSession(s, t, id)) {
        StepNewSession(w, s, t, id, SessionCreate(w, s, t, id));
      }
    }
  }

  /** A session created and deleted leaves the tunnel and the counter as they were, and
      itself on the record of freed sessions. */
  lemma CreateThenDelete(w: World, s: nat, t: nat, id: nat)
    requires Inv(w, {}) && s !in w.sessions && t in w.tunnels && w.tunnels[t].listed && IdFree(w, t, id)
    ensures var v := Step(Step(w, NewSession(s, t, id)), DeleteSession(s));
      && v.tunnels == w.tunnels && v.socks == w.socks && v.count == w.count && v.freeLog == w.freeLog + [s]
      && s in v.sessions && v.sessions == w.sessions[s := v.sessions[s]] && v.sessions[s].freed
  {
    assert TunnelOk(w.tunnels[t], |Live(w, t)|);
    var a := SessionCreate(w, s, t, id);
    StepNewSession(w, s, t, id, a);
    SessionCreateKeeps(w, s, t, id);
    DeleteUnconnected(a, s);
    var v := SessionDelete(a, s);
    StepDeleteSession(a, s, v);
    assert ListOk(w.sessions, w.tunnels[t].hlist, t);
    CreatedAndFreed(w, s, t, id, a, |Live(w, t)|);
    FreedOthers(w, s, t, id, a);
  }

  lemma CreatedAndFreed(w: World, s: nat, t: nat, id: nat, a: World, live: nat)
    requires s !in w.sessions && t in w.tunnels && a == SessionCreate(w, s, t, id)
    requires TunnelOk(w.tunnels[t], live) && w.tunnels[t].hasSock && s !in w.tunnels[t].hlist
    ensures SessionFree(Dropped(a, s), s).tunnels == w.tunnels
  {
    TunnelBack(w.tunnels[t], live, s);
    FreedTunnels(a, s, t);
    CreatedTunnels(w, s, t, id, SessionFree(Dropped(a, s), s).tunnels);
  }

  lemma FreedTunnels(a: World, s: nat, t: nat)
    requires s in a.sessions && a.sessions[s].tunnel == t && t in a.tunnels
    ensures SessionFree(Dropped(a, s), s).tunnels
      == a.tunnels[t := TunnelDec(TunnelSockPut(a.tunnels[t].(hlist := Without(a.tunnels[t].hlist, s))))]
  {
    var r := a.tunnels[t].(hlist := Without(a.tunnels[t].hlist, s));
    assert Dropped(a, s).tunnels == a.tunnels[t := r];
    UpdateTwice(a.tunnels, t, r, TunnelDec(TunnelSockPut(r)));
  }

  lemma CreatedTunnels(w: World, s: nat, t: nat, id: nat, tunnels: map<nat, Tunnel>)
    requires t in w.tunnels
    requires tunnels == SessionCreate(w, s, t, id).tunnels[t := w.tunnels[t]]
    ensures tunnels == w.tunnels
  {
  }

  lemma FreedOthers(w: World, s: nat, t: nat, id: nat, a: World)
    requires s !in w.sessions && t in w.tunnels && a == SessionCreate(w, s, t, id)
    ensures var v := SessionFree(Dropped(a, s), s);
      && v.socks == w.socks && v.count == w.count && v.freeLog == w.freeLog + [s]
      && s in v.sessions && v.sessions == w.sessions[s := v.sessions[s]] && v.sessions[s].freed
  {
  }

  /** The tunnel with one session more, and one less again. */
  lemma TunnelBack(r: Tunnel, live: nat, s: nat)
    requires TunnelOk(r, live) && r.hasSock && s !in r.hlist
    ensures TunnelDec(TunnelSockPut(r.(refCount := r.refCount + 1, sockRefs := r.sockRefs + 1, hlist := Without([s] + r.hlist, s)))) == r
  {
    WithoutHead(r.hlist, s);
  }

  lemma {:induction false} WithoutAbsent(list: seq<nat>, x: nat)
    requires x !in list
    ensures Without(list, x) == list
  {
    if list != [] {
      WithoutAbsent(list[1..], x);
    }
  }

  lemma WithoutHead(list: seq<nat>, x: nat)
    requires x !in list
    ensures Without([x] + list, x) == list
  {
    WithoutAbsent(list, x);
    assert ([x] + list)[1..] == list;
  }

  /** Connecting ties session and socket to each other if and only if the session is in
      the index and has no socket, and the socket has its owner and no session; otherwise
      nothing changes. */
  lemma ConnectedIff(w: World, s: nat, k: nat)
    requires Inv(w, {}) && s in w.sessions && k in w.socks
    ensures Step(w, ConnectSock(s, k)) ==
      if w.sessions[s].hashed && w.sessions[s].sock.None? && w.socks[k].attached && w.socks[k].session.None?
      then w.(sessions := w.sessions[s := w.sessions[s].(sock := Some(k))], socks := w.socks[k := w.socks[k].(session := Some(s))])
      else w
  {
    assert SockOk(w, w.socks[k], k);
    StepConnect(w, s, k);
  }

  lemma StepConnect(w: World, s: nat, k: nat)
    requires s in w.sessions && k in w.socks && (w.socks[k].destroyed ==> !w.socks[k].attached)
    ensures Step(w, ConnectSock(s, k)) ==
      if w.sessions[s].hashed && w.sessions[s].sock.None? && w.socks[k].attached && w.socks[k].session.None?
      then w.(sessions := w.sessions[s := w.sessions[s].(sock := Some(k))], socks := w.socks[k := w.socks[k].(session := Some(s))])
      else w
  {
  }

  // ---- ids over runs --------------------------------------------------------------------------

  lemma SockStepHashesNone(w: World, op: Op)
    requires IsSockOp(op) && Goes(w, op)
    ensures NoneHashed(w, SockStep(w, op))
  {
    match op
    case NewSock(k) =>
    case ConnectSock(s, k) =>
    case ReleaseSock(k) => ReleaseClean(w, k);
    case HoldSock(k) =>
    case DropSock(k) => Runs.DropClean(w, k);
    case QueueFrame(s, _) =>
    case DequeueFrame(s) => Runs.DequeueClean(w, s);
  }

  lemma TunnelStepHashesNone(w: World, op: Op)
    requires !IsSockOp(op) && Goes(w, op) && !op.NewSession?
    ensures NoneHashed(w, TunnelStep(w, op))
  {
    match op
    case NewTunnel(t, v3, ip) =>
    case DeleteSession(s) => DeleteClean(w, s);
    case CloseTunnel(t) => CloseAllClean(w, t);
    case DeleteTunnel(t) => CloseAllClean(Held(w, t), t);
    case RunWork(t) =>
    case HoldTunnelSock(t) =>
    case DropTunnelSock(t) =>
  }

  /** At most one session in a tunnel's chain has a given id. */
  ghost predicate UniqueIds(w: World) {
    forall s, x {:trigger w.sessions[s], w.sessions[x]} ::
      s in w.sessions && x in w.sessions && w.sessions[s].hashed && Placed(w, x, w.sessions[s].tunnel, w.sessions[s].id) ==> s == x
  }

  lemma NoneHashedUnique(w: World, v: World)
    requires UniqueIds(w) && NoneHashed(w, v)
    ensures UniqueIds(v)
  {
  }

  lemma NewSessionUnique(w: World, s: nat, t: nat, id: nat)
    requires UniqueIds(w) && Goes(w, NewSession(s, t, id))
    ensures UniqueIds(SessionCreate(w, s, t, id))
  {
  }

  lemma StepUnique(w: World, op: Op)
    requires UniqueIds(w)
    ensures UniqueIds(Step(w, op))
  {
    if Goes(w, op) {
      if IsSockOp(op) {
        SockStepHashesNone(w, op);
        NoneHashedUnique(w, SockStep(w, op));
      } else if op.NewSession? {
        NewSessionUnique(w, op.s, op.t, op.id);
      } else {
        TunnelStepHashesNone(w, op);
        NoneHashedUnique(w, TunnelStep(w, op));
      }
    }
  }

  /** Over every run, safe or not, ids in a tunnel are unique, so that a lookup by id has
      at most one answer. */
  lemma {:induction false} IdsStayUnique(ops: seq<Op>, n: nat)
    requires n <= |ops|
    ensures UniqueIds(Runs.Run(ops[..n]))
  {
    if n > 0 {
      IdsStayUnique(ops, n - 1);
      Runs.RunOneMore(EMPTY, ops, n - 1);
      StepUnique(Runs.Run(ops[..n - 1]), ops[n - 1]);
    }
  }
}
