/** Tearing a tunnel down to the end: the delete work, the release of sockets, and a
    run that leaves the tunnel freed. */
module Teardown {
  import opened Common
  import opened Lifecycle
  import Runs = LifecycleRuns

  // ---- the delete work ------------------------------------------------------------------

  /** The delete work gives back its reference and is no longer pending. It frees the
      tunnel if and only if the tunnel has left the list and has no live session, and
      changes nothing else. */
  lemma WorkDone(w: World, t: nat)
    requires Valid(w) && t in w.tunnels && w.tunnels[t].pending
    ensures var r := w.tunnels[t];
      Step(w, RunWork(t)) == w.(tunnels := w.tunnels[t :=
        r.(pending := false, refCount := r.refCount - 1, freed := !r.listed && Live(w, t) == {})])
  {
    WorkDoneTo(w.tunnels[t], |Live(w, t)|);
    assert |Live(w, t)| == 0 <==> Live(w, t) == {};
    StepWork(w, t, FinishWork(w.tunnels[t]));
  }

  lemma StepWork(w: World, t: nat, r: Tunnel)
    requires t in w.tunnels && w.tunnels[t].pending && r == FinishWork(w.tunnels[t])
    ensures Step(w, RunWork(t)) == w.(tunnels := w.tunnels[t := r])
  {
  }

  lemma WorkDoneTo(r: Tunnel, live: nat)
    requires TunnelOk(r, live) && r.held == 0 && r.pending
    ensures FinishWork(r) == r.(pending := false, refCount := r.refCount - 1, freed := !r.listed && live == 0)
  {
  }

  /** In every safe run, once the owner of the tunnel socket and the sessions have let
      go, the tunnel is freed as soon as its delete work has run. */
  lemma FreedWhenLetGo(ops: seq<Op>, t: nat)
    requires Runs.SafeRun(ops) && t in Runs.Run(ops).tunnels
    requires Runs.Run(ops).tunnels[t].ownerRefs == 0 && Live(Runs.Run(ops), t) == {}
    ensures Runs.Run(ops + [RunWork(t)]).tunnels[t].freed
  {
    Runs.RunValid(ops);
    Runs.RunSnoc(EMPTY, ops, RunWork(t));
    LetGoFreed(Runs.Run(ops), t);
  }

  lemma LetGoFreed(w: World, t: nat)
    requires Valid(w) && t in w.tunnels && w.tunnels[t].ownerRefs == 0 && Live(w, t) == {}
    ensures var v := Step(w, RunWork(t)); t in v.tunnels && v.tunnels[t].freed
  {
    assert TunnelOk(w.tunnels[t], |Live(w, t)|) && w.tunnels[t].held == 0;
    if w.tunnels[t].pending {
      WorkDone(w, t);
    }
  }

  // ---- releasing a socket ---------------------------------------------------------------

  /** Releasing a socket detaches it from its owner, and destroys it if and only if
      nobody else holds it. A session behind it leaves the index and its queue, and is
      freed if and only if the socket is destroyed. */
  lemma ReleaseIff(w: World, k: nat)
    requires Inv(w, {}) && k in w.socks && w.socks[k].attached
    ensures var v := Release(w, k);
      && k in v.socks && !v.socks[k].attached && v.socks[k].others == w.socks[k].others
      && (v.socks[k].destroyed <==> w.socks[k].others == 0)
      && (w.socks[k].session.Some? ==>
            var s := w.socks[k].session.value;
            && s in v.sessions && !v.sessions[s].hashed && v.sessions[s].queued == 0
            && (v.sessions[s].freed <==> w.socks[k].others == 0))
  {
    assert SockOk(w, w.socks[k], k);
    if w.socks[k].session.Some? {
      ReleaseOfSession(w, w.socks[k].session.value, k);
    }
  }

  lemma ReleaseOfSession(w: World, s: nat, k: nat)
    requires Inv(w, {}) && s in w.sessions && !w.sessions[s].freed && w.sessions[s].sock == Some(k)
    requires k in w.socks && w.socks[k].attached && w.socks[k].session == Some(s)
    ensures var v := Release(w, k);
      && k in v.socks && !v.socks[k].attached && v.socks[k].others == w.socks[k].others
      && (v.socks[k].destroyed <==> w.socks[k].others == 0)
      && s in v.sessions && !v.sessions[s].hashed && v.sessions[s].queued == 0
      && (v.sessions[s].freed <==> w.socks[k].others == 0)
  {
    RestFacts(w, s);
    ReleaseSteps(w, s, k);
    ClosingFits(w, s, k);
    FinalPut(w, Closing(w, s, k), s, k);
    PutIff(w, Closing(w, s, k), s, k);
  }

  /** Dropping a reference of the socket behind a session. */
  lemma PutIff(w: World, u: World, s: nat, k: nat)
    requires ChangedAt(w, u, s, k) && OneTooMany(u, s, k) && !w.sessions[s].freed && w.sessions[s].sock == Some(k)
    ensures var v := SockPut(u, k);
      && k in v.socks && v.socks[k].attached == u.socks[k].attached && v.socks[k].others == u.socks[k].others
      && (v.socks[k].destroyed <==> u.socks[k].refs == 1)
      && v.socks[k].refs == u.socks[k].refs - 1
      && s in v.sessions && v.sessions[s].sock == Some(k)
      && v.sessions[s].hashed == u.sessions[s].hashed && v.sessions[s].queued == u.sessions[s].queued
  {
    if u.socks[k].refs == 1 {
      LastReference(w, u, Bare(u, s, k), s, k);
    }
  }

  /** The socket destroyed, and the session without its reference. */
  function Bare(u: World, s: nat, k: nat): World {
    SetSession(SetSock(u, k, SockAt(u, k).(refs := 0, destroyed := true, session := None)), s, SessionAt(u, s).(refCount := 0))
  }

  // ---- letting the sessions of a tunnel go -----------------------------------------------

  /** The tunnel's chain stays empty and its holders the same, and no session comes,
      moves or returns. */
  ghost predicate Undisturbed(w: World, v: World, t: nat) {
    && t in w.tunnels && t in v.tunnels && SameHolders(w.tunnels[t], v.tunnels[t]) && v.tunnels[t].hlist == []
    && v.sessions.Keys == w.sessions.Keys
    && forall x {:trigger v.sessions[x]} :: x in w.sessions ==>
         v.sessions[x].tunnel == w.sessions[x].tunnel && (w.sessions[x].freed ==> v.sessions[x].freed)
  }

  lemma UndisturbedTwice(w: World, v: World, x: World, t: nat)
    requires Undisturbed(w, v, t) && Undisturbed(v, x, t)
    ensures Undisturbed(w, x, t)
  {
  }

  lemma ChangedUndisturbed(w: World, u: World, s: nat, k: nat, t: nat)
    requires ChangedAt(w, u, s, k) && t in w.tunnels && w.tunnels[t].hlist == [] && w.sessions[s].tunnel == t
    ensures Undisturbed(w, u, t)
  {
  }

  lemma SockUndisturbed(w: World, u: World, k: nat, e: Sock, t: nat)
    requires Undisturbed(w, u, t)
    ensures Undisturbed(w, SetSock(u, k, e), t)
  {
  }

  lemma FreeUndisturbed(w: World, u: World, s: nat, t: nat)
    requires Undisturbed(w, u, t) && s in u.sessions && u.sessions[s].tunnel == t
    ensures Undisturbed(w, SessionFree(u, s), t)
  {
  }

  lemma PutUndisturbed(w: World, u: World, s: nat, k: nat, t: nat)
    requires ChangedAt(w, u, s, k) && OneTooMany(u, s, k) && t in w.tunnels && w.tunnels[t].hlist == []
    requires !w.sessions[s].freed && w.sessions[s].sock == Some(k) && w.sessions[s].tunnel == t
    ensures Undisturbed(w, SockPut(u, k), t)
  {
    if u.socks[k].refs > 1 {
      ChangedUndisturbed(w, u, s, k, t);
      PutNotLast(u, k);
      SockUndisturbed(w, u, k, u.socks[k].(refs := u.socks[k].refs - 1), t);
    } else {
      var x := Bare(u, s, k);
      LastReference(w, u, x, s, k);
      ChangedUndisturbed(w, x, s, k, t);
      FreeUndisturbed(w, x, s, t);
    }
  }

  /** A live session that is out of its tunnel's chain is kept by its socket alone. */
  lemma KeptBySocket(w: World, s: nat, t: nat)
    requires Inv(w, {}) && t in w.tunnels && w.tunnels[t].hlist == [] && s in Live(w, t)
    ensures !w.sessions[s].hashed && w.sessions[s].queued == 0 && w.sessions[s].sock.Some?
    ensures var k := w.sessions[s].sock.value;
      && k in w.socks && w.socks[k].session == Some(s) && !w.socks[k].destroyed && w.socks[k].refs > 0
      && w.socks[k].refs == One(w.socks[k].attached) + w.socks[k].others && AtRest(w, s)
  {
    assert ListOk(w.sessions, w.tunnels[t].hlist, t);
    assert s !in w.tunnels[t].hlist;
    RestFacts(w, s);
  }

  /** The socket has lost a reference, and the session is freed with the last one. */
  ghost predicate Lighter(w: World, v: World, s: nat, k: nat, t: nat) {
    && Undisturbed(w, v, t) && s in v.sessions && v.sessions[s].sock == Some(k)
    && (v.sessions[s].freed || 0 < SockAt(v, k).refs < SockAt(w, k).refs)
  }

  lemma PutLighter(w: World, u: World, s: nat, k: nat, t: nat)
    requires Inv(w, {}) && t in w.tunnels && w.tunnels[t].hlist == [] && ChangedAt(w, u, s, k) && OneTooMany(u, s, k)
    requires !w.sessions[s].freed && w.sessions[s].sock == Some(k) && w.sessions[s].tunnel == t
    requires u.socks[k].refs <= w.socks[k].refs
    ensures Lighter(w, SockPut(u, k), s, k, t)
  {
    FinalPut(w, u, s, k);
    PutIff(w, u, s, k);
    PutUndisturbed(w, u, s, k, t);
  }

  /** The socket with one reference of the rest of the kernel less to come. */
  function Dropping(w: World, k: nat): World {
    SetSock(w, k, SockAt(w, k).(others := if SockAt(w, k).others > 0 then SockAt(w, k).others - 1 else 0))
  }

  lemma DroppingFits(w: World, s: nat, k: nat)
    requires s in w.sessions && k in w.socks && w.sessions[s].sock == Some(k) && AtRest(w, s) && w.socks[k].others > 0
    ensures ChangedAt(w, Dropping(w, k), s, k) && OneTooMany(Dropping(w, k), s, k)
    ensures DropOther(w, k) == SockPut(Dropping(w, k), k)
  {
    assert w.sessions == w.sessions[s := w.sessions[s]];
  }

  lemma DropLighter(w: World, s: nat, k: nat, t: nat)
    requires Inv(w, {}) && t in w.tunnels && w.tunnels[t].hlist == [] && s in Live(w, t) && w.sessions[s].sock == Some(k)
    requires k in w.socks && w.socks[k].others > 0
    ensures Lighter(w, DropOther(w, k), s, k, t)
  {
    KeptBySocket(w, s, t);
    DroppingFits(w, s, k);
    PutLighter(w, Dropping(w, k), s, k, t);
  }

  lemma ReleaseLighter(w: World, s: nat, k: nat, t: nat)
    requires Inv(w, {}) && t in w.tunnels && w.tunnels[t].hlist == [] && s in Live(w, t) && w.sessions[s].sock == Some(k)
    requires k in w.socks && w.socks[k].others == 0
    ensures w.socks[k].attached && Lighter(w, Release(w, k), s, k, t)
  {
    KeptBySocket(w, s, t);
    ReleaseSteps(w, s, k);
    ClosingFits(w, s, k);
    PutLighter(w, Closing(w, s, k), s, k, t);
  }

  lemma RunOne(w: World, op: Op)
    ensures Runs.RunFrom(w, [op]) == Step(w, op)
  {
    Runs.RunSnoc(w, [], op);
    assert [] + [op] == [op];
  }

  /** Calls that let go of sockets. */
  ghost predicate LettingGo(ops: seq<Op>, t: nat) {
    forall op :: op in ops ==> op.DropSock? || op.ReleaseSock? || op == DropTunnelSock(t)
  }

  lemma RunDrop(w: World, k: nat, t: nat) returns (ops: seq<Op>)
    requires k in w.socks && w.socks[k].others > 0
    ensures LettingGo(ops, t) && Runs.RunFrom(w, ops) == DropOther(w, k)
  {
    ops := [DropSock(k)];
    RunOne(w, DropSock(k));
  }

  lemma RunRelease(w: World, k: nat, t: nat) returns (ops: seq<Op>)
    requires k in w.socks
    ensures LettingGo(ops, t) && Runs.RunFrom(w, ops) == Release(w, k)
  {
    ops := [ReleaseSock(k)];
    RunOne(w, ReleaseSock(k));
  }

  lemma RunDropOwner(w: World, t: nat) returns (ops: seq<Op>)
    requires Goes(w, DropTunnelSock(t))
    ensures LettingGo(ops, t) && Runs.RunFrom(w, ops) == SetTunnel(w, t, DropOwner(w.tunnels[t]))
  {
    ops := [DropTunnelSock(t)];
    RunOne(w, DropTunnelSock(t));
  }

  /** The rest of the kernel lets go of the socket, or its owner does. */
  lemma ReleaseOne(w: World, s: nat, k: nat, t: nat) returns (ops: seq<Op>, v: World)
    requires Valid(w) && t in w.tunnels && w.tunnels[t].hlist == [] && s in Live(w, t) && w.sessions[s].sock == Some(k)
    ensures LettingGo(ops, t) && v == Runs.RunFrom(w, ops) && Valid(v) && Lighter(w, v, s, k, t)
  {
    KeptBySocket(w, s, t);
    if w.socks[k].others > 0 {
      v := DropOther(w, k);
      Runs.DropSockKept(w, k);
      DropLighter(w, s, k, t);
      ops := RunDrop(w, k, t);
    } else {
      v := Release(w, k);
      Runs.ReleaseKept(w, k);
      ReleaseLighter(w, s, k, t);
      ops := RunRelease(w, k, t);
    }
  }

  /** The session has been let go without a trace on the rest of its tunnel. */
  ghost predicate Gone(w: World, v: World, s: nat, t: nat) {
    Valid(v) && Undisturbed(w, v, t) && s in v.sessions && v.sessions[s].freed
  }

  lemma GoneLater(w: World, v: World, x: World, s: nat, t: nat)
    requires Undisturbed(w, v, t) && Gone(v, x, s, t)
    ensures Gone(w, x, s, t)
  {
    UndisturbedTwice(w, v, x, t);
  }

  lemma StillLive(w: World, v: World, s: nat, t: nat)
    requires Undisturbed(w, v, t) && s in Live(w, t) && !v.sessions[s].freed
    ensures s in Live(v, t)
  {
  }

  /** A run that lets the session go. */
  lemma {:induction false} LetSessionGo(w: World, s: nat, k: nat, t: nat) returns (ops: seq<Op>)
    requires Valid(w) && t in w.tunnels && w.tunnels[t].hlist == [] && s in Live(w, t) && w.sessions[s].sock == Some(k)
    ensures LettingGo(ops, t)
    ensures Gone(w, Runs.RunFrom(w, ops), s, t)
    decreases SockAt(w, k).refs
  {
    var v;
    ops, v := ReleaseOne(w, s, k, t);
    if !v.sessions[s].freed {
      StillLive(w, v, s, t);
      var rest := LetSessionGo(v, s, k, t);
      Runs.RunConcat(w, ops, rest);
      GoneLater(w, v, Runs.RunFrom(v, rest), s, t);
      ops := ops + rest;
    }
  }

  lemma FewerLive(w: World, v: World, s: nat, t: nat)
    requires Undisturbed(w, v, t) && s in Live(w, t) && v.sessions[s].freed
    ensures |Live(v, t)| < |Live(w, t)|
  {
    assert forall x :: x in Live(v, t) ==> x in w.sessions && x in Live(w, t);
    assert Live(v, t) <= Live(w, t) - {s};
    SubsetSize(Live(v, t), Live(w, t) - {s});
  }

  lemma {:induction false} SubsetSize(a: set<nat>, b: set<nat>)
    requires a <= b
    ensures |a| <= |b|
    decreases |a|
  {
    if a != {} {
      var x :| x in a;
      SubsetSize(a - {x}, b - {x});
    }
  }

  /** A run that lets all of them go. */
  lemma {:induction false} LetAllGo(w: World, t: nat) returns (ops: seq<Op>)
    requires Valid(w) && t in w.tunnels && w.tunnels[t].hlist == []
    ensures LettingGo(ops, t)
    ensures var v := Runs.RunFrom(w, ops); Valid(v) && Undisturbed(w, v, t) && Live(v, t) == {}
    decreases |Live(w, t)|
  {
    if Live(w, t) == {} {
      ops := [];
    } else {
      var s :| s in Live(w, t);
      KeptBySocket(w, s, t);
      var first := LetSessionGo(w, s, w.sessions[s].sock.value, t);
      var v := Runs.RunFrom(w, first);
      FewerLive(w, v, s, t);
      var rest := LetAllGo(v, t);
      ops := first + rest;
      Runs.RunConcat(w, first, rest);
      UndisturbedTwice(w, v, Runs.RunFrom(v, rest), t);
    }
  }

  // ---- the whole way ------------------------------------------------------------------------

  /** The owners of the tunnel socket let go of it. */
  lemma {:induction false} OwnersLetGo(w: World, t: nat) returns (ops: seq<Op>)
    requires Valid(w) && t in w.tunnels && Live(w, t) == {}
    ensures LettingGo(ops, t) && AllLetGo(Runs.RunFrom(w, ops), t)
    decreases w.tunnels[t].ownerRefs
  {
    if w.tunnels[t].ownerRefs == 0 {
      ops := [];
    } else {
      var v := OwnerLetsGo(w, t);
      ops := RunDropOwner(w, t);
      var rest := OwnersLetGo(v, t);
      Runs.RunConcat(w, ops, rest);
      ops := ops + rest;
    }
  }

  lemma OwnerLetsGo(w: World, t: nat) returns (v: World)
    requires Valid(w) && t in w.tunnels && Live(w, t) == {} && w.tunnels[t].ownerRefs > 0
    ensures Goes(w, DropTunnelSock(t)) && v == SetTunnel(w, t, DropOwner(w.tunnels[t]))
    ensures Valid(v) && Live(v, t) == {} && v.tunnels[t].ownerRefs == w.tunnels[t].ownerRefs - 1
  {
    assert TunnelOk(w.tunnels[t], |Live(w, t)|);
    v := SetTunnel(w, t, DropOwner(w.tunnels[t]));
    DropTunnelSockKeeps(w, t);
    assert Live(v, t) == Live(w, t);
  }

  /** The state in which nothing but the delete work keeps the tunnel. */
  ghost predicate AllLetGo(w: World, t: nat) {
    Valid(w) && t in w.tunnels && w.tunnels[t].ownerRefs == 0 && Live(w, t) == {}
  }

  lemma {:induction false} EverybodyLetsGo(w: World, t: nat) returns (ops: seq<Op>)
    requires Valid(w) && t in w.tunnels && w.tunnels[t].hlist == []
    ensures LettingGo(ops, t)
    ensures AllLetGo(Runs.RunFrom(w, ops), t)
  {
    var first := LetAllGo(w, t);
    var b := Runs.RunFrom(w, first);
    var second := OwnersLetGo(b, t);
    Runs.RunConcat(w, first, second);
    ops := first + second;
  }

  lemma StepDeletes(w: World, t: nat, a: World)
    requires t in w.tunnels && w.tunnels[t].listed && a == TunnelDelete(w, t)
    ensures Step(w, DeleteTunnel(t)) == a
  {
  }

  lemma DeletedState(w: World, t: nat) returns (a: World)
    requires Valid(w) && t in w.tunnels && w.tunnels[t].listed
    ensures a == Step(w, DeleteTunnel(t)) && Valid(a) && t in a.tunnels && a.tunnels[t].hlist == []
  {
    DeleteTunnelKeeps(w, t);
    a := TunnelDelete(w, t);
    StepDeletes(w, t, a);
  }

  lemma RunAround(ops: seq<Op>, first: Op, more: seq<Op>, last: Op)
    ensures Runs.Run(ops + [first] + more + [last]) == Step(Runs.RunFrom(Step(Runs.Run(ops), first), more), last)
  {
    Runs.RunSnoc(EMPTY, ops, first);
    Runs.RunConcat(EMPTY, ops + [first], more);
    Runs.RunSnoc(EMPTY, ops + [first] + more, last);
  }

  /** Deleting a listed tunnel can always be completed: after its sessions and the owners
      of its socket have let go, the delete work leaves it freed. */
  lemma TeardownFrees(ops: seq<Op>, t: nat) returns (more: seq<Op>)
    requires Runs.SafeRun(ops) && t in Runs.Run(ops).tunnels && Runs.Run(ops).tunnels[t].listed
    ensures LettingGo(more, t)
    ensures var v := Runs.Run(ops + [DeleteTunnel(t)] + more + [RunWork(t)]); t in v.tunnels && v.tunnels[t].freed
  {
    Runs.RunValid(ops);
    var a := DeletedState(Runs.Run(ops), t);
    more := EverybodyLetsGo(a, t);
    LetGoFreed(Runs.RunFrom(a, more), t);
    RunAround(ops, DeleteTunnel(t), more, RunWork(t));
  }
}
