/** The two session indexes (a hash table in each tunnel and, for L2TPv3, one for the
    whole net), enumeration by position, and the resumable netlink dump. */
module SessionIndex {
  import opened Common
  import opened Header

  const HASH_SIZE: nat := 16
  const HASH_SIZE_2: nat := 256

  /** A session in the index: the identity of the object, its session id and the
      position of its tunnel in the tunnel list. */
  datatype Entry = Entry(handle: nat, id: nat, tunnel: nat)

  /** Hash chains, by bucket. */
  type Table = seq<seq<Entry>>

  datatype Tunnel = Tunnel(version: Version, table: Table)

  /** The bucket of an id: hash_32 with the number of bits of the table. Each table has
      a hash of its own, which is arbitrary. */
  function BucketOf(hash: nat -> nat, id: nat, size: nat): (b: nat)
    requires size > 0
    ensures b < size
  {
    hash(id) % size
  }

  /** Every entry is in its own bucket, once. */
  ghost predicate WellHashed(t: Table, hash: nat -> nat, size: nat) {
    && size > 0 && |t| == size
    && (forall b {:trigger t[b]} :: 0 <= b < size ==> Distinct(t[b]))
    && (forall b, e {:trigger e in t[b]} :: 0 <= b < size && e in t[b] ==> BucketOf(hash, e.id, size) == b)
  }

  ghost predicate Has(t: Table, e: Entry) {
    exists b {:trigger t[b]} :: 0 <= b < |t| && e in t[b]
  }

  function EmptyTable(size: nat): (t: Table)
    ensures |t| == size && forall b :: 0 <= b < size ==> t[b] == []
  {
    seq(size, b => [])
  }

  // ---- one table ---------------------------------------------------------------------

  /** hlist_add_head. */
  function AddHead(t: Table, b: nat, e: Entry): Table
    requires b < |t|
  {
    t[b := [e] + t[b]]
  }

  /** hlist_del_init, which does nothing to an entry that is not hashed. */
  function Delete(t: Table, b: nat, e: Entry): Table
    requires b < |t|
  {
    t[b := Without(t[b], e)]
  }

  lemma {:induction false} WithoutDistinct(chain: seq<Entry>, e: Entry)
    requires Distinct(chain)
    ensures Distinct(Without(chain, e))
    ensures chain != [] && chain[0] == e ==> Without(chain, e) == chain[1..]
    ensures e !in chain ==> Without(chain, e) == chain
  {
    if chain != [] {
      var rest := chain[1..];
      assert forall i :: 0 <= i < |rest| ==> rest[i] == chain[i + 1];
      WithoutDistinct(rest, e);
      assert chain[0] !in rest;
      assert chain == [chain[0]] + rest;
    }
  }

  lemma AddHeadKeeps(t: Table, hash: nat -> nat, size: nat, e: Entry)
    requires WellHashed(t, hash, size) && !Has(t, e)
    ensures var r := AddHead(t, BucketOf(hash, e.id, size), e);
      WellHashed(r, hash, size) && forall x :: Has(r, x) <==> Has(t, x) || x == e
  {
    var b := BucketOf(hash, e.id, size);
    var r := AddHead(t, b, e);
    assert e in r[b];
    forall x
      ensures Has(r, x) <==> Has(t, x) || x == e
    {
      if Has(t, x) {
        var c :| 0 <= c < |t| && x in t[c];
        assert x in r[c];
      }
    }
  }

  lemma DeleteKeeps(t: Table, hash: nat -> nat, size: nat, e: Entry)
    requires WellHashed(t, hash, size)
    ensures var r := Delete(t, BucketOf(hash, e.id, size), e);
      WellHashed(r, hash, size) && forall x :: Has(r, x) <==> Has(t, x) && x != e
  {
    var b := BucketOf(hash, e.id, size);
    var r := Delete(t, b, e);
    WithoutDistinct(t[b], e);
    forall x
      ensures Has(r, x) <==> Has(t, x) && x != e
    {
      if Has(t, x) && x != e {
        var c :| 0 <= c < |t| && x in t[c];
        assert x in r[c];
      }
      if Has(r, x) {
        var c :| 0 <= c < |r| && x in r[c];
        assert x in t[c];
      }
    }
  }

  // ---- enumeration ------------------------------------------------------------------------

  /** The chains one after another. */
  ghost function Flat<T>(t: seq<seq<T>>): seq<T> {
    if t == [] then [] else Flat(t[..|t| - 1]) + t[|t| - 1]
  }

  /** Start of chain `b` in the listing. */
  ghost function Before<T>(t: seq<seq<T>>, b: nat): nat
    requires b <= |t|
  {
    |Flat(t[..b])|
  }

  lemma BeforeNext<T>(t: seq<seq<T>>, b: nat)
    requires b < |t|
    ensures Before(t, b + 1) == Before(t, b) + |t[b]|
    ensures Flat(t[..b + 1]) == Flat(t[..b]) + t[b]
  {
    assert t[..b + 1][..b] == t[..b];
  }

  lemma {:induction false} FlatPrefix<T>(t: seq<seq<T>>, b: nat)
    requires b <= |t|
    ensures Flat(t[..b]) <= Flat(t)
    decreases |t| - b
  {
    if b == |t| {
      assert t[..b] == t;
    } else {
      BeforeNext(t, b);
      FlatPrefix(t, b + 1);
    }
  }

  /** Element `i` of chain `b` in the listing. */
  lemma FlatAt<T>(t: seq<seq<T>>, b: nat, i: nat)
    requires b < |t| && i < |t[b]|
    ensures Before(t, b) + i < |Flat(t)| && Flat(t)[Before(t, b) + i] == t[b][i]
  {
    BeforeNext(t, b);
    FlatPrefix(t, b + 1);
  }

  /** The listing of a table contains every session exactly once. */
  lemma {:induction false} ListingIsExact(t: Table, n: nat)
    requires n <= |t|
    requires forall b {:trigger t[b]} :: 0 <= b < |t| ==> Distinct(t[b])
    requires forall b, c, e {:trigger e in t[b], e in t[c]} :: 0 <= b < c < |t| && e in t[b] ==> e !in t[c]
    ensures Distinct(Flat(t[..n]))
    ensures forall e :: e in Flat(t[..n]) <==> exists b {:trigger t[b]} :: 0 <= b < n && e in t[b]
  {
    if n > 0 {
      ListingIsExact(t, n - 1);
      BeforeNext(t, n - 1);
      var a, z := Flat(t[..n - 1]), t[n - 1];
      forall i, j | 0 <= i < j < |a + z|
        ensures (a + z)[i] != (a + z)[j]
      {
        if i < |a| <= j {
          assert a[i] in a && z[j - |a|] in z;
        }
      }
      forall e
        ensures e in a + z <==> exists b {:trigger t[b]} :: 0 <= b < n && e in t[b]
      {
        assert e in a + z <==> e in a || e in z;
      }
    }
  }

  lemma WellHashedListing(t: Table, hash: nat -> nat, size: nat)
    requires WellHashed(t, hash, size)
    ensures Distinct(Flat(t)) && forall e :: e in Flat(t) <==> Has(t, e)
  {
    ListingIsExact(t, |t|);
    assert t[..|t|] == t;
  }

  /** l2tp_session_find_nth: count entries through the buckets. */
  method FindNth(t: Table, nth: nat) returns (r: Option<Entry>)
    ensures r == if nth < |Flat(t)| then Some(Flat(t)[nth]) else None
  {
    var count := 0;
    var b := 0;
    while b < |t|
      invariant 0 <= b <= |t|
      invariant count == Before(t, b) && count <= nth
    {
      var i := 0;
      while i < |t[b]|
        invariant 0 <= i <= |t[b]|
        invariant count == Before(t, b) + i && count <= nth
      {
        FlatAt(t, b, i);
        count := count + 1;
        if count > nth {
          return Some(t[b][i]);
        }
        i := i + 1;
      }
      BeforeNext(t, b);
      b := b + 1;
    }
    assert t[..|t|] == t;
    r := None;
  }

  /** A walk along one chain. */
  method FindInChain(chain: seq<Entry>, id: nat) returns (r: Option<Entry>)
    ensures r.Some? ==> r.value in chain && r.value.id == id
    ensures r.None? ==> forall e :: e in chain ==> e.id != id
  {
    var i := 0;
    while i < |chain|
      invariant 0 <= i <= |chain|
      invariant forall j :: 0 <= j < i ==> chain[j].id != id
    {
      if chain[i].id == id {
        return Some(chain[i]);
      }
      i := i + 1;
    }
    r := None;
  }

  // ---- the dump -------------------------------------------------------------------------------

  ghost function Listing(tunnels: seq<Tunnel>): (l: seq<seq<Entry>>)
    ensures |l| == |tunnels| && forall t :: 0 <= t < |l| ==> l[t] == Flat(tunnels[t].table)
  {
    seq(|tunnels|, t requires 0 <= t < |tunnels| => Flat(tunnels[t].table))
  }

  /** A dump cursor between two calls: tunnel and session number. */
  ghost predicate CursorOk(tunnels: seq<Tunnel>, ti: nat, si: nat) {
    if ti < |tunnels| then si <= |Listing(tunnels)[ti]| else ti == |tunnels| && si == 0
  }

  /** How much of the listing lies before the cursor. */
  ghost function Position(tunnels: seq<Tunnel>, ti: nat, si: nat): nat
    requires CursorOk(tunnels, ti, si)
  {
    Before(Listing(tunnels), ti) + si
  }

  ghost function Min(a: nat, b: nat): nat {
    if a < b then a else b
  }

  /** l2tp_nl_cmd_session_dump: append sessions from the cursor on until the message
      buffer, which has room for `budget` of them, is full, and save the cursor. */
  method SessionDump(tunnels: seq<Tunnel>, ti0: nat, si0: nat, budget: nat)
    returns (out: seq<Entry>, ti: nat, si: nat)
    requires CursorOk(tunnels, ti0, si0)
    ensures CursorOk(tunnels, ti, si)
    ensures var all := Flat(Listing(tunnels)); var from := Position(tunnels, ti0, si0);
      && from <= |all|
      && out == all[from..Min(from + budget, |all|)]
      && Position(tunnels, ti, si) == from + |out|
  {
    ghost var all := Flat(Listing(tunnels));
    ghost var from := Position(tunnels, ti0, si0);
    ghost var pos: nat := from;
    out, ti, si := [], ti0, si0;
    PositionInRange(tunnels, ti, si);
    while ti < |tunnels|
      invariant CursorAt(tunnels, ti, si, pos)
      invariant pos == from + |out| <= |all| && |out| <= budget && out == all[from..pos]
      decreases |tunnels| - ti, |all| - pos
    {
      var session := SessionAt(tunnels, ti, si, pos);
      if session.None? {
        ti, si := ti + 1, 0;
      } else {
        if |out| == budget {
          return;
        }
        SliceGrows(all, from, |out|);
        out := out + [session.value];
        si, pos := si + 1, pos + 1;
      }
    }
    AtEnd(tunnels, ti, si);
  }

  /** The cursor stands at position `pos` of the listing. */
  ghost predicate CursorAt(tunnels: seq<Tunnel>, ti: nat, si: nat, pos: nat) {
    CursorOk(tunnels, ti, si) && Position(tunnels, ti, si) == pos
  }

  lemma SliceGrows<T>(s: seq<T>, from: nat, n: nat)
    requires from + n < |s|
    ensures s[from..from + n] + [s[from + n]] == s[from..from + (n + 1)]
  {
  }

  /** The session at the cursor, or none if the tunnel has no more. */
  method SessionAt(tunnels: seq<Tunnel>, ti: nat, si: nat, ghost pos: nat) returns (session: Option<Entry>)
    requires CursorAt(tunnels, ti, si, pos) && ti < |tunnels|
    ensures session.None? ==> CursorAt(tunnels, ti + 1, 0, pos)
    ensures session.Some? ==> CursorAt(tunnels, ti, si + 1, pos + 1)
    ensures session.Some? ==> var all := Flat(Listing(tunnels)); pos < |all| && all[pos] == session.value
  {
    session := FindNth(tunnels[ti].table, si);
    if session.None? {
      NextTunnel(tunnels, ti, si);
    } else {
      NextSession(tunnels, ti, si);
    }
  }

  /** The cursor moves to the next tunnel. */
  lemma NextTunnel(tunnels: seq<Tunnel>, ti: nat, si: nat)
    requires ti < |tunnels| && si == |Flat(tunnels[ti].table)|
    ensures CursorOk(tunnels, ti, si) && CursorOk(tunnels, ti + 1, 0)
    ensures Position(tunnels, ti + 1, 0) == Position(tunnels, ti, si) <= |Flat(Listing(tunnels))|
  {
    BeforeNext(Listing(tunnels), ti);
    PositionInRange(tunnels, ti + 1, 0);
  }

  /** The cursor moves over one session. */
  lemma NextSession(tunnels: seq<Tunnel>, ti: nat, si: nat)
    requires ti < |tunnels| && si < |Flat(tunnels[ti].table)|
    ensures CursorOk(tunnels, ti, si) && CursorOk(tunnels, ti, si + 1)
    ensures Position(tunnels, ti, si + 1) == Position(tunnels, ti, si) + 1
    ensures var all := Flat(Listing(tunnels)); var p := Position(tunnels, ti, si);
      p < |all| && all[p] == Flat(tunnels[ti].table)[si]
  {
    FlatAt(Listing(tunnels), ti, si);
  }

  lemma AtEnd(tunnels: seq<Tunnel>, ti: nat, si: nat)
    requires ti >= |tunnels| && CursorOk(tunnels, ti, si)
    ensures Position(tunnels, ti, si) == |Flat(Listing(tunnels))|
  {
    assert Listing(tunnels)[..ti] == Listing(tunnels);
  }

  lemma PositionInRange(tunnels: seq<Tunnel>, ti: nat, si: nat)
    requires CursorOk(tunnels, ti, si)
    ensures Position(tunnels, ti, si) <= |Flat(Listing(tunnels))|
  {
    var lists := Listing(tunnels);
    if ti < |tunnels| {
      BeforeNext(lists, ti);
      FlatPrefix(lists, ti + 1);
    } else {
      assert lists[..ti] == lists;
    }
  }

  ghost function Sum(budgets: seq<nat>): nat {
    if budgets == [] then 0 else Sum(budgets[..|budgets| - 1]) + budgets[|budgets| - 1]
  }

  /** The dump as user space sees it: one call per message buffer, each resuming where
      the last one stopped. Cut at any points, it outputs the one-shot listing. */
  method WholeDump(tunnels: seq<Tunnel>, budgets: seq<nat>) returns (out: seq<Entry>)
    ensures var all := Flat(Listing(tunnels)); out == all[..Min(Sum(budgets), |all|)]
    ensures Sum(budgets) >= |Flat(Listing(tunnels))| ==> out == Flat(Listing(tunnels))
  {
    ghost var all := Flat(Listing(tunnels));
    out := [];
    var ti, si := 0, 0;
    assert Listing(tunnels)[..0] == [];
    var n := 0;
    while n < |budgets|
      invariant 0 <= n <= |budgets|
      invariant CursorOk(tunnels, ti, si)
      invariant Position(tunnels, ti, si) == |out| == Min(Sum(budgets[..n]), |all|)
      invariant out == all[..|out|]
    {
      assert budgets[..n + 1][..n] == budgets[..n];
      var piece, ti', si' := SessionDump(tunnels, ti, si, budgets[n]);
      assert all[..|out| + |piece|] == all[..|out|] + all[|out|..|out| + |piece|];
      out, ti, si := out + piece, ti', si';
      n := n + 1;
    }
    assert budgets[..n] == budgets;
  }

  // ---- the net: both indexes ------------------------------------------------------------------

  class Net {
    const hash: nat -> nat
    const hash2: nat -> nat
    var tunnels: seq<Tunnel>
    var global: Table

    /** The plain set of sessions that the two indexes represent. */
    ghost var sessions: set<Entry>

    ghost predicate InV3(e: Entry)
      reads this
    {
      e.tunnel < |tunnels| && tunnels[e.tunnel].version == V3
    }

    ghost predicate Valid()
      reads this
    {
      && (forall t {:trigger tunnels[t]} :: 0 <= t < |tunnels| ==> WellHashed(tunnels[t].table, hash, HASH_SIZE))
      && WellHashed(global, hash2, HASH_SIZE_2)
      && (forall t, e {:trigger Has(tunnels[t].table, e)} :: 0 <= t < |tunnels| ==>
            (Has(tunnels[t].table, e) <==> e in sessions && e.tunnel == t))
      && (forall e {:trigger Has(global, e)} :: Has(global, e) <==> e in sessions && InV3(e))
      && (forall e :: e in sessions ==> e.tunnel < |tunnels|)
      && (forall e, f :: e in sessions && f in sessions && e.tunnel == f.tunnel && e.id == f.id ==> e == f)
    }

    constructor (hash: nat -> nat, hash2: nat -> nat, versions: seq<Version>)
      ensures Valid() && sessions == {} && |tunnels| == |versions|
    {
      this.hash := hash;
      this.hash2 := hash2;
      tunnels := seq(|versions|, t requires 0 <= t < |versions| => Tunnel(versions[t], EmptyTable(HASH_SIZE)));
      global := EmptyTable(HASH_SIZE_2);
      sessions := {};
      new;
      forall t | 0 <= t < |tunnels|
        ensures WellHashed(tunnels[t].table, hash, HASH_SIZE) && forall e :: !Has(tunnels[t].table, e)
      {
        assert tunnels[t].table == EmptyTable(HASH_SIZE);
      }
    }

    /** l2tp_session_find in a tunnel: both directions. */
    method SessionFind(t: nat, id: nat) returns (r: Option<Entry>)
      requires Valid() && t < |tunnels|
      ensures r.Some? ==> r.value in sessions && r.value.tunnel == t && r.value.id == id
      ensures r.None? ==> forall e :: e in sessions && e.tunnel == t ==> e.id != id
    {
      var table := tunnels[t].table;
      var b := BucketOf(hash, id, HASH_SIZE);
      r := FindInChain(table[b], id);
      if r.Some? {
        assert Has(table, r.value);
      } else {
        forall e | e in sessions && e.tunnel == t
          ensures e.id != id
        {
          assert Has(table, e);
          var c :| 0 <= c < |table| && e in table[c];
        }
      }
    }

    /** l2tp_session_find_2: a session of any L2TPv3 tunnel. */
    method SessionFind2(id: nat) returns (r: Option<Entry>)
      requires Valid()
      ensures r.Some? ==> r.value in sessions && InV3(r.value) && r.value.id == id
      ensures r.None? ==> forall e :: e in sessions && InV3(e) ==> e.id != id
      ensures forall e :: (e in sessions && InV3(e) && e.id == id
                           && forall f :: f in sessions && InV3(f) && f.id == id ==> f == e) ==> r == Some(e)
    {
      var b := BucketOf(hash2, id, HASH_SIZE_2);
      r := FindInChain(global[b], id);
      if r.Some? {
        assert Has(global, r.value);
      } else {
        forall e | e in sessions && InV3(e)
          ensures e.id != id
        {
          assert Has(global, e);
          var c :| 0 <= c < |global| && e in global[c];
        }
      }
    }

    /** Session creation as its callers use it: refused if the tunnel has the id. */
    method SessionCreate(t: nat, id: nat, handle: nat) returns (ok: bool)
      requires Valid() && t < |tunnels| && forall e :: e in sessions ==> e.handle != handle
      modifies this
      ensures Valid() && |tunnels| == |old(tunnels)|
      ensures ok <==> forall e :: e in old(sessions) && e.tunnel == t ==> e.id != id
      ensures sessions == if ok then old(sessions) + {Entry(handle, id, t)} else old(sessions)
      ensures forall k :: 0 <= k < |tunnels| ==> tunnels[k].version == old(tunnels[k].version)
    {
      var found := SessionFind(t, id);
      if found.Some? {
        return false;
      }
      var e := Entry(handle, id, t);
      var tunnel := tunnels[t];
      assert !Has(tunnel.table, e) && !Has(global, e);
      AddHeadKeeps(tunnel.table, hash, HASH_SIZE, e);
      AddHeadKeeps(global, hash2, HASH_SIZE_2, e);
      tunnels := tunnels[t := tunnel.(table := AddHead(tunnel.table, BucketOf(hash, id, HASH_SIZE), e))];
      if tunnel.version != V2 {
        global := AddHead(global, BucketOf(hash2, id, HASH_SIZE_2), e);
      }
      sessions := sessions + {e};
      ok := true;
    }

    /** __l2tp_session_unhash: out of both indexes; a second call does nothing. */
    method SessionUnhash(e: Entry)
      requires Valid() && e.tunnel < |tunnels|
      modifies this
      ensures Valid() && sessions == old(sessions) - {e} && |tunnels| == |old(tunnels)|
      ensures tunnels == old(tunnels)[e.tunnel := old(tunnels)[e.tunnel].(table :=
                Delete(old(tunnels)[e.tunnel].table, BucketOf(hash, e.id, HASH_SIZE), e))]
    {
      var tunnel := tunnels[e.tunnel];
      DeleteKeeps(tunnel.table, hash, HASH_SIZE, e);
      DeleteKeeps(global, hash2, HASH_SIZE_2, e);
      tunnels := tunnels[e.tunnel := tunnel.(table := Delete(tunnel.table, BucketOf(hash, e.id, HASH_SIZE), e))];
      if tunnel.version != V2 {
        global := Delete(global, BucketOf(hash2, e.id, HASH_SIZE_2), e);
      }
      sessions := sessions - {e};
    }

    /** One bucket of l2tp_tunnel_closeall: take the head of the chain until the chain is
        empty. */
    method CloseBucket(t: nat, b: nat) returns (closed: seq<Entry>)
      requires Valid() && t < |tunnels| && b < HASH_SIZE
      modifies this
      ensures Valid() && |tunnels| == |old(tunnels)|
      ensures closed == old(tunnels[t].table[b]) && tunnels[t].table == old(tunnels[t].table)[b := []]
      ensures forall k :: 0 <= k < |tunnels| && k != t ==> tunnels[k] == old(tunnels)[k]
      ensures sessions <= old(sessions) && forall e :: e in old(sessions) && e.tunnel != t ==> e in sessions
    {
      ghost var table := tunnels[t].table;
      closed := [];
      while tunnels[t].table[b] != []
        invariant Valid() && |tunnels| == |old(tunnels)| && |closed| <= |table[b]|
        invariant closed == table[b][..|closed|] && tunnels[t].table == table[b := table[b][|closed|..]]
        invariant forall k :: 0 <= k < |tunnels| && k != t ==> tunnels[k] == old(tunnels)[k]
        invariant sessions <= old(sessions) && forall e :: e in old(sessions) && e.tunnel != t ==> e in sessions
        decreases |tunnels[t].table[b]|
      {
        var e := tunnels[t].table[b][0];
        assert Has(tunnels[t].table, e);
        WithoutDistinct(tunnels[t].table[b], e);
        SessionUnhash(e);
        closed := closed + [e];
      }
    }

    /** l2tp_tunnel_closeall: every session of the tunnel is closed once, in listing
        order, and the other tunnels are left alone. */
    method CloseAll(t: nat) returns (closed: seq<Entry>)
      requires Valid() && t < |tunnels|
      modifies this
      ensures Valid() && |tunnels| == |old(tunnels)|
      ensures closed == old(Flat(tunnels[t].table))
      ensures sessions == old(sessions) - (set e | e in old(sessions) && e.tunnel == t)
      ensures forall b :: 0 <= b < HASH_SIZE ==> tunnels[t].table[b] == []
      ensures forall k :: 0 <= k < |tunnels| && k != t ==> tunnels[k] == old(tunnels)[k]
    {
      ghost var table := tunnels[t].table;
      closed := [];
      var b := 0;
      while b < HASH_SIZE
        invariant 0 <= b <= HASH_SIZE && Valid() && |tunnels| == |old(tunnels)|
        invariant closed == Flat(table[..b])
        invariant forall c :: 0 <= c < HASH_SIZE ==> tunnels[t].table[c] == if c < b then [] else table[c]
        invariant forall k :: 0 <= k < |tunnels| && k != t ==> tunnels[k] == old(tunnels)[k]
        invariant sessions <= old(sessions) && forall e :: e in old(sessions) && e.tunnel != t ==> e in sessions
      {
        var chain := CloseBucket(t, b);
        closed := closed + chain;
        BeforeNext(table, b);
        b := b + 1;
      }
      assert table[..HASH_SIZE] == table;
      forall e | e in sessions
        ensures e.tunnel != t
      {
        assert e.tunnel == t ==> Has(tunnels[t].table, e);
      }
    }
  }
}
