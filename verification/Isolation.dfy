/** What the memory behind a received frame can do to a session. The parser reads before
    it checks lengths, so that bytes behind the frame can decide statistics, the sending
    of sequence numbers, or the next expected number: exactly when. */
module Isolation {
  import opened Common
  import opened Bytes
  import opened SequenceSpace
  import opened Receive
  import opened Header
  import opened RoundTrip
  import opened SessionState
  import opened Resync

  /** The session without the history that the model keeps. */
  ghost function Visible(s: Sess): Sess {
    s.(rx := s.rx.(log := []))
  }

  ghost predicate SameOutcome(s: Sess, path: Encap, skb: Skb, beyond: nat -> Byte, other: nat -> Byte, now: nat)
    requires SessOk(s)
  {
    Visible(Datagram(s, path, skb, beyond, now)) == Visible(Datagram(s, path, skb, other, now))
  }

  /** Whatever datagram arrives on the path, in whatever state, the session becomes the
      same for all contents of the memory behind it. */
  ghost predicate Isolated(c: Config, path: Encap) {
    forall s: Sess, skb: Skb, beyond: nat -> Byte, other: nat -> Byte, now: nat ::
      SessOk(s) && s.cfg == c ==> SameOutcome(s, path, skb, beyond, other, now)
  }

  /** The shortest datagram that the first stage lets through holds the cookie and the
      byte that tells whether there is a number, and the rest of the sublayer word ends
      inside every accepted frame. In UDP that datagram has two bytes behind the session
      id, in IP none. L2TPv2 has its fields in the first ten bytes. */
  predicate Sealed(c: Config, path: Encap) {
    || c.version == V2
    || (path == Udp && |c.peerCookie| <= 2 && (c.l2specDefault ==> |c.peerCookie| <= 1 && WordInside(c)))
    || (path == Ip && c.peerCookie == [] && !c.l2specDefault)
  }

  // ---- sealed sessions -----------------------------------------------------------------------

  /** Equal readings, or two frames refused for their length with the same finding about
      sequence numbers. */
  ghost predicate Similar(p: Stage2, q: Stage2) {
    p == q || (p.Found? && q.Found? && p.hasSeq == q.hasSeq && p.payload.NoPayload? && q.payload.NoPayload?)
  }

  lemma SimilarOutcome(s: Sess, skb: Skb, ptr: nat, flags: nat, beyond: nat -> Byte, other: nat -> Byte, now: nat)
    requires SessOk(s)
    requires Similar(ParseStage2(s.cfg, skb.data, ptr, flags, beyond), ParseStage2(s.cfg, skb.data, ptr, flags, other))
    ensures Visible(RecvCommon(s, skb, ptr, flags, beyond, now)) == Visible(RecvCommon(s, skb, ptr, flags, other, now))
  {
  }

  lemma V2Similar(c: Config, data: seq<Byte>, ptr: nat, flags: nat, beyond: nat -> Byte, other: nat -> Byte)
    requires c.version == V2 && c.peerCookie == [] && ptr <= 8 && |data| >= HDR_SIZE_SEQ
    ensures Similar(ParseStage2(c, data, ptr, flags, beyond), ParseStage2(c, data, ptr, flags, other))
  {
    var next := ParseSeq(c, data, ptr, flags, beyond).next;
    assert ParseSeq(c, data, ptr, flags, other) == ParseSeq(c, data, ptr, flags, beyond);
    if next + 2 <= |data| {
      assert PayloadAt(c, data, next, flags, other) == PayloadAt(c, data, next, flags, beyond);
    }
  }

  /** Cookie and flag byte lie inside the frame. */
  lemma V3Similar(c: Config, data: seq<Byte>, ptr: nat, flags: nat, beyond: nat -> Byte, other: nat -> Byte)
    requires c.version == V3 && WordInside(c) && ptr + |c.peerCookie| <= |data|
    requires c.l2specDefault ==> ptr + |c.peerCookie| < |data|
    ensures Similar(ParseStage2(c, data, ptr, flags, beyond), ParseStage2(c, data, ptr, flags, other))
  {
    var p, q := ParseStage2(c, data, ptr, flags, beyond), ParseStage2(c, data, ptr, flags, other);
    if p.Found? {
      CookieInside(c, data, ptr, beyond, other);
      if c.l2specDefault {
        V3Reading(c, data, ptr, flags, beyond);
        V3Reading(c, data, ptr, flags, other);
      }
      if p.payload.Payload? {
        AcceptedStandsAlone(c, data, ptr, flags, beyond, other);
      }
    } else if q.Found? {
      CookieInside(c, data, ptr, other, beyond);
    }
  }

  lemma SealedIsIsolated(s: Sess, path: Encap, skb: Skb, beyond: nat -> Byte, other: nat -> Byte, now: nat)
    requires SessOk(s) && ValidConfig(s.cfg) && Sealed(s.cfg, path)
    ensures SameOutcome(s, path, skb, beyond, other, now)
  {
    if Finds(s.cfg, path, skb.data) {
      var one := Stage1On(path, s.cfg.version, skb.data);
      if s.cfg.version == V2 {
        V2Similar(s.cfg, skb.data, one.ptr, one.flags, beyond, other);
      } else {
        V3Similar(s.cfg, skb.data, one.ptr, one.flags, beyond, other);
      }
      SimilarOutcome(s, skb, one.ptr, one.flags, beyond, other, now);
    }
  }

  // ---- the others ---------------------------------------------------------------------------------

  /** A session that does not send numbers and may be told to. */
  ghost function Lac(c: Config): (s: Sess)
    ensures SessOk(s) && s.cfg == c
  {
    Create(c, false, false, false, 0)
  }

  /** One datagram with two outcomes. */
  lemma TwoOutcomes(c: Config, path: Encap, skb: Skb, beyond: nat -> Byte, other: nat -> Byte)
    requires Finds(c, path, skb.data)
    requires var one := Stage1On(path, c.version, skb.data);
      Visible(RecvCommon(Lac(c), skb, one.ptr, one.flags, beyond, 0)) != Visible(RecvCommon(Lac(c), skb, one.ptr, one.flags, other, 0))
    ensures !Isolated(c, path)
  {
    assert !SameOutcome(Lac(c), path, skb, beyond, other, 0);
  }

  /** The session as the path sees it, with the first `n` bytes of its cookie. */
  function Seen(c: Config, path: Encap, n: nat): Config
    requires n <= |c.peerCookie|
  {
    c.(encap := path, peerCookie := c.peerCookie[..n])
  }

  /** A datagram that ends behind `n` bytes of the cookie and is found. */
  lemma CutFrame(c: Config, path: Encap, n: nat) returns (data: seq<Byte>)
    requires ValidConfig(c) && c.version == V3 && (path == Ip ==> c.sessionId != 0) && n <= |c.peerCookie|
    requires path == Udp ==> c.encap == Udp && n >= 2
    ensures Finds(c, path, data) && HoldsCookie(c, data, Stage1On(path, V3, data).ptr, n)
  {
    var v := Seen(c, path, n);
    data := Stub(v, 0);
    StubReads(v, 0, Behind(0, 0));
    forall i | 0 <= i < n
      ensures data[CookieAt(v) + i] == c.peerCookie[i]
    {
      assert Peek(data, CookieAt(v) + i, Behind(0, 0)) == v.peerCookie[i];
    }
  }

  /** The data from `at` on is the beginning of the cookie. */
  ghost predicate HoldsCookie(c: Config, data: seq<Byte>, at: nat, n: nat) {
    && n <= |c.peerCookie| && |data| == at + n
    && forall i {:trigger c.peerCookie[i]} :: 0 <= i < n ==> data[at + i] == c.peerCookie[i]
  }

  /** Memory that continues the frame with the rest of the cookie, up to a last byte. */
  function CookieBehind(cookie: seq<Byte>, at: nat, last: Byte): nat -> Byte {
    i => if at <= i < at + |cookie| - 1 then cookie[i - at] else last
  }

  function Different(b: Byte): Byte {
    if b == 0 then 1 else 0
  }

  lemma CookieDecided(c: Config, data: seq<Byte>, at: nat, n: nat)
    requires n < |c.peerCookie| && HoldsCookie(c, data, at, n)
    ensures var last := c.peerCookie[|c.peerCookie| - 1];
      && CookieMatches(c, data, at, CookieBehind(c.peerCookie, at, last))
      && !CookieMatches(c, data, at, CookieBehind(c.peerCookie, at, Different(last)))
  {
    var m := |c.peerCookie| - 1;
    var last := c.peerCookie[m];
    forall i | 0 <= i < |c.peerCookie|
      ensures Peek(data, at + i, CookieBehind(c.peerCookie, at, last)) == c.peerCookie[i]
    {
    }
    assert Peek(data, at + m, CookieBehind(c.peerCookie, at, Different(last))) != c.peerCookie[m];
  }

  /** A frame that ends inside the cookie: the memory behind it decides whether a cookie
      mismatch is counted. */
  lemma CookieLeaks(c: Config, path: Encap)
    requires ValidConfig(c) && c.version == V3 && (path == Ip ==> c.sessionId != 0)
    requires if path == Udp then c.encap == Udp && |c.peerCookie| >= 3 else |c.peerCookie| >= 1
    ensures !Isolated(c, path)
  {
    var n := if path == Udp then 2 else 0;
    var data := CutFrame(c, path, n);
    var one, last := Stage1On(path, V3, data), c.peerCookie[|c.peerCookie| - 1];
    CookieDecided(c, data, one.ptr, n);
    CookieLeaksFrom(c, path, Skb(0, data, 0), CookieBehind(c.peerCookie, one.ptr, last),
                    CookieBehind(c.peerCookie, one.ptr, Different(last)));
  }

  lemma CookieLeaksFrom(c: Config, path: Encap, skb: Skb, good: nat -> Byte, bad: nat -> Byte)
    requires c.version == V3 && Finds(c, path, skb.data)
    requires var at := Stage1On(path, V3, skb.data).ptr;
      && |skb.data| < at + |c.peerCookie| && CookieMatches(c, skb.data, at, good) && !CookieMatches(c, skb.data, at, bad)
    ensures !Isolated(c, path)
  {
    var one := Stage1On(path, V3, skb.data);
    CookieCounted(c, skb, one.ptr, one.flags, good, bad);
    TwoOutcomes(c, path, skb, good, bad);
  }

  lemma CookieCounted(c: Config, skb: Skb, ptr: nat, flags: nat, good: nat -> Byte, bad: nat -> Byte)
    requires c.version == V3 && |skb.data| < ptr + |c.peerCookie|
    requires CookieMatches(c, skb.data, ptr, good) && !CookieMatches(c, skb.data, ptr, bad)
    ensures RecvCommon(Lac(c), skb, ptr, flags, good, 0).rx.cookieDiscards == 0
    ensures RecvCommon(Lac(c), skb, ptr, flags, bad, 0).rx.cookieDiscards == 1
  {
  }

  /** A frame that ends before the sublayer: the memory behind it decides whether the
      session sends sequence numbers from now on. */
  lemma WordLeaks(c: Config, path: Encap)
    requires ValidConfig(c) && c.version == V3 && (path == Ip ==> c.sessionId != 0) && c.l2specDefault
    requires if path == Udp then c.encap == Udp && |c.peerCookie| == 2 else c.peerCookie == []
    ensures !Isolated(c, path)
  {
    var data := CutFrame(c, path, |c.peerCookie|);
    var one := Stage1On(path, V3, data);
    var p := |data|;
    var on, off := Behind(p, 0), Behind(p + 1, 0);
    FlagDecided(data, on, off);
    NumbersSwitched(c, Skb(0, data, 0), one.ptr, one.flags, on);
    NumbersSwitched(c, Skb(0, data, 0), one.ptr, one.flags, off);
    TwoOutcomes(c, path, Skb(0, data, 0), on, off);
  }

  lemma FlagDecided(data: seq<Byte>, on: nat -> Byte, off: nat -> Byte)
    requires on == Behind(|data|, 0) && off == Behind(|data| + 1, 0)
    ensures Bit(PeekU32(data, |data|, on), SL_FLAG_S) && !Bit(PeekU32(data, |data|, off), SL_FLAG_S)
  {
    assert PeekU32(data, |data|, on) == 0x4000_0000;
    assert PeekU32(data, |data|, off) == 0x40_0000;
  }

  lemma HeldCookieMatches(c: Config, data: seq<Byte>, at: nat, beyond: nat -> Byte)
    requires HoldsCookie(c, data, at, |c.peerCookie|)
    ensures CookieMatches(c, data, at, beyond)
  {
  }

  /** What the second stage finds, as far as sequence numbers go. */
  lemma FlagFound(c: Config, data: seq<Byte>, ptr: nat, flags: nat, beyond: nat -> Byte)
    requires c.version == V3 && c.l2specDefault && CookieMatches(c, data, ptr, beyond)
    ensures var p := ParseStage2(c, data, ptr, flags, beyond);
      p.Found? && p.hasSeq == Bit(PeekU32(data, ptr + |c.peerCookie|, beyond), SL_FLAG_S)
  {
  }

  lemma NumbersSwitched(c: Config, skb: Skb, ptr: nat, flags: nat, beyond: nat -> Byte)
    requires c.version == V3 && c.l2specDefault && HoldsCookie(c, skb.data, ptr, |c.peerCookie|)
    ensures RecvCommon(Lac(c), skb, ptr, flags, beyond, 0).sendSeq == Bit(PeekU32(skb.data, |skb.data|, beyond), SL_FLAG_S)
  {
    HeldCookieMatches(c, skb.data, ptr, beyond);
    FlagFound(c, skb.data, ptr, flags, beyond);
    var p := ParseStage2(c, skb.data, ptr, flags, beyond);
    SendSeqFollows(c, skb, ptr, flags, beyond, p);
  }

  lemma SendSeqFollows(c: Config, skb: Skb, ptr: nat, flags: nat, beyond: nat -> Byte, p: Stage2)
    requires p == ParseStage2(c, skb.data, ptr, flags, beyond) && p.Found?
    ensures RecvCommon(Lac(c), skb, ptr, flags, beyond, 0).sendSeq == p.hasSeq
  {
  }

  /** An accepted frame that ends inside the sublayer word: the memory behind it decides
      which number is expected next. */
  lemma NumberLeaks(c: Config)
    requires ValidConfig(c) && c.version == V3 && c.encap == Udp && !WordInside(c)
    ensures !Isolated(c, Udp)
  {
    var data, beyond, other := ReadsTwoNumbers(c);
    NumberLeaksFrom(c, Skb(0, data, 0), beyond, other);
  }

  lemma NumberLeaksFrom(c: Config, skb: Skb, beyond: nat -> Byte, other: nat -> Byte)
    requires c.version == V3 && c.encap == Udp && TwoNumbers(c, skb.data, beyond, other)
    ensures !Isolated(c, Udp)
  {
    var one := Stage1Of(c, skb.data);
    NumberTaken(c, skb, one.ptr, one.flags, beyond);
    NumberTaken(c, skb, one.ptr, one.flags, other);
    TwoOutcomes(c, Udp, skb, beyond, other);
  }

  lemma NumberTaken(c: Config, skb: Skb, ptr: nat, flags: nat, beyond: nat -> Byte)
    requires c.version == V3
    requires var r := ParseStage2(c, skb.data, ptr, flags, beyond); r.Found? && r.hasSeq && r.payload.Payload? && r.ns <= 0x41_0000
    ensures RecvCommon(Lac(c), skb, ptr, flags, beyond, 0).rx.nr == ParseStage2(c, skb.data, ptr, flags, beyond).ns + 1
  {
    var r := ParseStage2(c, skb.data, ptr, flags, beyond);
    FirstFrameTakenIff(NR_MAX_V3, 0, Frame(skb.id, r.payload.bytes, true, r.ns, 0), 0);
  }

  /** Exactly when nothing behind a datagram has a say in what becomes of the session. */
  lemma IsolatedIff(c: Config, path: Encap)
    requires ValidConfig(c) && (if path == Udp then c.encap == Udp else c.version == V3 && c.sessionId != 0)
    ensures Isolated(c, path) <==> Sealed(c, path)
  {
    if Sealed(c, path) {
      forall s: Sess, skb: Skb, beyond: nat -> Byte, other: nat -> Byte, now: nat | SessOk(s) && s.cfg == c
        ensures SameOutcome(s, path, skb, beyond, other, now)
      {
        SealedIsIsolated(s, path, skb, beyond, other, now);
      }
    } else if |c.peerCookie| >= (if path == Udp then 3 else 1) {
      CookieLeaks(c, path);
    } else if path == Ip || |c.peerCookie| == 2 {
      WordLeaks(c, path);
    } else {
      NumberLeaks(c);
    }
  }
}
