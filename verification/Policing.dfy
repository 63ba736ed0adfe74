/** The token-bucket policer: 32-bit token counter, 64-bit clock in nanoseconds, a
    signed 64-bit division, and the rate that it enforces over every run. */
module Policing {

  const U32: nat := 0x1_0000_0000
  const U64: nat := 0x1_0000_0000_0000_0000
  const S64_MAX: nat := 0x7fff_ffff_ffff_ffff
  const NSEC_PER_SEC: nat := 1_000_000_000

  /** tokens_in, rate_in (bits per second), burst_in and last_seen_in. */
  datatype Bucket = Bucket(tokens: nat, rate: nat, burst: nat, lastSeen: nat)

  predicate InRange(b: Bucket) {
    b.tokens < U32 && b.rate < U32 && b.burst < U32 && b.lastSeen < U64
  }

  /** div_s64 by NSEC_PER_SEC on the bits of a u64, rounding toward zero, with the
      result stored in a u64 again. */
  function DivS64(x: nat): (q: nat)
    requires x < U64
    ensures q < U64
  {
    if x <= S64_MAX then x / NSEC_PER_SEC
    else (U64 - (U64 - x) / NSEC_PER_SEC) % U64
  }

  /** The product of rate and elapsed time, and as the code forms it. */
  function Elapsed(b: Bucket, now: nat): nat
    requires b.lastSeen <= now
  {
    b.rate * (now - b.lastSeen)
  }

  function Product(b: Bucket, now: nat): (x: nat)
    requires b.lastSeen <= now
    ensures x < U64
  {
    Elapsed(b, now) % U64
  }

  /** The new token count from the old one and the product. */
  function Refill(tokens: nat, burst: nat, x: nat): nat
    requires x < U64
  {
    var sum := tokens + DivS64(x);
    if sum % U64 > burst then burst else sum % U32
  }

  /** update_tokens. */
  function Update(b: Bucket, now: nat): Bucket
    requires InRange(b) && b.lastSeen <= now < U64
  {
    b.(tokens := Refill(b.tokens, b.burst, Product(b, now)), lastSeen := now)
  }

  /** The refill without modular arithmetic: a wrapped product that reads as negative
      takes tokens away, or fills the bucket if it takes more than there are. */
  lemma RefillCases(tokens: nat, burst: nat, x: nat)
    requires tokens < U32 && burst < U32 && x < U64
    ensures x <= S64_MAX ==>
      var t := tokens + x / NSEC_PER_SEC; Refill(tokens, burst, x) == if t > burst then burst else t
    ensures x > S64_MAX ==>
      var t := tokens - (U64 - x) / NSEC_PER_SEC; Refill(tokens, burst, x) == if t < 0 || t > burst then burst else t
  {
    if x <= S64_MAX {
      var t := tokens + x / NSEC_PER_SEC;
      assert t < U64;
      ModSmall(t);
    } else {
      var n := (U64 - x) / NSEC_PER_SEC;
      assert n < U64 - U32;
      if n == 0 {
        assert DivS64(x) == 0;
        ModSmall(tokens);
      } else {
        ModSmall(U64 - n);
        assert DivS64(x) == U64 - n;
        if n <= tokens {
          ModWrap(tokens - n);
        } else {
          ModSmall(U64 + tokens - n);
        }
      }
    }
  }

  lemma ModSmall(v: nat)
    requires v < U64
    ensures v % U64 == v && (v < U32 ==> v % U32 == v)
  {
  }

  lemma ModWrap(v: nat)
    requires v < U32
    ensures (U64 + v) % U64 == v && (U64 + v) % U32 == v
  {
  }

  /** Bits that the configured rate grants for the time between two instants. */
  function Credit(rate: nat, from: nat, to: nat): nat
    requires from <= to
  {
    rate * (to - from) / NSEC_PER_SEC
  }

  /** The refill that a bucket without width limits would make. */
  function Ideal(b: Bucket, now: nat): nat
    requires b.lastSeen <= now
  {
    Filled(b.tokens, b.burst, Elapsed(b, now))
  }

  /** The refill by an unbounded product. */
  function Filled(tokens: nat, burst: nat, p: nat): nat {
    if tokens + p / NSEC_PER_SEC > burst then burst else tokens + p / NSEC_PER_SEC
  }

  /** The wrapped product credits as much as the true one. */
  predicate WrapHarmless(tokens: nat, burst: nat, x: nat)
    requires x < U64
  {
    || (x <= S64_MAX && tokens + x / NSEC_PER_SEC >= burst)
    || (x > S64_MAX && ((U64 - x) / NSEC_PER_SEC > tokens || tokens - (U64 - x) / NSEC_PER_SEC >= burst))
  }

  lemma RefillExactIff(tokens: nat, burst: nat, p: nat)
    requires tokens < U32 && burst < U32
    ensures Refill(tokens, burst, p % U64) <= Filled(tokens, burst, p)
    ensures Refill(tokens, burst, p % U64) == Filled(tokens, burst, p)
       <==> p <= S64_MAX || WrapHarmless(tokens, burst, p % U64)
  {
    RefillCases(tokens, burst, p % U64);
    if p <= S64_MAX {
      ModSmall(p);
    } else {
      assert p / NSEC_PER_SEC >= U32;
    }
  }

  /** The code's refill equals the ideal one if and only if the product did not leave
      the signed 64-bit range, or the wrapped value fills the bucket anyway. */
  lemma UpdateExactIff(b: Bucket, now: nat)
    requires InRange(b) && b.lastSeen <= now < U64
    ensures Update(b, now).tokens == Ideal(b, now)
       <==> b.rate * (now - b.lastSeen) <= S64_MAX || WrapHarmless(b.tokens, b.burst, Product(b, now))
  {
    RefillExactIff(b.tokens, b.burst, Elapsed(b, now));
  }

  /** An idle gap of 369 seconds at the module's default settings credits nothing,
      although it should fill the bucket, so that even a packet of 20 bytes is dropped. */
  lemma IdleGapLosesCredit()
    ensures var b := Bucket(0, 50_000_000, 4_166_666, 0);
      && Update(b, 368_934_881_475).tokens == 0 && Ideal(b, 368_934_881_475) == 4_166_666
      && !Accepts(b, Packet(20, 368_934_881_475))
  {
    assert 50_000_000 * 368_934_881_475 % U64 == 40_448_384;
  }

  /** The refill never exceeds the burst, nor what the rate grants: a product that
      overflows stands for a gap that fills every bucket. */
  lemma UpdateAtMostIdeal(b: Bucket, now: nat)
    requires InRange(b) && b.lastSeen <= now < U64
    ensures Update(b, now).tokens <= Ideal(b, now) <= b.burst
    ensures InRange(Update(b, now))
  {
    RefillExactIff(b.tokens, b.burst, Elapsed(b, now));
  }

  // ---- packets ---------------------------------------------------------------------

  /** A packet as the hook sees it: its total length in bytes, a 16-bit header field,
      and the time of the call. */
  datatype Packet = Packet(len: nat, now: nat)

  function Bits(len: nat): nat {
    len * 8 % U32
  }

  predicate Accepts(b: Bucket, p: Packet)
    requires InRange(b) && b.lastSeen <= p.now < U64
  {
    Bits(p.len) <= Update(b, p.now).tokens || b.rate == 0
  }

  /** checking_sess: refill, then take the packet's bits or drop it. */
  function Check(b: Bucket, p: Packet): Bucket
    requires InRange(b) && b.lastSeen <= p.now < U64
  {
    var u := Update(b, p.now);
    if Accepts(b, p) then u.(tokens := (u.tokens - Bits(p.len)) % U32) else u
  }

  /** With a rate configured the subtraction does not borrow, and what is taken is
      covered by what was there and what the time granted. */
  lemma CheckSpends(b: Bucket, p: Packet)
    requires InRange(b) && b.rate > 0 && b.lastSeen <= p.now < U64 && p.len < 0x1_0000
    ensures var c := Check(b, p); var bits := if Accepts(b, p) then 8 * p.len else 0;
      && InRange(c) && c.rate == b.rate && c.burst == b.burst && c.lastSeen == p.now
      && c.tokens + bits == Update(b, p.now).tokens
      && c.tokens + bits <= b.burst
      && c.tokens + bits <= b.tokens + Credit(b.rate, b.lastSeen, p.now)
  {
    UpdateAtMostIdeal(b, p.now);
    var u := Update(b, p.now).tokens;
    Spend(u, p.len);
  }

  /** As long as the product stays in the signed 64-bit range, a packet is accepted if
      and only if it fits the tokens that were there and those that the time granted,
      up to the burst. */
  lemma AcceptsIff(b: Bucket, p: Packet)
    requires InRange(b) && b.rate > 0 && b.lastSeen <= p.now < U64 && p.len < 0x1_0000
    requires b.rate * (p.now - b.lastSeen) <= S64_MAX
    ensures Accepts(b, p) <==> 8 * p.len <= Min(b.burst, b.tokens + Credit(b.rate, b.lastSeen, p.now))
    ensures Update(b, p.now).tokens == Min(b.burst, b.tokens + Credit(b.rate, b.lastSeen, p.now))
  {
    UpdateExactIff(b, p.now);
    Spend(Update(b, p.now).tokens, p.len);
  }

  function Min(a: nat, b: nat): nat {
    if a < b then a else b
  }

  lemma Spend(tokens: nat, len: nat)
    requires tokens < U32 && len < 0x1_0000
    ensures Bits(len) == 8 * len
    ensures 8 * len <= tokens ==> (tokens - Bits(len)) % U32 == tokens - 8 * len
  {
    ModSmall(8 * len);
    if 8 * len <= tokens {
      ModSmall(tokens - 8 * len);
    }
  }

  ghost predicate Monotone(packets: seq<Packet>, from: nat) {
    && (forall i :: 0 <= i < |packets| ==> from <= packets[i].now < U64 && packets[i].len < 0x1_0000)
    && (forall i, j :: 0 <= i < j < |packets| ==> packets[i].now <= packets[j].now)
  }

  /** The bucket after the first `n` packets. */
  ghost function After(b: Bucket, packets: seq<Packet>, n: nat): (c: Bucket)
    requires InRange(b) && b.rate > 0 && Monotone(packets, b.lastSeen) && n <= |packets|
    ensures InRange(c) && c.rate == b.rate && c.burst == b.burst
    ensures c.lastSeen == if n == 0 then b.lastSeen else packets[n - 1].now
  {
    if n == 0 then b
    else
      var c := After(b, packets, n - 1);
      CheckSpends(c, packets[n - 1]);
      Check(c, packets[n - 1])
  }

  /** Bits of the packets `i` to `j`, both included, that were accepted. */
  ghost function AcceptedBits(b: Bucket, packets: seq<Packet>, i: nat, j: nat): nat
    requires InRange(b) && b.rate > 0 && Monotone(packets, b.lastSeen) && i <= j < |packets|
    decreases j
  {
    (if i < j then AcceptedBits(b, packets, i, j - 1) else 0)
    + (if Accepts(After(b, packets, j), packets[j]) then 8 * packets[j].len else 0)
  }

  lemma CreditsAdd(rate: nat, a: nat, b: nat, c: nat)
    requires a <= b <= c
    ensures Credit(rate, a, b) + Credit(rate, b, c) <= Credit(rate, a, c)
  {
    var x, y := rate * (b - a), rate * (c - b);
    assert x + y == rate * (c - a);
    FloorsAdd(x, y);
  }

  lemma FloorsAdd(x: nat, y: nat)
    ensures x / NSEC_PER_SEC + y / NSEC_PER_SEC <= (x + y) / NSEC_PER_SEC
  {
  }

  /** What is left in the bucket and what was let through since call `i` together
      stay within the burst and the credit of the time since then. */
  lemma {:induction false} SpentPlusLeft(b: Bucket, packets: seq<Packet>, i: nat, j: nat)
    requires InRange(b) && b.rate > 0 && Monotone(packets, b.lastSeen) && i <= j < |packets|
    ensures After(b, packets, j + 1).tokens + AcceptedBits(b, packets, i, j)
         <= b.burst + Credit(b.rate, packets[i].now, packets[j].now)
    decreases j
  {
    CheckSpends(After(b, packets, j), packets[j]);
    if i < j {
      SpentPlusLeft(b, packets, i, j - 1);
      CreditsAdd(b.rate, packets[i].now, packets[j - 1].now, packets[j].now);
    }
  }

  /** The rate bound, over every run on a monotone clock and whatever the gaps: the
      bits accepted by any consecutive calls i..j are at most the burst plus the
      bits that the rate grants between them, and the bucket never holds more than
      the burst. */
  lemma RateBound(b: Bucket, packets: seq<Packet>, i: nat, j: nat)
    requires InRange(b) && b.rate > 0 && Monotone(packets, b.lastSeen) && i <= j < |packets|
    ensures AcceptedBits(b, packets, i, j) <= b.burst + b.rate * (packets[j].now - packets[i].now) / NSEC_PER_SEC
    ensures After(b, packets, j + 1).tokens <= b.burst
  {
    SpentPlusLeft(b, packets, i, j);
    CheckSpends(After(b, packets, j), packets[j]);
  }

  // ---- the ideal bucket ------------------------------------------------------------------

  /** The product of rate and gap stays in the signed 64-bit range. */
  predicate GapInRange(rate: nat, from: nat, to: nat)
    requires from <= to
  {
    rate * (to - from) <= S64_MAX
  }

  /** What a bucket without width limits holds at `to`, and what is left of it behind a
      packet that it takes if it fits. */
  function IdealHeld(b: Bucket, level: nat, from: nat, to: nat): nat
    requires from <= to
  {
    Min(b.burst, level + Credit(b.rate, from, to))
  }

  function IdealLeft(held: nat, len: nat): nat {
    if 8 * len <= held then held - 8 * len else held
  }

  lemma IdealStep(b: Bucket, p: Packet)
    requires InRange(b) && b.rate > 0 && b.lastSeen <= p.now < U64 && p.len < 0x1_0000
    requires GapInRange(b.rate, b.lastSeen, p.now)
    ensures var held := IdealHeld(b, b.tokens, b.lastSeen, p.now);
      && (Accepts(b, p) <==> 8 * p.len <= held)
      && Check(b, p).tokens == IdealLeft(held, p.len)
  {
    AcceptsIff(b, p);
    CheckSpends(b, p);
  }

  ghost function LastSeen(b: Bucket, packets: seq<Packet>, n: nat): (at: nat)
    requires Monotone(packets, b.lastSeen) && n <= |packets|
    ensures n < |packets| ==> at <= packets[n].now
  {
    if n == 0 then b.lastSeen else packets[n - 1].now
  }

  /** The level of the ideal bucket behind the first `n` packets. */
  ghost function Level(b: Bucket, packets: seq<Packet>, n: nat): nat
    requires Monotone(packets, b.lastSeen) && n <= |packets|
  {
    if n == 0 then b.tokens
    else
      var held := IdealHeld(b, Level(b, packets, n - 1), LastSeen(b, packets, n - 1), packets[n - 1].now);
      IdealLeft(held, packets[n - 1].len)
  }

  /** The products of the first `n` gaps stay in range. */
  ghost predicate GapsInRange(b: Bucket, packets: seq<Packet>, n: nat)
    requires Monotone(packets, b.lastSeen) && n <= |packets|
  {
    forall i {:trigger packets[i]} :: 0 <= i < n ==> GapInRange(b.rate, LastSeen(b, packets, i), packets[i].now)
  }

  lemma OnePacket(b: Bucket, c: Bucket, p: Packet, level: nat, from: nat)
    requires InRange(c) && c.rate > 0 && c.lastSeen <= p.now < U64 && p.len < 0x1_0000
    requires c.rate == b.rate && c.burst == b.burst && c.tokens == level && c.lastSeen == from
    requires GapInRange(b.rate, from, p.now)
    ensures var held := IdealHeld(b, level, from, p.now);
      (Accepts(c, p) <==> 8 * p.len <= held) && Check(c, p).tokens == IdealLeft(held, p.len)
  {
    IdealStep(c, p);
  }

  lemma {:induction false} FollowsIdeal(b: Bucket, packets: seq<Packet>, n: nat)
    requires InRange(b) && b.rate > 0 && Monotone(packets, b.lastSeen) && n <= |packets| && GapsInRange(b, packets, n)
    ensures After(b, packets, n).tokens == Level(b, packets, n)
  {
    if n > 0 {
      FollowsIdeal(b, packets, n - 1);
      var p := packets[n - 1];
      OnePacket(b, After(b, packets, n - 1), p, Level(b, packets, n - 1), LastSeen(b, packets, n - 1));
    }
  }

  /** While the gaps stay in range, the policer accepts exactly the packets that fit
      what the ideal bucket holds when they arrive. */
  lemma AcceptsLikeIdeal(b: Bucket, packets: seq<Packet>, n: nat)
    requires InRange(b) && b.rate > 0 && Monotone(packets, b.lastSeen) && n < |packets| && GapsInRange(b, packets, n + 1)
    ensures Accepts(After(b, packets, n), packets[n])
      <==> 8 * packets[n].len <= IdealHeld(b, Level(b, packets, n), LastSeen(b, packets, n), packets[n].now)
  {
    FollowsIdeal(b, packets, n);
    OnePacket(b, After(b, packets, n), packets[n], Level(b, packets, n), LastSeen(b, packets, n));
  }

  // ---- the module's globals -----------------------------------------------------------

  class Policer {
    var tokensIn: nat
    var rateIn: nat
    var burstIn: nat
    var lastSeenIn: nat

    ghost function View(): Bucket
      reads this
    {
      Bucket(tokensIn, rateIn, burstIn, lastSeenIn)
    }

    constructor ()
      ensures View() == Bucket(0, 50_000_000, 4_166_666, 0)
    {
      tokensIn, rateIn, burstIn, lastSeenIn := 0, 50_000_000, 4_166_666, 0;
    }

    method UpdateTokens(now: nat)
      requires InRange(View()) && lastSeenIn <= now < U64
      modifies `tokensIn, `lastSeenIn
      ensures View() == Update(old(View()), now)
      ensures tokensIn <= old(Ideal(View(), now))
    {
      UpdateAtMostIdeal(View(), now);
      var tokens := DivS64(rateIn * (now - lastSeenIn) % U64);
      if (tokensIn + tokens) % U64 > burstIn {
        tokensIn := burstIn;
      } else {
        tokensIn := (tokensIn + tokens) % U32;
      }
      lastSeenIn := now;
    }

    method CheckingSess(pktLen: nat, now: nat) returns (accept: bool)
      requires InRange(View()) && lastSeenIn <= now < U64 && pktLen < 0x1_0000
      modifies `tokensIn, `lastSeenIn
      ensures InRange(View()) && View() == Check(old(View()), Packet(pktLen, now))
      ensures accept == old(Accepts(View(), Packet(pktLen, now)))
      ensures rateIn > 0 ==> var bits := if accept then 8 * pktLen else 0;
        && tokensIn + bits <= burstIn
        && tokensIn + bits <= old(tokensIn) + Credit(rateIn, old(lastSeenIn), now)
      ensures rateIn == 0 ==> accept
      ensures rateIn > 0 && rateIn * (now - old(lastSeenIn)) <= S64_MAX ==>
        (accept <==> 8 * pktLen <= Min(burstIn, old(tokensIn) + Credit(rateIn, old(lastSeenIn), now)))
    {
      UpdateAtMostIdeal(View(), now);
      if rateIn > 0 {
        CheckSpends(View(), Packet(pktLen, now));
        if rateIn * (now - lastSeenIn) <= S64_MAX {
          AcceptsIff(View(), Packet(pktLen, now));
        }
      }
      var pktLenBits := pktLen * 8 % U32;
      UpdateTokens(now);
      if pktLenBits <= tokensIn || rateIn == 0 {
        tokensIn := (tokensIn - pktLenBits) % U32;
        return true;
      }
      accept := false;
    }
  }
}
