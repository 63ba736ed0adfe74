/** Data sequence numbers of an L2TP session: 16 bits wide in L2TPv2, 24 bits in
    L2TPv3. They live on a circle of nr_max + 1 positions; the receive window is
    the half circle that starts at the next expected number. */
module SequenceSpace {

  const U32_SIZE: nat := 0x1_0000_0000

  const NR_MAX_V2: nat := 0xffff
  const NR_MAX_V3: nat := 0xffffff

  /** The two circles that session creation can set up. */
  predicate ValidNrMax(nrMax: nat) {
    nrMax == NR_MAX_V2 || nrMax == NR_MAX_V3
  }

  function WindowSize(nrMax: nat): nat {
    nrMax / 2
  }

  /** One step around the circle. */
  function Next(n: nat, nrMax: nat): nat {
    if n >= nrMax then 0 else n + 1
  }

  /** `k` steps around the circle. */
  function Advance(n: nat, k: nat, nrMax: nat): nat {
    if k == 0 then n else Next(Advance(n, k - 1, nrMax), nrMax)
  }

  /** Subtraction of unsigned 32-bit values, wrapping below zero. */
  function U32Sub(a: nat, b: nat): nat {
    (a - b) % U32_SIZE
  }

  /** Steps from `from` forward to `to`. */
  function Distance(from: nat, to: nat, nrMax: nat): nat
    requires from <= nrMax && to <= nrMax
  {
    if to >= from then to - from else nrMax + 1 - (from - to)
  }

  predicate InWindow(nr: nat, ns: nat, nrMax: nat)
    requires nr <= nrMax && ns <= nrMax
  {
    Distance(nr, ns, nrMax) < WindowSize(nrMax)
  }

  /** l2tp_seq_check_rx_window in the 32-bit arithmetic of the source: it decides
      whether `ns` lies fewer than half a circle ahead of `nr`, and neither of its
      two subtractions borrows. */
  method SeqCheckRxWindow(nr: nat, nrMax: nat, window: nat, ns: nat) returns (ok: bool)
    requires ValidNrMax(nrMax) && nr <= nrMax && ns <= nrMax
    ensures ok <==> exists k: nat :: k < window && Advance(nr, k, nrMax) == ns
    ensures window == WindowSize(nrMax) ==> (ok <==> InWindow(nr, ns, nrMax))
  {
    var nws;
    if ns >= nr {
      nws := U32Sub(ns, nr);
      assert nws == ns - nr;
    } else {
      nws := U32Sub(nrMax + 1, U32Sub(nr, ns));
      assert nws == nrMax + 1 - (nr - ns);
    }
    ok := nws < window;
    DistanceSteps(nr, ns, nrMax);
    assert ok ==> Advance(nr, nws, nrMax) == ns;
    if !ok {
      forall k: nat | k < window
        ensures Advance(nr, k, nrMax) != ns
      {
        DistanceUnique(nr, k, nrMax);
      }
    }
  }

  // ---- masking ------------------------------------------------------------------

  /** Bitwise conjunction of unsigned numbers. */
  function And(a: nat, b: nat): nat
    decreases a + b
  {
    if b == 0 then 0 else 2 * And(a / 2, b / 2) + (if a % 2 == 1 && b % 2 == 1 then 1 else 0)
  }

  function Pow2(k: nat): (p: nat)
    ensures p > 0
  {
    if k == 0 then 1 else 2 * Pow2(k - 1)
  }

  lemma AndOdd(a: nat, b: nat)
    ensures And(a, 2 * b + 1) == 2 * And(a / 2, b) + a % 2
  {
    assert (2 * b + 1) / 2 == b && (2 * b + 1) % 2 == 1;
  }

  /** A mask of `k` ones keeps what is below 2^k, and clears 2^k. */
  lemma {:induction false} MaskKeeps(a: nat, k: nat)
    ensures a < Pow2(k) ==> And(a, Pow2(k) - 1) == a
  {
    if k > 0 {
      MaskKeeps(a / 2, k - 1);
      AndOdd(a, Pow2(k - 1) - 1);
    }
  }

  lemma {:induction false} MaskClears(k: nat)
    ensures And(Pow2(k), Pow2(k) - 1) == 0
  {
    if k > 0 {
      MaskClears(k - 1);
      AndOdd(Pow2(k), Pow2(k - 1) - 1);
    }
  }

  lemma RemainderUnique(a: nat, m: nat, q: nat, r: nat)
    requires r < m
    ensures a == m * q + r ==> a % m == r
  {
    var d := a / m - q;
    assert a == m * q + r ==> m * d == r - a % m;
    assert d >= 1 ==> m * d >= m;
    assert d <= -1 ==> m * d <= -1 * m;
  }

  lemma NextRemainder(a: nat, nrMax: nat)
    ensures Next(a % (nrMax + 1), nrMax) == (a + 1) % (nrMax + 1)
  {
    var m := nrMax + 1;
    var q, r := a / m, a % m;
    if r < nrMax {
      RemainderUnique(a + 1, m, q, r + 1);
    } else {
      assert a + 1 == m * (q + 1);
      RemainderUnique(a + 1, m, q + 1, 0);
    }
  }

  /** Less than a whole round apart, remainders differ. */
  lemma RemaindersDiffer(a: nat, d: nat, m: nat)
    requires 0 < d < m
    ensures (a + d) % m != a % m
  {
    var q, r := a / m, a % m;
    if r + d < m {
      RemainderUnique(a + d, m, q, r + d);
    } else {
      assert a + d == m * (q + 1) + (r + d - m);
      RemainderUnique(a + d, m, q + 1, r + d - m);
    }
  }

  /** The number of the k-th frame of a sender that starts at 0. */
  function NumberOf(k: nat, nrMax: nat): (n: nat)
    ensures n <= nrMax
  {
    AdvanceRange(0, k, nrMax);
    Advance(0, k, nrMax)
  }

  lemma NumberNext(k: nat, nrMax: nat)
    ensures Next(NumberOf(k, nrMax), nrMax) == NumberOf(k + 1, nrMax)
  {
  }

  /** Numbers repeat after a whole circle. */
  lemma NumbersRepeat(k: nat, nrMax: nat)
    ensures NumberOf(k + (nrMax + 1), nrMax) == NumberOf(k, nrMax)
  {
    var m := nrMax + 1;
    AdvanceRemainder(0, k, nrMax);
    AdvanceRemainder(0, k + m, nrMax);
    assert k + m == m * (k / m + 1) + k % m;
    RemainderUnique(k + m, m, k / m + 1, k % m);
  }

  /** Frames less than a whole circle apart have different numbers. */
  lemma NumbersDiffer(k: nat, j: nat, nrMax: nat)
    requires k < j <= k + nrMax
    ensures NumberOf(k, nrMax) != NumberOf(j, nrMax)
  {
    AdvanceRemainder(0, k, nrMax);
    AdvanceRemainder(0, j, nrMax);
    RemaindersDiffer(k, j - k, nrMax + 1);
  }

  /** Both values of nr_max are masks of ones. */
  lemma NrMaxIsMask(nrMax: nat) returns (k: nat)
    requires ValidNrMax(nrMax)
    ensures nrMax == Pow2(k) - 1
  {
    assert Pow2(5) == 32 && Pow2(10) == 1024;
    assert Pow2(15) == 32768 && Pow2(16) == 0x1_0000;
    assert Pow2(20) == 1048576 && Pow2(24) == 0x100_0000;
    k := if nrMax == NR_MAX_V2 then 16 else 24;
  }

  /** Incrementing and masking with nr_max, as the source does it, is one step around
      the circle. */
  lemma MaskIsNext(n: nat, nrMax: nat)
    requires ValidNrMax(nrMax) && n <= nrMax
    ensures And(n + 1, nrMax) == Next(n, nrMax)
  {
    var k := NrMaxIsMask(nrMax);
    if n < nrMax {
      MaskKeeps(n + 1, k);
    } else {
      MaskClears(k);
    }
  }

  lemma {:induction false} AdvanceRange(n: nat, k: nat, nrMax: nat)
    requires n <= nrMax
    ensures Advance(n, k, nrMax) <= nrMax
  {
    if k > 0 {
      AdvanceRange(n, k - 1, nrMax);
    }
  }

  /** Short walks have a closed form. */
  lemma {:induction false} AdvanceClosed(n: nat, k: nat, nrMax: nat)
    requires n <= nrMax && k <= nrMax + 1
    ensures Advance(n, k, nrMax) == if n + k <= nrMax then n + k else n + k - (nrMax + 1)
  {
    if k > 0 {
      AdvanceClosed(n, k - 1, nrMax);
    }
  }

  /** `k` times incrementing and masking. */
  function Masked(n: nat, k: nat, nrMax: nat): nat {
    if k == 0 then n else And(Masked(n, k - 1, nrMax) + 1, nrMax)
  }

  lemma {:induction false} AdvanceRemainder(n: nat, k: nat, nrMax: nat)
    requires n <= nrMax
    ensures Advance(n, k, nrMax) == (n + k) % (nrMax + 1)
  {
    if k > 0 {
      AdvanceRemainder(n, k - 1, nrMax);
      NextRemainder(n + k - 1, nrMax);
    } else {
      RemainderUnique(n, nrMax + 1, 0, n);
    }
  }

  lemma {:induction false} MaskedIsAdvance(n: nat, k: nat, nrMax: nat)
    requires ValidNrMax(nrMax) && n <= nrMax
    ensures Masked(n, k, nrMax) == Advance(n, k, nrMax)
  {
    if k > 0 {
      MaskedIsAdvance(n, k - 1, nrMax);
      AdvanceRange(n, k - 1, nrMax);
      MaskIsNext(Advance(n, k - 1, nrMax), nrMax);
    }
  }

  /** On the two circles in use, masking after each step is a walk around the circle,
      and a walk of any length is addition modulo the size. */
  lemma AdvanceIsModular(n: nat, k: nat, nrMax: nat)
    requires ValidNrMax(nrMax) && n <= nrMax
    ensures Masked(n, k, nrMax) == Advance(n, k, nrMax) == (n + k) % (nrMax + 1)
  {
    MaskedIsAdvance(n, k, nrMax);
    AdvanceRemainder(n, k, nrMax);
  }

  lemma DistanceSteps(from: nat, to: nat, nrMax: nat)
    requires from <= nrMax && to <= nrMax
    ensures Distance(from, to, nrMax) <= nrMax
    ensures Advance(from, Distance(from, to, nrMax), nrMax) == to
  {
    AdvanceClosed(from, Distance(from, to, nrMax), nrMax);
  }

  /** A number reached by fewer steps than the circle has is reached by exactly
      `Distance` steps, so a longer walk is never mistaken for a shorter one. */
  lemma DistanceUnique(from: nat, k: nat, nrMax: nat)
    requires from <= nrMax
    ensures Advance(from, k, nrMax) <= nrMax
    ensures k <= nrMax ==> Distance(from, Advance(from, k, nrMax), nrMax) == k
    ensures Distance(from, Advance(from, k, nrMax), nrMax) <= k
  {
    AdvanceRange(from, k, nrMax);
    if k <= nrMax {
      AdvanceClosed(from, k, nrMax);
    }
  }

  /** Two different numbers are never each in the other's window. */
  lemma WindowAntisymmetric(a: nat, b: nat, nrMax: nat)
    requires a <= nrMax && b <= nrMax && a != b
    ensures !(InWindow(a, b, nrMax) && InWindow(b, a, nrMax))
    ensures Distance(a, b, nrMax) + Distance(b, a, nrMax) == nrMax + 1
  {
  }

  /** Replay protection, exactly: a number that lies `p` positions behind the
      expected one is refused while p is at most nr_max + 1 - window, and would be
      taken for a new number as soon as p is larger. */
  lemma ReplayRefusedIff(ns: nat, p: nat, nrMax: nat)
    requires ValidNrMax(nrMax) && ns <= nrMax && 1 <= p <= nrMax
    ensures Advance(ns, p, nrMax) <= nrMax
    ensures !InWindow(Advance(ns, p, nrMax), ns, nrMax) <==> p <= nrMax + 1 - WindowSize(nrMax)
  {
    AdvanceClosed(ns, p, nrMax);
  }

  /** The window in numbers: it starts at nr and has 0x7fff positions in L2TPv2 and
      0x7fffff in L2TPv3. */
  lemma WindowInNumbers(nr: nat, k: nat, nrMax: nat)
    requires ValidNrMax(nrMax) && nr <= nrMax && k <= nrMax
    ensures Advance(nr, k, nrMax) <= nrMax
    ensures InWindow(nr, Advance(nr, k, nrMax), nrMax) <==> k < if nrMax == 0xffff then 0x7fff else 0x7f_ffff
  {
    DistanceUnique(nr, k, nrMax);
  }
}
