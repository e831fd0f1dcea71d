/** When the limit on the passes tells a cycle in 32 bits
    (compiler/src/ir/graph_deps.cpp:577-606): for every graph of n operations if and only if
    n (4 n + 16) is below 2 to the 32nd.  From there on a ring of n operations reaches the
    largest distance within the limit, settles, and passes for acyclic.
 */
module RelaxationWidth {
  import opened Relaxation

  /** Each distance starts as a position. */
  function Positions(n: nat): (r: seq<nat>)
    ensures |r| == n
  {
    seq(n, i requires 0 <= i => i)
  }

  function Limit(n: nat): nat {
    4 * n + 16
  }

  /** The relaxation says acyclic exactly of acyclic chains. */
  ghost predicate AnswersRight(pre: Links)
    requires ValidLinks(pre)
  {
    SettledBy(pre, Positions(|pre|), Limit(|pre|)) <==> !Cyclic(pre)
  }

  lemma PositionsFit(pre: Links)
    requires ValidLinks(pre) && 2 * |pre| <= MAX_DISTANCE + 1
    ensures Fits(pre, Positions(|pre|))
  {
    forall i: nat | i < |pre|
      ensures Longest(pre, Positions(|pre|), i) <= MAX_DISTANCE
    {
      BestIsBounded(pre, Positions(|pre|), i, |pre|, |pre| - 1);
    }
  }

  /** Acyclic chains are never taken for cyclic. */
  lemma AcyclicIsAccepted(pre: Links)
    requires ValidLinks(pre) && 2 * |pre| <= MAX_DISTANCE + 1 && !Cyclic(pre)
    ensures SettledBy(pre, Positions(|pre|), Limit(|pre|))
    ensures forall i: nat :: i < |pre| ==> Passes(pre, Positions(|pre|), Limit(|pre|))[i] == Longest(pre, Positions(|pre|), i)
  {
    PositionsFit(pre);
    AcyclicSettles(pre, Positions(|pre|), Limit(|pre|));
  }

  lemma AnswerIsRight(pre: Links)
    requires ValidLinks(pre) && |pre| * Limit(|pre|) <= MAX_DISTANCE
    ensures AnswersRight(pre)
  {
    var n := |pre|;
    if Cyclic(pre) {
      assert n > 0 && n * Limit(n) == n - 1 + (Limit(n) - 1) * n + 1;
      CyclicDoesNotSettle(pre, Positions(n), n - 1, Limit(n));
    } else {
      assert n * Limit(n) >= n * 2;
      AcyclicIsAccepted(pre);
    }
  }

  // ----- A ring of n operations -----

  /** Each node consumes the one before it, and the first the last. */
  function Ring(n: nat): (r: Links)
    ensures |r| == n && ValidLinks(r)
  {
    seq(n, i requires 0 <= i < n => if i == 0 then n - 1 else i - 1)
  }

  lemma RingIsCyclic(n: nat)
    requires n > 0
    ensures Cyclic(Ring(n))
  {
    RingUp(n, n - 1);
    UpAdds(Ring(n), n - 1, n - 1, 1);
    assert Up(Ring(n), 0, 1) == Ring(n)[0];
    assert Up(Ring(n), n - 1, n) == n - 1;
  }

  lemma {:induction false} RingUp(n: nat, k: nat)
    requires k < n
    ensures Up(Ring(n), n - 1, k) == n - 1 - k
  {
    if k > 0 {
      RingUp(n, k - 1);
      UpAdds(Ring(n), n - 1, k - 1, 1);
      var i := n - k;
      assert Up(Ring(n), i, 1) == Up(Ring(n), Ring(n)[i], 0) == i - 1;
    }
  }

  /** Node i of the ring after k passes, while the last node is not past its limit by a turn. */
  function InRing(n: nat, k: nat, i: nat): nat {
    if k == 0 || k * n + i <= MAX_DISTANCE then k * n + i else (k - 1) * n + i
  }

  function RingAfter(n: nat, k: nat, upto: nat): (r: seq<nat>)
    requires k > 0
    ensures |r| == n
  {
    seq(n, i requires 0 <= i < n => if i < upto then InRing(n, k, i) else InRing(n, k - 1, i))
  }

  lemma {:induction false} RingPass(n: nat, k: nat, d: seq<nat>, i: nat)
    requires 0 < k && k * n <= MAX_DISTANCE && i <= n && |d| == n && forall j: nat :: j < n ==> d[j] == InRing(n, k - 1, j)
    ensures PassTo(Ring(n), d, i) == RingAfter(n, k, i)
  {
    if i > 0 {
      RingPass(n, k, d, i - 1);
      RingStep(n, k, i - 1);
    }
  }

  /** Before the k-th pass no node has reached its limit. */
  lemma BeforeLimit(n: nat, k: nat, i: nat)
    requires 0 < k && k * n <= MAX_DISTANCE && i < n
    ensures InRing(n, k - 1, i) == k * n - n + i
  {
    assert (k - 1) * n == k * n - n;
  }

  lemma RingStep(n: nat, k: nat, i: nat)
    requires 0 < k && k * n <= MAX_DISTANCE && i < n
    ensures Updated(Ring(n), RingAfter(n, k, i), i) == RingAfter(n, k, i + 1)
  {
    var d := RingAfter(n, k, i);
    BeforeLimit(n, k, i);
    BeforeLimit(n, k, n - 1);
    if i == 0 {
      assert Next(d[n - 1]) == k * n == InRing(n, k, 0);
    } else {
      assert d[i - 1] == InRing(n, k, i - 1);
      assert InRing(n, k, i) == if k * n + i <= MAX_DISTANCE then k * n + i else k * n - n + i;
    }
  }

  lemma {:induction false} RingPasses(n: nat, k: nat, i: nat)
    requires k * n <= MAX_DISTANCE && i < n <= MAX_DISTANCE
    ensures Passes(Ring(n), Positions(n), k)[i] == InRing(n, k, i)
  {
    if k > 0 {
      var d := Passes(Ring(n), Positions(n), k - 1);
      assert (k - 1) * n + n == k * n;
      forall j: nat | j < n
        ensures d[j] == InRing(n, k - 1, j)
      {
        RingPasses(n, k - 1, j);
      }
      RingPass(n, k, d, n);
    }
  }

  /** A pass that updates no node. */
  lemma {:induction false} PassDoesNothing(pre: Links, d: seq<nat>, i: nat)
    requires ValidLinks(pre) && |d| == |pre| && i <= |d| && forall j: nat :: j < |d| ==> Updated(pre, d, j) == d
    ensures PassTo(pre, d, i) == d
  {
    if i > 0 {
      PassDoesNothing(pre, d, i - 1);
    }
  }

  /** One node has come to the largest distance, and what would be one more is 0. */
  lemma RingStops(n: nat, k: nat, d: seq<nat>, i: nat)
    requires i < n == |d| && k > 0 && k * n <= MAX_DISTANCE < k * n + n
    requires forall j: nat :: j < n ==> d[j] == InRing(n, k, j)
    ensures Updated(Ring(n), d, i) == d
  {
    BeforeLimit(n, k, i);
    BeforeLimit(n, k, if i == 0 then n - 1 else i - 1);
  }

  lemma TimesGrows(a: nat, b: nat, n: nat)
    ensures a >= b ==> a * n >= n * b
  {
  }

  lemma RingSettles(n: nat)
    requires 0 < n <= MAX_DISTANCE < n * Limit(n)
    ensures SettledBy(Ring(n), Positions(n), Limit(n))
  {
    var k := MAX_DISTANCE / n;
    var d := Passes(Ring(n), Positions(n), k);
    assert k * n <= MAX_DISTANCE < k * n + n;
    TimesGrows(k, Limit(n), n);
    forall i: nat | i < n
      ensures d[i] == InRing(n, k, i)
    {
      RingPasses(n, k, i);
    }
    forall i: nat | i < n
      ensures Updated(Ring(n), d, i) == d
    {
      RingStops(n, k, d, i);
    }
    PassDoesNothing(Ring(n), d, n);
    StaysSettled(Ring(n), Positions(n), k + 1, Limit(n));
  }

  /** The first number of operations for which it can be wrong. */
  lemma SmallestFailure(n: nat)
    ensures n * Limit(n) <= MAX_DISTANCE <==> n < 32767
  {
    if n < 32767 {
      assert n * Limit(n) <= 32766 * Limit(32766);
    } else {
      assert n * Limit(n) >= 32767 * Limit(32767);
    }
  }
}
