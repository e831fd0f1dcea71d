/** Bounded relaxation of 32-bit distances along predecessor links, as values
    (compiler/src/ir/graph_deps.cpp:573-606): what a pass without change means, how many passes
    an acyclic graph needs, and how far distances can get.
 */
module Relaxation {
  import opened Sequences

  /** Link of each node: -1 is no predecessor. */
  type Links = seq<int>

  predicate ValidLinks(pre: Links) {
    forall i :: 0 <= i < |pre| ==> -1 <= pre[i] < |pre|
  }

  /** The node k links up the chain, or -1. */
  function Up(pre: Links, i: int, k: nat): (j: int)
    requires ValidLinks(pre) && -1 <= i < |pre|
    ensures -1 <= j < |pre|
    decreases k
  {
    if i < 0 || k == 0 then i else Up(pre, pre[i], k - 1)
  }

  /** Some node comes back to itself. */
  ghost predicate Cyclic(pre: Links)
    requires ValidLinks(pre)
  {
    exists i: nat, k: nat :: i < |pre| && 0 < k && Up(pre, i, k) == i
  }

  lemma {:induction false} UpAdds(pre: Links, i: int, a: nat, b: nat)
    requires ValidLinks(pre) && -1 <= i < |pre|
    ensures Up(pre, Up(pre, i, a), b) == Up(pre, i, a + b)
    decreases a
  {
    if i >= 0 && a > 0 {
      UpAdds(pre, pre[i], a - 1, b);
    }
  }

  // ----- Chains of an acyclic graph end -----

  lemma LongChainIsCyclic(pre: Links, i: int)
    requires ValidLinks(pre) && 0 <= i < |pre| && Up(pre, i, |pre|) >= 0
    ensures Cyclic(pre)
  {
    var chain := seq(|pre| + 1, k requires 0 <= k => Up(pre, i, k));
    forall k | 0 <= k < |chain|
      ensures 0 <= chain[k] < |pre|
    {
      UpAdds(pre, i, k, |pre| - k);
    }
    var a, b := Repeats(chain, |pre|);
    UpAdds(pre, i, a, b - a);
    assert Up(pre, chain[a], b - a) == chain[a];
  }

  lemma ChainEnds(pre: Links, i: int)
    requires ValidLinks(pre) && 0 <= i < |pre| && !Cyclic(pre)
    ensures Up(pre, i, |pre|) == -1
  {
    if Up(pre, i, |pre|) >= 0 {
      LongChainIsCyclic(pre, i);
    }
  }

  lemma Repeats(s: seq<int>, n: nat) returns (a: nat, b: nat)
    requires |s| == n + 1 && forall k :: 0 <= k < |s| ==> 0 <= s[k] < n
    ensures a < b < |s| && s[a] == s[b]
  {
    if Distinct(s) {
      DistinctCount(s);
      assert Elements(s) <= Below(n);
      BelowCount(Elements(s), n);
      assert false;
    } else {
      a, b :| 0 <= a < b < |s| && s[a] == s[b];
    }
  }

  lemma {:induction false} BelowCount(x: set<int>, n: nat)
    requires x <= Below(n)
    ensures |x| <= n
  {
    if n > 0 {
      BelowCount(x - {n - 1}, n - 1);
    }
  }

  function Below(n: nat): (r: set<int>)
    ensures forall e :: e in r <==> 0 <= e < n
  {
    if n == 0 then {} else Below(n - 1) + {n - 1}
  }

  // ----- The longest way down a chain -----

  function Max(a: nat, b: nat): nat {
    if a < b then b else a
  }

  /** The largest start plus steps over the first k links of a chain. */
  function Best(pre: Links, start: seq<nat>, i: nat, k: nat): nat
    requires ValidLinks(pre) && |start| == |pre| && i < |pre|
    decreases k
  {
    if pre[i] < 0 || k == 0 then start[i] else Max(start[i], Best(pre, start, pre[i], k - 1) + 1)
  }

  lemma {:induction false} BestIsMaximum(pre: Links, start: seq<nat>, i: nat, k: nat)
    requires ValidLinks(pre) && |start| == |pre| && i < |pre|
    ensures forall j: nat :: j <= k && Up(pre, i, j) >= 0 ==> start[Up(pre, i, j)] + j <= Best(pre, start, i, k)
    ensures exists j: nat :: j <= k && Up(pre, i, j) >= 0 && start[Up(pre, i, j)] + j == Best(pre, start, i, k)
    decreases k
  {
    assert Up(pre, i, 0) == i;
    if pre[i] >= 0 && k > 0 {
      BestIsMaximum(pre, start, pre[i], k - 1);
      var j: nat :| j <= k - 1 && Up(pre, pre[i], j) >= 0 && start[Up(pre, pre[i], j)] + j == Best(pre, start, pre[i], k - 1);
      assert Up(pre, i, j + 1) == Up(pre, pre[i], j);
      forall j: nat | j <= k && Up(pre, i, j) >= 0
        ensures start[Up(pre, i, j)] + j <= Best(pre, start, i, k)
      {
        if j > 0 { assert Up(pre, i, j) == Up(pre, pre[i], j - 1); }
      }
    } else if pre[i] < 0 {
      forall j: nat | j <= k && Up(pre, i, j) >= 0
        ensures j == 0
      {
        if j > 0 { assert Up(pre, i, j) == Up(pre, pre[i], j - 1); }
      }
    }
  }

  lemma {:induction false} BestGrows(pre: Links, start: seq<nat>, i: nat, k: nat, m: nat)
    requires ValidLinks(pre) && |start| == |pre| && i < |pre| && k <= m
    ensures Best(pre, start, i, k) <= Best(pre, start, i, m)
    decreases k
  {
    if pre[i] >= 0 && k > 0 {
      BestGrows(pre, start, pre[i], k - 1, m - 1);
    }
  }

  lemma {:induction false} BestIsBounded(pre: Links, start: seq<nat>, i: nat, k: nat, m: nat)
    requires ValidLinks(pre) && |start| == |pre| && i < |pre| && forall j :: 0 <= j < |start| ==> start[j] <= m
    ensures Best(pre, start, i, k) <= m + k
    decreases k
  {
    if pre[i] >= 0 && k > 0 {
      BestIsBounded(pre, start, pre[i], k - 1, m);
    }
  }

  /** More links than the chain has add nothing. */
  lemma {:induction false} BestSettles(pre: Links, start: seq<nat>, i: nat, k: nat, m: nat)
    requires ValidLinks(pre) && |start| == |pre| && i < |pre| && k <= m && Up(pre, i, k) == -1
    ensures Best(pre, start, i, m) == Best(pre, start, i, k)
    decreases k
  {
    if pre[i] >= 0 && k > 0 {
      BestSettles(pre, start, pre[i], k - 1, m - 1);
    }
  }

  /** The longest distance of every node, for chains that end. */
  function Longest(pre: Links, start: seq<nat>, i: nat): nat
    requires ValidLinks(pre) && |start| == |pre| && i < |pre|
  {
    Best(pre, start, i, |pre|)
  }

  lemma LongestStep(pre: Links, start: seq<nat>, i: nat)
    requires ValidLinks(pre) && |start| == |pre| && i < |pre| && !Cyclic(pre) && pre[i] >= 0
    ensures Longest(pre, start, i) == Max(start[i], Longest(pre, start, pre[i]) + 1)
  {
    ChainEnds(pre, i);
    ChainEnds(pre, pre[i]);
    var n := |pre|;
    assert Up(pre, pre[i], n - 1) == Up(pre, i, n) == -1;
    BestSettles(pre, start, pre[i], n - 1, n);
  }

  // ----- Passes -----

  /** No update is left to do. */
  predicate Settled(pre: Links, d: seq<nat>)
    requires ValidLinks(pre) && |d| == |pre|
  {
    forall i :: 0 <= i < |d| && pre[i] >= 0 ==> d[pre[i]] + 1 <= d[i]
  }

  lemma {:induction false} SettledDescends(pre: Links, d: seq<nat>, i: nat, k: nat)
    requires ValidLinks(pre) && |d| == |pre| && Settled(pre, d) && i < |pre| && Up(pre, i, k) >= 0
    ensures d[Up(pre, i, k)] + k <= d[i]
    decreases k
  {
    if k > 0 {
      SettledDescends(pre, d, pre[i], k - 1);
    }
  }

  /** A cycle never settles. */
  lemma SettledIsAcyclic(pre: Links, d: seq<nat>)
    requires ValidLinks(pre) && |d| == |pre| && Settled(pre, d)
    ensures !Cyclic(pre)
  {
    forall i: nat, k: nat | i < |pre| && 0 < k
      ensures Up(pre, i, k) != i
    {
      if Up(pre, i, k) >= 0 { SettledDescends(pre, d, i, k); }
    }
  }

  ghost predicate AtLeastBest(pre: Links, start: seq<nat>, d: seq<nat>, k: nat)
    requires ValidLinks(pre) && |start| == |d| == |pre|
  {
    forall i: nat :: i < |d| ==> Best(pre, start, i, k) <= d[i]
  }

  ghost predicate AtMostLongest(pre: Links, start: seq<nat>, d: seq<nat>)
    requires ValidLinks(pre) && |start| == |d| == |pre|
  {
    forall i: nat :: i < |d| ==> d[i] <= Longest(pre, start, i)
  }

  /** One more, in 32 bits. */
  function Next(d: nat): (r: nat)
    ensures r <= d + 1 && (d < MAX_DISTANCE ==> r == d + 1)
  {
    (d + 1) % 0x1_0000_0000
  }

  const MAX_DISTANCE := 0xffff_ffff

  /** Distances after node i was looked at. */
  function Updated(pre: Links, d: seq<nat>, i: nat): (r: seq<nat>)
    requires ValidLinks(pre) && |d| == |pre| && i < |d|
    ensures |r| == |d|
  {
    if pre[i] >= 0 && Next(d[pre[i]]) > d[i] then d[i := Next(d[pre[i]])] else d
  }

  /** A pass that has come to node i. */
  function PassTo(pre: Links, d: seq<nat>, i: nat): (r: seq<nat>)
    requires ValidLinks(pre) && |d| == |pre| && i <= |d|
    ensures |r| == |d|
  {
    if i == 0 then d else Updated(pre, PassTo(pre, d, i - 1), i - 1)
  }

  function Passes(pre: Links, start: seq<nat>, k: nat): (r: seq<nat>)
    requires ValidLinks(pre) && |start| == |pre|
    ensures |r| == |start|
  {
    if k == 0 then start else PassTo(pre, Passes(pre, start, k - 1), |pre|)
  }

  /** The k-th pass changes nothing. */
  predicate SettledBy(pre: Links, start: seq<nat>, k: nat)
    requires ValidLinks(pre) && |start| == |pre|
  {
    k > 0 && Passes(pre, start, k) == Passes(pre, start, k - 1)
  }

  lemma {:induction false} StaysSettled(pre: Links, start: seq<nat>, k: nat, m: nat)
    requires ValidLinks(pre) && |start| == |pre| && SettledBy(pre, start, k) && k <= m
    ensures SettledBy(pre, start, m) && Passes(pre, start, m) == Passes(pre, start, k)
  {
    if k < m {
      StaysSettled(pre, start, k, m - 1);
    }
  }

  /** Distances never fall, whatever wraps around. */
  lemma {:induction false} PassGrows(pre: Links, d: seq<nat>, i: nat, j: nat)
    requires ValidLinks(pre) && |d| == |pre| && i <= j <= |d|
    ensures forall k :: 0 <= k < |d| ==> PassTo(pre, d, i)[k] <= PassTo(pre, d, j)[k]
    ensures forall k :: j <= k < |d| ==> PassTo(pre, d, j)[k] == PassTo(pre, d, i)[k]
  {
    if i < j {
      PassGrows(pre, d, i, j - 1);
    }
  }

  /** A pass that changes nothing has nothing to change, unless some distance is at its limit. */
  lemma UnchangedIsSettled(pre: Links, d: seq<nat>)
    requires ValidLinks(pre) && |d| == |pre| && PassTo(pre, d, |pre|) == d
    requires forall k :: 0 <= k < |d| ==> d[k] < MAX_DISTANCE
    ensures Settled(pre, d)
  {
    forall i: nat | i < |d| && pre[i] >= 0
      ensures d[pre[i]] + 1 <= d[i]
    {
      UnchangedSoFar(pre, d, i);
      UnchangedSoFar(pre, d, i + 1);
    }
  }

  lemma UnchangedSoFar(pre: Links, d: seq<nat>, i: nat)
    requires ValidLinks(pre) && |d| == |pre| && PassTo(pre, d, |pre|) == d && i <= |d|
    ensures PassTo(pre, d, i) == d
  {
    PassGrows(pre, d, 0, i);
    PassGrows(pre, d, i, |pre|);
    assert forall k :: 0 <= k < |d| ==> PassTo(pre, d, i)[k] == d[k];
  }

  /** Each node raises the largest distance by at most one. */
  lemma {:induction false} PassIsBounded(pre: Links, d: seq<nat>, m: nat, i: nat)
    requires ValidLinks(pre) && |d| == |pre| && i <= |d| && forall k :: 0 <= k < |d| ==> d[k] <= m
    ensures forall k :: 0 <= k < |d| ==> PassTo(pre, d, i)[k] <= m + i
  {
    if i > 0 {
      PassIsBounded(pre, d, m, i - 1);
    }
  }

  lemma {:induction false} PassesAreBounded(pre: Links, start: seq<nat>, m: nat, k: nat)
    requires ValidLinks(pre) && |start| == |pre| && forall i :: 0 <= i < |start| ==> start[i] <= m
    ensures forall i :: 0 <= i < |start| ==> Passes(pre, start, k)[i] <= m + k * |pre|
  {
    if k > 0 {
      PassesAreBounded(pre, start, m, k - 1);
      PassIsBounded(pre, Passes(pre, start, k - 1), m + (k - 1) * |pre|, |pre|);
      assert m + (k - 1) * |pre| + |pre| == m + k * |pre|;
    }
  }

  // ----- Acyclic chains -----

  /** No chain is so long that a distance leaves 32 bits. */
  ghost predicate Fits(pre: Links, start: seq<nat>)
    requires ValidLinks(pre) && |start| == |pre|
  {
    forall i: nat :: i < |pre| ==> Longest(pre, start, i) <= MAX_DISTANCE
  }

  /** What one pass in place does for node i. */
  ghost predicate Passed(pre: Links, d: seq<nat>, d': seq<nat>, i: nat)
    requires ValidLinks(pre) && |d| == |d'| == |pre|
  {
    && (forall k: nat :: k < |d| ==> d[k] <= d'[k])
    && (forall k: nat :: k < i && k < |d| && pre[k] >= 0 ==> d[pre[k]] + 1 <= d'[k])
  }

  lemma {:induction false} AcyclicPass(pre: Links, start: seq<nat>, d: seq<nat>, i: nat)
    requires ValidLinks(pre) && |start| == |d| == |pre| && i <= |d|
    requires !Cyclic(pre) && Fits(pre, start) && AtMostLongest(pre, start, d)
    ensures Passed(pre, d, PassTo(pre, d, i), i) && AtMostLongest(pre, start, PassTo(pre, d, i))
  {
    if i > 0 {
      AcyclicPass(pre, start, d, i - 1);
      if pre[i - 1] >= 0 {
        LongestStep(pre, start, i - 1);
      }
    }
  }

  lemma PassReachesFurther(pre: Links, start: seq<nat>, d: seq<nat>, d': seq<nat>, k: nat)
    requires ValidLinks(pre) && |start| == |d| == |d'| == |pre| && Passed(pre, d, d', |d|)
    requires AtLeastBest(pre, start, d, k) && forall i: nat :: i < |d| ==> start[i] <= d[i]
    ensures AtLeastBest(pre, start, d', k + 1)
  {
    forall i: nat | i < |d|
      ensures Best(pre, start, i, k + 1) <= d'[i]
    {
      if pre[i] >= 0 { assert Best(pre, start, pre[i], k) <= d[pre[i]]; }
    }
  }

  lemma {:induction false} AcyclicPasses(pre: Links, start: seq<nat>, k: nat)
    requires ValidLinks(pre) && |start| == |pre| && !Cyclic(pre) && Fits(pre, start)
    ensures forall i: nat :: i < |pre| ==> start[i] <= Passes(pre, start, k)[i]
    ensures AtLeastBest(pre, start, Passes(pre, start, k), k) && AtMostLongest(pre, start, Passes(pre, start, k))
  {
    if k == 0 {
      forall i: nat | i < |start|
        ensures start[i] <= Longest(pre, start, i)
      {
        BestGrows(pre, start, i, 0, |pre|);
      }
    } else {
      var d := Passes(pre, start, k - 1);
      AcyclicPasses(pre, start, k - 1);
      AcyclicPass(pre, start, d, |pre|);
      PassReachesFurther(pre, start, d, Passes(pre, start, k), k - 1);
    }
  }

  /** Once every chain is used up, the distances are the longest. */
  lemma EnoughPasses(pre: Links, start: seq<nat>, d: seq<nat>, k: nat)
    requires ValidLinks(pre) && |start| == |d| == |pre| && k >= |pre|
    requires AtLeastBest(pre, start, d, k) && AtMostLongest(pre, start, d)
    ensures forall i: nat :: i < |d| ==> d[i] == Longest(pre, start, i)
  {
    forall i: nat | i < |d|
      ensures d[i] == Longest(pre, start, i)
    {
      BestGrows(pre, start, i, |pre|, k);
    }
  }

  /** More passes than nodes find the longest distances of acyclic chains. */
  lemma AcyclicSettles(pre: Links, start: seq<nat>, k: nat)
    requires ValidLinks(pre) && |start| == |pre| && !Cyclic(pre) && Fits(pre, start) && k > |pre|
    ensures SettledBy(pre, start, k)
    ensures forall i: nat :: i < |pre| ==> Passes(pre, start, k)[i] == Longest(pre, start, i)
  {
    AcyclicPasses(pre, start, k - 1);
    AcyclicPasses(pre, start, k);
    EnoughPasses(pre, start, Passes(pre, start, k - 1), k - 1);
    EnoughPasses(pre, start, Passes(pre, start, k), k);
  }

  /** A cycle does not settle before some distance is at its limit. */
  lemma CyclicDoesNotSettle(pre: Links, start: seq<nat>, m: nat, k: nat)
    requires ValidLinks(pre) && |start| == |pre| && Cyclic(pre) && k > 0
    requires (forall i :: 0 <= i < |start| ==> start[i] <= m) && m + (k - 1) * |pre| < MAX_DISTANCE
    ensures !SettledBy(pre, start, k)
  {
    PassesAreBounded(pre, start, m, k - 1);
    var d := Passes(pre, start, k - 1);
    if SettledBy(pre, start, k) {
      UnchangedIsSettled(pre, d);
      SettledIsAcyclic(pre, d);
    }
  }
}
