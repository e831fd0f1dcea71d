/** The runlist: operations in the order of a stable sort by distance
    (compiler/src/ir/graph_deps.cpp:171-184). */
module Runlist {

  /** An entry of the list to sort. */
  datatype Entry = Entry(distance: nat, op_id: int)

  /** Insert before the first larger entry, after the equal ones. */
  function InsertStably(s: seq<Entry>, x: Entry): seq<Entry> {
    if s == [] || s[|s| - 1].distance <= x.distance then s + [x]
    else InsertStably(s[..|s| - 1], x) + [s[|s| - 1]]
  }

  function StableSort(s: seq<Entry>): seq<Entry> {
    if s == [] then [] else InsertStably(StableSort(s[..|s| - 1]), s[|s| - 1])
  }

  predicate Sorted(s: seq<Entry>) {
    forall i, j :: 0 <= i < j < |s| ==> s[i].distance <= s[j].distance
  }

  /** The entries of one distance, in their order. */
  function OfDistance(s: seq<Entry>, d: nat): seq<Entry> {
    if s == [] then []
    else OfDistance(s[..|s| - 1], d) + (if s[|s| - 1].distance == d then [s[|s| - 1]] else [])
  }

  lemma {:induction false} InsertPermutes(s: seq<Entry>, x: Entry)
    ensures multiset(InsertStably(s, x)) == multiset(s) + multiset{x}
  {
    if s != [] && s[|s| - 1].distance > x.distance {
      InsertPermutes(s[..|s| - 1], x);
      assert s == s[..|s| - 1] + [s[|s| - 1]];
    }
  }

  lemma {:induction false} InsertKeepsBound(s: seq<Entry>, x: Entry, m: nat)
    requires x.distance <= m && forall k :: 0 <= k < |s| ==> s[k].distance <= m
    ensures forall k :: 0 <= k < |InsertStably(s, x)| ==> InsertStably(s, x)[k].distance <= m
  {
    if s != [] && s[|s| - 1].distance > x.distance {
      InsertKeepsBound(s[..|s| - 1], x, m);
    }
  }

  lemma {:induction false} InsertSorts(s: seq<Entry>, x: Entry)
    requires Sorted(s)
    ensures Sorted(InsertStably(s, x))
  {
    if s != [] && s[|s| - 1].distance > x.distance {
      InsertSorts(s[..|s| - 1], x);
      InsertKeepsBound(s[..|s| - 1], x, s[|s| - 1].distance);
    }
  }

  lemma OfDistanceSnoc(s: seq<Entry>, x: Entry, d: nat)
    ensures OfDistance(s + [x], d) == OfDistance(s, d) + (if x.distance == d then [x] else [])
  {
    assert (s + [x])[..|s|] == s;
  }

  lemma {:induction false} InsertKeepsEqualOrder(s: seq<Entry>, x: Entry, d: nat)
    ensures OfDistance(InsertStably(s, x), d) == OfDistance(s + [x], d)
  {
    if s != [] && s[|s| - 1].distance > x.distance {
      var front, y := s[..|s| - 1], s[|s| - 1];
      assert s == front + [y];
      InsertKeepsEqualOrder(front, x, d);
      OfDistanceSnoc(InsertStably(front, x), y, d);
      OfDistanceSnoc(front, x, d);
      OfDistanceSnoc(front, y, d);
      OfDistanceSnoc(s, x, d);
    }
  }

  /** Sorted, a permutation, and equal distances keep their order. */
  lemma {:induction false} SortIsStable(s: seq<Entry>)
    ensures Sorted(StableSort(s)) && multiset(StableSort(s)) == multiset(s)
    ensures forall d :: OfDistance(StableSort(s), d) == OfDistance(s, d)
  {
    if s != [] {
      var front, x := s[..|s| - 1], s[|s| - 1];
      SortIsStable(front);
      InsertSorts(StableSort(front), x);
      InsertPermutes(StableSort(front), x);
      assert s == front + [x];
      forall d
        ensures OfDistance(StableSort(s), d) == OfDistance(s, d)
      {
        InsertKeepsEqualOrder(StableSort(front), x, d);
        OfDistanceSnoc(StableSort(front), x, d);
        OfDistanceSnoc(front, x, d);
      }
    }
  }

  /** A smaller distance is earlier in the sorted list. */
  lemma SmallerIsEarlier(s: seq<Entry>, a: int, b: int)
    requires Sorted(s) && 0 <= a < |s| && 0 <= b < |s| && s[a].distance < s[b].distance
    ensures a < b
  {
  }

  /** One distance for all leaves the order as it was. */
  lemma {:induction false} EqualDistancesStay(s: seq<Entry>, d: nat)
    requires forall k :: 0 <= k < |s| ==> s[k].distance == d
    ensures StableSort(s) == s
  {
    if s != [] {
      EqualDistancesStay(s[..|s| - 1], d);
    }
  }

  function OpIds(s: seq<Entry>): (r: seq<int>)
    ensures |r| == |s| && forall k :: 0 <= k < |s| ==> r[k] == s[k].op_id
  {
    if s == [] then [] else OpIds(s[..|s| - 1]) + [s[|s| - 1].op_id]
  }
}
