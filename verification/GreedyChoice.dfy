/** Greedy grouping leaves nothing out: every position that is in no earlier group and may
    join a group in its turn is in it (compiler/src/mcast/mcast_optimizer.cpp:89-133). */
module GreedyChoice {
  import opened Sequences
  import opened GreedyGroups

  /** The members below a position. */
  function Below(members: seq<nat>, j: nat): (r: seq<nat>)
    ensures r <= members
  {
    if members == [] || members[0] >= j then [] else [members[0]] + Below(members[1..], j)
  }

  /** In its turn, position j could not join the members before it. */
  predicate PassedOver(joins: Rule, members: seq<nat>, j: nat) {
    !joins(Below(members, j), j)
  }

  /** Position j is in a group that began before position i. */
  ghost predicate TakenBefore(groups: seq<seq<nat>>, i: nat, j: nat) {
    exists k :: 0 <= k < |groups| && groups[k] != [] && groups[k][0] < i && j in groups[k]
  }

  ghost predicate InSome(groups: seq<seq<nat>>, j: nat) {
    exists k :: 0 <= k < |groups| && j in groups[k]
  }

  lemma {:induction false} BelowAll(members: seq<nat>, j: nat)
    requires forall k :: 0 <= k < |members| ==> members[k] < j
    ensures Below(members, j) == members
  {
    if members != [] {
      BelowAll(members[1..], j);
    }
  }

  /** Nothing that was passed over so far could have joined. */
  ghost predicate CompleteTo(n: nat, joins: Rule, merged: set<nat>, members: seq<nat>, upto: nat) {
    members != [] && forall j: nat :: members[0] < j < upto && j < n && j !in members && j !in merged ==> PassedOver(joins, members, j)
  }

  lemma GatherNext(n: nat, joins: Rule, merged: set<nat>, members: seq<nat>, j: nat)
    requires Members(n, members) && members[|members| - 1] < j < n
    ensures Gather(n, joins, merged, members, j)
         == if j !in merged && joins(members, j) then Gather(n, joins, merged, members + [j], j + 1) else Gather(n, joins, merged, members, j + 1)
  {
  }

  lemma {:induction false} GatherIsComplete(n: nat, joins: Rule, merged: set<nat>, members: seq<nat>, j: nat, r: seq<nat>)
    requires Members(n, members) && members[|members| - 1] < j <= n && CompleteTo(n, joins, merged, members, j)
    requires r == Gather(n, joins, merged, members, j)
    ensures CompleteTo(n, joins, merged, r, n)
    decreases n - j
  {
    if j < n {
      GatherNext(n, joins, merged, members, j);
      if j !in merged && joins(members, j) {
        JoinedIsComplete(n, joins, merged, members, j);
        GatherIsComplete(n, joins, merged, members + [j], j + 1, r);
      } else {
        SkippedIsComplete(n, joins, merged, members, j);
        GatherIsComplete(n, joins, merged, members, j + 1, r);
      }
    }
  }

  lemma SkippedIsComplete(n: nat, joins: Rule, merged: set<nat>, members: seq<nat>, j: nat)
    requires Members(n, members) && members[|members| - 1] < j < n && CompleteTo(n, joins, merged, members, j)
    requires j in merged || !joins(members, j)
    ensures CompleteTo(n, joins, merged, members, j + 1)
  {
    BelowAll(members, j);
  }

  lemma JoinedIsComplete(n: nat, joins: Rule, merged: set<nat>, members: seq<nat>, j: nat)
    requires Members(n, members) && members[|members| - 1] < j < n && CompleteTo(n, joins, merged, members, j)
    ensures CompleteTo(n, joins, merged, members + [j], j + 1)
  {
    forall x: nat | members[0] < x < j + 1 && x !in members + [j] && x !in merged
      ensures PassedOver(joins, members + [j], x)
    {
      BelowSnoc(members, j, x);
    }
  }

  lemma {:induction false} BelowSnoc(members: seq<nat>, j: nat, x: nat)
    requires x <= j
    ensures Below(members + [j], x) == Below(members, x)
  {
    if members == [] {
      assert [] + [j] == [j];
    } else {
      assert (members + [j])[1..] == members[1..] + [j];
      BelowSnoc(members[1..], j, x);
    }
  }

  // ----- All groups -----

  /** The groups of the positions from i on, some of which are merged already: each is complete,
      and so is a position in no group. */
  ghost predicate GreedyFrom(n: nat, joins: Rule, i: nat, merged: set<nat>, groups: seq<seq<nat>>) {
    && (forall k :: 0 <= k < |groups| ==> CompleteAmong(n, joins, merged, groups, groups[k]))
    && (forall x: nat :: i <= x < n && x !in merged && !InSome(groups, x) ==> CompleteAmong(n, joins, merged, groups, [x]))
    && (forall k, l :: 0 <= k < l < |groups| && groups[k] != [] && groups[l] != [] ==> groups[k][0] < groups[l][0])
    && (forall k :: 0 <= k < |groups| ==> groups[k] != [] && i <= groups[k][0])
  }

  ghost predicate CompleteAmong(n: nat, joins: Rule, merged: set<nat>, groups: seq<seq<nat>>, members: seq<nat>) {
    && members != []
    && forall j: nat :: members[0] < j < n && j !in members && j !in merged && !TakenBefore(groups, members[0], j) ==>
      PassedOver(joins, members, j)
  }

  lemma TakenInFront(g: seq<nat>, rest: seq<seq<nat>>, i: nat, j: nat)
    ensures TakenBefore([g] + rest, i, j) <==> (g != [] && g[0] < i && j in g) || TakenBefore(rest, i, j)
  {
    var groups := [g] + rest;
    assert groups[0] == g && forall k :: 0 <= k < |rest| ==> groups[k + 1] == rest[k];
    if TakenBefore(groups, i, j) {
      var k :| 0 <= k < |groups| && groups[k] != [] && groups[k][0] < i && j in groups[k];
      assert k > 0 ==> groups[k] == rest[k - 1];
    }
  }

  lemma SomeInFront(g: seq<nat>, rest: seq<seq<nat>>, j: nat)
    ensures InSome([g] + rest, j) <==> j in g || InSome(rest, j)
  {
    var groups := [g] + rest;
    assert groups[0] == g && forall k :: 0 <= k < |rest| ==> groups[k + 1] == rest[k];
    if InSome(groups, j) {
      var k :| 0 <= k < |groups| && j in groups[k];
      assert k > 0 ==> groups[k] == rest[k - 1];
    }
  }

  lemma TailElements(g: seq<nat>, j: nat)
    requires g != []
    ensures j in Elements(g[1..]) ==> j in g
    ensures j in g && j != g[0] ==> j in Elements(g[1..])
  {
    if j in g && j != g[0] {
      var k :| 0 <= k < |g| && g[k] == j;
      assert g[1..][k - 1] == j;
    }
  }

  lemma StillComplete(n: nat, joins: Rule, merged: set<nat>, g: seq<nat>, rest: seq<seq<nat>>, members: seq<nat>)
    requires g != [] && members != [] && members[0] > g[0] && CompleteAmong(n, joins, merged + Elements(g[1..]), rest, members)
    ensures CompleteAmong(n, joins, merged, [g] + rest, members)
  {
    forall j: nat | members[0] < j < n && j !in members && j !in merged && !TakenBefore([g] + rest, members[0], j)
      ensures PassedOver(joins, members, j)
    {
      TakenInFront(g, rest, members[0], j);
      TailElements(g, j);
    }
  }

  lemma FrontIsComplete(n: nat, joins: Rule, merged: set<nat>, g: seq<nat>, rest: seq<seq<nat>>)
    requires g != [] && CompleteTo(n, joins, merged, g, n)
    ensures CompleteAmong(n, joins, merged, [g] + rest, g)
  {
  }

  lemma EachIsComplete(n: nat, joins: Rule, merged: set<nat>, g: seq<nat>, rest: seq<seq<nat>>, k: nat)
    requires g != [] && CompleteTo(n, joins, merged, g, n) && k <= |rest|
    requires GreedyFrom(n, joins, g[0] + 1, merged + Elements(g[1..]), rest)
    ensures ([g] + rest)[k] != [] && g[0] <= ([g] + rest)[k][0] && (k > 0 ==> g[0] < ([g] + rest)[k][0])
    ensures CompleteAmong(n, joins, merged, [g] + rest, ([g] + rest)[k])
  {
    if k == 0 {
      FrontIsComplete(n, joins, merged, g, rest);
    } else {
      assert ([g] + rest)[k] == rest[k - 1];
      StillComplete(n, joins, merged, g, rest, rest[k - 1]);
    }
  }

  lemma LoneIsComplete(n: nat, joins: Rule, merged: set<nat>, g: seq<nat>, rest: seq<seq<nat>>, x: nat)
    requires g != [] && GreedyFrom(n, joins, g[0] + 1, merged + Elements(g[1..]), rest)
    requires g[0] <= x < n && x !in merged && !InSome([g] + rest, x)
    ensures CompleteAmong(n, joins, merged, [g] + rest, [x])
  {
    SomeInFront(g, rest, x);
    TailElements(g, x);
    StillComplete(n, joins, merged, g, rest, [x]);
  }

  /** A group in front, whose later members the others do not see. */
  lemma GroupInFront(n: nat, joins: Rule, merged: set<nat>, g: seq<nat>, rest: seq<seq<nat>>)
    requires g != [] && CompleteTo(n, joins, merged, g, n)
    requires GreedyFrom(n, joins, g[0] + 1, merged + Elements(g[1..]), rest)
    ensures GreedyFrom(n, joins, g[0], merged, [g] + rest)
  {
    var groups := [g] + rest;
    forall k: nat | k < |groups|
      ensures groups[k] != [] && g[0] <= groups[k][0] && (k > 0 ==> g[0] < groups[k][0])
      ensures CompleteAmong(n, joins, merged, groups, groups[k])
    {
      EachIsComplete(n, joins, merged, g, rest, k);
    }
    forall k, l | 0 <= k < l < |groups|
      ensures groups[k][0] < groups[l][0]
    {
      assert groups[l] == rest[l - 1] && (k > 0 ==> groups[k] == rest[k - 1]);
    }
    forall x: nat | g[0] <= x < n && x !in merged && !InSome(groups, x)
      ensures CompleteAmong(n, joins, merged, groups, [x])
    {
      LoneIsComplete(n, joins, merged, g, rest, x);
    }
  }

  /** A position alone, with nobody to join it. */
  lemma AloneInFront(n: nat, joins: Rule, i: nat, merged: set<nat>, rest: seq<seq<nat>>)
    requires i < n && (i !in merged ==> CompleteTo(n, joins, merged, [i], n)) && GreedyFrom(n, joins, i + 1, merged, rest)
    ensures GreedyFrom(n, joins, i, merged, rest)
  {
  }

  lemma NobodyJoined(g: seq<nat>, i: nat, merged: set<nat>)
    requires |g| == 1 && g[0] == i
    ensures g == [i] && merged + Elements(g[1..]) == merged
  {
    assert g[1..] == [];
  }

  /** The group that position i begins, and the groups after it. */
  lemma FirstGroup(n: nat, joins: Rule, i: nat, merged: set<nat>) returns (g: seq<nat>, rest: seq<seq<nat>>)
    requires i < n && i !in merged
    ensures g != [] && g[0] == i && CompleteTo(n, joins, merged, g, n)
    ensures rest == Groups(n, joins, i + 1, merged + Elements(g[1..]))
    ensures Groups(n, joins, i, merged) == (if |g| > 1 then [g] else []) + rest
  {
    g := Gather(n, joins, merged, [i], i + 1);
    rest := Groups(n, joins, i + 1, merged + Elements(g[1..]));
    GatherIsComplete(n, joins, merged, [i], i + 1, g);
  }

  lemma {:induction false} GroupsAreGreedyFrom(n: nat, joins: Rule, i: nat, merged: set<nat>, groups: seq<seq<nat>>)
    requires i <= n && groups == Groups(n, joins, i, merged)
    ensures GreedyFrom(n, joins, i, merged, groups)
    decreases n - i
  {
    if i < n {
      if i in merged {
        GroupsAreGreedyFrom(n, joins, i + 1, merged, groups);
        AloneInFront(n, joins, i, merged, groups);
      } else {
        var g, rest := FirstGroup(n, joins, i, merged);
        GroupsAreGreedyFrom(n, joins, i + 1, merged + Elements(g[1..]), rest);
        NextIsGreedy(n, joins, i, merged, g, rest);
      }
    }
  }

  lemma NextIsGreedy(n: nat, joins: Rule, i: nat, merged: set<nat>, g: seq<nat>, rest: seq<seq<nat>>)
    requires i < n && g != [] && g[0] == i && CompleteTo(n, joins, merged, g, n)
    requires GreedyFrom(n, joins, i + 1, merged + Elements(g[1..]), rest)
    ensures GreedyFrom(n, joins, i, merged, (if |g| > 1 then [g] else []) + rest)
  {
    if |g| > 1 {
      GroupInFront(n, joins, merged, g, rest);
    } else {
      NobodyJoined(g, i, merged);
      AloneInFront(n, joins, i, merged, rest);
      assert [] + rest == rest;
    }
  }
}
