/** Greedy grouping by a rule: each position not taken yet gathers the later ones that may
    join it (compiler/src/mcast/mcast_optimizer.cpp:89-133). */
module GreedyGroups {
  import opened Sequences

  /** Whether a position may join the members so far. */
  type Rule = (seq<nat>, nat) -> bool

  predicate Positions(n: nat, s: seq<nat>) {
    forall k :: 0 <= k < |s| ==> s[k] < n
  }

  /** Valid member lists: ascending positions. */
  predicate Members(n: nat, members: seq<nat>) {
    && members != []
    && Positions(n, members)
    && (forall k, l :: 0 <= k < l < |members| ==> members[k] < members[l])
  }

  /** Scan the sends from j for those that join. */
  function Gather(n: nat, joins: Rule, merged: set<nat>, members: seq<nat>, j: nat): (r: seq<nat>)
    requires Members(n, members) && members[|members| - 1] < j <= n
    ensures Members(n, r) && members <= r
    ensures forall k :: |members| <= k < |r| ==> r[k] !in merged && j <= r[k]
    decreases n - j
  {
    if j == n then members
    else if j !in merged && joins(members, j) then
      Gather(n, joins, merged, members + [j], j + 1)
    else
      Gather(n, joins, merged, members, j + 1)
  }

  /** The groups of two and more that the sends from i on form. */
  function Groups(n: nat, joins: Rule, i: nat, merged: set<nat>): seq<seq<nat>>
    requires i <= n
    decreases n - i
  {
    if i == n then []
    else if i in merged then Groups(n, joins, i + 1, merged)
    else
      var g := Gather(n, joins, merged, [i], i + 1);
      (if |g| > 1 then [g] else []) + Groups(n, joins, i + 1, merged + Elements(g[1..]))
  }

  /** Every member after the first joined those before it by the rule. */
  predicate ByRule(joins: Rule, members: seq<nat>) {
    forall k :: 1 <= k < |members| ==> joins(members[..k], members[k])
  }

  lemma ByRuleSnoc(joins: Rule, members: seq<nat>, j: nat)
    requires members != [] && ByRule(joins, members) && joins(members, j)
    ensures ByRule(joins, members + [j])
  {
    var more := members + [j];
    forall k | 1 <= k < |more|
      ensures joins(more[..k], more[k])
    {
      if k < |members| {
        assert more[..k] == members[..k];
      } else {
        assert more[..k] == members;
      }
    }
  }

  lemma {:induction false} GatherByRule(n: nat, joins: Rule, merged: set<nat>, members: seq<nat>, j: nat)
    requires Members(n, members) && members[|members| - 1] < j <= n && ByRule(joins, members)
    ensures ByRule(joins, Gather(n, joins, merged, members, j))
    decreases n - j
  {
    if j < n {
      if j !in merged && joins(members, j) {
        ByRuleSnoc(joins, members, j);
        GatherByRule(n, joins, merged, members + [j], j + 1);
      } else {
        GatherByRule(n, joins, merged, members, j + 1);
      }
    }
  }

  /** Positions of all groups, one after the other. */
  function Flatten(groups: seq<seq<nat>>): seq<nat> {
    if groups == [] then [] else groups[0] + Flatten(groups[1..])
  }

  /** A group is of two and more, by the rule. */
  predicate GoodGroup(n: nat, joins: Rule, members: seq<nat>) {
    Members(n, members) && |members| > 1 && ByRule(joins, members)
  }

  /** Groups are of positions from i on that are not merged yet; no position is in two
      groups, or twice in one. */
  ghost predicate GoodGroups(n: nat, joins: Rule, i: nat, merged: set<nat>, groups: seq<seq<nat>>) {
    && (forall k :: 0 <= k < |groups| ==> GoodGroup(n, joins, groups[k]))
    && (forall x :: x in Flatten(groups) ==> i <= x < n && x !in merged)
    && Distinct(Flatten(groups))
  }

  lemma DistinctConcat(a: seq<nat>, b: seq<nat>)
    requires Distinct(a) && Distinct(b) && forall x :: x in a ==> x !in b
    ensures Distinct(a + b)
  {
    var r := a + b;
    forall i, j | 0 <= i < j < |r|
      ensures r[i] != r[j]
    {
      assert i < |a| ==> r[i] in a;
      assert j >= |a| ==> r[j] in b;
    }
  }

  lemma OneMoreGroup(n: nat, joins: Rule, merged: set<nat>, g: seq<nat>, rest: seq<seq<nat>>)
    requires GoodGroup(n, joins, g) && forall k :: 0 <= k < |g| ==> g[k] !in merged
    requires GoodGroups(n, joins, g[0] + 1, merged + Elements(g[1..]), rest)
    ensures GoodGroups(n, joins, g[0], merged, [g] + rest)
  {
    var groups := [g] + rest;
    assert groups[1..] == rest;
    forall x | x in g
      ensures g[0] <= x < n && x !in merged && x !in Flatten(rest)
    {
      var k :| 0 <= k < |g| && g[k] == x;
      assert k > 0 ==> g[1..][k - 1] == x && x in Elements(g[1..]);
    }
    DistinctConcat(g, Flatten(rest));
    assert forall x :: x in Flatten(groups) ==> x in g || x in Flatten(rest);
  }

  lemma NoGroup(n: nat, joins: Rule, i: nat, merged: set<nat>, more: set<nat>, rest: seq<seq<nat>>)
    requires merged <= more && GoodGroups(n, joins, i + 1, more, rest)
    ensures GoodGroups(n, joins, i, merged, rest)
  {
  }

  lemma {:induction false} GroupsAreGood(n: nat, joins: Rule, i: nat, merged: set<nat>)
    requires i <= n
    ensures GoodGroups(n, joins, i, merged, Groups(n, joins, i, merged))
    decreases n - i
  {
    if i < n {
      if i in merged {
        GroupsAreGood(n, joins, i + 1, merged);
        NoGroup(n, joins, i, merged, merged, Groups(n, joins, i + 1, merged));
      } else {
        var g := Gather(n, joins, merged, [i], i + 1);
        GatherByRule(n, joins, merged, [i], i + 1);
        var more := merged + Elements(g[1..]);
        var rest := Groups(n, joins, i + 1, more);
        GroupsAreGood(n, joins, i + 1, more);
        if |g| > 1 {
          OneMoreGroup(n, joins, merged, g, rest);
          assert Groups(n, joins, i, merged) == [g] + rest;
        } else {
          NoGroup(n, joins, i, merged, more, rest);
          assert Groups(n, joins, i, merged) == [] + rest == rest;
        }
      }
    }
  }
}
