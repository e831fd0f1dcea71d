/** Which sends the multicast optimizer merges, in terms of the sends alone
    (compiler/src/mcast/mcast_optimizer.cpp:15-65, 89-133, 165-207). */
module GreedyMerging {
  import opened Sequences
  import opened GreedyGroups
  import opened GreedyChoice
  import opened Multicast
  import opened MulticastMeaning

  /** How many of the receivers b, with repetitions, are among a. */
  function Shared(a: seq<nat>, b: seq<nat>): nat {
    |set k: nat | k < |b| && b[k] in a|
  }

  /** The receivers of two sends overlap partly: some of b are in a, not all of b, and not as
      many as there are different ones in a. */
  predicate PartlyOverlap(a: seq<nat>, b: seq<nat>) {
    Shared(a, b) != 0 && Shared(a, b) != |b| && Shared(a, b) != |set x | x in a|
  }

  ghost predicate ShareChannel(sends: seq<McSend>, members: seq<nat>, j: nat)
    requires Positions(|sends|, members) && j < |sends|
  {
    exists k, x :: 0 <= k < |members| && x in sends[members[k]].mcids && x in sends[j].mcids
  }

  /** Send j may join the members so far: it has a channel of one of them, the first one's
      sender, receivers that do not overlap partly with the first one's, and with its payload
      the sum, in 64 bits, is within the limit if there is one. */
  ghost predicate MayJoin(sends: seq<McSend>, limit: nat, members: seq<nat>, j: nat) {
    && members != [] && Positions(|sends|, members) && j < |sends|
    && ShareChannel(sends, members, j)
    && sends[j].sender_nsp == sends[members[0]].sender_nsp
    && !PartlyOverlap(sends[members[0]].receivers, sends[j].receivers)
    && (limit == 0 || (PayloadSum(sends, members) + sends[j].payload_size) % 0x1_0000_0000_0000_0000 <= limit)
  }

  /** Sends in no group that began before could not join this one in their turn. */
  ghost predicate NobodyElse(sends: seq<McSend>, limit: nat, groups: seq<seq<nat>>, members: seq<nat>)
    requires members != []
  {
    forall j: nat :: members[0] < j < |sends| && j !in members && !TakenBefore(groups, members[0], j) ==>
      !MayJoin(sends, limit, Below(members, j), j)
  }

  ghost predicate MembersMayJoin(sends: seq<McSend>, limit: nat, members: seq<nat>) {
    forall l :: 1 <= l < |members| ==> MayJoin(sends, limit, members[..l], members[l])
  }

  /** Groups of two and more sends, ascending, in the order of their first members; each member
      may join those before it; nobody else may; and whoever is alone has nobody to join it. */
  ghost predicate Greedy(sends: seq<McSend>, limit: nat, groups: seq<seq<nat>>) {
    && (forall k :: 0 <= k < |groups| ==> Members(|sends|, groups[k]) && |groups[k]| > 1)
    && Distinct(Flatten(groups))
    && (forall k, l :: 0 <= k < l < |groups| ==> groups[k][0] < groups[l][0])
    && (forall k :: 0 <= k < |groups| ==> MembersMayJoin(sends, limit, groups[k]) && NobodyElse(sends, limit, groups, groups[k]))
    && (forall x: nat :: x < |sends| && !InSome(groups, x) ==> NobodyElse(sends, limit, groups, [x]))
  }

  // ----- The rule of the optimizer is this one -----

  lemma SharedSnoc(a: seq<nat>, b: seq<nat>, x: nat)
    ensures Shared(a, b + [x]) == Shared(a, b) + if x in a then 1 else 0
  {
    var s, t := set k: nat | k < |b + [x]| && (b + [x])[k] in a, set k: nat | k < |b| && b[k] in a;
    assert s == if x in a then t + {|b|} else t;
  }

  lemma {:induction false} CommonIsShared(a: seq<nat>, b: seq<nat>)
    ensures Common(a, b) == Shared(a, b)
    decreases |b|
  {
    if b == [] {
      assert Shared(a, b) == 0;
    } else {
      var front := b[..|b| - 1];
      CommonIsShared(a, front);
      SharedSnoc(a, front, b[|b| - 1]);
      assert b == front + [b[|b| - 1]];
    }
  }

  lemma ConflictIsPartial(a: seq<nat>, b: seq<nat>)
    ensures ReceiversConflict(a, b) <==> PartlyOverlap(a, b)
  {
    CommonIsShared(a, b);
    assert Elements(a) == set x | x in a;
  }

  lemma OverlapIsShared(sends: seq<McSend>, members: seq<nat>, j: nat)
    requires Members(|sends|, members) && j < |sends|
    ensures Overlap(CastOf(sends, members).mcids, sends[j].mcids) <==> ShareChannel(sends, members, j)
  {
    forall x
      ensures x in CastOf(sends, members).mcids <==> SomeMcid(sends, members, x)
    {
      CastMcids(sends, members, x);
    }
    var a, b := CastOf(sends, members).mcids, sends[j].mcids;
    if Overlap(a, b) {
      var q :| 0 <= q < |b| && b[q] in a;
      assert SomeMcid(sends, members, b[q]);
      var k :| 0 <= k < |members| && b[q] in sends[members[k]].mcids;
      assert b[q] in sends[j].mcids;
    }
    if ShareChannel(sends, members, j) {
      var k, x :| 0 <= k < |members| && x in sends[members[k]].mcids && x in b;
      assert SomeMcid(sends, members, x);
      var q :| 0 <= q < |b| && b[q] == x;
    }
  }

  lemma RuleIsMayJoin(sends: seq<McSend>, limit: nat, members: seq<nat>, j: nat)
    requires Payloads64(sends) && Members(|sends|, members) && j < |sends|
    ensures JoinRule(sends, limit)(members, j) <==> MayJoin(sends, limit, members, j)
  {
    OverlapIsShared(sends, members, j);
    ConflictIsPartial(sends[members[0]].receivers, sends[j].receivers);
    CastPayload(sends, members);
    WrapAdds(PayloadSum(sends, members), sends[j].payload_size);
  }

  lemma BelowIsMembers(n: nat, members: seq<nat>, j: nat)
    requires Members(n, members) && members[0] < j
    ensures Members(n, Below(members, j))
  {
    assert Below(members, j) <= members;
  }

  lemma NobodyElseJoins(sends: seq<McSend>, limit: nat, groups: seq<seq<nat>>, members: seq<nat>)
    requires Payloads64(sends) && Members(|sends|, members)
    requires CompleteAmong(|sends|, JoinRule(sends, limit), {}, groups, members)
    ensures NobodyElse(sends, limit, groups, members)
  {
    forall j: nat | members[0] < j < |sends| && j !in members && !TakenBefore(groups, members[0], j)
      ensures !MayJoin(sends, limit, Below(members, j), j)
    {
      BelowIsMembers(|sends|, members, j);
      assert PassedOver(JoinRule(sends, limit), members, j);
      RuleIsMayJoin(sends, limit, Below(members, j), j);
    }
  }

  /** The optimizer's groups are greedy. */
  lemma GroupsAreGreedy(sends: seq<McSend>, limit: nat)
    requires Payloads64(sends)
    ensures Greedy(sends, limit, GroupsOf(sends, limit))
  {
    var groups, rule := GroupsOf(sends, limit), JoinRule(sends, limit);
    GroupsAreGood(|sends|, rule, 0, {});
    GroupsAreGreedyFrom(|sends|, rule, 0, {}, groups);
    forall k | 0 <= k < |groups|
      ensures MembersMayJoin(sends, limit, groups[k]) && NobodyElse(sends, limit, groups, groups[k])
    {
      assert GoodGroup(|sends|, rule, groups[k]) && CompleteAmong(|sends|, rule, {}, groups, groups[k]);
      GroupMembersJoin(sends, limit, groups[k]);
      NobodyElseJoins(sends, limit, groups, groups[k]);
    }
    forall x: nat | x < |sends| && !InSome(groups, x)
      ensures NobodyElse(sends, limit, groups, [x])
    {
      assert CompleteAmong(|sends|, rule, {}, groups, [x]);
      NobodyElseJoins(sends, limit, groups, [x]);
    }
  }

  lemma GroupMembersJoin(sends: seq<McSend>, limit: nat, members: seq<nat>)
    requires Payloads64(sends) && GoodGroup(|sends|, JoinRule(sends, limit), members)
    ensures MembersMayJoin(sends, limit, members)
  {
    forall l | 1 <= l < |members|
      ensures MayJoin(sends, limit, members[..l], members[l])
    {
      assert JoinRule(sends, limit)(members[..l], members[l]);
      RuleIsMayJoin(sends, limit, members[..l], members[l]);
    }
  }

  /** The result of merging groups: one send for each, then every other send in its order. */
  ghost predicate MergedInto(sends: seq<McSend>, groups: seq<seq<nat>>, result: seq<McSend>) {
    && AllMembers(|sends|, groups) && |result| >= |groups| && (forall k :: 0 <= k < |groups| ==> StandsFor(sends, result[k], groups[k]))
    && (exists rest: seq<nat> :: |rest| == |result| - |groups| && IsRest(sends, groups, rest) && AreThose(sends, rest, result[|groups|..]))
  }

  /** The positions in no group, ascending. */
  ghost predicate IsRest(sends: seq<McSend>, groups: seq<seq<nat>>, rest: seq<nat>) {
    && (forall k, l :: 0 <= k < l < |rest| ==> rest[k] < rest[l])
    && (forall x: nat :: x in rest <==> x < |sends| && x !in Flatten(groups))
  }

  ghost predicate AreThose(sends: seq<McSend>, rest: seq<nat>, r: seq<McSend>) {
    |r| == |rest| && forall k :: 0 <= k < |rest| ==> rest[k] < |sends| && r[k] == sends[rest[k]]
  }

  function Rest(merged: set<nat>, n: nat): seq<nat> {
    if n == 0 then [] else Rest(merged, n - 1) + (if n - 1 in merged then [] else [n - 1])
  }

  lemma {:induction false} RestIsAscending(merged: set<nat>, n: nat)
    ensures (forall x: nat :: x in Rest(merged, n) <==> x < n && x !in merged) && forall k :: 0 <= k < |Rest(merged, n)| ==> Rest(merged, n)[k] < n
    ensures forall k, l :: 0 <= k < l < |Rest(merged, n)| ==> Rest(merged, n)[k] < Rest(merged, n)[l]
  {
    if n > 0 {
      RestIsAscending(merged, n - 1);
    }
  }

  lemma {:induction false} UnmergedIsRest(sends: seq<McSend>, merged: set<nat>, n: nat)
    requires n <= |sends|
    ensures AreThose(sends, Rest(merged, n), Unmerged(sends, merged, n))
  {
    if n > 0 {
      UnmergedIsRest(sends, merged, n - 1);
      if n - 1 !in merged {
        OneMoreOfThose(sends, Rest(merged, n - 1), Unmerged(sends, merged, n - 1), n - 1);
      }
    }
  }

  lemma OneMoreOfThose(sends: seq<McSend>, rest: seq<nat>, r: seq<McSend>, x: nat)
    requires AreThose(sends, rest, r) && x < |sends|
    ensures AreThose(sends, rest + [x], r + [sends[x]])
  {
  }

  /** With unique tags, the optimizer merges greedy groups, and nothing else changes. */
  lemma OptimizedIsGreedy(sends: seq<McSend>, limit: nat)
    requires UniqueTags(sends) && Payloads64(sends)
    ensures Greedy(sends, limit, GroupsOf(sends, limit))
    ensures MergedInto(sends, GroupsOf(sends, limit), Optimized(sends, limit))
  {
    var groups := GroupsOf(sends, limit);
    GroupsAreGreedy(sends, limit);
    EverySendOnce(sends, limit);
    UnmergedIsRest(sends, Elements(Flatten(groups)), |sends|);
    var rest := Rest(Elements(Flatten(groups)), |sends|);
    RestIsAscending(Elements(Flatten(groups)), |sends|);
    assert IsRest(sends, groups, rest);
  }
}
