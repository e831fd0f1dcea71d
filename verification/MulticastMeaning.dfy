/** What the multicast optimizer returns: every send once, nothing lost
    (compiler/src/mcast/mcast_optimizer.cpp:42-65, 165-207). */
module MulticastMeaning {
  import opened Sequences
  import opened GreedyGroups
  import opened Multicast

  // ----- What the optimizer returns -----

  predicate AllMembers(n: nat, groups: seq<seq<nat>>) {
    forall k :: 0 <= k < |groups| ==> Members(n, groups[k])
  }

  function Casts(sends: seq<McSend>, groups: seq<seq<nat>>): (r: seq<SuperCast>)
    requires AllMembers(|sends|, groups)
    ensures |r| == |groups| && Tagged(r) && forall k :: 0 <= k < |groups| ==> r[k] == CastOf(sends, groups[k])
  {
    seq(|groups|, k requires 0 <= k < |groups| => CastOf(sends, groups[k]))
  }

  /** A send that stands for the members of a group: their first tag, one sender, the payload
      sum in 64 bits, exactly the union of their channels and, each once, of their
      receivers. */
  ghost predicate StandsFor(sends: seq<McSend>, ms: McSend, members: seq<nat>)
    requires Members(|sends|, members)
  {
    && ms.tag == sends[members[0]].tag
    && ms.sender_nsp == sends[members[0]].sender_nsp
    && ms.payload_size == Wrap64(PayloadSum(sends, members))
    && ms.num_mcids == |ms.mcids| && (forall x :: x in ms.mcids <==> SomeMcid(sends, members, x))
    && (Distinct(sends[members[0]].mcids) ==> Distinct(ms.mcids))
    && Distinct(ms.receivers) && (forall x :: x in ms.receivers <==> SomeReceiver(sends, members, x))
  }

  predicate Payloads64(sends: seq<McSend>) {
    forall k :: 0 <= k < |sends| ==> Fits64(sends[k].payload_size)
  }

  lemma OneSupercast(sends: seq<McSend>, members: seq<nat>, merged: set<nat>)
    requires UniqueTags(sends) && Payloads64(sends) && Members(|sends|, members)
    requires forall k :: 0 <= k < |members| ==> members[k] !in merged
    ensures CastOf(sends, members).mcsend_tags != []
    ensures StandsFor(sends, MergedSend(sends, CastOf(sends, members), merged), members)
    ensures Collect(sends, CastOf(sends, members).mcsend_tags, merged).merged == merged + Elements(members)
  {
    CastMeaning(sends, members);
    if Distinct(sends[members[0]].mcids) { CastDistinct(sends, members); }
    assert CastOf(sends, members).mcsend_tags == TagsOf(sends, members);
    CollectFindsMembers(sends, members, merged);
  }

  lemma {:induction false} GroupsAreMerged(sends: seq<McSend>, groups: seq<seq<nat>>, merged: set<nat>)
    requires UniqueTags(sends) && Payloads64(sends) && AllMembers(|sends|, groups) && Distinct(Flatten(groups))
    requires forall x :: x in Flatten(groups) ==> x !in merged
    ensures MergedBy(sends, Casts(sends, groups), merged) == merged + Elements(Flatten(groups))
    ensures AllStandFor(sends, MergedSends(sends, Casts(sends, groups), merged), groups)
    decreases |groups|
  {
    if groups == [] {
      assert Elements(Flatten(groups)) == {};
    } else {
      var g, rest := groups[0], groups[1..];
      FlattenHead(groups);
      OneSupercast(sends, g, merged);
      var casts := Casts(sends, groups);
      assert casts[0] == CastOf(sends, g) && casts[1..] == Casts(sends, rest);
      GroupsAreMerged(sends, rest, merged + Elements(g));
      OneMoreStandsFor(sends, MergedSend(sends, casts[0], merged), MergedSends(sends, casts[1..], merged + Elements(g)), groups);
    }
  }

  ghost predicate AllStandFor(sends: seq<McSend>, r: seq<McSend>, groups: seq<seq<nat>>)
    requires AllMembers(|sends|, groups)
  {
    |r| == |groups| && forall k :: 0 <= k < |groups| ==> StandsFor(sends, r[k], groups[k])
  }

  lemma OneMoreStandsFor(sends: seq<McSend>, ms: McSend, r: seq<McSend>, groups: seq<seq<nat>>)
    requires AllMembers(|sends|, groups) && groups != []
    requires StandsFor(sends, ms, groups[0]) && AllStandFor(sends, r, groups[1..])
    ensures AllStandFor(sends, [ms] + r, groups)
  {
    var all := [ms] + r;
    forall k | 0 <= k < |groups|
      ensures StandsFor(sends, all[k], groups[k])
    {
      if k > 0 {
        assert all[k] == r[k - 1] && groups[k] == groups[1..][k - 1];
      }
    }
  }

  lemma FlattenHead(groups: seq<seq<nat>>)
    requires groups != [] && Distinct(Flatten(groups))
    ensures Distinct(Flatten(groups[1..])) && Elements(Flatten(groups)) == Elements(groups[0]) + Elements(Flatten(groups[1..]))
    ensures forall x :: x in groups[0] ==> x in Flatten(groups)
    ensures forall x :: x in Flatten(groups[1..]) ==> x in Flatten(groups) && x !in Elements(groups[0])
  {
    var a, b, f := groups[0], Flatten(groups[1..]), Flatten(groups);
    assert f == a + b;
    assert forall k :: 0 <= k < |b| ==> b[k] == f[|a| + k];
    assert forall k :: 0 <= k < |a| ==> a[k] == f[k];
  }

  // ----- Nothing is lost -----

  function TotalPayload(sends: seq<McSend>): nat {
    if sends == [] then 0 else TotalPayload(sends[..|sends| - 1]) + sends[|sends| - 1].payload_size
  }

  lemma {:induction false} TotalConcat(a: seq<McSend>, b: seq<McSend>)
    ensures TotalPayload(a + b) == TotalPayload(a) + TotalPayload(b)
    decreases |b|
  {
    if b == [] {
      assert a + b == a;
    } else {
      TotalConcat(a, b[..|b| - 1]);
      assert (a + b)[..|a + b| - 1] == a + b[..|b| - 1];
    }
  }

  /** The payload of the first n sends that are not merged. */
  function UnmergedPayload(sends: seq<McSend>, merged: set<nat>, n: nat): nat
    requires n <= |sends|
  {
    if n == 0 then 0 else UnmergedPayload(sends, merged, n - 1) + (if n - 1 in merged then 0 else sends[n - 1].payload_size)
  }

  lemma {:induction false} UnmergedTotal(sends: seq<McSend>, merged: set<nat>, n: nat)
    requires n <= |sends|
    ensures TotalPayload(Unmerged(sends, merged, n)) == UnmergedPayload(sends, merged, n)
  {
    if n > 0 {
      UnmergedTotal(sends, merged, n - 1);
      var front := Unmerged(sends, merged, n - 1);
      if n - 1 !in merged {
        assert (front + [sends[n - 1]])[..|front|] == front;
      } else {
        assert front + [] == front;
      }
    }
  }

  /** Merging position x takes its payload out of what is left. */
  lemma {:induction false} UnmergedWithout(sends: seq<McSend>, merged: set<nat>, x: nat, n: nat)
    requires n <= |sends| && x < |sends| && x !in merged
    ensures UnmergedPayload(sends, merged, n)
         == UnmergedPayload(sends, merged + {x}, n) + (if x < n then sends[x].payload_size else 0)
  {
    if n > 0 {
      UnmergedWithout(sends, merged, x, n - 1);
    }
  }

  lemma {:induction false} UnmergedAll(sends: seq<McSend>, n: nat)
    requires n <= |sends|
    ensures UnmergedPayload(sends, {}, n) == TotalPayload(sends[..n])
  {
    if n > 0 {
      UnmergedAll(sends, n - 1);
      assert sends[..n][..n - 1] == sends[..n - 1];
    }
  }

  /** Members and the others share out the payload. */
  lemma {:induction false} PayloadIsShared(sends: seq<McSend>, members: seq<nat>)
    requires Distinct(members) && Positions(|sends|, members)
    ensures TotalPayload(sends) == PayloadSum(sends, members) + UnmergedPayload(sends, Elements(members), |sends|)
  {
    if members == [] {
      assert Elements(members) == {};
      UnmergedAll(sends, |sends|);
      assert sends[..|sends|] == sends;
    } else {
      var n := |members| - 1;
      var front, x := members[..n], members[n];
      PayloadIsShared(sends, front);
      assert members == front + [x];
      ElementsSnoc(front, x);
      UnmergedWithout(sends, Elements(front), x, |sends|);
    }
  }

  lemma {:induction false} PayloadSumConcat(sends: seq<McSend>, a: seq<nat>, b: seq<nat>)
    requires Positions(|sends|, a)
    requires Positions(|sends|, b)
    ensures PayloadSum(sends, a + b) == PayloadSum(sends, a) + PayloadSum(sends, b)
    decreases |b|
  {
    if b == [] {
      assert a + b == a;
    } else {
      PayloadSumConcat(sends, a, b[..|b| - 1]);
      assert (a + b)[..|a + b| - 1] == a + b[..|b| - 1];
    }
  }

  lemma TotalHead(r: seq<McSend>)
    requires r != []
    ensures TotalPayload(r) == r[0].payload_size + TotalPayload(r[1..])
  {
    assert r == [r[0]] + r[1..];
    TotalConcat([r[0]], r[1..]);
    assert [r[0]][..0] == [];
  }

  /** Sends that store the payloads of groups, in 64 bits. */
  predicate CarryPayloads(sends: seq<McSend>, groups: seq<seq<nat>>, r: seq<McSend>)
    requires AllMembers(|sends|, groups)
  {
    |r| == |groups| && forall k :: 0 <= k < |groups| ==> r[k].payload_size == Wrap64(PayloadSum(sends, groups[k]))
  }

  lemma FlattenPositions(n: nat, groups: seq<seq<nat>>)
    requires groups != [] && Positions(n, Flatten(groups))
    ensures Positions(n, groups[0]) && Positions(n, Flatten(groups[1..]))
  {
    var a, b, f := groups[0], Flatten(groups[1..]), Flatten(groups);
    assert f == a + b;
    assert forall k :: 0 <= k < |b| ==> b[k] == f[|a| + k];
    assert forall k :: 0 <= k < |a| ==> a[k] == f[k];
  }

  /** The payload of the merged sends is that of all members, but for what wrapping drops. */
  lemma {:induction false} MergedPayload(sends: seq<McSend>, groups: seq<seq<nat>>, r: seq<McSend>) returns (c: nat)
    requires AllMembers(|sends|, groups) && CarryPayloads(sends, groups, r) && Positions(|sends|, Flatten(groups))
    ensures TotalPayload(r) + c * 0x1_0000_0000_0000_0000 == PayloadSum(sends, Flatten(groups))
    decreases |groups|
  {
    if groups == [] {
      c := 0;
    } else {
      FlattenPositions(|sends|, groups);
      c := MergedPayload(sends, groups[1..], r[1..]);
      PayloadSumConcat(sends, groups[0], Flatten(groups[1..]));
      TotalHead(r);
      var d := WrapCarries(PayloadSum(sends, groups[0]));
      c := c + d;
    }
  }

  /** The sends that the optimizer returns. */
  function Optimized(sends: seq<McSend>, limit: nat): seq<McSend> {
    GroupsAreGood(|sends|, JoinRule(sends, limit), 0, {});
    Applied(sends, Casts(sends, Groups(|sends|, JoinRule(sends, limit), 0, {})))
  }

  /** The groups the optimizer forms. */
  function GroupsOf(sends: seq<McSend>, limit: nat): (groups: seq<seq<nat>>)
    ensures AllMembers(|sends|, groups)
  {
    GroupsAreGood(|sends|, JoinRule(sends, limit), 0, {});
    Groups(|sends|, JoinRule(sends, limit), 0, {})
  }

  /** With unique tags: one send for each group, standing for exactly its members, and then
      every send in no group, unchanged and in order; groups are disjoint. */
  lemma EverySendOnce(sends: seq<McSend>, limit: nat)
    requires UniqueTags(sends) && Payloads64(sends)
    ensures Distinct(Flatten(GroupsOf(sends, limit))) && Positions(|sends|, Flatten(GroupsOf(sends, limit)))
    ensures var (groups, r) := (GroupsOf(sends, limit), Optimized(sends, limit));
            && |r| >= |groups| && (forall k :: 0 <= k < |groups| ==> StandsFor(sends, r[k], groups[k]))
            && r[|groups|..] == Unmerged(sends, Elements(Flatten(groups)), |sends|)
  {
    var groups := GroupsOf(sends, limit);
    GroupsAreDisjoint(sends, limit);
    GroupsAreMerged(sends, groups, {});
    AppliedGroups(sends, groups, Casts(sends, groups));
  }

  lemma AppliedGroups(sends: seq<McSend>, groups: seq<seq<nat>>, supercasts: seq<SuperCast>)
    requires Tagged(supercasts) && |MergedSends(sends, supercasts, {})| == |groups|
    requires MergedBy(sends, supercasts, {}) == {} + Elements(Flatten(groups))
    ensures var r := Applied(sends, supercasts);
            && r[..|groups|] == MergedSends(sends, supercasts, {})
            && r[|groups|..] == Unmerged(sends, Elements(Flatten(groups)), |sends|)
  {
    assert {} + Elements(Flatten(groups)) == Elements(Flatten(groups));
  }

  lemma GroupsAreDisjoint(sends: seq<McSend>, limit: nat)
    ensures Distinct(Flatten(GroupsOf(sends, limit))) && Positions(|sends|, Flatten(GroupsOf(sends, limit)))
  {
    GroupsAreGood(|sends|, JoinRule(sends, limit), 0, {});
    var f := Flatten(GroupsOf(sends, limit));
    assert forall k :: 0 <= k < |f| ==> f[k] in f;
  }

  /** Every group has one sender, and what its send stores as payload is within the limit. */
  lemma GroupsAreFeasible(sends: seq<McSend>, limit: nat, k: nat)
    requires UniqueTags(sends) && Payloads64(sends) && k < |GroupsOf(sends, limit)|
    ensures var members := GroupsOf(sends, limit)[k];
            && |members| > 1
            && (forall l :: 0 <= l < |members| ==> sends[members[l]].sender_nsp == sends[members[0]].sender_nsp)
            && (limit > 0 ==> Wrap64(PayloadSum(sends, members)) <= limit)
  {
    GroupsAreGood(|sends|, JoinRule(sends, limit), 0, {});
    var members := GroupsOf(sends, limit)[k];
    assert GoodGroup(|sends|, JoinRule(sends, limit), members);
    GroupIsFeasible(sends, limit, members);
    CastMeaning(sends, members);
  }

  /** Total payload is conserved, but for what wrapping to 64 bits drops; that is nothing
      when the total fits. */
  lemma PayloadIsConserved(sends: seq<McSend>, limit: nat) returns (c: nat)
    requires UniqueTags(sends) && Payloads64(sends)
    ensures TotalPayload(Optimized(sends, limit)) + c * 0x1_0000_0000_0000_0000 == TotalPayload(sends)
    ensures Fits64(TotalPayload(sends)) ==> TotalPayload(Optimized(sends, limit)) == TotalPayload(sends)
  {
    EverySendOnce(sends, limit);
    c := ConservedFrom(sends, GroupsOf(sends, limit), Optimized(sends, limit));
  }

  lemma ConservedFrom(sends: seq<McSend>, groups: seq<seq<nat>>, r: seq<McSend>) returns (c: nat)
    requires AllMembers(|sends|, groups) && Distinct(Flatten(groups)) && Positions(|sends|, Flatten(groups))
    requires |r| >= |groups| && forall k :: 0 <= k < |groups| ==> StandsFor(sends, r[k], groups[k])
    requires r[|groups|..] == Unmerged(sends, Elements(Flatten(groups)), |sends|)
    ensures TotalPayload(r) + c * 0x1_0000_0000_0000_0000 == TotalPayload(sends)
  {
    PayloadsCarried(sends, groups, r);
    c := MergedPayload(sends, groups, r[..|groups|]);
    TotalSplit(r, |groups|);
    PayloadIsShared(sends, Flatten(groups));
    UnmergedTotal(sends, Elements(Flatten(groups)), |sends|);
  }

  lemma PayloadsCarried(sends: seq<McSend>, groups: seq<seq<nat>>, r: seq<McSend>)
    requires AllMembers(|sends|, groups) && |r| >= |groups|
    requires forall k :: 0 <= k < |groups| ==> StandsFor(sends, r[k], groups[k])
    ensures CarryPayloads(sends, groups, r[..|groups|])
  {
  }

  lemma TotalSplit(r: seq<McSend>, n: nat)
    requires n <= |r|
    ensures TotalPayload(r) == TotalPayload(r[..n]) + TotalPayload(r[n..])
  {
    assert r == r[..n] + r[n..];
    TotalConcat(r[..n], r[n..]);
  }
}
