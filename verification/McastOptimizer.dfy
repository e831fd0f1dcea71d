/** The multicast optimizer, step by step (compiler/src/mcast/mcast_optimizer.cpp:15-133, 165-207). */
module McastOptimizerState {
  import opened Sequences
  import opened GreedyGroups
  import opened Multicast
  import opened MulticastMeaning
  import opened GreedyMerging

  class McastOptimizer {
    const max_mcast_buffer_size: nat
    var last_original_count: nat
    var last_supercast_count: nat
    var last_result_count: nat

    constructor (max_mcast_buffer_size: nat)
      ensures this.max_mcast_buffer_size == max_mcast_buffer_size
    {
      this.max_mcast_buffer_size := max_mcast_buffer_size;
      last_original_count, last_supercast_count, last_result_count := 0, 0, 0;
    }

    /** Group the sends, merge each group into one send and keep the others. */
    method Optimize(mcsends: seq<McSend>) returns (result: seq<McSend>)
      modifies this
      ensures result == Optimized(mcsends, max_mcast_buffer_size)
      ensures last_original_count == |mcsends| && last_result_count == |result|
      ensures last_supercast_count == |GroupsOf(mcsends, max_mcast_buffer_size)|
      ensures UniqueTags(mcsends) && Payloads64(mcsends) ==>
        exists groups :: Greedy(mcsends, max_mcast_buffer_size, groups) && MergedInto(mcsends, groups, result) && last_supercast_count == |groups|
    {
      last_original_count := |mcsends|;
      var supercasts := BuildSupercasts(mcsends);
      last_supercast_count := |supercasts|;
      result := ApplyResults(mcsends, supercasts);
      last_result_count := |result|;
      if UniqueTags(mcsends) && Payloads64(mcsends) {
        OptimizedIsGreedy(mcsends, max_mcast_buffer_size);
      }
    }

    /** Greedy: each send not merged yet gathers the later ones that may join it. */
    method BuildSupercasts(mcsends: seq<McSend>) returns (supercasts: seq<SuperCast>)
      ensures supercasts == Casts(mcsends, GroupsOf(mcsends, max_mcast_buffer_size))
    {
      supercasts := [];
      var merged: set<nat> := {};
      ghost var groups: seq<seq<nat>> := [];
      var i := 0;
      while i < |mcsends|
        invariant 0 <= i <= |mcsends|
        invariant Building(mcsends, max_mcast_buffer_size, i, merged, groups, supercasts)
      {
        if i in merged {
          BuildingSkips(mcsends, max_mcast_buffer_size, i, merged, groups, supercasts);
        } else {
          var sc, joined, members := GatherFrom(mcsends, merged, i);
          BuildingAdds(mcsends, max_mcast_buffer_size, i, merged, groups, supercasts, members);
          merged := merged + joined;
          if |sc.mcsend_tags| > 1 {
            supercasts := supercasts + [sc];
            groups := groups + [members];
          }
        }
        i := i + 1;
      }
    }

    /** The supercast that send i begins, and the sends it takes. */
    method GatherFrom(mcsends: seq<McSend>, merged: set<nat>, i: nat) returns (sc: SuperCast, joined: set<nat>, ghost members: seq<nat>)
      requires i < |mcsends|
      ensures members == Gather(|mcsends|, JoinRule(mcsends, max_mcast_buffer_size), merged, [i], i + 1)
      ensures sc == CastOf(mcsends, members) && joined == Elements(members[1..]) && |sc.mcsend_tags| == |members|
    {
      var first := mcsends[i];
      sc := SuperCast([first.tag], first.mcids, first.sender_nsp, first.payload_size);
      joined := {};
      members := [i];
      var j := i + 1;
      while j < |mcsends|
        invariant i < j <= |mcsends|
        invariant Gathering(mcsends, max_mcast_buffer_size, merged, i, j, members, sc, joined)
      {
        sc, joined, members := GatherOne(mcsends, merged, i, j, sc, joined, members);
        j := j + 1;
      }
      CastTags(mcsends, members);
    }

    /** Send j, unless it is merged already, joins if it may. */
    method GatherOne(mcsends: seq<McSend>, merged: set<nat>, i: nat, j: nat, sc0: SuperCast, joined0: set<nat>, ghost members0: seq<nat>)
        returns (sc: SuperCast, joined: set<nat>, ghost members: seq<nat>)
      requires i < j < |mcsends| && Gathering(mcsends, max_mcast_buffer_size, merged, i, j, members0, sc0, joined0)
      ensures Gathering(mcsends, max_mcast_buffer_size, merged, i, j + 1, members, sc, joined)
    {
      sc, joined, members := sc0, joined0, members0;
      var joins := false;
      if j !in merged {
        joins, sc := TryJoin(mcsends, i, j, sc);
      }
      if joins {
        GatheringJoins(mcsends, max_mcast_buffer_size, merged, i, j, members, sc0, joined);
        joined := joined + {j};
        members := members + [j];
      } else {
        GatheringSkips(mcsends, max_mcast_buffer_size, merged, i, j, members, sc0, joined);
      }
    }

    /** Send j joins the supercast of send i if channels overlap and the two may merge. */
    method TryJoin(mcsends: seq<McSend>, i: nat, j: nat, sc: SuperCast) returns (joins: bool, sc': SuperCast)
      requires i < |mcsends| && j < |mcsends|
      ensures joins == Joins(mcsends, max_mcast_buffer_size, sc, i, j)
      ensures sc' == if joins then Joined(sc, mcsends[j]) else sc
    {
      sc' := sc;
      joins := FindOverlap(sc.mcids, mcsends[j].mcids);
      if joins {
        var new_payload := Add64(sc.total_payload, mcsends[j].payload_size);
        joins := MayMerge(mcsends[i], mcsends[j], new_payload);
        if joins {
          var mcids := AppendNew(sc.mcids, mcsends[j].mcids);
          sc' := SuperCast(sc.mcsend_tags + [mcsends[j].tag], mcids, sc.sender_nsp, new_payload);
        }
      }
    }

    method FindOverlap(mcids: seq<nat>, other: seq<nat>) returns (overlap: bool)
      ensures overlap == Overlap(mcids, other)
    {
      overlap := false;
      var k := 0;
      while k < |other| && !overlap
        invariant 0 <= k <= |other|
        invariant overlap ==> Overlap(mcids, other)
        invariant !overlap ==> forall l :: 0 <= l < k ==> other[l] !in mcids
      {
        var l := 0;
        while l < |mcids| && !overlap
          invariant 0 <= l <= |mcids|
          invariant overlap ==> other[k] in mcids
          invariant !overlap ==> other[k] !in mcids[..l]
        {
          if mcids[l] == other[k] { overlap := true; }
          l := l + 1;
        }
        k := k + 1;
      }
    }

    method MayMerge(a: McSend, b: McSend, merged_payload: nat) returns (ok: bool)
      ensures ok == CanMerge(a, b, merged_payload, max_mcast_buffer_size)
    {
      if a.sender_nsp != b.sender_nsp {
        return false;
      }
      if max_mcast_buffer_size > 0 && merged_payload > max_mcast_buffer_size {
        return false;
      }
      var conflict := FindConflict(a.receivers, b.receivers);
      return !conflict;
    }

    method FindConflict(ra: seq<nat>, rb: seq<nat>) returns (conflict: bool)
      ensures conflict == ReceiversConflict(ra, rb)
    {
      var set_a := Elements(ra);
      var common := 0;
      var i := 0;
      while i < |rb|
        invariant 0 <= i <= |rb|
        invariant common == Common(ra, rb[..i])
      {
        assert rb[..i + 1][..i] == rb[..i];
        assert rb[i] in set_a <==> rb[i] in ra;
        if rb[i] in set_a {
          common := common + 1;
        }
        i := i + 1;
      }
      assert rb[..i] == rb;
      conflict := common != 0 && common != |rb| && common != |set_a|;
    }

    method AppendNew(a: seq<nat>, b: seq<nat>) returns (r: seq<nat>)
      ensures r == Union(a, b)
    {
      r := a;
      var i := 0;
      while i < |b|
        invariant 0 <= i <= |b|
        invariant r == Union(a, b[..i])
      {
        assert b[..i + 1][..i] == b[..i];
        if b[i] !in r {
          r := r + [b[i]];
        }
        i := i + 1;
      }
      assert b[..i] == b;
    }

    /** One send for each supercast, then the sends that no supercast took. */
    method ApplyResults(original: seq<McSend>, supercasts: seq<SuperCast>) returns (result: seq<McSend>)
      requires Tagged(supercasts)
      ensures result == Applied(original, supercasts)
    {
      result := [];
      var merged: set<nat> := {};
      var c := 0;
      while c < |supercasts|
        invariant 0 <= c <= |supercasts|
        invariant MergedSends(original, supercasts, {}) == result + MergedSends(original, supercasts[c..], merged)
        invariant MergedBy(original, supercasts, {}) == MergedBy(original, supercasts[c..], merged)
      {
        assert supercasts[c..][0] == supercasts[c] && supercasts[c..][1..] == supercasts[c + 1..];
        var merged_send, merged' := ApplyOne(original, supercasts[c], merged);
        result := result + [merged_send];
        merged := merged';
        c := c + 1;
      }
      ghost var merged_sends := result;
      var i := 0;
      while i < |original|
        invariant 0 <= i <= |original|
        invariant result == merged_sends + Unmerged(original, merged, i)
      {
        if i !in merged {
          result := result + [original[i]];
        }
        i := i + 1;
      }
    }

    method ApplyOne(original: seq<McSend>, sc: SuperCast, merged: set<nat>) returns (merged_send: McSend, merged': set<nat>)
      requires sc.mcsend_tags != []
      ensures merged_send == MergedSend(original, sc, merged)
      ensures merged' == Collect(original, sc.mcsend_tags, merged).merged
    {
      merged' := merged;
      var receivers := [];
      var t := 0;
      while t < |sc.mcsend_tags|
        invariant 0 <= t <= |sc.mcsend_tags|
        invariant Collected(merged', receivers) == Collect(original, sc.mcsend_tags[..t], merged)
      {
        assert sc.mcsend_tags[..t + 1][..t] == sc.mcsend_tags[..t];
        var i := 0;
        while i < |original| && !(original[i].tag == sc.mcsend_tags[t] && i !in merged')
          invariant 0 <= i <= |original|
          invariant FirstUnmerged(original, sc.mcsend_tags[t], merged', i) == FirstUnmerged(original, sc.mcsend_tags[t], merged', 0)
        {
          i := i + 1;
        }
        if i < |original| {
          merged' := merged' + {i};
          receivers := AppendNew(receivers, original[i].receivers);
        }
        t := t + 1;
      }
      assert sc.mcsend_tags[..t] == sc.mcsend_tags;
      merged_send := McSend(sc.mcsend_tags[0], sc.sender_nsp, |sc.mcids|, sc.total_payload, sc.mcids, receivers);
    }
  }

  /** The groups and supercasts so far, before send i. */
  ghost predicate Building(sends: seq<McSend>, limit: nat, i: nat, merged: set<nat>, groups: seq<seq<nat>>, supercasts: seq<SuperCast>)
    requires i <= |sends|
  {
    && AllMembers(|sends|, groups) && supercasts == Casts(sends, groups)
    && GroupsOf(sends, limit) == groups + Groups(|sends|, JoinRule(sends, limit), i, merged)
  }

  lemma BuildingSkips(sends: seq<McSend>, limit: nat, i: nat, merged: set<nat>, groups: seq<seq<nat>>, supercasts: seq<SuperCast>)
    requires i < |sends| && Building(sends, limit, i, merged, groups, supercasts) && i in merged
    ensures Building(sends, limit, i + 1, merged, groups, supercasts)
  {
  }

  lemma BuildingAdds(sends: seq<McSend>, limit: nat, i: nat, merged: set<nat>, groups: seq<seq<nat>>, supercasts: seq<SuperCast>, members: seq<nat>)
    requires i < |sends| && Building(sends, limit, i, merged, groups, supercasts) && i !in merged
    requires members == Gather(|sends|, JoinRule(sends, limit), merged, [i], i + 1)
    ensures var more := merged + Elements(members[1..]);
            if |members| > 1 then Building(sends, limit, i + 1, more, groups + [members], supercasts + [CastOf(sends, members)])
            else Building(sends, limit, i + 1, more, groups, supercasts)
  {
    GroupsStep(sends, limit, i, merged, groups);
    CastsSnoc(sends, groups, members);
  }

  /** The members, supercast and joined sends so far, before send j. */
  ghost predicate Gathering(sends: seq<McSend>, limit: nat, merged: set<nat>, i: nat, j: nat, members: seq<nat>, sc: SuperCast, joined: set<nat>)
    requires i < j <= |sends|
  {
    && Members(|sends|, members) && members[0] == i && members[|members| - 1] < j
    && sc == CastOf(sends, members) && joined == Elements(members[1..])
    && Gather(|sends|, JoinRule(sends, limit), merged, members, j) == Gather(|sends|, JoinRule(sends, limit), merged, [i], i + 1)
  }

  /** A supercast with one more send. */
  function Joined(sc: SuperCast, ms: McSend): SuperCast {
    SuperCast(sc.mcsend_tags + [ms.tag], Union(sc.mcids, ms.mcids), sc.sender_nsp, Add64(sc.total_payload, ms.payload_size))
  }

  lemma GatheringSkips(sends: seq<McSend>, limit: nat, merged: set<nat>, i: nat, j: nat, members: seq<nat>, sc: SuperCast, joined: set<nat>)
    requires i < j < |sends| && Gathering(sends, limit, merged, i, j, members, sc, joined)
    requires j in merged || !Joins(sends, limit, sc, i, j)
    ensures Gathering(sends, limit, merged, i, j + 1, members, sc, joined)
  {
  }

  lemma GatheringJoins(sends: seq<McSend>, limit: nat, merged: set<nat>, i: nat, j: nat, members: seq<nat>, sc: SuperCast, joined: set<nat>)
    requires i < j < |sends| && Gathering(sends, limit, merged, i, j, members, sc, joined)
    requires j !in merged && Joins(sends, limit, sc, i, j)
    ensures Gathering(sends, limit, merged, i, j + 1, members + [j], Joined(sc, sends[j]), joined + {j})
  {
    JoinedSnoc(members, j);
    CastSnoc(sends, members, j);
  }

  /** The groups to come, one send further. */
  lemma GroupsStep(sends: seq<McSend>, limit: nat, i: nat, merged: set<nat>, groups: seq<seq<nat>>)
    requires i < |sends| && i !in merged
    ensures var g := Gather(|sends|, JoinRule(sends, limit), merged, [i], i + 1);
            var before := if |g| > 1 then groups + [g] else groups;
            groups + Groups(|sends|, JoinRule(sends, limit), i, merged) == before + Groups(|sends|, JoinRule(sends, limit), i + 1, merged + Elements(g[1..]))
  {
    var g := Gather(|sends|, JoinRule(sends, limit), merged, [i], i + 1);
    var rest := Groups(|sends|, JoinRule(sends, limit), i + 1, merged + Elements(g[1..]));
    assert Groups(|sends|, JoinRule(sends, limit), i, merged) == (if |g| > 1 then [g] else []) + rest;
    assert groups + ([g] + rest) == groups + [g] + rest;
    assert [] + rest == rest;
  }

  lemma CastSnoc(sends: seq<McSend>, members: seq<nat>, j: nat)
    requires Members(|sends|, members) && members[|members| - 1] < j < |sends|
    ensures Members(|sends|, members + [j])
    ensures CastOf(sends, members + [j]) == Joined(CastOf(sends, members), sends[j])
  {
    assert (members + [j])[..|members|] == members;
  }

  lemma JoinedSnoc(members: seq<nat>, j: nat)
    requires members != []
    ensures Elements((members + [j])[1..]) == Elements(members[1..]) + {j}
  {
    assert (members + [j])[1..] == members[1..] + [j];
    ElementsSnoc(members[1..], j);
  }

  lemma CastsSnoc(sends: seq<McSend>, groups: seq<seq<nat>>, members: seq<nat>)
    requires AllMembers(|sends|, groups) && Members(|sends|, members)
    ensures AllMembers(|sends|, groups + [members])
    ensures Casts(sends, groups + [members]) == Casts(sends, groups) + [CastOf(sends, members)]
  {
    var all := groups + [members];
    assert forall k :: 0 <= k < |groups| ==> all[k] == groups[k];
  }
}
