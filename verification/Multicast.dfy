/** Merging multicast sends whose channels overlap, as functions on lists
    (compiler/src/mcast/mcast_optimizer.cpp:15-38, 73-133, 165-207), and what merging keeps.
 */
module Multicast {
  import opened Sequences
  import opened GreedyGroups

  /** One send; tags, NSPs and channel ids are numbers, payloads 64-bit byte counts. */
  datatype McSend = McSend(tag: nat, sender_nsp: nat, num_mcids: nat, payload_size: nat, mcids: seq<nat>, receivers: seq<nat>)

  datatype SuperCast = SuperCast(mcsend_tags: seq<nat>, mcids: seq<nat>, sender_nsp: nat, total_payload: nat)

  function Wrap64(a: nat): (r: nat)
    ensures Fits64(r) && (Fits64(a) ==> r == a)
  {
    a % 0x1_0000_0000_0000_0000
  }

  predicate Fits64(a: nat) {
    a < 0x1_0000_0000_0000_0000
  }

  function Add64(a: nat, b: nat): nat {
    Wrap64(a + b)
  }

  /** What wrapping drops is a number of times 2 to the 64th. */
  lemma WrapCarries(a: nat) returns (c: nat)
    ensures Wrap64(a) + c * 0x1_0000_0000_0000_0000 == a
  {
    c := a / 0x1_0000_0000_0000_0000;
  }

  lemma WrapAdds(a: nat, b: nat)
    ensures Wrap64(Wrap64(a) + b) == Wrap64(a + b)
  {
  }

  /** Append what is not there yet. */
  function Union(a: seq<nat>, b: seq<nat>): (r: seq<nat>)
    decreases |b|
  {
    if b == [] then a
    else var rest := Union(a, b[..|b| - 1]); if b[|b| - 1] in rest then rest else rest + [b[|b| - 1]]
  }

  lemma {:induction false} UnionHolds(a: seq<nat>, b: seq<nat>)
    ensures forall x :: x in Union(a, b) <==> x in a || x in b
    ensures Distinct(a) ==> Distinct(Union(a, b))
    decreases |b|
  {
    if b != [] {
      var front := b[..|b| - 1];
      UnionHolds(a, front);
      assert b == front + [b[|b| - 1]];
    }
  }

  // ----- May two sends merge -----

  /** How many entries of b are in a, counting repetitions. */
  function Common(a: seq<nat>, b: seq<nat>): (n: nat)
    ensures n <= |b|
  {
    if b == [] then 0 else Common(a, b[..|b| - 1]) + (if b[|b| - 1] in a then 1 else 0)
  }

  predicate ReceiversConflict(ra: seq<nat>, rb: seq<nat>) {
    var common := Common(ra, rb);
    common != 0 && common != |rb| && common != |Elements(ra)|
  }

  predicate CanMerge(a: McSend, b: McSend, merged_payload: nat, limit: nat) {
    && a.sender_nsp == b.sender_nsp
    && (limit == 0 || merged_payload <= limit)
    && !ReceiversConflict(a.receivers, b.receivers)
  }

  lemma {:induction false} CommonCounts(a: seq<nat>, b: seq<nat>)
    requires Distinct(b)
    ensures Common(a, b) == |Elements(a) * Elements(b)|
  {
    if b == [] {
      assert Elements(a) * Elements(b) == {};
    } else {
      DistinctFront(b);
      CommonCounts(a, b[..|b| - 1]);
      OneMoreInCommon(Elements(a), Elements(b[..|b| - 1]), b[|b| - 1]);
    }
  }

  lemma OneMoreInCommon(a: set<nat>, b: set<nat>, x: nat)
    requires x !in b
    ensures |a * (b + {x})| == |a * b| + (if x in a then 1 else 0)
  {
    assert a * (b + {x}) == if x in a then a * b + {x} else a * b;
  }

  lemma SameSize(a: set<nat>, b: set<nat>)
    requires b <= a && |b| == |a|
    ensures b == a
  {
    var d := a - b;
    assert a == b + d;
    assert |d| == 0;
  }

  /** Receivers that do not repeat conflict exactly when the sets overlap and neither holds
      the other. */
  lemma ConflictIsPartialOverlap(ra: seq<nat>, rb: seq<nat>)
    requires Distinct(rb)
    ensures var (a, b) := (Elements(ra), Elements(rb));
            ReceiversConflict(ra, rb) <==> a * b != {} && !(b <= a) && !(a <= b)
  {
    var a, b := Elements(ra), Elements(rb);
    CommonCounts(ra, rb);
    DistinctCount(rb);
    if |a * b| == |b| { SameSize(b, a * b); }
    if |a * b| == |a| { SameSize(a, a * b); }
    if b <= a { assert a * b == b; }
    if a <= b { assert a * b == a; }
  }

  // ----- Groups of sends -----

  /** The supercast of some sends, in the order in which they joined. */
  function CastOf(sends: seq<McSend>, members: seq<nat>): (sc: SuperCast)
    requires Members(|sends|, members)
    ensures sc.mcsend_tags != []
  {
    var ms := sends[members[|members| - 1]];
    if |members| == 1 then SuperCast([ms.tag], ms.mcids, ms.sender_nsp, ms.payload_size)
    else
      var sc := CastOf(sends, members[..|members| - 1]);
      SuperCast(sc.mcsend_tags + [ms.tag], Union(sc.mcids, ms.mcids), sc.sender_nsp, Add64(sc.total_payload, ms.payload_size))
  }

  predicate Overlap(a: seq<nat>, b: seq<nat>) {
    exists k :: 0 <= k < |b| && b[k] in a
  }

  /** Send j joins the group that the first member began. */
  predicate Joins(sends: seq<McSend>, limit: nat, sc: SuperCast, i: nat, j: nat)
    requires i < |sends| && j < |sends|
  {
    Overlap(sc.mcids, sends[j].mcids) && CanMerge(sends[i], sends[j], Add64(sc.total_payload, sends[j].payload_size), limit)
  }

  /** Send j joins the group of the members so far. */
  predicate JoinsNext(sends: seq<McSend>, limit: nat, members: seq<nat>, j: nat)
    requires Members(|sends|, members) && j < |sends|
  {
    Joins(sends, limit, CastOf(sends, members), members[0], j)
  }

  /** The merging rule of a list of sends, for a group so far and a later send. */
  function JoinRule(sends: seq<McSend>, limit: nat): Rule {
    (members: seq<nat>, j: nat) => Members(|sends|, members) && j < |sends| && JoinsNext(sends, limit, members, j)
  }

  // ----- What a supercast stands for -----

  function PayloadSum(sends: seq<McSend>, members: seq<nat>): nat
    requires Positions(|sends|, members)
  {
    if members == [] then 0 else PayloadSum(sends, members[..|members| - 1]) + sends[members[|members| - 1]].payload_size
  }

  predicate SomeMcid(sends: seq<McSend>, members: seq<nat>, x: nat)
    requires Positions(|sends|, members)
  {
    exists k :: 0 <= k < |members| && x in sends[members[k]].mcids
  }

  lemma {:induction false} CastPayload(sends: seq<McSend>, members: seq<nat>)
    requires Members(|sends|, members) && forall k :: 0 <= k < |members| ==> Fits64(sends[members[k]].payload_size)
    ensures CastOf(sends, members).total_payload == Wrap64(PayloadSum(sends, members))
  {
    var n := |members|;
    if n == 1 {
      assert PayloadSum(sends, members[..0]) == 0;
    } else {
      CastPayload(sends, members[..n - 1]);
      WrapAdds(PayloadSum(sends, members[..n - 1]), sends[members[n - 1]].payload_size);
    }
  }

  lemma {:induction false} CastTags(sends: seq<McSend>, members: seq<nat>)
    requires Members(|sends|, members)
    ensures var sc := CastOf(sends, members);
            && sc.sender_nsp == sends[members[0]].sender_nsp && |sc.mcsend_tags| == |members|
            && forall k :: 0 <= k < |members| ==> sc.mcsend_tags[k] == sends[members[k]].tag
  {
    if |members| > 1 {
      CastTags(sends, members[..|members| - 1]);
    }
  }

  lemma SomeMcidSnoc(sends: seq<McSend>, members: seq<nat>, x: nat)
    requires Members(|sends|, members) && |members| > 1
    ensures SomeMcid(sends, members, x) <==> SomeMcid(sends, members[..|members| - 1], x) || x in sends[members[|members| - 1]].mcids
  {
    assert forall k :: 0 <= k < |members| - 1 ==> members[..|members| - 1][k] == members[k];
  }

  lemma {:induction false} CastMcids(sends: seq<McSend>, members: seq<nat>, x: nat)
    requires Members(|sends|, members)
    ensures x in CastOf(sends, members).mcids <==> SomeMcid(sends, members, x)
  {
    if |members| > 1 {
      CastMcids(sends, members[..|members| - 1], x);
      SomeMcidSnoc(sends, members, x);
      UnionHolds(CastOf(sends, members[..|members| - 1]).mcids, sends[members[|members| - 1]].mcids);
    }
  }

  lemma {:induction false} CastDistinct(sends: seq<McSend>, members: seq<nat>)
    requires Members(|sends|, members) && Distinct(sends[members[0]].mcids)
    ensures Distinct(CastOf(sends, members).mcids)
  {
    if |members| > 1 {
      CastDistinct(sends, members[..|members| - 1]);
      UnionHolds(CastOf(sends, members[..|members| - 1]).mcids, sends[members[|members| - 1]].mcids);
    }
  }

  /** Its channels are those of its members, its payload their sum in 64 bits, its tags
      theirs in order. */
  lemma CastMeaning(sends: seq<McSend>, members: seq<nat>)
    requires Members(|sends|, members) && forall k :: 0 <= k < |members| ==> Fits64(sends[members[k]].payload_size)
    ensures var sc := CastOf(sends, members);
            && sc.total_payload == Wrap64(PayloadSum(sends, members))
            && |sc.mcsend_tags| == |members| && (forall k :: 0 <= k < |members| ==> sc.mcsend_tags[k] == sends[members[k]].tag)
            && sc.sender_nsp == sends[members[0]].sender_nsp
            && forall x :: x in sc.mcids <==> SomeMcid(sends, members, x)
  {
    CastPayload(sends, members);
    CastTags(sends, members);
    forall x ensures x in CastOf(sends, members).mcids <==> SomeMcid(sends, members, x) { CastMcids(sends, members, x); }
  }

  /** All members have one sender, and what is stored as payload is within the limit. */
  lemma GroupIsFeasible(sends: seq<McSend>, limit: nat, members: seq<nat>)
    requires GoodGroup(|sends|, JoinRule(sends, limit), members)
    ensures forall k :: 0 <= k < |members| ==> sends[members[k]].sender_nsp == sends[members[0]].sender_nsp
    ensures limit > 0 ==> CastOf(sends, members).total_payload <= limit
  {
    var n := |members|;
    forall k | 1 <= k < n
      ensures sends[members[k]].sender_nsp == sends[members[0]].sender_nsp
    {
      assert JoinRule(sends, limit)(members[..k], members[k]);
    }
    assert JoinRule(sends, limit)(members[..n - 1], members[n - 1]);
  }

  // ----- Applying supercasts -----

  /** The first send from i on with the tag that is not merged yet; the length when none is. */
  function FirstUnmerged(original: seq<McSend>, tag: nat, merged: set<nat>, i: nat): (k: nat)
    requires i <= |original|
    ensures i <= k <= |original|
    decreases |original| - i
  {
    if i == |original| || (original[i].tag == tag && i !in merged) then i else FirstUnmerged(original, tag, merged, i + 1)
  }

  datatype Collected = Collected(merged: set<nat>, receivers: seq<nat>)

  /** Collect the receivers of the sends with the given tags. */
  function Collect(original: seq<McSend>, tags: seq<nat>, merged: set<nat>): Collected {
    if tags == [] then Collected(merged, [])
    else
      var c := Collect(original, tags[..|tags| - 1], merged);
      var k := FirstUnmerged(original, tags[|tags| - 1], c.merged, 0);
      if k == |original| then c else Collected(c.merged + {k}, Union(c.receivers, original[k].receivers))
  }

  /** The send that stands for a supercast. */
  function MergedSend(original: seq<McSend>, sc: SuperCast, merged: set<nat>): McSend
    requires sc.mcsend_tags != []
  {
    McSend(sc.mcsend_tags[0], sc.sender_nsp, |sc.mcids|, sc.total_payload, sc.mcids, Collect(original, sc.mcsend_tags, merged).receivers)
  }

  predicate Tagged(supercasts: seq<SuperCast>) {
    forall k :: 0 <= k < |supercasts| ==> supercasts[k].mcsend_tags != []
  }

  /** What is merged after all supercasts, in their order. */
  function MergedBy(original: seq<McSend>, supercasts: seq<SuperCast>, merged: set<nat>): set<nat>
    decreases |supercasts|
  {
    if supercasts == [] then merged
    else MergedBy(original, supercasts[1..], Collect(original, supercasts[0].mcsend_tags, merged).merged)
  }

  function MergedSends(original: seq<McSend>, supercasts: seq<SuperCast>, merged: set<nat>): seq<McSend>
    requires Tagged(supercasts)
    decreases |supercasts|
  {
    if supercasts == [] then []
    else
      [MergedSend(original, supercasts[0], merged)]
      + MergedSends(original, supercasts[1..], Collect(original, supercasts[0].mcsend_tags, merged).merged)
  }

  /** The sends among the first n that are not merged, in order. */
  function Unmerged(original: seq<McSend>, merged: set<nat>, n: nat): seq<McSend>
    requires n <= |original|
  {
    if n == 0 then []
    else Unmerged(original, merged, n - 1) + (if n - 1 in merged then [] else [original[n - 1]])
  }

  function Applied(original: seq<McSend>, supercasts: seq<SuperCast>): seq<McSend>
    requires Tagged(supercasts)
  {
    MergedSends(original, supercasts, {}) + Unmerged(original, MergedBy(original, supercasts, {}), |original|)
  }

  // ----- With unique tags, a supercast finds its own members -----

  predicate UniqueTags(sends: seq<McSend>) {
    forall i, j :: 0 <= i < j < |sends| ==> sends[i].tag != sends[j].tag
  }

  lemma {:induction false} TagFindsSend(original: seq<McSend>, merged: set<nat>, k: nat, i: nat)
    requires UniqueTags(original) && i <= k < |original| && k !in merged
    ensures FirstUnmerged(original, original[k].tag, merged, i) == k
    decreases k - i
  {
    if i < k {
      TagFindsSend(original, merged, k, i + 1);
    }
  }

  predicate SomeReceiver(sends: seq<McSend>, members: seq<nat>, x: nat)
    requires Positions(|sends|, members)
  {
    exists k :: 0 <= k < |members| && x in sends[members[k]].receivers
  }

  function TagsOf(sends: seq<McSend>, members: seq<nat>): (tags: seq<nat>)
    requires Positions(|sends|, members)
    ensures |tags| == |members| && forall k :: 0 <= k < |members| ==> tags[k] == sends[members[k]].tag
  {
    seq(|members|, k requires 0 <= k < |members| => sends[members[k]].tag)
  }

  /** The receivers collected are those of the members, each once. */
  lemma {:induction false} CollectFindsMembers(original: seq<McSend>, members: seq<nat>, merged: set<nat>)
    requires UniqueTags(original) && Distinct(members)
    requires Positions(|original|, members) && forall k :: 0 <= k < |members| ==> members[k] !in merged
    ensures var c := Collect(original, TagsOf(original, members), merged);
            && c.merged == merged + Elements(members) && Distinct(c.receivers)
            && forall x :: x in c.receivers <==> SomeReceiver(original, members, x)
  {
    if members == [] {
      assert Elements(members) == {};
    } else {
      var n := |members| - 1;
      var front, k := members[..n], members[n];
      var tags := TagsOf(original, members);
      assert tags[..n] == TagsOf(original, front);
      CollectFindsMembers(original, front, merged);
      var c := Collect(original, tags[..n], merged);
      assert k !in Elements(front);
      TagFindsSend(original, c.merged, k, 0);
      ElementsSnoc(front, k);
      assert members == front + [k];
      UnionHolds(c.receivers, original[k].receivers);
      forall x
        ensures SomeReceiver(original, members, x) <==> SomeReceiver(original, front, x) || x in original[k].receivers
      {
        SomeReceiverSnoc(original, front, k, x);
      }
    }
  }

  lemma SomeReceiverSnoc(sends: seq<McSend>, front: seq<nat>, k: nat, x: nat)
    requires k < |sends| && Positions(|sends|, front)
    ensures SomeReceiver(sends, front + [k], x) <==> SomeReceiver(sends, front, x) || x in sends[k].receivers
  {
    var r := front + [k];
    assert forall i :: 0 <= i < |front| ==> r[i] == front[i];
    assert r[|front|] == k;
  }
}
