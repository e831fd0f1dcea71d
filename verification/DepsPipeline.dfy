/** From the graph to the runlist: the order of the nodes, the descriptors of the enabled
    operations in that order, and the runlist built from both
    (compiler/src/ir/graph_prepare.cpp:673-689, 3200-3283, 4550-4576).  The graph is the same in
    all of them.
 */
module DepsPipeline {
  import Sequences
  import opened Options
  import opened HashTable
  import opened Relaxation
  import opened RelaxationWidth
  import opened ProducerOrder
  import opened GraphDeps

  /** The enabled ids of a list, in its order. */
  function Filter(list: seq<Id>, enabled: Id -> bool): (r: seq<Id>)
    ensures |r| <= |list| && forall x :: x in r <==> x in list && enabled(x)
  {
    if list == [] then []
    else
      var front, last := list[..|list| - 1], list[|list| - 1];
      assert list == front + [last];
      Filter(front, enabled) + (if enabled(last) then [last] else [])
  }

  lemma {:induction false} FilterIsDistinct(list: seq<Id>, enabled: Id -> bool)
    requires Sequences.Distinct(list)
    ensures Sequences.Distinct(Filter(list, enabled))
  {
    if list != [] {
      FilterIsDistinct(list[..|list| - 1], enabled);
    }
  }

  /** What comes before in r comes before in the list. */
  ghost predicate KeepsPlaces(r: seq<Id>, list: seq<Id>) {
    forall i, j :: 0 <= i < j < |r| ==> Before(list, r[i], r[j])
  }

  predicate Before(list: seq<Id>, x: Id, y: Id) {
    exists a, b :: 0 <= a < b < |list| && list[a] == x && list[b] == y
  }

  lemma {:induction false} FilterKeepsPlaces(list: seq<Id>, enabled: Id -> bool)
    ensures KeepsPlaces(Filter(list, enabled), list)
  {
    if list != [] {
      var front, last := list[..|list| - 1], list[|list| - 1];
      FilterKeepsPlaces(front, enabled);
      var kept, r := Filter(front, enabled), Filter(list, enabled);
      forall i, j | 0 <= i < j < |r|
        ensures Before(list, r[i], r[j])
      {
        if j < |kept| {
          assert Before(front, kept[i], kept[j]);
          BeforeInFront(list, r[i], r[j]);
        } else {
          assert kept[i] in front;
          BeforeLast(list, r[i]);
        }
      }
    }
  }

  lemma BeforeInFront(list: seq<Id>, x: Id, y: Id)
    requires list != [] && Before(list[..|list| - 1], x, y)
    ensures Before(list, x, y)
  {
    var front := list[..|list| - 1];
    var a, b :| 0 <= a < b < |front| && front[a] == x && front[b] == y;
    assert list[a] == x && list[b] == y;
  }

  lemma BeforeLast(list: seq<Id>, x: Id)
    requires list != [] && x in list[..|list| - 1]
    ensures Before(list, x, list[|list| - 1])
  {
    var a :| 0 <= a < |list| - 1 && list[a] == x;
  }

  /** Leaving out operations keeps the producers of the others first. */
  lemma {:induction false} FilterKeepsOrder(list: seq<Id>, enabled: Id -> bool, inputs: Inputs)
    requires Sequences.Distinct(list) && ProducersBefore(list, inputs)
    ensures ProducersBefore(Filter(list, enabled), inputs)
  {
    if list != [] {
      var front, last := list[..|list| - 1], list[|list| - 1];
      FrontKeepsOrder(list, inputs);
      FilterKeepsOrder(front, enabled, inputs);
      var kept, r := Filter(front, enabled), Filter(list, enabled);
      forall k, x | 0 <= k < |r| && x in inputs(r[k]) && x in r
        ensures x in r[..k]
      {
        if k < |kept| {
          assert r[k] in front;
          NotAfter(list, inputs, r[k], x);
          assert r[..k] == kept[..k];
        } else {
          assert r[..k] == kept;
          assert list[..|front|] == front;
        }
      }
    }
  }

  lemma FrontKeepsOrder(list: seq<Id>, inputs: Inputs)
    requires list != [] && ProducersBefore(list, inputs)
    ensures ProducersBefore(list[..|list| - 1], inputs)
  {
    var front := list[..|list| - 1];
    forall k, x | 0 <= k < |front| && x in inputs(front[k]) && x in front
      ensures x in front[..k]
    {
      assert front[..k] == list[..k] && front[k] == list[k] && x in list;
    }
  }

  /** The last of an ordered list is no producer of those before. */
  lemma NotAfter(list: seq<Id>, inputs: Inputs, user: Id, x: Id)
    requires list != [] && Sequences.Distinct(list) && ProducersBefore(list, inputs)
    requires user in list[..|list| - 1] && x in inputs(user) && x in list
    ensures x in list[..|list| - 1]
  {
    var k :| 0 <= k < |list| - 1 && list[k] == user;
    assert x in list[..k];
  }

  /** The operations to add, in the order to add them. */
  function SortedOpdefs(nodes: seq<Id>, ordering: seq<Id>, enabled: Id -> bool): seq<Id> {
    if ordering != [] then Filter(ordering, enabled) else Filter(nodes, enabled)
  }

  // ----- Descriptors of listed operations -----

  /** The list and the table after operations were added. */
  function Descs(ids: seq<Id>, opdef: Id -> nat): (r: seq<OpDesc>)
    ensures |r| == |ids|
  {
    seq(|ids|, i requires 0 <= i < |ids| => OpDesc(ids[i], Desc(opdef(ids[i]), 0, 0)))
  }

  function TableOf(ids: seq<Id>, opdef: Id -> nat): map<Id, Desc> {
    map id: Id | id in ids :: Desc(opdef(id), 0, 0)
  }

  lemma KnownIsFilter(ordering: seq<Id>, ids: seq<Id>, opdef: Id -> nat, enabled: Id -> bool)
    requires forall x :: x in ordering ==> (x in ids <==> enabled(x))
    ensures Known(ordering, TableOf(ids, opdef)) == Filter(ordering, enabled)
  {
    if ordering != [] {
      var front, last := ordering[..|ordering| - 1], ordering[|ordering| - 1];
      assert ordering == front + [last];
      KnownIsFilter(front, ids, opdef, enabled);
    }
  }

  /** What the relaxation reads of each operation: its first input. */
  predicate FirstInputs(nodes: seq<Id>, inputs: Inputs, opdef: Id -> nat, graph: Graph) {
    forall id :: id in nodes ==> opdef(id) != 0 && graph(opdef(id)) == if inputs(id) == [] then None else Some(inputs(id)[0])
  }

  /** Operations in the order of their producers have chains that only go back. */
  lemma OrderedChainsDescend(ids: seq<Id>, inputs: Inputs, opdef: Id -> nat, graph: Graph)
    requires Sequences.Distinct(ids) && ProducersBefore(ids, inputs) && FirstInputs(ids, inputs, opdef, graph)
    ensures AllHaveOperations(Descs(ids, opdef)) && !Cyclic(Chains(Descs(ids, opdef), graph))
  {
    var ds := Descs(ids, opdef);
    var started := AllStarted(ds, graph);
    forall i | 0 <= i < |ids|
      ensures Link(started, i) < i && opdef(ids[i]) != 0
    {
      assert ids[i] in ids && started[i] == Started(ds, graph, i);
      var p := Link(started, i);
      if p >= 0 {
        assert ds[p].op_id == inputs(ids[i])[0];
        assert ids[p] in inputs(ids[i]) && ids[p] in ids;
        assert ids[p] in ids[..i];
      }
    }
    DescendingIsAcyclic(Chains(ds, graph));
  }

  lemma OrderedIsAccepted(ids: seq<Id>, inputs: Inputs, opdef: Id -> nat, graph: Graph)
    requires Sequences.Distinct(ids) && ProducersBefore(ids, inputs) && FirstInputs(ids, inputs, opdef, graph)
    requires 2 * |ids| <= MAX_DISTANCE + 1
    ensures Accepted(Descs(ids, opdef), graph)
  {
    OrderedChainsDescend(ids, inputs, opdef, graph);
    StartsArePositions(Descs(ids, opdef), graph);
    AcyclicIsAccepted(Chains(Descs(ids, opdef), graph));
  }

  lemma MoreDescs(ids: seq<Id>, i: nat, opdef: Id -> nat)
    requires Sequences.Distinct(ids) && i < |ids| && opdef(ids[i]) != 0
    ensures Added(TableOf(ids[..i], opdef), ids[i], opdef(ids[i])) == TableOf(ids[..i + 1], opdef) != TableOf(ids[..i], opdef)
    ensures Descs(ids[..i + 1], opdef) == Descs(ids[..i], opdef) + [OpDesc(ids[i], Desc(opdef(ids[i]), 0, 0))]
  {
    assert ids[..i + 1] == ids[..i] + [ids[i]];
    assert ids[i] !in ids[..i] && ids[i] in ids[..i + 1];
    assert ids[i] in TableOf(ids[..i + 1], opdef) && ids[i] !in TableOf(ids[..i], opdef);
  }

  /** Descriptors of all listed operations. */
  method AddOps(ids: seq<Id>, opdef: Id -> nat, graph: Graph) returns (deps: GraphDeps)
    requires Sequences.Distinct(ids) && forall id :: id in ids ==> opdef(id) != 0
    ensures fresh(deps) && fresh(deps.opdesc_hash) && deps.Valid() && deps.graph == graph
    ensures deps.opdescs == Descs(ids, opdef) && deps.opdesc_hash.Map() == TableOf(ids, opdef)
  {
    deps := new GraphDeps(graph);
    var i := 0;
    while i < |ids|
      invariant i <= |ids| && fresh(deps) && fresh(deps.opdesc_hash) && deps.Valid() && deps.graph == graph
      invariant deps.opdescs == Descs(ids[..i], opdef) && deps.opdesc_hash.Map() == TableOf(ids[..i], opdef)
    {
      MoreDescs(ids, i, opdef);
      deps.AddOp(ids[i], opdef(ids[i]));
      i := i + 1;
    }
    assert ids[..i] == ids;
  }

  /** The order of the nodes and the runlist.  On an acyclic graph with an enabled operation
      the runlist is built, and every operation comes after all of its enabled producers. */
  method PrepareRunlist(nodes: seq<Id>, inputs: Inputs, enabled: Id -> bool, opdef: Id -> nat, graph: Graph)
      returns (ordering: seq<Id>, runlist: seq<Id>, ok: bool)
    requires Sequences.Distinct(nodes) && FirstInputs(nodes, inputs, opdef, graph)
    ensures Sequences.Distinct(ordering) && forall x :: x in ordering <==> x in nodes
    ensures ProducersBefore(ordering, inputs) <==> !GraphCyclic(nodes, inputs)
    ensures ok <==> Accepted(Descs(Filter(ordering, enabled), opdef), graph) && exists x :: x in nodes && enabled(x)
    ensures ok ==> Sequences.Distinct(runlist) && (forall x :: x in runlist <==> x in ordering && enabled(x)) && KeepsPlaces(runlist, ordering)
    ensures ok && !GraphCyclic(nodes, inputs) ==> ProducersBefore(runlist, inputs)
    ensures !GraphCyclic(nodes, inputs) && 2 * |nodes| <= MAX_DISTANCE + 1 ==> (ok <==> exists x :: x in nodes && enabled(x))
  {
    ordering := OrderNodes(nodes, inputs);
    var ids := SortedOpdefs(nodes, ordering, enabled);
    assert ids == Filter(ordering, enabled);
    FilterIsDistinct(ordering, enabled);
    FilterKeepsPlaces(ordering, enabled);
    var deps := AddOps(ids, opdef, graph);
    ok := deps.BuildRunlist(ordering);
    runlist := deps.runlist;
    KnownIsFilter(ordering, ids, opdef, enabled);
    if ProducersBefore(ordering, inputs) {
      FilterKeepsOrder(ordering, enabled, inputs);
      SameLength(ordering, nodes);
      if 2 * |nodes| <= MAX_DISTANCE + 1 {
        OrderedIsAccepted(ids, inputs, opdef, graph);
      }
    }
  }

  lemma SameLength(a: seq<Id>, b: seq<Id>)
    requires Sequences.Distinct(a) && Sequences.Distinct(b) && forall x :: x in a <==> x in b
    ensures |a| == |b|
  {
    Sequences.DistinctCount(a);
    Sequences.DistinctCount(b);
    assert forall x :: x in Sequences.Elements(a) <==> x in a;
    assert forall x :: x in Sequences.Elements(b) <==> x in b;
    assert Sequences.Elements(a) == Sequences.Elements(b);
  }
}
