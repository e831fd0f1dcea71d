/** The dependency engine: descriptors in a table and in a list, distances relaxed in place,
    and the runlist (compiler/src/ir/graph_deps.cpp:115-192, 534-614).
 */
module GraphDeps {
  import opened Options
  import opened HashTable
  import opened HashBucket
  import opened Relaxation
  import opened RelaxationWidth
  import opened Runlist

  /** A descriptor of the list: a copy of the one in the table when it was added. */
  datatype OpDesc = OpDesc(op_id: Id, desc: Desc)

  /** The first input of each operation, by its non-null pointer. */
  type Graph = nat -> Option<Id>

  /** The last position of an id. */
  function LastIndex(ds: seq<OpDesc>, id: Id): (k: int)
    ensures -1 <= k < |ds|
    ensures k >= 0 ==> ds[k].op_id == id && forall j :: k < j < |ds| ==> ds[j].op_id != id
    ensures k == -1 ==> forall j :: 0 <= j < |ds| ==> ds[j].op_id != id
  {
    if ds == [] then -1
    else if ds[|ds| - 1].op_id == id then |ds| - 1
    else LastIndex(ds[..|ds| - 1], id)
  }

  /** A map from every id of a list to its last position. */
  ghost predicate IndexesIds(op_idx: map<Id, nat>, ds: seq<OpDesc>) {
    && (forall id :: (id in op_idx) == (LastIndex(ds, id) >= 0))
    && (forall id :: id in op_idx ==> op_idx[id] == LastIndex(ds, id))
  }

  /** The predecessor field of an operation: its first producer's position plus one. */
  function FirstProducer(ds: seq<OpDesc>, graph: Graph, opdef: nat): (p: nat)
    ensures p <= |ds|
  {
    match graph(opdef)
    case None => 0
    case Some(src) => LastIndex(ds, src) + 1
  }

  /** The link that relaxation follows: none without an operation on both sides. */
  function Link(ds: seq<OpDesc>, i: int): (p: int)
    requires 0 <= i < |ds|
    ensures -1 <= p < |ds|
  {
    var p := ds[i].desc.predecessor - 1;
    if ds[i].desc.opdef != 0 && 0 <= p < |ds| && ds[p].desc.opdef != 0 then p else -1
  }

  function LinksOf(ds: seq<OpDesc>): (pre: Links)
    ensures |pre| == |ds| && ValidLinks(pre)
  {
    seq(|ds|, i requires 0 <= i < |ds| => Link(ds, i))
  }

  function Distances(ds: seq<OpDesc>): (d: seq<nat>)
    ensures |d| == |ds|
  {
    seq(|ds|, i requires 0 <= i < |ds| => ds[i].desc.distance)
  }

  /** Initial fields: position and first producer. */
  function Started(ds: seq<OpDesc>, graph: Graph, i: int): OpDesc
    requires 0 <= i < |ds|
  {
    if ds[i].desc.opdef == 0 then ds[i]
    else ds[i].(desc := Desc(ds[i].desc.opdef, i, FirstProducer(ds, graph, ds[i].desc.opdef)))
  }

  function AllStarted(ds: seq<OpDesc>, graph: Graph): (r: seq<OpDesc>)
    ensures |r| == |ds|
  {
    seq(|ds|, i requires 0 <= i < |ds| => Started(ds, graph, i))
  }

  /** Everything but distances is the same. */
  predicate OnlyDistances(ds: seq<OpDesc>, ds': seq<OpDesc>) {
    |ds'| == |ds| && forall i :: 0 <= i < |ds| ==> ds'[i] == ds[i].(desc := ds[i].desc.(distance := ds'[i].desc.distance))
  }

  /** The largest distance among the first n descriptors that have an operation. */
  function LargestOf(ds: seq<OpDesc>, n: nat): nat
    requires n <= |ds|
  {
    if n == 0 then 0
    else if ds[n - 1].desc.opdef == 0 then LargestOf(ds, n - 1)
    else Max(LargestOf(ds, n - 1), ds[n - 1].desc.distance)
  }

  lemma {:induction false} LargestOfSame(ds: seq<OpDesc>, ds': seq<OpDesc>, n: nat)
    requires n <= |ds| && n <= |ds'| && forall k :: 0 <= k < n ==> ds'[k] == ds[k]
    ensures LargestOf(ds', n) == LargestOf(ds, n)
  {
    if n > 0 {
      LargestOfSame(ds, ds', n - 1);
    }
  }

  /** It bounds them all, and one of them has it, or it is 0. */
  ghost predicate IsLargest(ds: seq<OpDesc>, largest: nat) {
    && (forall k :: 0 <= k < |ds| && ds[k].desc.opdef != 0 ==> ds[k].desc.distance <= largest)
    && (largest == 0 || exists k :: 0 <= k < |ds| && ds[k].desc.opdef != 0 && ds[k].desc.distance == largest)
  }

  lemma {:induction false} LargestBounds(ds: seq<OpDesc>, n: nat)
    requires n <= |ds|
    ensures forall k :: 0 <= k < n && ds[k].desc.opdef != 0 ==> ds[k].desc.distance <= LargestOf(ds, n)
    ensures LargestOf(ds, n) == 0 || exists k :: 0 <= k < n && ds[k].desc.opdef != 0 && ds[k].desc.distance == LargestOf(ds, n)
  {
    if n > 0 {
      LargestBounds(ds, n - 1);
    }
  }

  function WithDistance(ds: seq<OpDesc>, i: nat, distance: nat): (r: seq<OpDesc>)
    requires i < |ds|
    ensures |r| == |ds|
  {
    ds[i := ds[i].(desc := ds[i].desc.(distance := distance))]
  }

  lemma {:induction false} LargestOfRaised(ds: seq<OpDesc>, i: nat, distance: nat, n: nat)
    requires i < |ds| && n <= |ds| && ds[i].desc.opdef != 0 && ds[i].desc.distance <= distance
    ensures LargestOf(WithDistance(ds, i, distance), n) == if i < n then Max(LargestOf(ds, n), distance) else LargestOf(ds, n)
  {
    if n > 0 {
      LargestOfRaised(ds, i, distance, n - 1);
    }
  }

  /** The predecessor links of the operations, and where their distances start. */
  function Chains(ds: seq<OpDesc>, graph: Graph): (pre: Links)
    ensures |pre| == |ds| && ValidLinks(pre)
  {
    LinksOf(AllStarted(ds, graph))
  }

  function Starts(ds: seq<OpDesc>, graph: Graph): (d: seq<nat>)
    ensures |d| == |ds|
  {
    Distances(AllStarted(ds, graph))
  }

  lemma SameLinks(ds: seq<OpDesc>, ds': seq<OpDesc>)
    requires OnlyDistances(ds, ds')
    ensures LinksOf(ds') == LinksOf(ds)
  {
    forall i | 0 <= i < |ds|
      ensures Link(ds', i) == Link(ds, i)
    {
      var p := ds[i].desc.predecessor - 1;
      assert 0 <= p < |ds| ==> ds'[p].desc.opdef == ds[p].desc.opdef;
    }
  }

  // ----- The table and the list -----

  /** The table after an operation was added. */
  function Added(m: map<Id, Desc>, id: Id, opdef: nat): map<Id, Desc> {
    if id in m && m[id].opdef != 0 then m else m[id := Desc(opdef, 0, 0)]
  }

  lemma AddedFromInserted(m: map<Id, Desc>, id: Id, opdef: nat)
    requires NoDistances(m)
    ensures var inserted := Inserted(m, id);
            Added(m, id, opdef) == if inserted[id].opdef == 0 then inserted[id := inserted[id].(opdef := opdef)] else inserted
  {
  }

  /** No descriptor of the table was ever given a distance. */
  predicate NoDistances(m: map<Id, Desc>) {
    forall id :: id in m ==> m[id].distance == 0 && m[id].predecessor == 0
  }

  /** Ids in the list are distinct, and it lists the operations that the table holds. */
  ghost predicate Mirrors(m: map<Id, Desc>, ds: seq<OpDesc>) {
    && (forall i, j :: 0 <= i < j < |ds| ==> ds[i].op_id != ds[j].op_id)
    && (forall i :: 0 <= i < |ds| ==> ds[i].op_id in m && ds[i].desc.opdef == m[ds[i].op_id].opdef != 0)
    && (forall id :: id in m && m[id].opdef != 0 ==> LastIndex(ds, id) >= 0)
  }

  lemma MirrorsMore(m: map<Id, Desc>, ds: seq<OpDesc>, id: Id, desc: Desc)
    requires NoDistances(m) && Mirrors(m, ds) && (id in m ==> m[id].opdef == 0) && desc.opdef != 0
    requires desc.distance == 0 && desc.predecessor == 0
    ensures NoDistances(m[id := desc]) && Mirrors(m[id := desc], ds + [OpDesc(id, desc)])
  {
    var r := ds + [OpDesc(id, desc)];
    assert r[..|ds|] == ds;
  }

  lemma MirrorsDistances(m: map<Id, Desc>, ds: seq<OpDesc>, ds': seq<OpDesc>)
    requires Mirrors(m, ds) && |ds'| == |ds|
    requires forall i :: 0 <= i < |ds| ==> ds'[i].op_id == ds[i].op_id && ds'[i].desc.opdef == ds[i].desc.opdef
    ensures Mirrors(m, ds')
  {
    forall id | id in m && m[id].opdef != 0
      ensures LastIndex(ds', id) >= 0
    {
      var k := LastIndex(ds, id);
      assert ds'[k].op_id == id;
    }
  }

  /** The entries of an ordering that have a distance. */
  function Entries(ordering: seq<Id>, distance: Id -> Option<nat>): seq<Entry> {
    if ordering == [] then []
    else
      var oid := ordering[|ordering| - 1];
      Entries(ordering[..|ordering| - 1], distance) + (if distance(oid).Some? then [Entry(distance(oid).value, oid)] else [])
  }

  lemma {:induction false} EntriesCarryDistances(ordering: seq<Id>, distance: Id -> Option<nat>)
    ensures forall e :: e in Entries(ordering, distance) ==> e.op_id in ordering && IsId(e.op_id) && distance(e.op_id) == Some(e.distance)
  {
    if ordering != [] {
      EntriesCarryDistances(ordering[..|ordering| - 1], distance);
    }
  }

  predicate IsId(x: int) {
    0 <= x < 0x1_0000_0000_0000_0000
  }

  function TableDistance(m: map<Id, Desc>): Id -> Option<nat> {
    (id: Id) => if id in m then Some(m[id].distance) else None
  }

  function ListDistance(ds: seq<OpDesc>): Id -> Option<nat> {
    (id: Id) => var k := LastIndex(ds, id); if k >= 0 then Some(ds[k].desc.distance) else None
  }

  /** The ids of an ordering that the table holds. */
  function Known(ordering: seq<Id>, m: map<Id, Desc>): seq<Id> {
    if ordering == [] then []
    else Known(ordering[..|ordering| - 1], m) + (if ordering[|ordering| - 1] in m then [ordering[|ordering| - 1]] else [])
  }

  lemma {:induction false} EntriesOfKnown(ordering: seq<Id>, m: map<Id, Desc>)
    requires NoDistances(m)
    ensures OpIds(Entries(ordering, TableDistance(m))) == Known(ordering, m)
    ensures forall k :: 0 <= k < |Entries(ordering, TableDistance(m))| ==> Entries(ordering, TableDistance(m))[k].distance == 0
  {
    if ordering != [] {
      EntriesOfKnown(ordering[..|ordering| - 1], m);
      var front := Entries(ordering[..|ordering| - 1], TableDistance(m));
      var oid := ordering[|ordering| - 1];
      if oid in m {
        assert (front + [Entry(0, oid)])[..|front|] == front;
      }
    }
  }

  /** Sorted by the distances that the table holds, the runlist is the ordering: the
      relaxation writes its distances to the list alone. */
  lemma TableSortIsOrdering(ordering: seq<Id>, m: map<Id, Desc>)
    requires NoDistances(m)
    ensures OpIds(StableSort(Entries(ordering, TableDistance(m)))) == Known(ordering, m)
  {
    EntriesOfKnown(ordering, m);
    EqualDistancesStay(Entries(ordering, TableDistance(m)), 0);
  }

  /** No known operation is listed before its known first producer. */
  predicate ProducersFirst(list: seq<Id>, m: map<Id, Desc>, graph: Graph) {
    forall i, j :: 0 <= i < j < |list| ==> !Consumes(m, graph, list[i], list[j])
  }

  predicate Consumes(m: map<Id, Desc>, graph: Graph, user: Id, producer: Id) {
    user in m && producer in m && graph(m[user].opdef) == Some(producer)
  }

  /** The runlist puts producers first exactly when the ordering it was built from does: no
      operation is moved. */
  lemma {:induction false} RunlistIsOnlyAsGoodAsOrdering(ordering: seq<Id>, m: map<Id, Desc>, graph: Graph)
    ensures ProducersFirst(Known(ordering, m), m, graph) <==> ProducersFirst(ordering, m, graph)
  {
    if ordering != [] {
      var front, last := ordering[..|ordering| - 1], ordering[|ordering| - 1];
      RunlistIsOnlyAsGoodAsOrdering(front, m, graph);
      KnownHolds(front, m);
      var known := Known(front, m);
      assert ordering == front + [last];
      ProducersFirstSnoc(front, last, m, graph);
      ProducersFirstSnoc(known, last, m, graph);
      SameConsumers(front, known, last, m, graph);
      assert Known(ordering, m) == if last in m then known + [last] else known;
      assert last !in m ==> NoneConsumes(front, last, m, graph);
    }
  }

  predicate NoneConsumes(list: seq<Id>, producer: Id, m: map<Id, Desc>, graph: Graph) {
    forall x :: x in list ==> !Consumes(m, graph, x, producer)
  }

  lemma SameConsumers(front: seq<Id>, known: seq<Id>, last: Id, m: map<Id, Desc>, graph: Graph)
    requires forall x :: x in known <==> x in front && x in m
    ensures NoneConsumes(front, last, m, graph) <==> NoneConsumes(known, last, m, graph)
  {
  }

  lemma {:induction false} KnownHolds(ordering: seq<Id>, m: map<Id, Desc>)
    ensures forall x :: x in Known(ordering, m) <==> x in ordering && x in m
  {
    if ordering != [] {
      var front := ordering[..|ordering| - 1];
      KnownHolds(front, m);
      assert ordering == front + [ordering[|ordering| - 1]];
    }
  }

  lemma ProducersFirstSnoc(list: seq<Id>, last: Id, m: map<Id, Desc>, graph: Graph)
    ensures ProducersFirst(list + [last], m, graph) <==> ProducersFirst(list, m, graph) && NoneConsumes(list, last, m, graph)
  {
    var r := list + [last];
    if ProducersFirst(r, m, graph) {
      assert forall i :: 0 <= i < |list| ==> !Consumes(m, graph, r[i], r[|list|]);
      assert forall i :: 0 <= i < |list| ==> r[i] == list[i];
    }
  }

  // ----- What the distances are -----

  /** The relaxation settles within its limit. */
  predicate Accepted(ds: seq<OpDesc>, graph: Graph) {
    SettledBy(Chains(ds, graph), Starts(ds, graph), Limit(|ds|))
  }

  /** Nothing but distances was changed since the start, and these are what the passes up to
      the limit leave. */
  predicate DistancesSet(ds: seq<OpDesc>, graph: Graph, ds': seq<OpDesc>) {
    && OnlyDistances(AllStarted(ds, graph), ds')
    && Distances(ds') == Passes(Chains(ds, graph), Starts(ds, graph), Limit(|ds|))
  }

  predicate AllHaveOperations(ds: seq<OpDesc>) {
    forall k :: 0 <= k < |ds| ==> ds[k].desc.opdef != 0
  }

  lemma StartsArePositions(ds: seq<OpDesc>, graph: Graph)
    requires AllHaveOperations(ds)
    ensures Starts(ds, graph) == Positions(|ds|)
  {
    assert forall k :: 0 <= k < |ds| ==> AllStarted(ds, graph)[k] == Started(ds, graph, k);
  }

  /** The answer is whether the chains of first producers are acyclic, while no distance can
      leave 32 bits. */
  lemma AcceptedIffAcyclic(ds: seq<OpDesc>, graph: Graph)
    requires AllHaveOperations(ds) && |ds| * Limit(|ds|) <= MAX_DISTANCE
    ensures Accepted(ds, graph) <==> !Cyclic(Chains(ds, graph))
  {
    StartsArePositions(ds, graph);
    AnswerIsRight(Chains(ds, graph));
  }

  /** On an acyclic list every distance is the largest of position plus steps over its chain,
      below twice the length of the list. */
  lemma DistancesAreLongest(ds0: seq<OpDesc>, graph: Graph, ds: seq<OpDesc>, i: nat)
    requires DistancesSet(ds0, graph, ds) && AllHaveOperations(ds0) && 2 * |ds0| <= MAX_DISTANCE + 1
    requires !Cyclic(Chains(ds0, graph)) && i < |ds0|
    ensures Accepted(ds0, graph)
    ensures ds[i].desc.distance == Longest(Chains(ds0, graph), Positions(|ds0|), i) < 2 * |ds0|
  {
    StartsArePositions(ds0, graph);
    AcyclicIsAccepted(Chains(ds0, graph));
    BestIsBounded(Chains(ds0, graph), Positions(|ds0|), i, |ds0|, |ds0| - 1);
    assert Distances(ds)[i] == ds[i].desc.distance;
  }

  /** Descriptors that consume each other in a ring. */
  function RingOps(n: nat): (ds: seq<OpDesc>)
    requires n <= MAX_DISTANCE
    ensures |ds| == n && AllHaveOperations(ds)
  {
    seq<OpDesc>(n, i requires 0 <= i < n => OpDesc(i, Desc(i + 1, 0, 0)))
  }

  function RingGraph(n: nat): Graph
    requires 0 < n <= MAX_DISTANCE
  {
    (opdef: nat) => if opdef == 1 then Some(n - 1) else if 1 < opdef <= n then Some(opdef - 2) else None
  }

  lemma RingIsRing(n: nat)
    requires 0 < n <= MAX_DISTANCE
    ensures Chains(RingOps(n), RingGraph(n)) == Ring(n)
  {
    var ds, graph := RingOps(n), RingGraph(n);
    var started := AllStarted(ds, graph);
    forall i | 0 <= i < n
      ensures Link(started, i) == Ring(n)[i]
    {
      var p := Ring(n)[i];
      assert graph(ds[i].desc.opdef) == Some(p);
      assert ds[p].op_id == p;
      assert LastIndex(ds, p) == p;
    }
  }

  /** For every number of operations: the answer is right for all lists exactly when no
      distance can leave 32 bits within the limit. */
  lemma AcceptedIsRightIff(n: nat)
    requires n <= MAX_DISTANCE
    ensures (forall ds, graph: Graph :: |ds| == n && AllHaveOperations(ds) ==> (Accepted(ds, graph) <==> !Cyclic(Chains(ds, graph))))
            <==> n * Limit(n) <= MAX_DISTANCE
  {
    if n * Limit(n) <= MAX_DISTANCE {
      forall ds, graph: Graph | |ds| == n && AllHaveOperations(ds)
        ensures Accepted(ds, graph) <==> !Cyclic(Chains(ds, graph))
      {
        AcceptedIffAcyclic(ds, graph);
      }
    } else {
      RingIsRing(n);
      RingIsCyclic(n);
      RingSettles(n);
      StartsArePositions(RingOps(n), RingGraph(n));
      assert Accepted(RingOps(n), RingGraph(n));
    }
  }

  /** Two operations, the second a consumer of the first.  The list is acyclic and accepted,
      and the ordering with the consumer first becomes the runlist. */
  lemma RunlistCanPutConsumerFirst(ds: seq<OpDesc>, m: map<Id, Desc>, graph: Graph)
    requires ds == [OpDesc(1, Desc(1, 0, 0)), OpDesc(2, Desc(2, 0, 0))] && m == map[1 := Desc(1, 0, 0), 2 := Desc(2, 0, 0)]
    requires graph(1) == None && graph(2) == Some(1)
    ensures NoDistances(m) && Mirrors(m, ds) && !Cyclic(Chains(ds, graph)) && Accepted(ds, graph)
    ensures Known([2, 1], m) == [2, 1] && Consumes(m, graph, 2, 1)
  {
    assert LastIndex(ds, 1) == 0 && LastIndex(ds, 2) == 1;
    var pre := Chains(ds, graph);
    assert pre == [-1, 0];
    SettledIsAcyclic(pre, [0, 1]);
    AcceptedIffAcyclic(ds, graph);
    assert [2, 1][..1] == [2] && [2][..0] == [];
    assert Known([2], m) == Known([], m) + [2];
    assert Known([2, 1], m) == Known([2], m) + [1];
  }

  /** Sorted by the relaxed distances of the list, the operations of an acyclic graph come
      after their first producers, whatever the ordering. */
  lemma ListSortPutsProducerFirst(ds0: seq<OpDesc>, graph: Graph, ds: seq<OpDesc>, ordering: seq<Id>, a: nat, b: nat)
    requires DistancesSet(ds0, graph, ds) && AllHaveOperations(ds0) && 2 * |ds0| <= MAX_DISTANCE + 1
    requires !Cyclic(Chains(ds0, graph))
    requires a < |StableSort(Entries(ordering, ListDistance(ds)))| && b < |StableSort(Entries(ordering, ListDistance(ds)))|
    requires var s := StableSort(Entries(ordering, ListDistance(ds)));
             IsId(s[a].op_id) && IsId(s[b].op_id) && LastIndex(ds, s[a].op_id) >= 0
             && graph(ds[LastIndex(ds, s[a].op_id)].desc.opdef) == Some(s[b].op_id)
    ensures b < a
  {
    var entries := Entries(ordering, ListDistance(ds));
    var s := StableSort(entries);
    SortIsStable(entries);
    EntriesCarryDistances(ordering, ListDistance(ds));
    assert s[a] in multiset(s) && s[b] in multiset(s);
    assert s[a] in entries && s[b] in entries;
    var i, p := LastIndex(ds, s[a].op_id), LastIndex(ds, s[b].op_id);
    ProducerIsCloser(ds0, graph, ds, i, p, s[b].op_id);
    SmallerIsEarlier(s, b, a);
  }

  lemma SameIndex(ds: seq<OpDesc>, ds': seq<OpDesc>, id: Id)
    requires |ds'| == |ds| && forall i :: 0 <= i < |ds| ==> ds'[i].op_id == ds[i].op_id
    ensures LastIndex(ds', id) == LastIndex(ds, id)
  {
  }

  lemma ProducerIsCloser(ds0: seq<OpDesc>, graph: Graph, ds: seq<OpDesc>, i: nat, p: nat, producer: Id)
    requires DistancesSet(ds0, graph, ds) && AllHaveOperations(ds0) && 2 * |ds0| <= MAX_DISTANCE + 1
    requires !Cyclic(Chains(ds0, graph))
    requires i < |ds| && p < |ds| && graph(ds[i].desc.opdef) == Some(producer) && p == LastIndex(ds, producer)
    ensures ds[p].desc.distance < ds[i].desc.distance
  {
    var started := AllStarted(ds0, graph);
    assert forall k :: 0 <= k < |ds| ==> started[k] == Started(ds0, graph, k);
    SameIndex(ds0, ds, producer);
    assert Link(started, i) == p;
    assert Chains(ds0, graph)[i] == p;
    LongestStep(Chains(ds0, graph), Positions(|ds0|), i);
    DistancesAreLongest(ds0, graph, ds, i);
    DistancesAreLongest(ds0, graph, ds, p);
  }

  /** When every first producer is listed before its user, distances are positions, so
      that the sort by list distances is the order of the list. */
  lemma TopologicalDistances(ds0: seq<OpDesc>, graph: Graph, ds: seq<OpDesc>, i: nat)
    requires DistancesSet(ds0, graph, ds) && AllHaveOperations(ds0) && 2 * |ds0| <= MAX_DISTANCE + 1
    requires forall k :: 0 <= k < |ds0| ==> Chains(ds0, graph)[k] < k
    requires i < |ds|
    ensures ds[i].desc.distance == i
  {
    DescendingIsAcyclic(Chains(ds0, graph));
    DistancesAreLongest(ds0, graph, ds, i);
    BestIsPosition(Chains(ds0, graph), Positions(|ds0|), i, |ds|);
  }

  /** Links that only go back to earlier nodes. */
  lemma DescendingIsAcyclic(pre: Links)
    requires ValidLinks(pre) && forall k :: 0 <= k < |pre| ==> pre[k] < k
    ensures !Cyclic(pre)
  {
    SettledIsAcyclic(pre, Positions(|pre|));
  }

  lemma {:induction false} BestIsPosition(pre: Links, start: seq<nat>, i: nat, k: nat)
    requires ValidLinks(pre) && |start| == |pre| && i < |pre|
    requires forall j :: 0 <= j < |pre| ==> start[j] == j && pre[j] < j
    ensures Best(pre, start, i, k) == i
    decreases k
  {
    if pre[i] >= 0 && k > 0 {
      BestIsPosition(pre, start, pre[i], k - 1);
    }
  }

  class GraphDeps {
    var opdescs: seq<OpDesc>
    var max_distance: nat
    var runlist: seq<Id>
    const graph: Graph
    const opdesc_hash: OpDescHashBucket

    ghost predicate Valid()
      reads this, opdesc_hash
    {
      opdesc_hash.Valid() && NoDistances(opdesc_hash.Map()) && Mirrors(opdesc_hash.Map(), opdescs)
    }

    constructor (graph: Graph)
      ensures Valid() && fresh(opdesc_hash) && this.graph == graph && opdescs == [] && runlist == []
      ensures opdesc_hash.Map() == map[]
    {
      this.graph := graph;
      opdescs, runlist, max_distance := [], [], 0;
      var hash := new OpDescHashBucket();
      hash.Init(64);
      opdesc_hash := hash;
    }

    /** Record an operation in the table and, the first time, in the list. */
    method AddOp(op_id: Id, opdef: nat)
      requires Valid() && opdef != 0
      modifies this`opdescs, opdesc_hash
      ensures Valid()
      ensures opdesc_hash.Map() == Added(old(opdesc_hash.Map()), op_id, opdef)
      ensures op_id in opdesc_hash.Map() && forall x :: x != op_id ==>
        (x in opdesc_hash.Map() <==> x in old(opdesc_hash.Map())) && (x in opdesc_hash.Map() ==> opdesc_hash.Map()[x] == old(opdesc_hash.Map())[x])
      ensures opdesc_hash.Map()[op_id] ==
        if op_id in old(opdesc_hash.Map()) && old(opdesc_hash.Map())[op_id].opdef != 0 then old(opdesc_hash.Map())[op_id] else Desc(opdef, 0, 0)
      ensures opdescs == if opdesc_hash.Map() == old(opdesc_hash.Map()) then old(opdescs) else old(opdescs) + [OpDesc(op_id, Desc(opdef, 0, 0))]
    {
      var desc := Register(op_id, opdef);
      if desc.opdef == 0 {
        MirrorsMore(old(opdesc_hash.Map()), opdescs, op_id, Desc(opdef, 0, 0));
        assert opdesc_hash.Map()[op_id].opdef == opdef;
        opdescs := opdescs + [OpDesc(op_id, desc.(opdef := opdef))];
      }
    }

    /** The descriptor of an operation as the table held it, or a new one, before its pointer
        was filled in. */
    method Register(op_id: Id, opdef: nat) returns (desc: Desc)
      requires opdesc_hash.Valid() && NoDistances(opdesc_hash.Map()) && opdef != 0
      modifies opdesc_hash
      ensures opdesc_hash.Valid() && opdesc_hash.Map() == Added(old(opdesc_hash.Map()), op_id, opdef)
      ensures desc == if op_id in old(opdesc_hash.Map()) then old(opdesc_hash.Map())[op_id] else UNUSED
    {
      ghost var m := opdesc_hash.Map();
      AddedFromInserted(m, op_id, opdef);
      var k := opdesc_hash.Insert(op_id);
      desc := opdesc_hash.slots[k].desc;
      if desc.opdef == 0 {
        opdesc_hash.Store(k, desc.(opdef := opdef));
      }
    }

    /** The runlist of an ordering; false on a cycle of first producers or when no operation
        of the ordering is known. */
    method BuildRunlist(ordering: seq<Id>) returns (ok: bool)
      requires Valid()
      modifies this`opdescs, this`max_distance, this`runlist, opdesc_hash
      ensures Valid() && opdesc_hash.Map() == old(opdesc_hash.Map())
      ensures DistancesSet(old(opdescs), graph, opdescs)
      ensures ok <==> Accepted(old(opdescs), graph) && Known(ordering, opdesc_hash.Map()) != []
      ensures ok ==> runlist == Known(ordering, opdesc_hash.Map())
    {
      runlist := [];
      ghost var before := opdescs;
      opdesc_hash.Rebuild();
      var acyclic := SetDistances();
      MirrorsDistances(opdesc_hash.Map(), before, opdescs);
      if !acyclic {
        return false;
      }
      if ordering == [] {
        return false;
      }
      var dist_op := KnownEntries(ordering);
      TableSortIsOrdering(ordering, opdesc_hash.Map());
      runlist := OpIds(StableSort(dist_op));
      return runlist != [];
    }

    method KnownEntries(ordering: seq<Id>) returns (dist_op: seq<Entry>)
      requires opdesc_hash.Valid()
      ensures dist_op == Entries(ordering, TableDistance(opdesc_hash.Map()))
    {
      dist_op := [];
      var i := 0;
      while i < |ordering|
        invariant 0 <= i <= |ordering|
        invariant dist_op == Entries(ordering[..i], TableDistance(opdesc_hash.Map()))
      {
        assert ordering[..i + 1][..i] == ordering[..i];
        var k := opdesc_hash.Lookup(ordering[i]);
        if k.Some? {
          dist_op := dist_op + [Entry(opdesc_hash.slots[k.value].desc.distance, ordering[i])];
        }
        i := i + 1;
      }
      assert ordering[..i] == ordering;
    }

    /** Position of every id. */
    method IndexIds() returns (op_idx: map<Id, nat>)
      ensures IndexesIds(op_idx, opdescs)
    {
      op_idx := map[];
      var i := 0;
      while i < |opdescs|
        invariant 0 <= i <= |opdescs|
        invariant IndexesIds(op_idx, opdescs[..i])
      {
        assert opdescs[..i + 1][..i] == opdescs[..i];
        op_idx := op_idx[opdescs[i].op_id := i];
        i := i + 1;
      }
      assert opdescs[..i] == opdescs;
    }

    /** Initial distances and predecessors. */
    method StartDistances() returns (largest: nat)
      modifies this`opdescs
      ensures opdescs == AllStarted(old(opdescs), graph) && largest == LargestOf(opdescs, |opdescs|)
    {
      var op_idx := IndexIds();
      ghost var before := opdescs;
      largest := 0;
      var i := 0;
      while i < |opdescs|
        invariant 0 <= i <= |opdescs| == |before|
        invariant forall k :: 0 <= k < i ==> opdescs[k] == Started(before, graph, k)
        invariant forall k :: i <= k < |opdescs| ==> opdescs[k] == before[k]
        invariant largest == LargestOf(opdescs, i) && largest <= i
      {
        ghost var ds := opdescs;
        StartAt(i, op_idx, before);
        if opdescs[i].desc.opdef != 0 && i > largest {
          largest := i;
        }
        LargestOfSame(ds, opdescs, i);
        i := i + 1;
      }
    }

    /** Initial distance and predecessor of one descriptor that has an operation. */
    method StartAt(i: nat, op_idx: map<Id, nat>, ghost before: seq<OpDesc>)
      requires i < |opdescs| == |before| && opdescs[i] == before[i] && IndexesIds(op_idx, before)
      modifies this`opdescs
      ensures opdescs == old(opdescs)[i := Started(before, graph, i)]
    {
      var op := opdescs[i];
      if op.desc.opdef != 0 {
        var predecessor := 0;
        var first := graph(op.desc.opdef);
        if first.Some? && first.value in op_idx {
          predecessor := op_idx[first.value] + 1;
        }
        opdescs := opdescs[i := op.(desc := Desc(op.desc.opdef, i, predecessor))];
      }
    }

    /** One pass over all descriptors. */
    method RelaxOnce(largest: nat) returns (changed: bool, larger: nat)
      requires largest == LargestOf(opdescs, |opdescs|)
      modifies this`opdescs
      ensures PassDone(old(opdescs), opdescs, |opdescs|, changed, larger)
    {
      changed, larger := false, largest;
      ghost var before := opdescs;
      var i := 0;
      while i < |opdescs|
        invariant 0 <= i <= |opdescs|
        invariant PassDone(before, opdescs, i, changed, larger)
      {
        ghost var ds, ch := opdescs, changed;
        var updated: bool;
        updated, larger := RelaxAt(i, larger);
        changed := changed || updated;
        DescriptorDone(before, ds, opdescs, i, ch, updated, larger);
        i := i + 1;
      }
    }

    /** distance = max(distance, predecessor's distance + 1) in 32 bits, for one descriptor. */
    method RelaxAt(i: nat, largest: nat) returns (updated: bool, larger: nat)
      requires i < |opdescs| && largest == LargestOf(opdescs, |opdescs|)
      modifies this`opdescs
      ensures RelaxedAt(old(opdescs), opdescs, i, updated, larger)
    {
      updated, larger := false, largest;
      var desc := opdescs[i].desc;
      ghost var d, pre := Distances(opdescs), LinksOf(opdescs);
      assert pre[i] == Link(opdescs, i);
      if desc.opdef == 0 || desc.predecessor == 0 {
        return;
      }
      var pred_idx := desc.predecessor - 1;
      if pred_idx >= |opdescs| || opdescs[pred_idx].desc.opdef == 0 {
        return;
      }
      var new_dist := Next(opdescs[pred_idx].desc.distance);
      if new_dist > desc.distance {
        LargestOfRaised(opdescs, i, new_dist, |opdescs|);
        opdescs := WithDistance(opdescs, i, new_dist);
        assert Distances(opdescs) == d[i := new_dist];
        assert Distances(opdescs)[i] != d[i];
        if new_dist > larger {
          larger := new_dist;
        }
        updated := true;
      }
    }

    /** Relax until nothing changes, for at most 4 n + 16 passes. */
    method SetDistances() returns (ok: bool)
      modifies this`opdescs, this`max_distance
      ensures DistancesSet(old(opdescs), graph, opdescs) && (ok <==> Accepted(old(opdescs), graph))
      ensures ok && opdescs != [] ==> IsLargest(opdescs, max_distance)
      ensures !ok ==> max_distance == old(max_distance)
    {
      if |opdescs| == 0 {
        NothingToSet(opdescs, graph);
        return true;
      }
      ghost var before := opdescs;
      var largest := StartDistances();
      ghost var started := opdescs;
      var limit := Limit(|opdescs|);
      var iter, changed;
      iter, changed, largest := RelaxUpTo(limit, largest);
      AfterLastPass(before, graph, started, opdescs, iter, changed);
      if iter >= limit && changed {
        return false;
      }
      max_distance := largest;
      LargestBounds(opdescs, |opdescs|);
      return true;
    }

    method RelaxUpTo(limit: nat, largest0: nat) returns (iter: nat, changed: bool, largest: nat)
      requires largest0 == LargestOf(opdescs, |opdescs|)
      modifies this`opdescs
      ensures PassesDone(old(opdescs), opdescs, iter, changed) && largest == LargestOf(opdescs, |opdescs|)
      ensures iter <= limit && (changed ==> iter == limit)
    {
      ghost var started := opdescs;
      iter, changed, largest := 0, true, largest0;
      while changed && iter < limit
        invariant 0 <= iter <= limit
        invariant PassesDone(started, opdescs, iter, changed) && largest == LargestOf(opdescs, |opdescs|)
        decreases limit - iter
      {
        ghost var ds, ch := opdescs, changed;
        iter := iter + 1;
        changed, largest := RelaxOnce(largest);
        PassDoneAll(started, ds, opdescs, iter - 1, ch, changed, largest);
      }
    }
  }

  // ----- The contracts of the loops, on values -----

  ghost predicate RelaxedAt(ds: seq<OpDesc>, ds': seq<OpDesc>, i: nat, updated: bool, larger: nat)
    requires i < |ds|
  {
    && OnlyDistances(ds, ds') && larger == LargestOf(ds', |ds'|)
    && Distances(ds') == Updated(LinksOf(ds), Distances(ds), i)
    && (updated <==> Distances(ds') != Distances(ds))
  }

  ghost predicate PassDone(ds0: seq<OpDesc>, ds: seq<OpDesc>, i: nat, changed: bool, larger: nat) {
    && OnlyDistances(ds0, ds) && larger == LargestOf(ds, |ds|)
    && i <= |ds0| && Distances(ds) == PassTo(LinksOf(ds0), Distances(ds0), i)
    && (changed <==> Distances(ds) != Distances(ds0))
  }

  lemma DescriptorDone(ds0: seq<OpDesc>, ds: seq<OpDesc>, ds': seq<OpDesc>, i: nat, changed: bool, updated: bool, larger: nat)
    requires i < |ds| && PassDone(ds0, ds, i, changed, LargestOf(ds, |ds|)) && RelaxedAt(ds, ds', i, updated, larger)
    ensures PassDone(ds0, ds', i + 1, changed || updated, larger)
  {
    SameLinks(ds0, ds);
    var pre, d0 := LinksOf(ds0), Distances(ds0);
    PassGrows(pre, d0, 0, i);
    PassGrows(pre, d0, i, i + 1);
    GrowsApart(d0, Distances(ds), Distances(ds'));
  }

  /** What grows twice is where it was only if it never moved. */
  lemma GrowsApart(a: seq<nat>, b: seq<nat>, c: seq<nat>)
    requires |a| == |b| == |c| && forall k :: 0 <= k < |a| ==> a[k] <= b[k] <= c[k]
    ensures a == c <==> a == b && b == c
  {
    if a == c {
      assert forall k :: 0 <= k < |a| ==> a[k] == b[k];
    }
  }

  ghost predicate PassesDone(started: seq<OpDesc>, ds: seq<OpDesc>, iter: nat, changed: bool) {
    && OnlyDistances(started, ds) && Distances(ds) == Passes(LinksOf(started), Distances(started), iter)
    && (changed <==> !SettledBy(LinksOf(started), Distances(started), iter))
  }

  lemma PassDoneAll(started: seq<OpDesc>, ds: seq<OpDesc>, ds': seq<OpDesc>, iter: nat, changed0: bool, changed: bool, larger: nat)
    requires PassesDone(started, ds, iter, changed0) && PassDone(ds, ds', |ds'|, changed, larger)
    ensures PassesDone(started, ds', iter + 1, changed)
  {
    SameLinks(started, ds);
  }

  lemma AfterLastPass(ds0: seq<OpDesc>, graph: Graph, started: seq<OpDesc>, ds: seq<OpDesc>, iter: nat, changed: bool)
    requires started == AllStarted(ds0, graph) && PassesDone(started, ds, iter, changed)
    requires iter <= Limit(|ds0|) && (changed ==> iter == Limit(|ds0|))
    ensures DistancesSet(ds0, graph, ds) && (Accepted(ds0, graph) <==> !changed)
  {
    if !changed {
      StaysSettled(LinksOf(started), Distances(started), iter, Limit(|ds0|));
    }
  }

  lemma NothingToSet(ds: seq<OpDesc>, graph: Graph)
    requires ds == []
    ensures DistancesSet(ds, graph, ds) && Accepted(ds, graph)
  {
  }
}
