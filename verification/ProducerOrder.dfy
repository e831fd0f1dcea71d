/** The order of the nodes, by ids: the reverse post-order of the search
    (compiler/src/ir/graph_prepare.cpp:3200-3283).  It puts all producers first if and only if
    the graph is acyclic.
 */
module ProducerOrder {
  import Sequences
  import opened HashTable
  import opened NodeOrder

  /** The producers of each operation, in the order of its inputs. */
  type Inputs = Id -> seq<Id>

  /** Each operation comes after those of its producers that are listed. */
  predicate ProducersBefore(order: seq<Id>, inputs: Inputs) {
    forall k, x :: 0 <= k < |order| && x in inputs(order[k]) && x in order ==> x in order[..k]
  }

  /** Each operation of a cycle has the one before as a producer. */
  predicate IsIdCycle(nodes: seq<Id>, inputs: Inputs, c: seq<Id>) {
    && |c| >= 2 && c[0] == c[|c| - 1]
    && (forall k :: 0 <= k < |c| ==> c[k] in nodes)
    && (forall k :: 0 < k < |c| ==> c[k - 1] in inputs(c[k]))
  }

  ghost predicate GraphCyclic(nodes: seq<Id>, inputs: Inputs) {
    exists c :: IsIdCycle(nodes, inputs, c)
  }

  /** An edge from each producer to each of its users. */
  ghost predicate IsAdjacency(adj: Adjacency, nodes: seq<Id>, inputs: Inputs) {
    && |adj| == |nodes| && ValidAdjacency(adj)
    && forall a: nat, b: nat :: a < |nodes| && b < |nodes| ==> (b in adj[a] <==> nodes[a] in inputs(nodes[b]))
  }

  lemma CycleHasIds(adj: Adjacency, nodes: seq<Id>, inputs: Inputs, p: seq<nat>)
    requires IsAdjacency(adj, nodes, inputs) && IsCycle(adj, p)
    ensures GraphCyclic(nodes, inputs)
  {
    var c := seq(|p|, k requires 0 <= k < |p| => nodes[p[k]]);
    forall k | 0 < k < |c|
      ensures c[k - 1] in inputs(c[k])
    {
      assert p[k] in adj[p[k - 1]];
    }
    assert IsIdCycle(nodes, inputs, c);
  }

  /** The ids of a post-order, the last finished first. */
  function Reversed(post: seq<nat>, nodes: seq<Id>): (r: seq<Id>)
    requires forall i :: 0 <= i < |post| ==> post[i] < |nodes|
    ensures |r| == |post| && forall k :: 0 <= k < |r| ==> r[k] == nodes[post[|post| - 1 - k]]
  {
    seq<Id>(|post|, k requires 0 <= k < |post| => nodes[post[|post| - 1 - k]])
  }

  lemma ReversedHolds(post: seq<nat>, nodes: seq<Id>)
    requires Sequences.Distinct(nodes) && ListsBelow(post, |nodes|)
    ensures Sequences.Distinct(Reversed(post, nodes)) && forall x :: x in Reversed(post, nodes) <==> x in nodes
  {
    var r := Reversed(post, nodes);
    forall x | x in nodes
      ensures x in r
    {
      var a: nat :| a < |nodes| && nodes[a] == x;
      assert a in post;
      var k :| 0 <= k < |post| && post[k] == a;
      assert r[|post| - 1 - k] == x;
    }
    forall i, j | 0 <= i < j < |r|
      ensures r[i] != r[j]
    {
      var n := |post| - 1;
      assert post[n - j] != post[n - i];
    }
  }

  lemma ReversedIsOrder(adj: Adjacency, post: seq<nat>, nodes: seq<Id>, inputs: Inputs)
    requires IsAdjacency(adj, nodes, inputs) && PostOrdered(adj, post)
    requires Sequences.Distinct(nodes) && ListsBelow(post, |nodes|)
    ensures ProducersBefore(Reversed(post, nodes), inputs)
  {
    var r := Reversed(post, nodes);
    ReversedHolds(post, nodes);
    forall k, x | 0 <= k < |r| && x in inputs(r[k]) && x in r
      ensures x in r[..k]
    {
      var n := |post| - 1;
      var b := post[n - k];
      var l :| 0 <= l < |r| && r[l] == x;
      var a := post[n - l];
      assert b in adj[a];
      assert b in post[..n - l];
      var j :| 0 <= j < n - l && post[j] == b;
      assert l < k;
      assert r[..k][l] == x;
    }
  }

  /** An order that puts all producers first leaves no room for a cycle. */
  lemma OrderedIsAcyclic(order: seq<Id>, nodes: seq<Id>, inputs: Inputs)
    requires ProducersBefore(order, inputs) && Sequences.Distinct(order) && forall x :: x in nodes ==> x in order
    ensures !GraphCyclic(nodes, inputs)
  {
    forall c | IsIdCycle(nodes, inputs, c)
      ensures false
    {
      var k :| 0 <= k < |order| && order[k] == c[0];
      var l := CycleAscends(order, nodes, inputs, c, |c| - 1, k);
    }
  }

  /** Along a cycle positions only grow. */
  lemma {:induction false} CycleAscends(order: seq<Id>, nodes: seq<Id>, inputs: Inputs, c: seq<Id>, i: nat, k: nat) returns (l: nat)
    requires ProducersBefore(order, inputs) && Sequences.Distinct(order) && IsIdCycle(nodes, inputs, c)
    requires forall x :: x in nodes ==> x in order
    requires i < |c| && k < |order| && order[k] == c[0]
    ensures l < |order| && order[l] == c[i] && (if i == 0 then l == k else k < l)
  {
    if i == 0 {
      l := k;
    } else {
      var j := CycleAscends(order, nodes, inputs, c, i - 1, k);
      assert c[i] in nodes && c[i - 1] in nodes;
      l :| 0 <= l < |order| && order[l] == c[i];
      assert c[i - 1] in inputs(order[l]);
      var m :| 0 <= m < l && order[m] == c[i - 1];
    }
  }

  /** Position of each id. */
  ghost predicate IsIndex(id_to_idx: map<Id, nat>, nodes: seq<Id>) {
    && (forall x :: x in id_to_idx <==> x in nodes)
    && (forall x :: x in id_to_idx ==> id_to_idx[x] < |nodes| && nodes[id_to_idx[x]] == x)
  }

  method IndexNodes(nodes: seq<Id>) returns (id_to_idx: map<Id, nat>)
    ensures IsIndex(id_to_idx, nodes)
  {
    id_to_idx := map[];
    var i := 0;
    while i < |nodes|
      invariant i <= |nodes| && IsIndex(id_to_idx, nodes[..i])
    {
      id_to_idx := id_to_idx[nodes[i] := i];
      i := i + 1;
    }
    assert nodes[..i] == nodes;
  }

  /** Edges to the first i nodes, and along the first j inputs of node i. */
  predicate HasEdge(nodes: seq<Id>, inputs: Inputs, i: nat, j: nat, a: nat, b: nat)
    requires a < |nodes| && (i < |nodes| ==> j <= |inputs(nodes[i])|)
  {
    b < |nodes| && if b < i then nodes[a] in inputs(nodes[b]) else b == i && nodes[a] in inputs(nodes[i])[..j]
  }

  ghost predicate EdgesTo(adj: Adjacency, nodes: seq<Id>, inputs: Inputs, i: nat, j: nat)
    requires i < |nodes| ==> j <= |inputs(nodes[i])|
  {
    |adj| == |nodes| && forall a: nat, b: nat :: a < |nodes| ==> (b in adj[a] <==> HasEdge(nodes, inputs, i, j, a, b))
  }

  method BuildAdjacency(nodes: seq<Id>, inputs: Inputs) returns (adj: Adjacency)
    requires Sequences.Distinct(nodes)
    ensures IsAdjacency(adj, nodes, inputs)
  {
    var id_to_idx := IndexNodes(nodes);
    adj := seq(|nodes|, _ => []);
    var i := 0;
    while i < |nodes|
      invariant i <= |nodes| && EdgesTo(adj, nodes, inputs, i, 0)
    {
      adj := AddEdgesTo(adj, nodes, inputs, id_to_idx, i);
      i := i + 1;
    }
    assert forall a: nat, b: nat :: a < |nodes| && b in adj[a] ==> b < |nodes|;
  }

  /** An edge to node i from each of its producers. */
  method AddEdgesTo(adj0: Adjacency, nodes: seq<Id>, inputs: Inputs, id_to_idx: map<Id, nat>, i: nat) returns (adj: Adjacency)
    requires Sequences.Distinct(nodes) && IsIndex(id_to_idx, nodes) && i < |nodes| && EdgesTo(adj0, nodes, inputs, i, 0)
    ensures EdgesTo(adj, nodes, inputs, i + 1, 0)
  {
    adj := adj0;
    var conns := inputs(nodes[i]);
    var j := 0;
    while j < |conns|
      invariant j <= |conns| && EdgesTo(adj, nodes, inputs, i, j)
    {
      if conns[j] in id_to_idx {
        var src := id_to_idx[conns[j]];
        adj := adj[src := adj[src] + [i]];
      }
      assert conns[..j + 1] == conns[..j] + [conns[j]];
      j := j + 1;
    }
    assert conns[..j] == conns;
  }

  /** The order of the live nodes: all of them once, and all producers first exactly when the
      graph is acyclic. */
  method OrderNodes(nodes: seq<Id>, inputs: Inputs) returns (ordering: seq<Id>)
    requires Sequences.Distinct(nodes)
    ensures Sequences.Distinct(ordering) && forall x :: x in ordering <==> x in nodes
    ensures ProducersBefore(ordering, inputs) <==> !GraphCyclic(nodes, inputs)
  {
    var adj := BuildAdjacency(nodes, inputs);
    var post := PostOrder(adj);
    ordering := Reversed(post, nodes);
    ReversedHolds(post, nodes);
    if ProducersBefore(ordering, inputs) {
      OrderedIsAcyclic(ordering, nodes, inputs);
    } else if Cyclic(adj) {
      var p :| IsCycle(adj, p);
      CycleHasIds(adj, nodes, inputs, p);
    } else {
      ReversedIsOrder(adj, post, nodes, inputs);
    }
  }
}
