/** A depth-first search with an explicit stack that lists nodes as it finishes them
    (compiler/src/ir/graph_prepare.cpp:3229-3273): on an acyclic graph, every node after its
    successors.
 */
module NodeOrder {
  import opened Sequences

  /** Successors of each node, by position. */
  type Adjacency = seq<seq<nat>>

  predicate ValidAdjacency(adj: Adjacency) {
    forall i, v :: 0 <= i < |adj| && v in adj[i] ==> v < |adj|
  }

  /** Each node of a walk is a successor of the one before. */
  ghost predicate IsWalk(adj: Adjacency, p: seq<nat>) {
    && (forall k :: 0 <= k < |p| ==> p[k] < |adj|)
    && (forall k :: 0 < k < |p| ==> p[k] in adj[p[k - 1]])
  }

  ghost predicate Cyclic(adj: Adjacency) {
    exists p :: IsCycle(adj, p)
  }

  ghost predicate IsCycle(adj: Adjacency, p: seq<nat>) {
    IsWalk(adj, p) && |p| >= 2 && p[0] == p[|p| - 1]
  }

  /** Successors of a finished node were finished before it. */
  ghost predicate PostOrdered(adj: Adjacency, post: seq<nat>) {
    forall k, v :: 0 <= k < |post| && post[k] < |adj| && v in adj[post[k]] ==> v in post[..k]
  }

  // ----- The search -----

  /** A node of the stack and the next of its successors to look at. */
  datatype StackEntry = StackEntry(node: nat, next: nat)

  function NodesOf(stack: seq<StackEntry>): (r: seq<nat>)
    ensures |r| == |stack| && forall k :: 0 <= k < |stack| ==> r[k] == stack[k].node
  {
    seq(|stack|, k requires 0 <= k < |stack| => stack[k].node)
  }

  /** The visited nodes are the finished ones and those of the stack, each once. */
  ghost predicate Accounted(adj: Adjacency, visited: seq<bool>, stack: seq<StackEntry>, post: seq<nat>) {
    && |visited| == |adj| && Distinct(post + NodesOf(stack))
    && (forall x :: x in post ==> x < |adj|)
    && (forall k :: 0 <= k < |stack| ==> stack[k].node < |adj| && stack[k].next <= |adj[stack[k].node]|)
    && (forall x: nat :: x < |adj| ==> (visited[x] <==> x in post || x in NodesOf(stack)))
  }

  /** What is behind the next successor of a stack entry has been visited. */
  ghost predicate Scanned(adj: Adjacency, visited: seq<bool>, e: StackEntry) {
    && e.node < |adj| && e.next <= |adj[e.node]|
    && forall j :: 0 <= j < e.next ==> IsVisited(visited, adj[e.node][j])
  }

  predicate IsVisited(visited: seq<bool>, x: nat) {
    x < |visited| && visited[x]
  }

  ghost predicate Searching(adj: Adjacency, visited: seq<bool>, stack: seq<StackEntry>, post: seq<nat>) {
    && Accounted(adj, visited, stack, post)
    && (forall k :: 0 <= k < |stack| ==> Scanned(adj, visited, stack[k]))
    && IsWalk(adj, NodesOf(stack))
    && (!Cyclic(adj) ==> PostOrdered(adj, post))
  }

  /** A successor of the top that is on the stack closes a cycle. */
  lemma StackClosesCycle(adj: Adjacency, nodes: seq<nat>, v: nat)
    requires nodes != [] && IsWalk(adj, nodes) && v in adj[nodes[|nodes| - 1]] && v in nodes
    ensures Cyclic(adj)
  {
    var k :| 0 <= k < |nodes| && nodes[k] == v;
    var p := nodes[k..] + [v];
    forall i | 0 < i < |p|
      ensures p[i] in adj[p[i - 1]]
    {
      if i < |p| - 1 {
        assert p[i] == nodes[k + i] && p[i - 1] == nodes[k + i - 1];
      } else {
        assert p[i - 1] == nodes[|nodes| - 1];
      }
    }
    assert IsCycle(adj, p);
  }

  /** The top has no successor left: it is finished. */
  lemma FinishKeeps(adj: Adjacency, visited: seq<bool>, stack: seq<StackEntry>, post: seq<nat>)
    requires ValidAdjacency(adj) && Searching(adj, visited, stack, post) && stack != []
    requires Scanned(adj, visited, StackEntry(stack[|stack| - 1].node, |adj[stack[|stack| - 1].node]|))
    ensures Searching(adj, visited, stack[..|stack| - 1], post + [stack[|stack| - 1].node])
  {
    var front, top := stack[..|stack| - 1], stack[|stack| - 1];
    var nodes := NodesOf(stack);
    assert NodesOf(front) == nodes[..|nodes| - 1] && nodes == NodesOf(front) + [top.node];
    FinishAccounted(adj, visited, stack, post);
    if !Cyclic(adj) {
      forall v | v in adj[top.node]
        ensures v in post
      {
        var j :| 0 <= j < |adj[top.node]| && adj[top.node][j] == v;
        assert IsVisited(visited, adj[top.node][j]);
        if v in nodes {
          StackClosesCycle(adj, nodes, v);
        }
      }
      PostOrderedSnoc(adj, post, top.node);
    }
  }

  lemma PostOrderedSnoc(adj: Adjacency, post: seq<nat>, x: nat)
    requires PostOrdered(adj, post) && x < |adj| && forall v :: v in adj[x] ==> v in post
    ensures PostOrdered(adj, post + [x])
  {
    var r := post + [x];
    forall k, v | 0 <= k < |r| && r[k] < |adj| && v in adj[r[k]]
      ensures v in r[..k]
    {
      if k < |post| {
        assert r[..k] == post[..k];
      } else {
        assert r[..k] == post;
      }
    }
  }

  lemma FinishAccounted(adj: Adjacency, visited: seq<bool>, stack: seq<StackEntry>, post: seq<nat>)
    requires Accounted(adj, visited, stack, post) && stack != []
    ensures Accounted(adj, visited, stack[..|stack| - 1], post + [stack[|stack| - 1].node])
  {
    var front, x := stack[..|stack| - 1], stack[|stack| - 1].node;
    assert NodesOf(stack) == NodesOf(front) + [x];
    MoveOver(post, NodesOf(front), x);
  }

  lemma MoveOver(a: seq<nat>, b: seq<nat>, x: nat)
    requires Distinct(a + (b + [x]))
    ensures Distinct((a + [x]) + b)
  {
    var s, r := a + (b + [x]), (a + [x]) + b;
    forall i, j | 0 <= i < j < |r|
      ensures r[i] != r[j]
    {
      var n := |a|;
      var i' := if i < n then i else if i == n then |s| - 1 else i - 1;
      var j' := if j < n then j else if j == n then |s| - 1 else j - 1;
      assert r[i] == s[i'] && r[j] == s[j'] && i' != j';
    }
  }

  /** A successor that was not visited goes on the stack. */
  lemma DescendKeeps(adj: Adjacency, visited: seq<bool>, stack: seq<StackEntry>, post: seq<nat>, next: nat, v: nat)
    requires ValidAdjacency(adj) && Searching(adj, visited, stack, post) && stack != []
    requires 0 < next <= |adj[stack[|stack| - 1].node]| && Scanned(adj, visited, StackEntry(stack[|stack| - 1].node, next - 1))
    requires v < |visited| && !visited[v] && v == adj[stack[|stack| - 1].node][next - 1]
    ensures Searching(adj, visited[v := true], Descended(stack, next, v), post)
  {
    var visited', stack' := visited[v := true], Descended(stack, next, v);
    assert NodesOf(stack') == NodesOf(stack) + [v];
    DescendAccounted(adj, visited, stack, post, next, v);
    forall k | 0 <= k < |stack'|
      ensures Scanned(adj, visited', stack'[k])
    {
      if k < |stack| {
        assert Scanned(adj, visited, stack[k]);
      }
    }
  }

  /** The top has looked at the successors before next, and v is the new top. */
  function Descended(stack: seq<StackEntry>, next: nat, v: nat): (r: seq<StackEntry>)
    requires stack != []
    ensures |r| == |stack| + 1
  {
    var n := |stack| - 1;
    stack[n := StackEntry(stack[n].node, next)] + [StackEntry(v, 0)]
  }

  lemma DescendAccounted(adj: Adjacency, visited: seq<bool>, stack: seq<StackEntry>, post: seq<nat>, next: nat, v: nat)
    requires Accounted(adj, visited, stack, post) && stack != [] && v < |adj| && !visited[v]
    requires next <= |adj[stack[|stack| - 1].node]|
    ensures Accounted(adj, visited[v := true], Descended(stack, next, v), post)
  {
    var stack' := Descended(stack, next, v);
    assert NodesOf(stack') == NodesOf(stack) + [v];
    assert v !in post && v !in NodesOf(stack);
    DistinctSnoc(post + NodesOf(stack), v);
    assert post + NodesOf(stack') == post + NodesOf(stack) + [v];
  }

  lemma DistinctSnoc(s: seq<nat>, x: nat)
    requires Distinct(s) && x !in s
    ensures Distinct(s + [x])
  {
  }

  /** A node that was not visited begins a new stack. */
  lemma StartKeeps(adj: Adjacency, visited: seq<bool>, post: seq<nat>, start: nat)
    requires Searching(adj, visited, [], post) && start < |adj| && !visited[start]
    ensures Searching(adj, visited[start := true], [StackEntry(start, 0)], post)
  {
    assert NodesOf([StackEntry(start, 0)]) == [start];
    assert post + NodesOf([]) == post;
    DistinctSnoc(post, start);
  }

  function Unvisited(visited: seq<bool>): set<nat> {
    set x | 0 <= x < |visited| && !visited[x]
  }

  lemma OneLess(visited: seq<bool>, x: nat)
    requires x < |visited| && !visited[x]
    ensures |Unvisited(visited[x := true])| < |Unvisited(visited)|
  {
    assert Unvisited(visited) == Unvisited(visited[x := true]) + {x};
    assert x !in Unvisited(visited[x := true]);
  }

  /** The next successor that was not visited. */
  method FindNext(adj: Adjacency, visited: seq<bool>, e: StackEntry) returns (next: nat, v: nat, found: bool)
    requires ValidAdjacency(adj) && |visited| == |adj| && Scanned(adj, visited, e)
    ensures next <= |adj[e.node]|
    ensures found ==> 0 < next && v == adj[e.node][next - 1] && v < |visited| && !visited[v]
    ensures Scanned(adj, visited, StackEntry(e.node, if found then next - 1 else next)) && (!found ==> next == |adj[e.node]|)
  {
    next, v, found := e.next, 0, false;
    while next < |adj[e.node]|
      invariant Scanned(adj, visited, StackEntry(e.node, next))
    {
      v := adj[e.node][next];
      assert v in adj[e.node];
      next := next + 1;
      if !visited[v] {
        return next, v, true;
      }
    }
  }

  /** Every node, after its successors if no node reaches itself. */
  method PostOrder(adj: Adjacency) returns (post: seq<nat>)
    requires ValidAdjacency(adj)
    ensures ListsBelow(post, |adj|)
    ensures !Cyclic(adj) ==> PostOrdered(adj, post)
  {
    var visited := seq(|adj|, _ => false);
    post := [];
    var start := 0;
    while start < |adj|
      invariant start <= |adj| && Searching(adj, visited, [], post)
      invariant forall x :: 0 <= x < start ==> visited[x]
    {
      if !visited[start] {
        visited, post := SearchFrom(adj, visited, post, start);
      }
      start := start + 1;
    }
    AllVisited(adj, visited, post);
  }

  /** Each of the numbers below n, once. */
  predicate ListsBelow(s: seq<nat>, n: nat) {
    Distinct(s) && (forall i :: 0 <= i < |s| ==> s[i] < n) && forall x: nat :: x < n ==> x in s
  }

  lemma AllVisited(adj: Adjacency, visited: seq<bool>, post: seq<nat>)
    requires Accounted(adj, visited, [], post) && forall x :: 0 <= x < |adj| ==> visited[x]
    ensures ListsBelow(post, |adj|)
  {
    assert NodesOf([]) == [] && post + [] == post;
    forall i | 0 <= i < |post|
      ensures post[i] < |adj|
    {
      assert post[i] in post;
    }
  }

  /** The search from one node, until the stack is empty. */
  method SearchFrom(adj: Adjacency, visited0: seq<bool>, post0: seq<nat>, start: nat) returns (visited: seq<bool>, post: seq<nat>)
    requires ValidAdjacency(adj) && Searching(adj, visited0, [], post0) && start < |adj| && !visited0[start]
    ensures Searching(adj, visited, [], post)
    ensures visited[start] && forall x :: 0 <= x < |adj| && visited0[x] ==> visited[x]
  {
    StartKeeps(adj, visited0, post0, start);
    visited, post := visited0[start := true], post0;
    var stack := [StackEntry(start, 0)];
    while stack != []
      invariant Searching(adj, visited, stack, post)
      invariant visited[start] && forall x :: 0 <= x < |adj| && visited0[x] ==> visited[x]
      decreases |Unvisited(visited)|, |stack|
    {
      var n := |stack| - 1;
      var next, v, found := FindNext(adj, visited, stack[n]);
      if found {
        DescendKeeps(adj, visited, stack, post, next, v);
        OneLess(visited, v);
        visited, stack := visited[v := true], stack[n := StackEntry(stack[n].node, next)] + [StackEntry(v, 0)];
      } else {
        FinishKeeps(adj, visited, stack, post);
        post, stack := post + [stack[n].node], stack[..n];
      }
    }
  }
}
