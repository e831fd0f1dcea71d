/** When a run of a rewriting phase leaves nothing to rewrite
    (compiler/src/opt/pass_manager.cpp:71-117).
 */
module PassFixpoint {
  import opened Options
  import opened Sequences
  import opened Tensors
  import opened GraphRewrite
  import opened GraphMeaning
  import opened PassDriver

  /** No pass of the phase changes anything any more. */
  ghost predicate Fixpoint(g: Ops, hasKernel: Kind -> bool, active: seq<Pass>) {
    forall p: Pass, id: nat :: p in active ==> !Changes(g, hasKernel, p, id)
  }

  /** A fold makes new matches only among the consumers that the node lists. */
  lemma FoldMakesConsumersMatch(g: Ops, w: World, id: nat, data: seq<int>, x: nat)
    requires SoundGraph(g, w) && ConstFoldMatches(g, id) && ConstFoldMatches(Folded(g, id, data), x)
    ensures x != id && (ConstFoldMatches(g, x) || x in g[id].consumers)
  {
    assert SoundNode(g, w, x);
    if id in g[x].inputs {
      var i :| 0 <= i < |g[x].inputs| && g[x].inputs[i] == id;
      assert SoundEdge(g, w, x, g[x].inputs[i]);
    }
  }

  lemma FoldPushesMatches(g: Ops, w: World, hasKernel: Kind -> bool, active: seq<Pass>, id: nat, rest: seq<nat>)
    requires SoundGraph(g, w) && ShapeFold !in active && ConstFoldMatches(g, id)
    requires forall p: Pass, x: nat :: p in active && Changes(g, hasKernel, p, x) ==> x == id || x in rest
    ensures forall p: Pass, x: nat :: p in active && Changes(Rewritten(g, w, ConstFold, id), hasKernel, p, x) ==>
              x in Push(Push(rest, g[id].inputs), g[id].consumers)
  {
    var data := FoldedData(g, w, id);
    PushAddsOnce(rest, g[id].inputs);
    PushAddsOnce(Push(rest, g[id].inputs), g[id].consumers);
    forall p: Pass, x: nat | p in active && Changes(Rewritten(g, w, ConstFold, id), hasKernel, p, x)
      ensures x in Push(Push(rest, g[id].inputs), g[id].consumers)
    {
      assert p == ConstFold;
      FoldMakesConsumersMatch(g, w, id, data, x);
      if x !in g[id].consumers {
        assert Changes(g, hasKernel, ConstFold, x);
      }
    }
  }

  lemma {:induction false} FoldingReachesFixpoint(g: Ops, w: World, hasKernel: Kind -> bool, active: seq<Pass>, wl: seq<nat>)
    requires SoundGraph(g, w) && ShapeFold !in active
    requires forall p: Pass, x: nat :: p in active && Changes(g, hasKernel, p, x) ==> x in wl
    ensures Fixpoint(Drive(g, w, hasKernel, active, wl).ops, hasKernel, active)
    decreases |LiveOps(g)|, |wl|
  {
    if wl != [] {
      var id, rest := wl[|wl| - 1], wl[..|wl| - 1];
      assert forall x :: x in wl ==> x == id || x in rest;
      match FirstPass(g, hasKernel, active, id)
      case None => FoldingReachesFixpoint(g, w, hasKernel, active, rest);
      case Some(p) =>
        var g1 := Rewritten(g, w, p, id);
        var wl1 := Push(Push(rest, g[id].inputs), g[id].consumers);
        RewriteRemovesOne(g, w, p, id);
        RewriteKeeps(g, w, p, id);
        FoldPushesMatches(g, w, hasKernel, active, id, rest);
        FoldingReachesFixpoint(g1, w, hasKernel, active, wl1);
    }
  }

  /** One step of the driver at an operation that matches nothing. */
  lemma StepOver(g: Ops, w: World, hasKernel: Kind -> bool, active: seq<Pass>, wl: seq<nat>, id: nat)
    requires forall p: Pass :: !Matches(g, p, id)
    ensures Drive(g, w, hasKernel, active, wl + [id]) == Drive(g, w, hasKernel, active, wl)
  {
    assert (wl + [id])[..|wl|] == wl;
    assert FirstPass(g, hasKernel, active, id).None?;
  }

  /** Four nodes: an input and three reshapes in a row, all of one element. */
  function Chain(): Ops {
    map[
      0 := OpDef(Input, true, false, [1], [], [1], [], []),
      1 := OpDef(Reshape, true, false, [1, 1], [0], [2], [], []),
      2 := OpDef(Reshape, true, false, [1, 1, 1], [1], [3], [], []),
      3 := OpDef(Reshape, true, false, [1, 1, 1, 1], [2], [], [], [])]
  }

  /** The middle reshape is gone; the tail reads the first one. */
  function ChainLeft(): Ops {
    map[
      0 := OpDef(Input, true, false, [1], [], [1], [], []),
      1 := OpDef(Reshape, true, false, [1, 1], [0], [3], [], []),
      2 := OpDef(Reshape, true, true, [1, 1, 1], [1], [3], [], []),
      3 := OpDef(Reshape, true, false, [1, 1, 1, 1], [1], [], [], [])]
  }

  /** Ids are ranks and all data is zero. */
  function ZeroWorld(): World {
    World(id => id, (k, ps, ts, dims) => Zeros(Product(dims)), _ => [0])
  }

  lemma ChainShapeIsSound(id: nat)
    requires id <= 3
    ensures SoundShape(Chain(), ZeroWorld(), id)
  {
    assert Product([1]) == 1 && Product([1, 1]) == 1 && Product([1, 1, 1]) == 1 && Product([1, 1, 1, 1]) == 1;
  }

  lemma ChainNodeIsSound(id: nat)
    requires id <= 3
    ensures SoundNode(Chain(), ZeroWorld(), id)
  {
    ChainShapeIsSound(id);
    ChainInputs(id);
    if id > 0 {
      ChainEdge(id);
    }
  }

  lemma ChainInputs(id: nat)
    requires id <= 3
    ensures Chain()[id].inputs == if id == 0 then [] else [id - 1]
  {
  }

  lemma ChainEdge(id: nat)
    requires 1 <= id <= 3
    ensures SoundEdge(Chain(), ZeroWorld(), id, id - 1)
  {
    assert id in [id];
  }

  lemma ChainIsSound()
    ensures SoundGraph(Chain(), ZeroWorld())
  {
    forall id | Live(Chain(), id)
      ensures SoundNode(Chain(), ZeroWorld(), id)
    {
      ChainNodeIsSound(id);
    }
  }

  /** The tail merges with the middle and is not looked at again. */
  lemma ChainRun(w: World, hasKernel: Kind -> bool, active: seq<Pass>)
    requires ShapeFold in active
    ensures Drive(Chain(), w, hasKernel, active, [1, 2, 0, 3]).ops == ChainLeft()
  {
    assert MatchPattern(Chain(), 3) == ReshapeChain;
    assert FirstPass(Chain(), hasKernel, active, 3) == Some(ShapeFold);
    ChainMerges();
    assert [1, 2, 0, 3][..3] == [1, 2, 0];
    assert Push(Push([1, 2, 0], [2]), []) == [1, 2, 0];
    ChainRest(w, hasKernel, active);
  }

  lemma ChainLeftMatchesNothingElse(p: Pass, id: nat)
    requires id <= 2
    ensures !Matches(ChainLeft(), p, id)
  {
    var r := ChainLeft();
    assert r[1].inputs[0] == 0 && |r[0].dims| != |r[1].dims|;
    match p case ShapeFold => case ConstFold =>
  }

  lemma ChainRest(w: World, hasKernel: Kind -> bool, active: seq<Pass>)
    ensures Drive(ChainLeft(), w, hasKernel, active, [1, 2, 0]).ops == ChainLeft()
  {
    var r := ChainLeft();
    forall p: Pass, id: nat | id <= 2
      ensures !Matches(r, p, id)
    {
      ChainLeftMatchesNothingElse(p, id);
    }
    assert [1, 2] + [0] == [1, 2, 0] && [1] + [2] == [1, 2] && [] + [1] == [1];
    StepOver(r, w, hasKernel, active, [1, 2], 0);
    StepOver(r, w, hasKernel, active, [1], 2);
    StepOver(r, w, hasKernel, active, [], 1);
  }

  lemma ChainMerges()
    ensures Merged(Chain(), 3, 2) == ChainLeft()
  {
    var g := Chain();
    assert Remove([2], 2) == Remove([2][1..], 2) == [];
    assert Remove(g[1].consumers, 2) + [3] == [3];
    var g1 := g[1 := g[1].(consumers := [3])];
    assert [1][1..] == [];
    assert Relist(g, 3, 2, [1]) == Relist(g1, 3, 2, [1][1..]) == g1;
  }

  /** Every order of the operations of a sound graph seeds a run that ends in a fixpoint. */
  ghost predicate AlwaysReachesFixpoint(active: seq<Pass>) {
    forall g: Ops, w: World, hasKernel: Kind -> bool, order: seq<nat> ::
      SoundGraph(g, w) && Lists(order, g) ==> EndsInFixpoint(g, w, hasKernel, active, order)
  }

  ghost predicate Lists(order: seq<nat>, g: Ops) {
    forall id :: id in g <==> id in order
  }

  ghost predicate EndsInFixpoint(g: Ops, w: World, hasKernel: Kind -> bool, active: seq<Pass>, order: seq<nat>) {
    Fixpoint(Drive(g, w, hasKernel, active, Push([], Candidates(g, order))).ops, hasKernel, active)
  }

  lemma {:induction false} PushKeepsFresh(wl: seq<nat>, ids: seq<nat>)
    requires Distinct(wl + ids)
    ensures Push(wl, ids) == wl + ids
    decreases |ids|
  {
    if ids != [] {
      assert (wl + ids)[|wl|] == ids[0];
      assert forall i :: 0 <= i < |wl| ==> (wl + ids)[i] == wl[i];
      assert wl + [ids[0]] + ids[1..] == wl + ids;
      PushKeepsFresh(wl + [ids[0]], ids[1..]);
    }
  }

  lemma {:induction false} CandidatesOfLive(g: Ops, order: seq<nat>)
    requires forall x :: x in order ==> x in LiveOps(g)
    ensures Candidates(g, order) == order
  {
    if order != [] {
      CandidatesOfLive(g, order[1..]);
    }
  }

  lemma ChainIsLive(x: nat)
    requires x <= 3
    ensures x in LiveOps(Chain())
  {
  }

  /** Distinct live operations are the worklist they seed. */
  lemma SeedsAreOrder(g: Ops, order: seq<nat>)
    requires Distinct(order) && forall x :: x in order ==> x in LiveOps(g)
    ensures Push([], Candidates(g, order)) == order
  {
    CandidatesOfLive(g, order);
    assert [] + order == order;
    PushKeepsFresh([], order);
  }

  lemma ChainOrder(order: seq<nat>)
    requires order == [1, 2, 0, 3]
    ensures Distinct(order) && forall x :: x in order ==> x <= 3
  {
  }

  lemma ChainSeeds(order: seq<nat>)
    requires order == [1, 2, 0, 3]
    ensures Push([], Candidates(Chain(), order)) == order
  {
    ChainOrder(order);
    forall x | x in order
      ensures x in LiveOps(Chain())
    {
      ChainIsLive(x);
    }
    SeedsAreOrder(Chain(), order);
  }

  lemma ChainIsListed()
    ensures Lists([1, 2, 0, 3], Chain())
  {
  }

  lemma ChainLeftMatches(hasKernel: Kind -> bool, active: seq<Pass>)
    requires ShapeFold in active
    ensures !Fixpoint(ChainLeft(), hasKernel, active)
  {
    assert MatchPattern(ChainLeft(), 3) == ReshapeChain;
    assert Changes(ChainLeft(), hasKernel, ShapeFold, 3);
  }

  lemma ChainStopsShort(active: seq<Pass>, hasKernel: Kind -> bool)
    requires ShapeFold in active
    ensures !EndsInFixpoint(Chain(), ZeroWorld(), hasKernel, active, [1, 2, 0, 3])
  {
    ChainSeeds([1, 2, 0, 3]);
    ChainRun(ZeroWorld(), hasKernel, active);
    ChainLeftMatches(hasKernel, active);
  }

  lemma OneRunRefutes(g: Ops, w: World, hasKernel: Kind -> bool, active: seq<Pass>, order: seq<nat>)
    requires SoundGraph(g, w) && Lists(order, g) && !EndsInFixpoint(g, w, hasKernel, active, order)
    ensures !AlwaysReachesFixpoint(active)
  {
  }

  lemma FoldingEndsInFixpoint(g: Ops, w: World, hasKernel: Kind -> bool, active: seq<Pass>, order: seq<nat>)
    requires ShapeFold !in active && SoundGraph(g, w) && Lists(order, g)
    ensures EndsInFixpoint(g, w, hasKernel, active, order)
  {
    PushAddsOnce([], Candidates(g, order));
    FoldingReachesFixpoint(g, w, hasKernel, active, Push([], Candidates(g, order)));
  }

  /** Over all graphs: shape folding can stop short, alone or with constant folding, as when
      the tail of a merged chain is not pushed again; constant folding alone always runs to
      the end. */
  lemma FixpointIffNoShapeFold(active: seq<Pass>)
    ensures AlwaysReachesFixpoint(active) <==> ShapeFold !in active
  {
    if ShapeFold in active {
      var hasKernel := (k: Kind) => false;
      ChainIsSound();
      ChainIsListed();
      ChainStopsShort(active, hasKernel);
      OneRunRefutes(Chain(), ZeroWorld(), hasKernel, active, [1, 2, 0, 3]);
    } else {
      forall g: Ops, w: World, hasKernel: Kind -> bool, order: seq<nat> | SoundGraph(g, w) && Lists(order, g)
        ensures EndsInFixpoint(g, w, hasKernel, active, order)
      {
        FoldingEndsInFixpoint(g, w, hasKernel, active, order);
      }
    }
  }
}
