/** Two more runs that stop short, each on a graph that is shallow but for one point: a removed
    identity that nobody read, and a merged pair that is an identity as a whole
    (compiler/src/opt/pass_manager.cpp:107-113).
 */
module ShapeStops {
  import opened Options
  import opened Tensors
  import opened GraphRewrite
  import opened PassDriver
  import opened PassFixpoint
  import opened ShapeFixpoint

  /** One step of the driver at a match of shape folding that pushes nothing new. */
  lemma StepShape(g: Ops, g1: Ops, w: World, hasKernel: Kind -> bool, active: seq<Pass>, wl: seq<nat>, id: nat)
    requires ShapeFold in active && Matches(g, ShapeFold, id) && !Matches(g, ConstFold, id)
    requires Rewritten(g, w, ShapeFold, id) == g1 && Pushed(g, id, wl) == wl
    ensures Drive(g, w, hasKernel, active, wl + [id]).ops == Drive(g1, w, hasKernel, active, wl).ops
  {
    assert (wl + [id])[..|wl|] == wl;
    var p := FirstPass(g, hasKernel, active, id);
    assert Changes(g, hasKernel, ShapeFold, id);
    assert p == Some(ShapeFold);
  }

  lemma StepsOver(g: Ops, w: World, hasKernel: Kind -> bool, active: seq<Pass>, x: nat, y: nat)
    requires forall p: Pass :: !Matches(g, p, x) && !Matches(g, p, y)
    ensures Drive(g, w, hasKernel, active, [x, y]).ops == g
  {
    assert [x] + [y] == [x, y] && [] + [x] == [x];
    StepOver(g, w, hasKernel, active, [x], y);
    StepOver(g, w, hasKernel, active, [], x);
  }

  // ----- An identity that nobody reads -----

  /** A reshape with two readers, of which one is an identity without readers. */
  function Fork(): Ops {
    map[
      0 := OpDef(Input, true, false, [1], [], [1], [], []),
      1 := OpDef(Reshape, true, false, [1, 1], [0], [2, 3], [], []),
      2 := OpDef(Reshape, true, false, [1, 1], [1], [], [], []),
      3 := OpDef(Reshape, true, false, [1, 1, 1], [1], [], [], [])]
  }

  /** The identity is gone, and the reshape has one reader. */
  function ForkLeft(): Ops {
    map[
      0 := OpDef(Input, true, false, [1], [], [1], [], []),
      1 := OpDef(Reshape, true, false, [1, 1], [0], [3], [], []),
      2 := OpDef(Reshape, true, true, [1, 1], [1], [], [], []),
      3 := OpDef(Reshape, true, false, [1, 1, 1], [1], [], [], [])]
  }

  lemma ForkNodeIsSound(id: nat)
    requires id <= 3
    ensures SoundNode(Fork(), ZeroWorld(), id)
  {
    var g, w := Fork(), ZeroWorld();
    assert Product([1]) == 1 && Product([1, 1]) == 1 && Product([1, 1, 1]) == 1;
    forall i | 0 <= i < |g[id].inputs|
      ensures SoundEdge(g, w, id, g[id].inputs[i])
    {
      assert g[id].inputs[i] == if id == 1 then 0 else 1;
    }
  }

  lemma ForkIsSound()
    ensures SoundGraph(Fork(), ZeroWorld())
  {
    forall id | Live(Fork(), id)
      ensures SoundNode(Fork(), ZeroWorld(), id)
    {
      ForkNodeIsSound(id);
    }
  }

  lemma ForkIsRewired()
    ensures MatchPattern(Fork(), 2) == IdentReshape && Rewired(Fork(), 2, 1) == ForkLeft()
  {
    var g := Fork();
    assert |g[1].consumers| == 2;
    assert [2, 3][1..] == [3] && [3][1..] == [];
    assert Remove([3], 2) == [3] + Remove([], 2) == [3];
    assert Remove([2, 3], 2) == [] + Remove([3], 2) == [3];
    RewiredWithoutReaders(g, 2, 1);
    RewireNobody(g[1 := g[1].(consumers := Remove(g[1].consumers, 2))], 2, 1, []);
  }

  lemma ForkMatchesNothing(p: Pass)
    ensures !Matches(Fork(), p, 3) && !Matches(ForkLeft(), p, 0) && !Matches(ForkLeft(), p, 1) && !Matches(Fork(), ConstFold, 2)
  {
    var g, r := Fork(), ForkLeft();
    assert |g[1].consumers| == 2 && |g[1].dims| != |g[3].dims| && |r[0].dims| != |r[1].dims|;
    assert g[3].inputs[0] == 1 && r[1].inputs[0] == 0 && g[2].inputs[0] == 1;
    match p case ShapeFold => case ConstFold =>
  }

  lemma ForkRun(w: World, hasKernel: Kind -> bool, active: seq<Pass>)
    requires ShapeFold in active
    ensures Drive(Fork(), w, hasKernel, active, [1, 0, 2, 3]).ops == ForkLeft()
  {
    var g := Fork();
    forall p ensures !Matches(g, p, 3) && !Matches(ForkLeft(), p, 0) && !Matches(ForkLeft(), p, 1) && !Matches(g, ConstFold, 2) { ForkMatchesNothing(p); }
    assert [1, 0, 2] + [3] == [1, 0, 2, 3] && [1, 0] + [2] == [1, 0, 2];
    StepOver(g, w, hasKernel, active, [1, 0, 2], 3);
    ForkIsRewired();
    assert Push(Push([1, 0], [1]), []) == [1, 0];
    StepShape(g, ForkLeft(), w, hasKernel, active, [1, 0], 2);
    StepsOver(ForkLeft(), w, hasKernel, active, 1, 0);
  }

  /** The other reader becomes the tail of a chain when the identity goes, and is not looked
      at again; no chain is merged in this run. */
  lemma ForkStopsShort(hasKernel: Kind -> bool, active: seq<Pass>)
    requires ShapeFold in active
    ensures SoundGraph(Fork(), ZeroWorld())
    ensures Drive(Fork(), ZeroWorld(), hasKernel, active, [1, 0, 2, 3]).ops == ForkLeft()
    ensures !Fixpoint(ForkLeft(), hasKernel, active)
  {
    ForkIsSound();
    ForkRun(ZeroWorld(), hasKernel, active);
    ForkLeftMatches(hasKernel);
  }

  lemma ForkLeftMatches(hasKernel: Kind -> bool)
    ensures Changes(ForkLeft(), hasKernel, ShapeFold, 3)
  {
    assert MatchPattern(ForkLeft(), 3) == ReshapeChain;
  }

  // ----- A pair that is an identity as a whole -----

  /** A reshape and the reshape back. */
  function RoundTrip(): Ops {
    map[
      0 := OpDef(Input, true, false, [1], [], [1], [], []),
      1 := OpDef(Reshape, true, false, [1, 1], [0], [2], [], []),
      2 := OpDef(Reshape, true, false, [1], [1], [], [], [])]
  }

  /** The tail reads the input, of its own shape. */
  function RoundTripLeft(): Ops {
    map[
      0 := OpDef(Input, true, false, [1], [], [2], [], []),
      1 := OpDef(Reshape, true, true, [1, 1], [0], [2], [], []),
      2 := OpDef(Reshape, true, false, [1], [0], [], [], [])]
  }

  lemma RoundTripNodeIsSound(id: nat)
    requires id <= 2
    ensures SoundNode(RoundTrip(), ZeroWorld(), id)
  {
    var g, w := RoundTrip(), ZeroWorld();
    assert Product([1]) == 1 && Product([1, 1]) == 1;
    forall i | 0 <= i < |g[id].inputs|
      ensures SoundEdge(g, w, id, g[id].inputs[i])
    {
      assert g[id].inputs[i] == id - 1;
    }
  }

  lemma RoundTripIsSound()
    ensures SoundGraph(RoundTrip(), ZeroWorld())
  {
    forall id | Live(RoundTrip(), id)
      ensures SoundNode(RoundTrip(), ZeroWorld(), id)
    {
      RoundTripNodeIsSound(id);
    }
  }

  lemma RoundTripRun(w: World, hasKernel: Kind -> bool, active: seq<Pass>)
    requires ShapeFold in active
    ensures Drive(RoundTrip(), w, hasKernel, active, [1, 0, 2]).ops == RoundTripLeft()
  {
    forall p ensures !Matches(RoundTripLeft(), p, 0) && !Matches(RoundTripLeft(), p, 1) && !Matches(RoundTrip(), ConstFold, 2) { RoundTripMatchesNothing(p); }
    assert [1, 0] + [2] == [1, 0, 2];
    RoundTripIsMerged();
    assert Push(Push([1, 0], [1]), []) == [1, 0];
    StepShape(RoundTrip(), RoundTripLeft(), w, hasKernel, active, [1, 0], 2);
    StepsOver(RoundTripLeft(), w, hasKernel, active, 1, 0);
  }

  lemma RoundTripIsMerged()
    ensures MatchPattern(RoundTrip(), 2) == ReshapeChain && Merged(RoundTrip(), 2, 1) == RoundTripLeft()
  {
    var g := RoundTrip();
    assert [1][1..] == [] && [0][1..] == [];
    assert Remove([1], 1) == [] + Remove([], 1) == [];
    assert Remove(g[0].consumers, 1) + [2] == [2];
    var g1 := g[0 := g[0].(consumers := [2])];
    assert Relist(g, 2, 1, [0]) == Relist(g1, 2, 1, [0][1..]) == g1;
  }

  lemma RoundTripMatchesNothing(p: Pass)
    ensures !Matches(RoundTripLeft(), p, 0) && !Matches(RoundTripLeft(), p, 1) && !Matches(RoundTrip(), ConstFold, 2)
  {
    assert RoundTrip()[2].inputs[0] == 1;
    match p case ShapeFold => case ConstFold =>
  }

  /** The merged tail is an identity now, and is not looked at again. */
  lemma RoundTripStopsShort(hasKernel: Kind -> bool, active: seq<Pass>)
    requires ShapeFold in active
    ensures SoundGraph(RoundTrip(), ZeroWorld())
    ensures Drive(RoundTrip(), ZeroWorld(), hasKernel, active, [1, 0, 2]).ops == RoundTripLeft()
    ensures !Fixpoint(RoundTripLeft(), hasKernel, active)
  {
    RoundTripIsSound();
    RoundTripRun(ZeroWorld(), hasKernel, active);
    RoundTripLeftMatches(hasKernel);
  }

  lemma RoundTripLeftMatches(hasKernel: Kind -> bool)
    ensures Changes(RoundTripLeft(), hasKernel, ShapeFold, 2)
  {
    assert MatchPattern(RoundTripLeft(), 2) == IdentReshape;
  }
}
