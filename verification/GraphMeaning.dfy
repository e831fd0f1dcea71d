/** The rewrites keep the graph sound and the value of every node that stays live. */
module GraphMeaning {
  import opened Tensors
  import opened GraphRewrite

  /** After a rewrite that removes node `gone` from the live non-constant ones. */
  ghost predicate Keeps(g: Ops, g': Ops, w: World) {
    && SoundGraph(g, w) && SoundGraph(g', w)
    && (forall x :: Live(g', x) ==> Live(g, x) && Eval(g', w, x) == Eval(g, w, x))
    && (forall x :: Live(g, x) && g[x].kind == Output ==> Live(g', x) && g'[x].kind == Output)
  }

  // ----- Identity operations -----

  /** An identity operation denotes its producer's tensor. */
  lemma IdentityIsProducer(g: Ops, w: World, id: nat)
    requires SoundGraph(g, w) && MatchPattern(g, id) in {IdentReshape, IdentTranspose}
    ensures Live(g, g[id].inputs[0]) && Eval(g, w, id) == Eval(g, w, g[id].inputs[0])
  {
    var prod := g[id].inputs[0];
    assert SoundNode(g, w, id);
    assert Args(g, w, id) == [Eval(g, w, prod)];
    if MatchPattern(g, id) == IdentTranspose {
      var perm := g[g[id].params[0]].data;
      EvalIsValid(g, w, prod);
      assert ParamData(g, g[id].params) == [perm] + ParamData(g, g[id].params[1..]) == [perm];
      IdentityTransposes(Eval(g, w, prod), perm);
    }
  }

  /** Users of `id` read `prod` in its place. */
  ghost predicate RewiredInputs(g: Ops, r: Ops, id: nat, prod: nat)
    requires id in g && r.Keys == g.Keys
  {
    forall x :: x in g ==> r[x].inputs == if x in g[id].consumers then Substitute(g[x].inputs, id, prod) else g[x].inputs
  }

  /** `prod` lists its own users but `id`, and the users of `id`. */
  ghost predicate RewiredLists(g: Ops, r: Ops, id: nat, prod: nat)
    requires id in g && prod in g && r.Keys == g.Keys
  {
    && (forall x :: x in g && x != prod ==> r[x].consumers == g[x].consumers)
    && (forall y :: y in g && ((y in g[prod].consumers && y != id) || y in g[id].consumers) ==> y in r[prod].consumers)
  }

  /** Only `gone` has died. */
  ghost predicate OneDies(g: Ops, r: Ops, gone: nat)
    requires r.Keys == g.Keys
  {
    forall x :: x in g ==> r[x].dead == (g[x].dead || x == gone)
  }

  ghost predicate RewiredEffect(g: Ops, r: Ops, id: nat, prod: nat)
    requires id in g && prod in g
  {
    SameOps(g, r) && OneDies(g, r, id) && RewiredInputs(g, r, id, prod) && RewiredLists(g, r, id, prod)
  }

  lemma RewiredHasEffect(g: Ops, id: nat, prod: nat)
    requires id in g && prod in g && id != prod
    ensures RewiredEffect(g, Rewired(g, id, prod), id, prod)
  {
    var g1 := g[prod := g[prod].(consumers := Remove(g[prod].consumers, id))];
    var g2 := RewireEach(g1, id, prod, g[id].consumers);
    RewireEachEffect(g1, id, prod, g[id].consumers);
    RewireKeepsOps(g, g1, g2, id, prod);
    RewireGivesInputs(g, g1, g2, id, prod);
    RewireGivesLists(g, g1, g2, id, prod);
    KillEffect(g2, id);
  }

  lemma KillEffect(g: Ops, id: nat)
    ensures SameOps(g, Kill(g, id)) && OneDies(g, Kill(g, id), id)
    ensures forall x :: x in g ==> Kill(g, id)[x].inputs == g[x].inputs && Kill(g, id)[x].consumers == g[x].consumers
  {
  }

  lemma RewireKeepsOps(g: Ops, g1: Ops, g2: Ops, id: nat, prod: nat)
    requires id in g && prod in g
    requires g1 == g[prod := g[prod].(consumers := Remove(g[prod].consumers, id))]
    requires RewireEffect(g1, g2, id, prod, g[id].consumers)
    ensures SameOps(g, g2) && forall x :: x in g ==> g2[x].dead == g[x].dead
  {
    assert SameOps(g, g1);
  }

  lemma RewireGivesInputs(g: Ops, g1: Ops, g2: Ops, id: nat, prod: nat)
    requires id in g && prod in g && g2.Keys == g.Keys
    requires g1 == g[prod := g[prod].(consumers := Remove(g[prod].consumers, id))]
    requires RewireEffect(g1, g2, id, prod, g[id].consumers)
    ensures RewiredInputs(g, g2, id, prod)
  {
  }

  lemma RewireGivesLists(g: Ops, g1: Ops, g2: Ops, id: nat, prod: nat)
    requires id in g && prod in g && g2.Keys == g.Keys
    requires g1 == g[prod := g[prod].(consumers := Remove(g[prod].consumers, id))]
    requires RewireEffect(g1, g2, id, prod, g[id].consumers)
    ensures RewiredLists(g, g2, id, prod)
  {
  }

  lemma RewiredNodeIsSound(g: Ops, r: Ops, w: World, id: nat, x: nat)
    requires SoundGraph(g, w) && MatchPattern(g, id) in {IdentReshape, IdentTranspose}
    requires RewiredEffect(g, r, id, g[id].inputs[0]) && Live(r, x)
    ensures r[x].inputs == Substitute(g[x].inputs, id, g[id].inputs[0])
    ensures SoundNode(r, w, x)
  {
    var prod := g[id].inputs[0];
    assert SoundNode(g, w, id) && SoundNode(g, w, x);
    assert SoundEdge(g, w, id, prod);
    assert x !in g[id].consumers ==> Substitute(g[x].inputs, id, prod) == g[x].inputs by {
      forall i | 0 <= i < |g[x].inputs| && g[x].inputs[i] == id
        ensures x in g[id].consumers
      {
        assert SoundEdge(g, w, x, g[x].inputs[i]);
      }
    }
    forall i | 0 <= i < |r[x].inputs|
      ensures SoundEdge(r, w, x, r[x].inputs[i])
    {
      RewiredEdgeIsSound(g, r, w, id, prod, x, i);
    }
    RewiredShapeIsSound(g, r, w, id, prod, x);
  }

  lemma RewiredEdgeIsSound(g: Ops, r: Ops, w: World, id: nat, prod: nat, x: nat, i: nat)
    requires id in g && prod in g && RewiredEffect(g, r, id, prod) && Live(r, x) && i < |g[x].inputs|
    requires SoundEdge(g, w, id, prod) && SoundEdge(g, w, x, g[x].inputs[i])
    ensures SoundEdge(r, w, x, Substitute(g[x].inputs, id, prod)[i])
  {
  }

  lemma RewiredShapeIsSound(g: Ops, r: Ops, w: World, id: nat, prod: nat, x: nat)
    requires x in g && id in g && prod in g && SameOps(g, r) && g[id].dims == g[prod].dims
    requires r[x].inputs == Substitute(g[x].inputs, id, prod) && SoundShape(g, w, x)
    ensures SoundShape(r, w, x)
  {
  }

  /** Values carry over when every live node keeps obeying its operation. */
  lemma ValuesCarryOver(g: Ops, r: Ops, w: World)
    requires SoundGraph(g, w) && SoundGraph(r, w)
    requires forall x: nat :: Live(r, x) ==> Live(g, x) && ObeysAt(r, w, Values(g, w), x)
    ensures forall x: nat :: Live(r, x) ==> Eval(r, w, x) == Eval(g, w, x)
  {
    forall x: nat | Live(r, x) {
      ObeyingIsEval(r, w, Values(g, w), x);
    }
  }

  /** A node with the same operation and the same operand values. */
  lemma SameNodeObeys(g: Ops, r: Ops, w: World, x: nat)
    requires SoundGraph(g, w) && Live(g, x) && SameOps(g, r)
    requires ArgsFrom(r, Values(g, w), x) == Args(g, w, x)
    ensures ObeysAt(r, w, Values(g, w), x)
  {
    assert SoundNode(g, w, x);
    SameParamData(g, r, g[x].params);
  }

  lemma RewiredNodeObeys(g: Ops, r: Ops, w: World, id: nat, x: nat)
    requires SoundGraph(g, w) && MatchPattern(g, id) in {IdentReshape, IdentTranspose}
    requires SameOps(g, r) && Live(g, x) && r[x].inputs == Substitute(g[x].inputs, id, g[id].inputs[0])
    ensures ObeysAt(r, w, Values(g, w), x)
  {
    IdentityIsProducer(g, w, id);
    ValuesOfInputs(g, w, x);
    assert ArgsFrom(r, Values(g, w), x) == ArgsFrom(g, Values(g, w), x);
    SameNodeObeys(g, r, w, x);
  }

  lemma RewireKeeps(g: Ops, w: World, id: nat)
    requires SoundGraph(g, w) && MatchPattern(g, id) in {IdentReshape, IdentTranspose}
    ensures Keeps(g, Rewired(g, id, g[id].inputs[0]), w)
  {
    var prod := g[id].inputs[0];
    var r := Rewired(g, id, prod);
    assert SoundNode(g, w, id) && SoundEdge(g, w, id, prod);
    RewiredHasEffect(g, id, prod);
    forall x: nat | Live(r, x)
      ensures SoundNode(r, w, x) && Live(g, x) && ObeysAt(r, w, Values(g, w), x)
    {
      RewiredNodeIsSound(g, r, w, id, x);
      RewiredNodeObeys(g, r, w, id, x);
    }
    ValuesCarryOver(g, r, w);
  }

  /** The consumers of a list that exist, in order. */
  function Existing(g: Ops, cons: seq<nat>): seq<nat> {
    if cons == [] then [] else (if cons[0] in g then [cons[0]] else []) + Existing(g, cons[1..])
  }

  /** The producer lists its own consumers without the removed one, and then the removed one's;
      every other list is what it was. */
  lemma RewiredConsumers(g: Ops, id: nat, prod: nat)
    requires id in g && prod in g
    ensures Rewired(g, id, prod).Keys == g.Keys
    ensures Rewired(g, id, prod)[prod].consumers == Remove(g[prod].consumers, id) + Existing(g, g[id].consumers)
    ensures forall x :: x in g && x != prod ==> Rewired(g, id, prod)[x].consumers == g[x].consumers
  {
    var g1 := g[prod := g[prod].(consumers := Remove(g[prod].consumers, id))];
    RewireEachConsumers(g1, id, prod, g[id].consumers);
    SameExisting(g, g1, g[id].consumers);
  }

  lemma {:induction false} SameExisting(g: Ops, g1: Ops, cons: seq<nat>)
    requires g1.Keys == g.Keys
    ensures Existing(g1, cons) == Existing(g, cons)
  {
    if cons != [] {
      SameExisting(g, g1, cons[1..]);
    }
  }

  lemma {:induction false} RewireEachConsumers(g: Ops, id: nat, prod: nat, cons: seq<nat>)
    requires prod in g
    ensures RewireEach(g, id, prod, cons).Keys == g.Keys
    ensures RewireEach(g, id, prod, cons)[prod].consumers == g[prod].consumers + Existing(g, cons)
    ensures forall x :: x in g && x != prod ==> RewireEach(g, id, prod, cons)[x].consumers == g[x].consumers
    decreases |cons|
  {
    if cons != [] {
      if cons[0] !in g {
        RewireEachConsumers(g, id, prod, cons[1..]);
      } else {
        var g1 := RewireOne(g, id, prod, cons[0]);
        assert g1.Keys == g.Keys && g1[prod].consumers == g[prod].consumers + [cons[0]];
        RewireEachConsumers(g1, id, prod, cons[1..]);
        SameExisting(g, g1, cons[1..]);
        assert g[prod].consumers + [cons[0]] + Existing(g, cons[1..]) == g[prod].consumers + ([cons[0]] + Existing(g, cons[1..]));
      }
    }
  }

  // ----- Chains of reshapes -----

  ghost predicate MergedEffect(g: Ops, r: Ops, id: nat, src: nat)
    requires id in g && src in g
  {
    && SameOps(g, r) && OneDies(g, r, src)
    && (forall x :: x in g ==> r[x].inputs == if x == id then g[src].inputs else g[x].inputs)
    && (forall x, y :: x in g && y in g[x].consumers && y != src ==> y in r[x].consumers)
    && (forall x :: x in g && x in g[src].inputs ==> id in r[x].consumers)
  }

  lemma MergedHasEffect(g: Ops, id: nat, src: nat)
    requires id in g && src in g && id != src
    ensures MergedEffect(g, Merged(g, id, src), id, src)
  {
    var g1 := Relist(g, id, src, g[src].inputs);
    RelistEffect(g, id, src, g[src].inputs);
    var g2 := g1[id := g1[id].(inputs := g[src].inputs)];
    RelistKeepsLists(g, g1, src, g[src].inputs);
    InputsTaken(g, g1, g2, id, src);
    KillEffect(g2, src);
  }

  lemma RelistKeepsLists(g: Ops, g1: Ops, src: nat, producers: seq<nat>)
    requires g1.Keys == g.Keys && forall x :: x in g && x !in producers ==> g1[x].consumers == g[x].consumers
    requires forall x :: x in g && x in producers ==> forall y :: y in g[x].consumers && y != src ==> y in g1[x].consumers
    ensures forall x, y :: x in g && y in g[x].consumers && y != src ==> y in g1[x].consumers
  {
  }

  lemma InputsTaken(g: Ops, g1: Ops, g2: Ops, id: nat, src: nat)
    requires id in g && src in g && SameOps(g, g1) && g2 == g1[id := g1[id].(inputs := g[src].inputs)]
    requires forall x :: x in g ==> g1[x].dead == g[x].dead && g1[x].inputs == g[x].inputs
    ensures SameOps(g, g2) && forall x :: x in g ==> g2[x].dead == g[x].dead && g2[x].consumers == g1[x].consumers
    ensures forall x :: x in g ==> g2[x].inputs == if x == id then g[src].inputs else g[x].inputs
  {
  }

  /** The head of a chain has no live user but the tail. */
  lemma HeadHasOneUser(g: Ops, w: World, id: nat, x: nat, i: nat)
    requires SoundGraph(g, w) && MatchPattern(g, id) == ReshapeChain
    requires Live(g, x) && x != id && i < |g[x].inputs|
    ensures g[x].inputs[i] != g[id].inputs[0]
  {
    var src := g[id].inputs[0];
    assert SoundNode(g, w, id) && SoundEdge(g, w, id, src);
    assert SoundNode(g, w, x) && SoundEdge(g, w, x, g[x].inputs[i]);
  }

  lemma MergedNodeIsSound(g: Ops, r: Ops, w: World, id: nat, x: nat)
    requires SoundGraph(g, w) && MatchPattern(g, id) == ReshapeChain
    requires MergedEffect(g, r, id, g[id].inputs[0]) && Live(r, x)
    ensures SoundNode(r, w, x)
  {
    var src := g[id].inputs[0];
    assert SoundNode(g, w, id) && SoundNode(g, w, src) && SoundNode(g, w, x);
    assert SoundEdge(g, w, id, src);
    forall i | 0 <= i < |r[x].inputs|
      ensures SoundEdge(r, w, x, r[x].inputs[i])
    {
      var y := r[x].inputs[i];
      if x == id {
        assert SoundEdge(g, w, src, g[src].inputs[i]);
      } else {
        assert SoundEdge(g, w, x, y);
        HeadHasOneUser(g, w, id, x, i);
      }
    }
    MergedShapeIsSound(g, r, w, id, src, x);
  }

  lemma MergedShapeIsSound(g: Ops, r: Ops, w: World, id: nat, src: nat, x: nat)
    requires x in g && id in g && src in g && SameOps(g, r)
    requires IsShape(g[id].kind) && IsShape(g[src].kind) && g[id].inputs == [src]
    requires SoundShape(g, w, x) && SoundShape(g, w, id) && SoundShape(g, w, src)
    requires r[x].inputs == if x == id then g[src].inputs else g[x].inputs
    ensures SoundShape(r, w, x)
  {
  }

  lemma MergedNodeObeys(g: Ops, r: Ops, w: World, id: nat, x: nat)
    requires SoundGraph(g, w) && MatchPattern(g, id) == ReshapeChain
    requires SameOps(g, r) && Live(g, x) && r[x].inputs == if x == id then g[g[id].inputs[0]].inputs else g[x].inputs
    ensures ObeysAt(r, w, Values(g, w), x)
  {
    var src := g[id].inputs[0];
    assert SoundNode(g, w, id) && SoundNode(g, w, src);
    ValuesOfInputs(g, w, x);
    ValuesOfInputs(g, w, src);
    if x == id {
      assert ArgsFrom(r, Values(g, w), x) == ArgsFrom(g, Values(g, w), src);
      assert Args(g, w, id) == [Eval(g, w, src)];
    } else {
      assert ArgsFrom(r, Values(g, w), x) == ArgsFrom(g, Values(g, w), x);
      SameNodeObeys(g, r, w, x);
    }
  }

  lemma MergedNodeKeeps(g: Ops, r: Ops, w: World, id: nat, x: nat)
    requires SoundGraph(g, w) && MatchPattern(g, id) == ReshapeChain
    requires MergedEffect(g, r, id, g[id].inputs[0]) && Live(r, x)
    ensures SoundNode(r, w, x) && Live(g, x) && ObeysAt(r, w, Values(g, w), x)
  {
    MergedNodeIsSound(g, r, w, id, x);
    MergedNodeObeys(g, r, w, id, x);
  }

  lemma OutputsSurvive(g: Ops, r: Ops, gone: nat)
    requires gone in g && g[gone].kind != Output && SameOps(g, r) && OneDies(g, r, gone)
    ensures forall x :: Live(g, x) && g[x].kind == Output ==> Live(r, x) && r[x].kind == Output
  {
  }

  lemma MergeKeeps(g: Ops, w: World, id: nat)
    requires SoundGraph(g, w) && MatchPattern(g, id) == ReshapeChain
    ensures Keeps(g, Merged(g, id, g[id].inputs[0]), w)
  {
    var src := g[id].inputs[0];
    var r := Merged(g, id, src);
    assert SoundNode(g, w, id) && SoundEdge(g, w, id, src);
    MergedHasEffect(g, id, src);
    forall x: nat | Live(r, x)
      ensures SoundNode(r, w, x) && Live(g, x) && ObeysAt(r, w, Values(g, w), x)
    {
      MergedNodeKeeps(g, r, w, id, x);
    }
    ValuesCarryOver(g, r, w);
    OutputsSurvive(g, r, src);
  }

  /** The one producer of a merged head lists the tail in its place, at the end. */
  lemma MergedConsumers(g: Ops, id: nat, src: nat, s: nat)
    requires id in g && src in g && g[src].inputs == [s] && s in g
    ensures Merged(g, id, src).Keys == g.Keys && Merged(g, id, src)[s].consumers == Remove(g[s].consumers, src) + [id]
    ensures forall x :: x in g && x != s ==> Merged(g, id, src)[x].consumers == g[x].consumers
  {
    assert [s][1..] == [];
    assert Relist(g, id, src, [s]) == g[s := g[s].(consumers := Remove(g[s].consumers, src) + [id])];
  }

  // ----- Constant folding -----

  /** The operands of a foldable node, as its constants hold them. */
  function ConstArgs(g: Ops, id: nat): seq<Tensor>
    requires ConstFoldMatches(g, id)
  {
    var ins := g[id].inputs;
    seq(|ins|, i requires 0 <= i < |ins| => Tensor(g[ins[i]].dims, g[ins[i]].data))
  }

  /** What a buffer of n elements holds after data was written to it. */
  function Buffer(data: seq<int>, n: nat): (r: seq<int>)
    ensures |r| == n && (|data| == n ==> r == data)
  {
    seq(n, i requires 0 <= i => if i < |data| then data[i] else 0)
  }

  /** The data of the constant: one element at least. */
  function FoldedData(g: Ops, w: World, id: nat): (r: seq<int>)
    requires ConstFoldMatches(g, id)
    ensures r != []
  {
    var n := Product(g[id].dims);
    Buffer(Apply(g, w, id, ConstArgs(g, id)), if n == 0 then 1 else n)
  }

  /** The folded data is the value of the node. */
  lemma FoldedDataIsValue(g: Ops, w: World, id: nat)
    requires SoundGraph(g, w) && ConstFoldMatches(g, id)
    ensures Eval(g, w, id).data == FoldedData(g, w, id) && |FoldedData(g, w, id)| == Product(g[id].dims)
  {
    assert SoundNode(g, w, id);
    forall i | 0 <= i < |g[id].inputs|
      ensures Args(g, w, id)[i] == ConstArgs(g, id)[i]
    {
      assert SoundEdge(g, w, id, g[id].inputs[i]);
    }
    assert Args(g, w, id) == ConstArgs(g, id);
    EvalIsValid(g, w, id);
  }

  lemma FoldedNodeIsSound(g: Ops, w: World, id: nat, data: seq<int>, x: nat)
    requires SoundGraph(g, w) && ConstFoldMatches(g, id) && |data| == Product(g[id].dims) && Live(Folded(g, id, data), x)
    ensures SoundNode(Folded(g, id, data), w, x)
  {
    var r := Folded(g, id, data);
    assert SoundNode(g, w, x) && SoundNode(g, w, id);
    forall i | 0 <= i < |r[x].inputs|
      ensures SoundEdge(r, w, x, r[x].inputs[i])
    {
      assert SoundEdge(g, w, x, g[x].inputs[i]);
    }
  }

  lemma FoldedNodeObeys(g: Ops, w: World, id: nat, data: seq<int>, x: nat)
    requires SoundGraph(g, w) && ConstFoldMatches(g, id) && data == Eval(g, w, id).data && Live(g, x)
    ensures ObeysAt(Folded(g, id, data), w, Values(g, w), x)
  {
    var r := Folded(g, id, data);
    assert SoundNode(g, w, x);
    if x != id {
      SameParamData(g, r, g[x].params);
      ValuesOfInputs(g, w, x);
      assert ArgsFrom(r, Values(g, w), x) == ArgsFrom(g, Values(g, w), x);
    }
  }

  lemma FoldKeeps(g: Ops, w: World, id: nat)
    requires SoundGraph(g, w) && ConstFoldMatches(g, id)
    ensures Keeps(g, Folded(g, id, FoldedData(g, w, id)), w)
  {
    var data := FoldedData(g, w, id);
    var r := Folded(g, id, data);
    FoldedDataIsValue(g, w, id);
    forall x: nat | Live(r, x)
      ensures SoundNode(r, w, x) && Live(g, x) && ObeysAt(r, w, Values(g, w), x)
    {
      FoldedNodeIsSound(g, w, id, data, x);
      FoldedNodeObeys(g, w, id, data, x);
    }
    ValuesCarryOver(g, r, w);
  }
}
