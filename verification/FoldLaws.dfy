/** Exactly what the two phases remove and fold, in terms of the graph before the run
    (compiler/src/opt/pass_shape_fold.cpp:24-147, pass_const_fold.cpp:61-183,
    compiler/src/opt/pass_manager.cpp:62-118).
 */
module FoldLaws {
  import opened Options
  import opened GraphRewrite
  import opened GraphMeaning
  import opened PassDriver
  import opened PassFixpoint
  import opened ShapeFixpoint

  // ----- Shape folding -----

  /** 0, 1, 2, ...; one to eight entries. */
  predicate CountsUp(s: seq<int>) {
    1 <= |s| <= 8 && forall i :: 0 <= i < |s| ==> s[i] == i
  }

  /** Node x is alive and reads one node, which is alive and has its dimensions; it is a
      reshape, or a transpose by 0, 1, 2, ... */
  predicate Identity(g: Ops, x: nat) {
    && x in g && g[x].enabled && !g[x].dead && |g[x].inputs| == 1
    && g[x].inputs[0] in g && g[g[x].inputs[0]].enabled && !g[g[x].inputs[0]].dead
    && g[g[x].inputs[0]].dims == g[x].dims
    && (Reshapes(g[x].kind)
        || (g[x].kind == Transpose && g[x].params != [] && g[x].params[0] in g && CountsUp(g[g[x].params[0]].data)))
  }

  predicate Reshapes(k: Kind) {
    k == Reshape || k == Flatten
  }

  /** Node x is alive and its first input, y, is in the graph. */
  predicate Reads(g: Ops, x: nat, y: nat) {
    x in g && g[x].enabled && !g[x].dead && g[x].inputs != [] && g[x].inputs[0] == y && y in g
  }

  /** No reshape that is alive reads a reshape or a transpose. */
  ghost predicate Plain(g: Ops) {
    forall x, y :: Reads(g, x, y) && Reshapes(g[x].kind) ==> !Reshapes(g[y].kind) && g[y].kind != Transpose
  }

  lemma PlainIsSeparate(g: Ops)
    requires Plain(g)
    ensures Separate(g)
  {
    assert forall x: nat :: x in g && Live(g, x) && g[x].inputs != [] && g[x].inputs[0] in g ==> Reads(g, x, g[x].inputs[0]);
  }

  /** On plain graphs the matcher finds the identities. */
  lemma MatchIsIdentity(g: Ops, w: World, x: nat)
    requires SoundGraph(g, w) && Plain(g)
    ensures MatchPattern(g, x) != NoMatch <==> Identity(g, x)
    ensures Identity(g, x) ==> MatchPattern(g, x) in {IdentReshape, IdentTranspose}
  {
    if Live(g, x) {
      assert SoundNode(g, w, x);
      assert g[x].inputs != [] && g[x].inputs[0] in g ==> Reads(g, x, g[x].inputs[0]);
      if g[x].kind == Transpose {
        assert |g[x].params| == 1;
      }
    }
  }

  /** After some identities were removed: the others are what they were. */
  ghost predicate Thinned(g: Ops, r: Ops) {
    && r.Keys == g.Keys && Plain(r)
    && (forall x :: x in g ==> (g[x].dead ==> r[x].dead) && (r[x].dead ==> g[x].dead || Identity(g, x)))
    && (forall x :: x in g && !r[x].dead ==> (Identity(r, x) <==> Identity(g, x)))
  }

  lemma ThinnedAgain(g: Ops, g1: Ops, r: Ops)
    requires Thinned(g, g1) && Thinned(g1, r)
    ensures Thinned(g, r)
  {
  }

  lemma ReadsBeyond(g: Ops, w: World, id: nat, x: nat)
    requires SoundGraph(g, w) && Identity(g, id) && MatchPattern(g, id) in {IdentReshape, IdentTranspose}
    requires x in g && g[x].enabled && !g[x].dead
    ensures var r := Rewired(g, id, g[id].inputs[0]);
            && r.Keys == g.Keys && r[x].inputs == Substitute(g[x].inputs, id, g[id].inputs[0])
            && r[x].dead == (x == id) && SameOps(g, r)
  {
    var prod := g[id].inputs[0];
    assert SoundNode(g, w, id) && SoundEdge(g, w, id, prod) && SoundNode(g, w, x);
    RewiredHasEffect(g, id, prod);
    var r := Rewired(g, id, prod);
    if x !in g[id].consumers {
      forall i | 0 <= i < |g[x].inputs|
        ensures g[x].inputs[i] != id
      {
        assert SoundEdge(g, w, x, g[x].inputs[i]);
      }
      assert Substitute(g[x].inputs, id, prod) == g[x].inputs;
    }
  }

  lemma RewiredIdentity(g: Ops, w: World, id: nat, x: nat)
    requires SoundGraph(g, w) && Plain(g) && Identity(g, id) && x in g && x != id && !g[x].dead
    ensures Identity(Rewired(g, id, g[id].inputs[0]), x) <==> Identity(g, x)
  {
    MatchIsIdentity(g, w, id);
    var r := Rewired(g, id, g[id].inputs[0]);
    ReadsBeyond(g, w, id, id);
    if g[x].enabled {
      ReadsBeyond(g, w, id, x);
      if |g[x].inputs| == 1 {
        OnlyOneDies(g, w, id);
        assert SoundNode(g, w, id) && SoundEdge(g, w, id, g[id].inputs[0]);
      }
    }
  }

  lemma OnlyOneDies(g: Ops, w: World, id: nat)
    requires SoundGraph(g, w) && Plain(g) && Identity(g, id)
    ensures var r := Rewired(g, id, g[id].inputs[0]);
            SameOps(g, r) && forall x :: x in g ==> r[x].dead == (g[x].dead || x == id)
  {
    MatchIsIdentity(g, w, id);
    assert SoundNode(g, w, id) && SoundEdge(g, w, id, g[id].inputs[0]);
    RewiredHasEffect(g, id, g[id].inputs[0]);
  }

  lemma RewiredIsPlain(g: Ops, w: World, id: nat)
    requires SoundGraph(g, w) && Plain(g) && Identity(g, id)
    ensures Plain(Rewired(g, id, g[id].inputs[0]))
  {
    var r := Rewired(g, id, g[id].inputs[0]);
    MatchIsIdentity(g, w, id);
    OnlyOneDies(g, w, id);
    forall x, y | Reads(r, x, y) && Reshapes(r[x].kind)
      ensures !Reshapes(r[y].kind) && r[y].kind != Transpose
    {
      ReadsBeyond(g, w, id, x);
      AllReadersLive(g, w, x);
      assert Reads(g, x, g[x].inputs[0]);
    }
  }

  lemma RewiredIsThinned(g: Ops, w: World, id: nat)
    requires SoundGraph(g, w) && Plain(g) && Identity(g, id)
    ensures Thinned(g, Rewired(g, id, g[id].inputs[0]))
  {
    var r := Rewired(g, id, g[id].inputs[0]);
    OnlyOneDies(g, w, id);
    RewiredIsPlain(g, w, id);
    forall x | x in g && !r[x].dead
      ensures Identity(r, x) <==> Identity(g, x)
    {
      RewiredIdentity(g, w, id, x);
    }
  }

  lemma {:induction false} DriveThins(g: Ops, w: World, hasKernel: Kind -> bool, wl: seq<nat>)
    requires SoundGraph(g, w) && Plain(g)
    ensures Thinned(g, Drive(g, w, hasKernel, [ShapeFold], wl).ops)
    decreases |LiveOps(g)|, |wl|
  {
    if wl != [] {
      var id, rest := wl[|wl| - 1], wl[..|wl| - 1];
      match FirstPass(g, hasKernel, [ShapeFold], id)
      case None => DriveThins(g, w, hasKernel, rest);
      case Some(p) =>
        MatchIsIdentity(g, w, id);
        RewriteRemovesOne(g, w, p, id);
        RewriteKeeps(g, w, p, id);
        RewiredIsThinned(g, w, id);
        var g1, wl1 := Rewritten(g, w, p, id), Push(Push(rest, g[id].inputs), g[id].consumers);
        DriveThins(g1, w, hasKernel, wl1);
        ThinnedAgain(g, g1, Drive(g1, w, hasKernel, [ShapeFold], wl1).ops);
    }
  }

  function Identities(g: Ops): set<nat> {
    set x | x in g && Identity(g, x)
  }

  /** The identities are dead, nothing else has died, and the total counts them. */
  ghost predicate IdentitiesRemoved(g: Ops, r: Ops, total: nat) {
    r.Keys == g.Keys && (forall x :: x in g ==> (r[x].dead <==> g[x].dead || Identity(g, x))) && total == |Identities(g)|
  }

  /** On a sound plain graph a run of shape folding removes the identities, each counted
      once, and nothing else. */
  lemma ShapeFoldingRemovesIdentities(g: Ops, w: World, hasKernel: Kind -> bool, order: seq<nat>)
    requires SoundGraph(g, w) && Plain(g) && Lists(order, g)
    ensures var r := Drive(g, w, hasKernel, [ShapeFold], Push([], Candidates(g, order)));
            IdentitiesRemoved(g, r.ops, r.total)
  {
    var wl := Push([], Candidates(g, order));
    var r := Drive(g, w, hasKernel, [ShapeFold], wl);
    PlainIsSeparate(g);
    SeparateIsShallow(g, [ShapeFold]);
    ShallowEndsInFixpoint(g, w, hasKernel, [ShapeFold], order);
    DriveThins(g, w, hasKernel, wl);
    DriveKeeps(g, w, hasKernel, [ShapeFold], wl);
    forall x | x in g
      ensures r.ops[x].dead <==> g[x].dead || Identity(g, x)
    {
      MatchIsIdentity(r.ops, w, x);
      assert !Changes(r.ops, hasKernel, ShapeFold, x);
    }
    TotalIsOperationsRemoved(g, w, hasKernel, [ShapeFold], wl);
    DriveSameOps(g, w, hasKernel, wl);
    IdentitiesGone(g, r.ops);
  }

  lemma IdentitiesGone(g: Ops, r: Ops)
    requires SameOps(g, r) && forall x :: x in g ==> (r[x].dead <==> g[x].dead || Identity(g, x))
    ensures |LiveOps(g)| - |LiveOps(r)| == |Identities(g)|
  {
    assert LiveOps(g) == LiveOps(r) + Identities(g);
    assert LiveOps(r) !! Identities(g);
  }

  lemma {:induction false} DriveSameOps(g: Ops, w: World, hasKernel: Kind -> bool, wl: seq<nat>)
    ensures SameOps(g, Drive(g, w, hasKernel, [ShapeFold], wl).ops)
    decreases |LiveOps(g)|, |wl|
  {
    if wl != [] {
      var id, rest := wl[|wl| - 1], wl[..|wl| - 1];
      match FirstPass(g, hasKernel, [ShapeFold], id)
      case None => DriveSameOps(g, w, hasKernel, rest);
      case Some(p) =>
        RewriteRemovesOne(g, w, p, id);
        ShapeRewriteSameOps(g, w, id);
        DriveSameOps(Rewritten(g, w, p, id), w, hasKernel, Push(Push(rest, g[id].inputs), g[id].consumers));
    }
  }

  lemma ShapeRewriteSameOps(g: Ops, w: World, id: nat)
    requires Matches(g, ShapeFold, id)
    ensures SameOps(g, Rewritten(g, w, ShapeFold, id))
  {
    var src := g[id].inputs[0];
    if MatchPattern(g, id) == ReshapeChain {
      MergedSameOps(g, id, src);
    } else {
      RewiredSameOps(g, id, src);
    }
  }

  lemma MergedSameOps(g: Ops, id: nat, src: nat)
    requires id in g && src in g
    ensures SameOps(g, Merged(g, id, src))
  {
    RelistSameLiveness(g, id, src, g[src].inputs);
  }

  lemma RewiredSameOps(g: Ops, id: nat, src: nat)
    requires id in g && src in g
    ensures SameOps(g, Rewired(g, id, src))
  {
    var g1 := g[src := g[src].(consumers := Remove(g[src].consumers, id))];
    assert SameLiveness(g, g1);
    RewireEachSameLiveness(g1, id, src, g[id].consumers);
  }

  // ----- Shape folding with chains -----

  /** Operations of shape folding lie at most two deep: below a reshape there is no third; two
      reshapes are no identity together; and the lower one of two is read by somebody. */
  ghost predicate TwoDeep(g: Ops) {
    forall x, y :: Reads(g, x, y) && Foldable(g[x].kind) && Foldable(g[y].kind) && g[y].inputs != [] ==>
      && (exists c :: c in g[x].consumers && c in g)
      && (Reshapes(g[x].kind) ==>
            && g[y].inputs[0] in g && !Foldable(g[g[y].inputs[0]].kind)
            && (Reshapes(g[y].kind) ==> g[g[y].inputs[0]].dims != g[x].dims))
  }

  predicate Foldable(k: Kind) {
    k == Reshape || k == Flatten || k == Transpose
  }

  lemma TwoDeepIsShallow(g: Ops)
    requires TwoDeep(g)
    ensures Shallow(g, [ShapeFold])
  {
    forall x | Pair(g, x)
      ensures HasReader(g, x) && ShallowAt(g, [ShapeFold], x)
    {
      assert Reads(g, x, g[x].inputs[0]);
    }
  }

  /** No identity is left, and no reshape that alone reads a reshape. */
  ghost predicate Finished(g: Ops) {
    forall x, y :: Reads(g, x, y) && |g[x].inputs| == 1 && g[y].enabled && !g[y].dead ==>
      !Identity(g, x) && !(Reshapes(g[x].kind) && Reshapes(g[y].kind) && |g[y].consumers| == 1)
  }

  /** On a sound graph at most two deep, a run of shape folding in any order is finished. */
  lemma ShapeFoldingFinishes(g: Ops, w: World, hasKernel: Kind -> bool, order: seq<nat>)
    requires SoundGraph(g, w) && TwoDeep(g) && Lists(order, g)
    ensures Finished(Drive(g, w, hasKernel, [ShapeFold], Push([], Candidates(g, order))).ops)
  {
    var wl := Push([], Candidates(g, order));
    var r := Drive(g, w, hasKernel, [ShapeFold], wl).ops;
    TwoDeepIsShallow(g);
    ShallowEndsInFixpoint(g, w, hasKernel, [ShapeFold], order);
    DriveKeeps(g, w, hasKernel, [ShapeFold], wl);
    forall x
      ensures MatchPattern(r, x) == NoMatch
    {
      assert !Changes(r, hasKernel, ShapeFold, x);
    }
    MatchlessIsFinished(r, w);
  }

  lemma MatchlessIsFinished(r: Ops, w: World)
    requires SoundGraph(r, w) && forall x :: MatchPattern(r, x) == NoMatch
    ensures Finished(r)
  {
    forall x, y | Reads(r, x, y) && |r[x].inputs| == 1 && r[y].enabled && !r[y].dead
      ensures !Identity(r, x) && !(Reshapes(r[x].kind) && Reshapes(r[y].kind) && |r[y].consumers| == 1)
    {
      assert MatchPattern(r, x) == NoMatch;
      assert SoundNode(r, w, x);
    }
  }

  // ----- Constant folding -----

  predicate FoldsToConstant(k: Kind) {
    || k == Reshape || k == Flatten || k == Transpose
    || (k.Named?
        && (k.name == "Add" || k.name == "Sub" || k.name == "Mul" || k.name == "Div" || k.name == "Eltwise_Binary"
            || k.name == "Eltwise_Unary" || k.name == "ElementWiseNeuron" || k.name == "Eltwise_Ternary"
            || k.name == "StridedSlice" || k.name == "Pad" || k.name == "Concat" || k.name == "Reduce"
            || k.name == "Gather" || k.name == "CumulativeSum" || k.name == "ScatterNd"))
  }

  /** Node x is a constant, or a foldable operation with a reference kernel all of whose
      operands are known. */
  ghost predicate Known(g: Ops, w: World, hasKernel: Kind -> bool, x: nat)
    requires SoundGraph(g, w) && Live(g, x)
    decreases w.rank(x)
  {
    assert SoundNode(g, w, x);
    g[x].kind == Const
    || (FoldsToConstant(g[x].kind) && hasKernel(g[x].kind) && g[x].inputs != []
        && forall i :: 0 <= i < |g[x].inputs| ==> assert SoundEdge(g, w, x, g[x].inputs[i]); Known(g, w, hasKernel, g[x].inputs[i]))
  }

  lemma {:induction false} FoldKeepsKnown(g: Ops, w: World, hasKernel: Kind -> bool, id: nat, x: nat)
    requires SoundGraph(g, w) && Changes(g, hasKernel, ConstFold, id) && Live(g, x)
    requires SoundGraph(Rewritten(g, w, ConstFold, id), w)
    ensures Live(Rewritten(g, w, ConstFold, id), x)
    ensures Known(Rewritten(g, w, ConstFold, id), w, hasKernel, x) <==> Known(g, w, hasKernel, x)
    decreases w.rank(x)
  {
    var r := Rewritten(g, w, ConstFold, id);
    assert SoundNode(g, w, x) && SoundNode(r, w, x);
    if x == id {
      ConstantsAreKnown(g, w, hasKernel, id);
    } else {
      forall i | 0 <= i < |g[x].inputs|
        ensures Live(g, g[x].inputs[i]) && Live(r, g[x].inputs[i])
        ensures Known(r, w, hasKernel, g[x].inputs[i]) <==> Known(g, w, hasKernel, g[x].inputs[i])
      {
        assert SoundEdge(g, w, x, g[x].inputs[i]);
        FoldKeepsKnown(g, w, hasKernel, id, g[x].inputs[i]);
      }
    }
  }

  lemma ConstantsAreKnown(g: Ops, w: World, hasKernel: Kind -> bool, id: nat)
    requires SoundGraph(g, w) && Changes(g, hasKernel, ConstFold, id)
    ensures Known(g, w, hasKernel, id)
  {
    assert SoundNode(g, w, id);
    forall i | 0 <= i < |g[id].inputs|
      ensures Live(g, g[id].inputs[i]) && g[g[id].inputs[i]].kind == Const
    {
      assert SoundEdge(g, w, id, g[id].inputs[i]);
    }
  }

  /** What a run of constant folding never changes. */
  ghost predicate SameKnown(g: Ops, r: Ops, w: World, hasKernel: Kind -> bool)
    requires SoundGraph(g, w) && SoundGraph(r, w)
  {
    forall x: nat :: (Live(r, x) <==> Live(g, x)) && (Live(g, x) ==> (Known(r, w, hasKernel, x) <==> Known(g, w, hasKernel, x)))
  }

  lemma {:induction false} DriveKeepsKnown(g: Ops, w: World, hasKernel: Kind -> bool, wl: seq<nat>)
    requires SoundGraph(g, w)
    ensures SoundGraph(Drive(g, w, hasKernel, [ConstFold], wl).ops, w)
    ensures SameKnown(g, Drive(g, w, hasKernel, [ConstFold], wl).ops, w, hasKernel)
    decreases |LiveOps(g)|, |wl|
  {
    if wl != [] {
      var id, rest := wl[|wl| - 1], wl[..|wl| - 1];
      match FirstPass(g, hasKernel, [ConstFold], id)
      case None => DriveKeepsKnown(g, w, hasKernel, rest);
      case Some(p) =>
        RewriteRemovesOne(g, w, p, id);
        RewriteKeeps(g, w, p, id);
        var g1 := Rewritten(g, w, p, id);
        DriveKeepsKnown(g1, w, hasKernel, Push(Push(rest, g[id].inputs), g[id].consumers));
        forall x: nat | Live(g, x) {
          FoldKeepsKnown(g, w, hasKernel, id, x);
        }
    }
  }

  /** Where nothing is left to fold, what is known is constant. */
  lemma {:induction false} KnownIsConst(g: Ops, w: World, hasKernel: Kind -> bool, x: nat)
    requires SoundGraph(g, w) && Fixpoint(g, hasKernel, [ConstFold]) && Live(g, x)
    ensures Known(g, w, hasKernel, x) <==> g[x].kind == Const
    decreases w.rank(x)
  {
    assert SoundNode(g, w, x);
    if g[x].kind != Const && Known(g, w, hasKernel, x) {
      forall i | 0 <= i < |g[x].inputs|
        ensures g[x].inputs[i] in g && g[g[x].inputs[i]].kind == Const && g[g[x].inputs[i]].data != []
      {
        var y := g[x].inputs[i];
        assert SoundEdge(g, w, x, y) && SoundNode(g, w, y);
        KnownIsConst(g, w, hasKernel, y);
      }
      assert Changes(g, hasKernel, ConstFold, x);
    }
  }

  ghost function KnownOps(g: Ops, w: World, hasKernel: Kind -> bool): set<nat>
    requires SoundGraph(g, w)
  {
    set x | x in g && Live(g, x) && g[x].kind != Const && Known(g, w, hasKernel, x)
  }

  /** Whatever was alive still is; it is a constant exactly if it is known; and the total
      counts the operations among it. */
  ghost predicate KnownFolded(g: Ops, r: Ops, w: World, hasKernel: Kind -> bool, total: nat)
    requires SoundGraph(g, w)
  {
    && (forall x: nat :: Live(r, x) <==> Live(g, x))
    && (forall x: nat :: Live(g, x) ==> (r[x].kind == Const <==> Known(g, w, hasKernel, x)))
    && total == |KnownOps(g, w, hasKernel)|
  }

  /** On a sound graph a run of constant folding turns exactly the known operations into
      constants, each counted once; whatever was alive still is. */
  lemma ConstFoldingFoldsKnown(g: Ops, w: World, hasKernel: Kind -> bool, order: seq<nat>)
    requires SoundGraph(g, w) && Lists(order, g)
    ensures var r := Drive(g, w, hasKernel, [ConstFold], Push([], Candidates(g, order)));
            KnownFolded(g, r.ops, w, hasKernel, r.total)
  {
    var wl := Push([], Candidates(g, order));
    var r := Drive(g, w, hasKernel, [ConstFold], wl);
    PushAddsOnce([], Candidates(g, order));
    FoldingReachesFixpoint(g, w, hasKernel, [ConstFold], wl);
    DriveKeepsKnown(g, w, hasKernel, wl);
    forall x: nat | Live(g, x)
      ensures r.ops[x].kind == Const <==> Known(g, w, hasKernel, x)
    {
      KnownIsConst(r.ops, w, hasKernel, x);
    }
    TotalIsOperationsRemoved(g, w, hasKernel, [ConstFold], wl);
    FoldSameKinds(g, w, hasKernel, wl);
    KnownGone(g, r.ops, w, hasKernel);
  }

  lemma KnownGone(g: Ops, r: Ops, w: World, hasKernel: Kind -> bool)
    requires SoundGraph(g, w) && r.Keys == g.Keys && (forall x: nat :: Live(r, x) <==> Live(g, x))
    requires forall x: nat :: Live(g, x) ==> (r[x].kind == Const <==> Known(g, w, hasKernel, x)) && (r[x].kind == Const || r[x].kind == g[x].kind)
    ensures |LiveOps(g)| - |LiveOps(r)| == |KnownOps(g, w, hasKernel)|
  {
    forall x: nat
      ensures x in LiveOps(g) <==> x in LiveOps(r) || x in KnownOps(g, w, hasKernel)
      ensures !(x in LiveOps(r) && x in KnownOps(g, w, hasKernel))
    {
    }
    assert LiveOps(g) == LiveOps(r) + KnownOps(g, w, hasKernel);
    assert LiveOps(r) !! KnownOps(g, w, hasKernel);
  }

  /** A node keeps its kind or becomes a constant. */
  lemma {:induction false} FoldSameKinds(g: Ops, w: World, hasKernel: Kind -> bool, wl: seq<nat>)
    ensures var r := Drive(g, w, hasKernel, [ConstFold], wl).ops;
            r.Keys == g.Keys && forall x :: x in g ==> r[x].kind == Const || r[x].kind == g[x].kind
    decreases |LiveOps(g)|, |wl|
  {
    if wl != [] {
      var id, rest := wl[|wl| - 1], wl[..|wl| - 1];
      match FirstPass(g, hasKernel, [ConstFold], id)
      case None => FoldSameKinds(g, w, hasKernel, rest);
      case Some(p) =>
        RewriteRemovesOne(g, w, p, id);
        FoldSameKinds(Rewritten(g, w, p, id), w, hasKernel, Push(Push(rest, g[id].inputs), g[id].consumers));
    }
  }
}
