/** What shape folding leaves behind: where a rewrite makes new matches that the driver does
    not look at again, and graphs on which none are left
    (compiler/src/opt/pass_manager.cpp:71-117, pass_shape_fold.cpp:52-117).
 */
module ShapeFixpoint {
  import opened Options
  import opened GraphRewrite
  import opened GraphMeaning
  import opened PassDriver
  import opened PassFixpoint

  /** Every match is on the worklist. */
  ghost predicate Covered(g: Ops, hasKernel: Kind -> bool, active: seq<Pass>, wl: seq<nat>) {
    forall p: Pass, x: nat :: p in active && Changes(g, hasKernel, p, x) ==> x in wl
  }

  /** The worklist after a rewrite of `id`. */
  function Pushed(g: Ops, id: nat, rest: seq<nat>): seq<nat>
    requires id in g
  {
    Push(Push(rest, g[id].inputs), g[id].consumers)
  }

  lemma PushedHolds(g: Ops, id: nat, rest: seq<nat>)
    requires id in g
    ensures forall x :: x in Pushed(g, id, rest) <==> x in rest || x in g[id].inputs || x in g[id].consumers
  {
    PushAddsOnce(rest, g[id].inputs);
    PushAddsOnce(Push(rest, g[id].inputs), g[id].consumers);
  }

  // ----- Merging loses the tail at most -----

  /** Only the producers of the head change their lists. */
  lemma {:induction false} RelistElsewhere(g: Ops, id: nat, src: nat, producers: seq<nat>, y: nat)
    requires y in g && y !in producers
    ensures y in Relist(g, id, src, producers) && Relist(g, id, src, producers)[y].consumers == g[y].consumers
    decreases |producers|
  {
    if producers != [] {
      var s := producers[0];
      var g1 := if s in g then g[s := g[s].(consumers := Remove(g[s].consumers, src) + [id])] else g;
      RelistElsewhere(g1, id, src, producers[1..], y);
    }
  }

  lemma MergedElsewhere(g: Ops, id: nat, src: nat, y: nat)
    requires id in g && src in g && id != src && y in g && y !in g[src].inputs
    ensures y in Merged(g, id, src) && Merged(g, id, src)[y].consumers == g[y].consumers
  {
    RelistElsewhere(g, id, src, g[src].inputs, y);
  }

  /** Two different members make a list longer than one. */
  lemma TwoMembers(s: seq<nat>, x: nat, y: nat)
    requires x in s && y in s && x != y
    ensures |s| > 1
  {
  }

  /** A node that reads what it read before. */
  ghost predicate SameReader(g: Ops, r: Ops, x: nat) {
    && SameOps(g, r) && Live(g, x) && Live(r, x) && r[x].inputs == g[x].inputs
    && forall i :: 0 <= i < |g[x].inputs| ==> Live(g, g[x].inputs[i])
  }

  lemma SameConstFold(g: Ops, r: Ops, x: nat)
    requires SameReader(g, r, x) && ConstFoldMatches(r, x)
    ensures ConstFoldMatches(g, x)
  {
    forall i | 0 <= i < |g[x].inputs|
      ensures g[x].inputs[i] in g && g[g[x].inputs[i]].kind == Const && g[g[x].inputs[i]].data != []
    {
      assert r[x].inputs[i] in r;
    }
  }

  lemma SameParams(g: Ops, r: Ops, x: nat)
    requires SameOps(g, r) && x in g
    ensures AllParamsIdentity(r, r[x]) <==> AllParamsIdentity(g, g[x])
  {
  }

  lemma SamePattern(g: Ops, r: Ops, x: nat)
    requires SameReader(g, r, x) && MatchPattern(r, x) != NoMatch
    requires MatchPattern(r, x) == ReshapeChain ==> |g[g[x].inputs[0]].consumers| == 1
    ensures MatchPattern(g, x) != NoMatch
  {
    if g[x].kind == Transpose {
      SameParams(g, r, x);
    }
  }

  /** A merge makes no match but at the tail. */
  lemma MergeMakesTailMatch(g: Ops, w: World, id: nat, p: Pass, x: nat)
    requires SoundGraph(g, w) && MatchPattern(g, id) == ReshapeChain && x != id
    requires Matches(Merged(g, id, g[id].inputs[0]), p, x)
    ensures Matches(g, p, x)
  {
    var r := Merged(g, id, g[id].inputs[0]);
    MergeKeepsReader(g, w, id, x);
    match p
    case ConstFold => SameConstFold(g, r, x);
    case ShapeFold =>
      if MatchPattern(r, x) == ReshapeChain {
        MergedProducer(g, w, id, x);
      }
      SamePattern(g, r, x);
  }

  lemma MergeKeepsReader(g: Ops, w: World, id: nat, x: nat)
    requires SoundGraph(g, w) && MatchPattern(g, id) == ReshapeChain && x != id && Live(Merged(g, id, g[id].inputs[0]), x)
    ensures SameReader(g, Merged(g, id, g[id].inputs[0]), x)
  {
    var src := g[id].inputs[0];
    assert SoundNode(g, w, id) && SoundEdge(g, w, id, src);
    MergedHasEffect(g, id, src);
    AllReadersLive(g, w, x);
  }

  lemma AllReadersLive(g: Ops, w: World, x: nat)
    requires SoundGraph(g, w) && Live(g, x)
    ensures forall i :: 0 <= i < |g[x].inputs| ==> Live(g, g[x].inputs[i]) && x in g[g[x].inputs[i]].consumers
  {
    assert SoundNode(g, w, x);
    forall i | 0 <= i < |g[x].inputs|
      ensures Live(g, g[x].inputs[i]) && x in g[g[x].inputs[i]].consumers
    {
      assert SoundEdge(g, w, x, g[x].inputs[i]);
    }
  }

  /** The producer of another reader has the list it had, or now lists two. */
  lemma MergedProducer(g: Ops, w: World, id: nat, x: nat)
    requires SoundGraph(g, w) && MatchPattern(g, id) == ReshapeChain && x != id
    requires MatchPattern(Merged(g, id, g[id].inputs[0]), x) == ReshapeChain
    ensures x in g && g[x].inputs != [] && g[x].inputs[0] in g && |g[g[x].inputs[0]].consumers| == 1
  {
    var src := g[id].inputs[0];
    var r := Merged(g, id, src);
    assert SoundNode(g, w, id) && SoundEdge(g, w, id, src);
    MergeKeepsReader(g, w, id, x);
    AllReadersLive(g, w, x);
    var y := g[x].inputs[0];
    HeadHasOneUser(g, w, id, x, 0);
    if y in g[src].inputs {
      MergedHasEffect(g, id, src);
      TwoMembers(r[y].consumers, x, id);
    } else {
      MergedElsewhere(g, id, src, y);
    }
  }

  /** If every match was on the worklist when a chain was popped, then after the merge every
      match is on it again exactly when the tail matches no more, or is on it. */
  lemma MergeLosesOnlyTail(g: Ops, w: World, hasKernel: Kind -> bool, active: seq<Pass>, id: nat, rest: seq<nat>)
    requires SoundGraph(g, w) && MatchPattern(g, id) == ReshapeChain && Covered(g, hasKernel, active, rest + [id])
    ensures Covered(Merged(g, id, g[id].inputs[0]), hasKernel, active, Pushed(g, id, rest))
       <==> id in Pushed(g, id, rest) || forall p :: p in active ==> !Changes(Merged(g, id, g[id].inputs[0]), hasKernel, p, id)
  {
    var r := Merged(g, id, g[id].inputs[0]);
    PushedHolds(g, id, rest);
    forall p: Pass, x: nat | p in active && x != id && Changes(r, hasKernel, p, x)
      ensures x in Pushed(g, id, rest)
    {
      MergeKeepsKind(g, w, id, x);
      MergeMakesTailMatch(g, w, id, p, x);
      assert Changes(g, hasKernel, p, x);
      assert x in rest + [id];
    }
  }

  lemma MergeKeepsKind(g: Ops, w: World, id: nat, x: nat)
    requires SoundGraph(g, w) && MatchPattern(g, id) == ReshapeChain && x in Merged(g, id, g[id].inputs[0])
    ensures x in g && Merged(g, id, g[id].inputs[0])[x].kind == g[x].kind
  {
    assert SoundNode(g, w, id) && SoundEdge(g, w, id, g[id].inputs[0]);
    MergedHasEffect(g, id, g[id].inputs[0]);
  }

  // ----- Rewiring loses the last reader at most -----

  /** Node x is a reshape that becomes the only reader of a reshape when `id` goes: nobody
      reads `id`, and nobody but these two reads its producer. */
  ghost predicate LastReader(g: Ops, id: nat, x: nat) {
    && id in g && g[id].inputs != [] && Live(g, g[id].inputs[0]) && IsShape(g[g[id].inputs[0]].kind)
    && Live(g, x) && IsShape(g[x].kind) && g[x].inputs == [g[id].inputs[0]] && x != id
    && (forall c :: c in g[id].consumers ==> c !in g)
    && |Remove(g[g[id].inputs[0]].consumers, id)| == 1
  }

  lemma {:induction false} RewireNobody(g: Ops, id: nat, prod: nat, cons: seq<nat>)
    requires prod in g && forall c :: c in cons ==> c !in g
    ensures RewireEach(g, id, prod, cons) == g
    decreases |cons|
  {
    if cons != [] {
      assert cons[0] in cons && forall c :: c in cons[1..] ==> c in cons;
      RewireNobody(g, id, prod, cons[1..]);
    }
  }

  lemma RewiredWithoutReaders(g: Ops, id: nat, prod: nat)
    requires id in g && prod in g && id != prod && forall c :: c in g[id].consumers ==> c !in g
    ensures prod in Rewired(g, id, prod) && Rewired(g, id, prod)[prod].consumers == Remove(g[prod].consumers, id)
  {
    RewireNobody(g[prod := g[prod].(consumers := Remove(g[prod].consumers, id))], id, prod, g[id].consumers);
  }

  /** A rewiring makes matches only among the consumers of the removed operation, or at a
      last reader. */
  lemma RewireMakesReaderMatch(g: Ops, w: World, id: nat, p: Pass, x: nat)
    requires SoundGraph(g, w) && MatchPattern(g, id) in {IdentReshape, IdentTranspose}
    requires Matches(Rewired(g, id, g[id].inputs[0]), p, x)
    ensures x != id && (Matches(g, p, x) || x in g[id].consumers || LastReader(g, id, x))
  {
    var r := Rewired(g, id, g[id].inputs[0]);
    RewireKeepsReader(g, w, id, x);
    if x !in g[id].consumers {
      match p
      case ConstFold => SameConstFold(g, r, x);
      case ShapeFold =>
        if MatchPattern(r, x) == ReshapeChain && !LastReader(g, id, x) {
          RewiredProducer(g, w, id, x);
        }
        if !LastReader(g, id, x) || MatchPattern(r, x) != ReshapeChain {
          SamePattern(g, r, x);
        }
    }
  }

  lemma RewireKeepsReader(g: Ops, w: World, id: nat, x: nat)
    requires SoundGraph(g, w) && MatchPattern(g, id) in {IdentReshape, IdentTranspose} && Live(Rewired(g, id, g[id].inputs[0]), x)
    ensures x != id && (x in g[id].consumers || SameReader(g, Rewired(g, id, g[id].inputs[0]), x))
  {
    var prod := g[id].inputs[0];
    assert SoundNode(g, w, id) && SoundEdge(g, w, id, prod);
    RewiredHasEffect(g, id, prod);
    AllReadersLive(g, w, x);
  }

  lemma RewiredProducer(g: Ops, w: World, id: nat, x: nat)
    requires SoundGraph(g, w) && MatchPattern(g, id) in {IdentReshape, IdentTranspose}
    requires x != id && x !in g[id].consumers && !LastReader(g, id, x)
    requires MatchPattern(Rewired(g, id, g[id].inputs[0]), x) == ReshapeChain
    ensures x in g && g[x].inputs != [] && g[x].inputs[0] in g && |g[g[x].inputs[0]].consumers| == 1
  {
    var prod := g[id].inputs[0];
    assert SoundNode(g, w, id) && SoundEdge(g, w, id, prod);
    RewireKeepsReader(g, w, id, x);
    AllReadersLive(g, w, x);
    RewiredHasEffect(g, id, prod);
    if g[x].inputs[0] == prod {
      ReaderIsLast(g, w, id, x);
    }
  }

  lemma ReaderIsLast(g: Ops, w: World, id: nat, x: nat)
    requires SoundGraph(g, w) && MatchPattern(g, id) in {IdentReshape, IdentTranspose}
    requires x != id && x !in g[id].consumers && Live(g, x) && g[x].inputs != [] && g[x].inputs[0] == g[id].inputs[0]
    requires MatchPattern(Rewired(g, id, g[id].inputs[0]), x) == ReshapeChain
    ensures LastReader(g, id, x)
  {
    var prod := g[id].inputs[0];
    RewireKeepsReader(g, w, id, x);
    NobodyReads(g, w, id, x);
    assert SoundNode(g, w, id) && SoundEdge(g, w, id, prod);
    RewiredWithoutReaders(g, id, prod);
    KindOfProducer(g, w, id);
  }

  lemma KindOfProducer(g: Ops, w: World, id: nat)
    requires SoundGraph(g, w) && MatchPattern(g, id) in {IdentReshape, IdentTranspose}
    ensures var (r, prod) := (Rewired(g, id, g[id].inputs[0]), g[id].inputs[0]); Live(g, prod) && prod in r && r[prod].kind == g[prod].kind
  {
    assert SoundNode(g, w, id) && SoundEdge(g, w, id, g[id].inputs[0]);
    RewiredHasEffect(g, id, g[id].inputs[0]);
  }

  lemma NobodyReads(g: Ops, w: World, id: nat, x: nat)
    requires SoundGraph(g, w) && MatchPattern(g, id) in {IdentReshape, IdentTranspose}
    requires x != id && Live(g, x) && g[x].inputs != [] && g[x].inputs[0] == g[id].inputs[0]
    requires var (r, prod) := (Rewired(g, id, g[id].inputs[0]), g[id].inputs[0]); prod in r && |r[prod].consumers| == 1
    requires x !in g[id].consumers
    ensures forall c :: c in g[id].consumers ==> c !in g
  {
    var prod := g[id].inputs[0];
    var r := Rewired(g, id, prod);
    assert SoundNode(g, w, id) && SoundNode(g, w, x) && SoundEdge(g, w, id, prod) && SoundEdge(g, w, x, g[x].inputs[0]);
    RewiredHasEffect(g, id, prod);
    assert x in r[prod].consumers;
    forall c | c in g[id].consumers
      ensures c !in g
    {
      if c in g {
        TwoMembers(r[prod].consumers, x, c);
      }
    }
  }

  lemma LastReaderStays(g: Ops, w: World, id: nat, x: nat)
    requires SoundGraph(g, w) && MatchPattern(g, id) in {IdentReshape, IdentTranspose} && LastReader(g, id, x)
    ensures var (r, prod) := (Rewired(g, id, g[id].inputs[0]), g[id].inputs[0]);
            && Live(r, x) && IsShape(r[x].kind) && r[x].inputs == [prod]
            && Live(r, prod) && IsShape(r[prod].kind) && |r[prod].consumers| == 1
  {
    var prod := g[id].inputs[0];
    assert SoundNode(g, w, id) && SoundEdge(g, w, id, prod);
    RewiredHasEffect(g, id, prod);
    RewiredWithoutReaders(g, id, prod);
    assert x !in g[id].consumers;
  }

  /** And a last reader does match. */
  lemma LastReaderMatches(g: Ops, w: World, id: nat, x: nat)
    requires SoundGraph(g, w) && MatchPattern(g, id) in {IdentReshape, IdentTranspose} && LastReader(g, id, x)
    ensures MatchPattern(Rewired(g, id, g[id].inputs[0]), x) == ReshapeChain
  {
    LastReaderStays(g, w, id, x);
  }

  lemma RewireKeepsKind(g: Ops, w: World, id: nat, x: nat)
    requires SoundGraph(g, w) && MatchPattern(g, id) in {IdentReshape, IdentTranspose} && x in Rewired(g, id, g[id].inputs[0])
    ensures x in g && Rewired(g, id, g[id].inputs[0])[x].kind == g[x].kind
  {
    assert SoundNode(g, w, id) && SoundEdge(g, w, id, g[id].inputs[0]);
    RewiredHasEffect(g, id, g[id].inputs[0]);
  }

  /** If every match was on the worklist when an identity operation was popped, then after
      its removal every match is on it again exactly when every last reader is. */
  lemma RewireLosesOnlyLastReader(g: Ops, w: World, hasKernel: Kind -> bool, active: seq<Pass>, id: nat, rest: seq<nat>)
    requires SoundGraph(g, w) && MatchPattern(g, id) in {IdentReshape, IdentTranspose} && ShapeFold in active
    requires Covered(g, hasKernel, active, rest + [id])
    ensures Covered(Rewired(g, id, g[id].inputs[0]), hasKernel, active, Pushed(g, id, rest))
       <==> forall x :: LastReader(g, id, x) ==> x in Pushed(g, id, rest)
  {
    var r, wl := Rewired(g, id, g[id].inputs[0]), Pushed(g, id, rest);
    PushedHolds(g, id, rest);
    forall p: Pass, x: nat | p in active && Changes(r, hasKernel, p, x)
      ensures x in wl || LastReader(g, id, x)
    {
      RewireKeepsKind(g, w, id, x);
      RewireMakesReaderMatch(g, w, id, p, x);
      assert Matches(g, p, x) ==> Changes(g, hasKernel, p, x) && x in rest + [id];
    }
    forall x | LastReader(g, id, x)
      ensures Changes(r, hasKernel, ShapeFold, x)
    {
      LastReaderMatches(g, w, id, x);
    }
  }

  // ----- Graphs on which nothing is lost -----

  /** Operations that shape folding may remove, now or later. */
  predicate PassThrough(g: Ops, x: nat) {
    Live(g, x) && (IsShape(g[x].kind) || MatchPattern(g, x) == IdentTranspose)
  }

  /** One such operation reads another. */
  predicate Pair(g: Ops, x: nat) {
    PassThrough(g, x) && g[x].inputs != [] && PassThrough(g, g[x].inputs[0]) && g[g[x].inputs[0]].inputs != []
  }

  /** The second input up from x. */
  function Base(g: Ops, x: nat): nat
    requires Pair(g, x)
  {
    g[g[x].inputs[0]].inputs[0]
  }

  /** If the lower half of a pair is a reshape, there is no third such operation above; and if
      both halves are, the pair is no identity as a whole and its operand is no constant, nor
      to become one. */
  ghost predicate ShallowAt(g: Ops, active: seq<Pass>, x: nat)
    requires Pair(g, x)
  {
    && (IsShape(g[x].kind) ==> Base(g, x) in g && !PassThrough(g, Base(g, x)))
    && (IsShape(g[x].kind) && IsShape(g[g[x].inputs[0]].kind) ==>
          g[Base(g, x)].dims != g[x].dims
          && (ConstFold in active ==> g[Base(g, x)].kind != Const && !Whitelisted(g[Base(g, x)].kind)))
  }

  /** Every pair is, and either no reshape reads a reshape or every pair is read. */
  ghost predicate Shallow(g: Ops, active: seq<Pass>) {
    (NoShapePairs(g) || AllRead(g)) && forall x :: Pair(g, x) ==> ShallowAt(g, active, x)
  }

  ghost predicate NoShapePairs(g: Ops) {
    forall x :: Pair(g, x) ==> !(IsShape(g[x].kind) && IsShape(g[g[x].inputs[0]].kind))
  }

  ghost predicate AllRead(g: Ops) {
    forall x :: Pair(g, x) ==> HasReader(g, x)
  }

  /** No live reshape reads a reshape or a transpose. */
  predicate Separate(g: Ops) {
    forall x: nat :: x in g && Live(g, x) && IsShape(g[x].kind) && g[x].inputs != [] && g[x].inputs[0] in g ==>
      !IsShape(g[g[x].inputs[0]].kind) && g[g[x].inputs[0]].kind != Transpose
  }

  lemma SeparateIsShallow(g: Ops, active: seq<Pass>)
    requires Separate(g)
    ensures Shallow(g, active)
  {
    forall x | Pair(g, x)
      ensures !IsShape(g[x].kind)
    {
      assert PassThrough(g, g[x].inputs[0]);
    }
  }

  ghost predicate HasReader(g: Ops, x: nat) {
    x in g && exists c :: c in g[x].consumers && c in g
  }

  lemma IdentityHasReader(g: Ops, w: World, id: nat)
    requires SoundGraph(g, w) && AllRead(g) && MatchPattern(g, id) in {IdentReshape, IdentTranspose}
    requires IsShape(g[g[id].inputs[0]].kind) || (PassThrough(g, g[id].inputs[0]) && g[g[id].inputs[0]].inputs != [])
    ensures HasReader(g, id)
  {
    assert SoundNode(g, w, g[id].inputs[0]);
    assert Pair(g, id);
  }

  lemma NoLastReader(g: Ops, w: World, active: seq<Pass>, id: nat, x: nat)
    requires SoundGraph(g, w) && Shallow(g, active) && MatchPattern(g, id) in {IdentReshape, IdentTranspose}
    ensures !LastReader(g, id, x)
  {
    if LastReader(g, id, x) {
      assert SoundNode(g, w, g[id].inputs[0]);
      assert Pair(g, x);
      IdentityHasReader(g, w, id);
    }
  }

  lemma SamePassThrough(g: Ops, w: World, r: Ops, x: nat)
    requires SoundGraph(g, w) && Live(g, x) && x in r && SameOps(g, r) && |r[x].inputs| == |g[x].inputs|
    requires PassThrough(r, x)
    ensures PassThrough(g, x)
  {
    SameParams(g, r, x);
    AllReadersLive(g, w, x);
  }

  /** Removing an identity leaves the other operations as removable as they were. */
  lemma RewirePassThrough(g: Ops, w: World, id: nat, x: nat)
    requires SoundGraph(g, w) && MatchPattern(g, id) in {IdentReshape, IdentTranspose}
    requires PassThrough(Rewired(g, id, g[id].inputs[0]), x)
    ensures x != id && PassThrough(g, x)
  {
    var prod := g[id].inputs[0];
    var r := Rewired(g, id, prod);
    assert SoundNode(g, w, id) && SoundEdge(g, w, id, prod);
    RewiredHasEffect(g, id, prod);
    SamePassThrough(g, w, r, x);
  }

  /** A pair that is left was one before; under a reshape it is the same pair. */
  lemma RewirePair(g: Ops, w: World, active: seq<Pass>, id: nat, x: nat)
    requires SoundGraph(g, w) && Shallow(g, active) && MatchPattern(g, id) in {IdentReshape, IdentTranspose}
    requires Pair(Rewired(g, id, g[id].inputs[0]), x)
    ensures var r := Rewired(g, id, g[id].inputs[0]);
            Pair(g, x) && (IsShape(g[x].kind) ==> r[x].inputs[0] == g[x].inputs[0] && Base(r, x) == Base(g, x))
  {
    var prod := g[id].inputs[0];
    var r := Rewired(g, id, prod);
    assert SoundNode(g, w, id) && SoundEdge(g, w, id, prod);
    RewiredHasEffect(g, id, prod);
    RewirePassThrough(g, w, id, x);
    RewirePassThrough(g, w, id, r[x].inputs[0]);
    RewiredInput(g, w, id, x);
    RewiredInput(g, w, id, r[x].inputs[0]);
    assert Pair(g, x);
    assert ShallowAt(g, active, x);
  }

  /** The first input after a rewiring. */
  lemma RewiredInput(g: Ops, w: World, id: nat, x: nat)
    requires SoundGraph(g, w) && MatchPattern(g, id) in {IdentReshape, IdentTranspose} && Live(g, x)
    ensures var r := Rewired(g, id, g[id].inputs[0]);
            && x in r && |r[x].inputs| == |g[x].inputs|
            && (g[x].inputs != [] ==> r[x].inputs[0] == if g[x].inputs[0] == id then g[id].inputs[0] else g[x].inputs[0])
  {
    var prod := g[id].inputs[0];
    assert SoundNode(g, w, id) && SoundEdge(g, w, id, prod);
    RewiredHasEffect(g, id, prod);
    AllReadersLive(g, w, x);
  }

  lemma RewireKeepsReaders(g: Ops, w: World, id: nat, x: nat)
    requires SoundGraph(g, w) && AllRead(g) && MatchPattern(g, id) in {IdentReshape, IdentTranspose}
    requires Pair(g, x) && x != id
    ensures HasReader(Rewired(g, id, g[id].inputs[0]), x)
  {
    var prod := g[id].inputs[0];
    var r := Rewired(g, id, prod);
    assert SoundNode(g, w, id) && SoundEdge(g, w, id, prod);
    RewiredHasEffect(g, id, prod);
    assert HasReader(g, x);
    var c :| c in g[x].consumers && c in g;
    if x == prod && c == id {
      IdentityHasReader(g, w, id);
      var d :| d in g[id].consumers && d in g;
      assert d in r[x].consumers;
    } else {
      assert c in r[x].consumers;
    }
  }

  lemma RewireKeepsShallow(g: Ops, w: World, active: seq<Pass>, id: nat, x: nat)
    requires SoundGraph(g, w) && Shallow(g, active) && MatchPattern(g, id) in {IdentReshape, IdentTranspose}
    requires Pair(Rewired(g, id, g[id].inputs[0]), x)
    ensures ShallowAt(Rewired(g, id, g[id].inputs[0]), active, x)
  {
    var r := Rewired(g, id, g[id].inputs[0]);
    RewirePair(g, w, active, id, x);
    RewirePassThrough(g, w, id, x);
    assert ShallowAt(g, active, x);
    RewireKeepsKind(g, w, id, x);
    if IsShape(g[x].kind) {
      SameBase(g, w, active, id, x);
    }
  }

  lemma SameBase(g: Ops, w: World, active: seq<Pass>, id: nat, x: nat)
    requires SoundGraph(g, w) && MatchPattern(g, id) in {IdentReshape, IdentTranspose}
    requires Pair(g, x) && ShallowAt(g, active, x) && IsShape(g[x].kind) && x in Rewired(g, id, g[id].inputs[0])
    ensures var (r, z) := (Rewired(g, id, g[id].inputs[0]), Base(g, x));
            && z in r && !PassThrough(r, z) && r[z].dims == g[z].dims && r[z].kind == g[z].kind && r[x].dims == g[x].dims
            && g[x].inputs[0] in r && r[g[x].inputs[0]].kind == g[g[x].inputs[0]].kind
  {
    var r := Rewired(g, id, g[id].inputs[0]);
    assert SoundNode(g, w, id) && SoundEdge(g, w, id, g[id].inputs[0]);
    RewiredHasEffect(g, id, g[id].inputs[0]);
    if PassThrough(r, Base(g, x)) {
      RewirePassThrough(g, w, id, Base(g, x));
    }
  }

  lemma RewireKeepsReading(g: Ops, w: World, active: seq<Pass>, id: nat)
    requires SoundGraph(g, w) && Shallow(g, active) && MatchPattern(g, id) in {IdentReshape, IdentTranspose}
    ensures NoShapePairs(Rewired(g, id, g[id].inputs[0])) || AllRead(Rewired(g, id, g[id].inputs[0]))
  {
    var r := Rewired(g, id, g[id].inputs[0]);
    forall x | Pair(r, x)
      ensures AllRead(g) ==> HasReader(r, x)
      ensures NoShapePairs(g) ==> !(IsShape(r[x].kind) && IsShape(r[r[x].inputs[0]].kind))
    {
      RewirePair(g, w, active, id, x);
      RewirePassThrough(g, w, id, x);
      if AllRead(g) {
        RewireKeepsReaders(g, w, id, x);
      }
      RewireKeepsKinds(g, w, id);
    }
  }

  lemma RewireKeepsKinds(g: Ops, w: World, id: nat)
    requires SoundGraph(g, w) && MatchPattern(g, id) in {IdentReshape, IdentTranspose}
    ensures SameOps(g, Rewired(g, id, g[id].inputs[0]))
  {
    assert SoundNode(g, w, id) && SoundEdge(g, w, id, g[id].inputs[0]);
    RewiredHasEffect(g, id, g[id].inputs[0]);
  }

  /** The identity is gone, nothing is lost, and the graph is as shallow as before. */
  lemma ShallowRewire(g: Ops, w: World, hasKernel: Kind -> bool, active: seq<Pass>, id: nat, rest: seq<nat>)
    requires SoundGraph(g, w) && Shallow(g, active) && MatchPattern(g, id) in {IdentReshape, IdentTranspose} && ShapeFold in active
    requires Covered(g, hasKernel, active, rest + [id])
    ensures var r := Rewired(g, id, g[id].inputs[0]);
            Shallow(r, active) && Covered(r, hasKernel, active, Pushed(g, id, rest))
  {
    forall x | Pair(Rewired(g, id, g[id].inputs[0]), x)
      ensures ShallowAt(Rewired(g, id, g[id].inputs[0]), active, x)
    {
      RewireKeepsShallow(g, w, active, id, x);
    }
    RewireKeepsReading(g, w, active, id);
    forall x
      ensures !LastReader(g, id, x)
    {
      NoLastReader(g, w, active, id, x);
    }
    RewireLosesOnlyLastReader(g, w, hasKernel, active, id, rest);
  }

  // ----- Merging -----

  lemma MergePassThrough(g: Ops, w: World, id: nat, x: nat)
    requires SoundGraph(g, w) && MatchPattern(g, id) == ReshapeChain
    requires PassThrough(Merged(g, id, g[id].inputs[0]), x)
    ensures PassThrough(g, x)
  {
    var src := g[id].inputs[0];
    var r := Merged(g, id, src);
    assert SoundNode(g, w, id) && SoundEdge(g, w, id, src);
    MergedHasEffect(g, id, src);
    if !IsShape(r[x].kind) {
      MergeKeepsReader(g, w, id, x);
      AllReadersLive(g, w, x);
      SameParams(g, r, x);
    }
  }

  /** The chain that is merged is a pair. */
  lemma ChainIsPair(g: Ops, w: World, active: seq<Pass>, id: nat)
    requires SoundGraph(g, w) && Shallow(g, active) && MatchPattern(g, id) == ReshapeChain
    ensures Pair(g, id) && ShallowAt(g, active, id) && AllRead(g)
  {
    assert SoundNode(g, w, g[id].inputs[0]);
  }

  /** After the merge the tail matches no more. */
  lemma MergedTailIsDone(g: Ops, w: World, hasKernel: Kind -> bool, active: seq<Pass>, id: nat, p: Pass)
    requires SoundGraph(g, w) && Shallow(g, active) && MatchPattern(g, id) == ReshapeChain && p in active
    ensures !Changes(Merged(g, id, g[id].inputs[0]), hasKernel, p, id)
  {
    var src := g[id].inputs[0];
    var r := Merged(g, id, src);
    assert SoundNode(g, w, id) && SoundEdge(g, w, id, src) && SoundNode(g, w, src);
    assert SoundEdge(g, w, src, g[src].inputs[0]);
    MergedHasEffect(g, id, src);
    ChainIsPair(g, w, active, id);
    assert r[id].inputs[0] == Base(g, id);
  }

  /** A pair that is left was the same pair before. */
  lemma MergePair(g: Ops, w: World, active: seq<Pass>, id: nat, x: nat)
    requires SoundGraph(g, w) && Shallow(g, active) && MatchPattern(g, id) == ReshapeChain
    requires Pair(Merged(g, id, g[id].inputs[0]), x)
    ensures var r := Merged(g, id, g[id].inputs[0]);
            x != id && Pair(g, x) && r[x].inputs == g[x].inputs && (IsShape(g[x].kind) ==> Base(r, x) == Base(g, x))
  {
    var src := g[id].inputs[0];
    var r := Merged(g, id, src);
    assert SoundNode(g, w, id) && SoundEdge(g, w, id, src);
    MergedHasEffect(g, id, src);
    MergePassThrough(g, w, id, x);
    MergePassThrough(g, w, id, r[x].inputs[0]);
    ChainIsPair(g, w, active, id);
    AllReadersLive(g, w, x);
    assert SoundNode(g, w, g[x].inputs[0]);
    assert x != id;
    assert Pair(g, x) && ShallowAt(g, active, x);
  }

  lemma MergeKeepsReaders(g: Ops, w: World, id: nat, x: nat)
    requires SoundGraph(g, w) && MatchPattern(g, id) == ReshapeChain && HasReader(g, x)
    ensures HasReader(Merged(g, id, g[id].inputs[0]), x)
  {
    var src := g[id].inputs[0];
    var r := Merged(g, id, src);
    assert SoundNode(g, w, id) && SoundEdge(g, w, id, src);
    MergedHasEffect(g, id, src);
    if x in g[src].inputs {
      assert id in r[x].consumers;
    } else {
      MergedElsewhere(g, id, src, x);
      var c :| c in g[x].consumers && c in g;
      assert c in r[x].consumers;
    }
  }

  lemma MergeKeepsShallow(g: Ops, w: World, active: seq<Pass>, id: nat, x: nat)
    requires SoundGraph(g, w) && Shallow(g, active) && MatchPattern(g, id) == ReshapeChain
    requires Pair(Merged(g, id, g[id].inputs[0]), x)
    ensures ShallowAt(Merged(g, id, g[id].inputs[0]), active, x)
  {
    var src := g[id].inputs[0];
    var r := Merged(g, id, src);
    MergePair(g, w, active, id, x);
    assert ShallowAt(g, active, x);
    assert SoundNode(g, w, id) && SoundEdge(g, w, id, src);
    MergedHasEffect(g, id, src);
    if IsShape(g[x].kind) && PassThrough(r, Base(g, x)) {
      MergePassThrough(g, w, id, Base(g, x));
    }
  }

  lemma MergeKeepsReading(g: Ops, w: World, active: seq<Pass>, id: nat)
    requires SoundGraph(g, w) && Shallow(g, active) && MatchPattern(g, id) == ReshapeChain
    ensures AllRead(Merged(g, id, g[id].inputs[0]))
  {
    ChainIsPair(g, w, active, id);
    forall x | Pair(Merged(g, id, g[id].inputs[0]), x)
      ensures HasReader(Merged(g, id, g[id].inputs[0]), x)
    {
      MergePair(g, w, active, id, x);
      MergeKeepsReaders(g, w, id, x);
    }
  }

  lemma ShallowMerge(g: Ops, w: World, hasKernel: Kind -> bool, active: seq<Pass>, id: nat, rest: seq<nat>)
    requires SoundGraph(g, w) && Shallow(g, active) && MatchPattern(g, id) == ReshapeChain
    requires Covered(g, hasKernel, active, rest + [id])
    ensures var r := Merged(g, id, g[id].inputs[0]);
            Shallow(r, active) && Covered(r, hasKernel, active, Pushed(g, id, rest))
  {
    forall x | Pair(Merged(g, id, g[id].inputs[0]), x)
      ensures ShallowAt(Merged(g, id, g[id].inputs[0]), active, x)
    {
      MergeKeepsShallow(g, w, active, id, x);
    }
    MergeKeepsReading(g, w, active, id);
    forall p | p in active
      ensures !Changes(Merged(g, id, g[id].inputs[0]), hasKernel, p, id)
    {
      MergedTailIsDone(g, w, hasKernel, active, id, p);
    }
    MergeLosesOnlyTail(g, w, hasKernel, active, id, rest);
  }

  // ----- Folding -----

  lemma FoldPassThrough(g: Ops, w: World, id: nat, data: seq<int>, x: nat)
    requires SoundGraph(g, w) && ConstFoldMatches(g, id) && PassThrough(Folded(g, id, data), x)
    ensures x != id && PassThrough(g, x)
  {
    var r := Folded(g, id, data);
    assert SoundNode(g, w, x);
    if !IsShape(r[x].kind) {
      AllReadersLive(g, w, x);
      assert AllParamsIdentity(r, r[x]) && AllParamsIdentity(g, g[x]);
    }
  }

  lemma FoldKeepsShallow(g: Ops, w: World, active: seq<Pass>, id: nat, data: seq<int>, x: nat)
    requires SoundGraph(g, w) && Shallow(g, active) && ConstFoldMatches(g, id) && ConstFold in active
    requires Pair(Folded(g, id, data), x)
    ensures ShallowAt(Folded(g, id, data), active, x)
  {
    var r := Folded(g, id, data);
    FoldPassThrough(g, w, id, data, x);
    FoldPassThrough(g, w, id, data, r[x].inputs[0]);
    assert Pair(g, x) && ShallowAt(g, active, x);
    if IsShape(g[x].kind) && PassThrough(r, Base(g, x)) {
      FoldPassThrough(g, w, id, data, Base(g, x));
    }
  }

  lemma FoldKeepsReading(g: Ops, w: World, active: seq<Pass>, id: nat, data: seq<int>)
    requires SoundGraph(g, w) && Shallow(g, active) && ConstFoldMatches(g, id)
    ensures NoShapePairs(Folded(g, id, data)) || AllRead(Folded(g, id, data))
  {
    var r := Folded(g, id, data);
    forall x | Pair(r, x)
      ensures Pair(g, x) && (HasReader(g, x) ==> HasReader(r, x))
      ensures r[x].kind == g[x].kind && r[x].inputs == g[x].inputs && r[r[x].inputs[0]].kind == g[g[x].inputs[0]].kind
    {
      FoldPassThrough(g, w, id, data, x);
      FoldPassThrough(g, w, id, data, r[x].inputs[0]);
    }
  }

  /** A fold makes no shape pattern match. */
  lemma FoldMakesNoPattern(g: Ops, w: World, id: nat, data: seq<int>, x: nat)
    requires SoundGraph(g, w) && ConstFoldMatches(g, id) && MatchPattern(Folded(g, id, data), x) != NoMatch
    ensures x != id && MatchPattern(g, x) != NoMatch
  {
    var r := Folded(g, id, data);
    assert SoundNode(g, w, x);
    AllReadersLive(g, w, x);
    if g[x].kind == Transpose {
      assert AllParamsIdentity(r, r[x]) && AllParamsIdentity(g, g[x]);
    }
  }

  lemma ShallowFold(g: Ops, w: World, hasKernel: Kind -> bool, active: seq<Pass>, id: nat, rest: seq<nat>)
    requires SoundGraph(g, w) && Shallow(g, active) && ConstFoldMatches(g, id) && ConstFold in active
    requires Covered(g, hasKernel, active, rest + [id])
    ensures var r := Rewritten(g, w, ConstFold, id);
            Shallow(r, active) && Covered(r, hasKernel, active, Pushed(g, id, rest))
  {
    var data := FoldedData(g, w, id);
    var r := Folded(g, id, data);
    forall x | Pair(r, x)
      ensures ShallowAt(r, active, x)
    {
      FoldKeepsShallow(g, w, active, id, data, x);
    }
    FoldKeepsReading(g, w, active, id, data);
    PushedHolds(g, id, rest);
    forall p: Pass, x: nat | p in active && Changes(r, hasKernel, p, x)
      ensures x in Pushed(g, id, rest)
    {
      if p == ConstFold {
        FoldMakesConsumersMatch(g, w, id, data, x);
      } else {
        FoldMakesNoPattern(g, w, id, data, x);
      }
      assert x in g[id].consumers || (Changes(g, hasKernel, p, x) && x in rest + [id]);
    }
  }

  // ----- The run -----

  /** On a sound shallow graph, a run from a worklist that holds every match ends with
      nothing left to rewrite, whatever the passes and the order. */
  lemma {:induction false} ShallowReachesFixpoint(g: Ops, w: World, hasKernel: Kind -> bool, active: seq<Pass>, wl: seq<nat>)
    requires SoundGraph(g, w) && Shallow(g, active) && Covered(g, hasKernel, active, wl)
    ensures Fixpoint(Drive(g, w, hasKernel, active, wl).ops, hasKernel, active)
    decreases |LiveOps(g)|, |wl|
  {
    if wl != [] {
      var id, rest := wl[|wl| - 1], wl[..|wl| - 1];
      assert wl == rest + [id];
      match FirstPass(g, hasKernel, active, id)
      case None => ShallowReachesFixpoint(g, w, hasKernel, active, rest);
      case Some(p) =>
        RewriteRemovesOne(g, w, p, id);
        RewriteKeeps(g, w, p, id);
        ShallowStep(g, w, hasKernel, active, p, id, rest);
        ShallowReachesFixpoint(Rewritten(g, w, p, id), w, hasKernel, active, Pushed(g, id, rest));
    }
  }

  lemma ShallowStep(g: Ops, w: World, hasKernel: Kind -> bool, active: seq<Pass>, p: Pass, id: nat, rest: seq<nat>)
    requires SoundGraph(g, w) && Shallow(g, active) && Covered(g, hasKernel, active, rest + [id])
    requires p in active && Matches(g, p, id)
    ensures var r := Rewritten(g, w, p, id);
            Shallow(r, active) && Covered(r, hasKernel, active, Pushed(g, id, rest))
  {
    match p
    case ConstFold => ShallowFold(g, w, hasKernel, active, id, rest);
    case ShapeFold =>
      if MatchPattern(g, id) == ReshapeChain {
        ShallowMerge(g, w, hasKernel, active, id, rest);
      } else {
        ShallowRewire(g, w, hasKernel, active, id, rest);
      }
  }

  /** So every run of a phase does, from any order of the operations. */
  lemma ShallowEndsInFixpoint(g: Ops, w: World, hasKernel: Kind -> bool, active: seq<Pass>, order: seq<nat>)
    requires SoundGraph(g, w) && Shallow(g, active) && Lists(order, g)
    ensures EndsInFixpoint(g, w, hasKernel, active, order)
  {
    PushAddsOnce([], Candidates(g, order));
    ShallowReachesFixpoint(g, w, hasKernel, active, Push([], Candidates(g, order)));
  }
}
