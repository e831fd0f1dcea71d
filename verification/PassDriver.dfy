/** The worklist driver of a rewriting phase, as a function of the graph
    (compiler/src/opt/pass_manager.cpp:62-118): it ends on every graph and keeps the meaning
    of every node it leaves alive.
 */
module PassDriver {
  import opened Options
  import opened Sequences
  import opened GraphRewrite
  import opened GraphMeaning

  datatype Pass = ShapeFold | ConstFold

  predicate Matches(g: Ops, p: Pass, id: nat) {
    match p
    case ShapeFold => MatchPattern(g, id) != NoMatch
    case ConstFold => ConstFoldMatches(g, id)
  }

  /** The rewrite of a pass returns 1: constant folding returns 0 on an operation for which
      no reference kernel can be built. */
  predicate Changes(g: Ops, hasKernel: Kind -> bool, p: Pass, id: nat) {
    Matches(g, p, id) && (p == ConstFold ==> hasKernel(g[id].kind))
  }

  function Rewritten(g: Ops, w: World, p: Pass, id: nat): Ops
    requires Matches(g, p, id)
  {
    match p
    case ShapeFold =>
      if MatchPattern(g, id) == ReshapeChain then Merged(g, id, g[id].inputs[0]) else Rewired(g, id, g[id].inputs[0])
    case ConstFold => Folded(g, id, FoldedData(g, w, id))
  }

  /** The first pass whose rewrite changes the graph at `id`. */
  function FirstPass(g: Ops, hasKernel: Kind -> bool, active: seq<Pass>, id: nat): (r: Option<Pass>)
    ensures r.Some? ==> r.value in active && Changes(g, hasKernel, r.value, id)
    ensures r.None? ==> forall p :: p in active ==> !Changes(g, hasKernel, p, id)
  {
    if active == [] then None
    else if Changes(g, hasKernel, active[0], id) then Some(active[0])
    else FirstPass(g, hasKernel, active[1..], id)
  }

  /** The live operations that are no constants. */
  function LiveOps(g: Ops): set<nat> {
    set id | id in g && Live(g, id) && g[id].kind != Const
  }

  // ----- The worklist -----

  /** Append the ids that are not there yet. */
  function Push(wl: seq<nat>, ids: seq<nat>): seq<nat>
    decreases |ids|
  {
    if ids == [] then wl else Push(if ids[0] in wl then wl else wl + [ids[0]], ids[1..])
  }

  lemma {:induction false} PushAddsOnce(wl: seq<nat>, ids: seq<nat>)
    ensures forall x :: x in Push(wl, ids) <==> x in wl || x in ids
    ensures Distinct(wl) ==> Distinct(Push(wl, ids))
    decreases |ids|
  {
    if ids != [] {
      PushAddsOnce(if ids[0] in wl then wl else wl + [ids[0]], ids[1..]);
    }
  }

  /** The ids of `order` that seed the worklist. */
  function Candidates(g: Ops, order: seq<nat>): (r: seq<nat>)
    ensures forall x :: x in r <==> x in order && x in LiveOps(g)
  {
    if order == [] then []
    else (if order[0] in LiveOps(g) then [order[0]] else []) + Candidates(g, order[1..])
  }

  // ----- Every rewrite removes one operation -----

  ghost predicate SameLiveness(g: Ops, g': Ops) {
    SameOps(g, g') && forall x :: x in g ==> g'[x].dead == g[x].dead
  }

  lemma {:induction false} RewireEachSameLiveness(g: Ops, id: nat, prod: nat, cons: seq<nat>)
    requires prod in g
    ensures SameLiveness(g, RewireEach(g, id, prod, cons))
    decreases |cons|
  {
    if cons != [] {
      if cons[0] !in g {
        RewireEachSameLiveness(g, id, prod, cons[1..]);
      } else {
        var g1 := RewireOne(g, id, prod, cons[0]);
        assert SameLiveness(g, g1);
        RewireEachSameLiveness(g1, id, prod, cons[1..]);
      }
    }
  }

  lemma {:induction false} RelistSameLiveness(g: Ops, id: nat, src: nat, producers: seq<nat>)
    ensures SameLiveness(g, Relist(g, id, src, producers))
    decreases |producers|
  {
    if producers != [] {
      var s := producers[0];
      var g1 := if s in g then g[s := g[s].(consumers := Remove(g[s].consumers, src) + [id])] else g;
      assert SameLiveness(g, g1);
      RelistSameLiveness(g1, id, src, producers[1..]);
    }
  }

  lemma KillRemovesOne(g: Ops, g': Ops, gone: nat)
    requires SameLiveness(g, g') && gone in LiveOps(g)
    ensures LiveOps(Kill(g', gone)) == LiveOps(g) - {gone}
  {
  }

  /** The operation that a rewrite removes: the head of a merged chain, else the one rewritten. */
  function Gone(g: Ops, p: Pass, id: nat): nat
    requires Matches(g, p, id)
  {
    if p == ShapeFold && MatchPattern(g, id) == ReshapeChain then g[id].inputs[0] else id
  }

  lemma MergeRemovesHead(g: Ops, id: nat, src: nat)
    requires id in g && src in LiveOps(g)
    ensures LiveOps(Merged(g, id, src)) == LiveOps(g) - {src}
  {
    var g1 := Relist(g, id, src, g[src].inputs);
    RelistSameLiveness(g, id, src, g[src].inputs);
    var g2 := g1[id := g1[id].(inputs := g[src].inputs)];
    assert SameLiveness(g, g2);
    KillRemovesOne(g, g2, src);
  }

  lemma RewireRemovesOperation(g: Ops, id: nat, prod: nat)
    requires id in LiveOps(g) && prod in g
    ensures LiveOps(Rewired(g, id, prod)) == LiveOps(g) - {id}
  {
    var g1 := g[prod := g[prod].(consumers := Remove(g[prod].consumers, id))];
    assert SameLiveness(g, g1);
    RewireEachSameLiveness(g1, id, prod, g[id].consumers);
    KillRemovesOne(g, RewireEach(g1, id, prod, g[id].consumers), id);
  }

  lemma FoldRemovesOperation(g: Ops, id: nat, data: seq<int>)
    requires id in LiveOps(g)
    ensures LiveOps(Folded(g, id, data)) == LiveOps(g) - {id}
  {
  }

  lemma MatchIsOperation(g: Ops, p: Pass, id: nat)
    requires Matches(g, p, id)
    ensures id in LiveOps(g) && Gone(g, p, id) in LiveOps(g)
    ensures p == ShapeFold ==> g[id].inputs != [] && g[id].inputs[0] in g
  {
  }

  /** On any graph, sound or not. */
  lemma RewriteRemovesOne(g: Ops, w: World, p: Pass, id: nat)
    requires Matches(g, p, id)
    ensures Gone(g, p, id) in LiveOps(g)
    ensures LiveOps(Rewritten(g, w, p, id)) == LiveOps(g) - {Gone(g, p, id)}
    ensures |LiveOps(Rewritten(g, w, p, id))| == |LiveOps(g)| - 1
  {
    MatchIsOperation(g, p, id);
    match p
    case ConstFold => FoldRemovesOperation(g, id, FoldedData(g, w, id));
    case ShapeFold =>
      if MatchPattern(g, id) == ReshapeChain {
        MergeRemovesHead(g, id, g[id].inputs[0]);
      } else {
        RewireRemovesOperation(g, id, g[id].inputs[0]);
      }
  }

  // ----- The driver -----

  datatype Outcome = Outcome(ops: Ops, total: nat)

  /** Pop the last id; the first pass that rewrites it pushes its producers and consumers. */
  function Drive(g: Ops, w: World, hasKernel: Kind -> bool, active: seq<Pass>, wl: seq<nat>): Outcome
    decreases |LiveOps(g)|, |wl|
  {
    if wl == [] then Outcome(g, 0)
    else
      var id, rest := wl[|wl| - 1], wl[..|wl| - 1];
      match FirstPass(g, hasKernel, active, id)
      case None => Drive(g, w, hasKernel, active, rest)
      case Some(p) =>
        RewriteRemovesOne(g, w, p, id);
        var r := Drive(Rewritten(g, w, p, id), w, hasKernel, active, Push(Push(rest, g[id].inputs), g[id].consumers));
        Outcome(r.ops, r.total + 1)
  }

  lemma KeepsItself(g: Ops, w: World)
    requires SoundGraph(g, w)
    ensures Keeps(g, g, w)
  {
  }

  lemma KeepsComposes(g: Ops, g1: Ops, g2: Ops, w: World)
    requires Keeps(g, g1, w) && Keeps(g1, g2, w)
    ensures Keeps(g, g2, w)
  {
  }

  lemma RewriteKeeps(g: Ops, w: World, p: Pass, id: nat)
    requires SoundGraph(g, w) && Matches(g, p, id)
    ensures Keeps(g, Rewritten(g, w, p, id), w)
  {
    match p
    case ConstFold => FoldKeeps(g, w, id);
    case ShapeFold =>
      if MatchPattern(g, id) == ReshapeChain { MergeKeeps(g, w, id); } else { RewireKeeps(g, w, id); }
  }

  /** The graph stays sound, hence acyclic with every real user listed, and every node that
      is left, with all the Output nodes, keeps its value; from any worklist. */
  lemma {:induction false} DriveKeeps(g: Ops, w: World, hasKernel: Kind -> bool, active: seq<Pass>, wl: seq<nat>)
    requires SoundGraph(g, w)
    ensures Keeps(g, Drive(g, w, hasKernel, active, wl).ops, w)
    decreases |LiveOps(g)|, |wl|
  {
    if wl == [] {
      KeepsItself(g, w);
    } else {
      var id, rest := wl[|wl| - 1], wl[..|wl| - 1];
      match FirstPass(g, hasKernel, active, id)
      case None => DriveKeeps(g, w, hasKernel, active, rest);
      case Some(p) =>
        var g1 := Rewritten(g, w, p, id);
        var wl1 := Push(Push(rest, g[id].inputs), g[id].consumers);
        RewriteRemovesOne(g, w, p, id);
        RewriteKeeps(g, w, p, id);
        DriveKeeps(g1, w, hasKernel, active, wl1);
        KeepsComposes(g, g1, Drive(g1, w, hasKernel, active, wl1).ops, w);
    }
  }

  /** Each rewrite counts for one operation fewer, on any graph. */
  lemma {:induction false} TotalIsOperationsRemoved(g: Ops, w: World, hasKernel: Kind -> bool, active: seq<Pass>, wl: seq<nat>)
    ensures var r := Drive(g, w, hasKernel, active, wl);
            LiveOps(r.ops) <= LiveOps(g) && r.total == |LiveOps(g)| - |LiveOps(r.ops)|
    decreases |LiveOps(g)|, |wl|
  {
    if wl != [] {
      var id, rest := wl[|wl| - 1], wl[..|wl| - 1];
      match FirstPass(g, hasKernel, active, id)
      case None => TotalIsOperationsRemoved(g, w, hasKernel, active, rest);
      case Some(p) =>
        RewriteRemovesOne(g, w, p, id);
        TotalIsOperationsRemoved(Rewritten(g, w, p, id), w, hasKernel, active, Push(Push(rest, g[id].inputs), g[id].consumers));
    }
  }
}
