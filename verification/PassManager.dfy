/** The operation graph as the passes change it in place, and the worklist driver that runs
    them (compiler/src/opt/pass_shape_fold.cpp:83-147, pass_const_fold.cpp:125-183,
    compiler/src/ir/graph_prepare.cpp:4229-4264, compiler/src/opt/pass_manager.cpp:62-118).
 */
module PassManager {
  import opened Sequences
  import opened Tensors
  import opened GraphRewrite
  import opened GraphMeaning
  import opened PassDriver
  import opened PassFixpoint
  import opened FoldLaws

  class GraphPrepare {
    var ops: Ops

    constructor (ops: Ops)
      ensures this.ops == ops
    {
      this.ops := ops;
    }

    /** Remove an operation: its consumers read `prod`. */
    method RewireConsumers(id: nat, prod: nat)
      requires id in ops && prod in ops
      modifies this
      ensures ops == Rewired(old(ops), id, prod)
    {
      var cons := ops[id].consumers;
      ops := ops[prod := ops[prod].(consumers := Remove(ops[prod].consumers, id))];
      ghost var start := ops;
      var i := 0;
      while i < |cons|
        invariant 0 <= i <= |cons| && prod in ops && id in ops
        invariant RewireEach(ops, id, prod, cons[i..]) == RewireEach(start, id, prod, cons)
      {
        var c := cons[i];
        assert cons[i..][0] == c && cons[i..][1..] == cons[i + 1..];
        if c in ops {
          ops := ops[c := ops[c].(inputs := Substitute(ops[c].inputs, id, prod))];
          ops := ops[prod := ops[prod].(consumers := ops[prod].consumers + [c])];
        }
        i := i + 1;
      }
      ops := ops[id := ops[id].(dead := true)];
    }

    /** The tail of a chain takes over the inputs of its head, which dies. */
    method MergeChain(id: nat, src: nat)
      requires id in ops && src in ops
      modifies this
      ensures ops == Merged(old(ops), id, src)
    {
      var producers := ops[src].inputs;
      ghost var start := ops;
      var i := 0;
      while i < |producers|
        invariant 0 <= i <= |producers| && id in ops && src in ops
        invariant Relist(ops, id, src, producers[i..]) == Relist(start, id, src, producers)
      {
        var s := producers[i];
        assert producers[i..][0] == s && producers[i..][1..] == producers[i + 1..];
        if s in ops {
          ops := ops[s := ops[s].(consumers := Remove(ops[s].consumers, src) + [id])];
        }
        i := i + 1;
      }
      ops := ops[id := ops[id].(inputs := producers)];
      ops := ops[src := ops[src].(dead := true)];
    }

    /** A constant takes the place of a live operation, under its id. */
    method FoldToConst(id: nat, data: seq<int>) returns (ok: bool)
      modifies this
      ensures ok <==> Live(old(ops), id) && old(ops)[id].kind != Const && data != []
      ensures ops == if ok then Folded(old(ops), id, data) else old(ops)
    {
      if id !in ops || !ops[id].enabled || ops[id].dead || ops[id].kind == Const {
        return false;
      }
      if data == [] {
        return false;
      }
      ops := ops[id := OpDef(Const, true, false, ops[id].dims, [], ops[id].consumers, [], data)];
      return true;
    }

    /** The rewrite of one pass on an operation that it matches: 1 when the graph changed. */
    method Rewrite(p: Pass, w: World, hasKernel: Kind -> bool, id: nat) returns (changed: nat)
      requires Matches(ops, p, id)
      modifies this
      ensures changed == if Changes(old(ops), hasKernel, p, id) then 1 else 0
      ensures ops == if changed == 1 then Rewritten(old(ops), w, p, id) else old(ops)
    {
      match p
      case ShapeFold =>
        var pattern := MatchPattern(ops, id);
        if pattern == ReshapeChain {
          MergeChain(id, ops[id].inputs[0]);
        } else {
          RewireConsumers(id, ops[id].inputs[0]);
        }
        changed := 1;
      case ConstFold =>
        if !hasKernel(ops[id].kind) {
          return 0;
        }
        var n := Product(ops[id].dims);
        var out := Buffer(Apply(ops, w, id, ConstArgs(ops, id)), if n == 0 then 1 else n);
        changed := 0;
        var ok := FoldToConst(id, out);
        if ok {
          changed := 1;
        }
    }
  }

  /** The worklist and the set of its members. */
  class Worklist {
    var ids: seq<nat>
    var members: set<nat>

    ghost predicate Valid()
      reads this
    {
      Distinct(ids) && forall x :: x in members <==> x in ids
    }

    constructor ()
      ensures Valid() && ids == []
    {
      ids, members := [], {};
    }

    method Add(id: nat)
      requires Valid()
      modifies this
      ensures Valid() && ids == Push(old(ids), [id])
    {
      if id !in members {
        members := members + {id};
        ids := ids + [id];
      }
    }

    method AddAll(new_ids: seq<nat>)
      requires Valid()
      modifies this
      ensures Valid() && ids == Push(old(ids), new_ids)
    {
      var i := 0;
      while i < |new_ids|
        invariant 0 <= i <= |new_ids|
        invariant Valid() && Push(ids, new_ids[i..]) == Push(old(ids), new_ids)
      {
        assert new_ids[i..][0] == new_ids[i] && new_ids[i..][1..] == new_ids[i + 1..];
        assert [new_ids[i]][1..] == [];
        Add(new_ids[i]);
        i := i + 1;
      }
    }

    method Pop() returns (id: nat)
      requires Valid() && ids != []
      modifies this
      ensures Valid() && id == old(ids)[|old(ids)| - 1] && ids == old(ids)[..|old(ids)| - 1]
    {
      id := ids[|ids| - 1];
      assert ids == ids[..|ids| - 1] + [id];
      ids := ids[..|ids| - 1];
      members := members - {id};
    }
  }

  /** Run the active passes from all live operations, listed in the order of the operation
      table, until the worklist is empty. */
  method RunPhase(gp: GraphPrepare, w: World, hasKernel: Kind -> bool, active: seq<Pass>, order: seq<nat>) returns (total: nat)
    requires Lists(order, gp.ops)
    modifies gp
    ensures active != [] ==> Outcome(gp.ops, total) == Drive(old(gp.ops), w, hasKernel, active, Push([], Candidates(old(gp.ops), order)))
    ensures active == [] ==> total == 0 && gp.ops == old(gp.ops)
    ensures SoundGraph(old(gp.ops), w) ==> Keeps(old(gp.ops), gp.ops, w)
    ensures total == |LiveOps(old(gp.ops))| - |LiveOps(gp.ops)|
    ensures SoundGraph(old(gp.ops), w) && active == [ShapeFold] && Plain(old(gp.ops)) ==> IdentitiesRemoved(old(gp.ops), gp.ops, total)
    ensures SoundGraph(old(gp.ops), w) && active == [ShapeFold] && TwoDeep(old(gp.ops)) ==> Finished(gp.ops)
    ensures SoundGraph(old(gp.ops), w) && active == [ConstFold] ==> KnownFolded(old(gp.ops), gp.ops, w, hasKernel, total)
  {
    ghost var start := gp.ops;
    if active == [] {
      if SoundGraph(start, w) { KeepsItself(start, w); }
      return 0;
    }
    var worklist := Seeded(gp, order);
    total := DriveInPlace(gp, w, hasKernel, active, worklist);
    DriveMeans(start, w, hasKernel, active, Push([], Candidates(start, order)));
    PhaseFolds(start, w, hasKernel, active, order, gp.ops, total);
  }

  /** What the phases of the compiler come to. */
  lemma PhaseFolds(g: Ops, w: World, hasKernel: Kind -> bool, active: seq<Pass>, order: seq<nat>, r: Ops, total: nat)
    requires Lists(order, g) && Outcome(r, total) == Drive(g, w, hasKernel, active, Push([], Candidates(g, order)))
    ensures SoundGraph(g, w) && active == [ShapeFold] && Plain(g) ==> IdentitiesRemoved(g, r, total)
    ensures SoundGraph(g, w) && active == [ShapeFold] && TwoDeep(g) ==> Finished(r)
    ensures SoundGraph(g, w) && active == [ConstFold] ==> KnownFolded(g, r, w, hasKernel, total)
  {
    if SoundGraph(g, w) && active == [ShapeFold] {
      if Plain(g) { ShapeFoldingRemovesIdentities(g, w, hasKernel, order); }
      if TwoDeep(g) { ShapeFoldingFinishes(g, w, hasKernel, order); }
    } else if SoundGraph(g, w) && active == [ConstFold] {
      ConstFoldingFoldsKnown(g, w, hasKernel, order);
    }
  }

  /** Until the worklist is empty. */
  method DriveInPlace(gp: GraphPrepare, w: World, hasKernel: Kind -> bool, active: seq<Pass>, worklist: Worklist)
      returns (total: nat)
    requires worklist.Valid()
    modifies gp, worklist
    ensures Outcome(gp.ops, total) == Drive(old(gp.ops), w, hasKernel, active, old(worklist.ids))
  {
    total := 0;
    while worklist.ids != []
      invariant worklist.Valid()
      invariant Ahead(gp.ops, w, hasKernel, active, worklist.ids, total) == Drive(old(gp.ops), w, hasKernel, active, old(worklist.ids))
      decreases |LiveOps(gp.ops)|, |worklist.ids|
    {
      ghost var g, wl := gp.ops, worklist.ids;
      var id := worklist.Pop();
      var changed := Visit(gp, w, hasKernel, active, worklist, id);
      AheadStep(g, w, hasKernel, active, wl, total, gp.ops, worklist.ids, changed);
      total := total + changed;
    }
  }

  lemma DriveMeans(g: Ops, w: World, hasKernel: Kind -> bool, active: seq<Pass>, wl: seq<nat>)
    ensures var r := Drive(g, w, hasKernel, active, wl);
            (SoundGraph(g, w) ==> Keeps(g, r.ops, w)) && r.total == |LiveOps(g)| - |LiveOps(r.ops)|
  {
    TotalIsOperationsRemoved(g, w, hasKernel, active, wl);
    if SoundGraph(g, w) {
      DriveKeeps(g, w, hasKernel, active, wl);
    }
  }

  /** The end of a run, from the middle of it. */
  function Ahead(g: Ops, w: World, hasKernel: Kind -> bool, active: seq<Pass>, wl: seq<nat>, total: nat): Outcome {
    var r := Drive(g, w, hasKernel, active, wl);
    Outcome(r.ops, total + r.total)
  }

  /** What one visit leaves, as Visit states it. */
  ghost predicate Visited(g: Ops, w: World, hasKernel: Kind -> bool, active: seq<Pass>, rest: seq<nat>, id: nat,
                          g1: Ops, wl1: seq<nat>, changed: nat)
  {
    var first := FirstPass(g, hasKernel, active, id);
    if first.None? then changed == 0 && g1 == g && wl1 == rest
    else changed == 1 && g1 == Rewritten(g, w, first.value, id) && wl1 == Push(Push(rest, g[id].inputs), g[id].consumers)
  }

  lemma AheadStep(g: Ops, w: World, hasKernel: Kind -> bool, active: seq<Pass>, wl: seq<nat>, total: nat,
                  g1: Ops, wl1: seq<nat>, changed: nat)
    requires wl != [] && Visited(g, w, hasKernel, active, wl[..|wl| - 1], wl[|wl| - 1], g1, wl1, changed)
    ensures Ahead(g1, w, hasKernel, active, wl1, total + changed) == Ahead(g, w, hasKernel, active, wl, total)
    ensures |LiveOps(g1)| < |LiveOps(g)| || (g1 == g && |wl1| < |wl|)
  {
    var id := wl[|wl| - 1];
    var first := FirstPass(g, hasKernel, active, id);
    if first.Some? {
      RewriteRemovesOne(g, w, first.value, id);
    }
  }

  method Seeded(gp: GraphPrepare, order: seq<nat>) returns (worklist: Worklist)
    ensures fresh(worklist) && worklist.Valid() && worklist.ids == Push([], Candidates(gp.ops, order))
  {
    worklist := new Worklist();
    var g := gp.ops;
    SeedingBegins(g, order);
    var i := 0;
    while i < |order|
      invariant 0 <= i <= |order|
      invariant fresh(worklist) && worklist.Valid()
      invariant Seeding(g, order, i, worklist.ids)
    {
      SeedingGoesOn(g, order, i, worklist.ids);
      Seed(worklist, g, order[i]);
      i := i + 1;
    }
    SeedingEnds(g, order, worklist.ids);
  }

  method Seed(worklist: Worklist, g: Ops, id: nat)
    requires worklist.Valid()
    modifies worklist
    ensures worklist.Valid() && worklist.ids == if id in LiveOps(g) then Push(old(worklist.ids), [id]) else old(worklist.ids)
  {
    if Live(g, id) && g[id].kind != Const {
      worklist.Add(id);
    }
  }

  /** The worklist after the first i ids of the order. */
  ghost predicate Seeding(g: Ops, order: seq<nat>, i: nat, wl: seq<nat>)
    requires i <= |order|
  {
    Push(wl, Candidates(g, order[i..])) == Push([], Candidates(g, order))
  }

  lemma SeedingBegins(g: Ops, order: seq<nat>)
    ensures Seeding(g, order, 0, [])
  {
    assert order[0..] == order;
  }

  lemma SeedingEnds(g: Ops, order: seq<nat>, wl: seq<nat>)
    requires Seeding(g, order, |order|, wl)
    ensures wl == Push([], Candidates(g, order))
  {
    assert order[|order|..] == [];
  }

  lemma SeedingGoesOn(g: Ops, order: seq<nat>, i: nat, wl: seq<nat>)
    requires i < |order| && Seeding(g, order, i, wl)
    ensures Seeding(g, order, i + 1, if order[i] in LiveOps(g) then Push(wl, [order[i]]) else wl)
  {
    var id, rest := order[i], Candidates(g, order[i + 1..]);
    assert order[i..][0] == id && order[i..][1..] == order[i + 1..];
    if id in LiveOps(g) {
      assert Candidates(g, order[i..]) == [id] + rest;
      assert ([id] + rest)[1..] == rest && [id][1..] == [];
    } else {
      assert Candidates(g, order[i..]) == [] + rest == rest;
    }
  }

  /** One popped operation: try the passes in turn, up to the first that changes the graph. */
  method Visit(gp: GraphPrepare, w: World, hasKernel: Kind -> bool, active: seq<Pass>, worklist: Worklist, id: nat)
      returns (changed: nat)
    requires worklist.Valid()
    modifies gp, worklist
    ensures worklist.Valid()
    ensures Visited(old(gp.ops), w, hasKernel, active, old(worklist.ids), id, gp.ops, worklist.ids, changed)
  {
    changed := 0;
    if !Live(gp.ops, id) || gp.ops[id].kind == Const {
      return;
    }
    var i := 0;
    while i < |active|
      invariant 0 <= i <= |active|
      invariant gp.ops == old(gp.ops) && worklist.ids == old(worklist.ids) && worklist.Valid() && changed == 0
      invariant FirstPass(gp.ops, hasKernel, active, id) == FirstPass(gp.ops, hasKernel, active[i..], id)
    {
      assert active[i..][0] == active[i] && active[i..][1..] == active[i + 1..];
      if Matches(gp.ops, active[i], id) {
        var src_ids, consumer_ids := gp.ops[id].inputs, gp.ops[id].consumers;
        changed := gp.Rewrite(active[i], w, hasKernel, id);
        if changed > 0 {
          worklist.AddAll(src_ids);
          worklist.AddAll(consumer_ids);
          return;
        }
      }
      i := i + 1;
    }
  }
}
