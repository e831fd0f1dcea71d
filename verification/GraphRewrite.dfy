/** The operation graph of the compiler and the rewrites of shape folding and constant
    folding (compiler/src/opt/pass_shape_fold.cpp, pass_const_fold.cpp), with the value
    that every node denotes.
 */
module GraphRewrite {
  import opened Tensors

  datatype Kind = Const | Input | Output | Reshape | Flatten | Transpose | Named(name: string)

  /** One node, single-output.  `params` are the constants of its tensor parameters; `data`
      is the payload of a constant. */
  datatype OpDef = OpDef(kind: Kind, enabled: bool, dead: bool, dims: seq<nat>,
                         inputs: seq<nat>, consumers: seq<nat>, params: seq<nat>, data: seq<int>)

  type Ops = map<nat, OpDef>

  predicate Live(g: Ops, id: nat) {
    id in g && g[id].enabled && !g[id].dead
  }

  predicate IsShape(k: Kind) {
    k == Reshape || k == Flatten
  }

  // ----- Matching (pass_shape_fold.cpp:24-81, pass_const_fold.cpp:61-69, 110-122) -----

  const WHITELIST: set<string> := {
    "Add", "Sub", "Mul", "Div", "Eltwise_Binary", "Eltwise_Unary", "ElementWiseNeuron", "Eltwise_Ternary",
    "StridedSlice", "Pad", "Concat", "Reduce", "Gather", "CumulativeSum", "ScatterNd"
  }

  predicate Whitelisted(k: Kind) {
    k == Reshape || k == Flatten || k == Transpose || (k.Named? && k.name in WHITELIST)
  }

  /** Every parameter constant is 0, 1, 2, ...; one to eight entries. */
  predicate AllParamsIdentity(g: Ops, op: OpDef) {
    op.params != []
    && forall i :: 0 <= i < |op.params| ==>
      && op.params[i] in g && g[op.params[i]].kind == Const
      && 0 < |g[op.params[i]].data| <= 8 && IsIdentity(g[op.params[i]].data)
  }

  datatype Pattern = NoMatch | IdentReshape | ReshapeChain | IdentTranspose

  function MatchPattern(g: Ops, id: nat): Pattern {
    if !Live(g, id) || g[id].kind == Const then NoMatch
    else if IsShape(g[id].kind) then
      if |g[id].inputs| != 1 || !Live(g, g[id].inputs[0]) then NoMatch
      else
        var src := g[g[id].inputs[0]];
        if IsShape(src.kind) && |src.consumers| == 1 then ReshapeChain
        else if src.dims == g[id].dims then IdentReshape
        else NoMatch
    else if g[id].kind == Transpose then
      if |g[id].inputs| != 1 || !Live(g, g[id].inputs[0]) then NoMatch
      else if g[g[id].inputs[0]].dims != g[id].dims then NoMatch
      else if AllParamsIdentity(g, g[id]) then IdentTranspose
      else NoMatch
    else NoMatch
  }

  predicate ConstFoldMatches(g: Ops, id: nat) {
    && Live(g, id) && Whitelisted(g[id].kind) && g[id].inputs != []
    && forall i :: 0 <= i < |g[id].inputs| ==>
      g[id].inputs[i] in g && g[g[id].inputs[i]].kind == Const && g[g[id].inputs[i]].data != []
  }

  // ----- What a node denotes -----

  /** What is not in the graph: a rank for every node that witnesses acyclicity, the
      reference kernels of the other operations, and the tensors fed to Input nodes. */
  datatype World = World(rank: nat -> nat, kernel: (Kind, seq<seq<int>>, seq<Tensor>, seq<nat>) -> seq<int>, env: nat -> seq<int>)

  ghost predicate ValidWorld(w: World) {
    forall k, ps, ts, dims :: |w.kernel(k, ps, ts, dims)| == Product(dims)
  }

  /** The payloads of the parameters that have one. */
  function ParamData(g: Ops, params: seq<nat>): seq<seq<int>>
    decreases |params|
  {
    if params == [] then []
    else (if params[0] in g && g[params[0]].data != [] then [g[params[0]].data] else []) + ParamData(g, params[1..])
  }

  /** The data an operation computes from its operands. */
  function Apply(g: Ops, w: World, id: nat, args: seq<Tensor>): seq<int>
    requires id in g
  {
    var op := g[id];
    match op.kind
    case Const => op.data
    case Input => w.env(id)
    case Output => if args != [] then args[0].data else w.kernel(op.kind, ParamData(g, op.params), args, op.dims)
    case Reshape => if args != [] then args[0].data else w.kernel(op.kind, ParamData(g, op.params), args, op.dims)
    case Flatten => if args != [] then args[0].data else w.kernel(op.kind, ParamData(g, op.params), args, op.dims)
    case Transpose =>
      var ps := ParamData(g, op.params);
      if |args| == 1 && |ps| == 1 && |ps[0]| == |args[0].dims| == |op.dims| then Transposed(args[0], ps[0], op.dims)
      else w.kernel(op.kind, ps, args, op.dims)
    case Named(_) => w.kernel(op.kind, ParamData(g, op.params), args, op.dims)
  }

  /** Input y of node x is live, of smaller rank, and lists x as a consumer. */
  ghost predicate SoundEdge(g: Ops, w: World, x: nat, y: nat) {
    Live(g, y) && w.rank(y) < w.rank(x) && x in g[y].consumers
  }

  ghost predicate SoundEdges(g: Ops, w: World, id: nat)
    requires id in g
  {
    forall i :: 0 <= i < |g[id].inputs| ==> SoundEdge(g, w, id, g[id].inputs[i])
  }

  /** Payloads and parameters are constants of the right size, and shapes fit. */
  ghost predicate SoundShape(g: Ops, w: World, id: nat)
    requires id in g
  {
    var op := g[id];
    && (forall i :: 0 <= i < |op.params| ==> op.params[i] in g && g[op.params[i]].kind == Const)
    && Product(op.dims) > 0
    && (op.kind == Const ==> op.inputs == [] && |op.data| == Product(op.dims))
    && (op.kind == Input ==> |w.env(id)| == Product(op.dims))
    && (IsShape(op.kind) || op.kind == Output ==>
          op.inputs != [] && op.inputs[0] in g && Product(op.dims) == Product(g[op.inputs[0]].dims))
    && (op.kind == Transpose ==>
          |op.inputs| == 1 && |op.params| == 1 && op.inputs[0] in g && op.params[0] in g
          && Permutes(g[op.params[0]].data, g[op.inputs[0]].dims, op.dims))
  }

  /** A live node is sound: its edges and its shape are. */
  ghost predicate SoundNode(g: Ops, w: World, id: nat)
    requires id in g
  {
    SoundEdges(g, w, id) && SoundShape(g, w, id)
  }

  ghost predicate SoundGraph(g: Ops, w: World) {
    ValidWorld(w) && forall id :: Live(g, id) ==> SoundNode(g, w, id)
  }

  /** The tensor that a live node denotes. */
  ghost function Eval(g: Ops, w: World, id: nat): (t: Tensor)
    requires SoundGraph(g, w) && Live(g, id)
    ensures t.dims == g[id].dims
    decreases w.rank(id), 1
  {
    assert SoundNode(g, w, id);
    Tensor(g[id].dims, Apply(g, w, id, Args(g, w, id)))
  }

  ghost function Args(g: Ops, w: World, id: nat): (args: seq<Tensor>)
    requires SoundGraph(g, w) && Live(g, id)
    ensures |args| == |g[id].inputs|
    decreases w.rank(id), 0
  {
    assert SoundNode(g, w, id);
    var ins := g[id].inputs;
    seq(|ins|, i requires 0 <= i < |ins| => Eval(g, w, ins[i]))
  }

  lemma {:induction false} EvalIsValid(g: Ops, w: World, id: nat)
    requires SoundGraph(g, w) && Live(g, id)
    ensures ValidTensor(Eval(g, w, id))
    decreases w.rank(id)
  {
    assert SoundNode(g, w, id);
    if g[id].inputs != [] {
      EvalIsValid(g, w, g[id].inputs[0]);
    }
  }

  /** A valuation of all nodes; only live ones matter. */
  type Valuation = nat -> Tensor

  /** Node id has the value that its operation computes from its inputs' values. */
  ghost predicate ObeysAt(g: Ops, w: World, v: Valuation, id: nat)
    requires id in g
  {
    v(id) == Tensor(g[id].dims, Apply(g, w, id, ArgsFrom(g, v, id)))
  }

  function ArgsFrom(g: Ops, v: Valuation, id: nat): (args: seq<Tensor>)
    requires id in g
    ensures |args| == |g[id].inputs|
  {
    seq(|g[id].inputs|, i requires 0 <= i < |g[id].inputs| => v(g[id].inputs[i]))
  }

  /** Only one valuation obeys every live node. */
  lemma {:induction false} ObeyingIsEval(g: Ops, w: World, v: Valuation, id: nat)
    requires SoundGraph(g, w) && Live(g, id) && forall x: nat :: Live(g, x) ==> ObeysAt(g, w, v, x)
    ensures v(id) == Eval(g, w, id)
    decreases w.rank(id)
  {
    assert SoundNode(g, w, id);
    forall i | 0 <= i < |g[id].inputs|
      ensures v(g[id].inputs[i]) == Eval(g, w, g[id].inputs[i])
    {
      assert SoundEdge(g, w, id, g[id].inputs[i]);
      ObeyingIsEval(g, w, v, g[id].inputs[i]);
    }
    assert ArgsFrom(g, v, id) == Args(g, w, id);
    assert ObeysAt(g, w, v, id);
  }

  /** The values of one graph, as a valuation. */
  ghost function Values(g: Ops, w: World): Valuation
    requires SoundGraph(g, w)
  {
    (x: nat) => if Live(g, x) then Eval(g, w, x) else Tensor([], [])
  }

  lemma ValuesOfInputs(g: Ops, w: World, id: nat)
    requires SoundGraph(g, w) && Live(g, id)
    ensures Args(g, w, id) == ArgsFrom(g, Values(g, w), id)
  {
    assert SoundNode(g, w, id);
    forall i | 0 <= i < |g[id].inputs|
      ensures Values(g, w)(g[id].inputs[i]) == Eval(g, w, g[id].inputs[i])
    {
      assert SoundEdge(g, w, id, g[id].inputs[i]);
    }
  }

  // ----- The rewrites (pass_shape_fold.cpp:83-117, graph_prepare.cpp:4238-4264) -----

  function Remove(s: seq<nat>, x: nat): (r: seq<nat>)
    ensures forall y :: y in r <==> y in s && y != x
  {
    if s == [] then [] else (if s[0] == x then [] else [s[0]]) + Remove(s[1..], x)
  }

  function Substitute(s: seq<nat>, from: nat, to: nat): (r: seq<nat>)
    ensures |r| == |s| && forall i :: 0 <= i < |s| ==> r[i] == if s[i] == from then to else s[i]
  {
    seq(|s|, i requires 0 <= i < |s| => if s[i] == from then to else s[i])
  }

  /** Each listed consumer reads `prod` instead of `id` and is listed by `prod`. */
  function RewireEach(g: Ops, id: nat, prod: nat, cons: seq<nat>): Ops
    requires prod in g
    decreases |cons|
  {
    if cons == [] then g
    else if cons[0] !in g then RewireEach(g, id, prod, cons[1..])
    else RewireEach(RewireOne(g, id, prod, cons[0]), id, prod, cons[1..])
  }

  function RewireOne(g: Ops, id: nat, prod: nat, c: nat): (r: Ops)
    requires prod in g && c in g
    ensures prod in r
  {
    var g1 := g[c := g[c].(inputs := Substitute(g[c].inputs, id, prod))];
    g1[prod := g1[prod].(consumers := g1[prod].consumers + [c])]
  }

  /** Remove an operation, its consumers reading its producer. */
  function Rewired(g: Ops, id: nat, prod: nat): Ops
    requires id in g && prod in g
  {
    var g1 := g[prod := g[prod].(consumers := Remove(g[prod].consumers, id))];
    Kill(RewireEach(g1, id, prod, g[id].consumers), id)
  }

  function Kill(g: Ops, id: nat): Ops {
    if id in g then g[id := g[id].(dead := true)] else g
  }

  /** Every listed producer lists `id` in the place of `src`. */
  function Relist(g: Ops, id: nat, src: nat, producers: seq<nat>): Ops
    decreases |producers|
  {
    if producers == [] then g
    else
      var s := producers[0];
      var g1 := if s in g then g[s := g[s].(consumers := Remove(g[s].consumers, src) + [id])] else g;
      Relist(g1, id, src, producers[1..])
  }

  /** The tail of a chain takes over the inputs of its head. */
  function Merged(g: Ops, id: nat, src: nat): Ops
    requires id in g && src in g
  {
    var g1 := Relist(g, id, src, g[src].inputs);
    var g2 := if id in g1 then g1[id := g1[id].(inputs := g[src].inputs)] else g1;
    Kill(g2, src)
  }

  /** A constant under the same id, with the same consumers. */
  function Folded(g: Ops, id: nat, data: seq<int>): Ops
    requires id in g
  {
    g[id := OpDef(Const, true, false, g[id].dims, [], g[id].consumers, [], data)]
  }

  // ----- What the rewrites leave alone -----

  /** Only inputs, consumers and liveness may differ. */
  ghost predicate SameOps(g: Ops, g': Ops) {
    && g'.Keys == g.Keys
    && forall x :: x in g ==>
      g'[x].kind == g[x].kind && g'[x].enabled == g[x].enabled && g'[x].dims == g[x].dims
      && g'[x].params == g[x].params && g'[x].data == g[x].data
  }

  lemma {:induction false} SameParamData(g: Ops, g': Ops, params: seq<nat>)
    requires forall i :: 0 <= i < |params| ==> params[i] in g && params[i] in g' && g'[params[i]].data == g[params[i]].data
    ensures ParamData(g', params) == ParamData(g, params)
    decreases |params|
  {
    if params != [] {
      SameParamData(g, g', params[1..]);
    }
  }

  /** The listed consumers read `prod` for `id`, and `prod` lists them. */
  ghost predicate RewireEffect(g: Ops, r: Ops, id: nat, prod: nat, cons: seq<nat>)
    requires prod in g
  {
    && SameOps(g, r)
    && (forall x :: x in g ==> r[x].dead == g[x].dead)
    && (forall x :: x in g ==> r[x].inputs == if x in cons then Substitute(g[x].inputs, id, prod) else g[x].inputs)
    && (forall x :: x in g && x != prod ==> r[x].consumers == g[x].consumers)
    && (forall y :: y in r[prod].consumers <==> y in g[prod].consumers || (y in cons && y in g))
  }

  lemma {:induction false} RewireEachEffect(g: Ops, id: nat, prod: nat, cons: seq<nat>)
    requires prod in g && id != prod
    ensures RewireEffect(g, RewireEach(g, id, prod, cons), id, prod, cons)
    decreases |cons|
  {
    if cons != [] {
      if cons[0] !in g {
        RewireEachEffect(g, id, prod, cons[1..]);
      } else {
        var g1 := RewireOne(g, id, prod, cons[0]);
        RewireOneEffect(g, id, prod, cons[0]);
        RewireEachEffect(g1, id, prod, cons[1..]);
        RewireEffectsCompose(g, g1, RewireEach(g, id, prod, cons), id, prod, cons);
      }
    }
  }

  lemma RewireOneEffect(g: Ops, id: nat, prod: nat, c: nat)
    requires prod in g && c in g && id != prod
    ensures RewireEffect(g, RewireOne(g, id, prod, c), id, prod, [c])
  {
  }

  lemma RewireEffectsCompose(g: Ops, g1: Ops, r: Ops, id: nat, prod: nat, cons: seq<nat>)
    requires prod in g && prod in g1 && id != prod && cons != [] && cons[0] in g
    requires RewireEffect(g, g1, id, prod, [cons[0]]) && RewireEffect(g1, r, id, prod, cons[1..])
    ensures RewireEffect(g, r, id, prod, cons)
  {
    forall x | x in g
      ensures r[x].inputs == if x in cons then Substitute(g[x].inputs, id, prod) else g[x].inputs
    {
      SubstituteTwice(g[x].inputs, id, prod);
    }
  }

  lemma SubstituteTwice(s: seq<nat>, from: nat, to: nat)
    requires from != to
    ensures Substitute(Substitute(s, from, to), from, to) == Substitute(s, from, to)
  {
  }

  lemma {:induction false} RelistEffect(g: Ops, id: nat, src: nat, producers: seq<nat>)
    requires id != src
    ensures var r := Relist(g, id, src, producers);
            && SameOps(g, r)
            && (forall x :: x in g ==> r[x].dead == g[x].dead && r[x].inputs == g[x].inputs)
            && (forall x :: x in g && x !in producers ==> r[x].consumers == g[x].consumers)
            && (forall x :: x in g && x in producers ==>
                  id in r[x].consumers && forall y :: y in g[x].consumers && y != src ==> y in r[x].consumers)
    decreases |producers|
  {
    if producers != [] {
      var s := producers[0];
      var g1 := if s in g then g[s := g[s].(consumers := Remove(g[s].consumers, src) + [id])] else g;
      RelistEffect(g1, id, src, producers[1..]);
    }
  }
}
