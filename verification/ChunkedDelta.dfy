/** The chunk form of the gated delta rule (kernels/include/gdn_sm.h:5-11): equal to the
    token-by-token recursion (gdn_sm.h:12-13), wherever the sequence is cut.
 */
module ChunkedDelta {
  import opened Exponential
  import opened Sums
  import opened DeltaRule
  import opened TriangularSolve
  import opened GatedDelta

  // ----- The recursion over a sequence -----

  /** The state after the first m tokens. */
  function After(tok: Tokens, s0: Mat, m: nat): Mat {
    if m == 0 then s0 else Step(tok, m - 1, After(tok, s0, m - 1))
  }

  /** The output at token i. */
  function OutputAt(tok: Tokens, s0: Mat, i: nat): Vec {
    ReadOut(tok, i, After(tok, s0, i + 1))
  }

  /** The sequence is the tree in which every token's parent is its predecessor. */
  function Chain(tok: Tokens, c: nat): Tree {
    Tree(tok, c, i => i - 1)
  }

  // ----- The chunk equations -----

  /** G_j, the inclusive cumulative sum of the decays of the first m tokens. */
  function Cumulative(tok: Tokens, m: nat): real {
    Sum(m, tok.g)
  }

  function ChunkMatrix(tok: Tokens, c: nat): Mat {
    (j, i) =>
      if 0 <= i < j < c then
        tok.exp(Cumulative(tok, j + 1) - Cumulative(tok, i + 1)) * Dot(tok.d, Row(tok.k, j), Row(tok.k, i)) * tok.beta(j)
      else
        0.0
  }

  function ChunkRightSide(tok: Tokens, s0: Mat, c: nat): Mat {
    (j, n) =>
      if 0 <= j < c then
        tok.beta(j) * (tok.v(j, n) - tok.exp(Cumulative(tok, j + 1)) * MatVec(tok.d, s0, Row(tok.k, j))(n))
      else
        0.0
  }

  /** u = (I + L)^-1 b */
  function ChunkSolution(tok: Tokens, s0: Mat, c: nat): Mat {
    MatMul(c, Resolvent(Negate(ChunkMatrix(tok, c))), ChunkRightSide(tok, s0, c))
  }

  function ChunkWeights(tok: Tokens, m: nat): Vec {
    i => if 0 <= i < m then tok.exp(Cumulative(tok, m) - Cumulative(tok, i + 1)) else 0.0
  }

  /** y_t, a sum over the tokens up to t. */
  function ChunkOutput(tok: Tokens, s0: Mat, c: nat, t: nat): Vec {
    n => tok.scale * (tok.exp(Cumulative(tok, t + 1)) * MatVec(tok.d, s0, Row(tok.q, t))(n)
      + Dot(t + 1, ChunkWeights(tok, t + 1), Projected(tok.d, ChunkSolution(tok, s0, c), tok.k, Row(tok.q, t), n)))
  }

  /** S', the state after the chunk. */
  function ChunkState(tok: Tokens, s0: Mat, c: nat): Mat {
    Combine(tok.exp(Cumulative(tok, c)), s0, c, ChunkWeights(tok, c), ChunkSolution(tok, s0, c), tok.k)
  }

  // ----- The chunk equations are the closed form on the chain -----

  lemma {:induction false} ChainPath(tok: Tokens, c: nat, i: int, j: int)
    requires IsExp(tok.exp) && Node(Chain(tok, c), j)
    ensures OnPath(Chain(tok, c), i, j) <==> 0 <= i <= j
    ensures PathDecay(Chain(tok, c), j) == Cumulative(tok, j + 1)
    decreases j
  {
    if j >= 0 {
      ChainPath(tok, c, i, j - 1);
    }
  }

  lemma ChainWeight(tok: Tokens, c: nat, j: int, i: int)
    requires IsExp(tok.exp) && Node(Chain(tok, c), j)
    ensures Weight(Chain(tok, c), j, i) == ChunkWeights(tok, j + 1)(i)
  {
    ChainPath(tok, c, i, j);
    if 0 <= i <= j {
      ChainPath(tok, c, i, i);
    }
  }

  lemma {:induction false} ChainState(tok: Tokens, s0: Mat, c: nat, j: int)
    requires IsExp(tok.exp) && Node(Chain(tok, c), j)
    ensures State(Chain(tok, c), s0, j) == After(tok, s0, j + 1)
    decreases j
  {
    if j >= 0 {
      ChainState(tok, s0, c, j - 1);
    }
  }

  /** The chunk's u solves the triangular system of the chain. */
  lemma ChunkSolves(tok: Tokens, s0: Mat, c: nat)
    requires IsExp(tok.exp)
    ensures Solves(Chain(tok, c), s0, ChunkSolution(tok, s0, c))
  {
    var u, l := ChunkSolution(tok, s0, c), ChunkMatrix(tok, c);
    forall j, n | 0 <= j < c && 0 <= n < tok.d
      ensures u(j, n) + MatMul(c, l, u)(j, n) == ChunkRightSide(tok, s0, c)(j, n)
    {
      ResolventSolves(c, Negate(l), ChunkRightSide(tok, s0, c), j, n);
      MatMulLeftLinear(c, l, -2.0, l, Negate(l), u, j, n);
    }
    ChunkSystem(tok, s0, c, u);
  }

  /** The chunk's system is the chain's. */
  lemma ChunkSystem(tok: Tokens, s0: Mat, c: nat, u: Mat)
    requires IsExp(tok.exp)
    requires forall j, n :: 0 <= j < c && 0 <= n < tok.d ==>
      u(j, n) + MatMul(c, ChunkMatrix(tok, c), u)(j, n) == ChunkRightSide(tok, s0, c)(j, n)
    ensures Solves(Chain(tok, c), s0, u)
  {
    var tr, l := Chain(tok, c), ChunkMatrix(tok, c);
    forall j, n | 0 <= j < c && 0 <= n < tok.d
      ensures u(j, n) + MatMul(c, AncestorMatrix(tr), u)(j, n) == RightSide(tr, s0)(j, n)
    {
      ChainPath(tok, c, j, j);
      forall i | 0 <= i < c
        ensures AncestorMatrix(tr)(j, i) == l(j, i)
      {
        ChainWeight(tok, c, j, i);
      }
      RowEq(c, AncestorMatrix(tr), l, u, j, n);
    }
  }

  /** The chunk theorem: outputs and final state of the chunk equations are those of the
      recursion, for every chunk length and initial state. */
  lemma ChunkIsSerial(tok: Tokens, s0: Mat, c: nat)
    requires IsExp(tok.exp)
    ensures forall t :: 0 <= t < c ==> EqVec(tok.d, ChunkOutput(tok, s0, c, t), OutputAt(tok, s0, t))
    ensures EqMat(tok.d, tok.d, ChunkState(tok, s0, c), After(tok, s0, c))
  {
    forall t | 0 <= t < c {
      ChunkOutputIsSerial(tok, s0, c, t);
    }
    ChunkStateIsSerial(tok, s0, c);
  }

  lemma ChunkOutputIsSerial(tok: Tokens, s0: Mat, c: nat, t: nat)
    requires IsExp(tok.exp) && t < c
    ensures EqVec(tok.d, ChunkOutput(tok, s0, c, t), OutputAt(tok, s0, t))
  {
    var tr, u := Chain(tok, c), ChunkSolution(tok, s0, c);
    ChunkSolves(tok, s0, c);
    ClosedOutputIsSerial(tr, s0, u, t);
    ChainState(tok, s0, c, t);
    ChainPath(tok, c, t, t);
    forall n | 0 <= n < tok.d
      ensures ChunkOutput(tok, s0, c, t)(n) == ClosedOutput(tr, s0, u, t)(n)
    {
      WeightsFromChain(tok, c, t, Projected(tok.d, u, tok.k, Row(tok.q, t), n));
    }
  }

  /** A weighted sum over the chain stops at the last token that carries weight. */
  lemma WeightsFromChain(tok: Tokens, c: nat, j: int, x: Vec)
    requires IsExp(tok.exp) && Node(Chain(tok, c), j)
    ensures Dot(c, Weights(Chain(tok, c), j), x) == Dot(j + 1, ChunkWeights(tok, j + 1), x)
  {
    var tr := Chain(tok, c);
    forall i {
      ChainWeight(tok, c, j, i);
    }
    SumTruncate(j + 1, c, Product(Weights(tr, j), x));
    DotEq(j + 1, Weights(tr, j), ChunkWeights(tok, j + 1), x, x);
  }

  lemma ChunkStateIsSerial(tok: Tokens, s0: Mat, c: nat)
    requires IsExp(tok.exp)
    ensures EqMat(tok.d, tok.d, ChunkState(tok, s0, c), After(tok, s0, c))
  {
    var tr, u := Chain(tok, c), ChunkSolution(tok, s0, c);
    ChunkSolves(tok, s0, c);
    ClosedStateIsSerial(tr, s0, u, c - 1);
    ChainState(tok, s0, c, c - 1);
    ChunkStateIsClosed(tok, s0, c, u);
    EqMatTransitive(tok.d, tok.d, ChunkState(tok, s0, c), ClosedState(tr, s0, u, c - 1), After(tok, s0, c));
  }

  lemma ChunkStateIsClosed(tok: Tokens, s0: Mat, c: nat, u: Mat)
    requires IsExp(tok.exp)
    ensures EqMat(tok.d, tok.d, Combine(tok.exp(Cumulative(tok, c)), s0, c, ChunkWeights(tok, c), u, tok.k),
                  ClosedState(Chain(tok, c), s0, u, c - 1))
  {
    forall a, n | 0 <= a < tok.d && 0 <= n < tok.d {
      ChunkStateEntry(tok, s0, c, u, a, n);
    }
  }

  lemma ChunkStateEntry(tok: Tokens, s0: Mat, c: nat, u: Mat, a: int, n: int)
    requires IsExp(tok.exp)
    ensures Combine(tok.exp(Cumulative(tok, c)), s0, c, ChunkWeights(tok, c), u, tok.k)(a, n)
         == ClosedState(Chain(tok, c), s0, u, c - 1)(a, n)
  {
    ChainPath(tok, c, c - 1, c - 1);
    WeightsFromChain(tok, c, c - 1, Outer(u, tok.k, a, n));
  }

  // ----- Cutting a sequence into chunks -----

  /** The tokens from position o on. */
  function From(tok: Tokens, o: nat): Tokens {
    tok.(k := (i, n) => tok.k(o + i, n), v := (i, n) => tok.v(o + i, n), q := (i, n) => tok.q(o + i, n),
         beta := i => tok.beta(o + i), g := i => tok.g(o + i))
  }

  function Total(sizes: seq<nat>): nat {
    if sizes == [] then 0 else sizes[0] + Total(sizes[1..])
  }

  /** Chunk after chunk, each starting from the state the previous one left. */
  function ChunkedState(tok: Tokens, s0: Mat, sizes: seq<nat>): Mat
    decreases |sizes|
  {
    if sizes == [] then s0
    else ChunkedState(From(tok, sizes[0]), ChunkState(tok, s0, sizes[0]), sizes[1..])
  }

  function ChunkedOutput(tok: Tokens, s0: Mat, sizes: seq<nat>, t: nat): Vec
    requires t < Total(sizes)
    decreases |sizes|
  {
    if t < sizes[0] then ChunkOutput(tok, s0, sizes[0], t)
    else ChunkedOutput(From(tok, sizes[0]), ChunkState(tok, s0, sizes[0]), sizes[1..], t - sizes[0])
  }

  /** Tokens agree on their first m rows. */
  ghost predicate Agree(m: nat, x: Tokens, y: Tokens) {
    x.d == y.d && x.scale == y.scale && x.exp == y.exp
    && forall i :: 0 <= i < m ==>
        EqVec(x.d, Row(x.k, i), Row(y.k, i)) && EqVec(x.d, Row(x.v, i), Row(y.v, i)) && EqVec(x.d, Row(x.q, i), Row(y.q, i))
        && x.beta(i) == y.beta(i) && x.g(i) == y.g(i)
  }

  /** Causality: later tokens do not matter. */
  lemma {:induction false} AfterAgrees(x: Tokens, y: Tokens, s: Mat, s': Mat, m: nat)
    requires Agree(m, x, y) && EqMat(x.d, x.d, s, s')
    ensures EqMat(x.d, x.d, After(x, s, m), After(y, s', m))
    decreases m
  {
    if m > 0 {
      AfterAgrees(x, y, s, s', m - 1);
      NextEq(x.d, x.exp(x.g(m - 1)), x.beta(m - 1), Row(x.k, m - 1), Row(y.k, m - 1), Row(x.v, m - 1), Row(y.v, m - 1),
             After(x, s, m - 1), After(y, s', m - 1));
    }
  }

  lemma OutputAgrees(x: Tokens, y: Tokens, s: Mat, s': Mat, t: nat)
    requires Agree(t + 1, x, y) && EqMat(x.d, x.d, s, s')
    ensures EqVec(x.d, OutputAt(x, s, t), OutputAt(y, s', t))
  {
    AfterAgrees(x, y, s, s', t + 1);
    MatVecEq(x.d, After(x, s, t + 1), After(y, s', t + 1), Row(x.q, t), Row(y.q, t));
  }

  /** The recursion can be resumed from the state of any prefix. */
  lemma {:induction false} AfterResumes(tok: Tokens, s0: Mat, o: nat, m: nat)
    ensures EqMat(tok.d, tok.d, After(From(tok, o), After(tok, s0, o), m), After(tok, s0, o + m))
    decreases m
  {
    if m > 0 {
      AfterResumes(tok, s0, o, m - 1);
      var f, i := From(tok, o), o + m - 1;
      NextEq(tok.d, tok.exp(tok.g(i)), tok.beta(i), Row(f.k, m - 1), Row(tok.k, i), Row(f.v, m - 1), Row(tok.v, i),
             After(f, After(tok, s0, o), m - 1), After(tok, s0, i));
    }
  }

  lemma OutputResumes(tok: Tokens, s0: Mat, o: nat, t: nat)
    ensures EqVec(tok.d, OutputAt(From(tok, o), After(tok, s0, o), t), OutputAt(tok, s0, o + t))
  {
    var f := From(tok, o);
    AfterResumes(tok, s0, o, t + 1);
    MatVecEq(tok.d, After(f, After(tok, s0, o), t + 1), After(tok, s0, o + t + 1), Row(f.q, t), Row(tok.q, o + t));
  }

  /** The splitting theorem: however a sequence is cut into chunks, every output and the
      final state are those of the uncut recursion. */
  lemma {:induction false} CutsDoNotMatter(tok: Tokens, s0: Mat, s: Mat, sizes: seq<nat>)
    requires IsExp(tok.exp) && EqMat(tok.d, tok.d, s, s0)
    ensures EqMat(tok.d, tok.d, ChunkedState(tok, s, sizes), After(tok, s0, Total(sizes)))
    ensures forall t :: 0 <= t < Total(sizes) ==> EqVec(tok.d, ChunkedOutput(tok, s, sizes, t), OutputAt(tok, s0, t))
    decreases |sizes|
  {
    if sizes != [] {
      var c, rest := sizes[0], sizes[1..];
      var f, s1, s1' := From(tok, c), After(tok, s0, c), ChunkState(tok, s, c);
      ChunkIsSerial(tok, s, c);
      AfterAgrees(tok, tok, s, s0, c);
      CutsDoNotMatter(f, s1, s1', rest);
      AfterResumes(tok, s0, c, Total(rest));
      forall t | 0 <= t < Total(sizes)
        ensures EqVec(tok.d, ChunkedOutput(tok, s, sizes, t), OutputAt(tok, s0, t))
      {
        if t < c {
          OutputAgrees(tok, tok, s, s0, t);
        } else {
          OutputResumes(tok, s0, c, t - c);
        }
      }
    }
  }
}
