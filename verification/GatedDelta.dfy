/** The gated delta rule in its three forms: the serial recursion, token by token or
    along a tree (kernels/include/gdn_tree.h:24-26, gdn_sm.h:12-13); the closed form
    over ancestors (gdn_tree.h:3-10); and its linear case, the chunk form
    (gdn_sm.h:5-11).  All three compute the same outputs and states.
 */
module GatedDelta {
  import opened Exponential
  import opened Sums
  import opened DeltaRule
  import opened TriangularSolve

  /** The inputs of one head: row i of k, v and q belongs to token i. */
  datatype Tokens = Tokens(d: nat, k: Mat, v: Mat, q: Mat, beta: Vec, g: Vec, scale: real, exp: real -> real)

  /** One serial step on token i. */
  function Step(tok: Tokens, i: int, s: Mat): Mat {
    Next(tok.d, tok.exp(tok.g(i)), tok.beta(i), Row(tok.k, i), Row(tok.v, i), s)
  }

  function StepCorrection(tok: Tokens, i: int, s: Mat): Vec {
    Correction(tok.d, tok.exp(tok.g(i)), tok.beta(i), Row(tok.k, i), Row(tok.v, i), s)
  }

  function ReadOut(tok: Tokens, i: int, s: Mat): Vec {
    Output(tok.d, tok.scale, Row(tok.q, i), s)
  }

  // ----- Trees -----

  datatype Tree = Tree(tok: Tokens, t: nat, parent: int -> int)

  /** The topology contract: every parent precedes its node, and -1 is "no parent". */
  ghost predicate ValidTree(tr: Tree) {
    IsExp(tr.tok.exp) && forall i :: 0 <= i < tr.t ==> -1 <= tr.parent(i) < i
  }

  ghost predicate Node(tr: Tree, i: int) {
    -1 <= i < tr.t
  }

  /** The serial recursion: the state at node i; node -1 stands for the initial state. */
  ghost function State(tr: Tree, s0: Mat, i: int): Mat
    requires ValidTree(tr) && Node(tr, i)
    decreases i
  {
    if i < 0 then s0 else Step(tr.tok, i, State(tr, s0, tr.parent(i)))
  }

  /** Pg: the sum of the decays from the root to node i. */
  ghost function PathDecay(tr: Tree, i: int): real
    requires ValidTree(tr) && Node(tr, i)
    decreases i
  {
    if i < 0 then 0.0 else tr.tok.g(i) + PathDecay(tr, tr.parent(i))
  }

  /** Node i is node j or one of its ancestors. */
  ghost predicate OnPath(tr: Tree, i: int, j: int)
    requires ValidTree(tr) && Node(tr, j)
    decreases j
  {
    0 <= i <= j && (i == j || OnPath(tr, i, tr.parent(j)))
  }

  /** exp(Pg_j - Pg_i) for i on the path to j, else zero. */
  ghost function Weight(tr: Tree, j: int, i: int): real
    requires ValidTree(tr) && Node(tr, j)
  {
    if OnPath(tr, i, j) then tr.tok.exp(PathDecay(tr, j) - PathDecay(tr, i)) else 0.0
  }

  ghost function Weights(tr: Tree, j: int): Vec
    requires ValidTree(tr) && Node(tr, j)
  {
    i => Weight(tr, j, i)
  }

  /** Entry (c, n) of the outer products u_j k_j^T. */
  function Outer(u: Mat, k: Mat, c: int, n: int): Vec {
    j => u(j, c) * k(j, n)
  }

  /** Entry c of (k_i . x) u_i. */
  function Projected(d: nat, u: Mat, k: Mat, x: Vec, c: int): Vec {
    i => Dot(d, Row(k, i), x) * u(i, c)
  }

  /** e S0 + sum of w_j u_j k_j^T */
  function Combine(e: real, s0: Mat, t: nat, w: Vec, u: Mat, k: Mat): Mat {
    (c, n) => e * s0(c, n) + Dot(t, w, Outer(u, k, c, n))
  }

  /** L: strictly lower triangular, non-zero only at proper ancestors. */
  ghost function AncestorMatrix(tr: Tree): Mat
    requires ValidTree(tr)
  {
    (j, i) =>
      if 0 <= j < tr.t && i != j then
        Weight(tr, j, i) * Dot(tr.tok.d, Row(tr.tok.k, j), Row(tr.tok.k, i)) * tr.tok.beta(j)
      else
        0.0
  }

  ghost function RightSide(tr: Tree, s0: Mat): Mat
    requires ValidTree(tr)
  {
    (j, c) =>
      if 0 <= j < tr.t then
        tr.tok.beta(j) * (tr.tok.v(j, c) - tr.tok.exp(PathDecay(tr, j)) * MatVec(tr.tok.d, s0, Row(tr.tok.k, j))(c))
      else
        0.0
  }

  /** (I + L) u = b */
  ghost predicate Solves(tr: Tree, s0: Mat, u: Mat)
    requires ValidTree(tr)
  {
    forall j, c :: 0 <= j < tr.t && 0 <= c < tr.tok.d ==>
      u(j, c) + MatMul(tr.t, AncestorMatrix(tr), u)(j, c) == RightSide(tr, s0)(j, c)
  }

  ghost function ClosedState(tr: Tree, s0: Mat, u: Mat, a: int): Mat
    requires ValidTree(tr) && Node(tr, a)
  {
    Combine(tr.tok.exp(PathDecay(tr, a)), s0, tr.t, Weights(tr, a), u, tr.tok.k)
  }

  ghost function ClosedOutput(tr: Tree, s0: Mat, u: Mat, j: int): Vec
    requires ValidTree(tr) && 0 <= j < tr.t
  {
    c => tr.tok.scale * (tr.tok.exp(PathDecay(tr, j)) * MatVec(tr.tok.d, s0, Row(tr.tok.q, j))(c)
      + Dot(tr.t, Weights(tr, j), Projected(tr.tok.d, u, tr.tok.k, Row(tr.tok.q, j), c)))
  }

  /** The weights of a node are those of its parent, decayed once more, plus itself. */
  lemma WeightStep(tr: Tree, a: int, i: int)
    requires ValidTree(tr) && 0 <= a < tr.t
    ensures Weight(tr, a, i) == tr.tok.exp(tr.tok.g(a)) * Weight(tr, tr.parent(a), i) + (if i == a then 1.0 else 0.0)
  {
    var p := tr.parent(a);
    if i == a {
      ExpZero(tr.tok.exp);
    } else if OnPath(tr, i, a) {
      assert ExpLaw(tr.tok.exp, tr.tok.g(a), PathDecay(tr, p) - PathDecay(tr, i));
    }
  }

  lemma ClosedStateStep(tr: Tree, s0: Mat, u: Mat, a: int, c: int, n: int)
    requires ValidTree(tr) && 0 <= a < tr.t
    ensures ClosedState(tr, s0, u, a)(c, n)
         == tr.tok.exp(tr.tok.g(a)) * ClosedState(tr, s0, u, tr.parent(a))(c, n) + u(a, c) * tr.tok.k(a, n)
  {
    var p, e := tr.parent(a), tr.tok.exp(tr.tok.g(a));
    forall j | 0 <= j < tr.t
      ensures Weights(tr, a)(j) == e * Weights(tr, p)(j) + (if j == a then 1.0 else 0.0)
    {
      WeightStep(tr, a, j);
    }
    assert ExpLaw(tr.tok.exp, tr.tok.g(a), PathDecay(tr, p));
    CombineStep(e, tr.tok.exp(PathDecay(tr, p)), s0, tr.t, Weights(tr, p), Weights(tr, a), u, tr.tok.k, a, c, n);
  }

  lemma CombineStep(e: real, ep: real, s0: Mat, t: nat, w: Vec, w': Vec, u: Mat, k: Mat, a: int, c: int, n: int)
    requires 0 <= a < t
    requires forall j :: 0 <= j < t ==> w'(j) == e * w(j) + (if j == a then 1.0 else 0.0)
    ensures Combine(e * ep, s0, t, w', u, k)(c, n) == e * Combine(ep, s0, t, w, u, k)(c, n) + u(a, c) * k(a, n)
  {
    SumReweighted(t, a, e, w, w', Outer(u, k, c, n));
    FactorOut(e, ep, s0(c, n), Dot(t, w, Outer(u, k, c, n)));
  }

  lemma FactorOut(e: real, ep: real, s: real, sum: real)
    ensures (e * ep) * s + e * sum == e * (ep * s + sum)
  {
  }

  /** A combination applied to a vector. */
  lemma CombineTimes(d: nat, e: real, s0: Mat, t: nat, w: Vec, u: Mat, k: Mat, x: Vec, c: int)
    ensures MatVec(d, Combine(e, s0, t, w, u, k), x)(c)
         == e * MatVec(d, s0, x)(c) + Dot(t, w, Projected(d, u, k, x, c))
  {
    var z := n => Dot(t, w, Outer(u, k, c, n));
    WeightedDot(d, t, w, u, k, z, x, c);
    DotAffine(d, e, Row(s0, c), z, Row(Combine(e, s0, t, w, u, k), c), x);
  }

  /** The dot product of z = sum of w_i u_i k_i with x. */
  lemma WeightedDot(d: nat, t: nat, w: Vec, u: Mat, k: Mat, z: Vec, x: Vec, c: int)
    requires forall n :: 0 <= n < d ==> z(n) == Dot(t, w, Outer(u, k, c, n))
    ensures Dot(d, z, x) == Dot(t, w, Projected(d, u, k, x, c))
  {
    var o: Mat := (i, n) => Outer(u, k, c, n)(i);
    forall n | 0 <= n < d
      ensures z(n) == Dot(t, w, Column(o, n))
    {
      DotEq(t, w, w, Outer(u, k, c, n), Column(o, n));
    }
    forall i | 0 <= i < t
      ensures Projected(d, u, k, x, c)(i) == Dot(d, Row(o, i), x)
    {
      DotScale(d, u(i, c), Row(k, i), Row(o, i), x);
    }
    DotSum(d, t, w, o, z, x, Projected(d, u, k, x, c));
  }

  lemma AncestorEntry(tr: Tree, a: int, i: int)
    requires ValidTree(tr) && 0 <= a < tr.t
    ensures AncestorMatrix(tr)(a, i)
         == (tr.tok.exp(tr.tok.g(a)) * Weights(tr, tr.parent(a))(i)) * Dot(tr.tok.d, Row(tr.tok.k, i), Row(tr.tok.k, a)) * tr.tok.beta(a)
  {
    WeightStep(tr, a, i);
    DotSymmetric(tr.tok.d, Row(tr.tok.k, a), Row(tr.tok.k, i));
    if i == a {
      assert Weights(tr, tr.parent(a))(i) == 0.0;
    }
  }

  lemma AncestorMatrixIsLower(tr: Tree, a: int, i: int)
    requires ValidTree(tr) && 0 <= a < tr.t && a <= i
    ensures AncestorMatrix(tr)(a, i) == 0.0
  {
    AncestorEntry(tr, a, i);
    assert Weights(tr, tr.parent(a))(i) == 0.0;
  }

  /** Row a of L times u, in terms of the weights of a's parent. */
  lemma AncestorRow(tr: Tree, u: Mat, a: int, c: int)
    requires ValidTree(tr) && 0 <= a < tr.t
    ensures MatMul(tr.t, AncestorMatrix(tr), u)(a, c)
         == tr.tok.beta(a) * tr.tok.exp(tr.tok.g(a))
            * Dot(tr.t, Weights(tr, tr.parent(a)), Projected(tr.tok.d, u, tr.tok.k, Row(tr.tok.k, a), c))
  {
    forall i | 0 <= i < tr.t {
      AncestorEntry(tr, a, i);
    }
    RegroupSum(tr.t, tr.tok.d, tr.tok.exp(tr.tok.g(a)), tr.tok.beta(a), Weights(tr, tr.parent(a)), tr.tok.k,
               Row(tr.tok.k, a), u, c, AncestorMatrix(tr), a);
  }

  lemma RegroupSum(t: nat, d: nat, e: real, beta: real, w: Vec, k: Mat, x: Vec, u: Mat, c: int, l: Mat, a: int)
    requires forall i :: 0 <= i < t ==> l(a, i) == (e * w(i)) * Dot(d, Row(k, i), x) * beta
    ensures MatMul(t, l, u)(a, c) == beta * e * Dot(t, w, Projected(d, u, k, x, c))
  {
    var p := Projected(d, u, k, x, c);
    forall i | 0 <= i < t
      ensures Product(Row(l, a), Column(u, c))(i) == (beta * e) * Product(w, p)(i)
    {
      Regroup(e, w(i), Dot(d, Row(k, i), x), beta, u(i, c));
    }
    SumScale(t, beta * e, Product(w, p), Product(Row(l, a), Column(u, c)));
  }

  lemma Regroup(e: real, w: real, dot: real, beta: real, u: real)
    ensures ((e * w) * dot * beta) * u == (beta * e) * (w * (dot * u))
  {
  }

  lemma SolutionEntry(tr: Tree, s0: Mat, u: Mat, a: int, c: int)
    requires ValidTree(tr) && Solves(tr, s0, u) && 0 <= a < tr.t && 0 <= c < tr.tok.d
    ensures u(a, c)
         == tr.tok.beta(a) * (tr.tok.v(a, c) - (tr.tok.exp(tr.tok.g(a)) * tr.tok.exp(PathDecay(tr, tr.parent(a)))) * MatVec(tr.tok.d, s0, Row(tr.tok.k, a))(c))
            - tr.tok.beta(a) * tr.tok.exp(tr.tok.g(a))
              * Dot(tr.t, Weights(tr, tr.parent(a)), Projected(tr.tok.d, u, tr.tok.k, Row(tr.tok.k, a), c))
  {
    AncestorRow(tr, u, a, c);
    assert ExpLaw(tr.tok.exp, tr.tok.g(a), PathDecay(tr, tr.parent(a)));
  }

  lemma DecayedTimes(tr: Tree, s0: Mat, u: Mat, p: int, e: real, x: Vec, c: int)
    requires ValidTree(tr) && Node(tr, p)
    ensures MatVec(tr.tok.d, Decayed(e, ClosedState(tr, s0, u, p)), x)(c)
         == e * (tr.tok.exp(PathDecay(tr, p)) * MatVec(tr.tok.d, s0, x)(c)
                 + Dot(tr.t, Weights(tr, p), Projected(tr.tok.d, u, tr.tok.k, x, c)))
  {
    CombineTimes(tr.tok.d, tr.tok.exp(PathDecay(tr, p)), s0, tr.t, Weights(tr, p), u, tr.tok.k, x, c);
    DecayedMatVec(tr.tok.d, e, ClosedState(tr, s0, u, p), x, c);
  }

  /** A solution of the triangular system is the correction that the serial step makes. */
  lemma SolutionIsCorrection(tr: Tree, s0: Mat, u: Mat, a: int, c: int)
    requires ValidTree(tr) && Solves(tr, s0, u) && 0 <= a < tr.t && 0 <= c < tr.tok.d
    ensures u(a, c) == StepCorrection(tr.tok, a, ClosedState(tr, s0, u, tr.parent(a)))(c)
  {
    var tok, p, ka := tr.tok, tr.parent(a), Row(tr.tok.k, a);
    var e := tok.exp(tok.g(a));
    SolutionEntry(tr, s0, u, a, c);
    DecayedTimes(tr, s0, u, p, e, ka, c);
    Factor(tok.beta(a), tok.v(a, c), e, tok.exp(PathDecay(tr, p)), MatVec(tok.d, s0, ka)(c),
           Dot(tr.t, Weights(tr, p), Projected(tok.d, u, tok.k, ka, c)));
  }

  lemma Factor(beta: real, v: real, e: real, ep: real, m: real, sum: real)
    ensures beta * (v - (e * ep) * m) - beta * e * sum == beta * (v - e * (ep * m + sum))
  {
  }

  /** The closed states themselves obey the serial step. */
  lemma ClosedStateSteps(tr: Tree, s0: Mat, u: Mat, a: int)
    requires ValidTree(tr) && Solves(tr, s0, u) && 0 <= a < tr.t
    ensures EqMat(tr.tok.d, tr.tok.d, ClosedState(tr, s0, u, a), Step(tr.tok, a, ClosedState(tr, s0, u, tr.parent(a))))
  {
    forall c, n | 0 <= c < tr.tok.d && 0 <= n < tr.tok.d {
      ClosedEntrySteps(tr, s0, u, a, c, n);
    }
  }

  lemma ClosedEntrySteps(tr: Tree, s0: Mat, u: Mat, a: int, c: int, n: int)
    requires ValidTree(tr) && Solves(tr, s0, u) && 0 <= a < tr.t && 0 <= c < tr.tok.d
    ensures ClosedState(tr, s0, u, a)(c, n) == Step(tr.tok, a, ClosedState(tr, s0, u, tr.parent(a)))(c, n)
  {
    var x := StepCorrection(tr.tok, a, ClosedState(tr, s0, u, tr.parent(a)))(c);
    assert u(a, c) == x by {
      SolutionIsCorrection(tr, s0, u, a, c);
    }
    assert u(a, c) * tr.tok.k(a, n) == x * Row(tr.tok.k, a)(n);
    ClosedStateStep(tr, s0, u, a, c, n);
  }

  lemma ClosedStateStarts(tr: Tree, s0: Mat, u: Mat, c: int, n: int)
    requires ValidTree(tr)
    ensures ClosedState(tr, s0, u, -1)(c, n) == s0(c, n)
  {
    ExpZero(tr.tok.exp);
    var terms := Product(Weights(tr, -1), Outer(u, tr.tok.k, c, n));
    forall i
      ensures terms(i) == 0.0
    {
      assert Weights(tr, -1)(i) == 0.0;
    }
    SumZero(tr.t, terms);
  }

  /** The closed form of the state is the serial state. */
  lemma {:induction false} ClosedStateIsSerial(tr: Tree, s0: Mat, u: Mat, a: int)
    requires ValidTree(tr) && Solves(tr, s0, u) && Node(tr, a)
    ensures EqMat(tr.tok.d, tr.tok.d, ClosedState(tr, s0, u, a), State(tr, s0, a))
    decreases a
  {
    var tok := tr.tok;
    if a < 0 {
      forall c, n | 0 <= c < tok.d && 0 <= n < tok.d {
        ClosedStateStarts(tr, s0, u, c, n);
      }
    } else {
      var p := tr.parent(a);
      ClosedStateIsSerial(tr, s0, u, p);
      ClosedStateSteps(tr, s0, u, a);
      NextEq(tok.d, tok.exp(tok.g(a)), tok.beta(a), Row(tok.k, a), Row(tok.k, a), Row(tok.v, a), Row(tok.v, a),
             ClosedState(tr, s0, u, p), State(tr, s0, p));
    }
  }

  /** The closed form of the output is read from the serial state. */
  lemma ClosedOutputIsSerial(tr: Tree, s0: Mat, u: Mat, a: int)
    requires ValidTree(tr) && Solves(tr, s0, u) && 0 <= a < tr.t
    ensures EqVec(tr.tok.d, ClosedOutput(tr, s0, u, a), ReadOut(tr.tok, a, State(tr, s0, a)))
  {
    var tok, qa := tr.tok, Row(tr.tok.q, a);
    ClosedStateIsSerial(tr, s0, u, a);
    MatVecEq(tok.d, ClosedState(tr, s0, u, a), State(tr, s0, a), qa, qa);
    forall c | 0 <= c < tok.d
      ensures ClosedOutput(tr, s0, u, a)(c) == MatVec(tok.d, ClosedState(tr, s0, u, a), qa)(c) * tok.scale
    {
      CombineTimes(tok.d, tok.exp(PathDecay(tr, a)), s0, tr.t, Weights(tr, a), u, tok.k, qa, c);
    }
  }

  // ----- Existence: the triangular inverse gives a solution -----

  function Negate(m: Mat): Mat {
    (i, j) => -m(i, j)
  }

  /** u = (I + L)^-1 b, with the inverse the row loop computes. */
  ghost function TreeSolution(tr: Tree, s0: Mat): Mat
    requires ValidTree(tr)
  {
    MatMul(tr.t, Resolvent(Negate(AncestorMatrix(tr))), RightSide(tr, s0))
  }

  /** (I + A')b solves (I - A)u = b for any strictly lower triangular A. */
  lemma ResolventSolves(t: nat, a: Mat, b: Mat, j: int, c: int)
    requires StrictlyLower(t, a) && 0 <= j < t
    ensures MatMul(t, Resolvent(a), b)(j, c) - MatMul(t, a, MatMul(t, Resolvent(a), b))(j, c) == b(j, c)
  {
    var u, minus, one := MatMul(t, Resolvent(a), b), Minus(Identity(), a), Identity();
    assert MatMul(t, minus, u)(j, c) == u(j, c) - MatMul(t, a, u)(j, c) by {
      MatMulLeftLinear(t, one, -1.0, a, minus, u, j, c);
      IdentityTimes(t, u, j, c);
    }
    assert MatMul(t, MatMul(t, minus, Resolvent(a)), b)(j, c) == b(j, c) by {
      ResolventIsInverse(t, a);
      RowEq(t, MatMul(t, minus, Resolvent(a)), one, b, j, c);
      IdentityTimes(t, b, j, c);
    }
    MatMulAssociative(t, minus, Resolvent(a), b, j, c);
  }

  lemma RowEq(t: nat, x: Mat, y: Mat, b: Mat, j: int, c: int)
    requires forall k :: 0 <= k < t ==> x(j, k) == y(j, k)
    ensures MatMul(t, x, b)(j, c) == MatMul(t, y, b)(j, c)
  {
    DotEq(t, Row(x, j), Row(y, j), Column(b, c), Column(b, c));
  }

  lemma TreeSolutionSolves(tr: Tree, s0: Mat)
    requires ValidTree(tr)
    ensures Solves(tr, s0, TreeSolution(tr, s0))
  {
    var l, u := AncestorMatrix(tr), TreeSolution(tr, s0);
    forall j, i | 0 <= j < tr.t && 0 <= i < tr.t && j <= i {
      AncestorMatrixIsLower(tr, j, i);
    }
    forall j, c | 0 <= j < tr.t && 0 <= c < tr.tok.d
      ensures u(j, c) + MatMul(tr.t, l, u)(j, c) == RightSide(tr, s0)(j, c)
    {
      ResolventSolves(tr.t, Negate(l), RightSide(tr, s0), j, c);
      MatMulLeftLinear(tr.t, l, -2.0, l, Negate(l), u, j, c);
    }
  }

  /** The tree theorem: for every topology and initial state, the ancestor closed form
      with u = (I + L)^-1 b has the outputs and the node states of the serial recursion. */
  lemma ClosedFormIsSerial(tr: Tree, s0: Mat, a: int)
    requires ValidTree(tr) && 0 <= a < tr.t
    ensures EqMat(tr.tok.d, tr.tok.d, ClosedState(tr, s0, TreeSolution(tr, s0), a), State(tr, s0, a))
    ensures EqVec(tr.tok.d, ClosedOutput(tr, s0, TreeSolution(tr, s0), a), ReadOut(tr.tok, a, State(tr, s0, a)))
  {
    TreeSolutionSolves(tr, s0);
    ClosedStateIsSerial(tr, s0, TreeSolution(tr, s0), a);
    ClosedOutputIsSerial(tr, s0, TreeSolution(tr, s0), a);
  }
}
