/** The whole-sequence replay of the gated delta rule from the zero state, as matrix
    products over one zero-padded chunk (scripts/replay_gdn_layer0.py:119-174).
 */
module DeltaReplay {
  import opened Exponential
  import opened Sums
  import opened DeltaRule
  import opened TriangularSolve
  import opened GatedDelta
  import opened ChunkedDelta

  function ZeroState(): Mat {
    (i, j) => 0.0
  }

  function Pad(tok: Tokens, length: nat): Tokens {
    tok.(k := (i, n) => if i < length then tok.k(i, n) else 0.0,
         v := (i, n) => if i < length then tok.v(i, n) else 0.0,
         q := (i, n) => if i < length then tok.q(i, n) else 0.0,
         beta := i => if i < length then tok.beta(i) else 0.0,
         g := i => if i < length then tok.g(i) else 0.0)
  }

  function DecayMask(p: Tokens): Mat {
    (i, j) => if 0 <= j <= i then p.exp(Cumulative(p, i + 1) - Cumulative(p, j + 1)) else 0.0
  }

  function KeyBeta(p: Tokens): Mat {
    (i, n) => p.k(i, n) * p.beta(i)
  }

  function ValueBeta(p: Tokens): Mat {
    (i, n) => p.v(i, n) * p.beta(i)
  }

  function QueryScaled(p: Tokens): Mat {
    (i, n) => p.q(i, n) * p.scale
  }

  /** attn, before the row loop. */
  function Attn(p: Tokens): Mat {
    (i, j) => if i <= j then 0.0 else -(Dot(p.d, Row(KeyBeta(p), i), Row(p.k, j)) * DecayMask(p)(i, j))
  }

  /** attnI @ v_beta, attnI being the row loop's result plus the identity. */
  function Value(p: Tokens, chunk: nat): Mat {
    MatMul(chunk, Resolvent(Attn(p)), ValueBeta(p))
  }

  function AttnQk(p: Tokens): Mat {
    (i, j) => if i < j then 0.0 else Dot(p.d, Row(QueryScaled(p), i), Row(p.k, j)) * DecayMask(p)(i, j)
  }

  function Core(p: Tokens, chunk: nat): Mat {
    MatMul(chunk, AttnQk(p), Value(p, chunk))
  }

  // ----- The matrix products are the chunk equations from the zero state -----

  lemma MatVecZero(d: nat, x: Vec, i: int)
    ensures MatVec(d, ZeroState(), x)(i) == 0.0
  {
    SumZero(d, Product(Row(ZeroState(), i), x));
  }

  lemma AttnEntry(p: Tokens, chunk: nat, j: int, i: int)
    requires IsExp(p.exp) && 0 <= j < chunk && 0 <= i
    ensures Attn(p)(j, i) == -AncestorMatrix(Chain(p, chunk))(j, i)
  {
    ChainWeight(p, chunk, j, i);
    if i < j {
      DotScale(p.d, p.beta(j), Row(p.k, j), Row(KeyBeta(p), j), Row(p.k, i));
      var w, dot := DecayMask(p)(j, i), Dot(p.d, Row(p.k, j), Row(p.k, i));
      assert (p.beta(j) * dot) * w == w * dot * p.beta(j);
    }
  }

  lemma ValueSolves(p: Tokens, chunk: nat)
    requires IsExp(p.exp)
    ensures Solves(Chain(p, chunk), ZeroState(), Value(p, chunk))
  {
    var tr, u, l := Chain(p, chunk), Value(p, chunk), AncestorMatrix(Chain(p, chunk));
    forall j, n | 0 <= j < chunk && 0 <= n < p.d
      ensures u(j, n) + MatMul(chunk, l, u)(j, n) == RightSide(tr, ZeroState())(j, n)
    {
      ResolventSolves(chunk, Attn(p), ValueBeta(p), j, n);
      forall i | 0 <= i < chunk
        ensures Attn(p)(j, i) == -2.0 * l(j, i) + l(j, i)
      {
        AttnEntry(p, chunk, j, i);
      }
      MatMulLeftLinear(chunk, l, -2.0, l, Attn(p), u, j, n);
      MatVecZero(p.d, Row(p.k, j), n);
    }
  }

  lemma CoreIsClosedOutput(p: Tokens, chunk: nat, u: Mat, t: nat, n: nat)
    requires IsExp(p.exp) && t < chunk
    ensures MatMul(chunk, AttnQk(p), u)(t, n) == ClosedOutput(Chain(p, chunk), ZeroState(), u, t)(n)
  {
    var tr, qt := Chain(p, chunk), Row(p.q, t);
    var w, x := Weights(tr, t), Projected(p.d, u, p.k, qt, n);
    forall i | 0 <= i < chunk
      ensures Product(Row(AttnQk(p), t), Column(u, n))(i) == p.scale * Product(w, x)(i)
    {
      CoreTerm(p, chunk, t, i);
      Regroup3(p.scale, Dot(p.d, Row(p.k, i), qt), w(i), u(i, n));
    }
    SumScale(chunk, p.scale, Product(w, x), Product(Row(AttnQk(p), t), Column(u, n)));
    MatVecZero(p.d, qt, n);
    ScaleFromZero(p.scale, p.exp(PathDecay(tr, t)), MatVec(p.d, ZeroState(), qt)(n), Dot(chunk, w, x));
  }

  lemma CoreTerm(p: Tokens, chunk: nat, t: nat, i: nat)
    requires IsExp(p.exp) && t < chunk
    ensures AttnQk(p)(t, i) == (p.scale * Dot(p.d, Row(p.k, i), Row(p.q, t))) * Weights(Chain(p, chunk), t)(i)
  {
    ChainWeight(p, chunk, t, i);
    if i <= t {
      DotScale(p.d, p.scale, Row(p.q, t), Row(QueryScaled(p), t), Row(p.k, i));
      DotSymmetric(p.d, Row(p.k, i), Row(p.q, t));
      assert DecayMask(p)(t, i) == Weights(Chain(p, chunk), t)(i);
      assert Dot(p.d, Row(QueryScaled(p), t), Row(p.k, i)) == p.scale * Dot(p.d, Row(p.k, i), Row(p.q, t));
    }
  }

  lemma Regroup3(s: real, dot: real, w: real, u: real)
    ensures ((s * dot) * w) * u == s * (w * (dot * u))
  {
  }

  lemma ScaleFromZero(s: real, e: real, zero: real, x: real)
    requires zero == 0.0
    ensures s * (e * zero + x) == s * x
  {
  }

  /** The replay theorem: whatever fills the chunk after the sequence, each row of the
      replayed core is the output of the recursion from the zero state at that token. */
  lemma CoreIsSerial(tok: Tokens, p: Tokens, length: nat, chunk: nat, t: nat)
    requires IsExp(tok.exp) && Agree(length, p, tok) && t < length <= chunk
    ensures EqVec(tok.d, Row(Core(p, chunk), t), OutputAt(tok, ZeroState(), t))
  {
    ValueSolves(p, chunk);
    ClosedOutputIsSerial(Chain(p, chunk), ZeroState(), Value(p, chunk), t);
    ChainState(p, ZeroState(), chunk, t);
    OutputAgrees(p, tok, ZeroState(), ZeroState(), t);
    forall n | 0 <= n < tok.d {
      CoreIsClosedOutput(p, chunk, Value(p, chunk), t, n);
    }
  }

  /** The padded chunk that the replay script builds is such a filling. */
  lemma PaddedReplayIsSerial(tok: Tokens, length: nat, chunk: nat, t: nat)
    requires IsExp(tok.exp) && t < length <= chunk
    ensures EqVec(tok.d, Row(Core(Pad(tok, length), chunk), t), OutputAt(tok, ZeroState(), t))
  {
    CoreIsSerial(tok, Pad(tok, length), length, chunk, t);
  }
}
