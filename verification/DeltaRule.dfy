/** One step of the gated delta rule on the state of one head
    (kernels/include/gdn_sm.h:12-13): decay, correct towards the new value, read out.
    Rows of the state are value dimensions, columns are key dimensions.
 */
module DeltaRule {
  import opened Sums

  function Decayed(a: real, s: Mat): Mat {
    (j, n) => a * s(j, n)
  }

  /** What the step adds along the key: beta (v - S k), S already decayed. */
  function Correction(d: nat, a: real, beta: real, k: Vec, v: Vec, s: Mat): Vec {
    j => beta * (v(j) - MatVec(d, Decayed(a, s), k)(j))
  }

  function Next(d: nat, a: real, beta: real, k: Vec, v: Vec, s: Mat): Mat {
    (j, n) => Decayed(a, s)(j, n) + Correction(d, a, beta, k, v, s)(j) * k(n)
  }

  function Output(d: nat, scale: real, q: Vec, s: Mat): Vec {
    j => MatVec(d, s, q)(j) * scale
  }

  ghost predicate EqVec(d: nat, x: Vec, y: Vec) {
    forall i :: 0 <= i < d ==> x(i) == y(i)
  }

  lemma MatVecEq(d: nat, s: Mat, s': Mat, x: Vec, x': Vec)
    requires EqMat(d, d, s, s') && EqVec(d, x, x')
    ensures EqVec(d, MatVec(d, s, x), MatVec(d, s', x'))
  {
    forall i | 0 <= i < d
      ensures MatVec(d, s, x)(i) == MatVec(d, s', x')(i)
    {
      DotEq(d, Row(s, i), Row(s', i), x, x');
    }
  }

  lemma CorrectionEq(d: nat, a: real, beta: real, k: Vec, k': Vec, v: Vec, v': Vec, s: Mat, s': Mat)
    requires EqMat(d, d, s, s') && EqVec(d, k, k') && EqVec(d, v, v')
    ensures EqVec(d, Correction(d, a, beta, k, v, s), Correction(d, a, beta, k', v', s'))
  {
    MatVecEq(d, Decayed(a, s), Decayed(a, s'), k, k');
  }

  lemma NextEq(d: nat, a: real, beta: real, k: Vec, k': Vec, v: Vec, v': Vec, s: Mat, s': Mat)
    requires EqMat(d, d, s, s') && EqVec(d, k, k') && EqVec(d, v, v')
    ensures EqMat(d, d, Next(d, a, beta, k, v, s), Next(d, a, beta, k', v', s'))
  {
    CorrectionEq(d, a, beta, k, k', v, v', s, s');
  }

  /** Decay can be pulled out of the product with the key. */
  lemma DecayedMatVec(d: nat, a: real, s: Mat, x: Vec, i: int)
    ensures MatVec(d, Decayed(a, s), x)(i) == a * MatVec(d, s, x)(i)
  {
    DotScale(d, a, Row(s, i), Row(Decayed(a, s), i), x);
  }
}
