/** The exponential, as any positive function that turns sums into products.  It is a
    parameter of every model that uses it: nothing else about it is assumed.
 */
module Exponential {

  ghost predicate ExpLaw(exp: real -> real, a: real, b: real) {
    exp(a) > 0.0 && exp(a + b) == exp(a) * exp(b)
  }

  /** The only facts about the exponential that the equivalences need. */
  ghost predicate IsExp(exp: real -> real) {
    forall a, b :: ExpLaw(exp, a, b)
  }

  lemma ExpZero(exp: real -> real)
    requires IsExp(exp)
    ensures exp(0.0) == 1.0
  {
    ExpSum(exp, 0.0, 0.0, 0.0);
    OwnSquare(exp(0.0));
  }

  lemma ExpSum(exp: real -> real, a: real, b: real, c: real)
    requires IsExp(exp) && c == a + b
    ensures exp(c) == exp(a) * exp(b) && exp(a) > 0.0
  {
    assert ExpLaw(exp, a, b);
  }

  lemma OwnSquare(e: real)
    requires e > 0.0 && e == e * e
    ensures e == 1.0
  {
    assert e * (e - 1.0) == 0.0;
  }
}
