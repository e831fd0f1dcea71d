/** Finite sums of reals, and vectors and matrices represented by total functions.

    A vector of length d is a function on indices whose values at `i < d` matter;
    the length is always an explicit argument.  Sum laws are stated relationally
    ("if h is pointwise this, then its sum is that"), so that callers never have to
    match lambda expressions against each other.
 */
module Sums {

  type Vec = int -> real

  type Mat = (int, int) -> real

  function Sum(n: nat, f: Vec): real {
    if n == 0 then 0.0 else Sum(n - 1, f) + f(n - 1)
  }

  function Product(x: Vec, y: Vec): Vec {
    i => x(i) * y(i)
  }

  function Dot(d: nat, x: Vec, y: Vec): real {
    Sum(d, Product(x, y))
  }

  function Row(m: Mat, i: int): Vec {
    j => m(i, j)
  }

  function Column(m: Mat, j: int): Vec {
    i => m(i, j)
  }

  /** Entry `i` of the matrix-vector product. */
  function MatVec(d: nat, m: Mat, x: Vec): Vec {
    i => Dot(d, Row(m, i), x)
  }

  function MatMul(n: nat, a: Mat, b: Mat): Mat {
    (i, j) => Dot(n, Row(a, i), Column(b, j))
  }

  function Identity(): Mat {
    (i, j) => if i == j then 1.0 else 0.0
  }

  function Plus(a: Mat, b: Mat): Mat {
    (i, j) => a(i, j) + b(i, j)
  }

  function Minus(a: Mat, b: Mat): Mat {
    (i, j) => a(i, j) - b(i, j)
  }

  /** Equality of the leading n-by-m blocks. */
  ghost predicate EqMat(n: nat, m: nat, a: Mat, b: Mat) {
    forall i, j :: 0 <= i < n && 0 <= j < m ==> a(i, j) == b(i, j)
  }

  lemma EqMatTransitive(n: nat, m: nat, a: Mat, b: Mat, c: Mat)
    requires EqMat(n, m, a, b) && EqMat(n, m, b, c)
    ensures EqMat(n, m, a, c)
  {
  }

  // ----- Laws of sums -----

  lemma SumEq(n: nat, f: Vec, g: Vec)
    requires forall i :: 0 <= i < n ==> f(i) == g(i)
    ensures Sum(n, f) == Sum(n, g)
  {
  }

  lemma SumZero(n: nat, f: Vec)
    requires forall i :: 0 <= i < n ==> f(i) == 0.0
    ensures Sum(n, f) == 0.0
  {
  }

  lemma {:induction false} SumLinear(n: nat, a: real, f: Vec, b: real, g: Vec, h: Vec)
    requires forall i :: 0 <= i < n ==> h(i) == a * f(i) + b * g(i)
    ensures Sum(n, h) == a * Sum(n, f) + b * Sum(n, g)
  {
    if n > 0 {
      SumLinear(n - 1, a, f, b, g, h);
    }
  }

  lemma SumScale(n: nat, a: real, f: Vec, h: Vec)
    requires forall i :: 0 <= i < n ==> h(i) == a * f(i)
    ensures Sum(n, h) == a * Sum(n, f)
  {
    SumLinear(n, a, f, 0.0, f, h);
  }

  /** Terms past m vanish. */
  lemma {:induction false} SumTruncate(m: nat, n: nat, f: Vec)
    requires m <= n
    requires forall i :: m <= i < n ==> f(i) == 0.0
    ensures Sum(n, f) == Sum(m, f)
  {
    if m < n {
      SumTruncate(m, n - 1, f);
    }
  }

  /** One non-zero term. */
  lemma {:induction false} SumSingle(n: nat, k: nat, f: Vec)
    requires k < n
    requires forall i :: 0 <= i < n && i != k ==> f(i) == 0.0
    ensures Sum(n, f) == f(k)
  {
    if k == n - 1 {
      SumZero(n - 1, f);
    } else {
      SumSingle(n - 1, k, f);
    }
  }

  /** Exchanging the order of a double sum. */
  lemma {:induction false} SumSwap(n: nat, m: nat, f: Mat, rows: Vec, cols: Vec)
    requires forall i :: 0 <= i < n ==> rows(i) == Sum(m, Row(f, i))
    requires forall j :: 0 <= j < m ==> cols(j) == Sum(n, Column(f, j))
    ensures Sum(n, rows) == Sum(m, cols)
    decreases n
  {
    if n == 0 {
      SumZero(m, cols);
    } else {
      var c := j => Sum(n - 1, Column(f, j));
      SumSwap(n - 1, m, f, rows, c);
      forall j | 0 <= j < m
        ensures cols(j) == 1.0 * c(j) + 1.0 * Row(f, n - 1)(j)
      {
        assert c(j) == Sum(n - 1, Column(f, j));
      }
      SumLinear(m, 1.0, c, 1.0, Row(f, n - 1), cols);
    }
  }

  /** A weighted sum when every weight is scaled by e and one is then raised by one. */
  lemma SumReweighted(n: nat, k: nat, e: real, w: Vec, w': Vec, x: Vec)
    requires k < n
    requires forall i :: 0 <= i < n ==> w'(i) == e * w(i) + (if i == k then 1.0 else 0.0)
    ensures Dot(n, w', x) == e * Dot(n, w, x) + x(k)
  {
    var one := i => if i == k then x(i) else 0.0;
    forall i | 0 <= i < n
      ensures Product(w', x)(i) == e * Product(w, x)(i) + 1.0 * one(i)
    {
      DistributeOver(e, w(i), if i == k then 1.0 else 0.0, x(i));
    }
    SumLinear(n, e, Product(w, x), 1.0, one, Product(w', x));
    SumSingle(n, k, one);
  }

  // ----- Laws of dot products and matrices -----

  lemma DotEq(d: nat, x: Vec, x': Vec, y: Vec, y': Vec)
    requires forall i :: 0 <= i < d ==> x(i) == x'(i) && y(i) == y'(i)
    ensures Dot(d, x, y) == Dot(d, x', y')
  {
    SumEq(d, Product(x, y), Product(x', y'));
  }

  /** A dot product is linear in its first argument. */
  lemma DotAffine(d: nat, a: real, x: Vec, z: Vec, w: Vec, y: Vec)
    requires forall i :: 0 <= i < d ==> w(i) == a * x(i) + z(i)
    ensures Dot(d, w, y) == a * Dot(d, x, y) + Dot(d, z, y)
  {
    forall i | 0 <= i < d
      ensures Product(w, y)(i) == a * Product(x, y)(i) + 1.0 * Product(z, y)(i)
    {
      DistributeOver(a, x(i), z(i), y(i));
    }
    SumLinear(d, a, Product(x, y), 1.0, Product(z, y), Product(w, y));
  }

  lemma DistributeOver(a: real, x: real, z: real, y: real)
    ensures (a * x + z) * y == a * (x * y) + z * y
  {
  }

  lemma DotScale(d: nat, a: real, x: Vec, w: Vec, y: Vec)
    requires forall i :: 0 <= i < d ==> w(i) == a * x(i)
    ensures Dot(d, w, y) == a * Dot(d, x, y)
  {
    forall i | 0 <= i < d
      ensures Product(w, y)(i) == a * Product(x, y)(i)
    {
      DistributeOver(a, x(i), 0.0, y(i));
    }
    SumScale(d, a, Product(x, y), Product(w, y));
  }

  lemma DotSymmetric(d: nat, x: Vec, y: Vec)
    ensures Dot(d, x, y) == Dot(d, y, x)
  {
    SumEq(d, Product(x, y), Product(y, x));
  }

  /** The summands of a product of three, x_i applied first to the inner index. */
  function Triple(w: Vec, x: Mat, y: Vec): Mat {
    (n, i) => (w(i) * x(i, n)) * y(n)
  }

  lemma TripleRow(t: nat, w: Vec, x: Mat, y: Vec, n: int)
    ensures Sum(t, Row(Triple(w, x, y), n)) == Dot(t, w, Column(x, n)) * y(n)
  {
  }

  lemma TripleColumn(d: nat, w: Vec, x: Mat, y: Vec, i: int)
    ensures Sum(d, Column(Triple(w, x, y), i)) == w(i) * Dot(d, Row(x, i), y)
  {
  }

  /** The dot product of a sum of t weighted vectors, term by term. */
  lemma DotSum(d: nat, t: nat, w: Vec, x: Mat, z: Vec, y: Vec, terms: Vec)
    requires forall n :: 0 <= n < d ==> z(n) == Dot(t, w, Column(x, n))
    requires forall i :: 0 <= i < t ==> terms(i) == Dot(d, Row(x, i), y)
    ensures Dot(d, z, y) == Dot(t, w, terms)
  {
    var f := Triple(w, x, y);
    forall n | 0 <= n < d
      ensures Product(z, y)(n) == Sum(t, Row(f, n))
    {
      TripleRow(t, w, x, y, n);
    }
    forall i | 0 <= i < t
      ensures Product(w, terms)(i) == Sum(d, Column(f, i))
    {
      TripleColumn(d, w, x, y, i);
    }
    SumSwap(d, t, f, Product(z, y), Product(w, terms));
  }

  lemma MatMulAssociative(n: nat, a: Mat, b: Mat, c: Mat, i: int, j: int)
    ensures MatMul(n, MatMul(n, a, b), c)(i, j) == MatMul(n, a, MatMul(n, b, c))(i, j)
  {
    DotSum(n, n, Row(a, i), b, Row(MatMul(n, a, b), i), Column(c, j), Column(MatMul(n, b, c), j));
  }

  lemma IdentityTimes(n: nat, a: Mat, i: int, j: int)
    requires 0 <= i < n
    ensures MatMul(n, Identity(), a)(i, j) == a(i, j)
  {
    var f := Product(Row(Identity(), i), Column(a, j));
    forall k | 0 <= k < n && k != i
      ensures f(k) == 0.0
    {
      assert Identity()(i, k) == 0.0;
    }
    SumSingle(n, i, f);
  }

  lemma TimesIdentity(n: nat, a: Mat, i: int, j: int)
    requires 0 <= j < n
    ensures MatMul(n, a, Identity())(i, j) == a(i, j)
  {
    var f := Product(Row(a, i), Column(Identity(), j));
    forall k | 0 <= k < n && k != j
      ensures f(k) == 0.0
    {
      assert Identity()(k, j) == 0.0;
    }
    SumSingle(n, j, f);
  }

  /** Linearity in the left factor, for one row. */
  lemma MatMulLeftLinear(n: nat, x: Mat, b: real, y: Mat, w: Mat, p: Mat, i: int, j: int)
    requires forall k :: 0 <= k < n ==> w(i, k) == b * y(i, k) + x(i, k)
    ensures MatMul(n, w, p)(i, j) == b * MatMul(n, y, p)(i, j) + MatMul(n, x, p)(i, j)
  {
    DotAffine(n, b, Row(y, i), Row(x, i), Row(w, i), Column(p, j));
  }

  /** Linearity in the right factor, for one column; rows that the left factor does not
      select do not matter. */
  lemma MatMulRightLinear(n: nat, p: Mat, x: Mat, b: real, y: Mat, w: Mat, i: int, j: int)
    requires forall k :: 0 <= k < n && p(i, k) != 0.0 ==> w(k, j) == b * y(k, j) + x(k, j)
    ensures MatMul(n, p, w)(i, j) == b * MatMul(n, p, y)(i, j) + MatMul(n, p, x)(i, j)
  {
    var r, cx, cy, cw := Row(p, i), Column(x, j), Column(y, j), Column(w, j);
    forall k | 0 <= k < n
      ensures Product(r, cw)(k) == b * Product(r, cy)(k) + 1.0 * Product(r, cx)(k)
    {
      if p(i, k) != 0.0 {
        DistributeOver(b, y(k, j), x(k, j), p(i, k));
      }
    }
    SumLinear(n, b, Product(r, cy), 1.0, Product(r, cx), Product(r, cw));
  }
}
