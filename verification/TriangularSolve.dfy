/** The in-place triangular inversion of the chunked gated delta rule
    (scripts/replay_gdn_layer0.py:148-158): each row of a strictly lower triangular
    matrix is replaced by itself plus its product with the rows already finished.
 */
module TriangularSolve {
  import opened Sums

  /** The products that row i adds in column j. */
  function Terms(a: Mat, i: int, j: int): Vec
    decreases i, 0
  {
    m => if 0 <= m < i then a(i, m) * Solved(a, m, j) else 0.0
  }

  /** Entry (i, j) after the row loop. */
  function Solved(a: Mat, i: int, j: int): real
    decreases i, 1
  {
    if 0 <= j < i then a(i, j) + Sum(i, Terms(a, i, j)) else a(i, j)
  }

  function SolvedMat(a: Mat): Mat {
    (i, j) => Solved(a, i, j)
  }

  /** I + A', the matrix the chunk formulas multiply by. */
  function Resolvent(a: Mat): Mat {
    Plus(SolvedMat(a), Identity())
  }

  ghost predicate StrictlyLower(n: nat, a: Mat) {
    forall i, j :: 0 <= i < n && 0 <= j < n && i <= j ==> a(i, j) == 0.0
  }

  /** Row i of `attn_iter[i, :i] = row + (row * sub).sum(-2)`. */
  method SolveRow(n: nat, a: Mat, t: array2<real>, i: nat) returns (next: seq<real>)
    requires i < n == t.Length0 == t.Length1
    requires forall r, c :: 0 <= r < i && 0 <= c < n ==> t[r, c] == Solved(a, r, c)
    requires forall c :: 0 <= c < n ==> t[i, c] == a(i, c)
    ensures |next| == i
    ensures forall c :: 0 <= c < i ==> next[c] == Solved(a, i, c)
  {
    next := [];
    for j := 0 to i
      invariant |next| == j
      invariant forall c :: 0 <= c < j ==> next[c] == Solved(a, i, c)
    {
      var acc := t[i, j];
      for m := 0 to i
        invariant acc == a(i, j) + Sum(m, Terms(a, i, j))
      {
        assert Terms(a, i, j)(m) == a(i, m) * Solved(a, m, j);
        acc := acc + t[i, m] * t[m, j];
      }
      assert acc == Solved(a, i, j);
      next := next + [acc];
    }
  }

  /** The row loop: a clone of `a` is updated row by row, each row computed from
      itself and the rows above it before it is written back. */
  method SolveRows(n: nat, a: Mat) returns (t: array2<real>)
    ensures fresh(t) && t.Length0 == n && t.Length1 == n
    ensures forall i, j :: 0 <= i < n && 0 <= j < n ==> t[i, j] == Solved(a, i, j)
  {
    t := new real[n, n]((i, j) => a(i, j));
    var i := 1;
    while i < n
      invariant 1 <= i && (n > 0 ==> i <= n)
      invariant forall r, c :: 0 <= r < i && 0 <= c < n && r < n ==> t[r, c] == Solved(a, r, c)
      invariant forall r, c :: i <= r < n && 0 <= c < n ==> t[r, c] == a(r, c)
    {
      var next := SolveRow(n, a, t, i);
      forall j | 0 <= j < i {
        t[i, j] := next[j];
      }
      i := i + 1;
    }
  }

  /** The finished matrix is strictly lower triangular too. */
  lemma {:induction false} SolvedIsStrictlyLower(n: nat, a: Mat)
    requires StrictlyLower(n, a)
    ensures StrictlyLower(n, SolvedMat(a))
  {
    forall i, j | 0 <= i < n && 0 <= j < n && i <= j
      ensures SolvedMat(a)(i, j) == 0.0
    {
    }
  }

  /** The loop computes the solution of A' = A + A A'. */
  lemma {:induction false} SolvedRight(n: nat, a: Mat, i: int, j: int)
    requires StrictlyLower(n, a) && 0 <= i < n && 0 <= j < n
    ensures Solved(a, i, j) == a(i, j) + MatMul(n, a, SolvedMat(a))(i, j)
  {
    SolvedIsStrictlyLower(n, a);
    var f := Product(Row(a, i), Column(SolvedMat(a), j));
    SumTruncate(i, n, f);
    if j < i {
      SumEq(i, f, Terms(a, i, j));
    } else {
      forall k | 0 <= k < i
        ensures f(k) == 0.0
      {
        assert SolvedMat(a)(k, j) == 0.0;
      }
      SumZero(i, f);
    }
  }

  /** If row i of T is A + A T, and the rows of T that A(i, ·) selects are A + T A,
      then row i of T is A + T A. */
  lemma RowCommutes(n: nat, a: Mat, t: Mat, i: int, j: int)
    requires 0 <= i < n && 0 <= j < n
    requires forall k :: 0 <= k < n ==> t(i, k) == a(i, k) + MatMul(n, a, t)(i, k)
    requires forall k :: 0 <= k < n && a(i, k) != 0.0 ==> t(k, j) == a(k, j) + MatMul(n, t, a)(k, j)
    ensures t(i, j) == a(i, j) + MatMul(n, t, a)(i, j)
  {
    MatMulRightLinear(n, a, a, 1.0, MatMul(n, t, a), t, i, j);
    MatMulLeftLinear(n, a, 1.0, MatMul(n, a, t), t, a, i, j);
    MatMulAssociative(n, a, t, a, i, j);
  }

  /** Multiplication by A' on the other side gives the same solution: A' = A + A' A. */
  lemma {:induction false} SolvedLeft(n: nat, a: Mat, i: int, j: int)
    requires StrictlyLower(n, a) && 0 <= i < n && 0 <= j < n
    ensures SolvedMat(a)(i, j) == a(i, j) + MatMul(n, SolvedMat(a), a)(i, j)
    decreases i
  {
    var t := SolvedMat(a);
    forall k | 0 <= k < n && a(i, k) != 0.0
      ensures t(k, j) == a(k, j) + MatMul(n, t, a)(k, j)
    {
      SolvedLeft(n, a, k, j);
    }
    forall k | 0 <= k < n
      ensures t(i, k) == a(i, k) + MatMul(n, a, t)(i, k)
    {
      SolvedRight(n, a, i, k);
    }
    RowCommutes(n, a, t, i, j);
  }

  /** (I + T)(I - A) = I when T = A + T A, entry by entry. */
  lemma PlusTimesMinus(n: nat, a: Mat, t: Mat, i: int, j: int)
    requires 0 <= i < n && 0 <= j < n
    requires t(i, j) == a(i, j) + MatMul(n, t, a)(i, j)
    ensures MatMul(n, Plus(t, Identity()), Minus(Identity(), a))(i, j) == Identity()(i, j)
  {
    var one, minus := Identity(), Minus(Identity(), a);
    MatMulLeftLinear(n, one, 1.0, t, Plus(t, one), minus, i, j);
    IdentityTimes(n, minus, i, j);
    MatMulRightLinear(n, t, one, -1.0, a, minus, i, j);
    TimesIdentity(n, t, i, j);
  }

  /** (I - A)(I + T) = I when T = A + A T, entry by entry. */
  lemma MinusTimesPlus(n: nat, a: Mat, t: Mat, i: int, j: int)
    requires 0 <= i < n && 0 <= j < n
    requires t(i, j) == a(i, j) + MatMul(n, a, t)(i, j)
    ensures MatMul(n, Minus(Identity(), a), Plus(t, Identity()))(i, j) == Identity()(i, j)
  {
    var one, plus := Identity(), Plus(t, Identity());
    MatMulLeftLinear(n, one, -1.0, a, Minus(one, a), plus, i, j);
    IdentityTimes(n, plus, i, j);
    MatMulRightLinear(n, a, one, 1.0, t, plus, i, j);
    TimesIdentity(n, a, i, j);
  }

  /** The promise of the row loop: (I + A')(I - A) = I = (I - A)(I + A'). */
  lemma ResolventIsInverse(n: nat, a: Mat)
    requires StrictlyLower(n, a)
    ensures EqMat(n, n, MatMul(n, Resolvent(a), Minus(Identity(), a)), Identity())
    ensures EqMat(n, n, MatMul(n, Minus(Identity(), a), Resolvent(a)), Identity())
  {
    forall i, j | 0 <= i < n && 0 <= j < n
      ensures MatMul(n, Resolvent(a), Minus(Identity(), a))(i, j) == Identity()(i, j)
      ensures MatMul(n, Minus(Identity(), a), Resolvent(a))(i, j) == Identity()(i, j)
    {
      SolvedLeft(n, a, i, j);
      PlusTimesMinus(n, a, SolvedMat(a), i, j);
      SolvedRight(n, a, i, j);
      MinusTimesPlus(n, a, SolvedMat(a), i, j);
    }
  }
}
