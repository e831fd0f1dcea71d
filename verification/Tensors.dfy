/** Tensors in row-major order, and transposition through mixed-radix indices. */
module Tensors {

  datatype Tensor = Tensor(dims: seq<nat>, data: seq<int>)

  function Product(dims: seq<nat>): nat {
    if dims == [] then 1 else dims[0] * Product(dims[1..])
  }

  ghost predicate ValidTensor(t: Tensor) {
    |t.data| == Product(t.dims)
  }

  /** An index within the dimensions. */
  ghost predicate InDims(dims: seq<nat>, idx: seq<nat>) {
    |idx| == |dims| && forall i :: 0 <= i < |dims| ==> idx[i] < dims[i]
  }

  function Flat(dims: seq<nat>, idx: seq<nat>): nat
    requires |idx| == |dims|
  {
    if dims == [] then 0 else idx[0] * Product(dims[1..]) + Flat(dims[1..], idx[1..])
  }

  function Unflat(dims: seq<nat>, f: nat): (idx: seq<nat>)
    requires f < Product(dims)
    ensures |idx| == |dims|
  {
    if dims == [] then []
    else
      var rest := Product(dims[1..]);
      DivModRest(dims[0], rest, f);
      [f / rest] + Unflat(dims[1..], f % rest)
  }

  lemma DivModRest(d: nat, rest: nat, f: nat)
    requires f < d * rest
    ensures rest > 0 && f / rest < d && f % rest < rest && (f / rest) * rest + f % rest == f
  {
    assert rest != 0;
    assert (f / rest) * rest < d * rest;
  }

  lemma {:induction false} UnflatInDims(dims: seq<nat>, f: nat)
    requires f < Product(dims)
    ensures InDims(dims, Unflat(dims, f)) && Flat(dims, Unflat(dims, f)) == f
    decreases |dims|
  {
    if dims != [] {
      var rest := Product(dims[1..]);
      DivModRest(dims[0], rest, f);
      UnflatInDims(dims[1..], f % rest);
      assert Unflat(dims, f)[1..] == Unflat(dims[1..], f % rest);
    }
  }

  lemma {:induction false} FlatBound(dims: seq<nat>, idx: seq<nat>)
    requires InDims(dims, idx)
    ensures Flat(dims, idx) < Product(dims)
    decreases |dims|
  {
    if dims != [] {
      FlatBound(dims[1..], idx[1..]);
      LeadingDigit(dims[0], Product(dims[1..]), idx[0], Flat(dims[1..], idx[1..]));
    }
  }

  lemma LeadingDigit(d: nat, rest: nat, i: nat, r: nat)
    requires i < d && r < rest
    ensures i * rest + r < d * rest
  {
    assert (i + 1) * rest <= d * rest;
  }

  /** The position of axis a in the permutation. */
  function AxisOf(perm: seq<int>, a: int): (j: nat)
    ensures j <= |perm| && (j < |perm| ==> perm[j] == a)
  {
    if perm == [] then 0 else if perm[0] == a then 0 else 1 + AxisOf(perm[1..], a)
  }

  ghost predicate IsPermutation(perm: seq<int>) {
    forall a :: 0 <= a < |perm| ==> AxisOf(perm, a) < |perm|
  }

  /** Output axis j is input axis perm[j]. */
  ghost predicate Permutes(perm: seq<int>, dims: seq<nat>, outDims: seq<nat>) {
    && |perm| == |dims| == |outDims| && IsPermutation(perm)
    && forall a :: 0 <= a < |dims| ==> outDims[AxisOf(perm, a)] == dims[a]
  }

  /** The input index behind an output index. */
  function SourceIndex(perm: seq<int>, idx: seq<nat>): (r: seq<nat>)
    requires |idx| == |perm|
    ensures |r| == |perm|
  {
    seq(|perm|, a requires 0 <= a < |perm| => if AxisOf(perm, a) < |perm| then idx[AxisOf(perm, a)] else 0)
  }

  function TransposedElement(t: Tensor, perm: seq<int>, outDims: seq<nat>, f: nat): int
    requires |perm| == |t.dims| == |outDims| && f < Product(outDims)
  {
    var src := Flat(t.dims, SourceIndex(perm, Unflat(outDims, f)));
    if src < |t.data| then t.data[src] else 0
  }

  /** Element f of a transposition is the element of the input with the permuted index. */
  function Transposed(t: Tensor, perm: seq<int>, outDims: seq<nat>): (r: seq<int>)
    requires |perm| == |t.dims| == |outDims|
    ensures |r| == Product(outDims)
  {
    seq(Product(outDims), f requires 0 <= f < Product(outDims) => TransposedElement(t, perm, outDims, f))
  }

  /** On a proper permutation every element read exists. */
  lemma TransposedReadsInside(t: Tensor, perm: seq<int>, outDims: seq<nat>, f: nat)
    requires ValidTensor(t) && Permutes(perm, t.dims, outDims) && f < Product(outDims)
    ensures Flat(t.dims, SourceIndex(perm, Unflat(outDims, f))) < |t.data|
  {
    UnflatInDims(outDims, f);
    FlatBound(t.dims, SourceIndex(perm, Unflat(outDims, f)));
  }

  predicate IsIdentity(perm: seq<int>) {
    forall i :: 0 <= i < |perm| ==> perm[i] == i
  }

  lemma {:induction false} AxisOfOffset(perm: seq<int>, base: int, a: int)
    requires forall i :: 0 <= i < |perm| ==> perm[i] == base + i
    requires base <= a < base + |perm|
    ensures AxisOf(perm, a) == a - base
    decreases |perm|
  {
    if perm[0] != a {
      AxisOfOffset(perm[1..], base + 1, a);
    }
  }

  /** Transposing by 0, 1, 2, ... changes nothing. */
  lemma IdentityTransposes(t: Tensor, perm: seq<int>)
    requires ValidTensor(t) && IsIdentity(perm) && |perm| == |t.dims|
    ensures Transposed(t, perm, t.dims) == t.data
  {
    forall f | 0 <= f < Product(t.dims)
      ensures Transposed(t, perm, t.dims)[f] == t.data[f]
    {
      var idx := Unflat(t.dims, f);
      forall a | 0 <= a < |perm|
        ensures SourceIndex(perm, idx)[a] == idx[a]
      {
        AxisOfOffset(perm, 0, a);
      }
      assert SourceIndex(perm, idx) == idx;
      UnflatInDims(t.dims, f);
    }
  }
}
