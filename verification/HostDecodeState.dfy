/** The persistent decode state of the host and the operations that advance it by one
    token (compiler/src/ops/host_decode_state.cpp).
 */
module HostDecodeState {
  import opened Exponential
  import opened Sums
  import opened DeltaRule
  import opened MixedRadix
  import opened GroupedHeads

  const N_KV := 6
  const KV_ELEMS := 512
  const KV_MAX := 64
  const N_CONV := 18
  const CONV_C := 6144
  const CONV_DC := 4
  const N_DELTA := 18
  const GDN_H := 16
  const GDN_D := 128

  /** Row i of a two-dimensional array, as a value. */
  function RowOf(a: array2<real>, i: int): (row: seq<real>)
    requires 0 <= i < a.Length0
    reads a
    ensures |row| == a.Length1 && forall c :: 0 <= c < a.Length1 ==> row[c] == a[i, c]
  {
    seq(a.Length1, c requires 0 <= c < a.Length1 reads a => a[i, c])
  }

  function RowOf3(a: array3<real>, i: int, p: int): (row: seq<real>)
    requires 0 <= i < a.Length0 && 0 <= p < a.Length1
    reads a
    ensures |row| == a.Length2 && forall c :: 0 <= c < a.Length2 ==> row[c] == a[i, p, c]
  {
    seq(a.Length2, c requires 0 <= c < a.Length2 reads a => a[i, p, c])
  }

  /** The first `count` rows of plane i. */
  function Faces(a: array3<real>, i: int, count: nat): (faces: seq<seq<real>>)
    requires 0 <= i < a.Length0 && count <= a.Length1
    reads a
    ensures |faces| == count && forall p :: 0 <= p < count ==> faces[p] == RowOf3(a, i, p)
  {
    seq(count, p requires 0 <= p < a.Length1 reads a => RowOf3(a, i, p))
  }

  /** memcpy of one face. */
  method WriteFace(a: array3<real>, i: int, p: int, x: seq<real>)
    requires 0 <= i < a.Length0 && 0 <= p < a.Length1 && |x| == a.Length2
    modifies a
    ensures RowOf3(a, i, p) == x
    ensures forall j, q :: 0 <= j < a.Length0 && 0 <= q < a.Length1 && (j != i || q != p) ==>
      RowOf3(a, j, q) == old(RowOf3(a, j, q))
  {
    forall e | 0 <= e < |x| {
      a[i, p, e] := x[e];
    }
  }

  /** The part of a vector that starts at an offset. */
  function Slice(x: seq<real>, base: int): Vec {
    n => if 0 <= base + n < |x| then x[base + n] else 0.0
  }

  /** The matrix with d columns stored at an offset, row by row. */
  function Block(x: seq<real>, base: int, d: int): Mat {
    (j, n) => if 0 <= base + At(d, j, n) < |x| then x[base + At(d, j, n)] else 0.0
  }

  /** The activation: x times its sigmoid. */
  function Activation(exp: real -> real, x: real): real
    requires IsExp(exp)
  {
    assert ExpLaw(exp, x, 0.0);
    x * (exp(x) / (exp(x) + 1.0))
  }

  /** The activation as the host computes it, with one exponential of the negated argument. */
  function HostSilu(exp: real -> real, x: real): (r: real)
    requires IsExp(exp)
    ensures r == Activation(exp, x)
  {
    ExpSum(exp, x, -x, 0.0);
    ExpSum(exp, -x, x, 0.0);
    ExpZero(exp);
    SigmoidOfInverse(exp(x), exp(-x), x);
    x / (1.0 + exp(-x))
  }

  lemma SigmoidOfInverse(e: real, inv: real, x: real)
    requires e > 0.0 && inv > 0.0 && e * inv == 1.0
    ensures x / (1.0 + inv) == x * (e / (e + 1.0))
  {
    var s := e / (e + 1.0);
    assert s * (1.0 + inv) == 1.0 by {
      assert s * (e + 1.0) == e;
      assert s * inv * e == s;
      assert (s * (1.0 + inv)) * e == s * e + s == e;
    }
    assert (x * s) * (1.0 + inv) == x;
  }

  // ----- Blocks of flat storage -----

  /** Rows lo to hi of the d-column block at `base` hold the matrix m. */
  ghost predicate Stored(x: seq<real>, base: int, d: nat, lo: int, hi: int, m: Mat) {
    forall j, n {:trigger At(d, j, n)} :: lo <= j < hi && 0 <= n < d ==>
      0 <= base + At(d, j, n) < |x| && x[base + At(d, j, n)] == m(j, n)
  }

  ghost predicate SameOutside(x: seq<real>, x': seq<real>, base: int, size: int) {
    |x'| == |x| && forall c :: 0 <= c < |x| && !(base <= c < base + size) ==> x'[c] == x[c]
  }

  ghost predicate SameFrom(x: seq<real>, x': seq<real>, from: int) {
    |x'| == |x| && forall c :: 0 <= c < |x| && from <= c ==> x'[c] == x[c]
  }

  /** The first `count` entries from `base` are w, the others are unchanged. */
  ghost predicate Filled(x: seq<real>, x': seq<real>, base: int, count: int, w: Vec) {
    |x'| == |x| && forall c :: 0 <= c < |x| ==> x'[c] == if base <= c < base + count then w(c - base) else x[c]
  }

  /** The storage changed only in row j of the block, which now holds w. */
  ghost predicate RowWritten(x: seq<real>, x': seq<real>, row: int, d: nat, w: Vec) {
    && |x'| == |x|
    && 0 <= row && row + d <= |x|
    && forall c :: 0 <= c < |x| ==> x'[c] == if row <= c < row + d then w(c - row) else x[c]
  }

  lemma StoredRow(x: seq<real>, x': seq<real>, base: int, d: nat, j: int, m: Mat, w: Vec)
    requires RowWritten(x, x', base + At(d, j, 0), d, w)
    requires forall n :: 0 <= n < d ==> w(n) == m(j, n)
    ensures Stored(x', base, d, j, j + 1, m)
  {
  }

  lemma StoredElsewhere(x: seq<real>, x': seq<real>, base: int, d: nat, lo: int, hi: int, m: Mat, j: int, w: Vec)
    requires Stored(x, base, d, lo, hi, m) && (j < lo || hi <= j)
    requires RowWritten(x, x', base + At(d, j, 0), d, w)
    ensures Stored(x', base, d, lo, hi, m)
  {
    forall r, n | lo <= r < hi && 0 <= n < d
      ensures 0 <= base + At(d, r, n) < |x'| && x'[base + At(d, r, n)] == m(r, n)
    {
      if r < j {
        AtOrder(d, r, n, j, 0);
      } else {
        AtOrder(d, j, d - 1, r, n);
      }
    }
  }

  lemma StoredOutside(x: seq<real>, x': seq<real>, base: int, d: nat, j: int, w: Vec, c: int)
    requires 0 <= j < d && RowWritten(x, x', base + At(d, j, 0), d, w)
    requires 0 <= c < |x| && !(base <= c < base + d * d)
    ensures x'[c] == x[c]
  {
    if d > 0 {
      AtBound(d, d, j, 0);
      AtBound(d, d, j, d - 1);
    }
  }

  lemma NextRow(d: nat, a: real, beta: real, kh: Vec, vh: Vec, s: Mat, j: int, yk: real, dj: real)
    requires yk == MatVec(d, Decayed(a, s), kh)(j) && dj == beta * (vh(j) - yk)
    ensures forall n :: 0 <= n < d ==> Row(Next(d, a, beta, kh, vh, s), j)(n) == Row(Decayed(a, s), j)(n) + dj * kh(n)
  {
    assert dj == Correction(d, a, beta, kh, vh, s)(j);
  }

  lemma OutputEntry(d: nat, scale: real, qh: Vec, s: Mat, j: int, sum: real)
    requires sum == Dot(d, Row(s, j), qh)
    ensures Output(d, scale, qh, s)(j) == sum * scale
  {
    assert MatVec(d, s, qh)(j) == sum;
  }

  lemma FilledStep(x: seq<real>, x': seq<real>, base: int, count: int, w: Vec)
    requires Filled(x, x', base, count, w) && 0 <= count && 0 <= base + count < |x|
    ensures Filled(x, x'[base + count := w(count)], base, count + 1, w)
  {
  }

  /** One row of a pass over a block: rows up to j hold the new matrix. */
  lemma PassStep(x0: seq<real>, x: seq<real>, x': seq<real>, base: int, d: nat, j: int, m: Mat, m': Mat)
    requires 0 <= j < d && SameOutside(x0, x, base, d * d)
    requires Stored(x, base, d, 0, j, m') && Stored(x, base, d, j, d, m)
    requires RowWritten(x, x', base + At(d, j, 0), d, Row(m', j))
    ensures Stored(x', base, d, 0, j + 1, m') && Stored(x', base, d, j + 1, d, m)
    ensures SameOutside(x0, x', base, d * d)
  {
    StoredRow(x, x', base, d, j, m', Row(m', j));
    StoredElsewhere(x, x', base, d, 0, j, m', j, Row(m', j));
    StoredElsewhere(x, x', base, d, j + 1, d, m, j, Row(m', j));
    forall c | 0 <= c < |x0| && !(base <= c < base + d * d) {
      StoredOutside(x, x', base, d, j, Row(m', j), c);
    }
  }

  lemma RowInBlock(x: seq<real>, base: int, d: nat, j: int, m: Mat)
    requires 0 <= j < d && Stored(x, base, d, j, d, m)
    ensures 0 <= base + At(d, j, 0) && base + At(d, j, 0) + d <= |x|
    ensures forall c :: base + At(d, j, 0) <= c < base + At(d, j, 0) + d ==> x[c] == m(j, c - (base + At(d, j, 0)))
  {
    assert base + At(d, j, d - 1) < |x|;
    forall c | base + At(d, j, 0) <= c < base + At(d, j, 0) + d
      ensures x[c] == m(j, c - (base + At(d, j, 0)))
    {
      assert c == base + At(d, j, c - (base + At(d, j, 0)));
    }
  }

  // ----- The heads of one delta layer -----

  /** The inputs of one delta step: h heads of d elements each, flat. */
  datatype DeltaArgs = DeltaArgs(h: nat, d: nat, scale: real, exp: real -> real,
                                 k: seq<real>, v: seq<real>, q: seq<real>, beta: seq<real>, g: seq<real>)

  ghost predicate ValidArgs(args: DeltaArgs) {
    && args.h * args.d <= |args.k| && args.h * args.d <= |args.v| && args.h * args.d <= |args.q|
    && args.h <= |args.beta| && args.h <= |args.g|
  }

  /** The state of head hh after the step, from the layer x before it. */
  function NextHead(args: DeltaArgs, x: seq<real>, hh: int): Mat
    requires 0 <= hh < |args.g| && hh < |args.beta|
  {
    Next(args.d, args.exp(args.g[hh]), args.beta[hh], Slice(args.k, At(args.d, hh, 0)), Slice(args.v, At(args.d, hh, 0)),
         Block(x, At(args.d * args.d, hh, 0), args.d))
  }

  /** Head hh made one serial step of the delta rule: its block holds the next state and
      y its output. */
  ghost predicate HeadStepped(args: DeltaArgs, x: seq<real>, x': seq<real>, y: seq<real>, hh: int)
    requires 0 <= hh < |args.g| && hh < |args.beta|
  {
    && Stored(x', At(args.d * args.d, hh, 0), args.d, 0, args.d, NextHead(args, x, hh))
    && forall c :: 0 <= c < args.d ==>
      0 <= At(args.d, hh, c) < |y| && y[At(args.d, hh, c)] == Output(args.d, args.scale, Slice(args.q, At(args.d, hh, 0)), NextHead(args, x, hh))(c)
  }

  lemma HeadFits(h: nat, d: nat, hh: int)
    requires 0 <= hh < h
    ensures 0 <= At(d * d, hh, 0) && At(d * d, hh + 1, 0) == At(d * d, hh, 0) + d * d <= h * (d * d)
    ensures 0 <= At(d, hh, 0) && At(d, hh + 1, 0) == At(d, hh, 0) + d <= h * d
  {
    assert (hh + 1) * (d * d) <= h * (d * d);
    assert (hh + 1) * d <= h * d;
  }

  lemma BlockIsStored(x0: seq<real>, x: seq<real>, base: int, d: nat)
    requires 0 <= base && base + d * d <= |x| && SameFrom(x0, x, base)
    ensures Stored(x, base, d, 0, d, Block(x0, base, d))
  {
    forall j, n | 0 <= j < d && 0 <= n < d
      ensures 0 <= base + At(d, j, n) < |x| && x[base + At(d, j, n)] == Block(x0, base, d)(j, n)
    {
      AtBound(d, d, j, n);
    }
  }

  /** Storage below `limit` is unchanged, and the block lies below it. */
  lemma StoredKept(x: seq<real>, x': seq<real>, base: int, d: nat, m: Mat, limit: int)
    requires Stored(x, base, d, 0, d, m) && base + d * d <= limit
    requires |x'| == |x| && forall c :: 0 <= c < limit && c < |x| ==> x'[c] == x[c]
    ensures Stored(x', base, d, 0, d, m)
  {
    forall j, n | 0 <= j < d && 0 <= n < d
      ensures 0 <= base + At(d, j, n) < |x'| && x'[base + At(d, j, n)] == m(j, n)
    {
      AtBound(d, d, j, n);
    }
  }

  lemma HeadKept(args: DeltaArgs, x0: seq<real>, x: seq<real>, x': seq<real>, y: seq<real>, y': seq<real>, hh: int, p: int)
    requires ValidArgs(args) && 0 <= p < hh < args.h && HeadStepped(args, x0, x, y, p)
    requires |x'| == |x| && forall c :: 0 <= c < |x| && c < At(args.d * args.d, hh, 0) ==> x'[c] == x[c]
    requires |y'| == |y| && forall c :: 0 <= c < |y| && c < At(args.d, hh, 0) ==> y'[c] == y[c]
    ensures HeadStepped(args, x0, x', y', p)
  {
    var d := args.d;
    if d > 0 {
      AtOrder(d * d, p, 0, hh, 0);
      StoredKept(x, x', At(d * d, p, 0), d, NextHead(args, x0, p), At(d * d, hh, 0));
      forall c | 0 <= c < d
        ensures 0 <= At(d, p, c) < |y'| && y'[At(d, p, c)] == y[At(d, p, c)]
      {
        AtOrder(d, p, c, hh, 0);
      }
    }
  }

  lemma HeadDone(args: DeltaArgs, x0: seq<real>, x': seq<real>, y: seq<real>, y': seq<real>, hh: int)
    requires ValidArgs(args) && 0 <= hh < args.h
    requires Stored(x', At(args.d * args.d, hh, 0), args.d, 0, args.d, NextHead(args, x0, hh))
    requires 0 <= At(args.d, hh, 0) && At(args.d, hh, 0) + args.d <= |y|
    requires Filled(y, y', At(args.d, hh, 0), args.d, Output(args.d, args.scale, Slice(args.q, At(args.d, hh, 0)), NextHead(args, x0, hh)))
    ensures HeadStepped(args, x0, x', y', hh)
  {
    forall c | 0 <= c < args.d
      ensures At(args.d, hh, c) == At(args.d, hh, 0) + c
    {
    }
  }

  // ----- The window of one convolution layer -----

  /** The entries of channel ch, one per tap or window position. */
  function Channel(x: seq<real>, c: int, ch: int): Vec {
    i => if 0 <= At(c, i, ch) < |x| then x[At(c, i, ch)] else 0.0
  }

  /** The weighted window plus the weighted new input. */
  function ConvSum(w: seq<real>, win: seq<real>, x: seq<real>, c: nat, dc: nat, ch: int): real
    requires 1 <= dc
  {
    Dot(dc - 1, Channel(w, c, ch), Channel(win, c, ch)) + Channel(w, c, ch)(dc - 1) * Slice(x, 0)(ch)
  }

  function ConvOutput(exp: real -> real, w: seq<real>, win: seq<real>, x: seq<real>, c: nat, dc: nat): Vec
    requires IsExp(exp) && 1 <= dc
  {
    ch => Activation(exp, ConvSum(w, win, x, c, dc, ch))
  }

  /** The oldest input dropped, the new one appended; storage past the window is kept. */
  function ShiftedWindow(win: seq<real>, x: seq<real>, c: nat, size: nat): seq<real>
    requires c <= size <= |win| && c <= |x|
  {
    win[c..size] + x[..c] + win[size..]
  }

  lemma WindowFits(c: nat, dc: nat)
    requires 2 <= dc
    ensures c <= (dc - 1) * c && (dc - 2) * c == (dc - 1) * c - c
  {
  }

  lemma TapFits(c: nat, taps: nat, i: int, ch: int)
    requires 0 <= i < taps && 0 <= ch < c
    ensures 0 <= At(c, i, ch) < taps * c
  {
    AtBound(c, taps, i, ch);
  }

  // ----- The gathered faces -----

  /** heads x hd x width for keys, heads x width x hd for values. */
  datatype FaceShape = FaceShape(heads: nat, hd: nat, width: nat)

  /** The key-value head that head h reads: heads come in groups of heads / kvHeads. */
  function GroupOf(shape: FaceShape, kvHeads: nat, h: int): int {
    if 0 < kvHeads <= shape.heads then (GroupSize(shape.heads, kvHeads); h / (shape.heads / kvHeads)) else 0
  }

  lemma GroupSize(heads: nat, kvHeads: nat)
    requires 0 < kvHeads <= heads
    ensures heads / kvHeads >= 1
  {
  }

  /** Grouping divides by nothing zero, and every group that is read is stored. */
  ghost predicate ValidGrouping(shape: FaceShape, kvHeads: nat) {
    && 0 < kvHeads && (shape.heads > 0 ==> kvHeads <= shape.heads)
    && forall h :: 0 <= h < shape.heads ==>
      0 <= At(shape.hd, GroupOf(shape, kvHeads, h), 0) && At(shape.hd, GroupOf(shape, kvHeads, h), 0) + shape.hd <= KV_ELEMS
  }

  /** Where element d of head h at position p lies in the face. */
  function Position(face: int, shape: FaceShape, h: int, d: int, p: int): int {
    if face == 0 then At(shape.width, At(shape.hd, h, d), p) else At(shape.hd, At(shape.width, h, p), d)
  }

  /** What belongs there. */
  function FaceEntry(shape: FaceShape, kvHeads: nat, cache: seq<seq<real>>): (int, int, int) -> real {
    (h, d, p) =>
      if 0 <= p < |cache| then
        Slice(cache[p], At(shape.hd, GroupOf(shape, kvHeads, h), 0))(d)
      else
        0.0
  }

  ghost predicate InFace(shape: FaceShape, h: int, d: int, p: int) {
    0 <= h < shape.heads && 0 <= d < shape.hd && 0 <= p < shape.width
  }

  ghost predicate Gathered(out: seq<real>, face: int, shape: FaceShape, kvHeads: nat, cache: seq<seq<real>>) {
    forall h, d, p {:trigger Position(face, shape, h, d, p)} :: InFace(shape, h, d, p) ==>
      && 0 <= Position(face, shape, h, d, p) < |out|
      && out[Position(face, shape, h, d, p)] == FaceEntry(shape, kvHeads, cache)(h, d, p)
  }

  /** The loops visit positions, then heads, then elements. */
  predicate Visited(h: int, d: int, p: int, atP: int, atH: int, atD: int) {
    p < atP || (p == atP && (h < atH || (h == atH && d < atD)))
  }

  ghost predicate Written(out: seq<real>, face: int, shape: FaceShape, target: (int, int, int) -> real, atP: int, atH: int, atD: int) {
    forall h, d, p {:trigger Position(face, shape, h, d, p)} :: InFace(shape, h, d, p) ==>
      && 0 <= Position(face, shape, h, d, p) < |out|
      && out[Position(face, shape, h, d, p)] == if Visited(h, d, p, atP, atH, atD) then target(h, d, p) else 0.0
  }

  lemma PositionFits(face: int, shape: FaceShape, h: int, d: int, p: int)
    requires InFace(shape, h, d, p)
    ensures 0 <= Position(face, shape, h, d, p) < shape.heads * shape.hd * shape.width
  {
    if face == 0 {
      AtBound(shape.hd, shape.heads, h, d);
      AtBound(shape.width, shape.heads * shape.hd, At(shape.hd, h, d), p);
    } else {
      AtBound(shape.width, shape.heads, h, p);
      AtBound(shape.hd, shape.heads * shape.width, At(shape.width, h, p), d);
      assert shape.heads * shape.width * shape.hd == shape.heads * shape.hd * shape.width;
    }
  }

  /** No two elements share a position. */
  lemma PositionInjective(face: int, shape: FaceShape, h: int, d: int, p: int, h': int, d': int, p': int)
    requires InFace(shape, h, d, p) && InFace(shape, h', d', p')
    requires Position(face, shape, h, d, p) == Position(face, shape, h', d', p')
    ensures h == h' && d == d' && p == p'
  {
    if face == 0 {
      AtInjective(shape.width, At(shape.hd, h, d), p, At(shape.hd, h', d'), p');
      AtInjective(shape.hd, h, d, h', d');
    } else {
      AtInjective(shape.hd, At(shape.width, h, p), d, At(shape.width, h', p'), d');
      AtInjective(shape.width, h, p, h', p');
    }
  }

  lemma StartsUnwritten(out: seq<real>, face: int, shape: FaceShape, target: (int, int, int) -> real)
    requires shape.heads * shape.hd * shape.width <= |out|
    requires forall f :: 0 <= f < shape.heads * shape.hd * shape.width ==> out[f] == 0.0
    ensures Written(out, face, shape, target, 0, 0, 0)
  {
    forall h, d, p | InFace(shape, h, d, p)
      ensures 0 <= Position(face, shape, h, d, p) < |out| && out[Position(face, shape, h, d, p)] == 0.0
    {
      PositionFits(face, shape, h, d, p);
    }
  }

  lemma WrittenStep(out: seq<real>, face: int, shape: FaceShape, target: (int, int, int) -> real, p: int, h: int, d: int)
    requires InFace(shape, h, d, p) && Written(out, face, shape, target, p, h, d)
    ensures Written(out[Position(face, shape, h, d, p) := target(h, d, p)], face, shape, target, p, h, d + 1)
  {
    var at := Position(face, shape, h, d, p);
    var out' := out[at := target(h, d, p)];
    forall h', d', p' | InFace(shape, h', d', p')
      ensures 0 <= Position(face, shape, h', d', p') < |out'|
      ensures out'[Position(face, shape, h', d', p')]
           == if Visited(h', d', p', p, h, d + 1) then target(h', d', p') else 0.0
    {
      if Position(face, shape, h', d', p') == at {
        PositionInjective(face, shape, h, d, p, h', d', p');
      }
    }
  }

  lemma AllPositionsTaken(out: seq<real>, face: int, shape: FaceShape, kvHeads: nat, cache: seq<seq<real>>, taken: nat)
    requires Written(out, face, shape, FaceEntry(shape, kvHeads, cache), taken, 0, 0)
    requires taken == if |cache| > shape.width then shape.width else |cache|
    ensures Gathered(out, face, shape, kvHeads, cache)
  {
  }

  // ----- The faces against the repeated heads -----

  /** Every key-value head is read by the same number of heads, and all are stored. */
  predicate EvenGroups(shape: FaceShape, kvHeads: nat) {
    0 < kvHeads <= shape.heads && shape.heads % kvHeads == 0 && kvHeads * shape.hd <= KV_ELEMS
  }

  lemma EvenGroupsAreValid(shape: FaceShape, kvHeads: nat)
    requires EvenGroups(shape, kvHeads)
    ensures ValidGrouping(shape, kvHeads)
  {
    var rep := shape.heads / kvHeads;
    GroupSize(shape.heads, kvHeads);
    forall h | 0 <= h < shape.heads
      ensures 0 <= At(shape.hd, h / rep, 0) && At(shape.hd, h / rep, 0) + shape.hd <= KV_ELEMS
    {
      QuotientBelow(h, kvHeads, rep);
      TimesGrows(h / rep + 1, kvHeads, shape.hd);
    }
  }

  /** The face holds the heads of every cached position, each repeated for its group: keys as
      heads x hd x width, values as heads x width x hd, zeros past the history. */
  ghost predicate HoldsHeads(out: seq<real>, face: int, shape: FaceShape, kvHeads: nat, cache: seq<seq<real>>)
    requires EvenGroups(shape, kvHeads) && forall p :: 0 <= p < |cache| ==> |cache[p]| == KV_ELEMS
  {
    forall h: nat, d: nat, p: nat :: h < shape.heads && d < shape.hd && p < shape.width ==>
      HoldsElement(out, face, shape, kvHeads, cache, h, d, p)
  }

  ghost predicate HoldsElement(out: seq<real>, face: int, shape: FaceShape, kvHeads: nat, cache: seq<seq<real>>, h: nat, d: nat, p: nat)
    requires EvenGroups(shape, kvHeads) && forall p :: 0 <= p < |cache| ==> |cache[p]| == KV_ELEMS
  {
    var at := if face == 0 then (h * shape.hd + d) * shape.width + p else (h * shape.width + p) * shape.hd + d;
    0 <= at < |out| && out[at] == if p < |cache| then HeadElement(shape, kvHeads, cache[p], h, d) else 0.0
  }

  /** Element d of head h of one position, after repeating its key-value heads. */
  function HeadElement(shape: FaceShape, kvHeads: nat, row: seq<real>, h: nat, d: nat): real
    requires EvenGroups(shape, kvHeads) && |row| == KV_ELEMS
  {
    var heads := RepeatInterleave(Heads(row, kvHeads, shape.hd), shape.heads / kvHeads);
    if h < |heads| && d < |heads[h]| then heads[h][d] else 0.0
  }

  lemma HeadElementIsSlice(shape: FaceShape, kvHeads: nat, row: seq<real>, h: nat, d: nat)
    requires EvenGroups(shape, kvHeads) && |row| == KV_ELEMS && h < shape.heads && d < shape.hd
    ensures HeadElement(shape, kvHeads, row, h, d) == Slice(row, At(shape.hd, GroupOf(shape, kvHeads, h), 0))(d)
  {
    var rep := shape.heads / kvHeads;
    GroupSize(shape.heads, kvHeads);
    GroupsTimesSize(shape.heads, kvHeads);
    GroupOfHead(Heads(row, kvHeads, shape.hd), rep, h);
    HeadAt(row, kvHeads, shape.hd, h / rep);
    ElementOfSlice(row, h / rep, shape.hd, d);
  }

  lemma GroupsTimesSize(heads: nat, kvHeads: nat)
    requires 0 < kvHeads && heads % kvHeads == 0
    ensures kvHeads * (heads / kvHeads) == heads
  {
  }

  lemma ElementOfSlice(row: seq<real>, g: nat, hd: nat, d: nat)
    requires 0 <= g * hd && (g + 1) * hd <= |row| && d < hd
    ensures g * hd + hd == (g + 1) * hd && row[g * hd..(g + 1) * hd][d] == Slice(row, At(hd, g, 0))(d)
  {
  }

  lemma GatheredHoldsHeads(out: seq<real>, face: int, shape: FaceShape, kvHeads: nat, cache: seq<seq<real>>)
    requires EvenGroups(shape, kvHeads) && forall p :: 0 <= p < |cache| ==> |cache[p]| == KV_ELEMS
    requires Gathered(out, face, shape, kvHeads, cache)
    ensures HoldsHeads(out, face, shape, kvHeads, cache)
  {
    forall h: nat, d: nat, p: nat | h < shape.heads && d < shape.hd && p < shape.width
      ensures HoldsElement(out, face, shape, kvHeads, cache, h, d, p)
    {
      assert InFace(shape, h, d, p);
      var at := Position(face, shape, h, d, p);
      assert out[at] == FaceEntry(shape, kvHeads, cache)(h, d, p);
      if p < |cache| {
        HeadElementIsSlice(shape, kvHeads, cache[p], h, d);
      }
    }
  }

  class HostDecodeState {
    const kvCount: array<nat>
    const kvK: array3<real>
    const kvV: array3<real>
    const convWin: array2<real>
    const deltaS: array2<real>

    ghost predicate Valid()
      reads kvCount
    {
      && kvCount.Length == N_KV && (forall i :: 0 <= i < N_KV ==> kvCount[i] <= KV_MAX)
      && kvK.Length0 == N_KV && kvK.Length1 == KV_MAX && kvK.Length2 == KV_ELEMS
      && kvV.Length0 == N_KV && kvV.Length1 == KV_MAX && kvV.Length2 == KV_ELEMS && kvK != kvV
      && convWin.Length0 == N_CONV && convWin.Length1 == (CONV_DC - 1) * CONV_C
      && deltaS.Length0 == N_DELTA && deltaS.Length1 == GDN_H * GDN_D * GDN_D && convWin != deltaS
    }

    /** A new sequence: every counter and every element is zero. */
    constructor ()
      ensures Valid() && fresh(kvCount) && fresh(kvK) && fresh(kvV) && fresh(convWin) && fresh(deltaS)
      ensures kvCount.Length == 6 && kvK.Length0 == 6 && kvK.Length1 == 64 && kvK.Length2 == 512
      ensures kvV.Length0 == 6 && kvV.Length1 == 64 && kvV.Length2 == 512
      ensures convWin.Length0 == 18 && convWin.Length1 == 3 * 6144 && deltaS.Length0 == 18 && deltaS.Length1 == 16 * 128 * 128
      ensures forall i :: 0 <= i < N_KV ==> Keys(i) == [] && Values(i) == []
      ensures forall i, c :: 0 <= i < N_CONV && 0 <= c < convWin.Length1 ==> convWin[i, c] == 0.0
      ensures forall i, c :: 0 <= i < N_DELTA && 0 <= c < deltaS.Length1 ==> deltaS[i, c] == 0.0
    {
      kvCount := new nat[N_KV](i => 0);
      kvK := new real[N_KV, KV_MAX, KV_ELEMS]((i, p, e) => 0.0);
      kvV := new real[N_KV, KV_MAX, KV_ELEMS]((i, p, e) => 0.0);
      convWin := new real[N_CONV, (CONV_DC - 1) * CONV_C]((i, c) => 0.0);
      deltaS := new real[N_DELTA, GDN_H * GDN_D * GDN_D]((i, c) => 0.0);
    }

    // ----- Keys and values -----

    /** The keys appended to layer idx, oldest first. */
    ghost function Keys(idx: int): seq<seq<real>>
      requires Valid() && 0 <= idx < N_KV
      reads kvCount, kvK
    {
      Faces(kvK, idx, kvCount[idx])
    }

    ghost function Values(idx: int): seq<seq<real>>
      requires Valid() && 0 <= idx < N_KV
      reads kvCount, kvV
    {
      Faces(kvV, idx, kvCount[idx])
    }

    method KvAppend(idx: int, k: seq<real>, v: seq<real>, elems: int) returns (ok: bool)
      requires Valid() && elems <= |k| && elems <= |v|
      modifies kvCount, kvK, kvV
      ensures Valid()
      ensures ok == (0 <= idx < N_KV && elems == KV_ELEMS && |old(Keys(idx))| < KV_MAX)
      ensures ok ==> Keys(idx) == old(Keys(idx)) + [k[..elems]] && Values(idx) == old(Values(idx)) + [v[..elems]]
      ensures forall i :: 0 <= i < N_KV && !(ok && i == idx) ==> Keys(i) == old(Keys(i)) && Values(i) == old(Values(i))
    {
      if idx < 0 || idx >= N_KV || elems != KV_ELEMS {
        return false;
      }
      var c := kvCount[idx];
      if c >= KV_MAX {
        return false;
      }
      WriteFace(kvK, idx, c, k[..elems]);
      WriteFace(kvV, idx, c, v[..elems]);
      kvCount[idx] := c + 1;
      return true;
    }

    // ----- Gated delta rule -----

    /** S *= a on one row, and the product of the row with k. */
    method DecayRow(idx: int, row: int, d: nat, a: real, kh: Vec, ghost r: Vec, ghost w: Vec) returns (sum: real)
      requires Valid() && 0 <= idx < N_DELTA && 0 <= row && row + d <= deltaS.Length1
      requires forall c :: row <= c < row + d ==> deltaS[idx, c] == r(c - row)
      requires forall n :: 0 <= n < d ==> w(n) == a * r(n)
      modifies deltaS
      ensures RowWritten(old(RowOf(deltaS, idx)), RowOf(deltaS, idx), row, d, w)
      ensures forall i :: 0 <= i < N_DELTA && i != idx ==> RowOf(deltaS, i) == old(RowOf(deltaS, i))
      ensures sum == Dot(d, w, kh)
    {
      sum := 0.0;
      for n := 0 to d
        invariant forall c :: 0 <= c < deltaS.Length1 ==>
          deltaS[idx, c] == if row <= c < row + n then w(c - row) else old(deltaS[idx, c])
        invariant forall i, c :: 0 <= i < N_DELTA && i != idx && 0 <= c < deltaS.Length1 ==> deltaS[i, c] == old(deltaS[i, c])
        invariant sum == Sum(n, Product(w, kh))
      {
        assert w(n) == a * r(n);
        deltaS[idx, row + n] := deltaS[idx, row + n] * a;
        sum := sum + deltaS[idx, row + n] * kh(n);
      }
    }

    /** S += dj k on one row, and the product of the row with q. */
    method CorrectRow(idx: int, row: int, d: nat, dj: real, kh: Vec, qh: Vec, ghost r: Vec, ghost w: Vec)
      returns (sum: real)
      requires Valid() && 0 <= idx < N_DELTA && 0 <= row && row + d <= deltaS.Length1
      requires forall c :: row <= c < row + d ==> deltaS[idx, c] == r(c - row)
      requires forall n :: 0 <= n < d ==> w(n) == r(n) + dj * kh(n)
      modifies deltaS
      ensures RowWritten(old(RowOf(deltaS, idx)), RowOf(deltaS, idx), row, d, w)
      ensures forall i :: 0 <= i < N_DELTA && i != idx ==> RowOf(deltaS, i) == old(RowOf(deltaS, i))
      ensures sum == Dot(d, w, qh)
    {
      sum := 0.0;
      for n := 0 to d
        invariant forall c :: 0 <= c < deltaS.Length1 ==>
          deltaS[idx, c] == if row <= c < row + n then w(c - row) else old(deltaS[idx, c])
        invariant forall i, c :: 0 <= i < N_DELTA && i != idx && 0 <= c < deltaS.Length1 ==> deltaS[i, c] == old(deltaS[i, c])
        invariant sum == Sum(n, Product(w, qh))
      {
        deltaS[idx, row + n] := deltaS[idx, row + n] + dj * kh(n);
        sum := sum + deltaS[idx, row + n] * qh(n);
      }
    }

    method DecayBlockRow(idx: int, base: int, d: nat, j: int, a: real, kh: Vec, ghost x0: seq<real>, ghost s: Mat)
      returns (sum: real)
      requires Valid() && 0 <= idx < N_DELTA && 0 <= base && base + d * d <= deltaS.Length1 && 0 <= j < d
      requires SameOutside(x0, RowOf(deltaS, idx), base, d * d)
      requires Stored(RowOf(deltaS, idx), base, d, 0, j, Decayed(a, s)) && Stored(RowOf(deltaS, idx), base, d, j, d, s)
      modifies deltaS
      ensures Stored(RowOf(deltaS, idx), base, d, 0, j + 1, Decayed(a, s))
      ensures Stored(RowOf(deltaS, idx), base, d, j + 1, d, s)
      ensures SameOutside(x0, RowOf(deltaS, idx), base, d * d)
      ensures forall i :: 0 <= i < N_DELTA && i != idx ==> RowOf(deltaS, i) == old(RowOf(deltaS, i))
      ensures sum == MatVec(d, Decayed(a, s), kh)(j)
    {
      ghost var x := RowOf(deltaS, idx);
      RowInBlock(x, base, d, j, s);
      sum := DecayRow(idx, base + At(d, j, 0), d, a, kh, Row(s, j), Row(Decayed(a, s), j));
      PassStep(x0, x, RowOf(deltaS, idx), base, d, j, s, Decayed(a, s));
    }

    method CorrectBlockRow(idx: int, base: int, d: nat, j: int, beta: real, yk: real, scale: real, kh: Vec, vh: Vec, qh: Vec,
                           ghost x0: seq<real>, ghost a: real, ghost s: Mat)
      returns (out: real)
      requires Valid() && 0 <= idx < N_DELTA && 0 <= base && base + d * d <= deltaS.Length1 && 0 <= j < d
      requires SameOutside(x0, RowOf(deltaS, idx), base, d * d)
      requires Stored(RowOf(deltaS, idx), base, d, 0, j, Next(d, a, beta, kh, vh, s))
      requires Stored(RowOf(deltaS, idx), base, d, j, d, Decayed(a, s))
      requires yk == MatVec(d, Decayed(a, s), kh)(j)
      modifies deltaS
      ensures Stored(RowOf(deltaS, idx), base, d, 0, j + 1, Next(d, a, beta, kh, vh, s))
      ensures Stored(RowOf(deltaS, idx), base, d, j + 1, d, Decayed(a, s))
      ensures SameOutside(x0, RowOf(deltaS, idx), base, d * d)
      ensures forall i :: 0 <= i < N_DELTA && i != idx ==> RowOf(deltaS, i) == old(RowOf(deltaS, i))
      ensures out == Output(d, scale, qh, Next(d, a, beta, kh, vh, s))(j)
    {
      ghost var x, decayed, next := RowOf(deltaS, idx), Decayed(a, s), Next(d, a, beta, kh, vh, s);
      var row := base + At(d, j, 0);
      assert row + d <= |x| && forall c :: row <= c < row + d ==> deltaS[idx, c] == Row(decayed, j)(c - row) by {
        RowInBlock(x, base, d, j, decayed);
      }
      var dj := beta * (vh(j) - yk);
      assert forall n :: 0 <= n < d ==> Row(next, j)(n) == Row(decayed, j)(n) + dj * kh(n) by {
        NextRow(d, a, beta, kh, vh, s, j, yk, dj);
      }
      var sum := CorrectRow(idx, row, d, dj, kh, qh, Row(decayed, j), Row(next, j));
      PassStep(x0, x, RowOf(deltaS, idx), base, d, j, decayed, next);
      OutputEntry(d, scale, qh, next, j, sum);
      out := sum * scale;
    }

    /** First pass over the rows: the decayed state, and S k left in y. */
    method DecayPass(idx: int, base: int, d: nat, a: real, kh: Vec, y: array<real>, yBase: int, ghost s: Mat)
      requires Valid() && 0 <= idx < N_DELTA && 0 <= base && base + d * d <= deltaS.Length1
      requires 0 <= yBase && yBase + d <= y.Length
      requires Stored(RowOf(deltaS, idx), base, d, 0, d, s)
      modifies deltaS, y
      ensures Stored(RowOf(deltaS, idx), base, d, 0, d, Decayed(a, s))
      ensures SameOutside(old(RowOf(deltaS, idx)), RowOf(deltaS, idx), base, d * d)
      ensures forall i :: 0 <= i < N_DELTA && i != idx ==> RowOf(deltaS, i) == old(RowOf(deltaS, i))
      ensures Filled(old(y[..]), y[..], yBase, d, MatVec(d, Decayed(a, s), kh))
    {
      ghost var x0, decayed := RowOf(deltaS, idx), Decayed(a, s);
      for j := 0 to d
        invariant Stored(RowOf(deltaS, idx), base, d, 0, j, decayed)
        invariant Stored(RowOf(deltaS, idx), base, d, j, d, s)
        invariant SameOutside(x0, RowOf(deltaS, idx), base, d * d)
        invariant forall i :: 0 <= i < N_DELTA && i != idx ==> RowOf(deltaS, i) == old(RowOf(deltaS, i))
        invariant Filled(old(y[..]), y[..], yBase, j, MatVec(d, decayed, kh))
      {
        ghost var y0 := y[..];
        var sum := DecayBlockRow(idx, base, d, j, a, kh, x0, s);
        assert y[..] == y0;
        y[yBase + j] := sum;
        assert y[..] == y0[yBase + j := sum];
        FilledStep(old(y[..]), y0, yBase, j, MatVec(d, decayed, kh));
      }
    }

    /** Second pass: the correction by beta (v - S k), and the output in its place in y. */
    method CorrectPass(idx: int, base: int, d: nat, beta: real, scale: real, kh: Vec, vh: Vec, qh: Vec,
                       y: array<real>, yBase: int, ghost a: real, ghost s: Mat)
      requires Valid() && 0 <= idx < N_DELTA && 0 <= base && base + d * d <= deltaS.Length1
      requires 0 <= yBase && yBase + d <= y.Length
      requires Stored(RowOf(deltaS, idx), base, d, 0, d, Decayed(a, s))
      requires forall c :: yBase <= c < yBase + d ==> y[c] == MatVec(d, Decayed(a, s), kh)(c - yBase)
      modifies deltaS, y
      ensures Stored(RowOf(deltaS, idx), base, d, 0, d, Next(d, a, beta, kh, vh, s))
      ensures SameOutside(old(RowOf(deltaS, idx)), RowOf(deltaS, idx), base, d * d)
      ensures forall i :: 0 <= i < N_DELTA && i != idx ==> RowOf(deltaS, i) == old(RowOf(deltaS, i))
      ensures Filled(old(y[..]), y[..], yBase, d, Output(d, scale, qh, Next(d, a, beta, kh, vh, s)))
    {
      ghost var x0, next := RowOf(deltaS, idx), Next(d, a, beta, kh, vh, s);
      for j := 0 to d
        invariant Stored(RowOf(deltaS, idx), base, d, 0, j, next)
        invariant Stored(RowOf(deltaS, idx), base, d, j, d, Decayed(a, s))
        invariant SameOutside(x0, RowOf(deltaS, idx), base, d * d)
        invariant forall i :: 0 <= i < N_DELTA && i != idx ==> RowOf(deltaS, i) == old(RowOf(deltaS, i))
        invariant Filled(old(y[..]), y[..], yBase, j, Output(d, scale, qh, next))
      {
        ghost var y0 := y[..];
        assert y0[yBase + j] == old(y[..])[yBase + j];
        var out := CorrectBlockRow(idx, base, d, j, beta, y[yBase + j], scale, kh, vh, qh, x0, a, s);
        assert y[..] == y0;
        y[yBase + j] := out;
        assert y[..] == y0[yBase + j := out];
        FilledStep(old(y[..]), y0, yBase, j, Output(d, scale, qh, next));
      }
    }

    method DeltaHead(idx: int, base: int, d: nat, a: real, beta: real, scale: real, kh: Vec, vh: Vec, qh: Vec,
                     y: array<real>, yBase: int, ghost s: Mat)
      requires Valid() && 0 <= idx < N_DELTA && 0 <= base && base + d * d <= deltaS.Length1
      requires 0 <= yBase && yBase + d <= y.Length
      requires Stored(RowOf(deltaS, idx), base, d, 0, d, s)
      modifies deltaS, y
      ensures Stored(RowOf(deltaS, idx), base, d, 0, d, Next(d, a, beta, kh, vh, s))
      ensures SameOutside(old(RowOf(deltaS, idx)), RowOf(deltaS, idx), base, d * d)
      ensures forall i :: 0 <= i < N_DELTA && i != idx ==> RowOf(deltaS, i) == old(RowOf(deltaS, i))
      ensures Filled(old(y[..]), y[..], yBase, d, Output(d, scale, qh, Next(d, a, beta, kh, vh, s)))
    {
      DecayPass(idx, base, d, a, kh, y, yBase, s);
      assert forall c :: yBase <= c < yBase + d ==> y[..][c] == MatVec(d, Decayed(a, s), kh)(c - yBase);
      CorrectPass(idx, base, d, beta, scale, kh, vh, qh, y, yBase, a, s);
    }

    method DeltaStepHead(idx: int, args: DeltaArgs, hh: int, y: array<real>, ghost x0: seq<real>, ghost y0: seq<real>)
      requires Valid() && 0 <= idx < N_DELTA && ValidArgs(args) && 0 <= hh < args.h
      requires args.h * (args.d * args.d) <= GDN_H * GDN_D * GDN_D && args.h * args.d <= y.Length
      requires SameFrom(x0, RowOf(deltaS, idx), At(args.d * args.d, hh, 0)) && SameFrom(y0, y[..], At(args.d, hh, 0))
      requires forall p :: 0 <= p < hh ==> HeadStepped(args, x0, RowOf(deltaS, idx), y[..], p)
      modifies deltaS, y
      ensures SameFrom(x0, RowOf(deltaS, idx), At(args.d * args.d, hh + 1, 0)) && SameFrom(y0, y[..], At(args.d, hh + 1, 0))
      ensures forall p :: 0 <= p < hh + 1 ==> HeadStepped(args, x0, RowOf(deltaS, idx), y[..], p)
      ensures forall i :: 0 <= i < N_DELTA && i != idx ==> RowOf(deltaS, i) == old(RowOf(deltaS, i))
    {
      var d := args.d;
      var base, yBase := At(d * d, hh, 0), At(d, hh, 0);
      HeadFits(args.h, d, hh);
      ghost var x, was := RowOf(deltaS, idx), y[..];
      BlockIsStored(x0, x, base, d);
      DeltaHead(idx, base, d, args.exp(args.g[hh]), args.beta[hh], args.scale,
                Slice(args.k, yBase), Slice(args.v, yBase), Slice(args.q, yBase), y, yBase, Block(x0, base, d));
      HeadDone(args, x0, RowOf(deltaS, idx), was, y[..], hh);
      forall p | 0 <= p < hh {
        HeadKept(args, x0, x, RowOf(deltaS, idx), was, y[..], hh, p);
      }
    }

    /** One decode step of a delta layer, head after head. */
    method DeltaStep(idx: int, args: DeltaArgs, y: array<real>)
      requires Valid() && 0 <= idx < N_DELTA && ValidArgs(args)
      requires args.h * (args.d * args.d) <= GDN_H * GDN_D * GDN_D && args.h * args.d <= y.Length
      modifies deltaS, y
      ensures forall hh :: 0 <= hh < args.h ==> HeadStepped(args, old(RowOf(deltaS, idx)), RowOf(deltaS, idx), y[..], hh)
      ensures SameFrom(old(RowOf(deltaS, idx)), RowOf(deltaS, idx), At(args.d * args.d, args.h, 0))
      ensures forall i :: 0 <= i < N_DELTA && i != idx ==> RowOf(deltaS, i) == old(RowOf(deltaS, i))
      ensures SameFrom(old(y[..]), y[..], At(args.d, args.h, 0))
    {
      ghost var x0, y0 := RowOf(deltaS, idx), y[..];
      for hh := 0 to args.h
        invariant SameFrom(x0, RowOf(deltaS, idx), At(args.d * args.d, hh, 0)) && SameFrom(y0, y[..], At(args.d, hh, 0))
        invariant forall p :: 0 <= p < hh ==> HeadStepped(args, x0, RowOf(deltaS, idx), y[..], p)
        invariant forall i :: 0 <= i < N_DELTA && i != idx ==> RowOf(deltaS, i) == old(RowOf(deltaS, i))
      {
        DeltaStepHead(idx, args, hh, y, x0, y0);
      }
    }

    // ----- Causal convolution -----

    /** One decode step of a convolution layer: outputs from the window and the new input,
        then the window moves on by one input. */
    method ConvStep(idx: int, c: nat, dc: nat, exp: real -> real, w: seq<real>, x: seq<real>, y: array<real>)
      requires Valid() && 0 <= idx < N_CONV && IsExp(exp)
      requires 2 <= dc && (dc - 1) * c <= convWin.Length1 && dc * c <= |w| && c <= |x| && c <= y.Length
      modifies convWin, y
      ensures c <= (dc - 1) * c && RowOf(convWin, idx) == ShiftedWindow(old(RowOf(convWin, idx)), x, c, (dc - 1) * c)
      ensures forall i :: 0 <= i < N_CONV && i != idx ==> RowOf(convWin, i) == old(RowOf(convWin, i))
      ensures Filled(old(y[..]), y[..], 0, c, ConvOutput(exp, w, old(RowOf(convWin, idx)), x, c, dc))
    {
      ghost var out := ConvOutput(exp, w, RowOf(convWin, idx), x, c, dc);
      for ch := 0 to c
        modifies y
        invariant Filled(old(y[..]), y[..], 0, ch, out)
      {
        ghost var y0 := y[..];
        var s := WindowSum(idx, c, dc, ch, w);
        TapFits(c, dc, dc - 1, ch);
        s := s + w[At(c, dc - 1, ch)] * x[ch];
        assert s == ConvSum(w, RowOf(convWin, idx), x, c, dc, ch);
        y[ch] := HostSilu(exp, s);
        assert y[..] == y0[ch := out(ch)];
        FilledStep(old(y[..]), y0, 0, ch, out);
      }
      WindowFits(c, dc);
      MoveWindow(idx, c, (dc - 1) * c, (dc - 2) * c, x);
    }

    method WindowSum(idx: int, c: nat, dc: nat, ch: int, w: seq<real>) returns (s: real)
      requires Valid() && 0 <= idx < N_CONV && 1 <= dc && 0 <= ch < c
      requires (dc - 1) * c <= convWin.Length1 && dc * c <= |w|
      ensures s == Dot(dc - 1, Channel(w, c, ch), Channel(RowOf(convWin, idx), c, ch))
    {
      s := 0.0;
      for i := 0 to dc - 1
        invariant s == Sum(i, Product(Channel(w, c, ch), Channel(RowOf(convWin, idx), c, ch)))
      {
        TapFits(c, dc - 1, i, ch);
        TapFits(c, dc, i, ch);
        s := s + w[At(c, i, ch)] * convWin[idx, At(c, i, ch)];
      }
    }

    /** memmove of the window by one input, memcpy of the new input behind it. */
    method MoveWindow(idx: int, c: nat, size: nat, kept: nat, x: seq<real>)
      requires Valid() && 0 <= idx < N_CONV && kept + c == size <= convWin.Length1 && c <= |x|
      modifies convWin
      ensures RowOf(convWin, idx) == ShiftedWindow(old(RowOf(convWin, idx)), x, c, size)
      ensures forall i :: 0 <= i < N_CONV && i != idx ==> RowOf(convWin, i) == old(RowOf(convWin, i))
    {
      var win := RowOf(convWin, idx);
      ghost var shifted := ShiftedWindow(win, x, c, size);
      forall e | 0 <= e < kept {
        convWin[idx, e] := win[c..size][e];
      }
      forall e | kept <= e < size {
        convWin[idx, e] := x[..c][e - kept];
      }
      assert forall e :: 0 <= e < |win| ==> convWin[idx, e] == shifted[e];
    }

    // ----- Gathering keys and values -----

    /** The fixed-width face of a layer: keys transposed per head when `face` is 0, values
        otherwise, each head reading the key-value head of its group, zeros past the
        history. */
    method KvGather(idx: int, face: int, shape: FaceShape, kvHeads: nat, out: array<real>)
      requires Valid() && ValidGrouping(shape, kvHeads) && shape.heads * shape.hd * shape.width <= out.Length
      modifies out
      ensures Gathered(out[..], face, shape, kvHeads,
                       if 0 <= idx < N_KV then if face == 0 then Keys(idx) else Values(idx) else [])
      ensures 0 < kvHeads <= shape.heads && shape.heads % kvHeads == 0 && kvHeads * shape.hd <= 512 ==> HoldsHeads(out[..], face, shape, kvHeads,
                       if 0 <= idx < N_KV then if face == 0 then Keys(idx) else Values(idx) else [])
      ensures SameFrom(old(out[..]), out[..], shape.heads * shape.hd * shape.width)
    {
      GatherFace(idx, face, shape, kvHeads, out);
      if EvenGroups(shape, kvHeads) {
        GatheredHoldsHeads(out[..], face, shape, kvHeads, if 0 <= idx < N_KV then if face == 0 then Keys(idx) else Values(idx) else []);
      }
    }

    method GatherFace(idx: int, face: int, shape: FaceShape, kvHeads: nat, out: array<real>)
      requires Valid() && ValidGrouping(shape, kvHeads) && shape.heads * shape.hd * shape.width <= out.Length
      modifies out
      ensures Gathered(out[..], face, shape, kvHeads,
                       if 0 <= idx < N_KV then if face == 0 then Keys(idx) else Values(idx) else [])
      ensures SameFrom(old(out[..]), out[..], shape.heads * shape.hd * shape.width)
    {
      var total := shape.heads * shape.hd * shape.width;
      forall f | 0 <= f < total {
        out[f] := 0.0;
      }
      ghost var cache := if 0 <= idx < N_KV then if face == 0 then Keys(idx) else Values(idx) else [];
      ghost var target := FaceEntry(shape, kvHeads, cache);
      StartsUnwritten(out[..], face, shape, target);
      if idx < 0 || idx >= N_KV {
        AllPositionsTaken(out[..], face, shape, kvHeads, [], 0);
        return;
      }
      var nkv := kvCount[idx];
      if nkv > shape.width {
        nkv := shape.width;
      }
      for p := 0 to nkv
        invariant Written(out[..], face, shape, target, p, 0, 0)
        invariant SameFrom(old(out[..]), out[..], total)
      {
        for h := 0 to shape.heads
          invariant Written(out[..], face, shape, target, p, h, 0)
          invariant SameFrom(old(out[..]), out[..], total)
        {
          GatherHead(idx, face, shape, kvHeads, p, h, out, cache);
        }
      }
      AllPositionsTaken(out[..], face, shape, kvHeads, cache, nkv);
    }

    method GatherHead(idx: int, face: int, shape: FaceShape, kvHeads: nat, p: nat, h: nat, out: array<real>,
                      ghost cache: seq<seq<real>>)
      requires Valid() && 0 <= idx < N_KV && ValidGrouping(shape, kvHeads) && h < shape.heads
      requires p < kvCount[idx] && p < shape.width && shape.heads * shape.hd * shape.width <= out.Length
      requires cache == if face == 0 then Keys(idx) else Values(idx)
      requires Written(out[..], face, shape, FaceEntry(shape, kvHeads, cache), p, h, 0)
      modifies out
      ensures Written(out[..], face, shape, FaceEntry(shape, kvHeads, cache), p, h + 1, 0)
      ensures SameFrom(old(out[..]), out[..], shape.heads * shape.hd * shape.width)
    {
      ghost var target := FaceEntry(shape, kvHeads, cache);
      for d := 0 to shape.hd
        invariant Written(out[..], face, shape, target, p, h, d)
        invariant SameFrom(old(out[..]), out[..], shape.heads * shape.hd * shape.width)
      {
        var x := FaceElement(idx, face, shape, kvHeads, p, h, d);
        WriteElement(face, shape, out, p, h, d, x, target);
      }
    }

    method FaceElement(idx: int, face: int, shape: FaceShape, kvHeads: nat, p: nat, h: nat, d: nat) returns (x: real)
      requires Valid() && 0 <= idx < N_KV && ValidGrouping(shape, kvHeads) && h < shape.heads && d < shape.hd
      requires p < kvCount[idx]
      ensures x == FaceEntry(shape, kvHeads, if face == 0 then Keys(idx) else Values(idx))(h, d, p)
    {
      GroupSize(shape.heads, kvHeads);
      var src := At(shape.hd, h / (shape.heads / kvHeads), 0);
      assert src == At(shape.hd, GroupOf(shape, kvHeads, h), 0);
      x := if face == 0 then kvK[idx, p, src + d] else kvV[idx, p, src + d];
      ghost var row := if face == 0 then Keys(idx)[p] else Values(idx)[p];
      assert x == row[src + d] == Slice(row, src)(d);
    }
  }

  method WriteElement(face: int, shape: FaceShape, out: array<real>, p: nat, h: nat, d: nat, x: real,
                      ghost target: (int, int, int) -> real)
    requires InFace(shape, h, d, p) && shape.heads * shape.hd * shape.width <= out.Length
    requires Written(out[..], face, shape, target, p, h, d) && x == target(h, d, p)
    modifies out
    ensures Written(out[..], face, shape, target, p, h, d + 1)
    ensures SameFrom(old(out[..]), out[..], shape.heads * shape.hd * shape.width)
  {
    PositionFits(face, shape, h, d, p);
    ghost var total := shape.heads * shape.hd * shape.width;
    var at := Position(face, shape, h, d, p);
    assert at < total;
    out[at] := x;
    assert out[..] == old(out[..])[at := x];
    assert SameFrom(old(out[..]), out[..], total);
    WrittenStep(old(out[..]), face, shape, target, p, h, d);
  }
}
