/** Decoding attention over gathered fixed-width faces against one row of causal
    grouped-query attention over the whole sequence.
 */
module Attention {
  import opened Options
  import opened Exponential
  import opened Sums
  import opened HostDecodeState

  /** Scores and masks live in the reals extended by minus infinity. */
  datatype Score = MinusInfinity | Finite(r: real)

  function Add(a: Score, b: Score): Score {
    if a.Finite? && b.Finite? then Finite(a.r + b.r) else MinusInfinity
  }

  function ExpScore(exp: real -> real, s: Score): real {
    if s.Finite? then exp(s.r) else 0.0
  }

  function Weight(exp: real -> real, scores: int -> Score): Vec {
    i => ExpScore(exp, scores(i))
  }

  /** A probability-weighted sum of the rows of v, the weights being the softmax of n scores. */
  function Attend(exp: real -> real, n: nat, scores: int -> Score, v: Mat, c: int): real
    requires Sum(n, Weight(exp, scores)) > 0.0
  {
    Sum(n, Contributions(exp, Sum(n, Weight(exp, scores)), scores, v, c))
  }

  function Contributions(exp: real -> real, total: real, scores: int -> Score, v: Mat, c: int): Vec
    requires total > 0.0
  {
    i => Weight(exp, scores)(i) / total * v(i, c)
  }

  /** Scores of minus infinity contribute nothing, so the width does not matter. */
  lemma AttendIgnoresMasked(exp: real -> real, m: nat, n: nat, s: int -> Score, n': nat, s': int -> Score, v: Mat, v': Mat, c: int)
    requires IsExp(exp) && 0 < m <= n && m <= n'
    requires forall i :: 0 <= i < m ==> s(i) == s'(i) && s(i).Finite? && v(i, c) == v'(i, c)
    requires forall i :: m <= i < n ==> s(i) == MinusInfinity
    requires forall i :: m <= i < n' ==> s'(i) == MinusInfinity
    ensures Sum(n, Weight(exp, s)) > 0.0 && Sum(n', Weight(exp, s')) > 0.0
    ensures Attend(exp, n, s, v, c) == Attend(exp, n', s', v', c)
  {
    var w, w' := Weight(exp, s), Weight(exp, s');
    SumTruncate(m, n, w);
    SumTruncate(m, n', w');
    SumEq(m, w, w');
    FiniteScoresWeigh(exp, m, s);
    var total := Sum(m, w);
    var f, f' := Contributions(exp, total, s, v, c), Contributions(exp, total, s', v', c);
    MaskedContributesNothing(exp, total, m, n, s, v, c);
    MaskedContributesNothing(exp, total, m, n', s', v', c);
    forall i | 0 <= i < m
      ensures f(i) == f'(i)
    {
    }
    SumEq(m, f, f');
  }

  lemma {:induction false} FiniteScoresWeigh(exp: real -> real, m: nat, s: int -> Score)
    requires IsExp(exp) && 0 < m && forall i :: 0 <= i < m ==> s(i).Finite?
    ensures Sum(m, Weight(exp, s)) > 0.0
    decreases m
  {
    assert ExpLaw(exp, s(m - 1).r, 0.0);
    if m > 1 {
      FiniteScoresWeigh(exp, m - 1, s);
    }
  }

  lemma MaskedContributesNothing(exp: real -> real, total: real, m: nat, n: nat, s: int -> Score, v: Mat, c: int)
    requires total > 0.0 && m <= n && forall i :: m <= i < n ==> s(i) == MinusInfinity
    ensures Sum(n, Contributions(exp, total, s, v, c)) == Sum(m, Contributions(exp, total, s, v, c))
  {
    var f := Contributions(exp, total, s, v, c);
    forall i | m <= i < n
      ensures f(i) == 0.0
    {
      assert Weight(exp, s)(i) == 0.0;
    }
    SumTruncate(m, n, f);
  }

  /** The weights are those of an average: where all rows agree, so does the result. */
  lemma AttendAverages(exp: real -> real, n: nat, s: int -> Score, v: Mat, c: int, x: real)
    requires Sum(n, Weight(exp, s)) > 0.0 && forall i :: 0 <= i < n ==> v(i, c) == x
    ensures Attend(exp, n, s, v, c) == x
  {
    var w := Weight(exp, s);
    var total := Sum(n, w);
    var f := Contributions(exp, total, s, v, c);
    forall i | 0 <= i < n
      ensures f(i) == (x / total) * w(i)
    {
      Regroup(w(i), total, x);
    }
    SumScale(n, x / total, w, f);
  }

  lemma Regroup(w: real, total: real, x: real)
    requires total > 0.0
    ensures w / total * x == (x / total) * w
  {
  }

  function Shifted(s: int -> Score, k: real): int -> Score {
    i => Add(s(i), Finite(k))
  }

  /** Only differences of scores count. */
  lemma ShiftChangesNothing(exp: real -> real, n: nat, s: int -> Score, k: real, v: Mat, c: int)
    requires IsExp(exp) && Sum(n, Weight(exp, s)) > 0.0
    ensures Sum(n, Weight(exp, Shifted(s, k))) > 0.0 && Attend(exp, n, Shifted(s, k), v, c) == Attend(exp, n, s, v, c)
  {
    var w, w' := Weight(exp, s), Weight(exp, Shifted(s, k));
    forall i
      ensures w'(i) == exp(k) * w(i)
    {
      if s(i).Finite? {
        ExpSum(exp, s(i).r, k, s(i).r + k);
        assert Shifted(s, k)(i) == Finite(s(i).r + k);
      } else {
        assert w(i) == 0.0 && w'(i) == 0.0;
      }
    }
    assert ExpLaw(exp, k, 0.0);
    SumScale(n, exp(k), w, w');
    var t, t' := Sum(n, w), Sum(n, w');
    var f, f' := Contributions(exp, t, s, v, c), Contributions(exp, t', Shifted(s, k), v, c);
    forall i | 0 <= i < n
      ensures f(i) == f'(i)
    {
      Cancels(exp(k), w(i), t, v(i, c));
    }
    SumEq(n, f, f');
  }

  lemma Cancels(e: real, w: real, total: real, x: real)
    requires e > 0.0 && total > 0.0
    ensures e * total > 0.0 && w / total * x == (e * w) / (e * total) * x
  {
    var q := w / total;
    assert q * total == w;
    assert q * (e * total) == e * w;
  }

  // ----- The input face of one decode position (scripts/persistent_runtime.py:47-59) -----

  const MAX_POS := 64
  const ROT_HALF := 32

  /** [cos|cos | sin|sin | mask], the mask additive: zero up to the position, then minus
      infinity. */
  method MakeFace(position: int, cos: seq<real>, sin: seq<real>) returns (face: Option<seq<Score>>)
    requires |cos| == ROT_HALF && |sin| == ROT_HALF
    ensures face.Some? <==> 0 <= position < 64
    ensures face.Some? ==> |face.value| == 192 && face.value[128..] == seq(64, i => if i <= position then Finite(0.0) else MinusInfinity)
    ensures face.Some? ==> forall i :: 0 <= i < 64 ==> face.value[i] == Finite(cos[i % 32])
    ensures face.Some? ==> forall i :: 64 <= i < 128 ==> face.value[i] == Finite(sin[i % 32])
  {
    if !(0 <= position < MAX_POS) {
      return None;
    }
    var h := new Score[192](i => Finite(0.0));
    var c, s := cos + cos, sin + sin;
    forall i | 0 <= i < 64 {
      h[i] := Finite(c[i]);
    }
    forall i | 0 <= i < 64 {
      h[64 + i] := Finite(s[i]);
    }
    forall i | position + 1 <= i < MAX_POS {
      h[128 + i] := MinusInfinity;
    }
    return Some(h[..]);
  }

  function CausalMask(position: int): int -> Score {
    i => if i <= position then Finite(0.0) else MinusInfinity
  }

  // ----- One row of grouped-query attention -----

  /** q . k * scaling + mask, at position i of a sequence of keys. */
  function CausalScore(q: Vec, keys: Mat, hd: nat, scaling: real, mask: Score, i: int): Score {
    Add(Finite(Dot(hd, q, Row(keys, i)) * scaling), mask)
  }

  function CausalScores(q: Vec, keys: Mat, hd: nat, scaling: real, mask: int -> Score): int -> Score {
    i => CausalScore(q, keys, hd, scaling, mask(i), i)
  }

  /** q . k_i scaling. */
  function Scaled(scaling: real, q: Vec, keys: Mat, hd: nat, i: int): real {
    Dot(hd, q, Row(keys, i)) * scaling
  }

  /** The exponential of that, and that times element c of row i of the values. */
  function RowWeight(exp: real -> real, scaling: real, q: Vec, keys: Mat, hd: nat): Vec {
    i => exp(Scaled(scaling, q, keys, hd, i))
  }

  function WeightedValue(exp: real -> real, scaling: real, q: Vec, keys: Mat, values: Mat, hd: nat, c: int): Vec {
    i => RowWeight(exp, scaling, q, keys, hd)(i) * values(i, c)
  }

  /** Row p of causal attention as a fraction, over the positions up to p alone. */
  ghost predicate IsCausalRow(exp: real -> real, scaling: real, q: Vec, keys: Mat, values: Mat, hd: nat, p: nat, c: int, y: real) {
    var total := Sum(p + 1, RowWeight(exp, scaling, q, keys, hd));
    total > 0.0 && y == Sum(p + 1, WeightedValue(exp, scaling, q, keys, values, hd, c)) / total
  }

  /** Masked attention of any width is that fraction. */
  lemma MaskedIsCausalRow(exp: real -> real, scaling: real, q: Vec, keys: Mat, values: Mat, hd: nat, p: nat, n: nat, c: int)
    requires IsExp(exp) && p < n
    ensures var s := CausalScores(q, keys, hd, scaling, CausalMask(p));
            && Sum(n, Weight(exp, s)) > 0.0
            && IsCausalRow(exp, scaling, q, keys, values, hd, p, c, Attend(exp, n, s, values, c))
  {
    var s := CausalScores(q, keys, hd, scaling, CausalMask(p));
    var m, w, rw := p + 1, Weight(exp, s), RowWeight(exp, scaling, q, keys, hd);
    forall i | 0 <= i < m
      ensures s(i).Finite? && w(i) == rw(i)
    {
      assert CausalMask(p)(i) == Finite(0.0);
      var x := Scaled(scaling, q, keys, hd, i);
      assert s(i) == Add(Finite(x), Finite(0.0)) == Finite(x);
    }
    forall i | m <= i < n
      ensures s(i) == MinusInfinity && w(i) == 0.0
    {
      assert CausalMask(p)(i) == MinusInfinity;
    }
    SumEq(m, w, rw);
    SumTruncate(m, n, w);
    FiniteScoresWeigh(exp, m, s);
    var total := Sum(m, rw);
    MaskedContributesNothing(exp, total, m, n, s, values, c);
    FractionOfSums(m, total, w, values, c, Contributions(exp, total, s, values, c), WeightedValue(exp, scaling, q, keys, values, hd, c));
  }

  lemma FractionOfSums(m: nat, total: real, w: Vec, v: Mat, c: int, f: Vec, g: Vec)
    requires total > 0.0 && forall i :: 0 <= i < m ==> f(i) == w(i) / total * v(i, c) && g(i) == w(i) * v(i, c)
    ensures Sum(m, f) == Sum(m, g) / total
  {
    forall i | 0 <= i < m
      ensures f(i) == (1.0 / total) * g(i)
    {
      PullOut(w(i), total, v(i, c));
    }
    SumScale(m, 1.0 / total, g, f);
    OneOver(Sum(m, g), total);
  }

  lemma PullOut(w: real, total: real, x: real)
    requires total > 0.0
    ensures w / total * x == (1.0 / total) * (w * x)
  {
    assert w / total == (1.0 / total) * w;
  }

  lemma OneOver(x: real, total: real)
    requires total > 0.0
    ensures (1.0 / total) * x == x / total
  {
  }

  /** All positions have faces of full length. */
  ghost predicate FullFaces(rows: seq<seq<real>>) {
    forall i :: 0 <= i < |rows| ==> |rows[i]| == KV_ELEMS
  }

  /** Row i is what head h reads at position i of the whole sequence, after repeating its
      key-value heads. */
  function Repeated(rows: seq<seq<real>>, shape: FaceShape, kvHeads: nat, h: nat): Mat
    requires EvenGroups(shape, kvHeads) && FullFaces(rows)
  {
    (i, d) => if 0 <= i < |rows| && 0 <= d then HeadElement(shape, kvHeads, rows[i], h, d) else 0.0
  }

  /** The keys of head h as the scores read them from the transposed face. */
  function KeysOfFace(kt: seq<real>, shape: FaceShape, h: int): Mat {
    (i, d) => Read(kt, (h * shape.hd + d) * shape.width + i)
  }

  function ValuesOfFace(v: seq<real>, shape: FaceShape, h: int): Mat {
    (i, d) => Read(v, (h * shape.width + i) * shape.hd + d)
  }

  function Read(x: seq<real>, at: int): real {
    if 0 <= at < |x| then x[at] else 0.0
  }

  /** The KV append and the two gathers of one decode step of a layer
      (scripts/surgery_decode_graph.py:145-163). */
  method AppendAndGather(st: HostDecodeState, idx: int, k: seq<real>, v: seq<real>, shape: FaceShape, kvHeads: nat)
    returns (ok: bool, kt: array<real>, vt: array<real>)
    requires st.Valid() && 0 <= idx < N_KV && |k| == KV_ELEMS && |v| == KV_ELEMS && ValidGrouping(shape, kvHeads)
    modifies st.kvCount, st.kvK, st.kvV
    ensures st.Valid() && ok == (|old(st.Keys(idx))| < KV_MAX)
    ensures ok ==> st.Keys(idx) == old(st.Keys(idx)) + [k] && st.Values(idx) == old(st.Values(idx)) + [v]
    ensures fresh(kt) && Gathered(kt[..], 0, shape, kvHeads, st.Keys(idx))
    ensures fresh(vt) && Gathered(vt[..], 1, shape, kvHeads, st.Values(idx))
    ensures EvenGroups(shape, kvHeads) ==>
      HoldsHeads(kt[..], 0, shape, kvHeads, st.Keys(idx)) && HoldsHeads(vt[..], 1, shape, kvHeads, st.Values(idx))
  {
    ok := st.KvAppend(idx, k, v, KV_ELEMS);
    assert k[..KV_ELEMS] == k && v[..KV_ELEMS] == v;
    kt := new real[shape.heads * shape.hd * shape.width](i => 0.0);
    st.KvGather(idx, 0, shape, kvHeads, kt);
    vt := new real[shape.heads * shape.hd * shape.width](i => 0.0);
    st.KvGather(idx, 1, shape, kvHeads, vt);
  }

  /** A whole history of decode steps of a layer, from an empty cache up to its capacity: the
      last faces hold all keys and values in order. */
  method DecodeHistory(st: HostDecodeState, idx: int, keys: seq<seq<real>>, values: seq<seq<real>>, shape: FaceShape, kvHeads: nat)
    returns (kt: array<real>, vt: array<real>)
    requires st.Valid() && 0 <= idx < N_KV && ValidGrouping(shape, kvHeads) && st.Keys(idx) == [] && st.Values(idx) == []
    requires 0 < |keys| == |values| <= KV_MAX
    requires forall i :: 0 <= i < |keys| ==> |keys[i]| == KV_ELEMS && |values[i]| == KV_ELEMS
    modifies st.kvCount, st.kvK, st.kvV
    ensures st.Valid() && st.Keys(idx) == keys && st.Values(idx) == values
    ensures fresh(kt) && Gathered(kt[..], 0, shape, kvHeads, keys)
    ensures fresh(vt) && Gathered(vt[..], 1, shape, kvHeads, values)
    ensures EvenGroups(shape, kvHeads) ==> HoldsHeads(kt[..], 0, shape, kvHeads, keys) && HoldsHeads(vt[..], 1, shape, kvHeads, values)
  {
    var ok;
    ok, kt, vt := AppendAndGather(st, idx, keys[0], values[0], shape, kvHeads);
    var i := 1;
    while i < |keys|
      invariant 1 <= i <= |keys| && st.Valid()
      invariant st.Keys(idx) == keys[..i] && st.Values(idx) == values[..i]
      invariant fresh(kt) && Gathered(kt[..], 0, shape, kvHeads, keys[..i])
      invariant fresh(vt) && Gathered(vt[..], 1, shape, kvHeads, values[..i])
      invariant EvenGroups(shape, kvHeads) ==> HoldsHeads(kt[..], 0, shape, kvHeads, keys[..i]) && HoldsHeads(vt[..], 1, shape, kvHeads, values[..i])
    {
      ok, kt, vt := AppendAndGather(st, idx, keys[i], values[i], shape, kvHeads);
      assert keys[..i + 1] == keys[..i] + [keys[i]] && values[..i + 1] == values[..i] + [values[i]];
      i := i + 1;
    }
    assert keys[..i] == keys && values[..i] == values;
  }

  /** The attention theorem: with the first p + 1 keys and values of a sequence cached, the
      masked attention of a decode step over its fixed-width faces is row p of the causal
      grouped-query attention over the whole sequence, for every head and element. */
  lemma DecodeRowIsCausalRow(exp: real -> real, scaling: real, q: Vec, keys: seq<seq<real>>, values: seq<seq<real>>,
                             kt: seq<real>, vt: seq<real>, shape: FaceShape, kvHeads: nat, h: nat, c: nat, p: nat)
    requires IsExp(exp) && h < shape.heads && c < shape.hd
    requires 0 < kvHeads <= shape.heads && shape.heads % kvHeads == 0 && kvHeads * shape.hd <= 512
    requires p < |keys| == |values| && p < shape.width && FullFaces(keys) && FullFaces(values)
    requires HoldsHeads(kt, 0, shape, kvHeads, keys[..p + 1]) && HoldsHeads(vt, 1, shape, kvHeads, values[..p + 1])
    ensures var decode := CausalScores(q, KeysOfFace(kt, shape, h), shape.hd, scaling, CausalMask(p));
            var causal := CausalScores(q, Repeated(keys, shape, kvHeads, h), shape.hd, scaling, CausalMask(p));
            && Sum(shape.width, Weight(exp, decode)) > 0.0 && Sum(|keys|, Weight(exp, causal)) > 0.0
            && Attend(exp, shape.width, decode, ValuesOfFace(vt, shape, h), c)
            == Attend(exp, |keys|, causal, Repeated(values, shape, kvHeads, h), c)
            && IsCausalRow(exp, scaling, q, Repeated(keys, shape, kvHeads, h), Repeated(values, shape, kvHeads, h), shape.hd, p, c,
                           Attend(exp, shape.width, decode, ValuesOfFace(vt, shape, h), c))
  {
    var kf, kr := KeysOfFace(kt, shape, h), Repeated(keys, shape, kvHeads, h);
    var decode := CausalScores(q, kf, shape.hd, scaling, CausalMask(p));
    var causal := CausalScores(q, kr, shape.hd, scaling, CausalMask(p));
    forall i | 0 <= i < p + 1
      ensures decode(i) == causal(i) && decode(i).Finite?
      ensures ValuesOfFace(vt, shape, h)(i, c) == Repeated(values, shape, kvHeads, h)(i, c)
    {
      SameScore(scaling, q, keys, kt, shape, kvHeads, h, p, i);
      assert CausalMask(p)(i) == Finite(0.0);
      FaceReads(1, vt, shape, kvHeads, values, p, h, c, i);
    }
    forall i | p < i
      ensures decode(i) == MinusInfinity && causal(i) == MinusInfinity
    {
      assert CausalMask(p)(i) == MinusInfinity;
    }
    AttendIgnoresMasked(exp, p + 1, shape.width, decode, |keys|, causal,
                        ValuesOfFace(vt, shape, h), Repeated(values, shape, kvHeads, h), c);
    MaskedIsCausalRow(exp, scaling, q, kr, Repeated(values, shape, kvHeads, h), shape.hd, p, |keys|, c);
  }

  /** The face read at a cached position is the sequence's entry. */
  lemma FaceReads(face: int, out: seq<real>, shape: FaceShape, kvHeads: nat, rows: seq<seq<real>>, p: nat, h: nat, d: nat, i: nat)
    requires EvenGroups(shape, kvHeads) && FullFaces(rows) && h < shape.heads && d < shape.hd && i < shape.width && i <= p < |rows|
    requires HoldsHeads(out, face, shape, kvHeads, rows[..p + 1])
    ensures (if face == 0 then KeysOfFace(out, shape, h) else ValuesOfFace(out, shape, h))(i, d) == Repeated(rows, shape, kvHeads, h)(i, d)
  {
    assert HoldsElement(out, face, shape, kvHeads, rows[..p + 1], h, d, i);
    assert rows[..p + 1][i] == rows[i];
  }

  lemma SameScore(scaling: real, q: Vec, keys: seq<seq<real>>, kt: seq<real>, shape: FaceShape, kvHeads: nat, h: nat, p: nat, i: nat)
    requires EvenGroups(shape, kvHeads) && FullFaces(keys) && h < shape.heads && i <= p < |keys| && p < shape.width
    requires HoldsHeads(kt, 0, shape, kvHeads, keys[..p + 1])
    ensures CausalScore(q, KeysOfFace(kt, shape, h), shape.hd, scaling, CausalMask(p)(i), i)
         == CausalScore(q, Repeated(keys, shape, kvHeads, h), shape.hd, scaling, CausalMask(p)(i), i)
  {
    var kf, kr := KeysOfFace(kt, shape, h), Repeated(keys, shape, kvHeads, h);
    forall d | 0 <= d < shape.hd
      ensures kf(i, d) == kr(i, d)
    {
      FaceReads(0, kt, shape, kvHeads, keys, p, h, d, i);
    }
    ScoreEq(q, kf, kr, shape.hd, scaling, CausalMask(p)(i), i);
  }

  lemma ScoreEq(q: Vec, keys: Mat, keys': Mat, hd: nat, scaling: real, mask: Score, i: int)
    requires forall d :: 0 <= d < hd ==> keys(i, d) == keys'(i, d)
    ensures CausalScore(q, keys, hd, scaling, mask, i) == CausalScore(q, keys', hd, scaling, mask, i)
  {
    DotEq(hd, q, q, Row(keys, i), Row(keys', i));
    SameProduct(Dot(hd, q, Row(keys, i)), Dot(hd, q, Row(keys', i)), scaling);
  }

  lemma SameProduct(a: real, a': real, b: real)
    requires a == a'
    ensures a * b == a' * b
  {
  }
}
