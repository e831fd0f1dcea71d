/** Decoding one token at a time against replaying the whole sequence: the claim behind
    swapping the chunk machinery of a layer for the single-step operation
    (scripts/surgery_decode_graph.py:182-198).
 */
module DeltaDecode {
  import opened Exponential
  import opened Sums
  import opened DeltaRule
  import opened MixedRadix
  import opened HostDecodeState
  import opened GatedDelta
  import opened ChunkedDelta
  import opened DeltaReplay

  /** Tokens with the same heads, sizes and scale. */
  ghost predicate SameShape(args: seq<DeltaArgs>) {
    forall i :: 0 <= i < |args| ==>
      ValidArgs(args[i]) && args[i].h == args[0].h && args[i].d == args[0].d
      && args[i].scale == args[0].scale && args[i].exp == args[0].exp
  }

  /** A run of `DeltaStep`: layers[i] is the layer's flat state before token i. */
  ghost predicate DecodeRun(args: seq<DeltaArgs>, layers: seq<seq<real>>, ys: seq<seq<real>>) {
    && |layers| == |args| + 1 && |ys| == |args|
    && SameShape(args)
    && forall i :: 0 <= i < |args| ==> LayerStepped(args[i], layers[i], layers[i + 1], ys[i])
  }

  ghost predicate LayerStepped(a: DeltaArgs, layer: seq<real>, layer': seq<real>, y: seq<real>)
    requires ValidArgs(a)
  {
    forall hh :: 0 <= hh < a.h ==> HeadStepped(a, layer, layer', y, hh)
  }

  function Padded(x: seq<real>, i: int): real {
    if 0 <= i < |x| then x[i] else 0.0
  }

  /** What head hh sees of the run: elements hh d to hh d + d - 1 of each token's vectors. */
  ghost function HeadTokens(args: seq<DeltaArgs>, hh: int): Tokens
    requires |args| > 0
  {
    var d := args[0].d;
    Tokens(d,
           (i, n) => if 0 <= i < |args| then Padded(args[i].k, hh * d + n) else 0.0,
           (i, n) => if 0 <= i < |args| then Padded(args[i].v, hh * d + n) else 0.0,
           (i, n) => if 0 <= i < |args| then Padded(args[i].q, hh * d + n) else 0.0,
           i => if 0 <= i < |args| then Padded(args[i].beta, hh) else 0.0,
           i => if 0 <= i < |args| then Padded(args[i].g, hh) else 0.0,
           args[0].scale, args[0].exp)
  }

  function HeadState(layer: seq<real>, d: nat, hh: int): Mat {
    Block(layer, At(d * d, hh, 0), d)
  }

  lemma StoredIsBlock(x: seq<real>, base: int, d: nat, m: Mat)
    requires Stored(x, base, d, 0, d, m)
    ensures EqMat(d, d, Block(x, base, d), m)
  {
  }

  lemma SliceIsPadded(x: seq<real>, d: nat, hh: int, n: int)
    ensures Slice(x, At(d, hh, 0))(n) == Padded(x, hh * d + n)
  {
    assert At(d, hh, 0) == hh * d;
  }

  /** The vectors that the step slices out are the head's tokens. */
  lemma SlicesAreTokens(args: seq<DeltaArgs>, hh: int, i: nat)
    requires i < |args| && SameShape(args)
    ensures var (a, d, tok, base) := (args[i], args[0].d, HeadTokens(args, hh), At(args[0].d, hh, 0));
            EqVec(d, Slice(a.k, base), Row(tok.k, i)) && EqVec(d, Slice(a.v, base), Row(tok.v, i)) && EqVec(d, Slice(a.q, base), Row(tok.q, i))
  {
    var a, d := args[i], args[0].d;
    var tok, base := HeadTokens(args, hh), At(d, hh, 0);
    forall n
      ensures Slice(a.k, base)(n) == Row(tok.k, i)(n) && Slice(a.v, base)(n) == Row(tok.v, i)(n) && Slice(a.q, base)(n) == Row(tok.q, i)(n)
    {
      SliceIsPadded(a.k, d, hh, n);
      SliceIsPadded(a.v, d, hh, n);
      SliceIsPadded(a.q, d, hh, n);
    }
  }

  /** One decode step of a head is one step of the recursion. */
  lemma HeadStep(args: seq<DeltaArgs>, layers: seq<seq<real>>, ys: seq<seq<real>>, hh: int, i: nat)
    requires DecodeRun(args, layers, ys) && i < |args| && 0 <= hh < args[0].h
    ensures EqMat(args[0].d, args[0].d, HeadState(layers[i + 1], args[0].d, hh),
                  Step(HeadTokens(args, hh), i, HeadState(layers[i], args[0].d, hh)))
  {
    var a, d, tok := args[i], args[0].d, HeadTokens(args, hh);
    assert LayerStepped(a, layers[i], layers[i + 1], ys[i]) && HeadStepped(a, layers[i], layers[i + 1], ys[i], hh);
    StoredIsBlock(layers[i + 1], At(d * d, hh, 0), d, NextHead(a, layers[i], hh));
    var s := HeadState(layers[i], d, hh);
    SlicesAreTokens(args, hh, i);
    NextEq(d, a.exp(a.g[hh]), a.beta[hh], Slice(a.k, At(d, hh, 0)), Row(tok.k, i), Slice(a.v, At(d, hh, 0)), Row(tok.v, i), s, s);
  }

  lemma {:induction false} HeadAfter(args: seq<DeltaArgs>, layers: seq<seq<real>>, ys: seq<seq<real>>, hh: int, i: nat)
    requires DecodeRun(args, layers, ys) && 0 < |args| && i <= |args| && 0 <= hh < args[0].h
    ensures EqMat(args[0].d, args[0].d, HeadState(layers[i], args[0].d, hh),
                  After(HeadTokens(args, hh), HeadState(layers[0], args[0].d, hh), i))
    decreases i
  {
    if i > 0 {
      var d, tok, s0 := args[0].d, HeadTokens(args, hh), HeadState(layers[0], args[0].d, hh);
      HeadAfter(args, layers, ys, hh, i - 1);
      HeadStep(args, layers, ys, hh, i - 1);
      NextEq(d, tok.exp(tok.g(i - 1)), tok.beta(i - 1), Row(tok.k, i - 1), Row(tok.k, i - 1), Row(tok.v, i - 1), Row(tok.v, i - 1),
             HeadState(layers[i - 1], d, hh), After(tok, s0, i - 1));
    }
  }

  /** Every output of a run, from any starting state. */
  lemma DecodeOutput(args: seq<DeltaArgs>, layers: seq<seq<real>>, ys: seq<seq<real>>, hh: int, i: nat, c: nat)
    requires DecodeRun(args, layers, ys) && i < |args| && 0 <= hh < args[0].h && c < args[0].d
    ensures 0 <= hh * args[0].d + c < |ys[i]|
    ensures ys[i][hh * args[0].d + c] == OutputAt(HeadTokens(args, hh), HeadState(layers[0], args[0].d, hh), i)(c)
  {
    var a, d, tok, s0 := args[i], args[0].d, HeadTokens(args, hh), HeadState(layers[0], args[0].d, hh);
    assert LayerStepped(a, layers[i], layers[i + 1], ys[i]) && HeadStepped(a, layers[i], layers[i + 1], ys[i], hh);
    HeadAfter(args, layers, ys, hh, i + 1);
    StoredIsBlock(layers[i + 1], At(d * d, hh, 0), d, NextHead(a, layers[i], hh));
    SlicesAreTokens(args, hh, i);
    ReadOutEq(d, a.scale, Slice(a.q, At(d, hh, 0)), Row(tok.q, i), NextHead(a, layers[i], hh), HeadState(layers[i + 1], d, hh),
              After(tok, s0, i + 1), c);
  }

  lemma ReadOutEq(d: nat, scale: real, q: Vec, q': Vec, s: Mat, stored: Mat, s': Mat, c: nat)
    requires EqMat(d, d, stored, s) && EqMat(d, d, stored, s') && EqVec(d, q, q') && c < d
    ensures Output(d, scale, q, s)(c) == Output(d, scale, q', s')(c)
  {
    MatVecEq(d, s, s', q, q');
  }

  /** The decode theorem: after any number of decode steps from the zero state, every head
      outputs what the padded whole-sequence replay computes for that token. */
  lemma DecodeIsReplay(args: seq<DeltaArgs>, layers: seq<seq<real>>, ys: seq<seq<real>>, hh: int, i: nat, c: nat, chunk: nat)
    requires DecodeRun(args, layers, ys) && i < |args| <= chunk && 0 <= hh < args[0].h && c < args[0].d
    requires IsExp(args[0].exp)
    requires forall e :: 0 <= e < |layers[0]| ==> layers[0][e] == 0.0
    ensures 0 <= hh * args[0].d + c < |ys[i]|
    ensures ys[i][hh * args[0].d + c] == Core(Pad(HeadTokens(args, hh), |args|), chunk)(i, c)
  {
    var tok, s0 := HeadTokens(args, hh), HeadState(layers[0], args[0].d, hh);
    DecodeOutput(args, layers, ys, hh, i, c);
    OutputAgrees(tok, tok, s0, ZeroState(), i);
    PaddedReplayIsSerial(tok, |args|, chunk, i);
    assert Row(Core(Pad(tok, |args|), chunk), i)(c) == OutputAt(tok, ZeroState(), i)(c);
  }

  lemma MoreDecoded(args: seq<DeltaArgs>, layers: seq<seq<real>>, ys: seq<seq<real>>, i: nat, layer: seq<real>, y: seq<real>)
    requires SameShape(args) && i < |args| && DecodeRun(args[..i], layers, ys) && LayerStepped(args[i], layers[i], layer, y)
    ensures DecodeRun(args[..i + 1], layers + [layer], ys + [y])
  {
    var args', layers', ys' := args[..i + 1], layers + [layer], ys + [y];
    forall j | 0 <= j < |args'|
      ensures LayerStepped(args'[j], layers'[j], layers'[j + 1], ys'[j])
    {
      if j < i {
        assert LayerStepped(args[..i][j], layers[j], layers[j + 1], ys[j]);
      }
    }
  }

  /** The decode steps of a whole sequence, one token after the other. */
  method DecodeSequence(st: HostDecodeState, idx: int, args: seq<DeltaArgs>)
    returns (ys: seq<seq<real>>, ghost layers: seq<seq<real>>)
    requires st.Valid() && 0 <= idx < N_DELTA && SameShape(args)
    requires forall i :: 0 <= i < |args| ==> args[i].h * (args[i].d * args[i].d) <= GDN_H * GDN_D * GDN_D
    modifies st.deltaS
    ensures DecodeRun(args, layers, ys) && layers[0] == old(RowOf(st.deltaS, idx)) && layers[|args|] == RowOf(st.deltaS, idx)
    ensures forall j :: 0 <= j < N_DELTA && j != idx ==> RowOf(st.deltaS, j) == old(RowOf(st.deltaS, j))
  {
    ys, layers := [], [RowOf(st.deltaS, idx)];
    for i := 0 to |args|
      invariant DecodeRun(args[..i], layers, ys)
      invariant layers[0] == old(RowOf(st.deltaS, idx)) && layers[i] == RowOf(st.deltaS, idx)
      invariant forall j :: 0 <= j < N_DELTA && j != idx ==> RowOf(st.deltaS, j) == old(RowOf(st.deltaS, j))
    {
      var y := new real[args[i].h * args[i].d];
      st.DeltaStep(idx, args[i], y);
      MoreDecoded(args, layers, ys, i, RowOf(st.deltaS, idx), y[..]);
      ys, layers := ys + [y[..]], layers + [RowOf(st.deltaS, idx)];
    }
    assert args[..|args|] == args;
  }

  /** Decoding a sequence from the zero state outputs what its padded replay computes. */
  method DecodeFromZero(st: HostDecodeState, idx: int, args: seq<DeltaArgs>, ghost chunk: nat) returns (ys: seq<seq<real>>)
    requires st.Valid() && 0 <= idx < N_DELTA && SameShape(args) && 0 < |args| <= chunk && IsExp(args[0].exp)
    requires forall i :: 0 <= i < |args| ==> args[i].h * (args[i].d * args[i].d) <= GDN_H * GDN_D * GDN_D
    requires forall c :: 0 <= c < st.deltaS.Length1 ==> st.deltaS[idx, c] == 0.0
    modifies st.deltaS
    ensures |ys| == |args| && forall i, hh :: 0 <= i < |args| && 0 <= hh < args[0].h ==> IsReplayed(args, ys, hh, i, chunk)
  {
    ghost var layers;
    ys, layers := DecodeSequence(st, idx, args);
    forall i, hh | 0 <= i < |args| && 0 <= hh < args[0].h
      ensures IsReplayed(args, ys, hh, i, chunk)
    {
      forall c: nat | c < args[0].d {
        DecodeIsReplay(args, layers, ys, hh, i, c, chunk);
      }
    }
  }

  /** What head hh outputs for token i is what the padded replay computes. */
  ghost predicate IsReplayed(args: seq<DeltaArgs>, ys: seq<seq<real>>, hh: int, i: int, chunk: nat)
    requires 0 <= i < |args| == |ys| && |args| <= chunk && IsExp(args[0].exp)
  {
    forall c: nat :: c < args[0].d ==>
      0 <= hh * args[0].d + c < |ys[i]| && ys[i][hh * args[0].d + c] == Core(Pad(HeadTokens(args, hh), |args|), chunk)(i, c)
  }
}
