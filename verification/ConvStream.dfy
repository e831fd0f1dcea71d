/** Streaming convolution against whole-sequence convolution: the window walked by
    `ConvStep` (compiler/src/ops/host_decode_state.cpp:101-113) and the left-padded
    depthwise convolution of the whole sequence (scripts/replay_gdn_layer0.py:93-95).
 */
module ConvStream {
  import opened Exponential
  import opened Sums
  import opened MixedRadix
  import opened HostDecodeState

  /** Channel ch of input t, zero outside the sequence. */
  function Padded(xs: seq<seq<real>>, t: int, ch: int): real {
    if 0 <= t < |xs| && 0 <= ch < |xs[t]| then xs[t][ch] else 0.0
  }

  /** The taps of output t: inputs t - dc + 1 to t, oldest first. */
  function Taps(xs: seq<seq<real>>, dc: nat, t: int, ch: int): Vec {
    i => Padded(xs, t - dc + 1 + i, ch)
  }

  /** The weights of a channel, one for each tap. */
  function Weights(w: seq<real>, c: nat, ch: int): Vec {
    i => if 0 <= i * c + ch < |w| then w[i * c + ch] else 0.0
  }

  /** Output t of the causal convolution of the whole sequence, then x * sigmoid(x). */
  function Batch(exp: real -> real, w: seq<real>, xs: seq<seq<real>>, c: nat, dc: nat, t: int): Vec
    requires IsExp(exp)
  {
    ch => Activation(exp, Dot(dc, Weights(w, c, ch), Taps(xs, dc, t, ch)))
  }

  ghost predicate ValidInputs(xs: seq<seq<real>>, c: nat) {
    forall t :: 0 <= t < |xs| ==> c <= |xs[t]|
  }

  /** The window after n inputs, as the decode step leaves it. */
  function WindowAfter(win: seq<real>, xs: seq<seq<real>>, c: nat, size: nat, n: nat): (r: seq<real>)
    requires c <= size <= |win| && n <= |xs| && ValidInputs(xs, c)
    ensures |r| == |win|
  {
    if n == 0 then win else ShiftedWindow(WindowAfter(win, xs, c, size, n - 1), xs[n - 1], c, size)
  }

  /** The window holds the last dc - 1 inputs, oldest first. */
  ghost predicate HoldsLast(win: seq<real>, xs: seq<seq<real>>, c: nat, dc: nat, n: int) {
    forall i, ch :: 0 <= i < dc - 1 && 0 <= ch < c ==> Channel(win, c, ch)(i) == Padded(xs, n - (dc - 1) + i, ch)
  }

  lemma ShiftHoldsLast(win: seq<real>, xs: seq<seq<real>>, c: nat, dc: nat, n: nat)
    requires 2 <= dc && c <= (dc - 1) * c <= |win| && n < |xs| && ValidInputs(xs, c)
    requires HoldsLast(win, xs, c, dc, n)
    ensures HoldsLast(ShiftedWindow(win, xs[n], c, (dc - 1) * c), xs, c, dc, n + 1)
  {
    var size := (dc - 1) * c;
    var win' := ShiftedWindow(win, xs[n], c, size);
    forall i, ch | 0 <= i < dc - 1 && 0 <= ch < c
      ensures Channel(win', c, ch)(i) == Padded(xs, n + 1 - (dc - 1) + i, ch)
    {
      TapFits(c, dc - 1, i, ch);
      if i < dc - 2 {
        TapFits(c, dc - 1, i + 1, ch);
        assert win'[At(c, i, ch)] == win[At(c, i + 1, ch)] == Channel(win, c, ch)(i + 1);
      } else {
        assert At(c, i, ch) == size - c + ch;
      }
    }
  }

  lemma ZeroHoldsNothing(win: seq<real>, xs: seq<seq<real>>, c: nat, dc: nat)
    requires 2 <= dc && (dc - 1) * c <= |win|
    requires forall e :: 0 <= e < (dc - 1) * c ==> win[e] == 0.0
    ensures HoldsLast(win, xs, c, dc, 0)
  {
    forall i, ch | 0 <= i < dc - 1 && 0 <= ch < c
      ensures Channel(win, c, ch)(i) == 0.0
    {
      TapFits(c, dc - 1, i, ch);
    }
  }

  /** The invariant of every run: after any number of steps from the zero window, the
      window holds the last dc - 1 inputs. */
  lemma {:induction false} WindowHoldsLast(win: seq<real>, xs: seq<seq<real>>, c: nat, dc: nat, n: nat)
    requires 2 <= dc && c <= (dc - 1) * c <= |win| && n <= |xs| && ValidInputs(xs, c)
    requires forall e :: 0 <= e < (dc - 1) * c ==> win[e] == 0.0
    ensures HoldsLast(WindowAfter(win, xs, c, (dc - 1) * c, n), xs, c, dc, n)
    decreases n
  {
    if n == 0 {
      ZeroHoldsNothing(win, xs, c, dc);
    } else {
      var before := WindowAfter(win, xs, c, (dc - 1) * c, n - 1);
      WindowHoldsLast(win, xs, c, dc, n - 1);
      ShiftHoldsLast(before, xs, c, dc, n - 1);
      assert WindowAfter(win, xs, c, (dc - 1) * c, n) == ShiftedWindow(before, xs[n - 1], c, (dc - 1) * c);
    }
  }

  /** The streaming theorem: step t from the zero window outputs what the whole-sequence
      convolution outputs at position t. */
  lemma StreamIsBatch(exp: real -> real, w: seq<real>, win: seq<real>, xs: seq<seq<real>>, c: nat, dc: nat, t: nat, ch: nat)
    requires IsExp(exp)
    requires 2 <= dc && c <= (dc - 1) * c <= |win| && t < |xs| && ch < c && ValidInputs(xs, c)
    requires forall e :: 0 <= e < (dc - 1) * c ==> win[e] == 0.0
    ensures ConvOutput(exp, w, WindowAfter(win, xs, c, (dc - 1) * c, t), xs[t], c, dc)(ch) == Batch(exp, w, xs, c, dc, t)(ch)
  {
    var cur := WindowAfter(win, xs, c, (dc - 1) * c, t);
    WindowHoldsLast(win, xs, c, dc, t);
    WindowPlusInput(w, cur, xs, c, dc, t, ch);
  }

  lemma WindowPlusInput(w: seq<real>, cur: seq<real>, xs: seq<seq<real>>, c: nat, dc: nat, t: nat, ch: nat)
    requires 1 <= dc && t < |xs| && ch < c && HoldsLast(cur, xs, c, dc, t)
    ensures ConvSum(w, cur, xs[t], c, dc, ch) == Dot(dc, Weights(w, c, ch), Taps(xs, dc, t, ch))
  {
    var wc, taps := Weights(w, c, ch), Taps(xs, dc, t, ch);
    DotEq(dc - 1, Channel(w, c, ch), wc, Channel(cur, c, ch), taps);
    var p := Product(wc, taps);
    var last := t - dc + 1 + (dc - 1);
    assert last == t && taps(dc - 1) == Padded(xs, last, ch);
    assert p(dc - 1) == wc(dc - 1) * taps(dc - 1);
    TimesEqual(wc(dc - 1), taps(dc - 1), Slice(xs[t], 0)(ch));
    assert Sum(dc, p) == Sum(dc - 1, p) + p(dc - 1);
  }

  lemma TimesEqual(a: real, b: real, b': real)
    requires b == b'
    ensures a * b == a * b'
  {
  }

  /** Output t of the convolution of the whole sequence, for all channels. */
  ghost predicate IsOutput(exp: real -> real, w: seq<real>, xs: seq<seq<real>>, c: nat, dc: nat, t: int, y: seq<real>)
    requires IsExp(exp)
  {
    |y| == c && forall ch: nat :: ch < c ==> y[ch] == Batch(exp, w, xs, c, dc, t)(ch)
  }

  /** The decode steps of a whole sequence from the zero window: the outputs are those of the
      whole-sequence convolution. */
  method StreamSequence(st: HostDecodeState, idx: int, c: nat, dc: nat, exp: real -> real, w: seq<real>, xs: seq<seq<real>>)
    returns (ys: seq<seq<real>>)
    requires st.Valid() && 0 <= idx < N_CONV && IsExp(exp) && ValidInputs(xs, c)
    requires 2 <= dc && c <= (dc - 1) * c <= st.convWin.Length1 && dc * c <= |w|
    requires forall e :: 0 <= e < (dc - 1) * c ==> st.convWin[idx, e] == 0.0
    modifies st.convWin
    ensures |ys| == |xs| && forall t :: 0 <= t < |xs| ==> IsOutput(exp, w, xs, c, dc, t, ys[t])
    ensures RowOf(st.convWin, idx) == WindowAfter(old(RowOf(st.convWin, idx)), xs, c, (dc - 1) * c, |xs|)
    ensures forall i :: 0 <= i < N_CONV && i != idx ==> RowOf(st.convWin, i) == old(RowOf(st.convWin, i))
  {
    ghost var win := RowOf(st.convWin, idx);
    ghost var size := (dc - 1) * c;
    ys := [];
    for t := 0 to |xs|
      invariant |ys| == t && forall j :: 0 <= j < t ==> IsOutput(exp, w, xs, c, dc, j, ys[j])
      invariant RowOf(st.convWin, idx) == WindowAfter(win, xs, c, size, t)
      invariant forall i :: 0 <= i < N_CONV && i != idx ==> RowOf(st.convWin, i) == old(RowOf(st.convWin, i))
    {
      var y := StreamStep(st, idx, c, dc, exp, w, xs, t, win);
      ys := ys + [y];
    }
  }

  method StreamStep(st: HostDecodeState, idx: int, c: nat, dc: nat, exp: real -> real, w: seq<real>, xs: seq<seq<real>>,
                    t: nat, ghost win: seq<real>) returns (out: seq<real>)
    requires st.Valid() && 0 <= idx < N_CONV && IsExp(exp) && ValidInputs(xs, c) && t < |xs|
    requires 2 <= dc && c <= (dc - 1) * c <= st.convWin.Length1 == |win| && dc * c <= |w|
    requires forall e :: 0 <= e < (dc - 1) * c ==> win[e] == 0.0
    requires RowOf(st.convWin, idx) == WindowAfter(win, xs, c, (dc - 1) * c, t)
    modifies st.convWin
    ensures IsOutput(exp, w, xs, c, dc, t, out)
    ensures RowOf(st.convWin, idx) == WindowAfter(win, xs, c, (dc - 1) * c, t + 1)
    ensures forall i :: 0 <= i < N_CONV && i != idx ==> RowOf(st.convWin, i) == old(RowOf(st.convWin, i))
  {
    var y := new real[c];
    ghost var y0 := y[..];
    st.ConvStep(idx, c, dc, exp, w, xs[t], y);
    out := y[..];
    FilledIsOutput(exp, w, win, xs, c, dc, t, y0, out);
  }

  lemma FilledIsOutput(exp: real -> real, w: seq<real>, win: seq<real>, xs: seq<seq<real>>, c: nat, dc: nat, t: nat,
                       y0: seq<real>, y: seq<real>)
    requires IsExp(exp) && ValidInputs(xs, c) && t < |xs| && |y0| == c
    requires 2 <= dc && c <= (dc - 1) * c <= |win| && forall e :: 0 <= e < (dc - 1) * c ==> win[e] == 0.0
    requires Filled(y0, y, 0, c, ConvOutput(exp, w, WindowAfter(win, xs, c, (dc - 1) * c, t), xs[t], c, dc))
    ensures IsOutput(exp, w, xs, c, dc, t, y)
  {
    forall ch: nat | ch < c
      ensures y[ch] == Batch(exp, w, xs, c, dc, t)(ch)
    {
      StreamIsBatch(exp, w, win, xs, c, dc, t, ch);
    }
  }
}
