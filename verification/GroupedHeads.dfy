/** Grouped key-value heads as the whole-sequence attention repeats them
    (scripts/replay_attn_layer3.py:120-141): each head of a position, `rep` times in a row.
 */
module GroupedHeads {

  /** The heads of one position, hd elements each. */
  function Heads(row: seq<real>, kvHeads: nat, hd: nat): (heads: seq<seq<real>>)
    requires kvHeads * hd <= |row|
    ensures |heads| == kvHeads
    decreases kvHeads
  {
    if kvHeads == 0 then []
    else
      assert kvHeads * hd == (kvHeads - 1) * hd + hd;
      Heads(row, kvHeads - 1, hd) + [row[(kvHeads - 1) * hd..kvHeads * hd]]
  }

  lemma {:induction false} HeadAt(row: seq<real>, kvHeads: nat, hd: nat, g: nat)
    requires kvHeads * hd <= |row| && g < kvHeads
    ensures 0 <= g * hd && (g + 1) * hd <= kvHeads * hd && Heads(row, kvHeads, hd)[g] == row[g * hd..(g + 1) * hd]
    decreases kvHeads
  {
    assert kvHeads * hd == (kvHeads - 1) * hd + hd;
    if g < kvHeads - 1 {
      HeadAt(row, kvHeads - 1, hd, g);
    }
  }

  function Copies<T>(x: T, rep: nat): (r: seq<T>)
    ensures |r| == rep && forall k :: 0 <= k < rep ==> r[k] == x
  {
    if rep == 0 then [] else [x] + Copies(x, rep - 1)
  }

  /** Each element `rep` times in a row. */
  function RepeatInterleave<T>(xs: seq<T>, rep: nat): seq<T> {
    if xs == [] then [] else Copies(xs[0], rep) + RepeatInterleave(xs[1..], rep)
  }

  /** Copy r of element g. */
  lemma {:induction false} RepeatedAt<T>(xs: seq<T>, rep: nat, g: nat, r: nat)
    requires g < |xs| && r < rep
    ensures g * rep + r < |RepeatInterleave(xs, rep)| && RepeatInterleave(xs, rep)[g * rep + r] == xs[g]
    decreases g
  {
    if g > 0 {
      RepeatedAt(xs[1..], rep, g - 1, r);
      var tail, k := RepeatInterleave(xs[1..], rep), (g - 1) * rep + r;
      assert g * rep + r == rep + k;
      assert (Copies(xs[0], rep) + tail)[rep + k] == tail[k];
    }
  }

  /** Head h is in group h / rep. */
  lemma GroupOfHead<T>(xs: seq<T>, rep: nat, h: nat)
    requires h < |xs| * rep
    ensures rep > 0 && h / rep < |xs| && |RepeatInterleave(xs, rep)| == |xs| * rep
    ensures RepeatInterleave(xs, rep)[h] == xs[h / rep]
  {
    QuotientBelow(h, |xs|, rep);
    RepeatedLength(xs, rep);
    RepeatedAt(xs, rep, h / rep, h % rep);
  }

  lemma {:induction false} RepeatedLength<T>(xs: seq<T>, rep: nat)
    ensures |RepeatInterleave(xs, rep)| == |xs| * rep
    decreases |xs|
  {
    if xs != [] {
      RepeatedLength(xs[1..], rep);
      assert |xs| * rep == (|xs| - 1) * rep + rep;
    }
  }

  lemma QuotientBelow(h: nat, n: nat, rep: nat)
    requires h < n * rep
    ensures rep > 0 && h / rep < n && (h / rep) * rep + h % rep == h && h % rep < rep
  {
    assert rep != 0;
    var q := h / rep;
    assert q * rep + h % rep == h;
    if q >= n {
      TimesGrows(n, q, rep);
    }
  }

  lemma TimesGrows(a: nat, b: nat, k: nat)
    requires a <= b
    ensures a * k <= b * k
  {
  }
}
