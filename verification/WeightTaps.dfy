/** The tap orders as the comprehensions of the packer, and the place of every weight in plain
    numbers (kernels/host/weight_layout_pack.py:45-50, 82-99).
 */
module WeightTaps {
  import opened MixedRadix
  import opened WeightLayout

  /** 0, 1, ..., n - 1. */
  function Up(n: nat): (r: seq<int>)
    ensures |r| == n && forall i :: 0 <= i < n ==> r[i] == i
  {
    if n == 0 then [] else Up(n - 1) + [n - 1]
  }

  /** n - 1, ..., 1, 0. */
  function Down(n: nat): (r: seq<int>)
    ensures |r| == n && forall i :: 0 <= i < n ==> r[i] == n - 1 - i
  {
    if n == 0 then [] else [n - 1] + Down(n - 1)
  }

  function OfParity(s: seq<int>, parity: int): seq<int> {
    if s == [] then [] else (if s[0] % 2 == parity then [s[0]] else []) + OfParity(s[1..], parity)
  }

  /** Every column for each row in turn. */
  function Taps(hs: seq<int>, kws: seq<int>): seq<Tap> {
    if hs == [] then [] else TapsOfRow(hs[0], kws) + Taps(hs[1..], kws)
  }

  function TapsOfRow(h: int, kws: seq<int>): (r: seq<Tap>)
    ensures |r| == |kws| && forall i :: 0 <= i < |kws| ==> r[i] == Tap(h, kws[i])
  {
    seq(|kws|, i requires 0 <= i < |kws| => Tap(h, kws[i]))
  }

  /** A kernel of 5 by 5 without its first column, and then that; a kernel of 3 by 3 with stride
      2 by parities of rows and columns; any other kernel row by row; columns descending. */
  function Order(stride2: bool, s: Shape): seq<Tap> {
    if s.kh == 5 && s.kw == 5 then Taps(Up(5), [4, 3, 2, 1]) + Taps(Up(5), [0])
    else if stride2 && s.kh == 3 && s.kw == 3 then
      Taps(OfParity(Up(3), 0), OfParity(Down(3), 0)) + Taps(OfParity(Up(3), 0), OfParity(Down(3), 1))
      + Taps(OfParity(Up(3), 1), OfParity(Down(3), 0)) + Taps(OfParity(Up(3), 1), OfParity(Down(3), 1))
    else Taps(Up(s.kh), Down(s.kw))
  }

  lemma {:induction false} TapsSnoc(hs: seq<int>, h: int, kws: seq<int>)
    ensures Taps(hs + [h], kws) == Taps(hs, kws) + TapsOfRow(h, kws)
  {
    if hs == [] {
      assert ([] + [h])[1..] == [];
    } else {
      assert (hs + [h])[1..] == hs[1..] + [h] && (hs + [h])[0] == hs[0];
      TapsSnoc(hs[1..], h, kws);
    }
  }

  lemma {:induction false} DefaultIsOrder(kh: nat, kw: nat)
    ensures DefaultTaps(kh, kw) == Taps(Up(kh), Down(kw))
  {
    if kh > 0 {
      DefaultIsOrder(kh - 1, kw);
      TapsSnoc(Up(kh - 1), kh - 1, Down(kw));
      assert RowTaps(kh - 1, kw) == TapsOfRow(kh - 1, Down(kw));
    }
  }

  lemma OneRow(h: int, rest: seq<int>, kws: seq<int>)
    ensures Taps([h] + rest, kws) == TapsOfRow(h, kws) + Taps(rest, kws)
  {
    assert ([h] + rest)[1..] == rest;
  }

  lemma FiveRows(kws: seq<int>)
    ensures Up(5) == [0, 1, 2, 3, 4]
    ensures Taps(Up(5), kws) == TapsOfRow(0, kws) + TapsOfRow(1, kws) + TapsOfRow(2, kws) + TapsOfRow(3, kws) + TapsOfRow(4, kws)
  {
    OneRow(0, [1, 2, 3, 4], kws);
    OneRow(1, [2, 3, 4], kws);
    OneRow(2, [3, 4], kws);
    OneRow(3, [4], kws);
    OneRow(4, [], kws);
    assert [0] + [1, 2, 3, 4] == Up(5);
  }

  lemma T5IsOrder()
    ensures T5 == Taps(Up(5), [4, 3, 2, 1]) + Taps(Up(5), [0])
  {
    FiveRows([4, 3, 2, 1]);
    FiveRows([0]);
  }

  lemma Parities()
    ensures OfParity(Up(3), 0) == [0, 2] && OfParity(Up(3), 1) == [1]
    ensures OfParity(Down(3), 0) == [2, 0] && OfParity(Down(3), 1) == [1]
  {
    assert Up(3) == [0, 1, 2] && Down(3) == [2, 1, 0];
    OfThree(0, 1, 2, 0);
    OfThree(0, 1, 2, 1);
    OfThree(2, 1, 0, 0);
    OfThree(2, 1, 0, 1);
  }

  lemma OfThree(a: int, b: int, c: int, p: int)
    ensures OfParity([a, b, c], p) == (if a % 2 == p then [a] else []) + (if b % 2 == p then [b] else []) + (if c % 2 == p then [c] else [])
  {
    assert [a, b, c][1..] == [b, c] && [b, c][1..] == [c] && [c][1..] == [];
    assert OfParity([c], p) == if c % 2 == p then [c] else [];
    assert OfParity([b, c], p) == (if b % 2 == p then [b] else []) + OfParity([c], p);
    assert OfParity([a, b, c], p) == (if a % 2 == p then [a] else []) + OfParity([b, c], p);
  }

  lemma T2IsOrder()
    ensures T2 == Taps([0, 2], [2, 0]) + Taps([0, 2], [1]) + Taps([1], [2, 0]) + Taps([1], [1])
  {
    OneRow(0, [2], [2, 0]);
    OneRow(2, [], [2, 0]);
    OneRow(0, [2], [1]);
    OneRow(2, [], [1]);
    OneRow(1, [], [2, 0]);
    OneRow(1, [], [1]);
  }

  /** The packer's tap orders are these. */
  lemma TapOrderIs(stride2: bool, s: Shape)
    ensures TapOrder(stride2, s) == Order(stride2, s)
  {
    T5IsOrder();
    Parities();
    T2IsOrder();
    DefaultIsOrder(s.kh, s.kw);
  }

  /** In the tile of its banks of 32 channels and its tap, rows in pairs side by side. */
  function PackedIndex(s: Shape, t: int, cin: int, cout: int): int {
    ((cout / 32 * ((s.cin + 31) / 32) + cin / 32) * (s.kh * s.kw) + t) * 1024
    + (cin % 32 / 2 * 64 + 2 * (cout % 32) + cin % 32 % 2)
  }

  /** By row, column and channels. */
  function TensorIndex(s: Shape, tap: Tap, cin: int, cout: int): int {
    ((tap.h * s.kw + tap.kw) * s.cin + cin) * s.cout + cout
  }

  lemma SameTile(banks: int, taps: int, n: int, k: int, t: int, i: int)
    ensures At(1024, At(taps, At(banks, n, k), t), i) == ((n * banks + k) * taps + t) * 1024 + i
  {
  }

  lemma SameElement(kw: int, cin: int, cout: int, h: int, w: int, c: int, d: int)
    ensures At(cout, At(cin, At(kw, h, w), c), d) == ((h * kw + w) * cin + c) * cout + d
  {
  }

  lemma PositionIsTile(s: Shape, taps: nat, t: int, w: Weight, banks: int, n: int, k: int, i: int)
    requires banks == Banks(s.cin) && n == w.cout / 32 && k == w.cin / 32 && i == CroutonPos(w.cin % 32, w.cout % 32)
    ensures Position(s, taps, t, w) == At(1024, At(taps, At(banks, n, k), t), i)
  {
  }

  lemma PlaceInNumbers(s: Shape, t: int, w: Weight)
    ensures Position(s, s.kh * s.kw, t, w) == PackedIndex(s, t, w.cin, w.cout) && Flat(s, w) == TensorIndex(s, w.tap, w.cin, w.cout)
  {
    var taps, i := s.kh * s.kw, CroutonPos(w.cin % 32, w.cout % 32);
    PositionIsTile(s, taps, t, w, Banks(s.cin), w.cout / 32, w.cin / 32, i);
    SameTile(Banks(s.cin), taps, w.cout / 32, w.cin / 32, t, i);
    SameElement(s.kw, s.cin, s.cout, w.tap.h, w.tap.kw, w.cin, w.cout);
  }

  /** The packed tensor holds the weight of tap t of the order and two channels. */
  lemma WeightLies(s: Shape, v: seq<int>, stride2: bool, t: nat, cin: nat, cout: nat)
    requires |v| == Count(s) && t < |Order(stride2, s)| && cin < s.cin && cout < s.cout
    ensures 0 <= PackedIndex(s, t, cin, cout) < |Packed(s, v, stride2)| && 0 <= TensorIndex(s, Order(stride2, s)[t], cin, cout) < |v|
    ensures Packed(s, v, stride2)[PackedIndex(s, t, cin, cout)] == v[TensorIndex(s, Order(stride2, s)[t], cin, cout)]
  {
    var w := Weight(Order(stride2, s)[t], cin, cout);
    TapOrderIs(stride2, s);
    OrderListsTaps(stride2, s);
    PlaceInNumbers(s, t, w);
    WeightOfTapLies(s, v, stride2, t, w);
  }

  lemma WeightOfTapLies(s: Shape, v: seq<int>, stride2: bool, t: nat, w: Weight)
    requires |v| == Count(s) && ValidWeight(s, w) && TapIndex(stride2, s, w.tap) == t
    ensures 0 <= Position(s, s.kh * s.kw, t, w) < |Packed(s, v, stride2)| && 0 <= Flat(s, w) < |v|
    ensures Packed(s, v, stride2)[Position(s, s.kh * s.kw, t, w)] == v[Flat(s, w)]
  {
    WeightIsAtPlace(s, v, stride2, w);
  }
}
