/** The weight packer: rows interleaved in pairs, tiles cut from the tensor, and tiles in
    order (kernels/host/weight_layout_pack.py:54-73, 82-99). */
module WeightPacker {
  import opened Options
  import opened Sequences
  import opened MixedRadix
  import opened WeightLayout

  predicate Rows32(rows: seq<seq<int>>) {
    forall k :: 0 <= k < |rows| ==> |rows[k]| == 32
  }

  /** Rows two by two, element by element; an odd number of rows gets a row of zeros. */
  method Interleave32(rows0: seq<seq<int>>) returns (out: seq<int>)
    requires Rows32(rows0)
    ensures |out| == 64 * ((|rows0| + 1) / 2)
    ensures forall i :: 0 <= i < |out| ==> out[i] == if CroutonRow(i) < |rows0| then rows0[CroutonRow(i)][CroutonCol(i)] else 0
  {
    var rows := rows0;
    if |rows| % 2 == 1 {
      rows := rows + [Zeros(32)];
    }
    out := [];
    var m := 0;
    while m < |rows| / 2
      invariant 0 <= m <= |rows| / 2
      invariant Interleaved(rows, out, 64 * m)
    {
      out := InterleavePair(rows, out, m);
      m := m + 1;
    }
  }

  ghost predicate Interleaved(rows: seq<seq<int>>, out: seq<int>, n: nat) {
    && Rows32(rows) && |out| == n <= 32 * |rows|
    && forall i :: 0 <= i < n ==> CroutonRow(i) < |rows| && out[i] == rows[CroutonRow(i)][CroutonCol(i)]
  }

  method InterleavePair(rows: seq<seq<int>>, out0: seq<int>, m: nat) returns (out: seq<int>)
    requires 2 * m + 1 < |rows| && Interleaved(rows, out0, 64 * m)
    ensures Interleaved(rows, out, 64 * m + 64)
  {
    var a, b := rows[m * 2], rows[m * 2 + 1];
    out := out0;
    var c := 0;
    while c < 32
      invariant 0 <= c <= 32
      invariant Interleaved(rows, out, 64 * m + 2 * c)
    {
      PairOfPositions(m, c);
      out := out + [a[c], b[c]];
      c := c + 1;
    }
  }

  lemma PairOfPositions(m: nat, c: nat)
    requires c < 32
    ensures var i := 64 * m + 2 * c;
            CroutonRow(i) == 2 * m && CroutonRow(i + 1) == 2 * m + 1 && CroutonCol(i) == c && CroutonCol(i + 1) == c
  {
  }

  /** The tile of a tap and two banks. */
  method Tile32(s: Shape, v: seq<int>, tap: Tap, n0: nat, k0: nat) returns (data: seq<int>)
    requires |v| == Count(s) && ValidTap(s, tap) && n0 < s.cout && k0 < s.cin
    ensures |data| == 1024
    ensures forall i :: 0 <= i < 1024 ==> data[i] == Value(s, v, Weight(tap, k0 + CroutonRow(i), n0 + CroutonCol(i)))
  {
    var nn := if n0 + 32 < s.cout then n0 + 32 else s.cout;
    var padc := 32 - (nn - n0);
    var last := if k0 + 32 < s.cin then k0 + 32 else s.cin;
    var rows: seq<seq<int>> := [];
    var cin := k0;
    while cin < last
      invariant k0 <= cin <= last && |rows| == cin - k0
      invariant TileRows(s, v, tap, n0, k0, rows)
    {
      var row := TileRow(s, v, tap, n0, nn, cin);
      rows := rows + [row];
      cin := cin + 1;
    }
    while |rows| < 32
      invariant |rows| <= 32 && (|rows| < 32 ==> k0 + |rows| >= s.cin)
      invariant TileRows(s, v, tap, n0, k0, rows)
    {
      rows := rows + [Zeros(32)];
    }
    data := Interleave32(rows);
    TileOfRows(s, v, tap, n0, k0, rows, data);
  }

  lemma TileOfRows(s: Shape, v: seq<int>, tap: Tap, n0: nat, k0: nat, rows: seq<seq<int>>, data: seq<int>)
    requires |v| == Count(s) && |rows| == 32 && |data| == 1024 && TileRows(s, v, tap, n0, k0, rows) && Rows32(rows)
    requires forall i :: 0 <= i < |data| ==> data[i] == if CroutonRow(i) < |rows| then rows[CroutonRow(i)][CroutonCol(i)] else 0
    ensures forall i :: 0 <= i < 1024 ==> data[i] == Value(s, v, Weight(tap, k0 + CroutonRow(i), n0 + CroutonCol(i)))
  {
    forall i | 0 <= i < 1024
      ensures data[i] == Value(s, v, Weight(tap, k0 + CroutonRow(i), n0 + CroutonCol(i)))
    {
      CroutonIsOnto(i);
      assert IsTileRow(s, v, tap, n0, k0 + CroutonRow(i), rows[CroutonRow(i)]);
    }
  }

  /** Rows of a tile, each with the weights of one input channel. */
  ghost predicate TileRows(s: Shape, v: seq<int>, tap: Tap, n0: nat, k0: nat, rows: seq<seq<int>>)
    requires |v| == Count(s)
  {
    forall r :: 0 <= r < |rows| ==> IsTileRow(s, v, tap, n0, k0 + r, rows[r])
  }

  ghost predicate IsTileRow(s: Shape, v: seq<int>, tap: Tap, n0: nat, cin: nat, row: seq<int>)
    requires |v| == Count(s)
  {
    |row| == 32 && forall c :: 0 <= c < 32 ==> row[c] == Value(s, v, Weight(tap, cin, n0 + c))
  }

  method TileRow(s: Shape, v: seq<int>, tap: Tap, n0: nat, nn: nat, cin: nat) returns (row: seq<int>)
    requires |v| == Count(s) && ValidTap(s, tap) && cin < s.cin
    requires n0 < nn && nn == if n0 + 32 < s.cout then n0 + 32 else s.cout
    ensures IsTileRow(s, v, tap, n0, cin, row)
  {
    var base := ((tap.h * s.kw + tap.kw) * s.cin + cin) * s.cout;
    RowLies(s, tap, cin, n0, nn);
    row := v[base + n0..base + nn] + Zeros(32 - (nn - n0));
    forall c | 0 <= c < 32
      ensures row[c] == Value(s, v, Weight(tap, cin, n0 + c))
    {
      assert n0 + c < nn ==> Flat(s, Weight(tap, cin, n0 + c)) == base + n0 + c;
    }
  }

  lemma RowLies(s: Shape, tap: Tap, cin: nat, n0: nat, nn: nat)
    requires ValidTap(s, tap) && cin < s.cin && n0 < nn <= s.cout
    ensures var base := At(s.cout, At(s.cin, At(s.kw, tap.h, tap.kw), cin), 0);
            0 <= base + n0 < base + nn <= Count(s)
  {
    FlatBound(s, Weight(tap, cin, n0));
    FlatBound(s, Weight(tap, cin, nn - 1));
    FlatBound(s, Weight(tap, cin, 0));
  }

  /** The order of taps, computed as the list comprehension does. */
  method OrderOfTaps(stride2: bool, s: Shape) returns (taps: seq<Tap>)
    ensures taps == TapOrder(stride2, s)
  {
    if s.kh == 5 && s.kw == 5 {
      return T5;
    }
    if stride2 && s.kh == 3 && s.kw == 3 {
      return T2;
    }
    taps := [];
    var h := 0;
    while h < s.kh
      invariant 0 <= h <= s.kh && taps == DefaultTaps(h, s.kw)
    {
      ghost var before := taps;
      var kw := s.kw;
      while kw > 0
        invariant 0 <= kw <= s.kw && taps == before + RowTaps(h, s.kw)[..s.kw - kw]
      {
        kw := kw - 1;
        taps := taps + [Tap(h, kw)];
      }
      assert RowTaps(h, s.kw)[..s.kw] == RowTaps(h, s.kw);
      h := h + 1;
    }
  }

  /** All tiles before tap t of banks n and k are written. */
  ghost predicate Written(s: Shape, v: seq<int>, taps: seq<Tap>, out: seq<int>, n: nat, k: nat, t: nat)
    requires |v| == Count(s)
  {
    var done := TileIndex(s, |taps|, Tile(n, k, t));
    0 <= done <= Tiles(s, |taps|) && out == TilesData(s, v, taps, done)
  }

  /** All tiles, or those of one bank of output channels; the first convolution keeps its rows
      in their order. */
  method PackWeights(s: Shape, v: seq<int>, member: nat, n0Only: Option<nat>) returns (out: seq<int>)
    requires |v| == Count(s)
    requires n0Only.Some? ==> n0Only.value % 32 == 0 && n0Only.value < s.cout
    ensures var stride2 := member == 52 || member == 58 || member == 148 || member == 150;
            out ==
            if member == 0 then Natural(v)
            else if n0Only.Some? then BankOf(s, v, stride2, n0Only.value / 32)
            else Packed(s, v, stride2)
  {
    if member in NATURAL_MEMBERS {
      out := PackNatural(v);
      return;
    }
    var stride2 := member in S2_MEMBERS;
    var taps := OrderOfTaps(stride2, s);
    OrderListsTaps(stride2, s);
    if n0Only.Some? {
      ghost var n := n0Only.value / 32;
      BanksBefore(s, v, taps, n);
      out := PackBank(s, v, stride2, taps, n0Only.value, n, TilesData(s, v, taps, FirstTile(s, |taps|, n)));
      BankIsSlice(s, v, stride2, n, out);
    } else {
      out := PackBanks(s, v, stride2, taps);
    }
  }

  method PackBanks(s: Shape, v: seq<int>, stride2: bool, taps: seq<Tap>) returns (out: seq<int>)
    requires |v| == Count(s) && ListsTaps(stride2, s, taps)
    ensures out == TilesData(s, v, taps, Tiles(s, |taps|))
  {
    out := [];
    ghost var n := 0;
    var n0 := 0;
    NothingWritten(s, v, taps);
    while n0 < s.cout
      invariant n0 == 32 * n && n <= Banks(s.cout)
      invariant Written(s, v, taps, out, n, 0, 0)
      decreases s.cout - n0
    {
      var data := PackBank(s, v, stride2, taps, n0, n, out);
      out := out + data;
      n0 := n0 + 32;
      n := n + 1;
    }
    AllWritten(s, v, taps, out, n);
  }

  /** The tiles of one bank of output channels. */
  method PackBank(s: Shape, v: seq<int>, stride2: bool, taps: seq<Tap>, n0: nat, ghost n: nat, ghost before: seq<int>)
      returns (out: seq<int>)
    requires |v| == Count(s) && ListsTaps(stride2, s, taps) && n0 == 32 * n && n0 < s.cout
    requires Written(s, v, taps, before, n, 0, 0)
    ensures Written(s, v, taps, before + out, n + 1, 0, 0)
  {
    out := [];
    ghost var k := 0;
    var k0 := 0;
    assert before + [] == before;
    while k0 < s.cin
      invariant k0 == 32 * k && k <= Banks(s.cin)
      invariant Written(s, v, taps, before + out, n, k, 0)
      decreases s.cin - k0
    {
      var data := PackTaps(s, v, stride2, taps, n0, n, k0, k, before + out);
      assert before + out + data == before + (out + data);
      out := out + data;
      k0 := k0 + 32;
      k := k + 1;
    }
    BankWritten(s, v, taps, before + out, n, k);
  }

  /** The tiles of two banks, tap by tap. */
  method PackTaps(s: Shape, v: seq<int>, stride2: bool, taps: seq<Tap>, n0: nat, ghost n: nat, k0: nat, ghost k: nat, ghost before: seq<int>)
      returns (out: seq<int>)
    requires |v| == Count(s) && ListsTaps(stride2, s, taps)
    requires n0 == 32 * n && n0 < s.cout && k0 == 32 * k && k0 < s.cin
    requires Written(s, v, taps, before, n, k, 0)
    ensures Written(s, v, taps, before + out, n, k + 1, 0)
  {
    out := [];
    var t := 0;
    assert before + [] == before;
    while t < |taps|
      invariant 0 <= t <= |taps| && Written(s, v, taps, before + out, n, k, t)
    {
      var data := Tile32(s, v, taps[t], n0, k0);
      TileWritten(s, v, taps, before + out, n, k, t, data);
      assert before + out + data == before + (out + data);
      out := out + data;
      t := t + 1;
    }
    TapsWritten(s, v, taps, before + out, n, k);
  }

  /** Rows of 32 in their order, padded to an even number. */
  method PackNatural(v: seq<int>) returns (out: seq<int>)
    ensures out == Natural(v)
  {
    var nrows := (|v| + 31) / 32;
    if nrows % 2 == 1 {
      nrows := nrows + 1;
    }
    RowCount(|v|);
    var rows := RowsOf(v + Zeros(32 * nrows - |v|), nrows);
    out := Interleave32(rows);
    RowsAreNatural(v, rows, out);
  }

  lemma RowCount(count: nat)
    ensures var nrows := (count + 31) / 32;
            count <= 32 * nrows && (if nrows % 2 == 1 then nrows + 1 else nrows) == 2 * ((count + 63) / 64)
  {
  }

  /** A list cut into rows of 32. */
  function RowsOf(padded: seq<int>, nrows: nat): (rows: seq<seq<int>>)
    requires |padded| == 32 * nrows
    ensures |rows| == nrows && Rows32(rows)
    ensures forall r, c :: 0 <= r < nrows && 0 <= c < 32 ==> rows[r][c] == padded[r * 32 + c]
  {
    seq(nrows, r requires 0 <= r < nrows => padded[r * 32..(r + 1) * 32])
  }

  lemma RowsAreNatural(v: seq<int>, rows: seq<seq<int>>, out: seq<int>)
    requires |rows| == 2 * ((|v| + 63) / 64) && Rows32(rows) && |v| <= 32 * |rows|
    requires rows == RowsOf(v + Zeros(32 * |rows| - |v|), |rows|) && |out| == 32 * |rows|
    requires forall i :: 0 <= i < |out| ==> out[i] == if CroutonRow(i) < |rows| then rows[CroutonRow(i)][CroutonCol(i)] else 0
    ensures out == Natural(v)
  {
    forall i | 0 <= i < |out|
      ensures out[i] == Natural(v)[i]
    {
      InRows(i, |rows|);
      assert out[i] == (v + Zeros(32 * |rows| - |v|))[NaturalIndex(i)];
    }
  }

  lemma InRows(i: nat, rows: nat)
    requires i < 32 * rows && rows % 2 == 0
    ensures 0 <= CroutonRow(i) < rows && 0 <= CroutonCol(i) < 32
  {
    var pairs := rows / 2;
    assert i < 64 * pairs;
    assert i / 64 < pairs;
  }

  lemma BanksBefore(s: Shape, v: seq<int>, taps: seq<Tap>, n: nat)
    requires |v| == Count(s) && n <= Banks(s.cout)
    ensures FirstTile(s, |taps|, n) <= Tiles(s, |taps|)
    ensures Written(s, v, taps, TilesData(s, v, taps, FirstTile(s, |taps|, n)), n, 0, 0)
  {
    FirstTileBound(s, |taps|, n);
  }

  /** What is written after the banks before n is bank n of the whole. */
  lemma BankIsSlice(s: Shape, v: seq<int>, stride2: bool, n: nat, out: seq<int>)
    requires |v| == Count(s) && n < Banks(s.cout)
    requires FirstTile(s, |TapOrder(stride2, s)|, n) <= Tiles(s, |TapOrder(stride2, s)|)
    requires Written(s, v, TapOrder(stride2, s), TilesData(s, v, TapOrder(stride2, s), FirstTile(s, |TapOrder(stride2, s)|, n)) + out, n + 1, 0, 0)
    ensures out == BankOf(s, v, stride2, n)
  {
    var taps := TapOrder(stride2, s);
    FirstTileBound(s, |taps|, n + 1);
    FirstTileBound(s, |taps|, n);
    TilesDataPrefix(s, v, taps, FirstTile(s, |taps|, n + 1), Tiles(s, |taps|));
    var before := TilesData(s, v, taps, FirstTile(s, |taps|, n));
    assert before + out == TilesData(s, v, taps, FirstTile(s, |taps|, n + 1));
    assert out == (before + out)[|before|..];
  }

  lemma NothingWritten(s: Shape, v: seq<int>, taps: seq<Tap>)
    requires |v| == Count(s)
    ensures Written(s, v, taps, [], 0, 0, 0)
  {
  }

  lemma TileWritten(s: Shape, v: seq<int>, taps: seq<Tap>, out: seq<int>, n: nat, k: nat, t: nat, data: seq<int>)
    requires |v| == Count(s) && Written(s, v, taps, out, n, k, t) && ValidTile(s, |taps|, Tile(n, k, t)) && |data| == 1024
    requires forall i :: 0 <= i < 1024 ==> data[i] == Value(s, v, Weight(taps[t], 32 * k + CroutonRow(i), 32 * n + CroutonCol(i)))
    ensures Written(s, v, taps, out + data, n, k, t + 1)
  {
    var tile := Tile(n, k, t);
    TileOfIndex(s, |taps|, tile);
    assert data == TileData(s, v, taps, tile);
    assert TileIndex(s, |taps|, Tile(n, k, t + 1)) == TileIndex(s, |taps|, tile) + 1;
  }

  lemma TapsWritten(s: Shape, v: seq<int>, taps: seq<Tap>, out: seq<int>, n: nat, k: nat)
    requires |v| == Count(s) && Written(s, v, taps, out, n, k, |taps|)
    ensures Written(s, v, taps, out, n, k + 1, 0)
  {
    assert At(Banks(s.cin), n, k + 1) == At(Banks(s.cin), n, k) + 1;
    NextRow(|taps|, At(Banks(s.cin), n, k));
  }

  lemma BankWritten(s: Shape, v: seq<int>, taps: seq<Tap>, out: seq<int>, n: nat, k: nat)
    requires |v| == Count(s) && Written(s, v, taps, out, n, k, 0) && 32 * k >= s.cin && k <= Banks(s.cin)
    ensures Written(s, v, taps, out, n + 1, 0, 0)
  {
    assert k == Banks(s.cin);
    NextRow(Banks(s.cin), n);
  }

  lemma NextRow(width: int, row: int)
    ensures At(width, row, width) == At(width, row + 1, 0)
  {
  }

  lemma AllWritten(s: Shape, v: seq<int>, taps: seq<Tap>, out: seq<int>, n: nat)
    requires |v| == Count(s) && Written(s, v, taps, out, n, 0, 0) && 32 * n >= s.cout && n <= Banks(s.cout)
    ensures out == TilesData(s, v, taps, Tiles(s, |taps|))
  {
    assert n == Banks(s.cout);
    assert At(|taps|, At(Banks(s.cin), n, 0), 0) == n * Banks(s.cin) * |taps|;
  }
}
