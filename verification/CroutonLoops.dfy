/** The loops that pack a surface and take it apart again (kernels/host/inv_crouton16.py:32-57,
    66-82). */
module CroutonLoops {
  import opened MixedRadix
  import opened Crouton

  ghost predicate Holds(raw: array2<int>, m: Matrix)
    reads raw
  {
    forall row, col :: 0 <= row < raw.Length0 && 0 <= col < raw.Length1 ==> raw[row, col] == m(row, col)
  }

  /** The first n elements are packed. */
  ghost predicate PackedUpTo(packed: seq<int>, n_m32: nat, n_kt: nat, m: Matrix, n: int)
    requires n_m32 > 0 && n_kt > 0
  {
    0 <= n <= |packed| && forall p: nat :: p < n ==> packed[p] == PackedAt(n_m32, n_kt, m, p)
  }

  function First(phase: int, kt: int, m32: int, pair: int): Cell {
    Cell(phase, kt, m32, pair, 0, 0)
  }

  /** Surface of the M by K matrix m that an array holds. */
  method Pack(raw: array2<int>, ghost m: Matrix) returns (packed: array<int>)
    requires raw.Length0 % 32 == 0 && raw.Length1 % 32 == 0 && Holds(raw, m)
    ensures fresh(packed) && packed[..] == Packed(raw.Length0 / 32, raw.Length1 / 32, m)
    ensures IsSurface(packed[..], raw.Length0 / 32, raw.Length1 / 32, m)
  {
    PackedIsSurface(raw.Length0 / 32, raw.Length1 / 32, m);
    var n_m32, n_kt := raw.Length0 / 32, raw.Length1 / 32;
    packed := new int[raw.Length0 * raw.Length1];
    if n_m32 == 0 || n_kt == 0 {
      return;
    }
    SizeAsIndex(n_m32, n_kt);
    var out := 0;
    var phase := 0;
    assert At(n_m32, At(n_kt, 0, 0), 0) == 0;
    while phase < 8
      invariant 0 <= phase <= 8
      invariant out == Index(n_m32, n_kt, First(phase, 0, 0, 0)) && PackedUpTo(packed[..], n_m32, n_kt, m, out)
    {
      out := PackPhase(raw, m, packed, n_m32, n_kt, phase, out);
      phase := phase + 1;
    }
  }

  method PackPhase(raw: array2<int>, ghost m: Matrix, packed: array<int>, n_m32: nat, n_kt: nat, phase: int, out0: int) returns (out: int)
    requires raw.Length0 == 32 * n_m32 && raw.Length1 == 32 * n_kt && Holds(raw, m) && packed.Length == Size(n_m32, n_kt)
    requires n_m32 > 0 && n_kt > 0 && 0 <= phase < 8
    requires out0 == Index(n_m32, n_kt, First(phase, 0, 0, 0)) && PackedUpTo(packed[..], n_m32, n_kt, m, out0)
    modifies packed
    ensures out == Index(n_m32, n_kt, First(phase + 1, 0, 0, 0)) && PackedUpTo(packed[..], n_m32, n_kt, m, out)
  {
    out := out0;
    var kt := 0;
    while kt < n_kt
      invariant 0 <= kt <= n_kt
      invariant out == Index(n_m32, n_kt, First(phase, kt, 0, 0)) && PackedUpTo(packed[..], n_m32, n_kt, m, out)
    {
      out := PackColumnTile(raw, m, packed, n_m32, n_kt, phase, kt, out);
      kt := kt + 1;
    }
    Carry(n_kt, phase);
  }

  lemma Carry(width: int, row: int)
    ensures At(width, row, width) == At(width, row + 1, 0)
  {
  }

  method PackColumnTile(raw: array2<int>, ghost m: Matrix, packed: array<int>, n_m32: nat, n_kt: nat, phase: int, kt: int, out0: int)
      returns (out: int)
    requires raw.Length0 == 32 * n_m32 && raw.Length1 == 32 * n_kt && Holds(raw, m) && packed.Length == Size(n_m32, n_kt)
    requires n_m32 > 0 && 0 <= phase < 8 && 0 <= kt < n_kt
    requires out0 == Index(n_m32, n_kt, First(phase, kt, 0, 0)) && PackedUpTo(packed[..], n_m32, n_kt, m, out0)
    modifies packed
    ensures out == Index(n_m32, n_kt, First(phase, kt + 1, 0, 0)) && PackedUpTo(packed[..], n_m32, n_kt, m, out)
  {
    out := out0;
    var m32_group := 0;
    while m32_group < n_m32
      invariant 0 <= m32_group <= n_m32
      invariant out == Index(n_m32, n_kt, First(phase, kt, m32_group, 0)) && PackedUpTo(packed[..], n_m32, n_kt, m, out)
    {
      var row_pair := 0;
      while row_pair < 2
        invariant 0 <= row_pair <= 2
        invariant out == Index(n_m32, n_kt, First(phase, kt, m32_group, row_pair)) && PackedUpTo(packed[..], n_m32, n_kt, m, out)
      {
        out := PackRowPair(raw, m, packed, n_m32, n_kt, First(phase, kt, m32_group, row_pair), out);
        row_pair := row_pair + 1;
      }
      m32_group := m32_group + 1;
    }
    Carry(n_m32, At(n_kt, phase, kt));
    assert At(n_kt, phase, kt + 1) == At(n_kt, phase, kt) + 1;
  }

  /** Two rows of a tile, side by side. */
  method PackRowPair(raw: array2<int>, ghost m: Matrix, packed: array<int>, n_m32: nat, n_kt: nat, first: Cell, out0: int)
      returns (out: int)
    requires raw.Length0 == 32 * n_m32 && raw.Length1 == 32 * n_kt && Holds(raw, m) && packed.Length == Size(n_m32, n_kt)
    requires n_m32 > 0 && n_kt > 0 && ValidCell(n_m32, n_kt, first) && first.col == first.which == 0
    requires out0 == Index(n_m32, n_kt, first) && PackedUpTo(packed[..], n_m32, n_kt, m, out0)
    modifies packed
    ensures out == out0 + 64 && PackedUpTo(packed[..], n_m32, n_kt, m, out)
  {
    out := out0;
    var col := 0;
    while col < 32
      invariant 0 <= col <= 32
      invariant out == out0 + 2 * col && PackedUpTo(packed[..], n_m32, n_kt, m, out)
    {
      PairLies(n_m32, n_kt, m, first, col, out);
      var a, b := ReadPair(raw, m, n_m32, n_kt, first, col);
      PackPair(m, packed, n_m32, n_kt, out, a, b);
      out := out + 2;
      col := col + 1;
    }
  }

  /** Both rows of one column, counted from the first column of the tile. */
  method ReadPair(raw: array2<int>, ghost m: Matrix, n_m32: nat, n_kt: nat, first: Cell, column: int) returns (a: int, b: int)
    requires raw.Length0 == 32 * n_m32 && raw.Length1 == 32 * n_kt && Holds(raw, m)
    requires 0 <= Row(first) && Row(first) + 1 < 32 * n_m32 && 0 <= first.kt * 32 + column < 32 * n_kt && first.which == 0
    ensures a == m(Row(first), first.kt * 32 + column) && b == m(Row(first) + 1, first.kt * 32 + column)
  {
    var row0 := first.m32 * 32 + first.phase * 4 + first.pair * 2;
    var row1 := row0 + 1;
    var k_base := first.kt * 32;
    a, b := raw[row0, k_base + column], raw[row1, k_base + column];
  }

  method PackPair(ghost m: Matrix, packed: array<int>, n_m32: nat, n_kt: nat, out: nat, a: int, b: int)
    requires n_m32 > 0 && n_kt > 0 && PackedUpTo(packed[..], n_m32, n_kt, m, out) && out + 1 < packed.Length
    requires a == PackedAt(n_m32, n_kt, m, out) && b == PackedAt(n_m32, n_kt, m, out + 1)
    modifies packed
    ensures PackedUpTo(packed[..], n_m32, n_kt, m, out + 2)
  {
    packed[out] := a;
    packed[out + 1] := b;
  }

  /** The elements that a pair of positions takes. */
  lemma PairLies(n_m32: nat, n_kt: nat, m: Matrix, first: Cell, col: int, out: int)
    requires ValidCell(n_m32, n_kt, first) && first.col == first.which == 0 && 0 <= col < 32
    requires out == Index(n_m32, n_kt, first) + 2 * col
    ensures var (row, column) := (Row(first), first.kt * 32 + col);
            && 0 <= out && out + 1 < Size(n_m32, n_kt) && 0 <= row && row + 1 < 32 * n_m32 && 0 <= column < 32 * n_kt
            && PackedAt(n_m32, n_kt, m, out) == m(row, column) && PackedAt(n_m32, n_kt, m, out + 1) == m(row + 1, column)
  {
    var a, b := first.(col := col), first.(col := col, which := 1);
    CellOfIndex(n_m32, n_kt, a);
    CellOfIndex(n_m32, n_kt, b);
    CellsAreCoordinates(n_m32, n_kt, a);
    CellsAreCoordinates(n_m32, n_kt, b);
  }

  // ----- Unpacking -----

  /** The matrix that a surface of M by K elements packs. */
  method Unpack(surf: array<int>, n_m32: nat, n_kt: nat) returns (out: array2<int>)
    requires surf.Length == Size(n_m32, n_kt)
    ensures fresh(out) && out.Length0 == 32 * n_m32 && out.Length1 == 32 * n_kt
    ensures forall row, col :: 0 <= row < out.Length0 && 0 <= col < out.Length1 ==>
              out[row, col] == UnpackedAt(n_m32, n_kt, surf[..], row, col)
    ensures forall raw: Matrix :: IsSurface(surf[..], n_m32, n_kt, raw) ==> Holds(out, raw)
  {
    forall raw: Matrix, row, col | IsSurface(surf[..], n_m32, n_kt, raw) && 0 <= row < 32 * n_m32 && 0 <= col < 32 * n_kt {
      SurfaceIsUnpacked(surf[..], n_m32, n_kt, raw, row, col);
    }
    out := new int[32 * n_m32, 32 * n_kt];
    if n_m32 == 0 || n_kt == 0 {
      return;
    }
    EvenSize(n_m32, n_kt);
    var n_pairs := surf.Length / 2;
    Scatter(surf, n_m32, n_kt, out, n_pairs, 0);
    Scatter(surf, n_m32, n_kt, out, n_pairs, 1);
    forall row, col | 0 <= row < out.Length0 && 0 <= col < out.Length1
      ensures out[row, col] == UnpackedAt(n_m32, n_kt, surf[..], row, col)
    {
      AllScattered(out, surf[..], n_m32, n_kt, n_pairs, row, col);
    }
  }

  lemma EvenSize(n_m32: nat, n_kt: nat)
    ensures Size(n_m32, n_kt) == 2 * (Size(n_m32, n_kt) / 2)
  {
    SizeAsIndex(n_m32, n_kt);
  }

  lemma AllScattered(out: array2<int>, surf: seq<int>, n_m32: nat, n_kt: nat, n_pairs: nat, row: int, col: int)
    requires n_m32 > 0 && n_kt > 0 && |surf| == Size(n_m32, n_kt) == 2 * n_pairs
    requires out.Length0 == 32 * n_m32 && out.Length1 == 32 * n_kt && 0 <= row < out.Length0 && 0 <= col < out.Length1
    requires forall q: nat :: q < n_pairs ==> Scattered(out, surf, n_m32, n_kt, q, 0) && Scattered(out, surf, n_m32, n_kt, q, 1)
    ensures out[row, col] == UnpackedAt(n_m32, n_kt, surf, row, col)
  {
    var p := PositionOf(n_m32, n_kt, row, col);
    HalfOf(p, n_pairs);
    assert Scattered(out, surf, n_m32, n_kt, p / 2, p % 2);
  }

  lemma HalfOf(p: nat, n: nat)
    requires p < 2 * n
    ensures p == 2 * (p / 2) + p % 2 && p / 2 < n && 2 * (p / 2) + 1 < 2 * n
  {
  }

  /** Position 2 pair + which is where it belongs. */
  ghost predicate Scattered(out: array2<int>, surf: seq<int>, n_m32: nat, n_kt: nat, pair: nat, which: int)
    requires n_m32 > 0 && n_kt > 0 && |surf| == Size(n_m32, n_kt) && 2 * pair + 1 < |surf| && 0 <= which < 2
    requires out.Length0 == 32 * n_m32 && out.Length1 == 32 * n_kt
    reads out
  {
    var p := 2 * pair + which;
    var c := CellOf(n_m32, n_kt, p);
    ValidCellOf(n_m32, n_kt, p);
    CellsAreCoordinates(n_m32, n_kt, c);
    out[Row(c), Col(c)] == surf[p]
  }

  /** One of the two scattered assignments: every other element of the surface. */
  method Scatter(surf: array<int>, n_m32: nat, n_kt: nat, out: array2<int>, n_pairs: nat, which: int)
    requires n_m32 > 0 && n_kt > 0 && surf.Length == Size(n_m32, n_kt) == 2 * n_pairs && 0 <= which < 2
    requires out.Length0 == 32 * n_m32 && out.Length1 == 32 * n_kt
    requires which == 1 ==> forall q: nat :: q < n_pairs ==> Scattered(out, surf[..], n_m32, n_kt, q, 0)
    modifies out
    ensures forall q: nat :: q < n_pairs ==> Scattered(out, surf[..], n_m32, n_kt, q, which)
    ensures which == 1 ==> forall q: nat :: q < n_pairs ==> Scattered(out, surf[..], n_m32, n_kt, q, 0)
  {
    var pair_idx := 0;
    while pair_idx < n_pairs
      invariant 0 <= pair_idx <= n_pairs
      invariant forall q: nat :: q < pair_idx ==> Scattered(out, surf[..], n_m32, n_kt, q, which)
      invariant which == 1 ==> forall q: nat :: q < n_pairs ==> Scattered(out, surf[..], n_m32, n_kt, q, 0)
    {
      ScatterOne(surf, n_m32, n_kt, out, pair_idx, which);
      pair_idx := pair_idx + 1;
    }
  }

  method ScatterOne(surf: array<int>, n_m32: nat, n_kt: nat, out: array2<int>, pair_idx: nat, which: int)
    requires n_m32 > 0 && n_kt > 0 && surf.Length == Size(n_m32, n_kt) && 2 * pair_idx + 1 < surf.Length && 0 <= which < 2
    requires out.Length0 == 32 * n_m32 && out.Length1 == 32 * n_kt
    modifies out
    ensures Scattered(out, surf[..], n_m32, n_kt, pair_idx, which)
    ensures forall q: nat, w :: 2 * q + 1 < surf.Length && 0 <= w < 2 && old(Scattered(out, surf[..], n_m32, n_kt, q, w)) ==>
              Scattered(out, surf[..], n_m32, n_kt, q, w)
  {
    var row, col := Coordinates(n_m32, n_kt, pair_idx, which, surf.Length);
    var p := 2 * pair_idx + which;
    out[row, col] := surf[p];
    forall q: nat, w | 2 * q + 1 < surf.Length && 0 <= w < 2 && old(Scattered(out, surf[..], n_m32, n_kt, q, w))
      ensures Scattered(out, surf[..], n_m32, n_kt, q, w)
    {
      NoClash(n_m32, n_kt, p, 2 * q + w);
    }
  }

  /** The coordinates of a pair, digit by digit. */
  method Coordinates(n_m32: nat, n_kt: nat, pair_idx: nat, which: int, size: nat) returns (row: int, col: int)
    requires n_m32 > 0 && n_kt > 0 && size == Size(n_m32, n_kt) && 2 * pair_idx + 1 < size && 0 <= which < 2
    ensures var c := CellOf(n_m32, n_kt, 2 * pair_idx + which); row == Row(c) && col == Col(c)
    ensures 0 <= row < 32 * n_m32 && 0 <= col < 32 * n_kt
  {
    var col_in_tile := pair_idx % 32;
    var rest := pair_idx / 32;
    var row_pair := rest % 2;
    rest := rest / 2;
    var m32_group := rest % n_m32;
    rest := rest / n_m32;
    var kt := rest % n_kt;
    rest := rest / n_kt;
    var row4_phase := rest;
    col := kt * 32 + col_in_tile;
    row := m32_group * 32 + row4_phase * 4 + row_pair * 2 + which;
    DigitsOfPair(pair_idx, which);
    ValidCellOf(n_m32, n_kt, 2 * pair_idx + which);
    CellsAreCoordinates(n_m32, n_kt, CellOf(n_m32, n_kt, 2 * pair_idx + which));
  }

  lemma DigitsOfPair(pair: int, which: int)
    requires 0 <= which < 2
    ensures (2 * pair + which) / 2 == pair && (2 * pair + which) % 2 == which
  {
  }

  /** Different positions have different coordinates. */
  lemma NoClash(n_m32: nat, n_kt: nat, p: nat, q: nat)
    requires n_m32 > 0 && n_kt > 0 && p < Size(n_m32, n_kt) && q < Size(n_m32, n_kt)
    ensures var (c, d) := (CellOf(n_m32, n_kt, p), CellOf(n_m32, n_kt, q));
            Row(c) == Row(d) && Col(c) == Col(d) ==> p == q
  {
    ValidCellOf(n_m32, n_kt, p);
    ValidCellOf(n_m32, n_kt, q);
    CellsAreCoordinates(n_m32, n_kt, CellOf(n_m32, n_kt, p));
    CellsAreCoordinates(n_m32, n_kt, CellOf(n_m32, n_kt, q));
    IndexOfCell(n_m32, n_kt, p);
    IndexOfCell(n_m32, n_kt, q);
  }
}
