/** The packed activation surface and its inverse (kernels/host/inv_crouton16.py:32-57, 66-82):
    a matrix of M by K elements, both multiples of 32, in phases of four rows. */
module Crouton {
  import opened MixedRadix

  /** One packed element: its phase, column tile, row tile, row pair, column and row of the
      pair. */
  datatype Cell = Cell(phase: int, kt: int, m32: int, pair: int, col: int, which: int)

  predicate ValidCell(n_m32: nat, n_kt: nat, c: Cell) {
    0 <= c.phase < 8 && 0 <= c.kt < n_kt && 0 <= c.m32 < n_m32 && 0 <= c.pair < 2 && 0 <= c.col < 32 && 0 <= c.which < 2
  }

  /** Position of the pair of a cell, and of the cell. */
  function PairIndex(n_m32: nat, n_kt: nat, c: Cell): int {
    At(32, At(2, At(n_m32, At(n_kt, c.phase, c.kt), c.m32), c.pair), c.col)
  }

  function Index(n_m32: nat, n_kt: nat, c: Cell): int {
    At(2, PairIndex(n_m32, n_kt, c), c.which)
  }

  /** The cell at a position, digit by digit. */
  function CellOf(n_m32: nat, n_kt: nat, p: nat): Cell
    requires n_m32 > 0 && n_kt > 0
  {
    var pair_idx := p / 2;
    var rest := pair_idx / 32;
    var rest1 := rest / 2;
    var rest2 := rest1 / n_m32;
    Cell(rest2 / n_kt, rest2 % n_kt, rest1 % n_m32, rest % 2, pair_idx % 32, p % 2)
  }

  lemma IndexOfCell(n_m32: nat, n_kt: nat, p: nat)
    requires n_m32 > 0 && n_kt > 0
    ensures Index(n_m32, n_kt, CellOf(n_m32, n_kt, p)) == p
  {
    var rest := p / 2 / 32;
    DivModAt(2, p);
    DivModAt(32, p / 2);
    DivModAt(2, rest);
    DivModAt(n_m32, rest / 2);
    DivModAt(n_kt, rest / 2 / n_m32);
  }

  /** Number of packed elements. */
  function Size(n_m32: nat, n_kt: nat): nat {
    32 * n_m32 * (32 * n_kt)
  }

  lemma SizeAsIndex(n_m32: nat, n_kt: nat)
    ensures Size(n_m32, n_kt) == At(2, At(32, At(2, At(n_m32, At(n_kt, 8, 0), 0), 0), 0), 0)
    ensures Size(n_m32, n_kt) == 128 * (8 * n_kt * n_m32)
  {
    var a := n_kt * n_m32;
    assert 32 * n_m32 * (32 * n_kt) == 1024 * a;
    assert 8 * n_kt * n_m32 == 8 * a;
    assert At(n_m32, At(n_kt, 8, 0), 0) == 8 * a;
  }

  lemma ValidCellOf(n_m32: nat, n_kt: nat, p: nat)
    requires n_m32 > 0 && n_kt > 0 && p < Size(n_m32, n_kt)
    ensures ValidCell(n_m32, n_kt, CellOf(n_m32, n_kt, p))
  {
    SizeAsIndex(n_m32, n_kt);
    var rest1 := p / 2 / 32 / 2;
    assert rest1 == p / 128;
    assert rest1 < 8 * n_kt * n_m32;
    DivBound(n_m32, 8 * n_kt, rest1);
    DivBound(n_kt, 8, rest1 / n_m32);
    DivModAt(n_m32, rest1);
    DivModAt(n_kt, rest1 / n_m32);
  }

  /** Digits put together lie in the surface, and taken apart again are the same. */
  lemma CellOfIndex(n_m32: nat, n_kt: nat, c: Cell)
    requires ValidCell(n_m32, n_kt, c)
    ensures 0 <= Index(n_m32, n_kt, c) < Size(n_m32, n_kt) && CellOf(n_m32, n_kt, Index(n_m32, n_kt, c)) == c
  {
    var a := At(n_kt, c.phase, c.kt);
    var b := At(n_m32, a, c.m32);
    SizeAsIndex(n_m32, n_kt);
    AtBound(n_kt, 8, c.phase, c.kt);
    AtBound(n_m32, 8 * n_kt, a, c.m32);
    AtDivMod(n_kt, c.phase, c.kt);
    AtDivMod(n_m32, a, c.m32);
    AtDivMod(2, b, c.pair);
    AtDivMod(32, At(2, b, c.pair), c.col);
    AtDivMod(2, PairIndex(n_m32, n_kt, c), c.which);
  }

  // ----- Matrix coordinates -----

  function Row(c: Cell): int {
    c.m32 * 32 + c.phase * 4 + c.pair * 2 + c.which
  }

  function Col(c: Cell): int {
    c.kt * 32 + c.col
  }

  function CellAt(row: int, col: int): Cell {
    Cell(row % 32 / 4, col / 32, row / 32, row % 4 / 2, col % 32, row % 2)
  }

  /** Cells and matrix coordinates correspond one to one. */
  lemma CellsAreCoordinates(n_m32: nat, n_kt: nat, c: Cell)
    requires ValidCell(n_m32, n_kt, c)
    ensures 0 <= Row(c) < 32 * n_m32 && 0 <= Col(c) < 32 * n_kt && CellAt(Row(c), Col(c)) == c
  {
    RowDigits(c.m32, c.phase, c.pair, c.which);
    AtDivMod(32, c.kt, c.col);
  }

  lemma RowDigits(m32: int, phase: int, pair: int, which: int)
    requires 0 <= phase < 8 && 0 <= pair < 2 && 0 <= which < 2
    ensures var row := m32 * 32 + phase * 4 + pair * 2 + which;
            row / 32 == m32 && row % 32 / 4 == phase && row % 4 / 2 == pair && row % 2 == which
  {
    var r := phase * 4 + pair * 2 + which;
    AtDivMod(32, m32, r);
    AtDivMod(4, m32 * 8 + phase, pair * 2 + which);
    AtDivMod(2, m32 * 16 + phase * 2 + pair, which);
    AtDivMod(4, phase, pair * 2 + which);
  }

  lemma CoordinatesAreCells(n_m32: nat, n_kt: nat, row: int, col: int)
    requires 0 <= row < 32 * n_m32 && 0 <= col < 32 * n_kt
    ensures ValidCell(n_m32, n_kt, CellAt(row, col)) && Row(CellAt(row, col)) == row && Col(CellAt(row, col)) == col
  {
  }

  /** Where the packer puts an element of the matrix. */
  function Position(n_m32: nat, n_kt: nat, row: int, col: int): int {
    Index(n_m32, n_kt, CellAt(row, col))
  }

  /** Positions lie in the surface and lead back to their coordinates. */
  lemma PositionOf(n_m32: nat, n_kt: nat, row: int, col: int) returns (p: nat)
    requires 0 <= row < 32 * n_m32 && 0 <= col < 32 * n_kt
    ensures p == Position(n_m32, n_kt, row, col) && p < Size(n_m32, n_kt)
    ensures Row(CellOf(n_m32, n_kt, p)) == row && Col(CellOf(n_m32, n_kt, p)) == col
  {
    CoordinatesAreCells(n_m32, n_kt, row, col);
    CellOfIndex(n_m32, n_kt, CellAt(row, col));
    p := Position(n_m32, n_kt, row, col);
  }

  // ----- Packing and unpacking, as values -----

  /** A matrix of row-major rows, as a function. */
  type Matrix = (int, int) -> int

  function PackedAt(n_m32: nat, n_kt: nat, raw: Matrix, p: nat): int
    requires n_m32 > 0 && n_kt > 0
  {
    var c := CellOf(n_m32, n_kt, p);
    raw(Row(c), Col(c))
  }

  function Packed(n_m32: nat, n_kt: nat, raw: Matrix): (surf: seq<int>)
    ensures |surf| == Size(n_m32, n_kt)
  {
    if n_m32 == 0 || n_kt == 0 then []
    else seq(Size(n_m32, n_kt), p requires 0 <= p => PackedAt(n_m32, n_kt, raw, p))
  }

  /** What the inverse reads for an element. */
  function UnpackedAt(n_m32: nat, n_kt: nat, surf: seq<int>, row: int, col: int): int
    requires |surf| == Size(n_m32, n_kt)
  {
    if 0 <= row < 32 * n_m32 && 0 <= col < 32 * n_kt then
      var p := Position(n_m32, n_kt, row, col);
      assert 0 <= p < |surf| by { var q := PositionOf(n_m32, n_kt, row, col); }
      surf[p]
    else 0
  }

  /** Unpacking a packed matrix gives the matrix. */
  lemma UnpackOfPack(n_m32: nat, n_kt: nat, raw: Matrix, row: int, col: int)
    requires 0 <= row < 32 * n_m32 && 0 <= col < 32 * n_kt
    ensures UnpackedAt(n_m32, n_kt, Packed(n_m32, n_kt, raw), row, col) == raw(row, col)
  {
    var p := PositionOf(n_m32, n_kt, row, col);
  }

  /** Packing an unpacked surface gives the surface, at every position. */
  lemma PackOfUnpack(n_m32: nat, n_kt: nat, surf: seq<int>, raw: Matrix, p: nat)
    requires |surf| == Size(n_m32, n_kt) && p < |surf| && n_m32 > 0 && n_kt > 0
    requires forall row, col :: raw(row, col) == UnpackedAt(n_m32, n_kt, surf, row, col)
    ensures Packed(n_m32, n_kt, raw)[p] == surf[p]
  {
    ValidCellOf(n_m32, n_kt, p);
    CellsAreCoordinates(n_m32, n_kt, CellOf(n_m32, n_kt, p));
    IndexOfCell(n_m32, n_kt, p);
  }

  // ----- The surface, element by element -----

  /** The element with these digits: its place in the surface, and its row and column. */
  predicate ElementLies(surf: seq<int>, n_m32: nat, n_kt: nat, raw: Matrix, phase: nat, kt: nat, m32: nat, pair: nat, col: nat, which: nat) {
    var p := ((((phase * n_kt + kt) * n_m32 + m32) * 2 + pair) * 32 + col) * 2 + which;
    p < |surf| && surf[p] == raw(m32 * 32 + phase * 4 + pair * 2 + which, kt * 32 + col)
  }

  /** Phases, then column tiles, row tiles, row pairs, columns and the two rows of a pair. */
  ghost predicate IsSurface(surf: seq<int>, n_m32: nat, n_kt: nat, raw: Matrix) {
    && |surf| == 32 * n_m32 * (32 * n_kt)
    && forall phase: nat, kt: nat, m32: nat, pair: nat, col: nat, which: nat ::
      phase < 8 && kt < n_kt && m32 < n_m32 && pair < 2 && col < 32 && which < 2 ==>
        ElementLies(surf, n_m32, n_kt, raw, phase, kt, m32, pair, col, which)
  }

  /** Packing makes this surface. */
  lemma PackedIsSurface(n_m32: nat, n_kt: nat, raw: Matrix)
    ensures IsSurface(Packed(n_m32, n_kt, raw), n_m32, n_kt, raw)
  {
    forall phase: nat, kt: nat, m32: nat, pair: nat, col: nat, which: nat |
      phase < 8 && kt < n_kt && m32 < n_m32 && pair < 2 && col < 32 && which < 2
      ensures ElementLies(Packed(n_m32, n_kt, raw), n_m32, n_kt, raw, phase, kt, m32, pair, col, which)
    {
      CellOfIndex(n_m32, n_kt, Cell(phase, kt, m32, pair, col, which));
    }
  }

  /** And it is unpacked to its matrix. */
  lemma SurfaceIsUnpacked(surf: seq<int>, n_m32: nat, n_kt: nat, raw: Matrix, row: int, col: int)
    requires IsSurface(surf, n_m32, n_kt, raw) && 0 <= row < 32 * n_m32 && 0 <= col < 32 * n_kt
    ensures UnpackedAt(n_m32, n_kt, surf, row, col) == raw(row, col)
  {
    CoordinatesAreCells(n_m32, n_kt, row, col);
    var c := CellAt(row, col);
    assert ElementLies(surf, n_m32, n_kt, raw, c.phase, c.kt, c.m32, c.pair, c.col, c.which);
  }
}
