/** Row-major addressing: the flat index of (row, col) in rows of a given width. */
module MixedRadix {

  function At(width: int, row: int, col: int): int {
    row * width + col
  }

  lemma AtBound(width: int, rows: int, row: int, col: int)
    requires 0 <= row < rows && 0 <= col < width
    ensures 0 <= At(width, row, col) < rows * width
  {
    assert (row + 1) * width <= rows * width;
  }

  /** Earlier rows lie before later ones. */
  lemma AtOrder(width: int, row: int, col: int, row': int, col': int)
    requires 0 <= col < width && 0 <= col' < width && row < row'
    ensures At(width, row, col) < At(width, row', col')
    ensures At(width, row, 0) + width <= At(width, row', 0)
  {
    assert (row + 1) * width <= row' * width;
  }

  lemma AtInjective(width: int, row: int, col: int, row': int, col': int)
    requires 0 <= col < width && 0 <= col' < width
    requires At(width, row, col) == At(width, row', col')
    ensures row == row' && col == col'
  {
    if row < row' {
      AtOrder(width, row, col, row', col');
    } else if row' < row {
      AtOrder(width, row', col', row, col);
    }
  }

  /** Division and remainder undo the addressing. */
  lemma AtDivMod(width: int, row: int, col: int)
    requires 0 <= col < width
    ensures At(width, row, col) / width == row && At(width, row, col) % width == col
  {
    var f := At(width, row, col);
    assert At(width, f / width, f % width) == f;
    AtInjective(width, row, col, f / width, f % width);
  }

  /** And the addressing undoes division and remainder. */
  lemma DivModAt(width: int, f: int)
    requires 0 < width
    ensures At(width, f / width, f % width) == f && 0 <= f % width < width
  {
  }

  lemma DivBound(width: int, rows: int, f: int)
    requires 0 < width && 0 <= f < rows * width
    ensures 0 <= f / width < rows
  {
    assert (f / width) * width < rows * width;
  }
}
