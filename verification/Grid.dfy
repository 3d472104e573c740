/** Row-major cells of a flat buffer. */
module Grid {

  function Cell(row: nat, width: nat, col: nat): nat {
    row * width + col
  }

  lemma RowEnd(row: nat, rows: nat, width: nat)
    requires row < rows
    ensures row * width + width <= rows * width
  {
    var d := rows - row - 1;
    assert rows * width == (row + 1 + d) * width == row * width + width + d * width;
  }

  lemma InBounds(row: nat, rows: nat, width: nat, col: nat)
    requires row < rows && col < width
    ensures Cell(row, width, col) < rows * width
  {
    RowEnd(row, rows, width);
  }

  /** Different rows or columns are different cells. */
  lemma Injective(width: nat, row: nat, col: nat, row': nat, col': nat)
    requires col < width && col' < width
    requires Cell(row, width, col) == Cell(row', width, col')
    ensures row == row' && col == col'
  {
    if row < row' { RowEnd(row, row', width); }
    if row' < row { RowEnd(row', row, width); }
  }

  /** Every index is a cell. */
  lemma Cover(rows: nat, width: nat, x: nat) returns (row: nat, col: nat)
    requires x < rows * width
    ensures row < rows && col < width && Cell(row, width, col) == x
    decreases rows
  {
    if rows == 0 || width == 0 { assert false; }
    if x >= (rows - 1) * width {
      row, col := rows - 1, x - (rows - 1) * width;
    } else {
      row, col := Cover(rows - 1, width, x);
    }
  }
}
