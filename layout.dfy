/**
 * The board's geometry: an 8x8 grid of square cells whose side is
 * `(45 * 1.5) as i16`, the window exactly eight cells wide and high, and the
 * conversion from a pixel to the cell under it.
 */
module Layout {

  /** Cells per side of the board. */
  const GRID_SIZE: nat := 8

  /** 45 * 1.5 = 67.5, which the cast to i16 truncates toward zero. */
  const CELL_SIZE: nat := 135 / 2

  /** Side of the window in pixels. */
  const SCREEN_SIZE: nat := GRID_SIZE * CELL_SIZE

  /**
   * The cell column (or row) under pixel coordinate `px`. The click handler
   * divides after a cast to isize in one branch and to usize in the other;
   * on natural numbers the two agree with this division. The pixel lies in
   * the cell it maps to.
   */
  function ToCell(px: nat): (c: nat)
    ensures CellOrigin(c) <= px < CellOrigin(c) + CELL_SIZE
  {
    px / CELL_SIZE
  }

  /** The pixel at the top-left corner of cell column (or row) `c`. */
  function CellOrigin(c: nat): nat {
    c * CELL_SIZE
  }

  /** The geometry the constants give: 67-pixel cells on a 536-pixel window. */
  lemma Dimensions()
    ensures CELL_SIZE == 67 && SCREEN_SIZE == 536
  {
  }

  /** A pixel inside the window lies in one of the eight cells. */
  lemma ToCellOnBoard(px: nat)
    requires px < SCREEN_SIZE
    ensures ToCell(px) < GRID_SIZE
  {
  }

  /**
   * Round trip: every pixel of a cell maps back to that cell, so the cell
   * drawn at CellOrigin(c) is the one a click inside it selects.
   */
  lemma ToCellOfCell(c: nat, offset: nat)
    requires offset < CELL_SIZE
    ensures ToCell(CellOrigin(c) + offset) == c
  {
    var px := CellOrigin(c) + offset;
    assert CELL_SIZE * c <= px < CELL_SIZE * (c + 1);
  }
}
