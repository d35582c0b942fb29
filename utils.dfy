/** Coordinates of the 9x9 grid and the fixed bijection between a
    (column, row) pair and the linear index of a cell in the board array. */
module Utils {

  /** The value of a cell that holds no digit (Cell.EMPTY_VALUE). */
  const EMPTY: int := 0

  /** A digit that can be placed in a cell. */
  type Digit = d: int | 1 <= d <= 9 witness 1

  /** All nine digits: the full candidate set. */
  const AllDigits: set<Digit> := {1, 2, 3, 4, 5, 6, 7, 8, 9}

  /** A cell position (SPoint): column and row, both in [0,8] for a real cell. */
  datatype Point = Point(col: int, row: int)

  predicate InRange(col: int, row: int) {
    0 <= col < 9 && 0 <= row < 9
  }

  /** Utils.CellIndex: from a position to its slot in the 81-cell board. */
  function CellIndex(col: int, row: int): (i: int)
    requires InRange(col, row)
    ensures 0 <= i < 81
    ensures ColOf(i) == col && RowOf(i) == row
  {
    row * 9 + col
  }

  /** The inverse of CellIndex, one coordinate at a time. */
  function ColOf(i: int): (col: int)
    requires 0 <= i < 81
    ensures 0 <= col < 9
  {
    i % 9
  }

  function RowOf(i: int): (row: int)
    requires 0 <= i < 81
    ensures 0 <= row < 9
  {
    i / 9
  }

  /** The position of the cell stored at slot i. */
  function PointOf(i: int): (p: Point)
    requires 0 <= i < 81
    ensures InRange(p.col, p.row) && CellIndex(p.col, p.row) == i
  {
    Point(ColOf(i), RowOf(i))
  }

  /** The number of the 3x3 block that holds a position, blocks numbered
      left to right and top to bottom. */
  function BlockOf(col: int, row: int): (b: int)
    requires InRange(col, row)
    ensures 0 <= b < 9
  {
    row / 3 * 3 + col / 3
  }

  /** CellIndex is one-to-one: two positions share a slot only if they are equal. */
  lemma CellIndexInjective(c1: int, r1: int, c2: int, r2: int)
    requires InRange(c1, r1) && InRange(c2, r2)
    requires CellIndex(c1, r1) == CellIndex(c2, r2)
    ensures c1 == c2 && r1 == r2
  {
  }

  /** CellIndex is onto [0,80]: every slot is the index of its own position. */
  lemma CellIndexSurjective(i: int)
    requires 0 <= i < 81
    ensures InRange(ColOf(i), RowOf(i)) && CellIndex(ColOf(i), RowOf(i)) == i
  {
  }

  /** Distinct slots hold distinct positions. */
  lemma PointOfInjective(i: int, j: int)
    requires 0 <= i < 81 && 0 <= j < 81 && i != j
    ensures PointOf(i) != PointOf(j)
  {
  }
}
