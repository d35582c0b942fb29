/** The cell indices that make up each of the 27 regions, in the order the
    Puzzle constructor collects them, and the facts that the rows, the
    columns and the blocks each split the 81 cells exactly once. */
module Layout {
  import opened Utils

  /** Row i: the cells (j, i) for j = 0..8. */
  function RowIndices(i: int): (s: seq<int>)
    requires 0 <= i < 9
    ensures |s| == 9 && forall j :: 0 <= j < 9 ==> 0 <= s[j] < 81
  {
    seq(9, j requires 0 <= j < 9 => CellIndex(j, i))
  }

  /** Column i: the cells (i, j) for j = 0..8. */
  function ColumnIndices(i: int): (s: seq<int>)
    requires 0 <= i < 9
    ensures |s| == 9 && forall j :: 0 <= j < 9 ==> 0 <= s[j] < 81
  {
    seq(9, j requires 0 <= j < 9 => CellIndex(i, j))
  }

  /** Block i: the 3x3 tile whose top-left cell is (i % 3 * 3, i / 3 * 3),
      walked column by column, each column top to bottom. */
  function BlockIndices(i: int): (s: seq<int>)
    requires 0 <= i < 9
    ensures |s| == 9 && forall j :: 0 <= j < 9 ==> 0 <= s[j] < 81
  {
    seq(9, j requires 0 <= j < 9 => CellIndex(i % 3 * 3 + j / 3, i / 3 * 3 + j % 3))
  }

  /** A region's members name real cells, each one once. */
  ghost predicate NineDistinctCells(s: seq<int>) {
    |s| == 9 &&
    (forall j :: 0 <= j < 9 ==> 0 <= s[j] < 81) &&
    (forall j, k :: 0 <= j < 9 && 0 <= k < 9 && j != k ==> s[j] != s[k])
  }

  lemma RowIsRow(i: int, j: int)
    requires 0 <= i < 9 && 0 <= j < 9
    ensures PointOf(RowIndices(i)[j]) == Point(j, i)
  {
  }

  lemma ColumnIsColumn(i: int, j: int)
    requires 0 <= i < 9 && 0 <= j < 9
    ensures PointOf(ColumnIndices(i)[j]) == Point(i, j)
  {
  }

  /** The j-th member of block i lies in block i, at column offset j / 3 and
      row offset j % 3 within the tile. */
  lemma BlockIsBlock(i: int, j: int)
    requires 0 <= i < 9 && 0 <= j < 9
    ensures PointOf(BlockIndices(i)[j]) == Point(i % 3 * 3 + j / 3, i / 3 * 3 + j % 3)
    ensures BlockOf(PointOf(BlockIndices(i)[j]).col, PointOf(BlockIndices(i)[j]).row) == i
  {
    var c, r := i % 3 * 3 + j / 3, i / 3 * 3 + j % 3;
    assert BlockIndices(i)[j] == CellIndex(c, r);
    ThirdOf(i % 3, j / 3);
    ThirdOf(i / 3, j % 3);
    assert c / 3 == i % 3 && r / 3 == i / 3;
  }

  /** Integer division by 3 undoes a multiplication by 3 plus a small offset. */
  lemma ThirdOf(a: int, b: int)
    requires 0 <= a && 0 <= b < 3
    ensures (a * 3 + b) / 3 == a && (a * 3 + b) % 3 == b
  {
  }

  /** Every one of the 27 regions holds nine distinct cells. */
  lemma RegionsHaveNineDistinctCells(i: int)
    requires 0 <= i < 9
    ensures NineDistinctCells(RowIndices(i))
    ensures NineDistinctCells(ColumnIndices(i))
    ensures NineDistinctCells(BlockIndices(i))
  {
    forall j, k | 0 <= j < 9 && 0 <= k < 9 && j != k
      ensures BlockIndices(i)[j] != BlockIndices(i)[k]
    {
      BlockIsBlock(i, j);
      BlockIsBlock(i, k);
    }
  }

  /** Where a cell sits inside its block, matching the order of BlockIndices. */
  function SlotInBlock(col: int, row: int): (j: int)
    requires InRange(col, row)
    ensures 0 <= j < 9
  {
    col % 3 * 3 + row % 3
  }

  /** The rows partition the grid: each cell k is in exactly one row, at
      exactly one place. */
  lemma RowsPartition(k: int)
    requires 0 <= k < 81
    ensures RowIndices(RowOf(k))[ColOf(k)] == k
    ensures forall i, j :: 0 <= i < 9 && 0 <= j < 9 && RowIndices(i)[j] == k ==>
              i == RowOf(k) && j == ColOf(k)
  {
  }

  /** The columns partition the grid. */
  lemma ColumnsPartition(k: int)
    requires 0 <= k < 81
    ensures ColumnIndices(ColOf(k))[RowOf(k)] == k
    ensures forall i, j :: 0 <= i < 9 && 0 <= j < 9 && ColumnIndices(i)[j] == k ==>
              i == ColOf(k) && j == RowOf(k)
  {
  }

  /** The blocks partition the grid: cell k is in block BlockOf of its
      position, at slot SlotInBlock, and nowhere else. */
  lemma BlocksPartition(k: int)
    requires 0 <= k < 81
    ensures BlockIndices(BlockOf(ColOf(k), RowOf(k)))[SlotInBlock(ColOf(k), RowOf(k))] == k
    ensures forall i, j :: 0 <= i < 9 && 0 <= j < 9 && BlockIndices(i)[j] == k ==>
              i == BlockOf(ColOf(k), RowOf(k)) && j == SlotInBlock(ColOf(k), RowOf(k))
  {
    var c, r := ColOf(k), RowOf(k);
    var b, s := BlockOf(c, r), SlotInBlock(c, r);
    ThirdOf(r / 3, c / 3);
    ThirdOf(c % 3, r % 3);
    assert b % 3 * 3 + s / 3 == c;
    assert b / 3 * 3 + s % 3 == r;
    assert BlockIndices(b)[s] == CellIndex(c, r);
    forall i, j | 0 <= i < 9 && 0 <= j < 9 && BlockIndices(i)[j] == k
      ensures i == b && j == s
    {
      BlockIsBlock(i, j);
    }
  }
}
