/** The Sudoku grid model of Puzzle.cs: 81 cells in a flat board indexed by
    CellIndex, and 27 regions (9 rows, 9 columns, 9 blocks) that name
    their cells by index. */
module Sudoku {
  import opened Utils
  import opened Layout
  import opened Duplicates
  import opened Text
  import opened Render
  import opened Parsing

  /** A region: the indices of its nine cells. The constructor builds every
      region from one reused buffer, so a region keeps its own copy. */
  datatype Region = Region(members: seq<int>)

  /** One of the 81 cells: its given value, its current value, its position
      and its candidate digits (CandI). */
  class Cell {
    const originalValue: int
    const position: Point
    var value: int
    var candidates: set<Digit>

    /** A new cell starts with its given value and no candidates. */
    constructor (value: int, position: Point)
      ensures this.value == value && originalValue == value && this.position == position
      ensures candidates == {}
    {
      originalValue := value;
      this.position := position;
      this.value := value;
      candidates := {};
    }

    /** CandI.Set(digit, true): digit becomes a candidate. */
    method Allow(digit: Digit)
      modifies this`candidates
      ensures candidates == old(candidates) + {digit}
    {
      candidates := candidates + {digit};
    }

    /** The first pass of RefreshCandidates on this cell: digits 1 to 9
        are allowed in turn, so every digit is a candidate. */
    method AllowAll()
      modifies this`candidates
      ensures candidates == AllDigits
    {
      for digit := 1 to 10
        invariant forall d :: 1 <= d < digit ==> d in candidates
      {
        Allow(digit);
      }
      assert candidates == AllDigits;
    }

    /** Cell.SetValue as far as this model sees it: the value becomes v.
        Its elimination of v from the candidates of the cell's peers is not
        part of this model. */
    method SetValue(v: int)
      modifies this`value
      ensures value == v
    {
      value := v;
    }
  }

  /** What Reset leaves in a cell: its value if that is still the original
      one, EMPTY otherwise. */
  function ResetValue(value: int, originalValue: int): int {
    if value != originalValue then EMPTY else value
  }

  /** Reset applied to a whole grid of values. */
  function ResetGrid(vals: seq<int>, origs: seq<int>): (r: seq<int>)
    requires |vals| == |origs|
    ensures |r| == |vals|
  {
    seq(|vals|, i requires 0 <= i < |vals| => ResetValue(vals[i], origs[i]))
  }

  /** After Reset every cell holds its original value or nothing, the cells
      that still held their original value are untouched, and a second
      Reset changes nothing. */
  lemma ResetSettles(vals: seq<int>, origs: seq<int>)
    requires |vals| == |origs|
    ensures forall i :: 0 <= i < |vals| ==>
              ResetGrid(vals, origs)[i] == origs[i] || ResetGrid(vals, origs)[i] == EMPTY
    ensures forall i :: 0 <= i < |vals| && vals[i] == origs[i] ==> ResetGrid(vals, origs)[i] == vals[i]
    ensures forall i :: 0 <= i < |vals| && origs[i] == EMPTY ==> ResetGrid(vals, origs)[i] == EMPTY
    ensures ResetGrid(ResetGrid(vals, origs), origs) == ResetGrid(vals, origs)
  {
  }

  class Puzzle {
    const isCustom: bool
    const board: array<Cell>
    const rowsI: array<Region>
    const columnsI: array<Region>
    const blocksI: array<Region>

    /** The 81 cells. */
    ghost function Cells(): set<Cell>
      reads board
    {
      set i | 0 <= i < board.Length :: board[i]
    }

    /** Every object the puzzle consists of. */
    ghost function Repr(): set<object>
      reads board
    {
      {board as object, rowsI, columnsI, blocksI} + Cells()
    }

    /** The shape the constructor establishes and nothing ever changes: cell
        i sits at position PointOf(i) (so the 81 cells are distinct objects),
        and row, column and block i name the cells of RowIndices(i),
        ColumnIndices(i) and BlockIndices(i). */
    ghost predicate Valid()
      reads board, rowsI, columnsI, blocksI
    {
      board.Length == 81 && rowsI.Length == 9 && columnsI.Length == 9 && blocksI.Length == 9
      && (forall i :: 0 <= i < 81 ==> board[i].position == PointOf(i))
      && (forall i, j :: 0 <= i < 81 && 0 <= j < 81 && i != j ==> board[i] != board[j])
      && (forall i :: 0 <= i < 9 ==>
            rowsI[i] == Region(RowIndices(i))
            && columnsI[i] == Region(ColumnIndices(i))
            && blocksI[i] == Region(BlockIndices(i)))
    }

    /** The current values, slot by slot. */
    ghost function Values(): (vals: seq<int>)
      requires board.Length == 81
      reads board, board[..]
      ensures |vals| == 81 && forall i :: 0 <= i < 81 ==> vals[i] == board[i].value
    {
      seq(81, i requires 0 <= i < board.Length reads board, board[..] => board[i].value)
    }

    /** The original (given) values, slot by slot. */
    ghost function Originals(): (origs: seq<int>)
      requires board.Length == 81
      reads board
      ensures |origs| == 81 && forall i :: 0 <= i < 81 ==> origs[i] == board[i].originalValue
    {
      seq(81, i requires 0 <= i < board.Length reads board => board[i].originalValue)
    }

    /** The indexer this[col, row]: the cell at that position, the only
        slot of the board that holds it. */
    function At(col: int, row: int): (cell: Cell)
      requires Valid() && InRange(col, row)
      reads board, rowsI, columnsI, blocksI
      ensures cell.position == Point(col, row)
      ensures forall i :: 0 <= i < 81 && board[i] == cell ==> PointOf(i) == Point(col, row)
    {
      board[CellIndex(col, row)]
    }

    /** Builds the 81 cells from board[col, row] and collects the 27 regions.
        (The per-cell InitRegions and InitVisibleCells passes are not part
        of this model.) */
    constructor (b: array2<int>, isCustom: bool)
      requires b.Length0 == 9 && b.Length1 == 9
      ensures Valid() && this.isCustom == isCustom && fresh(Repr())
      ensures forall col, row :: InRange(col, row) ==>
                board[CellIndex(col, row)].value == b[col, row]
                && board[CellIndex(col, row)].originalValue == b[col, row]
                && board[CellIndex(col, row)].candidates == {}
    {
      this.isCustom := isCustom;
      var cells := NewCells(b);
      var rows, columns, blocks := CollectRegions();
      board := cells;
      rowsI := rows;
      columnsI := columns;
      blocksI := blocks;
    }

    /** The constructor's first loop: cell (col, row) is created at slot
        CellIndex(col, row) with value b[col, row]. */
    static method NewCells(b: array2<int>) returns (cells: array<Cell>)
      requires b.Length0 == 9 && b.Length1 == 9
      ensures fresh(cells) && cells.Length == 81
      ensures forall k :: 0 <= k < 81 ==>
                fresh(cells[k]) && cells[k].position == PointOf(k)
                && cells[k].value == b[ColOf(k), RowOf(k)]
                && cells[k].originalValue == b[ColOf(k), RowOf(k)]
                && cells[k].candidates == {}
      ensures forall i, j :: 0 <= i < 81 && 0 <= j < 81 && i != j ==> cells[i] != cells[j]
    {
      var slots := new Cell?[81];
      for col := 0 to 9
        modifies slots
        invariant forall k :: 0 <= k < 81 && ColOf(k) < col ==>
                    slots[k] != null && fresh(slots[k]) && slots[k].position == PointOf(k)
                    && slots[k].value == b[ColOf(k), RowOf(k)]
                    && slots[k].originalValue == b[ColOf(k), RowOf(k)]
                    && slots[k].candidates == {}
      {
        for row := 0 to 9
          modifies slots
          invariant forall k :: 0 <= k < 81 && (ColOf(k) < col || (ColOf(k) == col && RowOf(k) < row)) ==>
                      slots[k] != null && fresh(slots[k]) && slots[k].position == PointOf(k)
                      && slots[k].value == b[ColOf(k), RowOf(k)]
                      && slots[k].originalValue == b[ColOf(k), RowOf(k)]
                      && slots[k].candidates == {}
        {
          slots[CellIndex(col, row)] := new Cell(b[col, row], Point(col, row));
        }
      }
      cells := new Cell[81](i requires 0 <= i < 81 reads slots => slots[i]);
      forall i, j | 0 <= i < 81 && 0 <= j < 81 && i != j
        ensures cells[i] != cells[j]
      {
        PointOfInjective(i, j);
      }
    }

    /** The constructor's region loop: row, column and block i are read
        into the one buffer cellsCache and each region keeps a copy. */
    static method CollectRegions() returns (rows: array<Region>, columns: array<Region>, blocks: array<Region>)
      ensures fresh(rows) && fresh(columns) && fresh(blocks)
      ensures rows.Length == 9 && columns.Length == 9 && blocks.Length == 9
      ensures forall i :: 0 <= i < 9 ==>
                rows[i] == Region(RowIndices(i)) && columns[i] == Region(ColumnIndices(i))
                && blocks[i] == Region(BlockIndices(i))
    {
      rows := new Region[9];
      columns := new Region[9];
      blocks := new Region[9];
      var cellsCache := new int[9];
      for i := 0 to 9
        modifies rows, columns, blocks, cellsCache
        invariant forall k :: 0 <= k < i ==>
                    rows[k] == Region(RowIndices(k)) && columns[k] == Region(ColumnIndices(k))
                    && blocks[k] == Region(BlockIndices(k))
      {
        var j := 0;
        while j < 9
          modifies cellsCache
          invariant 0 <= j <= 9
          invariant forall m :: 0 <= m < j ==> cellsCache[m] == RowIndices(i)[m]
        {
          cellsCache[j] := CellIndex(j, i);
          j := j + 1;
        }
        rows[i] := Region(cellsCache[..]);
        assert rows[i].members == RowIndices(i);

        j := 0;
        while j < 9
          modifies cellsCache
          invariant 0 <= j <= 9
          invariant forall m :: 0 <= m < j ==> cellsCache[m] == ColumnIndices(i)[m]
        {
          cellsCache[j] := CellIndex(i, j);
          j := j + 1;
        }
        columns[i] := Region(cellsCache[..]);
        assert columns[i].members == ColumnIndices(i);

        FillBlock(cellsCache, i);
        blocks[i] := Region(cellsCache[..]);
      }
    }

    /** The block part of the region loop: the 3x3 tile of block i, column
        by column, written into the buffer. */
    static method FillBlock(cellsCache: array<int>, i: int)
      requires cellsCache.Length == 9 && 0 <= i < 9
      modifies cellsCache
      ensures cellsCache[..] == BlockIndices(i)
    {
      var j := 0;
      var x := i % 3 * 3;
      var y := i / 3 * 3;
      for col := x to x + 3
        invariant j == (col - x) * 3
        invariant forall m :: 0 <= m < j ==> cellsCache[m] == BlockIndices(i)[m]
      {
        for row := y to y + 3
          invariant j == (col - x) * 3 + (row - y)
          invariant forall m :: 0 <= m < j ==> cellsCache[m] == BlockIndices(i)[m]
        {
          ThirdOf(col - x, row - y);
          cellsCache[j] := CellIndex(col, row);
          j := j + 1;
        }
      }
    }

    /** Puzzle.CreateCustom: a puzzle with every cell EMPTY, marked custom;
        it has no errors. */
    static method CreateCustom() returns (p: Puzzle)
      ensures fresh(p) && fresh(p.Repr()) && p.Valid() && p.isCustom
      ensures forall i :: 0 <= i < 81 ==> p.board[i].value == EMPTY && p.board[i].originalValue == EMPTY
      ensures !GridHasErrors(p.Values())
    {
      var b := new int[9, 9]((_, _) => EMPTY);
      p := new Puzzle(b, true);
      assert forall i :: 0 <= i < 81 ==> p.board[i] == p.board[CellIndex(ColOf(i), RowOf(i))];
      EmptyGridHasNoErrors(p.Values());
    }

    /** Puzzle.Parse: refuses input whose shape is not 9 lines of 9
        characters, naming the first short or long line; otherwise builds a
        non-custom puzzle whose given and current values are those of
        ParseGrid. */
    static method Parse(inRows: seq<string>) returns (r: Result<Puzzle, ParseError>)
      ensures ParseGrid(inRows).Failure? ==> r == Failure(ParseGrid(inRows).error)
      ensures ParseGrid(inRows).Success? ==>
                r.Success? && fresh(r.value) && fresh(r.value.Repr()) && r.value.Valid()
                && !r.value.isCustom
                && r.value.Originals() == ParseGrid(inRows).value
                && r.value.Values() == ParseGrid(inRows).value
    {
      if |inRows| != 9 {
        return Failure(WrongRowCount);
      }
      var b := new int[9, 9]((_, _) => EMPTY);
      for row := 0 to 9
        invariant forall k :: 0 <= k < row ==> |inRows[k]| == 9
        invariant forall c, k :: 0 <= c < 9 && 0 <= k < row ==> b[c, k] == DigitValue(inRows[k][c])
      {
        var line := inRows[row];
        if |line| != 9 {
          return Failure(WrongRowLength(row));
        }
        for col := 0 to 9
          invariant forall c, k :: 0 <= c < 9 && 0 <= k < row ==> b[c, k] == DigitValue(inRows[k][c])
          invariant forall c :: 0 <= c < col ==> b[c, row] == DigitValue(line[c])
        {
          if '1' <= line[col] <= '9' {
            b[col, row] := line[col] as int - '0' as int;
          } else {
            b[col, row] := EMPTY;
          }
        }
      }
      var p := new Puzzle(b, false);
      forall i | 0 <= i < 81
        ensures p.Originals()[i] == ParseGrid(inRows).value[i]
        ensures p.Values()[i] == ParseGrid(inRows).value[i]
      {
        CellIndexSurjective(i);
        assert p.board[i] == p.board[CellIndex(ColOf(i), RowOf(i))];
      }
      return Success(p);
    }

    /** Puzzle.RefreshCandidates. The first pass gives every cell all nine
        digits as candidates; the second calls SetValue on each filled cell
        with its own value, so no value changes. That the candidates are
        still all nine digits afterwards rests on SetValue as modelled here,
        which leaves every candidate set alone. */
    method RefreshCandidates()
      requires Valid()
      modifies board[..]
      ensures Valid()
      ensures forall i :: 0 <= i < 81 ==> board[i].value == old(board[i].value)
      ensures forall i :: 0 <= i < 81 ==> board[i].candidates == AllDigits
    {
      AllowAllCells();
      for i := 0 to 81
        invariant forall k :: 0 <= k < 81 ==> board[k].candidates == AllDigits
        invariant forall k :: 0 <= k < 81 ==> board[k].value == old(board[k].value)
      {
        var cell := board[i];
        if cell.value != EMPTY {
          cell.SetValue(cell.value);
        }
      }
    }

    /** The first pass of RefreshCandidates: afterwards every one of the 81
        cells has all nine digits as candidates, and no value has changed. */
    method AllowAllCells()
      requires Valid()
      modifies board[..]
      ensures forall i :: 0 <= i < 81 ==> board[i].value == old(board[i].value)
      ensures forall i :: 0 <= i < 81 ==> board[i].candidates == AllDigits
    {
      for i := 0 to 81
        invariant forall k :: 0 <= k < i ==> board[k].candidates == AllDigits
        invariant forall k :: 0 <= k < 81 ==> board[k].value == old(board[k].value)
      {
        var cell := board[i];
        cell.AllowAll();
      }
    }

    /** Puzzle.Reset: every cell whose value differs from its original one
        becomes EMPTY; the others, and all candidates, are untouched. */
    method Reset()
      requires Valid()
      modifies board[..]
      ensures Valid()
      ensures Values() == ResetGrid(old(Values()), Originals())
      ensures forall i :: 0 <= i < 81 ==> board[i].candidates == old(board[i].candidates)
    {
      for i := 0 to 81
        invariant forall k :: 0 <= k < i ==>
                    board[k].value == ResetValue(old(board[k].value), board[k].originalValue)
        invariant forall k :: i <= k < 81 ==> board[k].value == old(board[k].value)
        invariant forall k :: 0 <= k < 81 ==> board[k].candidates == old(board[k].candidates)
      {
        var cell := board[i];
        if cell.value != cell.originalValue {
          cell.SetValue(EMPTY);
        }
      }
    }

    /** Region.CheckForDuplicateValue, the region reading its members'
        values through the board: more than one member holds digit. */
    method CheckForDuplicateValue(region: Region, digit: int) returns (dup: bool)
      requires Valid()
      requires forall k :: 0 <= k < |region.members| ==> 0 <= region.members[k] < 81
      ensures dup == HasDuplicateValue(Values(), region.members, digit)
    {
      ghost var vals := Values();
      var ms := region.members;
      var count := 0;
      for k := 0 to |ms|
        invariant count == Count(vals, ms[..k], digit)
      {
        assert ms[..k + 1][..k] == ms[..k];
        if board[ms[k]].value == digit {
          count := count + 1;
        }
      }
      assert ms[..|ms|] == ms;
      dup := count > 1;
    }

    /** Puzzle.CheckForErrors: true iff, for some digit 1..9, some block, row
        or column holds it more than once. Reads only. */
    method CheckForErrors() returns (errors: bool)
      requires Valid()
      ensures errors == GridHasErrors(Values())
    {
      ghost var vals := Values();
      for digit := 1 to 10
        invariant forall d, k :: 1 <= d < digit && 0 <= k < 9 ==> !RegionRepeats(vals, k, d)
      {
        var found := ScanDigit(digit);
        if found {
          return true;
        }
        assert vals == Values();
      }
      return false;
    }

    /** The inner loop of CheckForErrors: regions 0 to 8 in turn, stopping
        at the first that repeats the digit. */
    method ScanDigit(digit: int) returns (found: bool)
      requires Valid()
      ensures found <==> exists k :: 0 <= k < 9 && RegionRepeats(Values(), k, digit)
    {
      ghost var vals := Values();
      for i := 0 to 9
        invariant forall k :: 0 <= k < i ==> !RegionRepeats(vals, k, digit)
      {
        var dup := RegionsRepeat(i, digit);
        if dup {
          return true;
        }
      }
      return false;
    }

    /** The condition of CheckForErrors' inner loop: block i, then row i,
        then column i, stopping at the first that repeats the digit. */
    method RegionsRepeat(i: int, digit: int) returns (dup: bool)
      requires Valid() && 0 <= i < 9
      ensures dup == RegionRepeats(Values(), i, digit)
    {
      dup := CheckForDuplicateValue(blocksI[i], digit);
      if !dup {
        dup := CheckForDuplicateValue(rowsI[i], digit);
      }
      if !dup {
        dup := CheckForDuplicateValue(columnsI[i], digit);
      }
    }

    /** Puzzle.ToString: the given values only, one row per line, '-' for
        an empty clue. */
    method ToString() returns (s: string)
      requires board.Length == 81
      ensures s == RenderClues(Originals())
    {
      ghost var lines := ClueLines(Originals());
      s := "";
      for row := 0 to 9
        invariant row == 0 ==> s == ""
        invariant 0 < row < 9 ==> s == Join(lines[..row]) + [NL]
        invariant row == 9 ==> s == Join(lines)
      {
        var line := ClueRow(row);
        s := s + line;
        assert s == Join(lines[..row + 1]) by {
          if row == 0 {
            assert lines[..1] == [lines[0]];
          } else {
            JoinPrefix(lines, row);
          }
        }
        if row != 8 {
          s := s + [NL];
        }
      }
      assert lines[..9] == lines;
    }

    /** The inner loop of ToString: the clues of one row, column by column. */
    method ClueRow(row: int) returns (line: string)
      requires board.Length == 81 && 0 <= row < 9
      ensures line == ClueRowPrefix(Originals(), row, 9)
    {
      ghost var o := Originals();
      line := "";
      for col := 0 to 9
        invariant line == ClueRowPrefix(o, row, col)
      {
        var cell := board[CellIndex(col, row)];
        if cell.originalValue == EMPTY {
          line := line + "-";
        } else {
          line := line + DecimalText(cell.originalValue);
        }
      }
    }

    /** Puzzle.ToStringFancy: the current values, a space for an empty
        cell, with a rule before rows 0, 3 and 6 and after row 8 and a
        border before columns 0, 3 and 6 and after column 8. */
    method ToStringFancy() returns (s: string)
      requires board.Length == 81
      ensures s == RenderFancy(Values())
    {
      ghost var g := Values();
      ghost var rows := RowLines(g);
      s := "";
      for row := 0 to 9
        invariant s == FancyRowsText(rows, row)
      {
        var part := Band(row);
        assert part == BandPart(rows, row);
        s := s + part;
      }
      assert s == RenderFancy(g) by {
        FancyRowsRender(rows);
      }
    }

    /** The body of ToStringFancy's loop: what it appends for one row. */
    method Band(row: int) returns (part: string)
      requires board.Length == 81 && 0 <= row < 9
      ensures part == BandPart(RowLines(Values()), row)
    {
      part := "";
      if row % 3 == 0 {
        var rule := RuleLine();
        part := rule + [NL];
      }
      var line := FancyRow(row);
      part := part + line + [NL];
      if row == 8 {
        var rule := RuleLine();
        part := part + rule;
      }
    }

    /** The rule of ToStringFancy: 13 dashes, one at a time. */
    static method RuleLine() returns (line: string)
      ensures line == Rule
    {
      line := "";
      for col := 0 to 13
        invariant line == Rule[..col]
      {
        line := line + [RuleChar];
      }
      assert Rule[..13] == Rule;
    }

    /** The inner loop of ToStringFancy: one row's borders and current
        values, column by column. */
    method FancyRow(row: int) returns (line: string)
      requires board.Length == 81 && 0 <= row < 9
      ensures line == FancyRowLine(Values(), row)
    {
      ghost var g := Values();
      line := "";
      for col := 0 to 9
        invariant col < 9 ==> line == FancyRowPrefix(g, row, col)
        invariant col == 9 ==> line == FancyRowLine(g, row)
      {
        FancyRowPrefixUnfold(g, row, col + 1);
        ghost var start := line;
        ghost var bar: string := if col % 3 == 0 then [BarChar] else [];
        if col % 3 == 0 {
          line := line + [BarChar];
        }
        assert line == start + bar;
        var cell := board[CellIndex(col, row)];
        if cell.value == EMPTY {
          line := line + " ";
        } else {
          line := line + DecimalText(cell.value);
        }
        assert line == FancyRowPrefix(g, row, col + 1);
        if col == 8 {
          line := line + [BarChar];
        }
      }
    }
  }
}
