# Sudoku grid model (Puzzle.cs)

This project is a verified Dafny model of `Puzzle`, the grid at the centre of a
human-style Sudoku solver. It covers the following:

- **Board and regions.** A puzzle owns 81 cells in a flat board, indexed by
  `CellIndex(col, row)`. It also owns 27 regions: 9 rows, 9 columns and 9
  blocks. Each region records the indices of its nine cells.
- **Construction.** The constructor builds the cells and regions from a 9x9
  array of values. `CreateCustom` builds an empty custom puzzle. `Parse` reads
  nine lines of text.
- **Operations.** `Reset` clears every cell the player changed.
  `RefreshCandidates` recomputes the candidate digits. `CheckForErrors` looks
  for a digit repeated inside some row, column or block.
- **Renderings.** `ToString` prints the given clues as text. `ToStringFancy`
  prints the current values inside a frame of rules and borders.

The model keeps the form of the source:

- `Puzzle` is a class whose `board` is an `array<Cell>`.
- `rowsI`, `columnsI` and `blocksI` are `array<Region>`.
- `Cell` is a class whose `value` and `candidates` are updated in place.
- The loops of the source that fill the board, collect the regions, reset,
  refresh candidates, check for errors, parse and render are loops with
  invariants. The loops that only allocate the jagged `int[][]` board in
  `CreateCustom` and `Parse` become the initialiser of a 9x9 `array2<int>`.

The constructor and its helpers state the cells and regions they build, and
`RefreshCandidates` and `Reset` state the new state of every cell. The queries
and renderings are proved against pure specification functions of the 81
values:

| module | specification functions |
|---|---|
| `Layout` | the index sequences of the regions |
| `Duplicates` | `HasDuplicateValue` and `GridHasErrors` |
| `Parsing` | `ParseGrid` |
| `Render` | `RenderClues` and `RenderFancy` |

The properties the source promises are then proved about those functions as lemmas:

- the regions partition the grid;
- the error check finds exactly the pairs of conflicting cells;
- parsing the clue text gives back the clues;
- the fancy text splits into thirteen lines with rules, borders and cells in their places;
- `Reset` is idempotent.

Modules, in dependency order:

| module | file | contents |
|---|---|---|
| `Utils` | utils.dfy | `EMPTY`, digits and positions, and `CellIndex` with its inverse |
| `Layout` | layout.dfy | rows, columns and blocks as index sequences, with the partition lemmas |
| `Duplicates` | duplicates.dfy | what `CheckForDuplicateValue` and `CheckForErrors` compute, and what that means |
| `Text` | text.dfy | decimal text of an int, and lines joined and split at a line break |
| `Render` | render.dfy | the two renderings as functions, with their layout lemmas |
| `Parsing` | parsing.dfy | `Parse` as a function, with the parse/print round trip |
| `Sudoku` | puzzle.dfy | the `Cell` and `Puzzle` classes and their methods |

## Model

| member | source | states |
|---|---|---|
| Utils.CellIndex | Sudoku.SolveurHumain/Library/Puzzle.cs:22 | every position in [0,8]x[0,8] has a slot in [0,80], and `ColOf`/`RowOf` give the position back |
| Utils.PointOf | Sudoku.SolveurHumain/Library/Puzzle.cs:33 | the position stored at slot i is in range, and its `CellIndex` is i |
| Utils.CellIndexInjective | Sudoku.SolveurHumain/Library/Puzzle.cs:22 | two positions with the same slot are the same position |
| Utils.CellIndexSurjective | Sudoku.SolveurHumain/Library/Puzzle.cs:22 | every slot 0..80 is the `CellIndex` of its own position |
| Utils.PointOfInjective | Sudoku.SolveurHumain/Library/Puzzle.cs:28-35 | distinct slots hold distinct positions |
| Layout.RowIndices | Sudoku.SolveurHumain/Library/Puzzle.cs:50-54 | row i has nine members, all valid slots |
| Layout.ColumnIndices | Sudoku.SolveurHumain/Library/Puzzle.cs:56-60 | column i has nine members, all valid slots |
| Layout.BlockIndices | Sudoku.SolveurHumain/Library/Puzzle.cs:62-72 | block i has nine members, all valid slots |
| Layout.RowIsRow | Sudoku.SolveurHumain/Library/Puzzle.cs:50-54 | member j of row i is the cell at (j, i) |
| Layout.ColumnIsColumn | Sudoku.SolveurHumain/Library/Puzzle.cs:56-60 | member j of column i is the cell at (i, j) |
| Layout.BlockIsBlock | Sudoku.SolveurHumain/Library/Puzzle.cs:62-72 | member j of block i is at column i%3*3 + j/3 and row i/3*3 + j%3, so columns run outer and rows inner, and it lies in block i |
| Layout.RegionsHaveNineDistinctCells | Sudoku.SolveurHumain/Library/Puzzle.cs:46-73 | every row, column and block holds nine distinct valid cells |
| Layout.RowsPartition | Sudoku.SolveurHumain/Library/Puzzle.cs:50-54 | each cell is in exactly one row, at exactly one place |
| Layout.ColumnsPartition | Sudoku.SolveurHumain/Library/Puzzle.cs:56-60 | each cell is in exactly one column, at exactly one place |
| Layout.BlocksPartition | Sudoku.SolveurHumain/Library/Puzzle.cs:62-72 | each cell is in exactly one block, at exactly one slot, and nowhere else |
| Duplicates.CountTwo | Sudoku.SolveurHumain/Library/Puzzle.cs:169-171 | "more than one member holds d" holds exactly when two different members hold d |
| Duplicates.PairMakesDuplicate | Sudoku.SolveurHumain/Library/Puzzle.cs:169-171 | two different slots of a region holding d make a duplicate |
| Duplicates.RepeatIsConflict | Sudoku.SolveurHumain/Library/Puzzle.cs:162-178 | a region repeating a digit gives two different cells that see each other and hold that digit |
| Duplicates.ConflictIsRepeat | Sudoku.SolveurHumain/Library/Puzzle.cs:162-178 | two different cells that share a row, column or block and hold the same digit make the grid have errors |
| Duplicates.ErrorsAreConflicts | Sudoku.SolveurHumain/Library/Puzzle.cs:162-178 | the region-by-region check reports errors exactly when two different cells that see each other hold the same digit 1..9 (both directions) |
| Duplicates.EmptyGridHasNoErrors | Sudoku.SolveurHumain/Library/Puzzle.cs:105-113 | a grid holding no digit 1..9 has no errors |
| Text.DecimalText | Sudoku.SolveurHumain/Library/Puzzle.cs:194 | the text appended for an int is never empty and has no line break |
| Text.DecimalOfDigit | Sudoku.SolveurHumain/Library/Puzzle.cs:194 | a digit 1..9 is appended as its one character |
| Text.NatTextRoundTrip | Sudoku.SolveurHumain/Library/Puzzle.cs:194 | the decimal text of a natural number reads back as that number |
| Text.SplitJoin | Sudoku.SolveurHumain/Library/Puzzle.cs:197-200 | cutting joined lines at the line breaks gives back the lines, when no line holds a break |
| Render.ClueRowPrefixShape | Sudoku.SolveurHumain/Library/Puzzle.cs:185-196 | the first n columns of a clue row are n characters, character c showing cell (c, row) |
| Render.ClueLayout | Sudoku.SolveurHumain/Library/Puzzle.cs:180-203 | `ToString` on a grid of digits is 9 lines of 9 characters, 89 characters in all, with no break after row 8; character (row, col) is '-' for an empty clue and the digit otherwise; splitting the text gives these lines back |
| Render.JoinLength | Sudoku.SolveurHumain/Library/Puzzle.cs:197-200 | m lines of n characters joined are m*(n+1)-1 characters |
| Render.FancyPieceShape | Sudoku.SolveurHumain/Library/Puzzle.cs:219-232 | column c appends a border and its character when c%3 == 0, and only its character otherwise |
| Render.FancyRowPrefixShape | Sudoku.SolveurHumain/Library/Puzzle.cs:217-232 | the first n columns of a fancy row have the expected length, each cell at its computed position, and a border just before columns 0, 3 and 6 |
| Render.FancyRowLayout | Sudoku.SolveurHumain/Library/Puzzle.cs:217-237 | a fancy row line is 13 characters, with '┃' at 0, 4, 8 and 12 and column c showing ' ' or the digit of cell (c, row) |
| Render.FancyLineOf | Sudoku.SolveurHumain/Library/Puzzle.cs:207-239 | row r is shown on a line that is not a rule, and that line shows row r |
| Render.FancyRowsJoin | Sudoku.SolveurHumain/Library/Puzzle.cs:207-239 | after n rows, the text written so far is the lines up to row n-1's line, each followed by a break |
| Render.FancyRowsRender | Sudoku.SolveurHumain/Library/Puzzle.cs:204-249 | the text written by the whole loop, closing rule included, is the thirteen framed lines joined by breaks |
| Render.FancyLayout | Sudoku.SolveurHumain/Library/Puzzle.cs:204-249 | `ToStringFancy` on a grid of digits is 13 lines of 13 characters; lines 0, 4, 8 and 12 are rules of 13 '—'; the other lines show rows 0..8 in order; splitting the text gives these lines back |
| Render.FancyRowNoBreak | Sudoku.SolveurHumain/Library/Puzzle.cs:217-237 | a fancy row holds no line break |
| Parsing.DigitValue | Sudoku.SolveurHumain/Library/Puzzle.cs:137-144 | a character '1'..'9' reads as its digit, and every other character as EMPTY |
| Parsing.FirstBadRow | Sudoku.SolveurHumain/Library/Puzzle.cs:127-133 | the first line, from a given point on, whose length is not 9 |
| Parsing.ParseGrid | Sudoku.SolveurHumain/Library/Puzzle.cs:114-149 | the input is refused for "not 9 rows" exactly when it is not nine lines; it is refused naming the first line whose length is not 9; otherwise it is accepted and cell (col, row) is the value of character col of line row |
| Parsing.ClueCharRoundTrip | Sudoku.SolveurHumain/Library/Puzzle.cs:137-144 | the character `ToString` writes for a value 0..9 reads back as that value |
| Parsing.ParseRenderClues | Sudoku.SolveurHumain/Library/Puzzle.cs:114-149 | parsing the lines of `ToString`'s text gives back exactly the original values |
| Parsing.RenderParseRender | Sudoku.SolveurHumain/Library/Puzzle.cs:180-203 | rendering, parsing and rendering again gives the same text |
| Parsing.ShortRowIsRefused | Sudoku.SolveurHumain/Library/Puzzle.cs:130-133 | an input whose line 3 is eight characters long is refused, naming row 3 |
| Parsing.RepeatedColumnIsAnError | Sudoku.SolveurHumain/Library/Puzzle.cs:162-178 | nine lines that each hold 1..9 once, repeating one band, parse and are reported as having errors |
| Sudoku.ResetSettles | Sudoku.SolveurHumain/Library/Puzzle.cs:151-161 | after `Reset` each cell holds its original value or EMPTY; cells that held their original value keep it; an empty clue stays empty; a second `Reset` changes nothing |
| Sudoku.Cell.constructor | Sudoku.SolveurHumain/Library/Puzzle.cs:33 | a new cell holds its given value as both current and original value, at its position, with no candidates |
| Sudoku.Cell.Allow | Sudoku.SolveurHumain/Library/Puzzle.cs:92 | the digit is added to the candidates, and nothing else changes |
| Sudoku.Cell.AllowAll | Sudoku.SolveurHumain/Library/Puzzle.cs:90-93 | after the digit loop every digit 1..9 is a candidate |
| Sudoku.Cell.SetValue | Sudoku.SolveurHumain/Library/Puzzle.cs:100 | the value becomes v |
| Sudoku.Puzzle.At | Sudoku.SolveurHumain/Library/Puzzle.cs:22 | `this[col, row]` is the cell at position (col, row), and no other slot holds it |
| Sudoku.Puzzle.constructor | Sudoku.SolveurHumain/Library/Puzzle.cs:24-83 | the puzzle is well formed and marked custom or not as asked; cell (col, row) has value and original value `board[col][row]` and no candidates |
| Sudoku.Puzzle.NewCells | Sudoku.SolveurHumain/Library/Puzzle.cs:28-35 | slot `CellIndex(col, row)` gets a new cell at (col, row) holding `board[col][row]`, and all 81 cells are distinct |
| Sudoku.Puzzle.CollectRegions | Sudoku.SolveurHumain/Library/Puzzle.cs:46-73 | row, column and block i hold `RowIndices(i)`, `ColumnIndices(i)` and `BlockIndices(i)`, each a copy of the reused buffer |
| Sudoku.Puzzle.FillBlock | Sudoku.SolveurHumain/Library/Puzzle.cs:62-71 | the buffer ends up holding exactly block i's tile, columns outer and rows inner |
| Sudoku.Puzzle.CreateCustom | Sudoku.SolveurHumain/Library/Puzzle.cs:105-113 | a well-formed custom puzzle whose 81 values and originals are all EMPTY, and which has no errors |
| Sudoku.Puzzle.Parse | Sudoku.SolveurHumain/Library/Puzzle.cs:114-149 | fails with `ParseGrid`'s error when `ParseGrid` fails; otherwise a new well-formed, non-custom puzzle whose original and current values are `ParseGrid`'s grid |
| Sudoku.Puzzle.RefreshCandidates | Sudoku.SolveurHumain/Library/Puzzle.cs:85-103 | no cell's value changes; every cell has all nine digits as candidates, given that `SetValue` changes no candidates |
| Sudoku.Puzzle.AllowAllCells | Sudoku.SolveurHumain/Library/Puzzle.cs:87-94 | after the first pass every one of the 81 cells has all nine digits as candidates, and no value has changed |
| Sudoku.Puzzle.Reset | Sudoku.SolveurHumain/Library/Puzzle.cs:151-161 | the new values are `ResetGrid` of the old values and the originals; no candidate changes, given that `SetValue` changes no candidates |
| Sudoku.Puzzle.CheckForDuplicateValue | Sudoku.SolveurHumain/Library/Puzzle.cs:169-171 | the result is true exactly when more than one member holds the digit |
| Sudoku.Puzzle.RegionsRepeat | Sudoku.SolveurHumain/Library/Puzzle.cs:169-171 | the short-circuit test is true exactly when block i, row i or column i repeats the digit |
| Sudoku.Puzzle.ScanDigit | Sudoku.SolveurHumain/Library/Puzzle.cs:167-175 | the inner loop returns true exactly when some region index 0..8 repeats the digit |
| Sudoku.Puzzle.CheckForErrors | Sudoku.SolveurHumain/Library/Puzzle.cs:162-178 | the result is `GridHasErrors` of the current values, which `Duplicates.ErrorsAreConflicts` equates with two cells that see each other holding the same digit; nothing is modified |
| Sudoku.Puzzle.ToString | Sudoku.SolveurHumain/Library/Puzzle.cs:180-203 | the text is `RenderClues` of the original values, which `Render.ClueLayout` and `Parsing.ParseRenderClues` describe |
| Sudoku.Puzzle.ClueRow | Sudoku.SolveurHumain/Library/Puzzle.cs:185-196 | the inner loop writes the nine clues of the row |
| Sudoku.Puzzle.ToStringFancy | Sudoku.SolveurHumain/Library/Puzzle.cs:204-249 | the text is `RenderFancy` of the current values, which `Render.FancyLayout` describes |
| Sudoku.Puzzle.Band | Sudoku.SolveurHumain/Library/Puzzle.cs:209-245 | one iteration of the row loop appends the band's rule and break when the row starts a band, then the row line and a break, then the closing rule after row 8 |
| Sudoku.Puzzle.RuleLine | Sudoku.SolveurHumain/Library/Puzzle.cs:211-214 | the 13-step loop writes the rule of 13 '—' |
| Sudoku.Puzzle.FancyRow | Sudoku.SolveurHumain/Library/Puzzle.cs:217-237 | the column loop writes the row's line: a border before columns 0, 3 and 6 and after column 8, and each current value or ' ' |

## Left out

- **Cell, Region and Utils.** Their bodies are not part of this model.
  - `Cell` keeps only its value, original value, position and candidate set.
  - `Region` keeps only the indices of its cells. It is a value, so it holds its own copy of the reused buffer.
  - `CellIndex` is taken as `row * 9 + col`. The proofs use only the fact that it is a bijection with an inverse.
  - `EMPTY` is 0, the value a new `int[9]` is filled with, which is what `CreateCustom` passes as an empty grid.
- Sudoku.Cell.SetValue: sets the value only. The elimination of the value from the candidates of the cell's peers is not part of this model.
- Sudoku.Puzzle.RefreshCandidates: its clause that every cell ends with all nine digits as candidates holds only under the modelled `SetValue`, which changes no candidates. With the real `SetValue`, the second pass removes candidates from the peers of filled cells, and the model does not capture that. The first-pass fact, which holds in the source too, is stated on its own by `Sudoku.Puzzle.AllowAllCells`.
- Sudoku.Puzzle.Reset: its clause that no candidate changes holds only under the modelled `SetValue`, which changes no candidates. With the real `SetValue`, emptying a cell may also change its peers' candidates.
- **`InitRegions` and `InitVisibleCells`.** These passes of the constructor (lines 75-82) live in `Cell` and are not modelled.
- **ReadOnlyCollection wrappers.** `Rows`, `Columns`, `Blocks`, the jagged `Regions` view and `RegionsI` (lines 10-13, 20, 38-44) are library views of the three region arrays, which the model keeps.
- **The parse exception.** `InvalidDataException` becomes a `Failure` result carrying the error kind and row index. The message text is not modelled.
- Parsing.ParseGrid: text is a sequence of Unicode scalar values, so `|line|` and `line[col]` count code points. C# `string.Length` and the indexer at lines 130 and 137 count UTF-16 code units. A line with a character outside the Basic Multilingual Plane is therefore judged differently. For example, eight digits and one emoji are 9 here but 10 in C#, and seven digits and one emoji are 8 here but 9 in C#. On text made only of BMP characters the two agree.
- Sudoku.Puzzle.Parse: the same as `Parsing.ParseGrid`. Line lengths and characters are counted in code points, not UTF-16 code units.
- Sudoku.Puzzle.constructor: takes a 9x9 `array2<int>`. The source takes a jagged `int[][]` (line 24). That array may be larger than 9x9, in which case the extra entries are ignored. A board that is shorter or ragged makes the source throw an index error. The model covers neither case. The allocation loops of `CreateCustom` (lines 108-111) and `Parse` (lines 122-125) are the array's initialiser.
- **`int.TryParse`.** Culture and Unicode digit handling are not modelled. A character counts as a digit exactly when it is ASCII '1'..'9', and everything else is EMPTY.
- **Line breaks.** `AppendLine` / `Environment.NewLine` is modelled as one abstract break character `NL`.
- **`ToString` and `ToStringFancy` building.** Each row line is built as its own string and then appended to the text. The source appends each piece to one shared `StringBuilder`. The resulting text is the same, and the model does not cover the buffer's growth.
- Sudoku.Puzzle.Reset: follows the code on values. A cell whose value differs from its original becomes EMPTY, including a given cell that was changed. It does not restore the original value.
- **Int text.** `StringBuilder.Append(int)` is modelled as decimal text with a leading '-' for negative numbers. The two layout lemmas assume every value is EMPTY or a digit, which is what `Parse` and `CreateCustom` produce.
