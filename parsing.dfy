/** Puzzle.Parse as a function: the shape checks on the input lines, the
    reading of each character, and what parsing ToString's text gives back. */
module Parsing {
  import opened Utils
  import opened Text
  import opened Render
  import opened Duplicates

  datatype Result<T, E> = Success(value: T) | Failure(error: E)

  /** Why an input is refused (the InvalidDataException of Parse):
      not nine lines, or line `row` not nine characters long. */
  datatype ParseError = WrongRowCount | WrongRowLength(row: int)

  /** The value a character stands for: its digit for '1'..'9', EMPTY for
      anything else ('0', '-', '.', a space, ...). */
  function DigitValue(c: char): (v: int)
    ensures 0 <= v <= 9
    ensures v != EMPTY <==> '1' <= c <= '9'
    ensures v != EMPTY ==> DigitChar(v) == c
  {
    if '1' <= c <= '9' then c as int - '0' as int else EMPTY
  }

  /** The first line at or after `from` whose length is not 9 (|rows| if none). */
  function FirstBadRow(rows: seq<string>, from: nat): (k: nat)
    requires from <= |rows|
    ensures from <= k <= |rows|
    ensures forall j :: from <= j < k ==> |rows[j]| == 9
    ensures k < |rows| ==> |rows[k]| != 9
    decreases |rows| - from
  {
    if from == |rows| then from
    else if |rows[from]| != 9 then from
    else FirstBadRow(rows, from + 1)
  }

  /** Parse's result as the grid of original values it hands to the
      constructor: refused with WrongRowCount unless there are nine lines,
      refused naming the first line whose length is not nine, and otherwise
      the value of cell (col, row) is the character col of line row. */
  function ParseGrid(rows: seq<string>): (r: Result<seq<int>, ParseError>)
    ensures r == Failure(WrongRowCount) <==> |rows| != 9
    ensures r.Success? <==> |rows| == 9 && forall k :: 0 <= k < 9 ==> |rows[k]| == 9
    ensures r.Failure? && r.error.WrongRowLength? ==>
              |rows| == 9 && 0 <= r.error.row < 9 && |rows[r.error.row]| != 9
              && forall k :: 0 <= k < r.error.row ==> |rows[k]| == 9
    ensures r.Success? ==> |r.value| == 81 && DigitGrid(r.value)
    ensures r.Success? ==> forall col, row :: InRange(col, row) ==>
              r.value[CellIndex(col, row)] == DigitValue(rows[row][col])
  {
    if |rows| != 9 then Failure(WrongRowCount)
    else
      var bad := FirstBadRow(rows, 0);
      if bad < 9 then Failure(WrongRowLength(bad))
      else Success(seq(81, i requires 0 <= i < 81 => DigitValue(rows[RowOf(i)][ColOf(i)])))
  }

  /** The character ToString writes for a value reads back as that value. */
  lemma ClueCharRoundTrip(v: int)
    requires 0 <= v <= 9
    ensures DigitValue(ClueChar(v)) == v
  {
  }

  /** Round trip: parsing the lines of ToString's text gives back the same
      original values, for a grid whose values are EMPTY or digits. */
  lemma ParseRenderClues(o: seq<int>)
    requires DigitGrid(o)
    ensures ParseGrid(Split(RenderClues(o))) == Success(o)
  {
    ClueLayout(o);
    var r := ParseGrid(ClueLines(o));
    assert r.Success?;
    forall i | 0 <= i < 81
      ensures r.value[i] == o[i]
    {
      CellIndexSurjective(i);
      ClueCharRoundTrip(o[i]);
    }
    assert r.value == o;
  }

  /** Hence rendering, parsing and rendering again gives the same text. */
  lemma RenderParseRender(o: seq<int>)
    requires DigitGrid(o)
    ensures ParseGrid(Split(RenderClues(o))).Success?
    ensures RenderClues(ParseGrid(Split(RenderClues(o))).value) == RenderClues(o)
  {
    ParseRenderClues(o);
  }

  /** A line of eight characters is refused, naming its index. */
  lemma ShortRowIsRefused()
    ensures ParseGrid(["123456789", "456789123", "789123456",
                       "23456789", "567891234", "891234567",
                       "345678912", "678912345", "912345678"])
            == Failure(WrongRowLength(3))
  {
    var rows := ["123456789", "456789123", "789123456",
                 "23456789", "567891234", "891234567",
                 "345678912", "678912345", "912345678"];
    assert FirstBadRow(rows, 0) == 3 by {
      assert FirstBadRow(rows, 0) == FirstBadRow(rows, 1) == FirstBadRow(rows, 2) == FirstBadRow(rows, 3);
    }
  }

  /** Lines that are each free of repeats but repeat the band
      "123456789", "456789123", "789123456" are caught by the column scan:
      column 0 holds 1 in rows 0 and 3. */
  lemma RepeatedColumnIsAnError()
    ensures ParseGrid(["123456789", "456789123", "789123456",
                       "123456789", "456789123", "789123456",
                       "123456789", "456789123", "789123456"]).Success?
    ensures GridHasErrors(ParseGrid(["123456789", "456789123", "789123456",
                                     "123456789", "456789123", "789123456",
                                     "123456789", "456789123", "789123456"]).value)
  {
    var rows := ["123456789", "456789123", "789123456",
                 "123456789", "456789123", "789123456",
                 "123456789", "456789123", "789123456"];
    var g := ParseGrid(rows).value;
    var a, b := CellIndex(0, 0), CellIndex(0, 3);
    assert g[a] == DigitValue(rows[0][0]) == 1;
    assert g[b] == DigitValue(rows[3][0]) == 1;
    assert SameRegion(a, b);
    ConflictIsRepeat(g, a, b);
  }
}
