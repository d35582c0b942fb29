/** The two text renderings of a grid, ToString and ToStringFancy, as
    functions of a snapshot of the 81 values (indexed by CellIndex), and
    the layout facts about them. */
module Render {
  import opened Utils
  import opened Text

  /** The rule character of ToStringFancy (U+2014, EM DASH). */
  const RuleChar: char := '\U{2014}'
  /** The block border of ToStringFancy (U+2503, BOX DRAWINGS HEAVY VERTICAL). */
  const BarChar: char := '\U{2503}'

  /** The horizontal rule of 13 dashes. */
  const Rule: string := [RuleChar, RuleChar, RuleChar, RuleChar, RuleChar, RuleChar, RuleChar,
                         RuleChar, RuleChar, RuleChar, RuleChar, RuleChar, RuleChar]

  /** Every value is EMPTY or a digit 1..9, so each renders as one character. */
  ghost predicate DigitGrid(g: seq<int>) {
    |g| == 81 && forall i :: 0 <= i < 81 ==> 0 <= g[i] <= 9
  }

  // ---------------------------------------------------------------- ToString

  /** What ToString appends for one original value. */
  function ClueText(v: int): string {
    if v == EMPTY then "-" else DecimalText(v)
  }

  /** The same, as one character, for a value 0..9. */
  function ClueChar(v: int): char
    requires 0 <= v <= 9
  {
    if v == EMPTY then '-' else DigitChar(v)
  }

  /** The text of the first n columns of one row. */
  function ClueRowPrefix(o: seq<int>, row: int, n: int): string
    requires |o| == 81 && 0 <= row < 9 && 0 <= n <= 9
  {
    if n == 0 then "" else ClueRowPrefix(o, row, n - 1) + ClueText(o[CellIndex(n - 1, row)])
  }

  /** The nine lines of ToString, line r showing row r. */
  function ClueLines(o: seq<int>): (lines: seq<string>)
    requires |o| == 81
    ensures |lines| == 9
  {
    seq(9, row requires 0 <= row < 9 => ClueRowPrefix(o, row, 9))
  }

  /** ToString: the nine lines, a line break between rows and none after row 8. */
  function RenderClues(o: seq<int>): string
    requires |o| == 81
  {
    Join(ClueLines(o))
  }

  /** In the first n columns of a row, column c is character c. */
  lemma {:induction false} ClueRowPrefixShape(o: seq<int>, row: int, n: int)
    requires DigitGrid(o) && 0 <= row < 9 && 0 <= n <= 9
    ensures |ClueRowPrefix(o, row, n)| == n
    ensures forall c :: 0 <= c < n ==> ClueRowPrefix(o, row, n)[c] == ClueChar(o[CellIndex(c, row)])
  {
    if n > 0 {
      ClueRowPrefixShape(o, row, n - 1);
      var p, s := ClueRowPrefix(o, row, n - 1), ClueRowPrefix(o, row, n);
      var v := o[CellIndex(n - 1, row)];
      assert ClueText(v) == [ClueChar(v)] by {
        if v != EMPTY { DecimalOfDigit(v); }
      }
      assert s == p + [ClueChar(v)];
      forall c | 0 <= c < n
        ensures s[c] == ClueChar(o[CellIndex(c, row)])
      {
        if c < n - 1 {
          assert s[c] == p[c];
        }
      }
    }
  }

  /** The layout of ToString on a grid of digits: 9 lines of 9 characters,
      89 characters in all, no trailing break, character (row, col) showing
      the value of cell (col, row) as '-' or its digit. */
  lemma ClueLayout(o: seq<int>)
    requires DigitGrid(o)
    ensures NoBreaks(ClueLines(o))
    ensures forall row :: 0 <= row < 9 ==> |ClueLines(o)[row]| == 9
    ensures forall row, col :: 0 <= row < 9 && 0 <= col < 9 ==>
              ClueLines(o)[row][col] == ClueChar(o[CellIndex(col, row)])
    ensures Split(RenderClues(o)) == ClueLines(o)
    ensures |RenderClues(o)| == 89
  {
    var lines := ClueLines(o);
    forall row | 0 <= row < 9
      ensures |lines[row]| == 9 && NL !in lines[row]
      ensures forall col :: 0 <= col < 9 ==> lines[row][col] == ClueChar(o[CellIndex(col, row)])
    {
      ClueRowPrefixShape(o, row, 9);
    }
    SplitJoin(lines);
    JoinLength(lines, 9);
  }

  /** The length of nine-character lines joined. */
  lemma {:induction false} JoinLength(lines: seq<string>, n: nat)
    requires |lines| >= 1 && forall i :: 0 <= i < |lines| ==> |lines[i]| == n
    ensures |Join(lines)| == |lines| * (n + 1) - 1
  {
    if |lines| > 1 {
      JoinLength(lines[..|lines| - 1], n);
    }
  }

  // ----------------------------------------------------------- ToStringFancy

  /** What ToStringFancy shows for one current value. */
  function FancyText(v: int): string {
    if v == EMPTY then " " else DecimalText(v)
  }

  /** The same, as one character, for a value 0..9. */
  function FancyChar(v: int): char
    requires 0 <= v <= 9
  {
    if v == EMPTY then ' ' else DigitChar(v)
  }

  /** What one column of a row appends: a border before columns 0, 3 and
      6, then the current value. */
  function FancyPiece(g: seq<int>, row: int, c: int): string
    requires |g| == 81 && 0 <= row < 9 && 0 <= c < 9
  {
    (if c % 3 == 0 then [BarChar] else []) + FancyText(g[CellIndex(c, row)])
  }

  /** The text of the first n columns of one row. */
  function FancyRowPrefix(g: seq<int>, row: int, n: int): string
    requires |g| == 81 && 0 <= row < 9 && 0 <= n <= 9
  {
    if n == 0 then "" else FancyRowPrefix(g, row, n - 1) + FancyPiece(g, row, n - 1)
  }

  /** The line of one row: its nine columns and the border after column 8. */
  function FancyRowLine(g: seq<int>, row: int): string
    requires |g| == 81 && 0 <= row < 9
  {
    FancyRowPrefix(g, row, 9) + [BarChar]
  }

  /** The nine row lines of a grid, row 0 first. */
  function RowLines(g: seq<int>): (rows: seq<string>)
    requires |g| == 81
    ensures |rows| == 9 && forall row :: 0 <= row < 9 ==> rows[row] == FancyRowLine(g, row)
  {
    seq(9, row requires 0 <= row < 9 => FancyRowLine(g, row))
  }

  /** Lines 0, 4, 8 and 12 of ToStringFancy are rules. */
  predicate IsRuleLine(k: int) {
    k == 0 || k == 4 || k == 8 || k == 12
  }

  /** The row shown on line k, for a line that is not a rule: one row per
      line, skipping the rules above it. */
  function FancyRowOfLine(k: int): (row: int)
    requires 0 <= k < 13 && !IsRuleLine(k)
    ensures 0 <= row < 9
  {
    k - (if k < 4 then 1 else if k < 8 then 2 else 3)
  }

  /** Nine row lines framed by rules: thirteen lines, the rules on lines 0,
      4, 8 and 12 and each other line showing its row. */
  function Framed(rows: seq<string>): (lines: seq<string>)
    requires |rows| == 9
    ensures |lines| == 13
  {
    seq(13, k requires 0 <= k < 13 => if IsRuleLine(k) then Rule else rows[FancyRowOfLine(k)])
  }

  /** The thirteen lines of ToStringFancy. */
  function FancyLines(g: seq<int>): (lines: seq<string>)
    requires |g| == 81
    ensures |lines| == 13
  {
    Framed(RowLines(g))
  }

  /** What ToStringFancy appends for one row: a rule line first when the
      row starts a band, the row's line and a break, and the closing rule
      after the last row. */
  function BandPart(rows: seq<string>, row: int): string
    requires |rows| == 9 && 0 <= row < 9
  {
    (if row % 3 == 0 then Rule + [NL] else "") + rows[row] + [NL]
    + (if row == 8 then Rule else "")
  }

  /** The text ToStringFancy has written after its first n rows. */
  function FancyRowsText(rows: seq<string>, n: int): string
    requires |rows| == 9 && 0 <= n <= 9
  {
    if n == 0 then "" else FancyRowsText(rows, n - 1) + BandPart(rows, n - 1)
  }

  /** ToStringFancy: its thirteen lines, a break between them and none after
      the last rule. */
  function RenderFancy(g: seq<int>): string
    requires |g| == 81
  {
    Join(FancyLines(g))
  }

  /** The line on which row r appears: after its own row and the rules
      above it. */
  function FancyLineOf(row: int): (k: int)
    requires 0 <= row < 9
    ensures 0 < k < 13 && !IsRuleLine(k) && FancyRowOfLine(k) == row
  {
    row + (if row < 3 then 1 else if row < 6 then 2 else 3)
  }

  /** One column more of a row, appended as ToStringFancy appends it: the
      optional border, then the value. */
  lemma FancyRowPrefixUnfold(g: seq<int>, row: int, n: int)
    requires |g| == 81 && 0 <= row < 9 && 0 < n <= 9
    ensures FancyRowPrefix(g, row, n)
            == FancyRowPrefix(g, row, n - 1)
               + (if (n - 1) % 3 == 0 then [BarChar] else [])
               + FancyText(g[CellIndex(n - 1, row)])
  {
    AppendAssoc(FancyRowPrefix(g, row, n - 1), if (n - 1) % 3 == 0 then [BarChar] else [],
                FancyText(g[CellIndex(n - 1, row)]));
  }

  /** The length of the first n columns of a row line: n cells and a
      border for each group of three begun. */
  function FancyPrefixLength(n: int): int
    requires 0 <= n <= 9
  {
    n + (if n == 0 then 0 else if n <= 3 then 1 else if n <= 6 then 2 else 3)
  }

  /** Where the cell of column c sits in a row line: after c cells and the
      borders of the groups begun so far. */
  function FancyCellPos(c: int): (k: int)
    requires 0 <= c < 9
    ensures k == c + c / 3 + 1
  {
    c + 1 + (if c < 3 then 0 else if c < 6 then 1 else 2)
  }

  /** Columns 0, 3 and 6 open a group of three. */
  lemma GroupStart(c: int)
    requires 0 <= c < 9
    ensures c % 3 == 0 <==> c == 0 || c == 3 || c == 6
  {
  }

  /** The character of cell (c, row) on a grid of digits. */
  function FancyCellChar(g: seq<int>, row: int, c: int): char
    requires DigitGrid(g) && 0 <= row < 9 && 0 <= c < 9
  {
    FancyChar(g[CellIndex(c, row)])
  }

  /** On a grid of digits a column appends a border and its character when
      it opens a group, and only its character otherwise. */
  lemma FancyPieceShape(g: seq<int>, row: int, c: int)
    requires DigitGrid(g) && 0 <= row < 9 && 0 <= c < 9
    ensures c % 3 == 0 ==> FancyPiece(g, row, c) == [BarChar, FancyCellChar(g, row, c)]
    ensures c % 3 != 0 ==> FancyPiece(g, row, c) == [FancyCellChar(g, row, c)]
  {
    var v := g[CellIndex(c, row)];
    if v != EMPTY { DecimalOfDigit(v); }
  }

  /** In the first n columns of a row each cell sits after the borders
      before it, and a border opens each group of three. */
  lemma {:induction false} FancyRowPrefixShape(g: seq<int>, row: int, n: int)
    requires DigitGrid(g) && 0 <= row < 9 && 0 <= n <= 9
    ensures |FancyRowPrefix(g, row, n)| == FancyPrefixLength(n)
    ensures forall c :: 0 <= c < n ==> FancyRowPrefix(g, row, n)[FancyCellPos(c)] == FancyCellChar(g, row, c)
    ensures forall c :: 0 <= c < n && (c == 0 || c == 3 || c == 6) ==>
              FancyRowPrefix(g, row, n)[FancyCellPos(c) - 1] == BarChar
  {
    if n > 0 {
      FancyRowPrefixShape(g, row, n - 1);
      FancyPieceShape(g, row, n - 1);
      GroupStart(n - 1);
      var p := FancyRowPrefix(g, row, n - 1);
      var s := FancyRowPrefix(g, row, n);
      assert s == p + FancyPiece(g, row, n - 1);
      forall c | 0 <= c < n
        ensures s[FancyCellPos(c)] == FancyCellChar(g, row, c)
        ensures c == 0 || c == 3 || c == 6 ==> s[FancyCellPos(c) - 1] == BarChar
      {
        var q := FancyCellPos(c);
        if c < n - 1 {
          assert q < |p|;
          assert s[q] == p[q];
          assert s[q - 1] == p[q - 1];
        }
      }
    }
  }

  /** The layout of one row line on a grid of digits: 13 characters, a
      border at positions 0, 4, 8 and 12, the cell (c, row) at c + c / 3 + 1. */
  lemma FancyRowLayout(g: seq<int>, row: int)
    requires DigitGrid(g) && 0 <= row < 9
    ensures |FancyRowLine(g, row)| == 13
    ensures forall k :: k in {0, 4, 8, 12} ==> FancyRowLine(g, row)[k] == BarChar
    ensures forall c :: 0 <= c < 9 ==>
              FancyRowLine(g, row)[FancyCellPos(c)] == FancyChar(g[CellIndex(c, row)])
  {
    FancyRowPrefixShape(g, row, 9);
    var p := FancyRowPrefix(g, row, 9);
    var s := FancyRowLine(g, row);
    assert |p| == 12;
    assert s[12] == BarChar;
    assert FancyCellPos(0) == 1 && FancyCellPos(3) == 5 && FancyCellPos(6) == 9;
    assert s[0] == p[0];
    assert s[4] == p[4];
    assert s[8] == p[8];
    forall c | 0 <= c < 9
      ensures s[FancyCellPos(c)] == FancyChar(g[CellIndex(c, row)])
    {
      assert s[FancyCellPos(c)] == p[FancyCellPos(c)];
    }
  }

  /** After n rows (1 to 8) ToStringFancy has written the lines up to
      row n - 1's line, each followed by its break. */
  lemma {:induction false} FancyRowsJoin(rows: seq<string>, n: int)
    requires |rows| == 9 && 1 <= n <= 8
    ensures FancyRowsText(rows, n) == Join(Framed(rows)[..FancyLineOf(n - 1) + 1]) + [NL]
  {
    var lines := Framed(rows);
    var p := n - 1;
    var at := FancyLineOf(p);
    var line := rows[p] + [NL];
    GroupStart(p);
    assert lines[at] == rows[p];
    if n == 1 {
      assert FancyRowsText(rows, n) == (Rule + [NL]) + line;
      assert lines[..1] == [Rule];
      JoinPrefixBreak(lines, 1);
    } else {
      FancyRowsJoin(rows, n - 1);
      var prev := FancyLineOf(p - 1);
      var before := Join(lines[..prev + 1]) + [NL];
      if p % 3 == 0 {
        assert at == prev + 2 && lines[prev + 1] == Rule;
        assert BandPart(rows, p) == (Rule + [NL]) + line;
        AppendAssoc(before, Rule + [NL], line);
        JoinPrefixBreak(lines, prev + 1);
        JoinPrefixBreak(lines, at);
      } else {
        assert at == prev + 1;
        assert BandPart(rows, p) == line;
        JoinPrefixBreak(lines, at);
      }
    }
  }

  /** After all nine rows, and the closing rule, ToStringFancy has written
      exactly its thirteen lines joined by breaks. */
  lemma FancyRowsRender(rows: seq<string>)
    requires |rows| == 9
    ensures FancyRowsText(rows, 9) == Join(Framed(rows))
  {
    var lines := Framed(rows);
    var line := rows[8] + [NL];
    FancyRowsJoin(rows, 8);
    assert FancyLineOf(7) == 10;
    assert lines[11] == rows[8] && lines[12] == Rule;
    assert BandPart(rows, 8) == line + Rule;
    AppendAssoc(Join(lines[..11]) + [NL], line, Rule);
    JoinPrefixBreak(lines, 11);
    JoinPrefix(lines, 12);
    assert lines[..13] == lines;
  }

  /** The layout of ToStringFancy on a grid of digits: 13 lines of 13
      characters; lines 0, 4, 8 and 12 are rules, the others show rows 0..8
      in order, and splitting the text gives back exactly these lines. */
  lemma FancyLayout(g: seq<int>)
    requires DigitGrid(g)
    ensures forall k :: 0 <= k < 13 ==> |FancyLines(g)[k]| == 13
    ensures forall k :: 0 <= k < 13 && IsRuleLine(k) ==> FancyLines(g)[k] == Rule
    ensures forall row :: 0 <= row < 9 ==> FancyLines(g)[FancyLineOf(row)] == FancyRowLine(g, row)
    ensures Split(RenderFancy(g)) == FancyLines(g)
  {
    var lines := FancyLines(g);
    forall k | 0 <= k < 13
      ensures |lines[k]| == 13 && NL !in lines[k]
    {
      if !IsRuleLine(k) {
        var row := FancyRowOfLine(k);
        FancyRowLayout(g, row);
        assert NL !in lines[k] by {
          FancyRowNoBreak(g, row, 9);
        }
      }
    }
    SplitJoin(lines);
  }

  /** A row holds no line break. */
  lemma {:induction false} FancyRowNoBreak(g: seq<int>, row: int, n: int)
    requires |g| == 81 && 0 <= row < 9 && 0 <= n <= 9
    ensures NL !in FancyRowPrefix(g, row, n)
  {
    if n > 0 {
      FancyRowNoBreak(g, row, n - 1);
      var v := g[CellIndex(n - 1, row)];
      assert NL !in FancyText(v);
    }
  }
}
