/** The meaning of Region.CheckForDuplicateValue and of Puzzle.CheckForErrors,
    stated over a snapshot of the 81 cell values (indexed by CellIndex). */
module Duplicates {
  import opened Utils
  import opened Layout

  /** Every member names a slot of the snapshot. */
  predicate MembersIn(vals: seq<int>, ms: seq<int>) {
    forall k :: 0 <= k < |ms| ==> 0 <= ms[k] < |vals|
  }

  /** How many members of a region hold the value d. */
  function Count(vals: seq<int>, ms: seq<int>, d: int): (n: nat)
    requires MembersIn(vals, ms)
    ensures n <= |ms|
  {
    if ms == [] then 0
    else Count(vals, ms[..|ms| - 1], d) + (if vals[ms[|ms| - 1]] == d then 1 else 0)
  }

  /** Region.CheckForDuplicateValue: more than one member has Value == d. */
  predicate HasDuplicateValue(vals: seq<int>, ms: seq<int>, d: int)
    requires MembersIn(vals, ms)
  {
    Count(vals, ms, d) > 1
  }

  /** Block i, row i or column i repeats the digit d (the test of one
      iteration of CheckForErrors' inner loop). */
  predicate RegionRepeats(vals: seq<int>, i: int, d: int)
    requires |vals| == 81 && 0 <= i < 9
  {
    HasDuplicateValue(vals, BlockIndices(i), d)
    || HasDuplicateValue(vals, RowIndices(i), d)
    || HasDuplicateValue(vals, ColumnIndices(i), d)
  }

  /** What CheckForErrors reports: some digit 1..9 is repeated in some region. */
  predicate GridHasErrors(vals: seq<int>)
    requires |vals| == 81
  {
    exists d, i :: 1 <= d <= 9 && 0 <= i < 9 && RegionRepeats(vals, i, d)
  }

  /** Two cells share a row, a column or a block. */
  ghost predicate SameRegion(a: int, b: int)
    requires 0 <= a < 81 && 0 <= b < 81
  {
    RowOf(a) == RowOf(b) || ColOf(a) == ColOf(b)
    || BlockOf(ColOf(a), RowOf(a)) == BlockOf(ColOf(b), RowOf(b))
  }

  /** The rule of Sudoku broken: two different cells that see each other
      hold the same digit. */
  ghost predicate HasConflict(vals: seq<int>)
    requires |vals| == 81
  {
    exists a, b :: 0 <= a < 81 && 0 <= b < 81 && a != b && SameRegion(a, b)
                   && 1 <= vals[a] <= 9 && vals[a] == vals[b]
  }

  /** A positive count means some member holds d. */
  lemma {:induction false} CountPositive(vals: seq<int>, ms: seq<int>, d: int)
    requires MembersIn(vals, ms)
    ensures Count(vals, ms, d) >= 1 <==> exists a :: 0 <= a < |ms| && vals[ms[a]] == d
  {
    if ms != [] {
      var ps := ms[..|ms| - 1];
      CountPositive(vals, ps, d);
      if Count(vals, ps, d) >= 1 {
        var a :| 0 <= a < |ps| && vals[ps[a]] == d;
        assert vals[ms[a]] == d;
      }
      if exists a :: 0 <= a < |ms| && vals[ms[a]] == d {
        var a :| 0 <= a < |ms| && vals[ms[a]] == d;
        if a < |ps| { assert vals[ps[a]] == d; }
      }
    }
  }

  /** "More than one member has value d" is "two different members have value d". */
  lemma {:induction false} CountTwo(vals: seq<int>, ms: seq<int>, d: int)
    requires MembersIn(vals, ms)
    ensures HasDuplicateValue(vals, ms, d)
            <==> exists a, b :: 0 <= a < b < |ms| && vals[ms[a]] == d && vals[ms[b]] == d
  {
    if ms != [] {
      var ps := ms[..|ms| - 1];
      var last := |ms| - 1;
      CountTwo(vals, ps, d);
      CountPositive(vals, ps, d);
      if Count(vals, ms, d) > 1 {
        if vals[ms[last]] == d {
          var a :| 0 <= a < |ps| && vals[ps[a]] == d;
          assert vals[ms[a]] == d && a < last;
        } else {
          var a, b :| 0 <= a < b < |ps| && vals[ps[a]] == d && vals[ps[b]] == d;
          assert vals[ms[a]] == d && vals[ms[b]] == d;
        }
      }
      if exists a, b :: 0 <= a < b < |ms| && vals[ms[a]] == d && vals[ms[b]] == d {
        var a, b :| 0 <= a < b < |ms| && vals[ms[a]] == d && vals[ms[b]] == d;
        if b < last {
          assert vals[ps[a]] == d && vals[ps[b]] == d;
        } else {
          assert vals[ps[a]] == d;
        }
      }
    }
  }

  /** Two different slots of a region with the same value make a duplicate. */
  lemma PairMakesDuplicate(vals: seq<int>, ms: seq<int>, d: int, x: int, y: int)
    requires MembersIn(vals, ms)
    requires 0 <= x < |ms| && 0 <= y < |ms| && x != y
    requires vals[ms[x]] == d && vals[ms[y]] == d
    ensures HasDuplicateValue(vals, ms, d)
  {
    CountTwo(vals, ms, d);
    if x < y {
      assert 0 <= x < y < |ms| && vals[ms[x]] == d && vals[ms[y]] == d;
    } else {
      assert 0 <= y < x < |ms| && vals[ms[y]] == d && vals[ms[x]] == d;
    }
  }

  /** A repeated digit in some region is a conflict between two cells. */
  lemma RepeatIsConflict(vals: seq<int>, i: int, d: int)
    requires |vals| == 81 && 0 <= i < 9 && 1 <= d <= 9
    requires RegionRepeats(vals, i, d)
    ensures HasConflict(vals)
  {
    RegionsHaveNineDistinctCells(i);
    var ms := if HasDuplicateValue(vals, BlockIndices(i), d) then BlockIndices(i)
              else if HasDuplicateValue(vals, RowIndices(i), d) then RowIndices(i)
              else ColumnIndices(i);
    CountTwo(vals, ms, d);
    var a, b :| 0 <= a < b < |ms| && vals[ms[a]] == d && vals[ms[b]] == d;
    if ms == BlockIndices(i) {
      BlockIsBlock(i, a);
      BlockIsBlock(i, b);
    } else if ms == RowIndices(i) {
      RowIsRow(i, a);
      RowIsRow(i, b);
    } else {
      ColumnIsColumn(i, a);
      ColumnIsColumn(i, b);
    }
    assert ms[a] != ms[b] && SameRegion(ms[a], ms[b]);
  }

  /** A conflict between two cells is a repeated digit in the row, the
      column or the block they share. */
  lemma ConflictIsRepeat(vals: seq<int>, a: int, b: int)
    requires |vals| == 81 && 0 <= a < 81 && 0 <= b < 81 && a != b
    requires SameRegion(a, b) && 1 <= vals[a] <= 9 && vals[a] == vals[b]
    ensures GridHasErrors(vals)
  {
    var d := vals[a];
    PointOfInjective(a, b);
    if RowOf(a) == RowOf(b) {
      RowsPartition(a);
      RowsPartition(b);
      PairMakesDuplicate(vals, RowIndices(RowOf(a)), d, ColOf(a), ColOf(b));
      assert RegionRepeats(vals, RowOf(a), d);
    } else if ColOf(a) == ColOf(b) {
      ColumnsPartition(a);
      ColumnsPartition(b);
      PairMakesDuplicate(vals, ColumnIndices(ColOf(a)), d, RowOf(a), RowOf(b));
      assert RegionRepeats(vals, ColOf(a), d);
    } else {
      BlocksPartition(a);
      BlocksPartition(b);
      var i := BlockOf(ColOf(a), RowOf(a));
      var x, y := SlotInBlock(ColOf(a), RowOf(a)), SlotInBlock(ColOf(b), RowOf(b));
      assert BlockIndices(i)[x] == a && BlockIndices(i)[y] == b;
      PairMakesDuplicate(vals, BlockIndices(i), d, x, y);
      assert RegionRepeats(vals, i, d);
    }
  }

  /** CheckForErrors' region-by-region scan finds exactly the conflicts of
      the grid: it reports an error iff two different cells in the same row,
      column or block hold the same digit 1..9. */
  lemma ErrorsAreConflicts(vals: seq<int>)
    requires |vals| == 81
    ensures GridHasErrors(vals) <==> HasConflict(vals)
  {
    if GridHasErrors(vals) {
      var d, i :| 1 <= d <= 9 && 0 <= i < 9 && RegionRepeats(vals, i, d);
      RepeatIsConflict(vals, i, d);
    }
    if HasConflict(vals) {
      var a, b :| 0 <= a < 81 && 0 <= b < 81 && a != b && SameRegion(a, b)
                  && 1 <= vals[a] <= 9 && vals[a] == vals[b];
      ConflictIsRepeat(vals, a, b);
    }
  }

  /** A grid with no digits 1..9 has no errors, whatever else it holds (so
      a freshly created custom puzzle, all EMPTY, reports none). */
  lemma EmptyGridHasNoErrors(vals: seq<int>)
    requires |vals| == 81
    requires forall k :: 0 <= k < 81 ==> !(1 <= vals[k] <= 9)
    ensures !GridHasErrors(vals)
  {
    ErrorsAreConflicts(vals);
  }
}
