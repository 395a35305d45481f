/**
 * `ParseRange`: the argument of SUM, AVG and COUNT is either one coordinate
 * or two coordinates of the same column joined by `:`, which stand for every
 * cell of that column between the two rows, top to bottom.
 */
module Ranges {
  import opened Text
  import opened Numbers
  import opened Errors
  import opened Coordinates
  import RowIds
  import ColumnIds

  function Min(a: int, b: int): int { if a <= b then a else b }
  function Max(a: int, b: int): int { if a <= b then b else a }

  /** The cells of `column` in rows `lo` to `hi`, top to bottom (none when `hi < lo`). */
  function ColumnCells(column: ColumnIds.ColumnId, lo: int, hi: int): (r: seq<Coordinate>)
    requires 1 <= lo && hi <= INT32_MAX
    ensures |r| == if lo <= hi then hi - lo + 1 else 0
    decreases hi - lo
  {
    if hi < lo then [] else ColumnCells(column, lo, hi - 1) + [Coordinate(RowIds.RowId(hi as int32), column)]
  }

  /** The `i`-th cell listed is in row `lo + i`. */
  lemma {:induction false} ColumnCellsAt(column: ColumnIds.ColumnId, lo: int, hi: int)
    requires 1 <= lo && hi <= INT32_MAX
    ensures forall i :: 0 <= i < |ColumnCells(column, lo, hi)| ==>
      ColumnCells(column, lo, hi)[i] == Coordinate(RowIds.RowId((lo + i) as int32), column)
    decreases hi - lo
  {
    if lo <= hi {
      ColumnCellsAt(column, lo, hi - 1);
    }
  }

  /** A cell is listed exactly when it is in the column and between the two rows. */
  lemma ColumnCellsMembership(column: ColumnIds.ColumnId, lo: int, hi: int, c: Coordinate)
    requires 1 <= lo && hi <= INT32_MAX
    ensures c in ColumnCells(column, lo, hi) <==> c.column == column && lo <= c.row.value as int <= hi
  {
    var r := ColumnCells(column, lo, hi);
    ColumnCellsAt(column, lo, hi);
    if c.column == column && lo <= c.row.value as int <= hi {
      var i := c.row.value as int - lo;
      assert r[i] == c;
    }
  }

  /** Listing from the top row: the first cell, then the rest. */
  lemma {:induction false} ColumnCellsFirst(column: ColumnIds.ColumnId, lo: int, hi: int)
    requires 1 <= lo <= hi <= INT32_MAX
    ensures ColumnCells(column, lo, hi) ==
      [Coordinate(RowIds.RowId(lo as int32), column)] + ColumnCells(column, lo + 1, hi)
    decreases hi - lo
  {
    if lo < hi {
      ColumnCellsFirst(column, lo, hi - 1);
    }
  }

  /** What the text of a range names: one cell, or the two ends of a column range. */
  datatype Shape = Single(cell: Coordinate) | Span(first: Coordinate, last: Coordinate)

  /** The checks of `ParseRange`, in the order the source makes them. */
  function RangeShape(range: string): (r: Result<Shape>)
    ensures r.Ok? && r.value.Single? ==> Coordinates.Valid(r.value.cell)
    ensures r.Ok? && r.value.Span? ==>
      Coordinates.Valid(r.value.first) && Coordinates.Valid(r.value.last) && r.value.first.column == r.value.last.column
  {
    if ':' in range then
      var parts := Split(range, ':');
      if |parts| != 2 then Err(InvalidRangeFormat(range))
      else
        match Parse(Trim(parts[0]))
        case Err(e) => Err(e)
        case Ok(first) =>
          match Parse(Trim(parts[1]))
          case Err(e) => Err(e)
          case Ok(last) =>
            if first.column.value == last.column.value then Ok(Span(first, last))
            else Err(UnsupportedComplexRange(range))
    else
      match Parse(Trim(range))
      case Err(e) => Err(e)
      case Ok(c) => Ok(Single(c))
  }

  /**
   * Which check a range fails: two or more ':' make an invalid range format, a
   * column range has exactly one ':', and a text without ':' is the coordinate
   * its trimmed text parses to.
   */
  lemma RangeShapeCases(range: string)
    ensures Count(range, ':') >= 2 ==> RangeShape(range) == Err(InvalidRangeFormat(range))
    ensures RangeShape(range).Ok? && RangeShape(range).value.Span? ==> Count(range, ':') == 1
    ensures ':' !in range && Parse(Trim(range)).Err? ==> RangeShape(range) == Err(Parse(Trim(range)).error)
    ensures ':' !in range && Parse(Trim(range)).Ok? ==> RangeShape(range) == Ok(Single(Parse(Trim(range)).value))
  {
    SplitParts(range, ':');
    CountZero(range, ':');
  }

  /**
   * A text `x:y` with one ':': the start is parsed first, then the end, and two
   * valid ends in different columns make an unsupported complex range.
   */
  lemma SpanCases(x: string, y: string)
    requires ':' !in x && ':' !in y
    ensures var range, first, last := x + ":" + y, Parse(Trim(x)), Parse(Trim(y));
      && (first.Err? ==> RangeShape(range) == Err(first.error))
      && (first.Ok? && last.Err? ==> RangeShape(range) == Err(last.error))
      && (first.Ok? && last.Ok? && first.value.column != last.value.column ==>
            RangeShape(range) == Err(UnsupportedComplexRange(range)))
      && (first.Ok? && last.Ok? && first.value.column == last.value.column ==>
            RangeShape(range) == Ok(Span(first.value, last.value)))
  {
    SplitPair(x, y);
  }

  /** The cells a range stands for. */
  function RangeCells(range: string): (r: Result<seq<Coordinate>>)
    ensures r.Err? <==> RangeShape(range).Err?
    ensures r.Err? ==> RangeShape(range) == Err(r.error)
    ensures r.Ok? ==> 1 <= |r.value| <= INT32_MAX
  {
    match RangeShape(range)
    case Err(e) => Err(e)
    case Ok(Single(c)) => Ok([c])
    case Ok(Span(first, last)) =>
      var a, b := first.row.value as int, last.row.value as int;
      Ok(ColumnCells(first.column, Min(a, b), Max(a, b)))
  }

  /**
   * A column range lists, top to bottom, every cell of its column from the
   * upper to the lower end, each once: |r1 - r2| + 1 cells, whichever end is
   * written first.
   */
  lemma SpanCells(range: string)
    requires RangeShape(range).Ok? && RangeShape(range).value.Span?
    ensures var first, last := RangeShape(range).value.first, RangeShape(range).value.last;
      var a, b := first.row.value as int, last.row.value as int;
      var cells := RangeCells(range).value;
      RangeCells(range).Ok? &&
      |cells| == Max(a, b) - Min(a, b) + 1 &&
      (forall i :: 0 <= i < |cells| ==>
        cells[i] == Coordinate(RowIds.RowId((Min(a, b) + i) as int32), first.column)) &&
      (forall c :: c in cells <==> c.column == first.column && Min(a, b) <= c.row.value as int <= Max(a, b))
  {
    var first, last := RangeShape(range).value.first, RangeShape(range).value.last;
    var a, b := first.row.value as int, last.row.value as int;
    ColumnCellsAt(first.column, Min(a, b), Max(a, b));
    forall c: Coordinate
      ensures c in RangeCells(range).value <==> c.column == first.column && Min(a, b) <= c.row.value as int <= Max(a, b)
    {
      ColumnCellsMembership(first.column, Min(a, b), Max(a, b), c);
    }
  }

  /** `ParseRange`: the corrected loop, whose row counter never passes the last row. */
  method ParseRange(range: string) returns (r: Result<seq<Coordinate>>)
    ensures r == RangeCells(range)
  {
    if ':' in range {
      var parts := Split(range, ':');
      if |parts| != 2 {
        return Err(InvalidRangeFormat(range));
      }
      var start := Parse(Trim(parts[0]));
      if start.Err? {
        return Err(start.error);
      }
      var end := Parse(Trim(parts[1]));
      if end.Err? {
        return Err(end.error);
      }
      var first, last := start.value, end.value;
      if first.column.value == last.column.value {
        var lo := Min(first.row.value as int, last.row.value as int);
        var hi := Max(first.row.value as int, last.row.value as int);
        var cells: seq<Coordinate> := [];
        for row := lo to hi + 1
          invariant cells == ColumnCells(first.column, lo, row - 1)
        {
          cells := cells + [Coordinate(RowIds.RowId(row as int32), first.column)];
        }
        return Ok(cells);
      } else {
        return Err(UnsupportedComplexRange(range));
      }
    } else {
      var c := Parse(Trim(range));
      if c.Err? {
        return Err(c.error);
      }
      return Ok([c.value]);
    }
  }

  /**
   * The row loop as written: `row` is a 32-bit `int` and `row++` wraps from
   * `int.MaxValue` to `int.MinValue`, which still satisfies `row <= endRow`,
   * so `new RowId(row)` throws instead of the loop ending.
   */
  function RowsAsWritten(column: ColumnIds.ColumnId, row: int32, last: int32): (r: Result<seq<Coordinate>>)
    decreases if row >= 1 then 1 else 0, INT32_MAX - row as int
  {
    if row > last then Ok([])
    else
      match RowIds.New(row)
      case Err(e) => Err(e)
      case Ok(rowId) =>
        match RowsAsWritten(column, Wrap32(row as int + 1), last)
        case Err(e) => Err(e)
        case Ok(rest) => Ok([Coordinate(rowId, column)] + rest)
  }

  /** `ParseRange` as written, with the wrapping row loop. */
  function RangeCellsAsWritten(range: string): Result<seq<Coordinate>> {
    match RangeShape(range)
    case Err(e) => Err(e)
    case Ok(Single(c)) => Ok([c])
    case Ok(Span(first, last)) =>
      var a, b := first.row.value, last.row.value;
      RowsAsWritten(first.column, if a <= b then a else b, if a <= b then b else a)
  }

  /** Below the last representable row the loop as written lists the same cells. */
  lemma {:induction false} RowsAsWrittenBelowMax(column: ColumnIds.ColumnId, lo: int32, hi: int32)
    requires 1 <= lo && hi as int < INT32_MAX
    ensures RowsAsWritten(column, lo, hi) == Ok(ColumnCells(column, lo as int, hi as int))
    decreases hi as int - lo as int
  {
    if lo <= hi {
      var next := Wrap32(lo as int + 1);
      assert next as int == lo as int + 1;
      if lo < hi {
        RowsAsWrittenBelowMax(column, next, hi);
      }
      ColumnCellsFirst(column, lo as int, hi as int);
    }
  }

  /** A range reaching the last representable row throws instead. */
  lemma {:induction false} RowsAsWrittenAtMax(column: ColumnIds.ColumnId, lo: int32)
    requires 1 <= lo
    ensures RowsAsWritten(column, lo, INT32_MAX as int32) == Err(RowIdOutOfRange(INT32_MIN))
    decreases INT32_MAX - lo as int
  {
    var next := Wrap32(lo as int + 1);
    if lo as int < INT32_MAX {
      assert next as int == lo as int + 1;
      RowsAsWrittenAtMax(column, next);
    } else {
      assert next as int == INT32_MIN;
      assert RowsAsWritten(column, next, INT32_MAX as int32) == Err(RowIdOutOfRange(INT32_MIN));
    }
  }

  /**
   * The loop as written agrees with the corrected one unless the range ends at
   * row 2147483647, where it throws `RowIdOutOfRange(int.MinValue)`.
   */
  lemma AsWrittenDiffers(range: string)
    ensures RangeShape(range).Ok? && RangeShape(range).value.Span? ==>
      var first, last := RangeShape(range).value.first, RangeShape(range).value.last;
      if Max(first.row.value as int, last.row.value as int) == INT32_MAX then
        RangeCellsAsWritten(range) == Err(RowIdOutOfRange(INT32_MIN)) && RangeCells(range).Ok?
      else RangeCellsAsWritten(range) == RangeCells(range)
    ensures !(RangeShape(range).Ok? && RangeShape(range).value.Span?) ==>
      RangeCellsAsWritten(range) == RangeCells(range)
  {
    if RangeShape(range).Ok? && RangeShape(range).value.Span? {
      var first, last := RangeShape(range).value.first, RangeShape(range).value.last;
      var a, b := first.row.value, last.row.value;
      var lo, hi := if a <= b then a else b, if a <= b then b else a;
      if hi as int == INT32_MAX {
        RowsAsWrittenAtMax(first.column, lo);
      } else {
        RowsAsWrittenBelowMax(first.column, lo, hi);
      }
    }
  }

  /** The text of a valid coordinate holds no `:` and no surrounding white space. */
  lemma CoordinateText(c: Coordinate)
    requires Coordinates.Valid(c)
    ensures ':' !in ToString(c)
    ensures Trim(ToString(c)) == ToString(c)
    ensures Parse(ToString(c)) == Ok(c)
  {
    var s := ToString(c);
    var digits := NatToString(c.row.value as int);
    assert s == [c.column.value] + digits;
    assert ':' !in digits by {
      forall i | 0 <= i < |digits|
        ensures digits[i] != ':'
      {
        assert IsDigit(digits[i]);
      }
    }
    assert s[|s| - 1] == digits[|digits| - 1];
    TrimUnchanged(s);
    ParseToString(c);
  }

  /** Splitting `x:y` at `:` gives `x` and `y` when neither holds a `:`. */
  lemma SplitPair(x: string, y: string)
    requires ':' !in x && ':' !in y
    ensures ':' in x + ":" + y
    ensures Split(x + ":" + y, ':') == [x, y]
  {
    var s := x + ":" + y;
    assert s[|x|] == ':';
    assert s[..|x|] == x;
    IndexOfAt(s, ':', |x|);
    assert s[|x| + 1..] == y;
    IndexOfFirst(y, ':');
  }

  /** The text `X:Y` of two cells of one column reads back as that column range. */
  lemma RangeTextShape(first: Coordinate, last: Coordinate)
    requires Coordinates.Valid(first) && Coordinates.Valid(last) && first.column == last.column
    ensures RangeShape(ToString(first) + ":" + ToString(last)) == Ok(Span(first, last))
  {
    CoordinateText(first);
    CoordinateText(last);
    SplitPair(ToString(first), ToString(last));
  }

  lemma SpanRows(range: string, first: Coordinate, last: Coordinate)
    requires RangeShape(range) == Ok(Span(first, last))
    ensures var a, b := first.row.value as int, last.row.value as int;
      RangeCells(range) == Ok(ColumnCells(first.column, Min(a, b), Max(a, b)))
  {
  }

  /** Either end may be written first. */
  lemma RangeTextSymmetric(first: Coordinate, last: Coordinate)
    requires Coordinates.Valid(first) && Coordinates.Valid(last) && first.column == last.column
    ensures RangeCells(ToString(first) + ":" + ToString(last)) == RangeCells(ToString(last) + ":" + ToString(first))
  {
    RangeTextShape(first, last);
    RangeTextShape(last, first);
    SpanSymmetric(ToString(first) + ":" + ToString(last), ToString(last) + ":" + ToString(first), first, last);
  }

  lemma SpanSymmetric(forward: string, backward: string, first: Coordinate, last: Coordinate)
    requires RangeShape(forward) == Ok(Span(first, last)) && RangeShape(backward) == Ok(Span(last, first))
    ensures RangeCells(forward) == RangeCells(backward)
  {
    var a, b := first.row.value as int, last.row.value as int;
    assert Min(a, b) == Min(b, a) && Max(a, b) == Max(b, a);
    SpanRows(forward, first, last);
    SpanRows(backward, last, first);
  }

  /** With no `:`, the range is the one coordinate it names. */
  lemma SingleCell(c: Coordinate)
    requires Coordinates.Valid(c)
    ensures RangeCells(ToString(c)) == Ok([c])
  {
    CoordinateText(c);
  }

  /**
   * The counterexample to the loop as written: a range whose lower end is
   * row 2147483647, such as "A2147483647:A2147483647", throws instead of
   * listing its cells.
   */
  lemma LastRowRange(first: Coordinate, last: Coordinate)
    requires Coordinates.Valid(first) && Coordinates.Valid(last) && first.column == last.column
    requires last.row.value as int == INT32_MAX
    ensures var range := ToString(first) + ":" + ToString(last);
      RangeCellsAsWritten(range) == Err(RowIdOutOfRange(INT32_MIN)) &&
      RangeCells(range).Ok? && |RangeCells(range).value| == INT32_MAX - first.row.value as int + 1
  {
    var range := ToString(first) + ":" + ToString(last);
    RangeTextShape(first, last);
    AsWrittenDiffers(range);
  }
}
