/** A cell address: a column letter and a row number, written like "B7". */
module Coordinates {
  import opened Text
  import opened Numbers
  import opened Errors
  import RowIds
  import ColumnIds

  datatype Coordinate = Coordinate(row: RowIds.RowId, column: ColumnIds.ColumnId)

  predicate Valid(c: Coordinate) {
    RowIds.Valid(c.row) && ColumnIds.Valid(c.column)
  }

  /** `new Coordinate(int rowId, int columnId)`: the row is checked before the column. */
  function FromInts(row: int32, column: int32): (r: Result<Coordinate>)
    ensures r.Ok? <==> row >= 1 && 1 <= column <= 26
    ensures r.Ok? ==> Valid(r.value) && r.value.row.value == row && ColumnIds.Index(r.value.column) == column as int
    ensures row < 1 ==> r == Err(RowIdOutOfRange(row as int))
    ensures row >= 1 && !(1 <= column <= 26) ==> r == Err(ColumnIdOutOfRange(column as int))
  {
    match RowIds.New(row)
    case Err(e) => Err(e)
    case Ok(rowId) =>
      match ColumnIds.FromInt(column as int)
      case Err(e) => Err(e)
      case Ok(columnId) => Ok(Coordinate(rowId, columnId))
  }

  /**
   * `ToString`: the column letter followed by the row number; a valid row
   * prints as its decimal digits with no leading zero.
   */
  function ToString(c: Coordinate): (s: string)
    ensures |s| >= 2 && s[0] == c.column.value
    ensures RowIds.Valid(c.row) ==>
      IsDigits(s[1..]) && s[1] != '0' && DigitsValue(s[1..]) == c.row.value as int
  {
    var s := [c.column.value] + IntToString(c.row.value as int);
    assert s[1..] == IntToString(c.row.value as int);
    NatToStringValue(if c.row.value >= 0 then c.row.value as int else 0);
    s
  }

  /** What the anchored pattern sees: `$` also matches before one final line feed. */
  function Unterminated(s: string): (b: string)
    ensures b == s || b + "\n" == s
  {
    if EndsWithChar(s, '\n') then s[..|s| - 1] else s
  }

  /** The case-insensitive pattern `^[A-Z][0-9]+$`. */
  predicate Matches(s: string) {
    var b := Unterminated(s);
    |b| >= 2 && IsAsciiLetter(b[0]) && IsDigits(b[1..])
  }

  /** The row number written in a matching source. */
  function RowDigits(s: string): (n: nat)
    requires Matches(s)
  {
    DigitsValue(Unterminated(s)[1..])
  }

  /**
   * `Coordinate.Parse`: one letter of either case, then the row digits
   * (read by `Convert.ToInt32`, so leading zeros are allowed and more than
   * 32 bits overflow), then the row and column checks.
   */
  function Parse(source: string): (r: Result<Coordinate>)
    ensures r.Ok? <==> Matches(source) && 1 <= RowDigits(source) <= INT32_MAX
    ensures r.Ok? ==> Valid(r.value) && r.value.row.value as int == RowDigits(source)
    ensures r.Ok? ==> r.value.column.value == ToUpper(Unterminated(source)[0])
    ensures !Matches(source) ==> r == Err(CoordinateSource(source))
    ensures Matches(source) && RowDigits(source) > INT32_MAX ==> r == Err(Int32Overflow)
    ensures Matches(source) && RowDigits(source) == 0 ==> r == Err(RowIdOutOfRange(0))
  {
    if !Matches(source) then Err(CoordinateSource(source))
    else
      var b := Unterminated(source);
      var n := DigitsValue(b[1..]);
      if !InInt32(n) then Err(Int32Overflow)
      else
        match RowIds.New(n as int32)
        case Err(e) => Err(e)
        case Ok(rowId) =>
          match ColumnIds.FromLetter(b[0])
          case Err(e) => Err(e)
          case Ok(columnId) => Ok(Coordinate(rowId, columnId))
  }

  /** Every valid coordinate reads back from its own text. */
  lemma ParseToString(c: Coordinate)
    requires Valid(c)
    ensures Parse(ToString(c)) == Ok(c)
  {
    var s := ToString(c);
    var digits := NatToString(c.row.value as int);
    assert s == [c.column.value] + digits;
    assert s[1..] == digits;
    assert !EndsWithChar(s, '\n') by {
      assert s[|s| - 1] == digits[|digits| - 1];
    }
    NatToStringValue(c.row.value as int);
  }

  /** A parsed coordinate prints as its source in upper case, when the row has no leading zero. */
  lemma ToStringParse(s: string)
    requires Parse(s).Ok? && !EndsWithChar(s, '\n') && s[1] != '0'
    ensures ToString(Parse(s).value) == Upper(s)
  {
    var c := Parse(s).value;
    DigitsRoundTrip(s[1..]);
    assert NatToString(c.row.value as int) == s[1..];
    var u := Upper(s);
    assert u == [u[0]] + u[1..];
    assert u[1..] == s[1..] by {
      forall i | 0 <= i < |s| - 1
        ensures u[1..][i] == s[1..][i]
      {
        assert IsDigit(s[1..][i]);
      }
    }
  }

  /** Upper-casing a matching source changes only its letter. */
  lemma UpperUnterminated(s: string)
    requires Matches(s)
    ensures var b, ub := Unterminated(s), Unterminated(Upper(s));
      |ub| == |b| && ub[0] == ToUpper(b[0]) && ub[1..] == b[1..]
  {
    var b := Unterminated(s);
    var u := Upper(s);
    assert forall i :: 1 <= i < |s| ==> u[i] == s[i] by {
      forall i | 1 <= i < |s|
        ensures u[i] == s[i]
      {
        if i < |b| {
          assert s[i] == b[1..][i - 1];
          assert IsDigit(s[i]);
        } else {
          assert s[i] == '\n';
        }
      }
    }
    var ub := Unterminated(u);
    assert |ub| == |b|;
    assert ub[1..] == b[1..];
  }

  /** Letter case does not matter to a successful parse. */
  lemma ParseIgnoresCase(s: string)
    requires Parse(s).Ok?
    ensures Parse(Upper(s)) == Parse(s)
  {
    var b, ub := Unterminated(s), Unterminated(Upper(s));
    UpperUnterminated(s);
    assert Matches(Upper(s));
    assert RowDigits(Upper(s)) == RowDigits(s);
    assert ColumnIds.FromLetter(ub[0]) == ColumnIds.FromLetter(b[0]);
  }
}
