/** The column letter of a cell. */
module ColumnIds {
  import opened Text
  import opened Errors

  datatype ColumnId = ColumnId(value: char)

  /** The 26 columns 'A'..'Z'. */
  predicate Valid(c: ColumnId) {
    IsAsciiUpper(c.value)
  }

  /** `new ColumnId(int)`: column 1 is 'A', column 26 is 'Z'. */
  function FromInt(v: int): (r: Result<ColumnId>)
    ensures r.Ok? <==> 1 <= v <= 26
    ensures r.Ok? ==> Valid(r.value) && r.value.value as int - 'A' as int + 1 == v
    ensures r.Err? ==> r.error == ColumnIdOutOfRange(v)
  {
    if v < 1 || v > 26 then Err(ColumnIdOutOfRange(v)) else Ok(ColumnId((64 + v) as char))
  }

  /** The number of a valid column, the inverse of `FromInt`. */
  function Index(c: ColumnId): (v: int)
    requires Valid(c)
    ensures 1 <= v <= 26 && FromInt(v) == Ok(c)
  {
    c.value as int - 'A' as int + 1
  }

  /**
   * `new ColumnId(char)` as written: the guard `'A' < upper && upper > 'Z'`
   * only rejects characters above 'Z', so digits and punctuation pass.
   */
  function FromChar(c: char): (r: Result<ColumnId>)
    ensures r.Ok? <==> ToUpper(c) <= 'Z'
    ensures r.Ok? ==> r.value == ColumnId(ToUpper(c))
    ensures r.Err? ==> r.error == ColumnCharOutOfRange(c)
  {
    var upper := ToUpper(c);
    if 'A' < upper && upper > 'Z' then Err(ColumnCharOutOfRange(c)) else Ok(ColumnId(upper))
  }

  /** `new ColumnId(char)` as intended: exactly the letters are accepted, in either case. */
  function FromLetter(c: char): (r: Result<ColumnId>)
    ensures r.Ok? <==> IsAsciiLetter(c)
    ensures r.Ok? ==> Valid(r.value) && r.value.value == ToUpper(c)
    ensures r.Err? ==> r.error == ColumnCharOutOfRange(c)
  {
    var upper := ToUpper(c);
    if upper < 'A' || upper > 'Z' then Err(ColumnCharOutOfRange(c)) else Ok(ColumnId(upper))
  }

  /** The written guard lets a digit through and yields a column outside 'A'..'Z'. */
  lemma FromCharAcceptsDigit()
    ensures FromChar('1') == Ok(ColumnId('1'))
    ensures !Valid(FromChar('1').value) && FromLetter('1').Err?
  {
  }

  /** On letters, the only characters a coordinate can carry, both guards agree. */
  lemma FromCharAgreesOnLetters(c: char)
    requires IsAsciiLetter(c)
    ensures FromChar(c) == FromLetter(c)
  {
  }

  /** A letter and its column number name the same column, whatever the letter's case. */
  lemma FromLetterMatchesFromInt(c: char)
    requires IsAsciiLetter(c)
    ensures FromLetter(c) == FromInt(ToUpper(c) as int - 'A' as int + 1)
  {
  }
}
