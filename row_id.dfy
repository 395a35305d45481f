/** The 1-based row number of a cell. */
module RowIds {
  import opened Numbers
  import opened Errors

  /** A row number; `RowId(0)` is the struct's default value, which no constructor call produces. */
  datatype RowId = RowId(value: int32)

  predicate Valid(r: RowId) {
    r.value >= 1
  }

  /** `new RowId(value)`: rows start at 1. */
  function New(v: int32): (r: Result<RowId>)
    ensures r.Ok? <==> v >= 1
    ensures r.Ok? ==> r.value.value == v && Valid(r.value)
    ensures r.Err? ==> r.error == RowIdOutOfRange(v as int)
  {
    if v < 1 then Err(RowIdOutOfRange(v as int)) else Ok(RowId(v))
  }

  /** `NextValue`: the row below, computed with an unchecked 32-bit increment. */
  function NextValue(r: RowId): (n: Result<RowId>)
    ensures 0 <= r.value as int < INT32_MAX ==> n == Ok(RowId(r.value + 1))
    ensures r.value as int == INT32_MAX ==> n == Err(RowIdOutOfRange(INT32_MIN))
    ensures r.value < 0 ==> n == Err(RowIdOutOfRange(r.value as int + 1))
  {
    New(Wrap32(r.value as int + 1))
  }

  /** `PreviousValue`: the row above; row 1 has none. */
  function PreviousValue(r: RowId): (p: Result<RowId>)
    ensures r.value == 1 ==> p == Err(RowIdOutOfRange(0))
    ensures r.value > 1 ==> p == Ok(RowId(r.value - 1))
    ensures INT32_MIN < r.value as int < 1 ==> p == Err(RowIdOutOfRange(r.value as int - 1))
  {
    if r.value == 1 then Err(RowIdOutOfRange(0)) else New(Wrap32(r.value as int - 1))
  }

  /** Stepping down and back up returns to the same row, except from the last representable row. */
  lemma NextThenPrevious(r: RowId)
    requires Valid(r) && r.value as int < INT32_MAX
    ensures NextValue(r).Ok? && PreviousValue(NextValue(r).value) == Ok(r)
  {
  }

  /** Stepping up and back down returns to the same row, for every row but the first. */
  lemma PreviousThenNext(r: RowId)
    requires r.value > 1
    ensures PreviousValue(r).Ok? && NextValue(PreviousValue(r).value) == Ok(r)
  {
  }
}
