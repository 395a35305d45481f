/** The value held by a cell: exactly one of seven alternatives, compared by value. */
module Values {
  import opened Wrappers
  import opened Numbers
  import opened Functions

  datatype DataValue =
    | Text(text: string)
    | Integer(integer: int32)
      /** C# `decimal`, read as an exact rational number. */
    | Decimal(decimal: real)
    | Boolean(boolean: bool)
      /** A `DateTime`, identified by its tick count. */
    | DateTime(ticks: int)
      /** A `Percentage`: `Percentage(50)` is fifty percent. */
    | Percentage(percent: real)
    | Func(call: Function)

  /** `ValueEquals`: the same alternative holding equal contents. */
  predicate ValueEquals(a: DataValue, b: DataValue) {
    match a
    case Text(s) => b.Text? && s == b.text
    case Integer(i) => b.Integer? && i == b.integer
    case Decimal(d) => b.Decimal? && d == b.decimal
    case Boolean(x) => b.Boolean? && x == b.boolean
    case DateTime(t) => b.DateTime? && t == b.ticks
    case Percentage(p) => b.Percentage? && p == b.percent
    case Func(f) => b.Func? && f == b.call
  }

  /** Value equality is exactly equality of the modelled values. */
  lemma ValueEqualsIsEquality(a: DataValue, b: DataValue)
    ensures ValueEquals(a, b) <==> a == b
  {
  }

  /** An argument of `Equals(object)`: `null`, a data value, or any other object. */
  datatype Object = Null | Value(value: DataValue) | Other

  /** `Equals(object)`: only a data value can be equal to a data value. */
  predicate Equals(self: DataValue, obj: Object) {
    obj.Value? && ValueEquals(self, obj.value)
  }

  /** `operator ==` on possibly-null operands: two nulls are equal, one null is not. */
  predicate OpEquals(left: Option<DataValue>, right: Option<DataValue>) {
    if left == right then true
    else if left.None? || right.None? then false
    else Equals(left.value, Value(right.value))
  }

  /** `operator !=`. */
  predicate OpNotEquals(left: Option<DataValue>, right: Option<DataValue>) {
    !OpEquals(left, right)
  }

  /** `==` is equality of the optional values, hence an equivalence, and `!=` its negation. */
  lemma OpEqualsIsEquality(left: Option<DataValue>, right: Option<DataValue>)
    ensures OpEquals(left, right) <==> left == right
    ensures OpNotEquals(left, right) <==> left != right
    ensures OpEquals(left, right) == OpEquals(right, left)
  {
    if left.Some? && right.Some? {
      ValueEqualsIsEquality(left.value, right.value);
    }
  }

  /**
   * The hash codes of the payload types (`string`, `int`, `decimal`, `bool`,
   * `DateTime`, `Percentage` and the `Function` record), whose values the
   * runtime chooses.
   */
  datatype Hashes = Hashes(
    text: string -> int, integer: int32 -> int, decimal: real -> int, boolean: bool -> int,
    ticks: int -> int, percent: real -> int, call: Function -> int)

  /** `GetHashCode`: the hash of the payload, whichever alternative holds it. */
  function GetHashCode(v: DataValue, h: Hashes): int {
    match v
    case Text(s) => h.text(s)
    case Integer(i) => h.integer(i)
    case Decimal(d) => h.decimal(d)
    case Boolean(b) => h.boolean(b)
    case DateTime(t) => h.ticks(t)
    case Percentage(p) => h.percent(p)
    case Func(f) => h.call(f)
  }

  /** Values that `Equals` relates have the same hash code, whatever the payload hashes are. */
  lemma HashAgreesWithEquals(a: DataValue, b: DataValue, h: Hashes)
    requires Equals(a, Value(b))
    ensures GetHashCode(a, h) == GetHashCode(b, h)
  {
    ValueEqualsIsEquality(a, b);
  }
}
