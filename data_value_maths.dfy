/**
 * Arithmetic on cell values. Integers combine with `checked` 32-bit
 * arithmetic, an integer and a decimal give a decimal, a percentage takes
 * part in multiplication and division as its ratio (value / 100), and adding
 * or subtracting a percentage is refused as ambiguous. Any other operand
 * throws `InvalidOperationException`, the left operand being examined first.
 */
module Maths {
  import opened Numbers
  import opened Errors
  import opened Values

  /** `typeof(T).Name` of the alternative a value holds. */
  function TypeName(v: DataValue): string {
    match v
    case Text(_) => "String"
    case Integer(_) => "Int32"
    case Decimal(_) => "Decimal"
    case Boolean(_) => "Boolean"
    case DateTime(_) => "DateTime"
    case Percentage(_) => "Percentage"
    case Func(_) => "Function"
  }

  /** The exception of `Throw<T>()` for an operand of the wrong alternative. */
  function Unsupported(v: DataValue): Error {
    InvalidOperation("Operation not supported for " + TypeName(v) + ".")
  }

  const AmbiguousAdd: Error := InvalidOperation("Adding Percentage to number is ambiguous.")
  const AmbiguousSub: Error := InvalidOperation("Subtracting Percentage from number is ambiguous.")

  /** An integer or a decimal. */
  predicate IsNumber(v: DataValue) {
    v.Integer? || v.Decimal?
  }

  /** A number or a percentage: what multiplication and division accept. */
  predicate IsScalar(v: DataValue) {
    IsNumber(v) || v.Percentage?
  }

  /** The exact value of a number. */
  function Num(v: DataValue): real
    requires IsNumber(v)
  {
    if v.Integer? then v.integer as real else v.decimal
  }

  /** The factor a scalar stands for: a percentage counts as its ratio (`ToRatio`). */
  function Factor(v: DataValue): real
    requires IsScalar(v)
  {
    if v.Percentage? then ToRatio(v.percent) else Num(v)
  }

  /** `ToRatio`: fifty percent is one half. */
  function ToRatio(p: real): (r: real)
    ensures r * 100.0 == p
  {
    p / 100.0
  }

  /** The error an addition or subtraction that is not between two numbers throws. */
  function AdditiveError(l: DataValue, r: DataValue, ambiguous: Error): Error {
    if !IsScalar(l) then Unsupported(l)
    else if l.Percentage? || r.Percentage? then ambiguous
    else Unsupported(r)
  }

  /** The error a multiplication or division that is not between two scalars throws. */
  function ScalarError(l: DataValue, r: DataValue): Error
    requires !(IsScalar(l) && IsScalar(r))
  {
    if !IsScalar(l) then Unsupported(l) else Unsupported(r)
  }

  /** Both operands are integers and the exact result `x` does not fit in 32 bits. */
  predicate IntOverflow(l: DataValue, r: DataValue, x: int) {
    l.Integer? && r.Integer? && !InInt32(x)
  }

  /** `left + right`. */
  function Add(l: DataValue, r: DataValue): (s: Result<DataValue>)
    ensures IsNumber(l) && IsNumber(r) ==>
      if l.Integer? && r.Integer? && !InInt32(l.integer as int + r.integer as int) then s == Err(Overflow)
      else (s.Ok? && IsNumber(s.value) && Num(s.value) == Num(l) + Num(r)
        && (s.value.Integer? <==> l.Integer? && r.Integer?))
    ensures !(IsNumber(l) && IsNumber(r)) ==> s == Err(AdditiveError(l, r, AmbiguousAdd))
  {
    match l
    case Integer(i) =>
      (match r
       case Integer(j) =>
         var x := i as int + j as int;
         if InInt32(x) then Ok(Integer(x as int32)) else Err(Overflow)
       case Decimal(d) => Ok(Decimal(i as real + d))
       case Percentage(_) => Err(AmbiguousAdd)
       case _ => Err(Unsupported(r)))
    case Decimal(d) =>
      (match r
       case Integer(j) => Ok(Decimal(d + j as real))
       case Decimal(e) => Ok(Decimal(d + e))
       case Percentage(_) => Err(AmbiguousAdd)
       case _ => Err(Unsupported(r)))
    case Percentage(_) => Err(AmbiguousAdd)
    case _ => Err(Unsupported(l))
  }

  /** `left - right`. */
  function Sub(l: DataValue, r: DataValue): (s: Result<DataValue>)
    ensures IsNumber(l) && IsNumber(r) ==>
      if l.Integer? && r.Integer? && !InInt32(l.integer as int - r.integer as int) then s == Err(Overflow)
      else (s.Ok? && IsNumber(s.value) && Num(s.value) == Num(l) - Num(r)
        && (s.value.Integer? <==> l.Integer? && r.Integer?))
    ensures !(IsNumber(l) && IsNumber(r)) ==> s == Err(AdditiveError(l, r, AmbiguousSub))
  {
    match l
    case Integer(i) =>
      (match r
       case Integer(j) =>
         var x := i as int - j as int;
         if InInt32(x) then Ok(Integer(x as int32)) else Err(Overflow)
       case Decimal(d) => Ok(Decimal(i as real - d))
       case Percentage(_) => Err(AmbiguousSub)
       case _ => Err(Unsupported(r)))
    case Decimal(d) =>
      (match r
       case Integer(j) => Ok(Decimal(d - j as real))
       case Decimal(e) => Ok(Decimal(d - e))
       case Percentage(_) => Err(AmbiguousSub)
       case _ => Err(Unsupported(r)))
    case Percentage(_) => Err(AmbiguousSub)
    case _ => Err(Unsupported(l))
  }

  /** `left * right`: an integer only when both operands are integers, otherwise a decimal. */
  function Mul(l: DataValue, r: DataValue): (s: Result<DataValue>)
    ensures IsScalar(l) && IsScalar(r) ==>
      if l.Integer? && r.Integer? && !InInt32(l.integer as int * r.integer as int) then s == Err(Overflow)
      else (s.Ok? && IsNumber(s.value) && Num(s.value) == Factor(l) * Factor(r)
        && (s.value.Integer? <==> l.Integer? && r.Integer?))
    ensures !(IsScalar(l) && IsScalar(r)) ==> s == Err(ScalarError(l, r))
  {
    match l
    case Integer(i) =>
      (match r
       case Integer(j) =>
         var x := i as int * j as int;
         if InInt32(x) then Ok(Integer(x as int32)) else Err(Overflow)
       case Decimal(d) => Ok(Decimal(i as real * d))
       case Percentage(q) => Ok(Decimal(i as real * ToRatio(q)))
       case _ => Err(Unsupported(r)))
    case Decimal(d) =>
      (match r
       case Integer(j) => Ok(Decimal(d * j as real))
       case Decimal(e) => Ok(Decimal(d * e))
       case Percentage(q) => Ok(Decimal(d * ToRatio(q)))
       case _ => Err(Unsupported(r)))
    case Percentage(p) =>
      (match r
       case Integer(j) => Ok(Decimal(ToRatio(p) * j as real))
       case Decimal(e) => Ok(Decimal(ToRatio(p) * e))
       case Percentage(q) => Ok(Decimal(ToRatio(p) * ToRatio(q)))
       case _ => Err(Unsupported(r)))
    case _ => Err(Unsupported(l))
  }

  /** `left / right`: always a decimal, and a zero divisor throws. */
  function Div(l: DataValue, r: DataValue): (s: Result<DataValue>)
    ensures IsScalar(l) && IsScalar(r) ==>
      if Factor(r) == 0.0 then s == Err(DivideByZero)
      else s == Ok(Decimal(Factor(l) / Factor(r)))
    ensures !(IsScalar(l) && IsScalar(r)) ==> s == Err(ScalarError(l, r))
  {
    match l
    case Integer(i) =>
      (match r
       case Integer(j) => Quotient(i as real, j as real)
       case Decimal(e) => Quotient(i as real, e)
       case Percentage(q) => Quotient(i as real, ToRatio(q))
       case _ => Err(Unsupported(r)))
    case Decimal(d) =>
      (match r
       case Integer(j) => Quotient(d, j as real)
       case Decimal(e) => Quotient(d, e)
       case Percentage(q) => Quotient(d, ToRatio(q))
       case _ => Err(Unsupported(r)))
    case Percentage(p) =>
      (match r
       case Integer(j) => Quotient(ToRatio(p), j as real)
       case Decimal(e) => Quotient(ToRatio(p), e)
       case Percentage(q) => Quotient(ToRatio(p), ToRatio(q))
       case _ => Err(Unsupported(r)))
    case _ => Err(Unsupported(l))
  }

  /** Decimal division, which throws on a zero divisor. */
  function Quotient(x: real, y: real): (s: Result<DataValue>)
    ensures y == 0.0 ==> s == Err(DivideByZero)
    ensures y != 0.0 ==> s.Ok? && s.value.Decimal? && s.value.decimal * y == x
  {
    if y == 0.0 then Err(DivideByZero) else Ok(Decimal(x / y))
  }

  /** The name a unary operator's message gives each alternative. */
  function UnaryName(v: DataValue): string {
    match v
    case Text(_) => "string"
    case Integer(_) => "int"
    case Decimal(_) => "decimal"
    case Boolean(_) => "bool"
    case DateTime(_) => "DateTime"
    case Percentage(_) => "Percentage"
    case Func(_) => "Function"
  }

  /** Unary `+`: numbers are returned unchanged. */
  function Plus(v: DataValue): (s: Result<DataValue>)
    ensures IsNumber(v) ==> s == Ok(v)
    ensures !IsNumber(v) ==> s == Err(InvalidOperation("Unary + not supported for " + UnaryName(v) + "."))
  {
    match v
    case Integer(i) => Ok(Integer(i))
    case Decimal(d) => Ok(Decimal(d))
    case _ => Err(InvalidOperation("Unary + not supported for " + UnaryName(v) + "."))
  }

  /** Unary `-`: integer negation is unchecked, so the smallest integer is its own negation. */
  function Negate(v: DataValue): (s: Result<DataValue>)
    ensures v.Integer? && v.integer as int != INT32_MIN ==> s == Ok(Integer(-v.integer))
    ensures v.Integer? && v.integer as int == INT32_MIN ==> s == Ok(v)
    ensures v.Decimal? ==> s == Ok(Decimal(-v.decimal))
    ensures !IsNumber(v) ==> s == Err(InvalidOperation("Unary - not supported for " + UnaryName(v) + "."))
  {
    match v
    case Integer(i) => Ok(Integer(Wrap32(-(i as int))))
    case Decimal(d) => Ok(Decimal(-d))
    case _ => Err(InvalidOperation("Unary - not supported for " + UnaryName(v) + "."))
  }

  /** Negating twice gives the value back, the wrapped smallest integer included. */
  lemma NegateTwice(v: DataValue)
    requires IsNumber(v)
    ensures Negate(v).Ok? && Negate(Negate(v).value) == Ok(v)
  {
  }

  /** Adding numbers does not depend on the order of the operands. */
  lemma AddCommutes(a: DataValue, b: DataValue)
    requires IsNumber(a) && IsNumber(b)
    ensures Add(a, b) == Add(b, a)
  {
  }

  /** Multiplying scalars does not depend on the order of the operands. */
  lemma MulCommutes(a: DataValue, b: DataValue)
    requires IsScalar(a) && IsScalar(b)
    ensures Mul(a, b) == Mul(b, a)
  {
  }

  /** Subtracting what was added gives back the original amount. */
  lemma SubUndoesAdd(a: DataValue, b: DataValue)
    requires IsNumber(a) && IsNumber(b) && Add(a, b).Ok?
    ensures Sub(Add(a, b).value, b).Ok? && Num(Sub(Add(a, b).value, b).value) == Num(a)
  {
  }

  /** Dividing by a non-zero scalar undoes multiplying by it. */
  lemma DivUndoesMul(a: DataValue, b: DataValue)
    requires IsScalar(a) && IsScalar(b) && Factor(b) != 0.0 && Mul(a, b).Ok?
    ensures Div(Mul(a, b).value, b) == Ok(Decimal(Factor(a)))
  {
    var p := Mul(a, b).value;
    var x, y := Factor(a), Factor(b);
    assert IsNumber(p) && Factor(p) == x * y;
    assert Div(p, b) == Ok(Decimal(Factor(p) / y));
    MulDivCancel(x, y);
  }

  lemma MulDivCancel(x: real, y: real)
    requires y != 0.0
    ensures (x * y) / y == x
  {
  }

  /** Percentages scale: one hundred times fifty percent is fifty, and a percentage cannot be added to a number. */
  lemma PercentageExamples()
    ensures Mul(Decimal(100.0), Percentage(50.0)) == Ok(Decimal(50.0))
    ensures Add(Percentage(50.0), Integer(5)) == Err(AmbiguousAdd)
    ensures Div(Integer(1), Integer(4)) == Ok(Decimal(0.25))
  {
  }
}
