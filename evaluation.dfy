/**
 * Formula evaluation (`GetValue` and everything it calls), as functions of
 * the table's cells. A cell whose text starts with `=` is evaluated on every
 * read: either one of the range functions SUM, AVG and COUNT, or an
 * arithmetic expression converted to postfix order and run on a stack.
 *
 * The source has no guard against a formula that reads itself: the nested
 * reads recurse until the process stack overflows, which no `catch` can
 * handle. The model bounds the nesting depth of `GetValue` by `fuel`, and
 * running out of it is the outcome `Exhausted`.
 */
module Evaluation {
  import opened Wrappers
  import opened Text
  import opened Numbers
  import opened Errors
  import opened Coordinates
  import opened Values
  import Maths
  import Functions
  import opened TokenClasses
  import opened Lexer
  import opened ShuntingYard
  import opened Ranges

  /** What an evaluation step comes to: a value, a thrown exception, or a stack overflow. */
  datatype Eval<+T> = Done(value: T) | Raised(error: Error) | Exhausted

  /** The table's cells; a coordinate with no entry holds the empty text. */
  type Cells = map<Coordinate, DataValue>

  /** `GetCell`. */
  function CellAt(cells: Cells, c: Coordinate): DataValue {
    if c in cells then cells[c] else DataValue.Text("")
  }

  /** A cell holding a formula: a text that starts with `=`. */
  predicate IsFormula(v: DataValue) {
    v.Text? && StartsWith(v.text, "=")
  }

  /** The text that the catch-all of `EvaluateFormula` makes of an exception. */
  function ErrorText(e: Error): string {
    "#ERROR: " + Message(e)
  }

  /** The catch-all: an exception becomes its error text; a stack overflow is not caught. */
  function Caught(r: Eval<DataValue>): Eval<DataValue> {
    match r
    case Raised(e) => Done(DataValue.Text(ErrorText(e)))
    case _ => r
  }

  function FromResult(r: Result<DataValue>): Eval<DataValue> {
    match r
    case Ok(v) => Done(v)
    case Err(e) => Raised(e)
  }

  /** Pushes an evaluated value on the stack, or passes the failure on. */
  function Push(stack: seq<DataValue>, r: Eval<DataValue>): Eval<seq<DataValue>> {
    match r
    case Done(v) => Done(stack + [v])
    case Raised(e) => Raised(e)
    case Exhausted => Exhausted
  }

  /** `IsFunction`: both parentheses occur and the text starts with a known upper-case call. */
  predicate IsFunction(expression: string) {
    '(' in expression && ')' in expression &&
    (StartsWith(expression, "SUM(") || StartsWith(expression, "AVG(") || StartsWith(expression, "COUNT("))
  }

  /**
   * Every text `IsFunction` accepts names SUM, AVG or COUNT before its first
   * '(' and is accepted by the `Function` constructor; a text starting with
   * any other name, or in lower case, is evaluated as arithmetic.
   */
  lemma FunctionCallAccepted(expression: string)
    ensures IsFunction(expression) ==> Functions.Validate(expression) == None
    ensures IsFunction(expression) ==> Functions.HeadName(Trim(expression)) in {"SUM", "AVG", "COUNT"}
    ensures IsFunction(expression) <==>
      '(' in expression && ')' in expression && StartsWith(expression, Functions.HeadName(Trim(expression)) + "(")
      && Functions.HeadName(Trim(expression)) in {"SUM", "AVG", "COUNT"}
  {
    var h := Functions.HeadName(Trim(expression));
    assert "SUM" + "(" == "SUM(" && "AVG" + "(" == "AVG(" && "COUNT" + "(" == "COUNT(";
    if StartsWith(expression, "SUM(") {
      KnownCall(expression, "SUM");
      KnownName(expression, "SUM");
    } else if StartsWith(expression, "AVG(") {
      KnownCall(expression, "AVG");
      KnownName(expression, "AVG");
    } else if StartsWith(expression, "COUNT(") {
      KnownCall(expression, "COUNT");
      KnownName(expression, "COUNT");
    }
  }

  /** Validation accepts a text whose trimmed form starts with, and is headed by, a known call. */
  lemma KnownName(expression: string, name: string)
    requires name in {"SUM", "AVG", "COUNT"}
    requires !IsBlank(expression) && Trim(expression)[0] == name[0]
    requires Functions.HeadName(Trim(expression)) == name
    ensures Functions.Validate(expression) == None
  {
    assert name[0] != '=';
    assert name in Functions.ValidNames;
  }

  /** A text that starts with an upper-case name and '(' trims to a text with that head name. */
  lemma KnownCall(expression: string, name: string)
    requires 0 < |name| && forall i :: 0 <= i < |name| ==> IsAsciiUpper(name[i])
    requires StartsWith(expression, name + "(")
    ensures !IsBlank(expression) && Trim(expression)[0] == name[0]
    ensures Functions.HeadName(Trim(expression)) == name
  {
    var n := |name|;
    var p := name + "(";
    assert expression[..n + 1] == p;
    assert expression[0] == p[0] == name[0];
    assert expression[n] == p[n] == '(';
    assert !IsWhiteSpace(expression[0]) && !IsWhiteSpace(expression[n]);
    var a, e := TrimSlice(expression);
    assert a == 0 && n < e;
    var t := Trim(expression);
    assert t[..n] == expression[..n] == p[..n] == name;
    assert '(' !in t[..n];
    IndexOfAt(t, '(', n);
    assert Upper(name) == name;
  }

  /** `left op right` for one of the four operators. */
  function Apply(op: string, left: DataValue, right: DataValue): Result<DataValue> {
    if op == "+" then Maths.Add(left, right)
    else if op == "-" then Maths.Sub(left, right)
    else if op == "*" then Maths.Mul(left, right)
    else if op == "/" then Maths.Div(left, right)
    else Err(UnknownOperator(op))
  }

  /**
   * The value of a number or percentage token: a percentage first, then an
   * `int`, then a `decimal`. Every number token has a value, equal to the
   * number it writes, and it is an integer exactly when it fits in 32 bits.
   */
  function Literal(token: string): (r: Result<DataValue>)
    ensures IsNumber(token) || IsPercentage(token) ==> r.Ok?
    ensures IsPercentage(token) ==>
      r.Ok? && r.value.Percentage? && Some(r.value.percent) == ParseDecimal(token[..|token| - 1])
    ensures IsNumber(token) && !IsPercentage(token) ==>
      r.Ok? && Maths.IsNumber(r.value) && Some(Maths.Num(r.value)) == ParseDecimal(token)
    ensures (r.Ok? && r.value.Integer?) <==> !IsPercentage(token) && ParseInt32(token).Some?
  {
    NumberSyntax(token);
    if IsPercentage(token) then Ok(DataValue.Percentage(PercentageValue(token).value))
    else
      match ParseInt32(token)
      case Some(i) =>
        ParseDecimalInteger(token);
        Ok(Integer(i))
      case None =>
        match ParseDecimal(token)
        case Some(d) => Ok(Decimal(d))
        case None => Err(InvalidNumberToken(token))
  }

  /** `GetValue`: one level of nesting deeper; a cell never throws, every exception is caught below. */
  function CellValue(cells: Cells, fuel: nat, c: Coordinate): (r: Eval<DataValue>)
    ensures !r.Raised?
    decreases fuel, 0, 0
  {
    if fuel == 0 then Exhausted else Recalculated(cells, fuel - 1, c)
  }

  /** `Recalculate`: a formula is evaluated, any other value is returned as it is. */
  function Recalculated(cells: Cells, fuel: nat, c: Coordinate): (r: Eval<DataValue>)
    ensures !r.Raised?
    ensures !IsFormula(CellAt(cells, c)) ==> r == Done(CellAt(cells, c))
    decreases fuel, 6, 0
  {
    var v := CellAt(cells, c);
    if IsFormula(v) then FormulaValue(cells, fuel, v.text) else Done(v)
  }

  /** `EvaluateFormula`: a range function or an arithmetic expression, under the catch-all. */
  function FormulaValue(cells: Cells, fuel: nat, formula: string): (r: Eval<DataValue>)
    requires StartsWith(formula, "=")
    ensures !r.Raised?
    decreases fuel, 5, 0
  {
    var expression := formula[1..];
    Caught(
      if IsFunction(expression) then FunctionValue(cells, fuel, expression)
      else RPNValue(cells, fuel, ToRPN(Lex(expression))))
  }

  /** `EvaluateFunction`: the name before the first `(`, the arguments up to the last `)`. */
  function FunctionValue(cells: Cells, fuel: nat, expression: string): (r: Eval<DataValue>)
    decreases fuel, 4, 0
  {
    var open, close := IndexOf(expression, '('), LastIndexOf(expression, ')');
    if open == -1 || close == -1 || close <= open then Raised(InvalidFunctionSyntax(expression))
    else
      Dispatch(cells, fuel, Upper(expression[..open]), expression[open + 1..close])
  }

  /** The `switch` of `EvaluateFunction` on the upper-cased name. */
  function Dispatch(cells: Cells, fuel: nat, name: string, arguments: string): (r: Eval<DataValue>)
    decreases fuel, 3, 0
  {
    if name == "SUM" then SumValue(cells, fuel, arguments)
    else if name == "AVG" then AvgValue(cells, fuel, arguments)
    else if name == "COUNT" then CountValue(cells, fuel, arguments)
    else Raised(UnknownFunction(name))
  }

  /** `EvaluateSumFunction`: integers and decimals are added up from 0, everything else is skipped. */
  function SumValue(cells: Cells, fuel: nat, arguments: string): (r: Eval<DataValue>)
    decreases fuel, 2, 0
  {
    match RangeCells(arguments)
    case Err(e) => Raised(e)
    case Ok(cs) => SumFrom(cells, fuel, cs, Integer(0))
  }

  function SumFrom(cells: Cells, fuel: nat, cs: seq<Coordinate>, sum: DataValue): (r: Eval<DataValue>)
    requires Maths.IsNumber(sum)
    decreases fuel, 1, |cs|
  {
    if cs == [] then Done(sum)
    else
      match CellValue(cells, fuel, cs[0])
      case Done(v) =>
        if Maths.IsNumber(v) then
          match Maths.Add(sum, v)
          case Ok(s) => SumFrom(cells, fuel, cs[1..], s)
          case Err(e) => Raised(e)
        else SumFrom(cells, fuel, cs[1..], sum)
      case Raised(e) => Raised(e)
      case Exhausted => Exhausted
  }

  /**
   * `EvaluateAvgFunction`: the sum of the integers and decimals divided by
   * their number, or the integer 0 when there are none.
   */
  function AvgValue(cells: Cells, fuel: nat, arguments: string): (r: Eval<DataValue>)
    decreases fuel, 2, 0
  {
    match RangeCells(arguments)
    case Err(e) => Raised(e)
    case Ok(cs) =>
      match AvgFrom(cells, fuel, cs, Integer(0), 0)
      case Done((sum, count)) =>
        if count == 0 then Done(Integer(0)) else FromResult(Maths.Div(sum, Integer(count as int32)))
      case Raised(e) => Raised(e)
      case Exhausted => Exhausted
  }

  /** The loop of `EvaluateAvgFunction`: the running sum and count; the count never exceeds the cells. */
  function AvgFrom(cells: Cells, fuel: nat, cs: seq<Coordinate>, sum: DataValue, count: nat)
    : (r: Eval<(DataValue, nat)>)
    requires Maths.IsNumber(sum)
    ensures r.Done? ==> r.value.1 <= count + |cs|
    decreases fuel, 1, |cs|
  {
    if cs == [] then Done((sum, count))
    else
      match CellValue(cells, fuel, cs[0])
      case Done(v) =>
        if Maths.IsNumber(v) then
          match Maths.Add(sum, v)
          case Ok(s) => AvgFrom(cells, fuel, cs[1..], s, count + 1)
          case Err(e) => Raised(e)
        else AvgFrom(cells, fuel, cs[1..], sum, count)
      case Raised(e) => Raised(e)
      case Exhausted => Exhausted
  }

  /** `EvaluateCountFunction`: the number of cells whose value is not the empty text. */
  function CountValue(cells: Cells, fuel: nat, arguments: string): (r: Eval<DataValue>)
    decreases fuel, 2, 0
  {
    match RangeCells(arguments)
    case Err(e) => Raised(e)
    case Ok(cs) =>
      match CountFrom(cells, fuel, cs, 0)
      case Done(count) => Done(Integer(count as int32))
      case Raised(e) => Raised(e)
      case Exhausted => Exhausted
  }

  /** A value that COUNT counts: anything but the empty text. */
  predicate Filled(v: DataValue) {
    !(v.Text? && v.text == "")
  }

  /** The loop of `EvaluateCountFunction`; the count never exceeds the cells. */
  function CountFrom(cells: Cells, fuel: nat, cs: seq<Coordinate>, count: nat): (r: Eval<nat>)
    ensures r.Done? ==> r.value <= count + |cs|
    decreases fuel, 1, |cs|
  {
    if cs == [] then Done(count)
    else
      match CellValue(cells, fuel, cs[0])
      case Done(v) => CountFrom(cells, fuel, cs[1..], if Filled(v) then count + 1 else count)
      case Raised(e) => Raised(e)
      case Exhausted => Exhausted
  }

  /** `EvaluateRPN`: the stack must hold exactly one value at the end. */
  function RPNValue(cells: Cells, fuel: nat, tokens: seq<string>): (r: Eval<DataValue>)
    decreases fuel, 4, 0
  {
    match RPNFrom(cells, fuel, tokens, [])
    case Done(stack) => if |stack| != 1 then Raised(InvalidExpression) else Done(stack[0])
    case Raised(e) => Raised(e)
    case Exhausted => Exhausted
  }

  /** The token loop of `EvaluateRPN`, from `stack` (top last). */
  function RPNFrom(cells: Cells, fuel: nat, tokens: seq<string>, stack: seq<DataValue>)
    : (r: Eval<seq<DataValue>>)
    decreases fuel, 3, |tokens|
  {
    if tokens == [] then Done(stack)
    else
      match RPNStep(cells, fuel, tokens[0], stack)
      case Done(next) => RPNFrom(cells, fuel, tokens[1..], next)
      case Raised(e) => Raised(e)
      case Exhausted => Exhausted
  }

  /**
   * One token: an operand is pushed; an operator pops the right operand,
   * then the left one, and pushes the result; any other token is skipped.
   */
  function RPNStep(cells: Cells, fuel: nat, token: string, stack: seq<DataValue>)
    : (r: Eval<seq<DataValue>>)
    decreases fuel, 2, 0
  {
    if IsOperand(token) then Push(stack, OperandValue(cells, fuel, token))
    else if IsOperator(token) then
      if |stack| < 2 then Raised(InsufficientOperands(token))
      else
        var left, right := stack[|stack| - 2], stack[|stack| - 1];
        Push(stack[..|stack| - 2], FromResult(Apply(token, left, right)))
    else Done(stack)
  }

  /** The value of an operand token: a referenced cell's value, or a literal. */
  function OperandValue(cells: Cells, fuel: nat, token: string): (r: Eval<DataValue>)
    decreases fuel, 1, 0
  {
    if IsCellReference(token) then
      match Parse(token)
      case Err(e) => Raised(e)
      case Ok(c) => CellValue(cells, fuel, c)
    else FromResult(Literal(token))
  }
}
