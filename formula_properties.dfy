/**
 * What formula evaluation promises: a cell never throws, a self-reference
 * overflows the stack, an expression evaluates as its tree does, and the
 * range functions compute the sum, mean and count of the listed cells.
 */
module FormulaProperties {
  import opened Text
  import opened Numbers
  import opened Errors
  import opened Coordinates
  import opened Values
  import Maths
  import opened TokenClasses
  import opened Lexer
  import opened ShuntingYard
  import opened Ranges
  import opened Evaluation

  /*
   * Self-reference
   */

  /** A lone operand converts to itself. */
  lemma {:induction false} OperandToRPN(t: string)
    requires IsOperand(t)
    ensures ToRPN([t]) == [t]
  {
    RunOne(Shunt([], []), t);
    StepOperand(Shunt([], []), t);
  }

  /** The text of a coordinate is one word and one cell-reference token. */
  lemma {:induction false} CoordinateToken(c: Coordinate)
    requires Coordinates.Valid(c)
    ensures Lex(ToString(c)) == [ToString(c)]
    ensures IsCellReference(ToString(c)) && Parse(ToString(c)) == Ok(c)
    ensures !IsFunction(ToString(c))
  {
    var t := ToString(c);
    var digits := IntToString(c.row.value as int);
    assert t == [c.column.value] + digits;
    assert IsWord(t) by {
      forall i | 0 <= i < |t|
        ensures IsWordChar(t[i])
      {
        if i > 0 {
          assert t[i] == digits[i - 1];
        }
      }
    }
    LexWord(t);
    ParseToString(c);
    assert Unterminated(t)[0] == t[0];
    CoordinateTextIsReference(t);
    assert '(' !in t by {
      forall i | 0 <= i < |t|
        ensures t[i] != '('
      {
        assert IsWordChar(t[i]);
      }
    }
  }

  /**
   * A cell whose formula is its own coordinate never yields a value: every
   * read reads the cell again, whatever the depth allowed. The source
   * declares an exception for circular references but never raises it.
   */
  lemma {:induction false} SelfReference(cells: Cells, fuel: nat, c: Coordinate)
    requires Coordinates.Valid(c)
    requires CellAt(cells, c) == DataValue.Text("=" + ToString(c))
    ensures CellValue(cells, fuel, c) == Exhausted
  {
    if fuel > 0 {
      var t := ToString(c);
      CoordinateToken(c);
      OperandToRPN(t);
      assert ("=" + t)[1..] == t;
      SelfReference(cells, fuel - 1, c);
      assert OperandValue(cells, fuel - 1, t) == Exhausted;
      assert RPNFrom(cells, fuel - 1, [t], []) == Exhausted;
      assert FormulaValue(cells, fuel - 1, "=" + t) == Exhausted;
    }
  }

  /*
   * Expressions
   */

  /** Running the stack machine over two token lists is running it over the first, then the second. */
  lemma {:induction false} RPNAppend(cells: Cells, fuel: nat, a: seq<string>, b: seq<string>, stack: seq<DataValue>)
    ensures RPNFrom(cells, fuel, a + b, stack) ==
      match RPNFrom(cells, fuel, a, stack)
      case Done(next) => RPNFrom(cells, fuel, b, next)
      case Raised(e) => Raised(e)
      case Exhausted => Exhausted
    decreases |a|
  {
    if a == [] {
      assert a + b == b;
    } else {
      assert (a + b)[0] == a[0] && (a + b)[1..] == a[1..] + b;
      match RPNStep(cells, fuel, a[0], stack)
      case Done(next) => RPNAppend(cells, fuel, a[1..], b, next);
      case Raised(e) =>
      case Exhausted =>
    }
  }

  /**
   * The value of an expression tree: an operand is read as a token; an
   * operation evaluates its left operand, then its right one, then applies
   * the operator with the left operand on the left.
   */
  function TreeValue(cells: Cells, fuel: nat, e: Expr): Eval<DataValue> {
    match e
    case Atom(t) => OperandValue(cells, fuel, t)
    case Binary(op, l, r) =>
      match TreeValue(cells, fuel, l)
      case Done(x) =>
        (match TreeValue(cells, fuel, r)
         case Done(y) => FromResult(Apply(op, x, y))
         case Raised(err) => Raised(err)
         case Exhausted => Exhausted)
      case Raised(err) => Raised(err)
      case Exhausted => Exhausted
  }

  /** One token on its own is one step. */
  lemma {:induction false} RPNSingle(cells: Cells, fuel: nat, t: string, stack: seq<DataValue>)
    ensures RPNFrom(cells, fuel, [t], stack) == RPNStep(cells, fuel, t, stack)
  {
    assert [t][0] == t && [t][1..] == [];
    match RPNStep(cells, fuel, t, stack)
    case Done(next) =>
      assert RPNFrom(cells, fuel, [], next) == Done(next);
    case Raised(err) =>
    case Exhausted =>
  }

  /** An operator applies to the two values on top of the stack, the lower one on the left. */
  lemma {:induction false} RPNOperator(cells: Cells, fuel: nat, op: string, stack: seq<DataValue>, x: DataValue, y: DataValue)
    requires IsOperator(op)
    ensures RPNFrom(cells, fuel, [op], stack + [x] + [y]) == Push(stack, FromResult(Apply(op, x, y)))
  {
    var full := stack + [x] + [y];
    PunctuationIsNotOperand(op);
    RPNSingle(cells, fuel, op, full);
    assert full[|full| - 2] == x && full[|full| - 1] == y && full[..|full| - 2] == stack;
  }

  /** The postfix tokens of a tree push exactly the tree's value. */
  lemma {:induction false} RPNPostfix(cells: Cells, fuel: nat, e: Expr, stack: seq<DataValue>)
    requires ValidExpr(e)
    ensures RPNFrom(cells, fuel, Postfix(e), stack) == Push(stack, TreeValue(cells, fuel, e))
  {
    match e
    case Atom(t) =>
      RPNSingle(cells, fuel, t, stack);
    case Binary(op, l, r) =>
      assert Postfix(e) == Postfix(l) + (Postfix(r) + [op]);
      RPNAppend(cells, fuel, Postfix(l), Postfix(r) + [op], stack);
      RPNPostfix(cells, fuel, l, stack);
      match TreeValue(cells, fuel, l) {
        case Done(x) =>
          RPNAppend(cells, fuel, Postfix(r), [op], stack + [x]);
          RPNPostfix(cells, fuel, r, stack + [x]);
          match TreeValue(cells, fuel, r) {
            case Done(y) => RPNOperator(cells, fuel, op, stack, x, y);
            case Raised(err) =>
            case Exhausted =>
          }
        case Raised(err) =>
        case Exhausted =>
      }
  }

  /** The postfix tokens of a tree evaluate to the tree's value. */
  lemma {:induction false} RPNValueOfTree(cells: Cells, fuel: nat, e: Expr)
    requires ValidExpr(e)
    ensures RPNValue(cells, fuel, Postfix(e)) == TreeValue(cells, fuel, e)
  {
    RPNPostfix(cells, fuel, e, []);
    match TreeValue(cells, fuel, e)
    case Done(v) => assert [] + [v] == [v];
    case Raised(err) =>
    case Exhausted =>
  }

  /** Every operand of the tree is written as one word. */
  predicate WordAtoms(e: Expr) {
    match e
    case Atom(t) => IsWord(t)
    case Binary(_, l, r) => WordAtoms(l) && WordAtoms(r)
  }

  /** The infix tokens of a tree are what the tokenizer produces. */
  lemma {:induction false} InfixLexemes(e: Expr)
    requires ValidExpr(e) && WordAtoms(e)
    ensures forall k :: 0 <= k < |Infix(e)| ==> IsLexeme(Infix(e)[k])
  {
    match e
    case Atom(t) =>
    case Binary(op, l, r) =>
      InfixLexemes(l);
      InfixLexemes(r);
      var s, left, right := Infix(e), Infix(l), Infix(r);
      assert s == ["("] + left + [op] + right + [")"];
      forall k | 0 <= k < |s|
        ensures IsLexeme(s[k])
      {
        if k == 0 || k == |s| - 1 {
        } else if k <= |left| {
          assert s[k] == left[k - 1];
        } else if k == |left| + 1 {
          assert s[k] == op;
        } else {
          assert s[k] == right[k - |left| - 2];
        }
      }
  }

  /**
   * End to end: the formula `=` followed by the fully parenthesised tokens
   * of a tree, separated by spaces, evaluates to the tree's value, with an
   * exception turned into its error text.
   */
  lemma {:induction false} EvaluateInfix(cells: Cells, fuel: nat, e: Expr)
    requires ValidExpr(e) && WordAtoms(e)
    ensures FormulaValue(cells, fuel, "=" + Unwords(Infix(e))) == Caught(TreeValue(cells, fuel, e))
  {
    var expression := Unwords(Infix(e));
    assert ("=" + expression)[1..] == expression;
    InfixLexemes(e);
    LexUnwords(Infix(e));
    InfixToRPN(e);
    assert ToRPN(Lex(expression)) == Postfix(e);
    InfixNotFunction(e);
    RPNValueOfTree(cells, fuel, e);
  }

  /** The written-out tokens of a tree do not look like a range function. */
  lemma {:induction false} InfixNotFunction(e: Expr)
    requires WordAtoms(e)
    ensures !IsFunction(Unwords(Infix(e)))
  {
    var expression := Unwords(Infix(e));
    match e
    case Atom(t) =>
      assert [t][0] == t && [t][1..] == [];
      assert expression == t + " " + Unwords([]);
      forall i | 0 <= i < |expression|
        ensures expression[i] != '('
      {
        if i < |t| {
          assert IsWordChar(t[i]);
        }
      }
    case Binary(_, _, _) =>
      assert expression[0] == '(';
  }

  /** An operator with fewer than two values below it throws `InsufficientOperands`. */
  lemma {:induction false} OperatorFirst(cells: Cells, fuel: nat, op: string, rest: seq<string>)
    requires IsOperator(op)
    ensures RPNValue(cells, fuel, [op] + rest) == Raised(InsufficientOperands(op))
  {
    PunctuationIsNotOperand(op);
    var tokens := [op] + rest;
    assert tokens[0] == op;
    assert RPNStep(cells, fuel, op, []) == Raised(InsufficientOperands(op));
    assert RPNFrom(cells, fuel, tokens, []) == Raised(InsufficientOperands(op));
  }

  /** Two operands that are not combined leave two values: `InvalidExpression`. */
  lemma {:induction false} LeftoverOperand(cells: Cells, fuel: nat, a: string, b: string)
    requires IsOperand(a) && IsOperand(b)
    requires OperandValue(cells, fuel, a).Done? && OperandValue(cells, fuel, b).Done?
    ensures RPNValue(cells, fuel, [a, b]) == Raised(InvalidExpression)
  {
    var x, y := OperandValue(cells, fuel, a).value, OperandValue(cells, fuel, b).value;
    assert [a, b][0] == a && [a, b][1..] == [b];
    assert [] + [x] == [x] && [x] + [y] == [x, y];
    assert RPNStep(cells, fuel, a, []) == Done([x]);
    assert RPNStep(cells, fuel, b, [x]) == Done([x, y]);
    RPNSingle(cells, fuel, b, [x]);
    assert RPNFrom(cells, fuel, [a, b], []) == RPNFrom(cells, fuel, [b], [x]);
  }

  /*
   * Range functions
   */

  /** Where `EvaluateFunction` splits a call: the first `(` ends the name, the last `)` lies after it. */
  lemma {:induction false} CallParentheses(name: string, expression: string)
    requires name == "SUM" || name == "AVG" || name == "COUNT"
    requires StartsWith(expression, name + "(") && ')' in expression
    ensures IndexOf(expression, '(') == |name| < LastIndexOf(expression, ')')
    ensures Upper(expression[..|name|]) == name
    ensures IsFunction(expression)
  {
    var k := |name|;
    assert expression[..k] == name && expression[k] == '(';
    assert '(' !in expression[..k];
    IndexOfAt(expression, '(', k);
    var j :| 0 <= j < |expression| && expression[j] == ')';
    forall i | 0 <= i <= k
      ensures expression[i] != ')'
    {
      assert expression[i] == (name + "(")[i];
    }
    LastIndexOfAtLeast(expression, ')', j);
    assert Upper(name) == name;
  }

  /** `SUM(`, `AVG(` or `COUNT(` at the start, and a `)` somewhere, always reaches that function. */
  lemma FunctionDispatch(cells: Cells, fuel: nat, name: string, expression: string)
    requires name == "SUM" || name == "AVG" || name == "COUNT"
    requires StartsWith(expression, name + "(") && ')' in expression
    ensures IsFunction(expression)
    ensures var close := LastIndexOf(expression, ')');
      |name| < close &&
      FunctionValue(cells, fuel, expression) ==
        var arguments := expression[|name| + 1..close];
        if name == "SUM" then SumValue(cells, fuel, arguments)
        else if name == "AVG" then AvgValue(cells, fuel, arguments)
        else CountValue(cells, fuel, arguments)
  {
    CallParentheses(name, expression);
  }

  /** The values of the listed cells, in order; `Exhausted` when one of them overflows the stack. */
  function CellValues(cells: Cells, fuel: nat, cs: seq<Coordinate>): (r: Eval<seq<DataValue>>)
    ensures !r.Raised?
    ensures r.Done? ==> |r.value| == |cs|
  {
    if cs == [] then Done([])
    else
      match CellValue(cells, fuel, cs[0])
      case Done(v) =>
        (match CellValues(cells, fuel, cs[1..])
         case Done(vs) => Done([v] + vs)
         case _ => Exhausted)
      case _ => Exhausted
  }

  /** The total of the integers and decimals among `vs`. */
  function Total(vs: seq<DataValue>): real {
    if vs == [] then 0.0
    else (if Maths.IsNumber(vs[0]) then Maths.Num(vs[0]) else 0.0) + Total(vs[1..])
  }

  /** How many of `vs` are integers or decimals. */
  function NumberCount(vs: seq<DataValue>): (n: nat)
    ensures n <= |vs|
  {
    if vs == [] then 0 else (if Maths.IsNumber(vs[0]) then 1 else 0) + NumberCount(vs[1..])
  }

  /** How many of `vs` are not the empty text. */
  function FilledCount(vs: seq<DataValue>): (n: nat)
    ensures n <= |vs|
  {
    if vs == [] then 0 else (if Filled(vs[0]) then 1 else 0) + FilledCount(vs[1..])
  }

  predicate NoDecimal(vs: seq<DataValue>) {
    vs == [] || (!vs[0].Decimal? && NoDecimal(vs[1..]))
  }

  /**
   * The loop of SUM adds the numbers among the cell values to the running
   * sum; the result stays an integer exactly while no decimal is added; only
   * 32-bit overflow can throw, and not once the sum is a decimal.
   */
  lemma {:induction false} SumFromTotal(cells: Cells, fuel: nat, cs: seq<Coordinate>, sum: DataValue)
    requires Maths.IsNumber(sum)
    ensures var r, vs := SumFrom(cells, fuel, cs, sum), CellValues(cells, fuel, cs);
      (r.Done? ==>
        vs.Done? && Maths.IsNumber(r.value) &&
        Maths.Num(r.value) == Maths.Num(sum) + Total(vs.value) &&
        (r.value.Integer? <==> sum.Integer? && NoDecimal(vs.value))) &&
      (r.Raised? ==> r.error == Overflow) &&
      (vs.Done? ==> !r.Exhausted?) &&
      (vs.Done? && sum.Decimal? ==> r.Done?)
    decreases |cs|
  {
    if cs != [] {
      match CellValue(cells, fuel, cs[0])
      case Done(v) =>
        var rest := CellValues(cells, fuel, cs[1..]);
        if Maths.IsNumber(v) {
          match Maths.Add(sum, v)
          case Ok(s) => SumFromTotal(cells, fuel, cs[1..], s);
          case Err(e) =>
        } else {
          SumFromTotal(cells, fuel, cs[1..], sum);
        }
        if rest.Done? {
          var vs := [v] + rest.value;
          assert vs[0] == v && vs[1..] == rest.value;
        }
      case Raised(e) =>
      case Exhausted =>
    }
  }

  /**
   * SUM over a range: the total of the integers and decimals among the
   * cells' values (texts, error texts and the rest are skipped), an integer
   * exactly when none of them is a decimal; a bad range throws its error.
   */
  lemma {:induction false} SumOfRange(cells: Cells, fuel: nat, arguments: string)
    ensures var r, cs := SumValue(cells, fuel, arguments), RangeCells(arguments);
      (cs.Err? ==> r == Raised(cs.error)) &&
      (cs.Ok? ==>
        var vs := CellValues(cells, fuel, cs.value);
        (r.Done? ==>
          vs.Done? && Maths.IsNumber(r.value) && Maths.Num(r.value) == Total(vs.value) &&
          (r.value.Integer? <==> NoDecimal(vs.value))) &&
        (r.Raised? ==> r.error == Overflow) &&
        (vs.Done? ==> !r.Exhausted?))
  {
    var range := RangeCells(arguments);
    if range.Ok? {
      SumFromTotal(cells, fuel, range.value, Integer(0));
      assert SumValue(cells, fuel, arguments) == SumFrom(cells, fuel, range.value, Integer(0));
    }
  }

  /** The loop of AVG is the loop of SUM that also counts the numbers it adds. */
  lemma {:induction false} AvgFromSum(cells: Cells, fuel: nat, cs: seq<Coordinate>, sum: DataValue, count: nat)
    requires Maths.IsNumber(sum)
    ensures var r, s, vs := AvgFrom(cells, fuel, cs, sum, count), SumFrom(cells, fuel, cs, sum), CellValues(cells, fuel, cs);
      (s.Done? ==> vs.Done? && r == Done((s.value, count + NumberCount(vs.value)))) &&
      (s.Raised? ==> r == Raised(s.error)) &&
      (s.Exhausted? ==> r == Exhausted)
    decreases |cs|
  {
    if cs != [] {
      match CellValue(cells, fuel, cs[0])
      case Done(v) =>
        var rest := CellValues(cells, fuel, cs[1..]);
        if Maths.IsNumber(v) {
          match Maths.Add(sum, v)
          case Ok(s) => AvgFromSum(cells, fuel, cs[1..], s, count + 1);
          case Err(e) =>
        } else {
          AvgFromSum(cells, fuel, cs[1..], sum, count);
        }
        if rest.Done? {
          var vs := [v] + rest.value;
          assert vs[0] == v && vs[1..] == rest.value;
        }
      case Raised(e) =>
      case Exhausted =>
    }
  }

  /**
   * AVG over a range: the integer 0 when no cell holds a number, otherwise
   * the decimal mean of the integers and decimals among the cells' values.
   */
  lemma {:induction false} AvgOfRange(cells: Cells, fuel: nat, arguments: string)
    ensures var r, cs := AvgValue(cells, fuel, arguments), RangeCells(arguments);
      (cs.Err? ==> r == Raised(cs.error)) &&
      (cs.Ok? ==>
        var vs := CellValues(cells, fuel, cs.value);
        (r.Done? ==>
          vs.Done? &&
          (NumberCount(vs.value) == 0 ==> r.value == Integer(0)) &&
          (NumberCount(vs.value) > 0 ==> r.value == Decimal(Total(vs.value) / NumberCount(vs.value) as real))) &&
        (r.Raised? ==> r.error == Overflow) &&
        (vs.Done? ==> !r.Exhausted?))
  {
    var range := RangeCells(arguments);
    if range.Ok? {
      var cs := range.value;
      SumFromTotal(cells, fuel, cs, Integer(0));
      AvgFromSum(cells, fuel, cs, Integer(0), 0);
      assert AvgValue(cells, fuel, arguments) ==
        match AvgFrom(cells, fuel, cs, Integer(0), 0)
        case Done((sum, count)) =>
          if count == 0 then Done(Integer(0)) else FromResult(Maths.Div(sum, Integer(count as int32)))
        case Raised(e) => Raised(e)
        case Exhausted => Exhausted;
      match AvgFrom(cells, fuel, cs, Integer(0), 0)
      case Done((sum, count)) =>
        var vs := CellValues(cells, fuel, cs).value;
        assert Maths.IsNumber(sum) && Maths.Num(sum) == Total(vs) && count == NumberCount(vs);
        if count > 0 {
          Mean(sum, count);
        }
      case Raised(e) =>
      case Exhausted =>
    }
  }

  /** Dividing a number by a positive count gives the decimal quotient. */
  lemma Mean(sum: DataValue, count: nat)
    requires Maths.IsNumber(sum) && 0 < count <= INT32_MAX
    ensures Maths.Div(sum, Integer(count as int32)) == Ok(Decimal(Maths.Num(sum) / count as real))
  {
    assert Maths.Factor(Integer(count as int32)) == count as real;
  }

  /** The loop of COUNT adds the number of filled values to the running count. */
  lemma {:induction false} CountFromFilled(cells: Cells, fuel: nat, cs: seq<Coordinate>, count: nat)
    ensures var r, vs := CountFrom(cells, fuel, cs, count), CellValues(cells, fuel, cs);
      (vs.Done? ==> r == Done(count + FilledCount(vs.value))) &&
      (vs.Exhausted? ==> r == Exhausted)
    decreases |cs|
  {
    if cs != [] {
      match CellValue(cells, fuel, cs[0])
      case Done(v) =>
        var rest := CellValues(cells, fuel, cs[1..]);
        CountFromFilled(cells, fuel, cs[1..], if Filled(v) then count + 1 else count);
        if rest.Done? {
          var vs := [v] + rest.value;
          assert vs[0] == v && vs[1..] == rest.value;
        }
      case Raised(e) =>
      case Exhausted =>
    }
  }

  /** COUNT over a range: the integer number of cells whose value is not the empty text. */
  lemma {:induction false} CountOfRange(cells: Cells, fuel: nat, arguments: string)
    ensures var r, cs := CountValue(cells, fuel, arguments), RangeCells(arguments);
      (cs.Err? ==> r == Raised(cs.error)) &&
      (cs.Ok? ==>
        var vs := CellValues(cells, fuel, cs.value);
        (vs.Done? ==> r == Done(Integer(FilledCount(vs.value) as int32))) &&
        (vs.Exhausted? ==> r == Exhausted))
  {
    var range := RangeCells(arguments);
    if range.Ok? {
      var cs := range.value;
      CountFromFilled(cells, fuel, cs, 0);
      assert CountValue(cells, fuel, arguments) ==
        match CountFrom(cells, fuel, cs, 0)
        case Done(count) => Done(Integer(count as int32))
        case Raised(e) => Raised(e)
        case Exhausted => Exhausted;
    }
  }
}
