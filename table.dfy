/**
 * `TableEntity`: a named table of cells. Storing and reading a cell are map
 * updates and lookups; reading a value runs the formula evaluator. Each
 * evaluation method follows the statements and loops of the source and is
 * proved to compute the function of the same step in `Evaluation`.
 */
module Tables {
  import opened Wrappers
  import opened Text
  import opened Numbers
  import opened Errors
  import opened Coordinates
  import opened Values
  import Maths
  import opened TokenClasses
  import opened ShuntingYard
  import opened Ranges
  import opened Evaluation

  /** `TableId`: the table's identity, a GUID in the source, here its 128-bit value. */
  datatype TableId = TableId(guid: nat)

  /** A name as `SetName` stores it: trimmed, and not blank. */
  predicate ValidName(name: string) {
    name != [] && Trim(name) == name
  }

  /** The check of `SetName`: the trimmed name, or `InvalidTableName` carrying the name as given. */
  function CheckName(name: string): (r: Result<string>)
    ensures r.Ok? <==> !IsBlank(name)
    ensures r.Ok? ==> ValidName(r.value) && r.value == Trim(name)
    ensures r.Err? ==> r.error == InvalidTableName(name)
  {
    var trimmed := Trim(name);
    if IsBlank(trimmed) then Err(InvalidTableName(name))
    else
      TrimUnchanged(trimmed);
      Ok(trimmed)
  }

  /** A valid name is accepted as it is: checking is idempotent. */
  lemma CheckValidName(name: string)
    requires ValidName(name)
    ensures CheckName(name) == Ok(name)
  {
  }

  /** One step of the loop of `EvaluateSumFunction`, at position `i`. */
  lemma SumFromStep(cells: Cells, fuel: nat, cs: seq<Coordinate>, i: nat, sum: DataValue)
    requires i < |cs| && Maths.IsNumber(sum)
    ensures CellValue(cells, fuel, cs[i]).Exhausted? ==> SumFrom(cells, fuel, cs[i..], sum) == Exhausted
    ensures CellValue(cells, fuel, cs[i]).Done? && !Maths.IsNumber(CellValue(cells, fuel, cs[i]).value) ==>
      SumFrom(cells, fuel, cs[i..], sum) == SumFrom(cells, fuel, cs[i + 1..], sum)
    ensures CellValue(cells, fuel, cs[i]).Done? && Maths.IsNumber(CellValue(cells, fuel, cs[i]).value) ==>
      SumFrom(cells, fuel, cs[i..], sum) ==
        match Maths.Add(sum, CellValue(cells, fuel, cs[i]).value)
        case Ok(s) => SumFrom(cells, fuel, cs[i + 1..], s)
        case Err(e) => Raised(e)
  {
    assert cs[i..][0] == cs[i] && cs[i..][1..] == cs[i + 1..];
  }

  /** One step of the loop of `EvaluateCountFunction`, at position `i`. */
  lemma CountFromStep(cells: Cells, fuel: nat, cs: seq<Coordinate>, i: nat, count: nat)
    requires i < |cs|
    ensures CellValue(cells, fuel, cs[i]).Exhausted? ==> CountFrom(cells, fuel, cs[i..], count) == Exhausted
    ensures CellValue(cells, fuel, cs[i]).Done? ==>
      CountFrom(cells, fuel, cs[i..], count) ==
        CountFrom(cells, fuel, cs[i + 1..], if Filled(CellValue(cells, fuel, cs[i]).value) then count + 1 else count)
  {
    assert cs[i..][0] == cs[i] && cs[i..][1..] == cs[i + 1..];
  }

  /** One step of the loop of `EvaluateAvgFunction`, at position `i`. */
  lemma AvgFromStep(cells: Cells, fuel: nat, cs: seq<Coordinate>, i: nat, sum: DataValue, count: nat)
    requires i < |cs| && Maths.IsNumber(sum)
    ensures CellValue(cells, fuel, cs[i]).Exhausted? ==> AvgFrom(cells, fuel, cs[i..], sum, count) == Exhausted
    ensures CellValue(cells, fuel, cs[i]).Done? && !Maths.IsNumber(CellValue(cells, fuel, cs[i]).value) ==>
      AvgFrom(cells, fuel, cs[i..], sum, count) == AvgFrom(cells, fuel, cs[i + 1..], sum, count)
    ensures CellValue(cells, fuel, cs[i]).Done? && Maths.IsNumber(CellValue(cells, fuel, cs[i]).value) ==>
      AvgFrom(cells, fuel, cs[i..], sum, count) ==
        match Maths.Add(sum, CellValue(cells, fuel, cs[i]).value)
        case Ok(s) => AvgFrom(cells, fuel, cs[i + 1..], s, count + 1)
        case Err(e) => Raised(e)
  {
    assert cs[i..][0] == cs[i] && cs[i..][1..] == cs[i + 1..];
  }

  class TableEntity {
    const id: TableId
    var name: string
    var cells: map<Coordinate, DataValue>

    /** The name is always one that `SetName` accepted. */
    ghost predicate Valid()
      reads this
    {
      ValidName(name)
    }

    /** The constructor proper, once the name has been checked. */
    constructor(id: TableId, name: string)
      requires ValidName(name)
      ensures Valid()
      ensures this.id == id && this.name == name && cells == map[]
    {
      this.id := id;
      this.name := name;
      cells := map[];
    }

    /** `new TableEntity(id, name)`: an empty table, or `InvalidTableName` for a blank name. */
    static method Create(id: TableId, name: string) returns (r: Result<TableEntity>)
      ensures r.Ok? <==> !IsBlank(name)
      ensures r.Err? ==> r.error == InvalidTableName(name)
      ensures r.Ok? ==> fresh(r.value) && r.value.Valid()
      ensures r.Ok? ==> r.value.id == id && r.value.name == Trim(name) && r.value.cells == map[]
    {
      var checked := CheckName(name);
      if checked.Err? {
        return Err(checked.error);
      }
      var table := new TableEntity(id, checked.value);
      return Ok(table);
    }

    /** `SetName`: stores the trimmed name, or throws and keeps the old one. */
    method SetName(name: string) returns (r: Option<Error>)
      modifies this
      ensures r.None? <==> !IsBlank(name)
      ensures r.None? ==> this.name == Trim(name)
      ensures r.Some? ==> r.value == InvalidTableName(name) && this.name == old(this.name)
      ensures old(Valid()) ==> Valid()
      ensures cells == old(cells)
    {
      var checked := CheckName(name);
      if checked.Err? {
        return Some(checked.error);
      }
      this.name := checked.value;
      return None;
    }

    /** `GetCell`: the stored value, or the empty text for a cell never set. */
    function GetCell(c: Coordinate): (v: DataValue)
      reads this
      ensures c in cells ==> v == cells[c]
      ensures c !in cells ==> v == DataValue.Text("")
    {
      CellAt(cells, c)
    }

    /** `SetCell`: replaces the value at one coordinate and leaves every other cell alone. */
    method SetCell(c: Coordinate, v: DataValue)
      modifies this
      ensures cells == old(cells)[c := v]
      ensures GetCell(c) == v
      ensures forall d :: d != c ==> GetCell(d) == old(GetCell(d))
      ensures name == old(name)
    {
      cells := cells[c := v];
    }

    /** `GetValue`: the evaluated value of a cell; `fuel` bounds the nesting of reads. */
    method GetValue(c: Coordinate, fuel: nat) returns (r: Eval<DataValue>)
      ensures r == CellValue(cells, fuel, c)
      decreases fuel, 0, 0
    {
      if fuel == 0 {
        return Exhausted;
      }
      r := Recalculate(c, fuel - 1);
    }

    /** `Recalculate`. */
    method Recalculate(c: Coordinate, fuel: nat) returns (r: Eval<DataValue>)
      ensures r == Recalculated(cells, fuel, c)
      decreases fuel, 6, 0
    {
      var cellValue := GetCell(c);
      if cellValue.Text? && StartsWith(cellValue.text, "=") {
        r := EvaluateFormula(cellValue.text, fuel);
      } else {
        r := Done(cellValue);
      }
    }

    /** `EvaluateFormula`: the catch-all turns every exception into its error text. */
    method EvaluateFormula(formula: string, fuel: nat) returns (r: Eval<DataValue>)
      requires StartsWith(formula, "=")
      ensures r == FormulaValue(cells, fuel, formula)
      decreases fuel, 5, 0
    {
      var expression := formula[1..];
      var result: Eval<DataValue>;
      if IsFunction(expression) {
        result := EvaluateFunction(expression, fuel);
      } else {
        var rpnTokens := ConvertToRPN(expression);
        result := EvaluateRPN(rpnTokens, fuel);
      }
      if result.Raised? {
        r := Done(DataValue.Text(ErrorText(result.error)));
      } else {
        r := result;
      }
    }

    /** `EvaluateFunction`. */
    method EvaluateFunction(expression: string, fuel: nat) returns (r: Eval<DataValue>)
      ensures r == FunctionValue(cells, fuel, expression)
      decreases fuel, 4, 0
    {
      var openParen := IndexOf(expression, '(');
      var closeParen := LastIndexOf(expression, ')');
      if openParen == -1 || closeParen == -1 || closeParen <= openParen {
        return Raised(InvalidFunctionSyntax(expression));
      }
      var functionName := Upper(expression[..openParen]);
      var arguments := expression[openParen + 1..closeParen];
      assert FunctionValue(cells, fuel, expression) == Dispatch(cells, fuel, functionName, arguments);
      if functionName == "SUM" {
        r := EvaluateSumFunction(arguments, fuel);
      } else if functionName == "AVG" {
        r := EvaluateAvgFunction(arguments, fuel);
      } else if functionName == "COUNT" {
        r := EvaluateCountFunction(arguments, fuel);
      } else {
        r := Raised(UnknownFunction(functionName));
      }
    }

    /** `EvaluateSumFunction`. */
    method EvaluateSumFunction(arguments: string, fuel: nat) returns (r: Eval<DataValue>)
      ensures r == SumValue(cells, fuel, arguments)
      decreases fuel, 2, 0
    {
      var coordinates := ParseRange(arguments);
      if coordinates.Err? {
        return Raised(coordinates.error);
      }
      var cs := coordinates.value;
      assert SumValue(cells, fuel, arguments) == SumFrom(cells, fuel, cs, Integer(0));
      var sum := Integer(0);
      for i := 0 to |cs|
        invariant Maths.IsNumber(sum)
        invariant SumFrom(cells, fuel, cs[i..], sum) == SumFrom(cells, fuel, cs, Integer(0))
      {
        var cellValue := GetValue(cs[i], fuel);
        SumFromStep(cells, fuel, cs, i, sum);
        if !cellValue.Done? {
          return Exhausted;
        }
        var v := cellValue.value;
        if v.Integer? || v.Decimal? {
          var next := Maths.Add(sum, v);
          if next.Err? {
            return Raised(next.error);
          }
          sum := next.value;
        }
      }
      assert cs[|cs|..] == [];
      return Done(sum);
    }

    /** `EvaluateAvgFunction`: the loop's sum divided by its count, or 0 when no cell held a number. */
    method EvaluateAvgFunction(arguments: string, fuel: nat) returns (r: Eval<DataValue>)
      ensures r == AvgValue(cells, fuel, arguments)
      decreases fuel, 2, 0
    {
      var coordinates := ParseRange(arguments);
      if coordinates.Err? {
        return Raised(coordinates.error);
      }
      var totals := AverageCells(coordinates.value, fuel);
      match totals
      case Done((sum, count)) =>
        if count == 0 {
          return Done(Integer(0));
        }
        r := FromResult(Maths.Div(sum, Integer(count)));
      case Raised(e) => r := Raised(e);
      case Exhausted => r := Exhausted;
    }

    /** The loop of `EvaluateAvgFunction`: the sum of the numbers among the cells, and how many there were. */
    method AverageCells(cs: seq<Coordinate>, fuel: nat) returns (r: Eval<(DataValue, int32)>)
      requires |cs| <= INT32_MAX
      ensures r.Done? ==> 0 <= r.value.1 && AvgFrom(cells, fuel, cs, Integer(0), 0) == Done((r.value.0, r.value.1 as nat))
      ensures r.Raised? ==> AvgFrom(cells, fuel, cs, Integer(0), 0) == Raised(r.error)
      ensures r.Exhausted? ==> AvgFrom(cells, fuel, cs, Integer(0), 0) == Exhausted
      decreases fuel, 1, |cs|
    {
      var sum := Integer(0);
      var count: int32 := 0;
      for i := 0 to |cs|
        invariant Maths.IsNumber(sum) && 0 <= count as int <= i
        invariant AvgFrom(cells, fuel, cs[i..], sum, count as nat) == AvgFrom(cells, fuel, cs, Integer(0), 0)
      {
        var cellValue := GetValue(cs[i], fuel);
        AvgFromStep(cells, fuel, cs, i, sum, count as nat);
        if !cellValue.Done? {
          return Exhausted;
        }
        var v := cellValue.value;
        if v.Integer? || v.Decimal? {
          var next := Maths.Add(sum, v);
          if next.Err? {
            return Raised(next.error);
          }
          sum := next.value;
          count := count + 1;
        }
      }
      assert cs[|cs|..] == [];
      return Done((sum, count));
    }

    /** `EvaluateCountFunction`: the loop's count as an integer value. */
    method EvaluateCountFunction(arguments: string, fuel: nat) returns (r: Eval<DataValue>)
      ensures r == CountValue(cells, fuel, arguments)
      decreases fuel, 2, 0
    {
      var coordinates := ParseRange(arguments);
      if coordinates.Err? {
        return Raised(coordinates.error);
      }
      var counted := CountCells(coordinates.value, fuel);
      match counted
      case Done(count) => r := Done(Integer(count));
      case Raised(e) => r := Raised(e);
      case Exhausted => r := Exhausted;
    }

    /** The loop of `EvaluateCountFunction`: how many of the cells are not the empty text. */
    method CountCells(cs: seq<Coordinate>, fuel: nat) returns (r: Eval<int32>)
      requires |cs| <= INT32_MAX
      ensures r.Done? ==> 0 <= r.value && CountFrom(cells, fuel, cs, 0) == Done(r.value as nat)
      ensures r.Raised? ==> CountFrom(cells, fuel, cs, 0) == Raised(r.error)
      ensures r.Exhausted? ==> CountFrom(cells, fuel, cs, 0) == Exhausted
      decreases fuel, 1, |cs|
    {
      var count: int32 := 0;
      for i := 0 to |cs|
        invariant 0 <= count as int <= i
        invariant CountFrom(cells, fuel, cs[i..], count as nat) == CountFrom(cells, fuel, cs, 0)
      {
        var cellValue := GetValue(cs[i], fuel);
        CountFromStep(cells, fuel, cs, i, count as nat);
        if !cellValue.Done? {
          return Exhausted;
        }
        var v := cellValue.value;
        if !v.Text? || v.text != "" {
          count := count + 1;
        }
      }
      assert cs[|cs|..] == [];
      return Done(count);
    }

    /** `EvaluateRPN`: a stack of values, top last. */
    method EvaluateRPN(rpnTokens: seq<string>, fuel: nat) returns (r: Eval<DataValue>)
      ensures r == RPNValue(cells, fuel, rpnTokens)
      decreases fuel, 4, 0
    {
      var stack: seq<DataValue> := [];
      for i := 0 to |rpnTokens|
        invariant RPNFrom(cells, fuel, rpnTokens[i..], stack) == RPNFrom(cells, fuel, rpnTokens, [])
      {
        var token := rpnTokens[i];
        assert rpnTokens[i..][0] == token && rpnTokens[i..][1..] == rpnTokens[i + 1..];
        var before := stack;
        if IsCellReference(token) {
          var coordinate := Parse(token);
          if coordinate.Err? {
            assert RPNStep(cells, fuel, token, stack) == Raised(coordinate.error);
            assert RPNFrom(cells, fuel, rpnTokens[i..], stack) == Raised(coordinate.error);
            return Raised(coordinate.error);
          }
          var cellValue := GetValue(coordinate.value, fuel);
          assert RPNStep(cells, fuel, token, stack) == Push(stack, cellValue);
          if !cellValue.Done? {
            return Exhausted;
          }
          stack := stack + [cellValue.value];
        } else if IsNumber(token) || IsPercentage(token) {
          stack := stack + [Literal(token).value];
        } else if IsOperator(token) {
          if |stack| < 2 {
            return Raised(InsufficientOperands(token));
          }
          var right := stack[|stack| - 1];
          var left := stack[|stack| - 2];
          stack := stack[..|stack| - 2];
          var result := Apply(token, left, right);
          assert RPNStep(cells, fuel, token, before) == Push(stack, FromResult(result));
          if result.Err? {
            return Raised(result.error);
          }
          stack := stack + [result.value];
        }
        assert RPNStep(cells, fuel, token, before) == Done(stack);
      }
      if |stack| != 1 {
        return Raised(InvalidExpression);
      }
      return Done(stack[0]);
    }
  }
}
