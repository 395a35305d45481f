# WackyRaces spreadsheet core in Dafny

WackyRaces keeps named tables of cells. Each cell is addressed by a
coordinate: a column letter `A`..`Z` and a row number from 1 up. It holds a
`DataValue`, which is text, a 32-bit integer, a decimal, a boolean, a date, a
percentage or a function call. A text that starts with `=` is a formula.
Reading a cell's value evaluates such a formula. Two kinds of formula exist:

- a call of `SUM`, `AVG` or `COUNT` over a range such as `A1:A3`;
- an arithmetic expression over cell references, numbers and percentages.

An expression is tokenized, turned into postfix order by the shunting-yard
algorithm, and run on a stack. Any exception thrown while evaluating becomes
the text `#ERROR: <message>`. Tables can also be saved to a simple template
(column headers, row headers and typed data cells) and loaded back from one.

The model follows the source file by file:

| module | file | source |
|---|---|---|
| `RowIds`, `ColumnIds`, `Coordinates` | `row_id.dfy`, `column_id.dfy`, `coordinate.dfy` | `RowId.cs`, `ColumnId.cs`, `Coordinate.cs` |
| `Values`, `Maths` | `data_value.dfy`, `data_value_maths.dfy` | `DataValue.Operators.cs`, `DataValue.Maths.cs` |
| `Functions` | `function.dfy` | `Function.cs` |
| `Tables`, with the evaluator's specification in `Evaluation`, `TokenClasses`, `Lexer`, `ShuntingYard`, `Ranges` and the proofs in `FormulaProperties` | `table.dfy`, `evaluation.dfy`, `token_classes.dfy`, `formula_lexer.dfy`, `shunting_yard.dfy`, `ranges.dfy`, `formula_properties.dfy` | `TableEntity.cs` |
| `Templates` | `templates.dfy` | `SimpleJsonTemplateLoader.cs`, `SimpleJsonTemplate.cs` |
| `Text`, `Numbers`, `Wrappers`, `Errors` | `text.dfy`, `numbers.dfy`, `errors.dfy` | the .NET string and number primitives these files call, and the exception messages |

Value-like code is written as datatypes and functions. `TableEntity` is a
class whose methods update its `name` and `cells` fields. Each method that
evaluates a formula follows the statements and loops of the source, with one
exception: ranges are listed by the corrected row loop of the first finding
below, not by the 32-bit loop as written. Each method is proved to return
exactly what a recursive specification function in `Evaluation` computes,
and the properties of the evaluator are then proved about those functions.

An exception in the source is an `Err`/`Raised` result carrying an `Error`
that has the same message. Recursion through cell references is bounded by a
`fuel` parameter. When the fuel runs out, the result is `Exhausted`, which
stands for the stack overflow of a cyclic reference: the catch-all of
`EvaluateFormula` does not catch it.

## Model

| member | source | states |
|---|---|---|
| RowIds.New | src/Domain/Types/RowId.cs:9-17 | A row id is created exactly for values >= 1; anything else is `RowIdOutOfRange` carrying the value |
| RowIds.NextValue | src/Domain/Types/RowId.cs:19-22 | The next row is `value + 1`; from row 2147483647 the unchecked increment wraps to `int.MinValue` and the constructor rejects it |
| RowIds.PreviousValue | src/Domain/Types/RowId.cs:24-32 | Row 1 has no previous row (`RowIdOutOfRange(0)`); any higher row steps to `value - 1` |
| RowIds.NextThenPrevious | src/Domain/Types/RowId.cs:19-32 | Stepping down and back up returns to the same row, for every row below the largest |
| RowIds.PreviousThenNext | src/Domain/Types/RowId.cs:19-32 | Stepping up and back down returns to the same row, for every row above 1 |
| ColumnIds.FromInt | src/Domain/Types/ColumnId.cs:9-17 | Column numbers 1..26 are accepted exactly, and number n is the n-th letter; others give `ColumnIdOutOfRange` |
| ColumnIds.Index | src/Domain/Types/ColumnId.cs:9-17 | Every valid column has a number in 1..26 that `FromInt` maps back to it |
| ColumnIds.FromChar | src/Domain/Types/ColumnId.cs:19-29 | The character constructor as written: upper-cases the character and accepts it iff it is at most 'Z' |
| ColumnIds.FromLetter | src/Domain/Types/ColumnId.cs:19-29 | The character constructor as intended: accepts exactly the ASCII letters, in either case, and yields their upper case |
| ColumnIds.FromCharAcceptsDigit | src/Domain/Types/ColumnId.cs:23 | The written guard accepts '1' and yields a column outside 'A'..'Z', which the intended guard rejects |
| ColumnIds.FromCharAgreesOnLetters | src/Domain/Types/ColumnId.cs:19-29 | On letters the written and intended guards give the same result |
| ColumnIds.FromLetterMatchesFromInt | src/Domain/Types/ColumnId.cs:9-29 | A letter and its alphabet position name the same column |
| Coordinates.FromInts | src/Domain/Types/Coordinate.cs:14-18 | `new Coordinate(row, column)` succeeds iff row >= 1 and column is in 1..26; the row is checked first |
| Coordinates.Parse | src/Domain/Types/Coordinate.cs:8-44 | A letter followed by digits (with `$` also matching before one final line feed) is accepted exactly when the row fits in int32 and is >= 1, giving the upper-cased letter and the digits' value; otherwise the source, overflow or row error is raised |
| Coordinates.ParseToString | src/Domain/Types/Coordinate.cs:26-44 | Printing a valid coordinate and parsing the text gives the coordinate back |
| Coordinates.ToStringParse | src/Domain/Types/Coordinate.cs:26-44 | A parsed text without leading zero or final line feed prints back as its upper case |
| Coordinates.ToString | src/Domain/Types/Coordinate.cs:26-29 | The text is the column letter followed by the row; for a valid row the rest is decimal digits with no leading zero whose value is the row |
| Coordinates.ParseIgnoresCase | src/Domain/Types/Coordinate.cs:31-44 | Upper-casing a parseable text does not change what it parses to |
| Values.ValueEqualsIsEquality | src/Domain/Types/DataValue.Operators.cs:42-50 | Value equality holds iff both values are the same alternative with the same payload |
| Values.OpEqualsIsEquality | src/Domain/Types/DataValue.Operators.cs:5-30 | `==` on possibly-null values is equality (two nulls equal, one null unequal), it is symmetric, and `!=` is its negation |
| Values.HashAgreesWithEquals | src/Domain/Types/DataValue.Operators.cs:22-40 | Values that `Equals` relates have the same hash code, whatever the payload hash functions are |
| Maths.Add | src/Domain/Types/DataValue.Maths.cs:48-72 | Two numbers add exactly; int + int stays int and throws on 32-bit overflow; a percentage operand is "ambiguous"; any other operand is unsupported, with the left operand blamed first |
| Maths.Sub | src/Domain/Types/DataValue.Maths.cs:74-98 | Two numbers subtract exactly, with the same typing and error rules as addition |
| Maths.Mul | src/Domain/Types/DataValue.Maths.cs:100-131 | Numbers and percentages multiply, a percentage counting as its ratio p/100; the result is an int only for int * int, which throws on overflow |
| Maths.Div | src/Domain/Types/DataValue.Maths.cs:133-164 | Every quotient of numbers and percentages is the decimal ratio of their factors; a zero divisor throws `DivideByZero` |
| Maths.Quotient | src/Domain/Types/DataValue.Maths.cs:139-161 | A decimal division gives the value that multiplied by the divisor gives back the dividend, and throws for a zero divisor |
| Maths.ToRatio | src/Domain/Types/DataValue.Maths.cs:168-171 | A percentage's ratio times 100 is the percentage |
| Maths.Plus | src/Domain/Types/DataValue.Maths.cs:30-37 | Unary `+` returns a number unchanged and throws "Unary + not supported for <type>." for every other value |
| Maths.Negate | src/Domain/Types/DataValue.Maths.cs:39-46 | Unary `-` negates a number (unchecked: `int.MinValue` stays itself) and throws for every other value |
| Maths.NegateTwice | src/Domain/Types/DataValue.Maths.cs:39-46 | Negating a number twice gives it back |
| Maths.AddCommutes | src/Domain/Types/DataValue.Maths.cs:48-72 | Addition of numbers is commutative, overflow included |
| Maths.MulCommutes | src/Domain/Types/DataValue.Maths.cs:100-131 | Multiplication of numbers and percentages is commutative |
| Maths.SubUndoesAdd | src/Domain/Types/DataValue.Maths.cs:48-98 | Subtracting what was added gives back the original numeric value (an int may come back as a decimal) |
| Maths.DivUndoesMul | src/Domain/Types/DataValue.Maths.cs:100-164 | Dividing a product by a non-zero factor gives the other factor, as a decimal |
| Maths.PercentageExamples | src/Domain/Types/DataValue.Maths.cs:58-143 | 100 * 50% is 50, 50% + 5 is ambiguous, and 1 / 4 is the decimal 0.25 |
| Functions.Validate | src/Domain/Types/Function.cs:17-59 | A function value is accepted iff it is not blank, its trimmed text does not start with '=', and its upper-cased name before the first '(' is one of the seven known names; each refusal gives its own error |
| Functions.New | src/Domain/Types/Function.cs:10-15 | Construction succeeds iff the value validates; it keeps the value, and a missing format becomes decimal |
| Functions.ToString | src/Domain/Types/Function.cs:61-64 | The text of a well-formed function, given back to the constructor with the same format, builds the same function |
| Functions.GetFunctionName | src/Domain/Types/Function.cs:66-78 | The name of a well-formed function is one of the known names |
| Functions.GetArguments | src/Domain/Types/Function.cs:80-98 | Without '(' the arguments are empty; otherwise they are the text strictly between the first '(' and the last ')', and a missing or misplaced ')' throws `InvalidFunctionSyntax` |
| Functions.HasArgumentsTrimmed | src/Domain/Types/Function.cs:173-176 | `HasArguments` holds iff the untrimmed value contains both '(' and ')', which is also iff the trimmed value does |
| Functions.IsNestedFunction | src/Domain/Types/Function.cs:178-188 | True iff the arguments hold both parentheses; fails exactly when `GetArguments` fails |
| Functions.CallForm | src/Domain/Types/Function.cs:17-98 | `name(args)` with a known name validates, reports the upper-cased name and returns exactly `args` as its arguments |
| Functions.TokenizeArguments | src/Domain/Types/Function.cs:112-171 | The loop computes `Tokens`, the character-by-character scan of the arguments |
| Functions.TokensTrimmed | src/Domain/Types/Function.cs:112-171 | Every argument token is non-empty and has no white space at either end |
| Functions.ScanLevel | src/Domain/Types/Function.cs:123-132 | After any prefix of the arguments, the parenthesis level is the number of '(' minus the number of ')' read so far |
| Functions.ScanRange | src/Domain/Types/Function.cs:149-162 | The range flag is set exactly while a ':' has been read and no character has closed the range since: one that stays in the token, is not a parenthesis or ':', and is followed by ',', white space or the end |
| Functions.TokensKeepCharacters | src/Domain/Types/Function.cs:112-171 | With white space removed, the tokens spell out the arguments in order, minus exactly the separating commas: those at parenthesis depth 0 while no ':' range is open. Commas inside parentheses or an open range stay in their token |
| Functions.TokensCountCharacters | src/Domain/Types/Function.cs:112-171 | Every character other than white space and ',' occurs as often in the tokens as in the arguments |
| Functions.TokensOfPlainList | src/Domain/Types/Function.cs:141-148 | For arguments without parentheses, ':' or white space, the tokens are exactly the non-empty pieces between the commas, in order |
| Functions.TryCreate | src/Domain/Types/Function.cs:209-228 | `TryCreate` is true iff construction succeeds, and then returns the constructed function; otherwise `default(Function)`, written as the empty text with no format |
| Functions.ArgumentTokens | src/Domain/Types/Function.cs:100-110 | Fails exactly when `GetArguments` fails |
| Functions.GetArgumentTokens | src/Domain/Types/Function.cs:100-110 | The method computes `ArgumentTokens`: no tokens for blank arguments, else the tokenized arguments |
| Functions.NestedWellFormed | src/Domain/Types/Function.cs:190-207 | Every nested function is well formed, has parentheses, is one of the argument tokens and carries the parent's format |
| Functions.GetNestedFunctions | src/Domain/Types/Function.cs:190-207 | The loop keeps, in order, the tokens with parentheses that construct as functions |
| Text.Trim | src/Domain/Entities/TableEntity.cs:25-30 | Trimming keeps no white space at either end and is empty exactly for a blank string |
| Text.TrimKeepsMiddle | src/Domain/Entities/TableEntity.cs:25 | The trimmed text is a contiguous part of the original holding every character that is not white space |
| Text.TrimCount | src/Domain/Types/Function.cs:137 | Trimming does not change how often a non-white-space character occurs |
| Text.IndexOfFirst | src/Domain/Entities/TableEntity.cs:98 | `IndexOf` is -1 iff the character is absent, and otherwise no earlier position holds it |
| Text.LastIndexOfLast | src/Domain/Entities/TableEntity.cs:99 | `LastIndexOf` is -1 iff the character is absent, and otherwise no later position holds it |
| Text.SplitParts | src/Domain/Entities/TableEntity.cs:182 | Splitting gives one more part than there are separators, no part contains the separator, and joining the parts with the separator gives the text back |
| Text.RemoveEmpty | src/Domain/Types/Function.cs:170 | Dropping empty strings keeps only non-empty members of the input and the same concatenation |
| Numbers.Wrap32 | src/Domain/Types/RowId.cs:21 | An unchecked int result equals the exact value when that fits, and otherwise agrees with it modulo 2^32 |
| Numbers.ParseInt32 | src/Domain/Entities/TableEntity.cs:322 | `int.TryParse` succeeds iff the text is an integer whose value fits in 32 bits, and returns that value |
| Numbers.ParseDecimalInteger | src/Domain/Entities/TableEntity.cs:322-328 | Text that reads as an integer reads as the same decimal |
| Numbers.IntToStringParses | src/Domain/Templates/SimpleJsonTemplateLoader.cs:114 | The printed text of every int parses back to that int |
| Numbers.DigitsRoundTrip | src/Domain/Types/Coordinate.cs:26-44 | A digit string without leading zeros prints back from its value |
| Numbers.NatToStringValue | src/Domain/Types/Coordinate.cs:26-44 | Reading back the printed text of a natural number gives the number |
| TokenClasses.CellReferencePattern | src/Domain/Entities/TableEntity.cs:366-369 | A token is a cell reference iff, apart from one final line feed, it is one or more capital letters followed by one or more ASCII digits (see "## Left out" for other Unicode digits) |
| TokenClasses.NumberSyntax | src/Domain/Entities/TableEntity.cs:371-374 | A token counts as a number iff `decimal.TryParse` reads it |
| TokenClasses.PercentageValue | src/Domain/Entities/TableEntity.cs:376-379 | A token has a percentage value iff it is a number followed by '%' |
| TokenClasses.Precedence | src/Domain/Entities/TableEntity.cs:386-394 | The precedence is in 0..2, is positive exactly for the four operators, and among operators is 2 exactly for `*` and `/` |
| TokenClasses.PrecedenceOrder | src/Domain/Entities/TableEntity.cs:386-394 | Of two operators, the first binds tighter iff it is `*` or `/` and the second is `+` or `-` |
| TokenClasses.PunctuationIsNotOperand | src/Domain/Entities/TableEntity.cs:224-242 | Operators and parentheses are never taken for operands, so the branches of the token loop are disjoint |
| Lexer.TokenizeExpression | src/Domain/Entities/TableEntity.cs:263-301 | The loop computes `Lex`: words are broken at white space and at the six symbols, which are tokens themselves |
| Lexer.LexLexemes | src/Domain/Entities/TableEntity.cs:263-301 | Every token is a single symbol or a non-empty word without white space or symbols |
| Lexer.LexConcat | src/Domain/Entities/TableEntity.cs:263-301 | Concatenating the tokens gives the expression without its white space |
| Lexer.LexUnwords | src/Domain/Entities/TableEntity.cs:263-301 | Tokens written out with spaces between them tokenize back to the same tokens |
| ShuntingYard.ConvertToRPN | src/Domain/Entities/TableEntity.cs:216-261 | The method computes `ToRPN` of the tokenized expression: the token loop, then the stack emptied onto the output |
| ShuntingYard.InfixToRPN | src/Domain/Entities/TableEntity.cs:216-261 | A fully parenthesised expression tree is converted to its postfix order |
| ShuntingYard.PrecedenceAndAssociativity | src/Domain/Entities/TableEntity.cs:228-237 | In `a op1 b op2 c`, op1 is applied first iff its precedence is at least op2's, so equal precedence is left-associative |
| ShuntingYard.MultiplicationFirst | src/Domain/Entities/TableEntity.cs:228-237 | For `add` one of `+`, `-` and `mul` one of `*`, `/`: `x add y mul z` becomes `x y z mul add` and `x mul y add z` becomes `x y mul z add`, so multiplication and division are applied before addition and subtraction on either side |
| ShuntingYard.UnmatchedOpenIsOutput | src/Domain/Entities/TableEntity.cs:255-258 | An unmatched '(' is left on the stack and emptied into the output |
| ShuntingYard.UnmatchedCloseIsDropped | src/Domain/Entities/TableEntity.cs:242-252 | An unmatched ')' pops the operators and is then dropped |
| ShuntingYard.ToRPNKeepsOperands | src/Domain/Entities/TableEntity.cs:216-261 | The operands reach the output in their original order |
| ShuntingYard.ToRPNTokens | src/Domain/Entities/TableEntity.cs:216-261 | The output is a sub-bag of the input tokens and never holds ')' |
| ShuntingYard.UnknownTokensIgnored | src/Domain/Entities/TableEntity.cs:222-253 | Tokens that are neither operands, operators nor parentheses have no effect |
| Ranges.RangeShape | src/Domain/Entities/TableEntity.cs:179-211 | A single reference parses to a valid cell; a span has two valid ends in one column |
| Ranges.RangeShapeCases | src/Domain/Entities/TableEntity.cs:179-211 | Two or more ':' give `InvalidRangeFormat`; a span has exactly one ':'; a text without ':' gives the coordinate its trimmed text parses to, or that parse's error |
| Ranges.SpanCases | src/Domain/Entities/TableEntity.cs:184-206 | For `x:y`, an invalid start is reported before an invalid end; two valid ends in different columns give `UnsupportedComplexRange`; in one column they make a span |
| Ranges.RangeCells | src/Domain/Entities/TableEntity.cs:175-214 | A range fails exactly when its shape fails, with the same error, and otherwise lists 1 to 2^31-1 cells (memory and `List` capacity are not modelled, see "## Left out") |
| Ranges.SpanCells | src/Domain/Entities/TableEntity.cs:192-200 | A span lists the cells of its column from the smaller to the larger row, top to bottom, and exactly those |
| Ranges.ParseRange | src/Domain/Entities/TableEntity.cs:175-214 | The method computes `RangeCells`, with the corrected row loop (see "## Left out" and "## Findings") |
| Ranges.RangeTextSymmetric | src/Domain/Entities/TableEntity.cs:194-195 | `X:Y` and `Y:X` list the same cells |
| Ranges.SingleCell | src/Domain/Entities/TableEntity.cs:207-211 | The text of one valid cell lists that cell alone |
| Ranges.AsWrittenDiffers | src/Domain/Entities/TableEntity.cs:197-200 | The loop as written on 32-bit `row` fails exactly for spans ending at row 2147483647, and agrees with `RangeCells` everywhere else |
| Ranges.LastRowRange | src/Domain/Entities/TableEntity.cs:197-200 | A span ending at the last row throws `RowIdOutOfRange(int.MinValue)` as written, but has cells under the intended loop |
| Evaluation.Literal | src/Domain/Entities/TableEntity.cs:315-333 | Every number or percentage token has a value: a percentage its number, else the number it writes, an int exactly when `int.TryParse` accepts it |
| Evaluation.Recalculated | src/Domain/Entities/TableEntity.cs:50-62 | A cell that holds no formula evaluates to its stored value (the empty text when never set), and evaluation never throws out of it |
| Evaluation.FormulaValue | src/Domain/Entities/TableEntity.cs:64-87 | Evaluating a formula never lets an exception out |
| Tables.CheckName | src/Domain/Entities/TableEntity.cs:23-33 | A name is accepted iff it is not blank, and is stored trimmed; a blank name gives `InvalidTableName` with the name as given |
| Tables.CheckValidName | src/Domain/Entities/TableEntity.cs:23-33 | A stored name is accepted again unchanged |
| Tables.TableEntity.constructor | src/Domain/Entities/TableEntity.cs:17-21 | A table made from an accepted name has that id and name and no cells |
| Tables.TableEntity.Create | src/Domain/Entities/TableEntity.cs:17-21 | `new TableEntity` fails iff the name is blank; otherwise a fresh empty table with the trimmed name |
| Tables.TableEntity.SetName | src/Domain/Entities/TableEntity.cs:23-33 | Stores the trimmed name, or throws and keeps the old name; the cells never change |
| Tables.TableEntity.SetCell | src/Domain/Entities/TableEntity.cs:35-38 | Afterwards the cell reads back the new value and every other cell is unchanged |
| Tables.TableEntity.GetCell | src/Domain/Entities/TableEntity.cs:40-43 | A stored coordinate gives its value; a coordinate never set gives the empty text |
| Tables.TableEntity.GetValue | src/Domain/Entities/TableEntity.cs:45-48 | Computes `CellValue` |
| Tables.TableEntity.Recalculate | src/Domain/Entities/TableEntity.cs:50-62 | Computes `Recalculated` of the current cells |
| Tables.TableEntity.EvaluateFormula | src/Domain/Entities/TableEntity.cs:64-93 | Computes `FormulaValue`: a call of SUM/AVG/COUNT or the postfix value, with exceptions caught as "#ERROR: " text |
| Tables.TableEntity.EvaluateFunction | src/Domain/Entities/TableEntity.cs:95-116 | Computes `FunctionValue`: syntax check of the parentheses, then dispatch on the upper-cased name |
| Tables.TableEntity.EvaluateSumFunction | src/Domain/Entities/TableEntity.cs:118-133 | The loop computes `SumValue` |
| Tables.TableEntity.EvaluateAvgFunction | src/Domain/Entities/TableEntity.cs:135-157 | Computes `AvgValue` from the sum and count of `AverageCells` |
| Tables.TableEntity.AverageCells | src/Domain/Entities/TableEntity.cs:137-149 | The loop gives the sum and count that `AvgFrom` specifies, or its error |
| Tables.TableEntity.EvaluateCountFunction | src/Domain/Entities/TableEntity.cs:159-173 | Computes `CountValue` from the count of `CountCells` |
| Tables.TableEntity.CountCells | src/Domain/Entities/TableEntity.cs:161-171 | The loop gives the count that `CountFrom` specifies |
| Tables.TableEntity.EvaluateRPN | src/Domain/Entities/TableEntity.cs:303-364 | The stack loop computes `RPNValue` |
| FormulaProperties.CoordinateToken | src/Domain/Entities/TableEntity.cs:263-369 | The text of a valid coordinate is one token, a cell reference that parses back to the coordinate, and not a function call |
| FormulaProperties.SelfReference | src/Domain/Entities/TableEntity.cs:45-87 | A cell whose formula refers to itself exhausts any fuel: the source overflows its stack instead of returning an error |
| FormulaProperties.RPNValueOfTree | src/Domain/Entities/TableEntity.cs:303-364 | Running the postfix form of an expression tree gives the value of the tree evaluated bottom-up |
| FormulaProperties.EvaluateInfix | src/Domain/Entities/TableEntity.cs:64-87 | The formula `=` + a parenthesised expression written with spaces evaluates to the tree's value, with an exception turned into error text |
| FormulaProperties.InfixNotFunction | src/Domain/Entities/TableEntity.cs:89-93 | A parenthesised expression is never taken for a function call |
| Evaluation.FunctionCallAccepted | src/Domain/Entities/TableEntity.cs:89-93 | `IsFunction` holds iff both parentheses occur and the text starts with its own head name SUM, AVG or COUNT followed by '('; every such text is accepted by the `Function` constructor |
| FormulaProperties.OperatorFirst | src/Domain/Entities/TableEntity.cs:335-340 | A postfix list that starts with an operator throws `InsufficientOperands` |
| FormulaProperties.LeftoverOperand | src/Domain/Entities/TableEntity.cs:358-361 | Two operands without an operator throw `InvalidExpression` |
| FormulaProperties.FunctionDispatch | src/Domain/Entities/TableEntity.cs:89-116 | `SUM(…)`, `AVG(…)` and `COUNT(…)` reach their evaluator with the text between the first '(' and the last ')' |
| FormulaProperties.SumOfRange | src/Domain/Entities/TableEntity.cs:118-133 | SUM is the total of the numbers among the range's values; it is an int iff no decimal is added; only int overflow throws; a bad range throws its error |
| FormulaProperties.AvgOfRange | src/Domain/Entities/TableEntity.cs:135-157 | AVG is the int 0 when the range holds no number, and otherwise the decimal mean of its numbers |
| FormulaProperties.Mean | src/Domain/Entities/TableEntity.cs:156 | Dividing a sum by a positive count gives the exact decimal mean |
| FormulaProperties.CountOfRange | src/Domain/Entities/TableEntity.cs:159-173 | COUNT is the number of values in the range that are not the empty text |
| Templates.GetFormatType | src/Domain/Templates/SimpleJsonTemplateLoader.cs:251-261 | "int"/"integer" give int and "text" gives string, ignoring case; anything else or no type gives decimal |
| Templates.GetFormatName | src/Domain/Templates/SimpleJsonTemplateLoader.cs:266-272 | The name is "int" exactly for `int` and "text" exactly for `string`; `decimal` and every other type, a missing one included, are saved as "decimal" |
| Templates.FormatRoundTrip | src/Domain/Templates/SimpleJsonTemplateLoader.cs:251-272 | A format survives name-and-back iff it is int, decimal or string |
| Templates.ReadLiteral | src/Domain/Templates/SimpleJsonTemplateLoader.cs:105-126 | A literal becomes an int, decimal or percentage only under its type tag and only when it parses; otherwise it stays the text as given |
| Templates.ConvertToDataValue | src/Domain/Templates/SimpleJsonTemplateLoader.cs:93-127 | A value starting with '=' becomes a function of the rest, typed by the format, and fails iff that function does not validate; anything else is read as a literal |
| Templates.ConvertToDataValueDefinition | src/Domain/Templates/SimpleJsonTemplateLoader.cs:184-233 | Every saved type tag is one of text, function, int, decimal, percentage |
| Templates.DefinitionRoundTrip | src/Domain/Templates/SimpleJsonTemplateLoader.cs:93-233 | Saving a value and loading it back gives the value iff it is restorable: text not starting with '=', any int, a decimal or percentage whose printed text reads back the same, or a well-formed function with a nameable format |
| Templates.TitleRoundTrip | src/Domain/Templates/SimpleJsonTemplateLoader.cs:238-246 | A header title loads back as the same value iff the value was text |
| Templates.GetCellValueAsString | src/Domain/Templates/SimpleJsonTemplateLoader.cs:238-246 | A text's title is the text itself, an integer's title parses back to the integer, and a function's title is its text, which the constructor accepts again as the same function |
| Templates.NoRowHeaders | src/Domain/Templates/SimpleJsonTemplateLoader.cs:143-168 | No valid coordinate is placed as a row header: the column test compares a letter with the code 1; every cell outside row 1 is a data cell |
| Templates.WherePartition | src/Domain/Templates/SimpleJsonTemplateLoader.cs:138-169 | Every visited cell lands in exactly one of the three lists |
| Templates.WhereSound | src/Domain/Templates/SimpleJsonTemplateLoader.cs:138-169 | A list holds only visited cells of its own placement |
| Templates.WhereMember | src/Domain/Templates/SimpleJsonTemplateLoader.cs:138-169 | Every visited cell is in the list of its placement |
| Templates.SavedRowsEmpty | src/Domain/Templates/SimpleJsonTemplateLoader.cs:151-159 | A saved table never has row headers |
| Templates.ConvertToSimpleTemplate | src/Domain/Templates/SimpleJsonTemplateLoader.cs:132-179 | Visits each cell exactly once and builds the template of those cells in that order: name, description "Template created from <name>", headers and data cells |
| Templates.LaterEntryWins | src/Domain/Templates/SimpleJsonTemplateLoader.cs:66-85 | When a coordinate is set twice, the later value stays |
| Templates.UntouchedCellKept | src/Domain/Templates/SimpleJsonTemplateLoader.cs:66-85 | Cells no entry names keep their earlier value |
| Templates.HeaderEntriesPrefix | src/Domain/Templates/SimpleJsonTemplateLoader.cs:66-77 | The first bad coordinate decides the error, whatever follows it |
| Templates.CellEntriesPrefix | src/Domain/Templates/SimpleJsonTemplateLoader.cs:80-85 | The first bad coordinate or value decides the error, whatever follows it |
| Templates.SetHeaders | src/Domain/Templates/SimpleJsonTemplateLoader.cs:66-77 | Sets each header's title as text in order, or stops at the first coordinate that does not parse |
| Templates.SetCells | src/Domain/Templates/SimpleJsonTemplateLoader.cs:80-85 | Sets each cell's converted value in order, or stops at the first error |
| Templates.ConvertToTableEntity | src/Domain/Templates/SimpleJsonTemplateLoader.cs:60-88 | A blank name fails; otherwise a fresh table with the trimmed name whose cells are the column headers, then row headers, then data cells, a later write winning, or the first error |
| Templates.HeadersLoadBack | src/Domain/Templates/SimpleJsonTemplateLoader.cs:66-77 | Headers saved from text cells load back as the same coordinates and values |
| Templates.DataCellsLoadBack | src/Domain/Templates/SimpleJsonTemplateLoader.cs:80-85 | Data cells saved from restorable values load back as the same coordinates and values |
| Templates.ReloadedIsCells | src/Domain/Templates/SimpleJsonTemplateLoader.cs:60-88 | Writing back the three lists of a table's cells rebuilds exactly its cell map |
| Templates.SaveThenLoad | src/Domain/Templates/SimpleJsonTemplateLoader.cs:60-179 | Saving a table and loading the template back gives the same cells, when row-1 cells hold text and the other cells hold restorable values |

## Left out

- Cyclic references overflow the stack in the source. The model bounds the depth of nested cell reads with `fuel` and reports `Exhausted` instead; it does not model how deep .NET can actually recurse.
- Memory and collection capacity are not modelled. The source collects a range's coordinates in a `List<Coordinate>`, which cannot grow past `Array.MaxLength` (2147483591) elements, so `=COUNT(A1:A2147483600)` gives "#ERROR: Array dimensions exceeded supported range." in the source while the model returns a count; much smaller spans already run out of memory first. `Ranges.RangeCells` and `Ranges.ParseRange` list ranges of any length up to 2^31-1 cells.
- Case mapping covers ASCII letters only; `ToUpper`/`ToLowerInvariant` of other scripts is not modelled.
- `int.TryParse` and `decimal.TryParse` are modelled for `[sign] digits [. digits]` only. Culture, surrounding white space, thousands separators and exponents are not modelled.
- Decimals are exact reals: the 28-digit precision, rounding and overflow of `decimal` are not modelled.
- `Percentage.Parse`/`TryParse` and `new Percentage` are not part of this model. A percentage token is a number followed by '%', and its value is that number.
- Hash codes of the payloads are a parameter (`Hashes`), since the .NET hash functions are not visible.
- Boolean and date values have no literal syntax in formulas. They take part only as operands that the arithmetic rejects.
- Function payloads have no arm in the six-armed `Match` of the arithmetic and equality code. The model treats them as unsupported operands and compares them by record equality.
- JSON text and files are not modelled: `LoadFromJson`, `LoadFromJsonFile`, `SaveToJson`, `SaveToJsonFile`, and null strings in a template.
- `Guid.NewGuid()` becomes an `id` parameter of `ConvertToTableEntity`.
- The text of decimals, percentages, booleans and dates in a saved template comes from `ToString()`. It is a `Renderer` parameter; `DecimalRoundTrip` relies on nothing about it beyond what `Restorable` states.
- `StartsWith("=")` on strings is culture-sensitive in the source; the model compares ordinally. The same holds for `Evaluation.IsFunction`, whose `StartsWith("SUM(")`, `StartsWith("AVG(")` and `StartsWith("COUNT(")` are culture-sensitive too: a text with a leading soft hyphen (U+00AD), which the culture comparison ignores, is taken for a function call in the source but evaluated as arithmetic in the model.
- The order in which `ConvertToSimpleTemplate` visits the dictionary is left open, as a ghost `order`.
- Templates.ConvertToTableEntity: its three loops are the helper methods `SetHeaders` and `SetCells`. `SetCell` is an update of the `cells` map, so aliasing between tables is not modelled.
- Tables.TableEntity.EvaluateAvgFunction, Tables.TableEntity.EvaluateCountFunction: the counting loops are the helper methods `AverageCells` and `CountCells`. Their `int` count cannot overflow, because a range never has more than 2^31-1 cells.
- Templates.ConvertToSimpleTemplate: the row-header test `ColumnId.Value == 1` compares a character with the code 1 and never holds for a valid coordinate. It is modelled as written, because a column-A cell must be saved as a typed data cell to reload with its type. `NoRowHeaders` and `SavedRowsEmpty` state the consequence.
- TokenClasses.IsCellReference: the `\d` of the cell-reference pattern is read as the ASCII digits `0`-`9`. .NET matches every Unicode decimal digit there, so in the source a token such as `A١` (with the Arabic-Indic digit one) is a cell reference, which `Coordinate.Parse` then rejects with the invalid-coordinate error. The model leaves such a token unclassified, so `=A١+1` ends with the insufficient-operands error instead. `CellReferencePattern` is stated for the ASCII reading.
- ParseRange: `Ranges.ParseRange` and `Ranges.RangeCells` list a column range with the corrected row loop. For a range ending at row 2147483647 the source throws `RowIdOutOfRange(int.MinValue)`, while the model lists the cells (`Ranges.AsWrittenDiffers` states exactly where the two differ). The loop as written is `Ranges.RangeCellsAsWritten`.
- EvaluateSumFunction: `Tables.TableEntity.EvaluateSumFunction` and `Evaluation.SumValue` sum over the corrected range listing, so `=SUM(A2147483647:A2147483647)` gives the cell's value where the source shows `#ERROR: ` with the row error.
- EvaluateAvgFunction: `Tables.TableEntity.EvaluateAvgFunction` and `Evaluation.AvgValue` average over the corrected range listing, with the same difference at row 2147483647.
- EvaluateCountFunction: `Tables.TableEntity.EvaluateCountFunction` and `Evaluation.CountValue` count over the corrected range listing, with the same difference at row 2147483647.
- `JsonTemplateDemo`, the demos and the exception classes other than their messages are not part of this model.

## Findings

| source | as written | input that shows it | evidently intended | confidence | as-written member | corrected member |
|---|---|---|---|---|---|---|
| src/Domain/Entities/TableEntity.cs:197-200 | `for (int row = startRow; row <= endRow; row++)` on a 32-bit `int`: after row 2147483647 the increment wraps to `int.MinValue`, and `new RowId` throws | `SUM(A2147483646:A2147483647)` | list the cells of every row from the smaller to the larger end | not executed | Ranges.LastRowRange | Ranges.RangeCells |
| src/Domain/Types/ColumnId.cs:23 | guard `'A' < upper && upper > 'Z'` only rejects characters above 'Z' | `new ColumnId('1')` yields column '1' | accept exactly the letters 'A'..'Z' after upper-casing | not executed | ColumnIds.FromCharAcceptsDigit | ColumnIds.FromLetter |
