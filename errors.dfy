/**
 * The exceptions the core raises, with the message each one carries, and the
 * result type used by every operation that can throw.
 */
module Errors {
  import opened Numbers

  datatype Error =
    | InvalidTableName(name: string)
    | RowIdOutOfRange(row: int)
    | ColumnIdOutOfRange(column: int)
    | ColumnCharOutOfRange(letter: char)
    | CoordinateSource(source: string)
    | InvalidFunctionValue(value: string)
    | UnknownFunction(functionName: string)
    | InvalidFunctionSyntax(expression: string)
    | InvalidRangeFormat(range: string)
    | UnsupportedComplexRange(range: string)
    | InsufficientOperands(operator: string)
    | InvalidExpression
    | InvalidNumberToken(token: string)
    | UnknownOperator(operator: string)
      /** `InvalidOperationException` raised by the value arithmetic. */
    | InvalidOperation(message: string)
      /** `OverflowException` of `checked` 32-bit arithmetic. */
    | Overflow
      /** `OverflowException` of `Convert.ToInt32` on a digit string that is too long. */
    | Int32Overflow
    | DivideByZero

  /** `Exception.Message` of each error. */
  function Message(e: Error): string {
    match e
    case InvalidTableName(name) =>
      "The table name '" + name + "' is not valid - it cannot be null, empty, or contain only whitespace characters"
    case RowIdOutOfRange(row) => "The '" + IntToString(row) + "' is out of range"
    case ColumnIdOutOfRange(column) => "The '" + IntToString(column) + "' is out of range"
    case ColumnCharOutOfRange(letter) => "The '" + [letter] + "' is out of range"
    case CoordinateSource(source) => "The '" + source + "' is not correct"
    case InvalidFunctionValue(value) =>
      "The function value '" + value + "' is not valid - it cannot be null, empty, or contain only whitespace characters"
    case UnknownFunction(functionName) =>
      "Unknown function: '" + functionName + "'. Supported functions are: SUM, AVG, COUNT"
    case InvalidFunctionSyntax(expression) =>
      "Invalid function syntax: '" + expression + "'. Functions must have matching parentheses and valid structure"
    case InvalidRangeFormat(range) =>
      "Invalid range format: '" + range + "'. Expected format is 'A1:A3' or single cell reference like 'A1'"
    case UnsupportedComplexRange(range) =>
      "Complex ranges not yet supported: '" + range + "'. Currently only single column ranges like 'A1:A3' are supported"
    case InsufficientOperands(operator) =>
      "Insufficient operands for operator '" + operator + "'. Binary operators require two operands"
    case InvalidExpression =>
      "Invalid expression: The formula could not be evaluated. Check for balanced parentheses and proper syntax"
    case InvalidNumberToken(token) =>
      "Invalid number token: '" + token + "'. Expected a valid integer, decimal, or percentage value"
    case UnknownOperator(operator) =>
      "Unknown operator: '" + operator + "'. Supported operators are: +, -, *, /"
    case InvalidOperation(message) => message
    case Overflow => "Arithmetic operation resulted in an overflow."
    case Int32Overflow => "Value was either too large or too small for an Int32."
    case DivideByZero => "Attempted to divide by zero."
  }

  /** The outcome of an operation that either returns a value or throws. */
  datatype Result<+T> = Ok(value: T) | Err(error: Error)
}
