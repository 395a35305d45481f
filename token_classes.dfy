/**
 * The classes of formula tokens that `TableEntity` distinguishes: cell
 * references, numbers, percentages, the four operators and their
 * precedence. The two patterns are read by small automata, one character
 * at a time, and lemmas relate each automaton to the pattern it stands for.
 */
module TokenClasses {
  import opened Wrappers
  import opened Text
  import opened Numbers
  import Coordinates

  /** Where a scan of `^[A-Z]+\d+$` stands. */
  datatype ReferenceState = NoLetter | Letters | Digits

  function ReferenceNext(q: ReferenceState, c: char): Option<ReferenceState> {
    match q
    case NoLetter => if IsAsciiUpper(c) then Some(Letters) else None
    case Letters => if IsAsciiUpper(c) then Some(Letters) else if IsDigit(c) then Some(Digits) else None
    case Digits => if IsDigit(c) then Some(Digits) else None
  }

  /** The rest `s` completes a match from state `q`; `$` also matches before a final line feed. */
  predicate ReferenceFrom(s: string, q: ReferenceState)
    decreases |s|
  {
    if s == [] then q == Digits
    else if q == Digits && s == "\n" then true
    else
      match ReferenceNext(q, s[0])
      case None => false
      case Some(next) => ReferenceFrom(s[1..], next)
  }

  /** `IsCellReference`: the case-sensitive anchored pattern `^[A-Z]+\d+$`. */
  predicate IsCellReference(token: string) {
    ReferenceFrom(token, NoLetter)
  }

  /** Number of ASCII upper-case letters at the start of `s`. */
  function UpperRun(s: string): (n: nat)
    ensures n <= |s|
    ensures forall i :: 0 <= i < n ==> IsAsciiUpper(s[i])
    ensures n < |s| ==> !IsAsciiUpper(s[n])
  {
    if s == [] || !IsAsciiUpper(s[0]) then 0 else 1 + UpperRun(s[1..])
  }

  predicate AllDigits(s: string) {
    forall i :: 0 <= i < |s| ==> IsDigit(s[i])
  }

  /** The pattern read as "some letters, then some digits", split at `k`. */
  predicate LettersThenDigits(b: string, k: nat) {
    0 < k <= |b| && (forall i :: 0 <= i < k ==> IsAsciiUpper(b[i])) && IsDigits(b[k..])
  }

  /** Dropping the first character commutes with dropping a final line feed. */
  lemma UnterminatedTail(u: string)
    requires u != [] && u != "\n"
    ensures var b := Coordinates.Unterminated(u);
      b != [] && b[0] == u[0] && b[1..] == Coordinates.Unterminated(u[1..])
  {
    if |u| >= 2 && u[|u| - 1] == '\n' {
      assert u[1..][..|u| - 2] == u[..|u| - 1][1..];
    }
  }

  lemma {:induction false} DigitsFrom(u: string)
    ensures ReferenceFrom(u, Digits) <==> AllDigits(Coordinates.Unterminated(u))
    decreases |u|
  {
    if u != [] && u != "\n" {
      UnterminatedTail(u);
      DigitsFrom(u[1..]);
      var b := Coordinates.Unterminated(u);
      assert b == [b[0]] + b[1..];
    }
  }

  /** A leading upper-case letter belongs to the run: the rest after the run is the same. */
  lemma UpperRunTail(b: string)
    requires b != [] && IsAsciiUpper(b[0])
    ensures UpperRun(b) == 1 + UpperRun(b[1..])
    ensures b[UpperRun(b)..] == b[1..][UpperRun(b[1..])..]
  {
  }

  lemma {:induction false} LettersFrom(u: string)
    ensures ReferenceFrom(u, Letters) <==>
      var b := Coordinates.Unterminated(u);
      IsDigits(b[UpperRun(b)..])
    decreases |u|
  {
    if u != [] && u != "\n" {
      UnterminatedTail(u);
      var b := Coordinates.Unterminated(u);
      if IsAsciiUpper(u[0]) {
        LettersFrom(u[1..]);
        UpperRunTail(b);
      } else if IsDigit(u[0]) {
        DigitsFrom(u[1..]);
        assert b == [b[0]] + b[1..];
      }
    } else {
      assert Coordinates.Unterminated(u) == [];
    }
  }

  /** The automaton accepts exactly the anchored pattern: maximal letters, then digits. */
  lemma CellReferencePattern(token: string)
    ensures IsCellReference(token) <==>
      var b := Coordinates.Unterminated(token);
      UpperRun(b) > 0 && IsDigits(b[UpperRun(b)..])
  {
    if token != [] && token != "\n" {
      UnterminatedTail(token);
      LettersFrom(token[1..]);
      var b := Coordinates.Unterminated(token);
      if IsAsciiUpper(token[0]) {
        var n, m := UpperRun(b), UpperRun(b[1..]);
        assert n == 1 + m;
        assert b[n..] == b[1..][m..];
        assert IsCellReference(token) == ReferenceFrom(token[1..], Letters);
      } else {
        assert ReferenceNext(NoLetter, token[0]) == None;
        assert UpperRun(b) == 0;
      }
    } else {
      assert Coordinates.Unterminated(token) == [];
    }
  }

  lemma {:induction false} UpperRunAt(b: string, k: nat)
    requires LettersThenDigits(b, k)
    ensures UpperRun(b) == k
  {
    if k > 1 {
      assert b[1..][k - 1..] == b[k..];
      UpperRunAt(b[1..], k - 1);
    } else {
      assert b[1..][0] == b[k..][0];
    }
  }

  /** A token is a cell reference exactly when it splits into letters, then digits. */
  lemma CellReferenceSplit(token: string, k: nat)
    ensures LettersThenDigits(Coordinates.Unterminated(token), k) ==> IsCellReference(token)
    ensures IsCellReference(token) ==>
      LettersThenDigits(Coordinates.Unterminated(token), UpperRun(Coordinates.Unterminated(token)))
  {
    CellReferencePattern(token);
    var b := Coordinates.Unterminated(token);
    if LettersThenDigits(b, k) {
      UpperRunAt(b, k);
    }
  }

  /** Every coordinate text with an upper-case column is a cell reference. */
  lemma CoordinateTextIsReference(token: string)
    requires Coordinates.Matches(token) && IsAsciiUpper(Coordinates.Unterminated(token)[0])
    ensures IsCellReference(token)
  {
    CellReferenceSplit(token, 1);
  }

  /** Where a scan of `[sign] digit+ [ '.' digit+ ]` stands. */
  datatype NumberState = Start | Signed | Whole | Point | Fraction

  function NumberNext(q: NumberState, c: char): Option<NumberState> {
    match q
    case Start => if IsSign(c) then Some(Signed) else if IsDigit(c) then Some(Whole) else None
    case Signed => if IsDigit(c) then Some(Whole) else None
    case Whole => if IsDigit(c) then Some(Whole) else if c == '.' then Some(Point) else None
    case Point => if IsDigit(c) then Some(Fraction) else None
    case Fraction => if IsDigit(c) then Some(Fraction) else None
  }

  /** The rest `s` completes a number from state `q`. */
  predicate NumberFrom(s: string, q: NumberState)
    decreases |s|
  {
    if s == [] then q == Whole || q == Fraction
    else
      match NumberNext(q, s[0])
      case None => false
      case Some(next) => NumberFrom(s[1..], next)
  }

  /** `IsNumber`: `decimal.TryParse` succeeds (see `NumberSyntax`). */
  predicate IsNumber(token: string) {
    NumberFrom(token, Start)
  }

  lemma {:induction false} FractionDigits(u: string)
    ensures NumberFrom(u, Fraction) <==> AllDigits(u)
    ensures NumberFrom(u, Point) <==> IsDigits(u)
    decreases |u|
  {
    if u != [] {
      FractionDigits(u[1..]);
    }
  }

  /** After the first digit: more digits, optionally a point and at least one more digit. */
  lemma {:induction false} WholeDigits(u: string)
    ensures NumberFrom(u, Whole) <==>
      var k := IndexOf(u, '.');
      if k == -1 then AllDigits(u) else AllDigits(u[..k]) && IsDigits(u[k + 1..])
    decreases |u|
  {
    if u != [] {
      var k := IndexOf(u, '.');
      if u[0] == '.' {
        assert NumberFrom(u, Whole) == NumberFrom(u[1..], Point);
        FractionDigits(u[1..]);
      } else if !IsDigit(u[0]) {
        assert !NumberFrom(u, Whole);
      } else {
        assert NumberFrom(u, Whole) == NumberFrom(u[1..], Whole);
        WholeDigits(u[1..]);
        var j := IndexOf(u[1..], '.');
        assert k == (if j == -1 then -1 else j + 1);
        if j != -1 {
          assert u[..k] == [u[0]] + u[1..][..j];
          assert u[k + 1..] == u[1..][j + 1..];
        }
        assert u == [u[0]] + u[1..];
      }
    }
  }

  /** Without a sign: a digit, then what `WholeDigits` describes. */
  lemma UnsignedSyntax(v: string)
    ensures UnsignedDecimal(v).Some? <==> v != [] && IsDigit(v[0]) && NumberFrom(v[1..], Whole)
  {
    if v != [] {
      WholeDigits(v[1..]);
      var k := IndexOf(v, '.');
      var j := IndexOf(v[1..], '.');
      if v[0] == '.' {
        assert k == 0;
      } else {
        assert k == (if j == -1 then -1 else j + 1);
        if j != -1 {
          assert v[..k] == [v[0]] + v[1..][..j];
          assert v[k + 1..] == v[1..][j + 1..];
        }
        assert v == [v[0]] + v[1..];
      }
    } else {
      assert IndexOf(v, '.') == -1;
    }
  }

  /** The scan accepts exactly what `ParseDecimal` reads. */
  lemma NumberSyntax(s: string)
    ensures IsNumber(s) <==> ParseDecimal(s).Some?
  {
    if s != [] {
      UnsignedSyntax(s);
      UnsignedSyntax(s[1..]);
      var rest := s[1..];
      assert IsNumber(s) == ((IsSign(s[0]) && NumberFrom(rest, Signed)) || (IsDigit(s[0]) && NumberFrom(rest, Whole)));
      assert NumberFrom(rest, Signed) == (rest != [] && IsDigit(rest[0]) && NumberFrom(rest[1..], Whole));
    }
  }

  /** `IsPercentage`: a number followed by `%`. */
  predicate IsPercentage(token: string) {
    EndsWithChar(token, '%') && IsNumber(token[..|token| - 1])
  }

  /** The value of a percentage token is the number before `%`, so 50% has value 50. */
  function PercentageValue(token: string): (r: Option<real>)
    ensures r.Some? <==> IsPercentage(token)
  {
    if EndsWithChar(token, '%') then
      NumberSyntax(token[..|token| - 1]);
      ParseDecimal(token[..|token| - 1])
    else None
  }

  predicate IsOperator(token: string) {
    token == "+" || token == "-" || token == "*" || token == "/"
  }

  /** `GetPrecedence`: 2 for `*` and `/`, 1 for `+` and `-`, 0 otherwise. */
  function Precedence(token: string): (p: int)
    ensures 0 <= p <= 2
    ensures p > 0 <==> IsOperator(token)
    ensures IsOperator(token) ==> (p == 2 <==> token == "*" || token == "/")
  {
    if token == "+" || token == "-" then 1
    else if token == "*" || token == "/" then 2
    else 0
  }

  /** Of two operators, one binds tighter exactly when it multiplies or divides and the other adds or subtracts. */
  lemma PrecedenceOrder(a: string, b: string)
    requires IsOperator(a) && IsOperator(b)
    ensures Precedence(a) > Precedence(b) <==> (a == "*" || a == "/") && (b == "+" || b == "-")
  {
  }

  /** A token that the converter copies straight to its output. */
  predicate IsOperand(token: string) {
    IsCellReference(token) || IsNumber(token) || IsPercentage(token)
  }

  /** A one-character token that is no letter, digit or `%` is not an operand. */
  lemma SingleCharNotOperand(c: char)
    requires !IsAsciiUpper(c) && !IsDigit(c) && c != '%'
    ensures !IsOperand([c])
  {
    var t := [c];
    assert t[1..] == [];
    assert ReferenceNext(NoLetter, c) == None;
    assert !IsCellReference(t);
    assert !NumberFrom([], Signed) && !NumberFrom([], Start);
    assert !IsNumber(t);
    assert !EndsWithChar(t, '%');
  }

  /** No operator and no parenthesis is an operand. */
  lemma PunctuationIsNotOperand(token: string)
    requires IsOperator(token) || token == "(" || token == ")"
    ensures !IsOperand(token)
  {
    assert token == [token[0]];
    SingleCharNotOperand(token[0]);
  }
}
