/** The optional value used for the .NET `TryParse` pattern. */
module Wrappers {
  datatype Option<+T> = None | Some(value: T)
}

/**
 * C# `int` as an explicit 32-bit type, its unchecked wrap-around, and the
 * decimal text of integers and of the simple number syntax that the model
 * uses for `int.TryParse` / `decimal.TryParse`:
 *   integer  ::= [sign] digit+
 *   decimal  ::= [sign] digit+ [ '.' digit+ ]
 */
module Numbers {
  import opened Wrappers
  import opened Text

  newtype int32 = x: int | -0x8000_0000 <= x < 0x8000_0000

  const INT32_MIN: int := -0x8000_0000
  const INT32_MAX: int := 0x7FFF_FFFF

  predicate InInt32(x: int) {
    INT32_MIN <= x <= INT32_MAX
  }

  /** The result of an unchecked (wrapping) C# `int` operation whose exact value is `x`. */
  function Wrap32(x: int): (r: int32)
    ensures InInt32(x) ==> r as int == x
    ensures (r as int - x) % 0x1_0000_0000 == 0
  {
    ((x - INT32_MIN) % 0x1_0000_0000 + INT32_MIN) as int32
  }

  predicate IsDigit(c: char) {
    '0' <= c <= '9'
  }

  /** One or more decimal digits. */
  predicate IsDigits(s: string) {
    |s| > 0 && forall i :: 0 <= i < |s| ==> IsDigit(s[i])
  }

  function DigitValue(c: char): (d: nat)
    requires IsDigit(c)
    ensures d < 10
  {
    c as int - '0' as int
  }

  function DigitChar(d: nat): (c: char)
    requires d < 10
    ensures IsDigit(c) && DigitValue(c) == d
  {
    ('0' as int + d) as char
  }

  /** The value of a string of digits (0 for the empty string). */
  function DigitsValue(s: string): nat
    requires forall i :: 0 <= i < |s| ==> IsDigit(s[i])
    decreases |s|
  {
    if s == [] then 0 else DigitsValue(s[..|s| - 1]) * 10 + DigitValue(s[|s| - 1])
  }

  /** Decimal text of a natural number, without leading zeros. */
  function NatToString(n: nat): (s: string)
    ensures IsDigits(s)
    ensures s[0] == '0' ==> n == 0 && s == "0"
  {
    if n < 10 then [DigitChar(n)]
    else
      var s := NatToString(n / 10) + [DigitChar(n % 10)];
      assert s[0] == NatToString(n / 10)[0];
      s
  }

  /** `int.ToString()` in the invariant culture. */
  function IntToString(i: int): (s: string)
    ensures |s| > 0
  {
    if i < 0 then "-" + NatToString(-i) else NatToString(i)
  }

  /** `x` divided by ten, `n` times: the value of `x` written with `n` digits after the point. */
  function Tenths(x: real, n: nat): real
    decreases n
  {
    if n == 0 then x else Tenths(x / 10.0, n - 1)
  }

  /** Reading back the text of `n` gives `n`. */
  lemma {:induction false} NatToStringValue(n: nat)
    ensures DigitsValue(NatToString(n)) == n
  {
    if n >= 10 {
      var s := NatToString(n);
      assert s[..|s| - 1] == NatToString(n / 10);
      NatToStringValue(n / 10);
    }
  }

  lemma {:induction false} LeadingDigitPositive(s: string)
    requires IsDigits(s) && s[0] != '0'
    ensures DigitsValue(s) > 0
  {
    if |s| > 1 {
      var front := s[..|s| - 1];
      assert front[0] == s[0];
      LeadingDigitPositive(front);
    }
  }

  /** Printing the value of a digit string without leading zeros gives the string back. */
  lemma {:induction false} DigitsRoundTrip(s: string)
    requires IsDigits(s) && (s[0] != '0' || |s| == 1)
    ensures NatToString(DigitsValue(s)) == s
  {
    if |s| > 1 {
      var front := s[..|s| - 1];
      var last := s[|s| - 1];
      assert front[0] == s[0];
      LeadingDigitPositive(front);
      DigitsRoundTrip(front);
      var q, d := DigitsValue(front), DigitValue(last);
      var n := DigitsValue(s);
      assert n == q * 10 + d;
      LastDecimalDigit(q, d);
      assert n >= 10;
      assert NatToString(n) == NatToString(q) + [DigitChar(d)];
      assert DigitChar(d) == last;
      assert s == front + [last];
    }
  }

  lemma LastDecimalDigit(q: nat, d: nat)
    requires d < 10
    ensures (q * 10 + d) / 10 == q && (q * 10 + d) % 10 == d
  {
  }

  predicate IsSign(c: char) {
    c == '+' || c == '-'
  }

  /** `[sign] digit+`, as an unbounded integer. */
  function ParseInteger(s: string): (r: Option<int>)
    ensures IsDigits(s) ==> r == Some(DigitsValue(s))
  {
    if |s| > 0 && IsSign(s[0]) then
      var body := s[1..];
      if IsDigits(body) then
        var v: int := DigitsValue(body);
        Some(if s[0] == '-' then -v else v)
      else None
    else if IsDigits(s) then Some(DigitsValue(s))
    else None
  }

  /** `int.TryParse`: an integer that fits in 32 bits. */
  function ParseInt32(s: string): (r: Option<int32>)
    ensures r.Some? <==> ParseInteger(s).Some? && InInt32(ParseInteger(s).value)
    ensures r.Some? ==> r.value as int == ParseInteger(s).value
  {
    match ParseInteger(s)
    case Some(n) => if InInt32(n) then Some(n as int32) else None
    case None => None
  }

  function UnsignedDecimal(s: string): Option<real> {
    var k := IndexOf(s, '.');
    if k == -1 then
      if IsDigits(s) then Some(DigitsValue(s) as real) else None
    else
      var whole, fraction := s[..k], s[k + 1..];
      if IsDigits(whole) && IsDigits(fraction) then
        Some(DigitsValue(whole) as real + Tenths(DigitsValue(fraction) as real, |fraction|))
      else None
  }

  /** `decimal.TryParse`, restricted to `[sign] digit+ [ '.' digit+ ]` and read exactly. */
  function ParseDecimal(s: string): Option<real> {
    if |s| > 0 && IsSign(s[0]) then
      match UnsignedDecimal(s[1..])
      case Some(v) => Some(if s[0] == '-' then -v else v)
      case None => None
    else UnsignedDecimal(s)
  }

  /** Whatever reads as an integer reads as the same decimal. */
  lemma ParseDecimalInteger(s: string)
    requires ParseInteger(s).Some?
    ensures ParseDecimal(s) == Some(ParseInteger(s).value as real)
  {
    if |s| > 0 && IsSign(s[0]) {
      IndexOfFirst(s[1..], '.');
    } else {
      IndexOfFirst(s, '.');
    }
  }

  /** Parsing the invariant-culture text of a 32-bit integer gives it back. */
  lemma IntToStringParses(i: int32)
    ensures ParseInt32(IntToString(i as int)) == Some(i)
  {
    var n := i as int;
    var s := IntToString(n);
    if n < 0 {
      assert s[0] == '-' && s[1..] == NatToString(-n);
      NatToStringValue(-n);
      assert ParseInteger(s) == Some(n);
    } else {
      NatToStringValue(n);
      assert !IsSign(s[0]);
      assert ParseInteger(s) == Some(n);
    }
  }
}
