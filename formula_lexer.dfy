/**
 * Splitting a formula into tokens (`TokenizeExpression`): white space
 * separates tokens, each of `+ - * / ( )` is a token of its own, and every
 * other run of characters is one word token.
 */
module Lexer {
  import opened Text

  /** The characters that always form a token of their own. */
  predicate IsSymbol(c: char) {
    c == '+' || c == '-' || c == '*' || c == '/' || c == '(' || c == ')'
  }

  /** Characters that extend a word token. */
  predicate IsWordChar(c: char) {
    !IsWhiteSpace(c) && !IsSymbol(c)
  }

  predicate IsWord(t: string) {
    |t| > 0 && forall i :: 0 <= i < |t| ==> IsWordChar(t[i])
  }

  /** What the tokenizer can produce: one symbol, or a word. */
  predicate IsLexeme(t: string) {
    (|t| == 1 && IsSymbol(t[0])) || IsWord(t)
  }

  /** Length of the word that starts `s`. */
  function WordLength(s: string): (n: nat)
    ensures n <= |s|
  {
    if s == [] || !IsWordChar(s[0]) then 0 else 1 + WordLength(s[1..])
  }

  lemma {:induction false} WordLengthSpec(s: string)
    ensures forall i :: 0 <= i < WordLength(s) ==> IsWordChar(s[i])
    ensures WordLength(s) < |s| ==> !IsWordChar(s[WordLength(s)])
  {
    if s != [] && IsWordChar(s[0]) {
      WordLengthSpec(s[1..]);
    }
  }

  /** Reference tokenization: longest words first, white space dropped. */
  function Lex(s: string): seq<string>
    decreases |s|
  {
    if s == [] then []
    else if IsWhiteSpace(s[0]) then Lex(s[1..])
    else if IsSymbol(s[0]) then [[s[0]]] + Lex(s[1..])
    else
      var n := WordLength(s);
      [s[..n]] + Lex(s[n..])
  }

  /** Tokenization of `rest` when the word `current` is still being read. */
  function LexFrom(current: string, rest: string): seq<string> {
    if current == [] then Lex(rest)
    else
      var n := WordLength(rest);
      [current + rest[..n]] + Lex(rest[n..])
  }

  /** The pending word as a list of at most one token. */
  function Pending(current: string): (r: seq<string>)
    ensures |r| <= 1
  {
    if current == [] then [] else [current]
  }

  /** A separator ends the pending word; a symbol is then a token of its own. */
  lemma LexFromSeparator(tokens: seq<string>, current: string, rest: string)
    requires rest != [] && !IsWordChar(rest[0])
    ensures tokens + LexFrom(current, rest) ==
      (tokens + Pending(current) + (if IsSymbol(rest[0]) then [[rest[0]]] else [])) + Lex(rest[1..])
  {
    assert WordLength(rest) == 0;
    if current != [] {
      assert rest[..0] == [] && rest[0..] == rest;
      assert current + rest[..0] == current;
    }
  }

  /** A word character extends the pending word. */
  lemma LexFromWordChar(current: string, rest: string)
    requires rest != [] && IsWordChar(rest[0])
    ensures LexFrom(current, rest) == LexFrom(current + [rest[0]], rest[1..])
  {
    var n := WordLength(rest);
    var m := WordLength(rest[1..]);
    assert n == 1 + m;
    assert rest[..n] == [rest[0]] + rest[1..][..m];
    assert rest[n..] == rest[1..][m..];
    var next := LexFrom(current + [rest[0]], rest[1..]);
    assert next == [(current + [rest[0]]) + rest[1..][..m]] + Lex(rest[1..][m..]);
    if current == [] {
      assert !IsWhiteSpace(rest[0]) && !IsSymbol(rest[0]);
      assert Lex(rest) == [rest[..n]] + Lex(rest[n..]);
      assert current + [rest[0]] == [rest[0]];
    } else {
      assert current + rest[..n] == (current + [rest[0]]) + rest[1..][..m];
    }
  }

  /** `TokenizeExpression`: the tokens of `expression`, in order. */
  method TokenizeExpression(expression: string) returns (tokens: seq<string>)
    ensures tokens == Lex(expression)
  {
    tokens := [];
    var current := "";
    for i := 0 to |expression|
      invariant tokens + LexFrom(current, expression[i..]) == Lex(expression)
    {
      var c := expression[i];
      ghost var rest, before, pending := expression[i..], tokens, current;
      assert rest[0] == c && rest[1..] == expression[i + 1..];
      if IsWhiteSpace(c) {
        if current != "" {
          tokens := tokens + [current];
          current := "";
        }
        LexFromSeparator(before, pending, rest);
        assert tokens == before + Pending(pending) + [];
      } else if IsSymbol(c) {
        if current != "" {
          tokens := tokens + [current];
          current := "";
        }
        tokens := tokens + [[c]];
        LexFromSeparator(before, pending, rest);
        assert tokens == before + Pending(pending) + [[c]];
      } else {
        LexFromWordChar(current, rest);
        current := current + [c];
      }
    }
    assert expression[|expression|..] == [];
    assert LexFrom(current, []) == Pending(current) by {
      var empty: string := [];
      assert empty[..0] == empty && current + empty == current;
    }
    if current != "" {
      tokens := tokens + [current];
    }
  }

  /** Every token is a single symbol or a non-empty word. */
  lemma {:induction false} LexLexemes(s: string)
    ensures forall k :: 0 <= k < |Lex(s)| ==> IsLexeme(Lex(s)[k])
    decreases |s|
  {
    if s != [] {
      if IsWhiteSpace(s[0]) || IsSymbol(s[0]) {
        LexLexemes(s[1..]);
      } else {
        var n := WordLength(s);
        WordLengthSpec(s);
        assert IsWord(s[..n]);
        LexLexemes(s[n..]);
      }
    }
  }

  /** The characters that are not white space, in order. */
  function NonWhite(s: string): string {
    if s == [] then [] else (if IsWhiteSpace(s[0]) then [] else [s[0]]) + NonWhite(s[1..])
  }

  lemma {:induction false} NonWhiteAppend(a: string, b: string)
    ensures NonWhite(a + b) == NonWhite(a) + NonWhite(b)
  {
    if a == [] {
      assert a + b == b;
    } else {
      assert (a + b)[1..] == a[1..] + b;
      NonWhiteAppend(a[1..], b);
    }
  }

  lemma {:induction false} NonWhiteWord(w: string)
    requires forall i :: 0 <= i < |w| ==> IsWordChar(w[i])
    ensures NonWhite(w) == w
  {
    if w != [] {
      NonWhiteWord(w[1..]);
    }
  }

  /** Tokenizing loses nothing but white space. */
  lemma {:induction false} LexConcat(s: string)
    ensures Concat(Lex(s)) == NonWhite(s)
    decreases |s|
  {
    if s != [] {
      if IsWhiteSpace(s[0]) || IsSymbol(s[0]) {
        LexConcat(s[1..]);
      } else {
        var n := WordLength(s);
        WordLengthSpec(s);
        LexConcat(s[n..]);
        assert s == s[..n] + s[n..];
        NonWhiteAppend(s[..n], s[n..]);
        NonWhiteWord(s[..n]);
      }
    }
  }

  /** The tokens written out with a space after each. */
  function Unwords(ts: seq<string>): string {
    if ts == [] then "" else ts[0] + " " + Unwords(ts[1..])
  }

  lemma WordThenSpace(w: string, rest: string)
    requires IsWord(w)
    ensures WordLength(w + " " + rest) == |w|
    decreases |w|
  {
    var s := w + " " + rest;
    if |w| > 1 {
      assert s[1..] == w[1..] + " " + rest;
      WordThenSpace(w[1..], rest);
    } else {
      assert s[1..] == " " + rest;
    }
  }

  /** Tokenizing written-out tokens gives them back. */
  lemma {:induction false} LexUnwords(ts: seq<string>)
    requires forall k :: 0 <= k < |ts| ==> IsLexeme(ts[k])
    ensures Lex(Unwords(ts)) == ts
  {
    if ts != [] {
      var t := ts[0];
      var rest := Unwords(ts[1..]);
      var s := t + " " + rest;
      LexUnwords(ts[1..]);
      assert s[0] == t[0];
      assert Lex(" " + rest) == Lex(rest) by {
        assert (" " + rest)[1..] == rest;
      }
      if IsWord(t) {
        WordThenSpace(t, rest);
        assert s[..|t|] == t;
        assert s[|t|..] == " " + rest;
        assert IsWordChar(s[0]);
        assert Lex(s) == [t] + Lex(" " + rest);
      } else {
        assert s[1..] == " " + rest;
        assert [s[0]] == t;
        assert Lex(s) == [t] + Lex(" " + rest);
      }
      assert ts == [t] + ts[1..];
    }
  }

  /** A word on its own is one token. */
  lemma LexWord(w: string)
    requires IsWord(w)
    ensures Lex(w) == [w]
  {
    WordLengthSpec(w);
    assert WordLength(w) == |w|;
    assert w[..|w|] == w && w[|w|..] == [];
  }
}
