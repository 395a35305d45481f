/**
 * A spreadsheet function value such as `SUM(A1:A3)`: its text, the type its
 * result is formatted as, the validation done on construction, and the
 * accessors that take it apart.
 */
module Functions {
  import opened Wrappers
  import opened Text
  import opened Errors

  /** The `System.Type` a function's result is formatted as; `NoType` stands for `null`. */
  datatype TypeRef = NoType | IntType | DecimalType | StringType | OtherType(name: string)

  datatype Function = Function(value: string, format: TypeRef)

  /** The names accepted on construction. */
  const ValidNames: set<string> := {"SUM", "AVG", "AVERAGE", "COUNT", "MIN", "MAX", "CONCAT"}

  /** The upper-cased text before the first '(' (all of it when there is none). */
  function HeadName(expression: string): string {
    var open := IndexOf(expression, '(');
    if open >= 0 then Upper(expression[..open]) else Upper(expression)
  }

  /** The inner message of the exception for a value written with a leading '='. */
  function EqualsPrefixText(trimmed: string): string
    requires |trimmed| > 0
  {
    "Function value should not start with '='. Use '" + trimmed[1..] + "' instead of '" + trimmed + "'."
  }

  /** `ValidateFunction`: `None` when the value is accepted, otherwise the exception it throws. */
  function Validate(value: string): (r: Option<Error>)
    ensures r == None <==> !IsBlank(value) && Trim(value)[0] != '=' && HeadName(Trim(value)) in ValidNames
    ensures IsBlank(value) ==> r == Some(InvalidFunctionValue(value))
    ensures !IsBlank(value) && Trim(value)[0] == '=' ==> r == Some(InvalidFunctionValue(EqualsPrefixText(Trim(value))))
    ensures r.Some? && !IsBlank(value) && Trim(value)[0] != '=' ==> r == Some(UnknownFunction(value))
  {
    if IsBlank(value) then Some(InvalidFunctionValue(value))
    else
      var trimmed := Trim(value);
      if trimmed[0] == '=' then Some(InvalidFunctionValue(EqualsPrefixText(trimmed)))
      else if HeadName(trimmed) !in ValidNames then Some(UnknownFunction(value))
      else None
  }

  /** A function that construction accepted. */
  predicate WellFormed(f: Function) {
    Validate(f.value) == None && f.format != NoType
  }

  /** `new Function(value, format)`: a missing format means `decimal`. */
  function New(value: string, format: TypeRef): (r: Result<Function>)
    ensures r.Ok? <==> Validate(value) == None
    ensures r.Ok? ==> WellFormed(r.value) && r.value.value == value
    ensures r.Ok? ==> r.value.format == (if format == NoType then DecimalType else format)
    ensures r.Err? ==> Some(r.error) == Validate(value)
  {
    match Validate(value)
    case Some(e) => Err(e)
    case None => Ok(Function(value, if format == NoType then DecimalType else format))
  }

  /** `ToString`: the text of the function, which construction accepts again as the same function. */
  function ToString(f: Function): (s: string)
    ensures WellFormed(f) ==> New(s, f.format) == Ok(f)
  {
    f.value
  }

  /** `GetFunctionName`: the upper-cased name before the first '(' of the trimmed text. */
  function GetFunctionName(f: Function): (name: string)
    ensures WellFormed(f) ==> name in ValidNames
  {
    HeadName(Trim(f.value))
  }

  /**
   * `GetArguments`: the text between the first '(' and the last ')' of the
   * trimmed value (`IndexOf(t, '(') == -1` is `Contains('(')` failing, by `IndexOfFirst`).
   */
  function GetArguments(f: Function): (r: Result<string>)
    ensures IndexOf(Trim(f.value), '(') == -1 ==> r == Ok("")
    ensures r.Err? <==> 0 <= IndexOf(Trim(f.value), '(') && LastIndexOf(Trim(f.value), ')') <= IndexOf(Trim(f.value), '(')
    ensures r.Err? ==> r.error == InvalidFunctionSyntax(Trim(f.value))
    ensures r.Ok? && IndexOf(Trim(f.value), '(') >= 0 ==>
      var t := Trim(f.value);
      IndexOf(t, '(') < LastIndexOf(t, ')') && r.value == t[IndexOf(t, '(') + 1..LastIndexOf(t, ')')]
  {
    var t := Trim(f.value);
    var open := IndexOf(t, '(');
    if open == -1 then Ok("")
    else
      var close := LastIndexOf(t, ')');
      if close == -1 || close <= open then Err(InvalidFunctionSyntax(t))
      else
        Ok(t[open + 1..close])
  }

  /** `HasArguments`: the untrimmed text holds both parentheses. */
  predicate HasArguments(f: Function) {
    '(' in f.value && ')' in f.value
  }

  /**
   * `HasArguments` finds both parentheses exactly when `IndexOf` and
   * `LastIndexOf` do, and trimming removes neither, so it holds exactly when
   * the trimmed text that `GetArguments` reads holds both as well.
   */
  lemma HasArgumentsTrimmed(f: Function)
    ensures HasArguments(f) <==> IndexOf(f.value, '(') >= 0 && LastIndexOf(f.value, ')') >= 0
    ensures HasArguments(f) <==> Count(Trim(f.value), '(') > 0 && Count(Trim(f.value), ')') > 0
  {
    IndexOfFirst(f.value, '(');
    LastIndexOfLast(f.value, ')');
    TrimCount(f.value, '(');
    TrimCount(f.value, ')');
    CountZero(f.value, '(');
    CountZero(f.value, ')');
  }

  /** `IsNestedFunction`: the arguments themselves hold parentheses. */
  function IsNestedFunction(f: Function): (r: Result<bool>)
    ensures r.Err? <==> GetArguments(f).Err?
    ensures r.Ok? ==> (r.value <==> '(' in GetArguments(f).value && ')' in GetArguments(f).value)
  {
    match GetArguments(f)
    case Err(e) => Err(e)
    case Ok(args) => Ok(!IsBlank(args) && '(' in args && ')' in args)
  }

  /** Where the parts of the text `name(arguments)` lie. */
  lemma CallShape(name: string, arguments: string)
    requires |name| > 0 && !IsWhiteSpace(name[0]) && '(' !in name
    ensures var s := name + "(" + arguments + ")";
      && Trim(s) == s && s[0] == name[0]
      && IndexOf(s, '(') == |name| && s[..|name|] == name
      && LastIndexOf(s, ')') == |s| - 1 && s[|name| + 1..|s| - 1] == arguments
  {
    var s := name + "(" + arguments + ")";
    assert s[0] == name[0] && s[|s| - 1] == ')';
    TrimUnchanged(s);
    assert s[..|name|] == name;
    IndexOfAt(s, '(', |name|);
    assert s[|name| + 1..|s| - 1] == arguments;
  }

  /** A call written `name(arguments)` with a supported name is accepted and taken apart again. */
  lemma CallForm(name: string, arguments: string, format: TypeRef)
    requires Upper(name) in ValidNames && '(' !in name
    ensures var f := Function(name + "(" + arguments + ")", format);
      && Validate(f.value) == None
      && GetFunctionName(f) == Upper(name)
      && GetArguments(f) == Ok(arguments)
  {
    var s := name + "(" + arguments + ")";
    assert |name| > 0 by {
      assert |Upper(name)| == |name|;
      assert "" !in ValidNames;
    }
    assert !IsWhiteSpace(name[0]) by {
      assert IsAsciiUpper(Upper(name)[0]);
      assert Upper(name)[0] == ToUpper(name[0]);
    }
    CallShape(name, arguments);
    assert HeadName(s) == Upper(name);
    assert !IsBlank(s) by {
      assert !IsWhiteSpace(s[0]);
    }
  }

  /** The scanning state of `TokenizeArguments`. */
  datatype Scan = Scan(tokens: seq<string>, current: string, level: int, inRange: bool)

  /** Ends the current token, keeping it trimmed when it is not empty. */
  function Cut(st: Scan): Scan {
    if st.current == "" then st else st.(tokens := st.tokens + [Trim(st.current)], current := "")
  }

  /** One character of `TokenizeArguments`: parentheses nest, white space and commas at the top level separate, and a comma right after a ':' range stays inside it. */
  function ScanStep(arguments: string, i: nat, st: Scan): Scan
    requires i < |arguments|
  {
    var c := arguments[i];
    if c == '(' then st.(current := st.current + [c], level := st.level + 1)
    else if c == ')' then st.(current := st.current + [c], level := st.level - 1)
    else if IsWhiteSpace(c) && st.level == 0 then Cut(st)
    else if c == ',' && st.level == 0 && !st.inRange then Cut(st)
    else if c == ':' then st.(current := st.current + [c], inRange := true)
    else
      var rangeEnds := i == |arguments| - 1 || arguments[i + 1] == ',' || IsWhiteSpace(arguments[i + 1]);
      st.(current := st.current + [c], inRange := st.inRange && !rangeEnds)
  }

  /** The state after the first `n` characters. */
  function ScanTo(arguments: string, n: nat): Scan
    requires n <= |arguments|
  {
    if n == 0 then Scan([], "", 0, false) else ScanStep(arguments, n - 1, ScanTo(arguments, n - 1))
  }

  /** The argument tokens: the scanned tokens, the last one flushed, empty ones dropped. */
  function Tokens(arguments: string): seq<string> {
    RemoveEmpty(Cut(ScanTo(arguments, |arguments|)).tokens)
  }

  /** `TokenizeArguments`. */
  method TokenizeArguments(arguments: string) returns (tokens: seq<string>)
    ensures tokens == Tokens(arguments)
  {
    var found: seq<string> := [];
    var current := "";
    var level := 0;
    var inRange := false;
    for i := 0 to |arguments|
      invariant Scan(found, current, level, inRange) == ScanTo(arguments, i)
    {
      var c := arguments[i];
      if c == '(' {
        level := level + 1;
        current := current + [c];
      } else if c == ')' {
        level := level - 1;
        current := current + [c];
      } else if IsWhiteSpace(c) && level == 0 {
        if current != "" {
          found := found + [Trim(current)];
          current := "";
        }
      } else if c == ',' && level == 0 && !inRange {
        if current != "" {
          found := found + [Trim(current)];
          current := "";
        }
      } else if c == ':' {
        current := current + [c];
        inRange := true;
      } else {
        current := current + [c];
        if inRange && (i == |arguments| - 1 || arguments[i + 1] == ',' || IsWhiteSpace(arguments[i + 1])) {
          inRange := false;
        }
      }
    }
    if current != "" {
      found := found + [Trim(current)];
    }
    tokens := RemoveEmpty(found);
  }

  predicate Trimmed(t: string) {
    t == [] || (!IsWhiteSpace(t[0]) && !IsWhiteSpace(t[|t| - 1]))
  }

  /** One step either keeps the tokens or appends the trimmed current token. */
  lemma StepTokens(arguments: string, i: nat, st: Scan)
    requires i < |arguments|
    ensures var next := ScanStep(arguments, i, st);
      next.tokens == st.tokens || (st.current != "" && next.tokens == st.tokens + [Trim(st.current)] && next.current == "")
  {
  }

  lemma {:induction false} ScanTrimmed(arguments: string, n: nat)
    requires n <= |arguments|
    ensures forall k :: 0 <= k < |ScanTo(arguments, n).tokens| ==> Trimmed(ScanTo(arguments, n).tokens[k])
  {
    if n > 0 {
      ScanTrimmed(arguments, n - 1);
      StepTokens(arguments, n - 1, ScanTo(arguments, n - 1));
    }
  }

  /** Every argument token is non-empty and has no white space at either end. */
  lemma TokensTrimmed(arguments: string)
    ensures forall k :: 0 <= k < |Tokens(arguments)| ==>
      Tokens(arguments)[k] != [] && Trimmed(Tokens(arguments)[k])
  {
    var st := ScanTo(arguments, |arguments|);
    ScanTrimmed(arguments, |arguments|);
    var cut := Cut(st).tokens;
    assert forall j :: 0 <= j < |cut| ==> Trimmed(cut[j]) by {
      if st.current != "" {
        assert cut == st.tokens + [Trim(st.current)];
      }
    }
    var r := RemoveEmpty(cut);
    assert r == Tokens(arguments);
    forall k | 0 <= k < |r|
      ensures r[k] != [] && Trimmed(r[k])
    {
      assert r[k] in cut;
    }
  }

  lemma CountSnoc(s: string, d: char, c: char)
    ensures Count(s + [d], c) == Count(s, c) + (if d == c then 1 else 0)
  {
    CountAppend(s, [d], c);
  }

  lemma CutCount(st: Scan, c: char)
    requires !IsWhiteSpace(c)
    ensures Count(Concat(Cut(st).tokens) + Cut(st).current, c) == Count(Concat(st.tokens) + st.current, c)
  {
    if st.current != "" {
      ConcatAppend(st.tokens, [Trim(st.current)]);
      assert Concat([Trim(st.current)]) == Trim(st.current) + Concat([]);
      assert Concat(Cut(st).tokens) + Cut(st).current == Concat(st.tokens) + Trim(st.current);
      CountAppend(Concat(st.tokens), Trim(st.current), c);
      CountAppend(Concat(st.tokens), st.current, c);
      TrimCount(st.current, c);
    }
  }

  lemma StepCount(arguments: string, i: nat, st: Scan, c: char)
    requires i < |arguments| && !IsWhiteSpace(c) && c != ','
    ensures var next := ScanStep(arguments, i, st);
      Count(Concat(next.tokens) + next.current, c)
        == Count(Concat(st.tokens) + st.current, c) + (if arguments[i] == c then 1 else 0)
  {
    var d := arguments[i];
    var next := ScanStep(arguments, i, st);
    if (IsWhiteSpace(d) && st.level == 0) || (d == ',' && st.level == 0 && !st.inRange) {
      assert next == Cut(st);
      CutCount(st, c);
    } else {
      assert next.tokens == st.tokens && next.current == st.current + [d];
      assert Concat(next.tokens) + next.current == (Concat(st.tokens) + st.current) + [d];
      CountSnoc(Concat(st.tokens) + st.current, d, c);
    }
  }

  lemma {:induction false} ScanCount(arguments: string, n: nat, c: char)
    requires n <= |arguments| && !IsWhiteSpace(c) && c != ','
    ensures Count(Concat(ScanTo(arguments, n).tokens) + ScanTo(arguments, n).current, c) == Count(arguments[..n], c)
  {
    if n > 0 {
      var prev := ScanTo(arguments, n - 1);
      assert ScanTo(arguments, n) == ScanStep(arguments, n - 1, prev);
      ScanCount(arguments, n - 1, c);
      StepCount(arguments, n - 1, prev, c);
      assert arguments[..n] == arguments[..n - 1] + [arguments[n - 1]];
      CountSnoc(arguments[..n - 1], arguments[n - 1], c);
    }
  }

  /** Tokenizing drops only white space and commas: every other character keeps its number of occurrences. */
  lemma TokensCountCharacters(arguments: string, c: char)
    requires !IsWhiteSpace(c) && c != ','
    ensures Count(Concat(Tokens(arguments)), c) == Count(arguments, c)
  {
    var st := ScanTo(arguments, |arguments|);
    ScanCount(arguments, |arguments|, c);
    CutCount(st, c);
    assert Cut(st).current == "";
    assert Concat(Cut(st).tokens) + "" == Concat(Cut(st).tokens);
    assert arguments[..|arguments|] == arguments;
  }

  /** Parenthesis depth after `s`: its opening minus its closing parentheses. */
  function Depth(s: string): int {
    Count(s, '(') - Count(s, ')')
  }

  /** The scanner's level is the parenthesis depth of the text read so far. */
  lemma {:induction false} ScanLevel(arguments: string, n: nat)
    requires n <= |arguments|
    ensures ScanTo(arguments, n).level == Depth(arguments[..n])
  {
    if n > 0 {
      var prev := ScanTo(arguments, n - 1);
      assert ScanTo(arguments, n) == ScanStep(arguments, n - 1, prev);
      ScanLevel(arguments, n - 1);
      assert arguments[..n] == arguments[..n - 1] + [arguments[n - 1]];
      CountSnoc(arguments[..n - 1], arguments[n - 1], '(');
      CountSnoc(arguments[..n - 1], arguments[n - 1], ')');
    }
  }

  /**
   * The character at `k` closes an open ':' range: it is one that stays in the
   * token (not a parenthesis, not a ':', not white space at depth 0) and a
   * comma, white space or the end of the text follows it.
   */
  predicate ClosesRange(arguments: string, k: nat)
    requires k < |arguments|
  {
    var c := arguments[k];
    && c != '(' && c != ')' && c != ':'
    && !(IsWhiteSpace(c) && Depth(arguments[..k]) == 0)
    && (k == |arguments| - 1 || arguments[k + 1] == ',' || IsWhiteSpace(arguments[k + 1]))
  }

  /** A ':' range is open before position `i`: a ':' came earlier and nothing since has closed it. */
  predicate RangeOpen(arguments: string, i: nat)
    requires i <= |arguments|
  {
    exists j :: 0 <= j < i && arguments[j] == ':' && forall k :: j < k < i ==> !ClosesRange(arguments, k)
  }

  lemma RangeOpenStep(arguments: string, n: nat)
    requires n < |arguments|
    ensures RangeOpen(arguments, n + 1) <==>
      arguments[n] == ':' || (RangeOpen(arguments, n) && !ClosesRange(arguments, n))
  {
    if arguments[n] == ':' {
      assert 0 <= n < n + 1 && arguments[n] == ':';
    }
    if RangeOpen(arguments, n) && !ClosesRange(arguments, n) {
      var j :| 0 <= j < n && arguments[j] == ':' && forall k :: j < k < n ==> !ClosesRange(arguments, k);
      assert forall k :: j < k < n + 1 ==> !ClosesRange(arguments, k);
    }
    if RangeOpen(arguments, n + 1) && arguments[n] != ':' {
      var j :| 0 <= j < n + 1 && arguments[j] == ':' && forall k :: j < k < n + 1 ==> !ClosesRange(arguments, k);
      assert j < n && !ClosesRange(arguments, n);
      assert forall k :: j < k < n ==> !ClosesRange(arguments, k);
    }
  }

  /** One step of the range flag: a ':' opens a range, and a closing character ends it. */
  lemma StepRange(arguments: string, i: nat, st: Scan)
    requires i < |arguments| && st.level == Depth(arguments[..i])
    ensures ScanStep(arguments, i, st).inRange <==>
      arguments[i] == ':' || (st.inRange && !ClosesRange(arguments, i))
  {
  }

  /** The scanner's range flag is set exactly while a ':' range is open. */
  lemma {:induction false} ScanRange(arguments: string, n: nat)
    requires n <= |arguments|
    ensures ScanTo(arguments, n).inRange <==> RangeOpen(arguments, n)
  {
    if n > 0 {
      var prev := ScanTo(arguments, n - 1);
      assert ScanTo(arguments, n) == ScanStep(arguments, n - 1, prev);
      ScanRange(arguments, n - 1);
      ScanLevel(arguments, n - 1);
      StepRange(arguments, n - 1, prev);
      RangeOpenStep(arguments, n - 1);
    }
  }

  /** A comma that separates two arguments: one at depth 0 outside an open ':' range. */
  predicate Separates(arguments: string, i: nat)
    requires i < |arguments|
  {
    arguments[i] == ',' && Depth(arguments[..i]) == 0 && !RangeOpen(arguments, i)
  }

  /** The first `n` characters without their white space and their separating commas, in order. */
  function Kept(arguments: string, n: nat): string
    requires n <= |arguments|
  {
    if n == 0 then []
    else
      var c := arguments[n - 1];
      Kept(arguments, n - 1) + (if IsWhiteSpace(c) || Separates(arguments, n - 1) then [] else [c])
  }

  lemma CutKept(st: Scan)
    ensures NoSpace(Concat(Cut(st).tokens) + Cut(st).current) == NoSpace(Concat(st.tokens) + st.current)
  {
    if st.current != "" {
      ConcatAppend(st.tokens, [Trim(st.current)]);
      assert Concat([Trim(st.current)]) == Trim(st.current) + Concat([]);
      assert Concat(Cut(st).tokens) + Cut(st).current == Concat(st.tokens) + Trim(st.current);
      NoSpaceAppend(Concat(st.tokens), Trim(st.current));
      NoSpaceAppend(Concat(st.tokens), st.current);
      NoSpaceTrim(st.current);
    }
  }

  lemma StepKept(arguments: string, i: nat, st: Scan)
    requires i < |arguments|
    requires st.level == Depth(arguments[..i]) && (st.inRange <==> RangeOpen(arguments, i))
    ensures var next, c := ScanStep(arguments, i, st), arguments[i];
      NoSpace(Concat(next.tokens) + next.current) ==
        NoSpace(Concat(st.tokens) + st.current) + (if IsWhiteSpace(c) || Separates(arguments, i) then [] else [c])
  {
    var c := arguments[i];
    var next := ScanStep(arguments, i, st);
    if (IsWhiteSpace(c) && st.level == 0) || (c == ',' && st.level == 0 && !st.inRange) {
      assert next == Cut(st);
      CutKept(st);
    } else {
      assert next.tokens == st.tokens && next.current == st.current + [c];
      assert Concat(next.tokens) + next.current == (Concat(st.tokens) + st.current) + [c];
      NoSpaceAppend(Concat(st.tokens) + st.current, [c]);
      assert [c][1..] == [];
    }
  }

  lemma {:induction false} ScanKept(arguments: string, n: nat)
    requires n <= |arguments|
    ensures NoSpace(Concat(ScanTo(arguments, n).tokens) + ScanTo(arguments, n).current) == Kept(arguments, n)
  {
    if n > 0 {
      var prev := ScanTo(arguments, n - 1);
      assert ScanTo(arguments, n) == ScanStep(arguments, n - 1, prev);
      ScanKept(arguments, n - 1);
      ScanLevel(arguments, n - 1);
      ScanRange(arguments, n - 1);
      StepKept(arguments, n - 1, prev);
    }
  }

  /**
   * Tokenizing loses only white space and separating commas: with white space
   * removed, the tokens spell out the arguments without their separating
   * commas, in order. A comma inside parentheses or in an open range is kept.
   */
  lemma TokensKeepCharacters(arguments: string)
    ensures NoSpace(Concat(Tokens(arguments))) == Kept(arguments, |arguments|)
  {
    var st := ScanTo(arguments, |arguments|);
    ScanKept(arguments, |arguments|);
    CutKept(st);
    assert Concat(Cut(st).tokens) + Cut(st).current == Concat(Cut(st).tokens);
  }

  /** A list of arguments without parentheses, ':' or white space. */
  predicate PlainList(arguments: string) {
    forall i :: 0 <= i < |arguments| ==>
      arguments[i] != '(' && arguments[i] != ')' && arguments[i] != ':' && !IsWhiteSpace(arguments[i])
  }

  /** What scanning a plain list keeps: the current token is the last piece between commas, and the tokens are the earlier non-empty pieces. */
  predicate PlainState(st: Scan, parts: seq<string>) {
    && |parts| > 0 && st.level == 0 && !st.inRange
    && st.current == parts[|parts| - 1] && st.tokens == RemoveEmpty(parts[..|parts| - 1])
    && forall k :: 0 <= k < |st.current| ==> !IsWhiteSpace(st.current[k])
  }

  /** A comma ends the current piece. */
  lemma PlainComma(st: Scan, parts: seq<string>)
    requires PlainState(st, parts)
    ensures PlainState(Cut(st), parts + [""])
  {
    var front := parts[..|parts| - 1];
    assert (parts + [""])[..|parts|] == parts;
    assert parts == front + [st.current];
    RemoveEmptyAppend(front, [st.current]);
    if st.current != "" {
      TrimUnchanged(st.current);
      assert RemoveEmpty([st.current]) == [st.current];
    } else {
      assert RemoveEmpty([st.current]) == [];
    }
  }

  /** Any other character of a plain list extends the current piece. */
  lemma PlainOther(st: Scan, parts: seq<string>, d: char)
    requires PlainState(st, parts) && !IsWhiteSpace(d)
    ensures PlainState(st.(current := st.current + [d]), ExtendLast(parts, d))
  {
    var next := ExtendLast(parts, d);
    assert next[..|next| - 1] == parts[..|parts| - 1];
  }

  lemma {:induction false} PlainScan(arguments: string, n: nat)
    requires n <= |arguments| && PlainList(arguments)
    ensures PlainState(ScanTo(arguments, n), Split(arguments[..n], ','))
  {
    if n == 0 {
      SplitNone("", ',');
    } else {
      var s, d := arguments[..n - 1], arguments[n - 1];
      var prev := ScanTo(arguments, n - 1);
      assert ScanTo(arguments, n) == ScanStep(arguments, n - 1, prev);
      assert arguments[..n] == s + [d];
      PlainScan(arguments, n - 1);
      if d == ',' {
        assert ScanTo(arguments, n) == Cut(prev);
        SplitSnocSeparator(s, ',');
        PlainComma(prev, Split(s, ','));
      } else {
        assert ScanTo(arguments, n) == prev.(current := prev.current + [d]);
        SplitSnocOther(s, d, ',');
        PlainOther(prev, Split(s, ','), d);
      }
    }
  }

  /** Without parentheses, ranges or white space, every comma separates: the tokens are the non-empty pieces between the commas. */
  lemma TokensOfPlainList(arguments: string)
    requires PlainList(arguments)
    ensures Tokens(arguments) == RemoveEmpty(Split(arguments, ','))
  {
    var st := ScanTo(arguments, |arguments|);
    PlainScan(arguments, |arguments|);
    assert arguments[..|arguments|] == arguments;
    var parts := Split(arguments, ',');
    PlainComma(st, parts);
    var final := Cut(st);
    assert Tokens(arguments) == RemoveEmpty(final.tokens);
    assert final.tokens == RemoveEmpty(parts);
    RemoveEmptyKeeps(RemoveEmpty(parts));
  }

  /**
   * `TryCreate`: the constructed function, or `false` with `default(Function)`.
   * That default has a null `Value` and a null `Format`; here it is the empty
   * text with `NoType`, and nothing in the model reads its text.
   */
  function TryCreate(value: string, format: TypeRef): (r: (bool, Function))
    ensures r.0 <==> New(value, format).Ok?
    ensures r.0 ==> r.1 == New(value, format).value
    ensures !r.0 ==> r.1 == Function("", NoType)
  {
    match New(value, format)
    case Ok(f) => (true, f)
    case Err(_) => (false, Function("", NoType))
  }

  /** The tokens of the arguments; none when the arguments are blank. */
  function ArgumentTokens(f: Function): (r: Result<seq<string>>)
    ensures r.Err? <==> GetArguments(f).Err?
  {
    match GetArguments(f)
    case Err(e) => Err(e)
    case Ok(arguments) => Ok(if IsBlank(arguments) then [] else Tokens(arguments))
  }

  /** `GetArgumentTokens`. */
  method GetArgumentTokens(f: Function) returns (r: Result<seq<string>>)
    ensures r == ArgumentTokens(f)
  {
    var arguments := GetArguments(f);
    if arguments.Err? {
      return Err(arguments.error);
    }
    if IsBlank(arguments.value) {
      return Ok([]);
    }
    var tokens := TokenizeArguments(arguments.value);
    return Ok(tokens);
  }

  /** The functions `GetNestedFunctions` collects from a list of tokens. */
  function Nested(tokens: seq<string>, format: TypeRef): seq<Function> {
    if tokens == [] then []
    else
      var last := tokens[|tokens| - 1];
      var rest := Nested(tokens[..|tokens| - 1], format);
      if '(' in last && ')' in last && TryCreate(last, format).0 then rest + [TryCreate(last, format).1] else rest
  }

  /** Each nested function is a well-formed function built from one of the tokens, with the parent's format. */
  lemma {:induction false} NestedWellFormed(tokens: seq<string>, format: TypeRef)
    ensures forall k :: 0 <= k < |Nested(tokens, format)| ==>
      var g := Nested(tokens, format)[k];
      && WellFormed(g) && HasArguments(g) && g.value in tokens
      && g.format == (if format == NoType then DecimalType else format)
  {
    if tokens != [] {
      NestedWellFormed(tokens[..|tokens| - 1], format);
    }
  }

  lemma NestedStep(tokens: seq<string>, i: nat, format: TypeRef)
    requires i < |tokens|
    ensures Nested(tokens[..i + 1], format) == Nested(tokens[..i], format) +
      (if '(' in tokens[i] && ')' in tokens[i] && TryCreate(tokens[i], format).0 then [TryCreate(tokens[i], format).1] else [])
  {
    assert tokens[..i + 1][..i] == tokens[..i];
  }

  /** `GetNestedFunctions`: the tokens with parentheses that are themselves valid functions. */
  method GetNestedFunctions(f: Function) returns (r: Result<seq<Function>>)
    ensures r.Err? <==> ArgumentTokens(f).Err?
    ensures r.Ok? ==> r.value == Nested(ArgumentTokens(f).value, f.format)
  {
    var tokens := GetArgumentTokens(f);
    if tokens.Err? {
      return Err(tokens.error);
    }
    var nested: seq<Function> := [];
    for i := 0 to |tokens.value|
      invariant nested == Nested(tokens.value[..i], f.format)
    {
      var token := tokens.value[i];
      NestedStep(tokens.value, i, f.format);
      if '(' in token && ')' in token {
        var (ok, g) := TryCreate(token, f.format);
        if ok {
          nested := nested + [g];
        }
      }
    }
    assert tokens.value[..|tokens.value|] == tokens.value;
    return Ok(nested);
  }
}
