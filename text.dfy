/**
 * Character and string helpers shared by the model: the .NET notions of
 * white space, ordinal prefix tests, first/last index of a character,
 * trimming, splitting and ASCII case mapping.
 */
module Text {

  /** `char.IsWhiteSpace`: the BCL's fixed list of white-space code points. */
  predicate IsWhiteSpace(c: char) {
    || c == ' '
    || ('\t' <= c <= '\r')
    || c == '\U{85}'
    || c == '\U{A0}'
    || c == '\U{1680}'
    || ('\U{2000}' <= c <= '\U{200A}')
    || c == '\U{2028}'
    || c == '\U{2029}'
    || c == '\U{202F}'
    || c == '\U{205F}'
    || c == '\U{3000}'
  }

  /** `string.IsNullOrWhiteSpace` for a non-null string. */
  predicate IsBlank(s: string) {
    forall i :: 0 <= i < |s| ==> IsWhiteSpace(s[i])
  }

  predicate IsAsciiUpper(c: char) { 'A' <= c <= 'Z' }

  predicate IsAsciiLower(c: char) { 'a' <= c <= 'z' }

  predicate IsAsciiLetter(c: char) { IsAsciiUpper(c) || IsAsciiLower(c) }

  /** Upper-casing of one character; only the ASCII letters change. */
  function ToUpper(c: char): (u: char)
    ensures IsAsciiLower(c) ==> IsAsciiUpper(u) && u as int == c as int - 32
    ensures !IsAsciiLower(c) ==> u == c
  {
    if IsAsciiLower(c) then (c as int - 32) as char else c
  }

  /** Lower-casing of one character; only the ASCII letters change. */
  function ToLower(c: char): (l: char)
    ensures IsAsciiUpper(c) ==> IsAsciiLower(l) && l as int == c as int + 32
    ensures !IsAsciiUpper(c) ==> l == c
  {
    if IsAsciiUpper(c) then (c as int + 32) as char else c
  }

  function Upper(s: string): (u: string)
    ensures |u| == |s|
    ensures forall i :: 0 <= i < |s| ==> u[i] == ToUpper(s[i])
  {
    if s == [] then [] else [ToUpper(s[0])] + Upper(s[1..])
  }

  function Lower(s: string): (l: string)
    ensures |l| == |s|
    ensures forall i :: 0 <= i < |s| ==> l[i] == ToLower(s[i])
  {
    if s == [] then [] else [ToLower(s[0])] + Lower(s[1..])
  }

  /** Text without capital letters is its own lower case. */
  lemma LowerUnchanged(s: string)
    requires forall i :: 0 <= i < |s| ==> !IsAsciiUpper(s[i])
    ensures Lower(s) == s
  {
    assert forall i :: 0 <= i < |s| ==> Lower(s)[i] == s[i];
  }

  /** Ordinal `StartsWith`. */
  predicate StartsWith(s: string, prefix: string) {
    |prefix| <= |s| && s[..|prefix|] == prefix
  }

  /** Ordinal `EndsWith` for one character. */
  predicate EndsWithChar(s: string, c: char) {
    |s| > 0 && s[|s| - 1] == c
  }

  /** `IndexOf(c)`: the first position of `c`, or -1 (see `IndexOfFirst`). */
  function IndexOf(s: string, c: char): (k: int)
    ensures -1 <= k < |s|
    ensures k >= 0 ==> s[k] == c
  {
    if s == [] then -1
    else if s[0] == c then 0
    else
      var k := IndexOf(s[1..], c);
      if k == -1 then -1 else k + 1
  }

  /** `IndexOf` finds the first occurrence, and -1 means there is none. */
  lemma {:induction false} IndexOfFirst(s: string, c: char)
    ensures IndexOf(s, c) == -1 <==> c !in s
    ensures IndexOf(s, c) >= 0 ==> c !in s[..IndexOf(s, c)]
  {
    if s != [] && s[0] != c {
      IndexOfFirst(s[1..], c);
      var k := IndexOf(s[1..], c);
      assert s == [s[0]] + s[1..];
      assert k >= 0 ==> s[..k + 1] == [s[0]] + s[1..][..k];
    }
  }

  /** A position holding `c` with no `c` before it is what `IndexOf` returns. */
  lemma {:induction false} IndexOfAt(s: string, c: char, j: nat)
    requires j < |s| && s[j] == c && c !in s[..j]
    ensures IndexOf(s, c) == j
  {
    if j > 0 {
      assert s[0] == s[..j][0];
      assert s[1..][..j - 1] == s[1..j];
      assert forall x :: x in s[1..j] ==> x in s[..j];
      IndexOfAt(s[1..], c, j - 1);
    }
  }

  /** `LastIndexOf(c)`: the last position of `c`, or -1 (see `LastIndexOfLast`). */
  function LastIndexOf(s: string, c: char): (k: int)
    ensures -1 <= k < |s|
    ensures k >= 0 ==> s[k] == c
    decreases |s|
  {
    if s == [] then -1
    else if s[|s| - 1] == c then |s| - 1
    else LastIndexOf(s[..|s| - 1], c)
  }

  /** `LastIndexOf` finds the last occurrence, and -1 means there is none. */
  lemma {:induction false} LastIndexOfLast(s: string, c: char)
    ensures LastIndexOf(s, c) == -1 <==> c !in s
    ensures LastIndexOf(s, c) >= 0 ==> c !in s[LastIndexOf(s, c) + 1..]
    decreases |s|
  {
    if s != [] && s[|s| - 1] != c {
      var front := s[..|s| - 1];
      LastIndexOfLast(front, c);
      var k := LastIndexOf(front, c);
      assert s == front + [s[|s| - 1]];
      assert k >= 0 ==> s[k + 1..] == front[k + 1..] + [s[|s| - 1]];
    }
  }

  /** `LastIndexOf` is at or after every occurrence. */
  lemma {:induction false} LastIndexOfAtLeast(s: string, c: char, j: nat)
    requires j < |s| && s[j] == c
    ensures LastIndexOf(s, c) >= j
    decreases |s|
  {
    if s[|s| - 1] != c {
      LastIndexOfAtLeast(s[..|s| - 1], c, j);
    }
  }

  /** Number of leading white-space characters. */
  function LeadingWhiteSpace(s: string): (n: nat)
    ensures n <= |s|
    ensures forall i :: 0 <= i < n ==> IsWhiteSpace(s[i])
    ensures n < |s| ==> !IsWhiteSpace(s[n])
  {
    if s == [] || !IsWhiteSpace(s[0]) then 0 else 1 + LeadingWhiteSpace(s[1..])
  }

  /** Number of trailing white-space characters. */
  function TrailingWhiteSpace(s: string): (n: nat)
    ensures n <= |s|
    ensures forall i :: |s| - n <= i < |s| ==> IsWhiteSpace(s[i])
    ensures n < |s| ==> !IsWhiteSpace(s[|s| - 1 - n])
    decreases |s|
  {
    if s == [] || !IsWhiteSpace(s[|s| - 1]) then 0 else 1 + TrailingWhiteSpace(s[..|s| - 1])
  }

  /** `string.Trim()`: drops white space at both ends and keeps the middle. */
  function Trim(s: string): (t: string)
    ensures |t| <= |s|
    ensures |t| > 0 ==> !IsWhiteSpace(t[0]) && !IsWhiteSpace(t[|t| - 1])
    ensures t == [] <==> IsBlank(s)
  {
    var a := LeadingWhiteSpace(s);
    var rest := s[a..];
    var b := TrailingWhiteSpace(rest);
    assert rest[..|rest| - b] == s[a..|s| - b];
    if a == |s| then
      assert IsBlank(s);
      []
    else
      assert !IsWhiteSpace(s[a]);
      assert !IsBlank(s);
      s[a..|s| - b]
  }

  /** Where the trimmed part of `s` starts and ends: everything outside it is white space. */
  lemma TrimSlice(s: string) returns (a: nat, e: nat)
    ensures a <= e <= |s| && Trim(s) == s[a..e]
    ensures forall i :: 0 <= i < a ==> IsWhiteSpace(s[i])
    ensures forall i :: e <= i < |s| ==> IsWhiteSpace(s[i])
  {
    a := LeadingWhiteSpace(s);
    var rest := s[a..];
    var b := TrailingWhiteSpace(rest);
    assert rest[..|rest| - b] == s[a..|s| - b];
    if a == |s| {
      e := a;
    } else {
      e := |s| - b;
      assert forall i :: e <= i < |s| ==> s[i] == rest[i - a];
    }
  }

  /** Trimming keeps a contiguous middle part and every character that is not white space. */
  lemma TrimKeepsMiddle(s: string)
    ensures exists a, b :: 0 <= a <= b <= |s| && Trim(s) == s[a..b]
    ensures forall i :: 0 <= i < |s| && !IsWhiteSpace(s[i]) ==> s[i] in Trim(s)
  {
    var a, e := TrimSlice(s);
    var t := s[a..e];
    assert forall i :: 0 <= i < |s| && !IsWhiteSpace(s[i]) ==> a <= i < e && s[i] == t[i - a];
  }

  /** Number of occurrences of `c` in `s`. */
  function Count(s: string, c: char): (n: nat)
    ensures n <= |s|
  {
    if s == [] then 0 else (if s[0] == c then 1 else 0) + Count(s[1..], c)
  }

  lemma {:induction false} CountZero(s: string, c: char)
    ensures Count(s, c) == 0 <==> c !in s
  {
    if s != [] {
      CountZero(s[1..], c);
      assert s == [s[0]] + s[1..];
    }
  }

  /** `string.Split(c)`: the pieces between occurrences of `c`, always at least one. */
  /** The parts joined back together with `c` between neighbours (`string.Join`). */
  function Join(parts: seq<string>, c: char): string
    requires |parts| > 0
  {
    if |parts| == 1 then parts[0] else parts[0] + [c] + Join(parts[1..], c)
  }

  /** `Split(c)`: the pieces between the occurrences of `c` (see `SplitParts`). */
  function Split(s: string, c: char): seq<string>
    decreases |s|
  {
    var k := IndexOf(s, c);
    if k == -1 then [s] else [s[..k]] + Split(s[k + 1..], c)
  }

  /** The position of the first `c`, which `IndexOf` finds. */
  lemma FirstAt(s: string, c: char) returns (k: nat)
    requires c in s
    ensures k < |s| && s[k] == c && c !in s[..k]
  {
    IndexOfFirst(s, c);
    k := IndexOf(s, c);
  }

  /** Splitting at a first occurrence `k` of `c`. */
  lemma SplitAt(s: string, c: char, k: nat)
    requires k < |s| && s[k] == c && c !in s[..k]
    ensures Split(s, c) == [s[..k]] + Split(s[k + 1..], c)
  {
    IndexOfAt(s, c, k);
  }

  /** Splitting a text without `c` gives the text alone. */
  lemma SplitNone(s: string, c: char)
    requires c !in s
    ensures Split(s, c) == [s]
  {
    IndexOfFirst(s, c);
  }

  /** There is one piece more than there are separators; no piece holds one, and joining the pieces with `c` gives `s` back. */
  lemma {:induction false} SplitParts(s: string, c: char)
    ensures |Split(s, c)| == Count(s, c) + 1
    ensures forall i :: 0 <= i < |Split(s, c)| ==> c !in Split(s, c)[i]
    ensures Join(Split(s, c), c) == s
    decreases |s|
  {
    if c !in s {
      SplitNone(s, c);
      CountZero(s, c);
    } else {
      var k := FirstAt(s, c);
      SplitParts(s[k + 1..], c);
      SplitFirstPiece(s, c, k);
    }
  }

  /** The step of `SplitParts`: the first piece ends at the first separator. */
  lemma SplitFirstPiece(s: string, c: char, k: nat)
    requires k < |s| && s[k] == c && c !in s[..k]
    requires var rest := Split(s[k + 1..], c);
      |rest| == Count(s[k + 1..], c) + 1 && (forall i :: 0 <= i < |rest| ==> c !in rest[i]) && Join(rest, c) == s[k + 1..]
    ensures |Split(s, c)| == Count(s, c) + 1
    ensures forall i :: 0 <= i < |Split(s, c)| ==> c !in Split(s, c)[i]
    ensures Join(Split(s, c), c) == s
  {
    SplitAt(s, c, k);
    CountSplit(s, k);
    CountZero(s[..k], c);
    var rest := Split(s[k + 1..], c);
    var parts := [s[..k]] + rest;
    assert parts[1..] == rest;
    assert Join(parts, c) == s[..k] + [c] + Join(rest, c);
    assert s == s[..k] + [c] + s[k + 1..];
  }

  /** Appending to a text whose first `c` is at `k` leaves the first piece alone. */
  lemma SplitAppendAt(s: string, d: char, c: char, k: nat)
    requires k < |s| && s[k] == c && c !in s[..k]
    ensures Split(s + [d], c) == [s[..k]] + Split(s[k + 1..] + [d], c)
  {
    var t := s + [d];
    assert t[..k] == s[..k] && t[k] == c;
    SplitAt(t, c, k);
    assert t[k + 1..] == s[k + 1..] + [d];
  }

  lemma SplitSeparatorLast(s: string, c: char)
    requires c !in s
    ensures Split(s + [c], c) == Split(s, c) + [""]
  {
    var t := s + [c];
    assert t[..|s|] == s && t[|s| + 1..] == "";
    SplitAt(t, c, |s|);
    SplitNone("", c);
    SplitNone(s, c);
  }

  lemma SplitSeparatorStep(s: string, c: char, k: nat)
    requires k < |s| && s[k] == c && c !in s[..k]
    requires Split(s[k + 1..] + [c], c) == Split(s[k + 1..], c) + [""]
    ensures Split(s + [c], c) == Split(s, c) + [""]
  {
    SplitAppendAt(s, c, c, k);
    SplitAt(s, c, k);
    var rest := Split(s[k + 1..], c);
    assert [s[..k]] + (rest + [""]) == ([s[..k]] + rest) + [""];
  }

  /** A separator at the end starts an empty last piece. */
  lemma {:induction false} SplitSnocSeparator(s: string, c: char)
    ensures Split(s + [c], c) == Split(s, c) + [""]
    decreases |s|
  {
    if c !in s {
      SplitSeparatorLast(s, c);
    } else {
      var k := FirstAt(s, c);
      SplitSnocSeparator(s[k + 1..], c);
      SplitSeparatorStep(s, c, k);
    }
  }

  /** The last piece of `parts`, extended by `d`. */
  function ExtendLast(parts: seq<string>, d: char): seq<string>
    requires |parts| > 0
  {
    parts[..|parts| - 1] + [parts[|parts| - 1] + [d]]
  }

  lemma SplitOtherStep(s: string, d: char, c: char, k: nat)
    requires k < |s| && s[k] == c && c !in s[..k]
    requires |Split(s[k + 1..], c)| > 0
    requires Split(s[k + 1..] + [d], c) == ExtendLast(Split(s[k + 1..], c), d)
    ensures |Split(s, c)| > 0 && Split(s + [d], c) == ExtendLast(Split(s, c), d)
  {
    SplitAppendAt(s, d, c, k);
    SplitAt(s, c, k);
    var rest := Split(s[k + 1..], c);
    var parts := [s[..k]] + rest;
    assert parts[..|parts| - 1] == [s[..k]] + rest[..|rest| - 1];
    assert parts[|parts| - 1] == rest[|rest| - 1];
  }

  /** Any other character at the end extends the last piece. */
  lemma {:induction false} SplitSnocOther(s: string, d: char, c: char)
    requires d != c
    ensures |Split(s, c)| > 0 && Split(s + [d], c) == ExtendLast(Split(s, c), d)
    decreases |s|
  {
    if c !in s {
      assert c !in s + [d];
      SplitNone(s + [d], c);
      SplitNone(s, c);
    } else {
      var k := FirstAt(s, c);
      SplitSnocOther(s[k + 1..], d, c);
      SplitOtherStep(s, d, c, k);
    }
  }

  lemma CountSplit(s: string, k: nat)
    requires k < |s|
    ensures Count(s, s[k]) == Count(s[..k], s[k]) + 1 + Count(s[k + 1..], s[k])
  {
    CountAppend(s[..k], s[k..], s[k]);
    assert s == s[..k] + s[k..];
    assert s[k..] == [s[k]] + s[k + 1..];
  }

  lemma CountAppend(a: string, b: string, c: char)
    ensures Count(a + b, c) == Count(a, c) + Count(b, c)
  {
    if a == [] {
      assert a + b == b;
    } else {
      assert (a + b)[0] == a[0] && (a + b)[1..] == a[1..] + b;
      CountAppend(a[1..], b, c);
    }
  }

  /** Concatenation of a sequence of strings. */
  function Concat(ss: seq<string>): string {
    if ss == [] then [] else ss[0] + Concat(ss[1..])
  }

  lemma ConcatAppend(a: seq<string>, b: seq<string>)
    ensures Concat(a + b) == Concat(a) + Concat(b)
  {
    if a == [] {
      assert a + b == b;
    } else {
      assert (a + b)[0] == a[0] && (a + b)[1..] == a[1..] + b;
      ConcatAppend(a[1..], b);
    }
  }

  /** Trimming a string whose ends are not white space changes nothing. */
  lemma TrimUnchanged(s: string)
    requires s == [] || (!IsWhiteSpace(s[0]) && !IsWhiteSpace(s[|s| - 1]))
    ensures Trim(s) == s
  {
    if s != [] {
      assert LeadingWhiteSpace(s) == 0;
      assert s[0..] == s;
      assert TrailingWhiteSpace(s) == 0;
    }
  }

  lemma CountAbsent(s: string, c: char)
    requires forall i :: 0 <= i < |s| ==> IsWhiteSpace(s[i])
    requires !IsWhiteSpace(c)
    ensures Count(s, c) == 0
  {
  }

  /** Trimming removes only white space: other characters keep their number of occurrences. */
  lemma TrimCount(s: string, c: char)
    requires !IsWhiteSpace(c)
    ensures Count(Trim(s), c) == Count(s, c)
  {
    var a, e := TrimSlice(s);
    var head, mid, tail := s[..a], s[a..e], s[e..];
    assert s == head + mid + tail;
    CountAbsent(head, c);
    CountAbsent(tail, c);
    CountAppend(head + mid, tail, c);
    CountAppend(head, mid, c);
  }

  /** The non-empty strings of `ss`, in order (LINQ `Where(t => t != "")`). */
  function RemoveEmpty(ss: seq<string>): (r: seq<string>)
    ensures forall i :: 0 <= i < |r| ==> r[i] != [] && r[i] in ss
    ensures Concat(r) == Concat(ss)
  {
    if ss == [] then []
    else if ss[0] == [] then RemoveEmpty(ss[1..])
    else [ss[0]] + RemoveEmpty(ss[1..])
  }

  lemma {:induction false} RemoveEmptyAppend(a: seq<string>, b: seq<string>)
    ensures RemoveEmpty(a + b) == RemoveEmpty(a) + RemoveEmpty(b)
  {
    if a != [] {
      assert (a + b)[0] == a[0] && (a + b)[1..] == a[1..] + b;
      RemoveEmptyAppend(a[1..], b);
    } else {
      assert a + b == b;
    }
  }

  /** A list without empty strings is left as it is. */
  lemma {:induction false} RemoveEmptyKeeps(ss: seq<string>)
    requires forall i :: 0 <= i < |ss| ==> ss[i] != []
    ensures RemoveEmpty(ss) == ss
  {
    if ss != [] {
      RemoveEmptyKeeps(ss[1..]);
    }
  }

  /** The characters of `s` that are not white space, in order. */
  function NoSpace(s: string): (r: string)
    ensures |r| <= |s|
  {
    if s == [] then [] else (if IsWhiteSpace(s[0]) then [] else [s[0]]) + NoSpace(s[1..])
  }

  lemma {:induction false} NoSpaceAppend(a: string, b: string)
    ensures NoSpace(a + b) == NoSpace(a) + NoSpace(b)
  {
    if a != [] {
      assert (a + b)[0] == a[0] && (a + b)[1..] == a[1..] + b;
      NoSpaceAppend(a[1..], b);
    } else {
      assert a + b == b;
    }
  }

  lemma {:induction false} NoSpaceBlank(s: string)
    requires IsBlank(s)
    ensures NoSpace(s) == []
  {
    if s != [] {
      NoSpaceBlank(s[1..]);
    }
  }

  /** Trimming removes only white space, so the other characters stay in order. */
  lemma NoSpaceTrim(s: string)
    ensures NoSpace(Trim(s)) == NoSpace(s)
  {
    var a, e := TrimSlice(s);
    var head, mid, tail := s[..a], s[a..e], s[e..];
    assert s == head + mid + tail;
    NoSpaceBlank(head);
    NoSpaceBlank(tail);
    NoSpaceAppend(head + mid, tail);
    NoSpaceAppend(head, mid);
  }
}
