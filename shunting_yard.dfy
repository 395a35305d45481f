/**
 * `ConvertToRPN`: Dijkstra's shunting-yard conversion of the formula's
 * tokens into postfix order. The specification is a fold of `Step` over
 * the tokens followed by `Flush`; the method runs the loops of the source
 * and is proved to compute that fold.
 */
module ShuntingYard {
  import opened Text
  import opened TokenClasses
  import opened Lexer

  /** The converter's state: the output list and the operator stack, top last. */
  datatype Shunt = Shunt(output: seq<string>, stack: seq<string>)

  function Top(s: Shunt): string
    requires s.stack != []
  {
    s.stack[|s.stack| - 1]
  }

  /** Moves the top of the stack to the end of the output. */
  function Pop(s: Shunt): (r: Shunt)
    requires s.stack != []
    ensures |r.stack| == |s.stack| - 1
  {
    Shunt(s.output + [Top(s)], s.stack[..|s.stack| - 1])
  }

  /** The inner loop for an operator of precedence `p`: pop while the top binds at least as tightly. */
  function PopOperators(s: Shunt, p: int): Shunt
    decreases |s.stack|
  {
    if s.stack != [] && Top(s) != "(" && Precedence(Top(s)) >= p then PopOperators(Pop(s), p) else s
  }

  /** The inner loop for `)`: pop everything above the nearest `(`. */
  function PopToParen(s: Shunt): Shunt
    decreases |s.stack|
  {
    if s.stack != [] && Top(s) != "(" then PopToParen(Pop(s)) else s
  }

  /** `)`: pop to the nearest `(` and discard it; with no `(` the stack simply empties. */
  function CloseParen(s: Shunt): Shunt {
    var r := PopToParen(s);
    if r.stack != [] && Top(r) == "(" then Shunt(r.output, r.stack[..|r.stack| - 1]) else r
  }

  /** One iteration of the token loop; any other token is dropped. */
  function Step(s: Shunt, token: string): Shunt {
    if IsOperand(token) then Shunt(s.output + [token], s.stack)
    else if IsOperator(token) then
      var r := PopOperators(s, Precedence(token));
      Shunt(r.output, r.stack + [token])
    else if token == "(" then Shunt(s.output, s.stack + [token])
    else if token == ")" then CloseParen(s)
    else s
  }

  function Run(s: Shunt, tokens: seq<string>): Shunt
    decreases |tokens|
  {
    if tokens == [] then s else Run(Step(s, tokens[0]), tokens[1..])
  }

  function Reverse(xs: seq<string>): (r: seq<string>)
    ensures |r| == |xs|
  {
    if xs == [] then [] else [xs[|xs| - 1]] + Reverse(xs[..|xs| - 1])
  }

  /** The final loop: what is left on the stack is output from the top down. */
  function Flush(s: Shunt): seq<string> {
    s.output + Reverse(s.stack)
  }

  /** The postfix form of a token list. */
  function ToRPN(tokens: seq<string>): seq<string> {
    Flush(Run(Shunt([], []), tokens))
  }

  /** `ConvertToRPN`: tokenize, run the shunting yard, then empty the stack. */
  method ConvertToRPN(expression: string) returns (output: seq<string>)
    ensures output == ToRPN(Lex(expression))
  {
    var tokens := TokenizeExpression(expression);
    output := [];
    var stack: seq<string> := [];
    for i := 0 to |tokens|
      invariant Run(Shunt(output, stack), tokens[i..]) == Run(Shunt([], []), tokens)
    {
      var token := tokens[i];
      assert tokens[i..][0] == token && tokens[i..][1..] == tokens[i + 1..];
      ghost var before := Shunt(output, stack);
      if IsOperand(token) {
        output := output + [token];
      } else if IsOperator(token) {
        var p := Precedence(token);
        while stack != [] && stack[|stack| - 1] != "(" && Precedence(stack[|stack| - 1]) >= p
          invariant PopOperators(Shunt(output, stack), p) == PopOperators(before, p)
          decreases |stack|
        {
          output := output + [stack[|stack| - 1]];
          stack := stack[..|stack| - 1];
        }
        stack := stack + [token];
      } else if token == "(" {
        stack := stack + [token];
      } else if token == ")" {
        while stack != [] && stack[|stack| - 1] != "("
          invariant PopToParen(Shunt(output, stack)) == PopToParen(before)
          decreases |stack|
        {
          output := output + [stack[|stack| - 1]];
          stack := stack[..|stack| - 1];
        }
        if stack != [] && stack[|stack| - 1] == "(" {
          stack := stack[..|stack| - 1];
        }
      }
      assert Shunt(output, stack) == Step(before, token);
    }
    assert tokens[|tokens|..] == [];
    ghost var done := Shunt(output, stack);
    while stack != []
      invariant output + Reverse(stack) == Flush(done)
      decreases |stack|
    {
      output := output + [stack[|stack| - 1]];
      stack := stack[..|stack| - 1];
    }
  }

  /** Running over two lists is running over the first, then the second. */
  lemma {:induction false} RunAppend(s: Shunt, a: seq<string>, b: seq<string>)
    ensures Run(s, a + b) == Run(Run(s, a), b)
    decreases |a|
  {
    if a == [] {
      assert a + b == b;
    } else {
      assert (a + b)[0] == a[0] && (a + b)[1..] == a[1..] + b;
      RunAppend(Step(s, a[0]), a[1..], b);
    }
  }

  /** An arithmetic expression over operand tokens. */
  datatype Expr = Atom(token: string) | Binary(op: string, left: Expr, right: Expr)

  predicate ValidExpr(e: Expr) {
    match e
    case Atom(t) => IsOperand(t)
    case Binary(op, l, r) => IsOperator(op) && ValidExpr(l) && ValidExpr(r)
  }

  /** The tokens of `e` with every binary operation in parentheses. */
  function Infix(e: Expr): seq<string> {
    match e
    case Atom(t) => [t]
    case Binary(op, l, r) => ["("] + Infix(l) + [op] + Infix(r) + [")"]
  }

  /** The postfix order of `e`: both operands, then the operator. */
  function Postfix(e: Expr): seq<string> {
    match e
    case Atom(t) => [t]
    case Binary(op, l, r) => Postfix(l) + Postfix(r) + [op]
  }

  lemma RunOne(s: Shunt, token: string)
    ensures Run(s, [token]) == Step(s, token)
  {
    assert [token][1..] == [];
  }

  /** `(` is pushed. */
  lemma StepOpen(s: Shunt)
    ensures Step(s, "(") == Shunt(s.output, s.stack + ["("])
  {
    PunctuationIsNotOperand("(");
  }

  /** An operator right after `(` is pushed without popping. */
  lemma StepOperatorAfterOpen(s: Shunt, op: string)
    requires IsOperator(op) && s.stack != [] && Top(s) == "("
    ensures Step(s, op) == Shunt(s.output, s.stack + [op])
  {
    PunctuationIsNotOperand(op);
  }

  /** `)` right after `( op` outputs `op` and removes both. */
  lemma StepCloseOperator(output: seq<string>, stack: seq<string>, op: string)
    requires IsOperator(op)
    ensures Step(Shunt(output, stack + ["(", op]), ")") == Shunt(output + [op], stack)
  {
    PunctuationIsNotOperand(")");
    var s := Shunt(output, stack + ["(", op]);
    var popped := Shunt(output + [op], stack + ["("]);
    assert Top(s) == op && op != "(";
    assert s.stack[..|s.stack| - 1] == popped.stack;
    assert Pop(s) == popped;
    assert Top(popped) == "(";
    assert PopToParen(popped) == popped;
    assert PopToParen(s) == popped;
    assert popped.stack[..|popped.stack| - 1] == stack;
  }

  /** Running over `a + b` when both halves are known. */
  lemma RunThen(s: Shunt, a: seq<string>, mid: Shunt, b: seq<string>, end: Shunt)
    requires Run(s, a) == mid && Run(mid, b) == end
    ensures Run(s, a + b) == end
  {
    RunAppend(s, a, b);
  }

  /** The shape of the run over `( l op r )`, given the runs over `l` and `r`. */
  lemma RunBinary(s: Shunt, op: string, l: Expr, r: Expr, pl: seq<string>, pr: seq<string>)
    requires IsOperator(op)
    requires Run(Shunt(s.output, s.stack + ["("]), Infix(l)) == Shunt(s.output + pl, s.stack + ["("])
    requires Run(Shunt(s.output + pl, s.stack + ["(", op]), Infix(r)) == Shunt(s.output + pl + pr, s.stack + ["(", op])
    ensures Run(s, Infix(Binary(op, l, r))) == Shunt(s.output + pl + pr + [op], s.stack)
  {
    var open := Shunt(s.output, s.stack + ["("]);
    var afterLeft := Shunt(s.output + pl, s.stack + ["("]);
    var withOp := Shunt(s.output + pl, s.stack + ["(", op]);
    var afterRight := Shunt(s.output + pl + pr, s.stack + ["(", op]);
    var done := Shunt(s.output + pl + pr + [op], s.stack);
    RunOne(s, "(");
    StepOpen(s);
    RunThen(s, ["("], open, Infix(l), afterLeft);
    RunOne(afterLeft, op);
    StepOperatorAfterOpen(afterLeft, op);
    assert afterLeft.stack + [op] == withOp.stack;
    RunThen(s, ["("] + Infix(l), afterLeft, [op], withOp);
    RunThen(s, ["("] + Infix(l) + [op], withOp, Infix(r), afterRight);
    RunOne(afterRight, ")");
    StepCloseOperator(s.output + pl + pr, s.stack, op);
    RunThen(s, ["("] + Infix(l) + [op] + Infix(r), afterRight, [")"], done);
  }

  /** A parenthesised expression appends its postfix form and leaves the stack as it was. */
  lemma {:induction false} RunInfix(s: Shunt, e: Expr)
    requires ValidExpr(e)
    ensures Run(s, Infix(e)) == Shunt(s.output + Postfix(e), s.stack)
    decreases e
  {
    match e
    case Atom(t) =>
      RunOne(s, t);
    case Binary(op, l, r) =>
      RunInfix(Shunt(s.output, s.stack + ["("]), l);
      RunInfix(Shunt(s.output + Postfix(l), s.stack + ["(", op]), r);
      assert s.stack + ["("] + [op] == s.stack + ["(", op];
      RunBinary(s, op, l, r, Postfix(l), Postfix(r));
      assert s.output + Postfix(l) + Postfix(r) + [op] == s.output + Postfix(e);
  }

  /** Converting a fully parenthesised expression gives its postfix form. */
  lemma InfixToRPN(e: Expr)
    requires ValidExpr(e)
    ensures ToRPN(Infix(e)) == Postfix(e)
  {
    RunInfix(Shunt([], []), e);
  }

  lemma RunCons(s: Shunt, token: string, rest: seq<string>)
    ensures Run(s, [token] + rest) == Run(Step(s, token), rest)
  {
    assert ([token] + rest)[0] == token && ([token] + rest)[1..] == rest;
  }

  lemma StepOperand(s: Shunt, token: string)
    requires IsOperand(token)
    ensures Step(s, token) == Shunt(s.output + [token], s.stack)
  {
  }

  lemma StepOperator(s: Shunt, op: string)
    requires IsOperator(op)
    ensures Step(s, op) == Shunt(PopOperators(s, Precedence(op)).output, PopOperators(s, Precedence(op)).stack + [op])
  {
    PunctuationIsNotOperand(op);
  }

  /** An operator is pushed straight away when nothing on the stack binds as tightly. */
  lemma PushOperator(s: Shunt, op: string)
    requires IsOperator(op)
    requires s.stack == [] || Top(s) == "(" || Precedence(Top(s)) < Precedence(op)
    ensures Step(s, op) == Shunt(s.output, s.stack + [op])
  {
    PunctuationIsNotOperand(op);
  }

  /** An operator that binds no more tightly than the one below it pops that one first. */
  lemma PopThenPush(output: seq<string>, op1: string, op2: string)
    requires IsOperator(op1) && IsOperator(op2) && Precedence(op1) >= Precedence(op2)
    ensures Step(Shunt(output, [op1]), op2) == Shunt(output + [op1], [op2])
  {
    PunctuationIsNotOperand(op2);
    var s := Shunt(output, [op1]);
    assert Pop(s) == Shunt(output + [op1], []);
    assert PopOperators(Pop(s), Precedence(op2)) == Pop(s);
    assert PopOperators(s, Precedence(op2)) == Pop(s);
  }

  /** `)` with no `(` on the stack outputs the one operator there. */
  lemma CloseWithoutOpen(output: seq<string>, op: string)
    requires IsOperator(op)
    ensures Step(Shunt(output, [op]), ")") == Shunt(output + [op], [])
  {
    PunctuationIsNotOperand(")");
    var s := Shunt(output, [op]);
    assert Pop(s) == Shunt(output + [op], []);
    assert PopToParen(Pop(s)) == Pop(s);
    assert PopToParen(s) == Pop(s);
  }

  lemma RunFirst(s: Shunt, tokens: seq<string>)
    requires tokens != []
    ensures Run(s, tokens) == Run(Step(s, tokens[0]), tokens[1..])
  {
  }

  lemma ReverseTwo(x: string, y: string)
    ensures Reverse([x, y]) == [y, x]
    ensures Reverse([y]) == [y]
  {
    assert [x, y][..1] == [x];
    assert [x][..0] == [];
    assert [y][..0] == [];
  }

  /** After `a op b` the two operands are output and `op` waits on the stack. */
  lemma RunOperation(a: string, op: string, b: string, rest: seq<string>)
    requires IsOperand(a) && IsOperator(op) && IsOperand(b)
    ensures Run(Shunt([], []), [a, op, b] + rest) == Run(Shunt([a, b], [op]), rest)
  {
    var s0 := Shunt([], []);
    var s1 := Shunt([a], []);
    var s2 := Shunt([a], [op]);
    StepOperand(s0, a);
    assert [] + [a] == [a];
    PushOperator(s1, op);
    assert [] + [op] == [op];
    StepOperand(s2, b);
    assert [a] + [b] == [a, b];
    assert [a, op, b] + rest == [a] + ([op] + ([b] + rest));
    RunCons(s0, a, [op] + ([b] + rest));
    RunCons(s1, op, [b] + rest);
    RunCons(s2, b, rest);
  }

  /**
   * Precedence and associativity on three operands: `a op1 b op2 c` applies
   * `op1` first exactly when `Precedence(op1) >= Precedence(op2)`, so equal
   * precedence groups to the left. `MultiplicationFirst` spells out what this
   * means for the four operators.
   */
  lemma PrecedenceAndAssociativity(a: string, op1: string, b: string, op2: string, c: string)
    requires IsOperand(a) && IsOperand(b) && IsOperand(c)
    requires IsOperator(op1) && IsOperator(op2)
    ensures ToRPN([a, op1, b, op2, c]) ==
      if Precedence(op1) >= Precedence(op2) then [a, b, op1, c, op2] else [a, b, c, op2, op1]
  {
    var ts := [a, op1, b, op2, c];
    var s3 := Shunt([a, b], [op1]);
    assert ts == [a, op1, b] + [op2, c];
    RunOperation(a, op1, b, [op2, c]);
    assert [op2, c] == [op2] + [c];
    RunCons(s3, op2, [c]);
    ReverseTwo(op1, op2);
    if Precedence(op1) >= Precedence(op2) {
      var s4 := Shunt([a, b, op1], [op2]);
      PopThenPush([a, b], op1, op2);
      StepOperand(s4, c);
      RunOne(s4, c);
      assert Run(Shunt([], []), ts) == Shunt([a, b, op1, c], [op2]);
    } else {
      var s4 := Shunt([a, b], [op1, op2]);
      PushOperator(s3, op2);
      StepOperand(s4, c);
      RunOne(s4, c);
      assert Run(Shunt([], []), ts) == Shunt([a, b, c], [op1, op2]);
    }
  }

  /**
   * `*` and `/` bind tighter than `+` and `-` on either side: `x + y * z`
   * multiplies before it adds, and so does `x * y + z`.
   */
  lemma MultiplicationFirst(x: string, add: string, y: string, mul: string, z: string)
    requires IsOperand(x) && IsOperand(y) && IsOperand(z)
    requires add == "+" || add == "-"
    requires mul == "*" || mul == "/"
    ensures ToRPN([x, add, y, mul, z]) == [x, y, z, mul, add]
    ensures ToRPN([x, mul, y, add, z]) == [x, y, mul, z, add]
  {
    PrecedenceAndAssociativity(x, add, y, mul, z);
    PrecedenceAndAssociativity(x, mul, y, add, z);
  }

  /** An unmatched `(` is not removed and reaches the output. */
  lemma UnmatchedOpenIsOutput(a: string)
    requires IsOperand(a)
    ensures ToRPN(["(", a]) == [a, "("]
  {
    var s0 := Shunt([], []);
    StepOpen(s0);
    StepOperand(Shunt([], ["("]), a);
    RunFirst(s0, ["(", a]);
    assert ["(", a][1..] == [a];
    RunOne(Shunt([], ["("]), a);
    ReverseTwo(a, "(");
  }

  /** An unmatched `)` pops the whole stack and is itself dropped. */
  lemma UnmatchedCloseIsDropped(a: string, op: string, b: string)
    requires IsOperand(a) && IsOperator(op) && IsOperand(b)
    ensures ToRPN([a, op, b, ")"]) == [a, b, op]
  {
    assert [a, op, b, ")"] == [a, op, b] + [")"];
    RunOperation(a, op, b, [")"]);
    CloseWithoutOpen([a, b], op);
    RunOne(Shunt([a, b], [op]), ")");
  }

  /** The operands among `ts`, in order. */
  function Operands(ts: seq<string>): (r: seq<string>)
    ensures |r| <= |ts|
  {
    if ts == [] then []
    else Operands(ts[..|ts| - 1]) + (if IsOperand(ts[|ts| - 1]) then [ts[|ts| - 1]] else [])
  }

  lemma {:induction false} OperandsAppend(a: seq<string>, b: seq<string>)
    ensures Operands(a + b) == Operands(a) + Operands(b)
    decreases |b|
  {
    if b == [] {
      assert a + b == a;
    } else {
      var front := b[..|b| - 1];
      assert (a + b)[..|a + b| - 1] == a + front;
      assert (a + b)[|a + b| - 1] == b[|b| - 1];
      OperandsAppend(a, front);
    }
  }

  /** No token of `xs` is an operand. */
  predicate NoOperands(xs: seq<string>) {
    forall i :: 0 <= i < |xs| ==> !IsOperand(xs[i])
  }

  lemma {:induction false} NoOperandsEmpty(xs: seq<string>)
    requires NoOperands(xs)
    ensures Operands(xs) == []
    decreases |xs|
  {
    if xs != [] {
      NoOperandsEmpty(xs[..|xs| - 1]);
    }
  }

  lemma {:induction false} ReverseNoOperands(xs: seq<string>)
    requires NoOperands(xs)
    ensures NoOperands(Reverse(xs))
    decreases |xs|
  {
    if xs != [] {
      ReverseNoOperands(xs[..|xs| - 1]);
      var r := Reverse(xs);
      assert r == [xs[|xs| - 1]] + Reverse(xs[..|xs| - 1]);
      forall i | 0 <= i < |r|
        ensures !IsOperand(r[i])
      {
        if i > 0 {
          assert r[i] == Reverse(xs[..|xs| - 1])[i - 1];
        }
      }
    }
  }

  /** Moving an operator or `(` to the output adds no operand there. */
  lemma PopKeepsOperands(s: Shunt)
    requires s.stack != [] && NoOperands(s.stack)
    ensures Operands(Pop(s).output) == Operands(s.output)
    ensures NoOperands(Pop(s).stack)
  {
    var t := Top(s);
    assert !IsOperand(t);
    assert Pop(s).output[..|Pop(s).output| - 1] == s.output;
  }

  lemma {:induction false} PopOperatorsKeepsOperands(s: Shunt, p: int)
    requires NoOperands(s.stack)
    ensures Operands(PopOperators(s, p).output) == Operands(s.output)
    ensures NoOperands(PopOperators(s, p).stack)
    decreases |s.stack|
  {
    if s.stack != [] && Top(s) != "(" && Precedence(Top(s)) >= p {
      PopKeepsOperands(s);
      PopOperatorsKeepsOperands(Pop(s), p);
    }
  }

  lemma {:induction false} PopToParenKeepsOperands(s: Shunt)
    requires NoOperands(s.stack)
    ensures Operands(PopToParen(s).output) == Operands(s.output)
    ensures NoOperands(PopToParen(s).stack)
    decreases |s.stack|
  {
    if s.stack != [] && Top(s) != "(" {
      PopKeepsOperands(s);
      PopToParenKeepsOperands(Pop(s));
    }
  }

  /** One step outputs the token if it is an operand, and otherwise no operand. */
  lemma StepKeepsOperands(s: Shunt, token: string)
    requires NoOperands(s.stack)
    ensures Operands(Step(s, token).output) == Operands(s.output) + Operands([token])
    ensures NoOperands(Step(s, token).stack)
  {
    assert [token][..0] == [];
    OperandsAppend(s.output, [token]);
    if IsOperand(token) {
    } else if IsOperator(token) {
      PopOperatorsKeepsOperands(s, Precedence(token));
    } else if token == ")" {
      PopToParenKeepsOperands(s);
    }
  }

  lemma {:induction false} RunKeepsOperands(s: Shunt, tokens: seq<string>)
    requires NoOperands(s.stack)
    ensures Operands(Run(s, tokens).output) == Operands(s.output) + Operands(tokens)
    ensures NoOperands(Run(s, tokens).stack)
    decreases |tokens|
  {
    if tokens == [] {
      assert Operands(tokens) == [];
    } else {
      var t, rest := tokens[0], tokens[1..];
      var next := Step(s, t);
      assert tokens == [t] + rest;
      RunFirst(s, tokens);
      StepKeepsOperands(s, t);
      RunKeepsOperands(next, rest);
      OperandsAppend([t], rest);
      assert Operands(Run(s, tokens).output) == Operands(s.output) + Operands([t]) + Operands(rest);
    }
  }

  /**
   * The conversion only reorders operators: it outputs every operand of the
   * formula, once each and in the order written.
   */
  lemma ToRPNKeepsOperands(tokens: seq<string>)
    ensures Operands(ToRPN(tokens)) == Operands(tokens)
  {
    var s := Run(Shunt([], []), tokens);
    RunKeepsOperands(Shunt([], []), tokens);
    ReverseNoOperands(s.stack);
    NoOperandsEmpty(Reverse(s.stack));
    OperandsAppend(s.output, Reverse(s.stack));
  }

  /** Everything the converter holds: output and stack together. */
  function Held(s: Shunt): multiset<string> {
    multiset(s.output) + multiset(s.stack)
  }

  /** Neither the output nor the stack holds a `)`. */
  predicate NoClose(s: Shunt) {
    ")" !in s.output && ")" !in s.stack
  }

  lemma PopHeld(s: Shunt)
    requires s.stack != []
    ensures Held(Pop(s)) == Held(s)
    ensures NoClose(s) ==> NoClose(Pop(s))
  {
    var n := |s.stack|;
    assert s.stack == s.stack[..n - 1] + [Top(s)];
    assert Top(s) in s.stack;
  }

  lemma {:induction false} PopOperatorsHeld(s: Shunt, p: int)
    ensures Held(PopOperators(s, p)) == Held(s)
    ensures NoClose(s) ==> NoClose(PopOperators(s, p))
    decreases |s.stack|
  {
    if s.stack != [] && Top(s) != "(" && Precedence(Top(s)) >= p {
      PopHeld(s);
      PopOperatorsHeld(Pop(s), p);
    }
  }

  lemma {:induction false} PopToParenHeld(s: Shunt)
    ensures Held(PopToParen(s)) == Held(s)
    ensures NoClose(s) ==> NoClose(PopToParen(s))
    decreases |s.stack|
  {
    if s.stack != [] && Top(s) != "(" {
      PopHeld(s);
      PopToParenHeld(Pop(s));
    }
  }

  /** A step adds at most its own token, and never a `)`. */
  lemma StepHeld(s: Shunt, token: string)
    ensures Held(Step(s, token)) <= Held(s) + multiset{token}
    ensures NoClose(s) ==> NoClose(Step(s, token))
  {
    if IsOperand(token) {
      PunctuationIsNotOperand(")");
    } else if IsOperator(token) {
      PopOperatorsHeld(s, Precedence(token));
    } else if token == ")" {
      var r := PopToParen(s);
      PopToParenHeld(s);
      if r.stack != [] && Top(r) == "(" {
        var n := |r.stack|;
        assert r.stack == r.stack[..n - 1] + ["("];
        assert forall x :: x in r.stack[..n - 1] ==> x in r.stack;
      }
    }
  }

  lemma {:induction false} RunHeld(s: Shunt, tokens: seq<string>)
    ensures Held(Run(s, tokens)) <= Held(s) + multiset(tokens)
    ensures NoClose(s) ==> NoClose(Run(s, tokens))
    decreases |tokens|
  {
    if tokens != [] {
      var t, rest := tokens[0], tokens[1..];
      assert tokens == [t] + rest;
      StepHeld(s, t);
      RunHeld(Step(s, t), rest);
    }
  }

  lemma {:induction false} ReverseMultiset(xs: seq<string>)
    ensures multiset(Reverse(xs)) == multiset(xs)
    decreases |xs|
  {
    if xs != [] {
      var n := |xs|;
      ReverseMultiset(xs[..n - 1]);
      assert xs == xs[..n - 1] + [xs[n - 1]];
    }
  }

  /**
   * The postfix form holds no token that the formula does not (counted with
   * multiplicity) and never a `)`: parentheses only steer the conversion.
   */
  lemma ToRPNTokens(tokens: seq<string>)
    ensures multiset(ToRPN(tokens)) <= multiset(tokens)
    ensures ")" !in ToRPN(tokens)
  {
    var s := Run(Shunt([], []), tokens);
    RunHeld(Shunt([], []), tokens);
    ReverseMultiset(s.stack);
    assert multiset(ToRPN(tokens)) == Held(s);
    assert ")" !in multiset(s.stack);
  }

  /** A token the converter acts on: an operand, an operator or a parenthesis. */
  predicate Recognised(token: string) {
    IsOperand(token) || IsOperator(token) || token == "(" || token == ")"
  }

  /** The recognised tokens of `ts`, in order. */
  function Known(ts: seq<string>): (r: seq<string>)
    ensures |r| <= |ts|
    ensures forall i :: 0 <= i < |r| ==> Recognised(r[i])
  {
    if ts == [] then [] else (if Recognised(ts[0]) then [ts[0]] else []) + Known(ts[1..])
  }

  lemma {:induction false} RunKnown(s: Shunt, tokens: seq<string>)
    ensures Run(s, tokens) == Run(s, Known(tokens))
    decreases |tokens|
  {
    if tokens != [] {
      var t, rest := tokens[0], tokens[1..];
      RunKnown(Step(s, t), rest);
      RunKnown(s, rest);
      if Recognised(t) {
        RunCons(s, t, Known(rest));
      } else {
        assert Step(s, t) == s;
        assert Known(tokens) == Known(rest);
      }
    }
  }

  /** Tokens that are neither operands, operators nor parentheses are ignored. */
  lemma UnknownTokensIgnored(tokens: seq<string>)
    ensures ToRPN(tokens) == ToRPN(Known(tokens))
  {
    RunKnown(Shunt([], []), tokens);
  }
}
