/**
 * Parameter equations: the tokenizer that splits an equation at
 * operator characters, and the conversion of the token list to postfix
 * order with an operator stack. `<` and `>` are the binary min and max
 * operators.
 */
module Equations {
  import opened Outcomes
  import opened CppString

  // ---- tokens ----

  /** The length of the delimiter-free run at the start of `s`. */
  function RunLength(s: string, delimiters: string): (k: nat)
    ensures k <= |s|
    ensures forall i :: 0 <= i < k ==> s[i] !in delimiters
    ensures k == |s| || s[k] in delimiters
  {
    if s == [] || s[0] in delimiters then 0 else 1 + RunLength(s[1..], delimiters)
  }

  /**
   * The tokens of `s`: every delimiter character is a token by itself,
   * and every maximal run of other characters is one token.
   */
  function Tokenize(s: string, delimiters: string): seq<string>
    decreases |s|
  {
    if s == [] then []
    else if s[0] in delimiters then [s[..1]] + Tokenize(s[1..], delimiters)
    else
      var k := RunLength(s, delimiters);
      [s[..k]] + Tokenize(s[k..], delimiters)
  }

  function Concat(parts: seq<string>): string {
    if parts == [] then "" else parts[0] + Concat(parts[1..])
  }

  predicate IsDelimiterToken(t: string, delimiters: string) {
    |t| == 1 && t[0] in delimiters
  }

  predicate IsRunToken(t: string, delimiters: string) {
    t != [] && forall i :: 0 <= i < |t| ==> t[i] !in delimiters
  }

  /** Tokenizing loses nothing: the tokens concatenate back to the input. */
  lemma {:induction false} TokensConcatenate(s: string, delimiters: string)
    ensures Concat(Tokenize(s, delimiters)) == s
    decreases |s|
  {
    if s != [] {
      var k := if s[0] in delimiters then 1 else RunLength(s, delimiters);
      TokensConcatenate(s[k..], delimiters);
      assert Tokenize(s, delimiters) == [s[..k]] + Tokenize(s[k..], delimiters);
      assert s[..k] + s[k..] == s;
    }
  }

  /** Each token is a single delimiter or a nonempty delimiter-free run, and no two runs are adjacent. */
  lemma {:induction false} TokenShapes(s: string, delimiters: string)
    ensures forall i :: 0 <= i < |Tokenize(s, delimiters)| ==>
              IsDelimiterToken(Tokenize(s, delimiters)[i], delimiters) || IsRunToken(Tokenize(s, delimiters)[i], delimiters)
    ensures forall i :: 0 <= i < |Tokenize(s, delimiters)| - 1 ==>
              !(IsRunToken(Tokenize(s, delimiters)[i], delimiters) && IsRunToken(Tokenize(s, delimiters)[i + 1], delimiters))
    decreases |s|
  {
    if s != [] {
      var ts := Tokenize(s, delimiters);
      var k := if s[0] in delimiters then 1 else RunLength(s, delimiters);
      var rest := Tokenize(s[k..], delimiters);
      TokenShapes(s[k..], delimiters);
      assert ts == [s[..k]] + rest;
      if s[0] !in delimiters && rest != [] {
        assert s[k..][0] in delimiters;
        assert IsDelimiterToken(rest[0], delimiters);
      }
      forall i | 0 <= i < |ts| ensures IsDelimiterToken(ts[i], delimiters) || IsRunToken(ts[i], delimiters) {
        if i > 0 {
          assert ts[i] == rest[i - 1];
        }
      }
      forall i | 0 <= i < |ts| - 1 ensures !(IsRunToken(ts[i], delimiters) && IsRunToken(ts[i + 1], delimiters)) {
        if i > 0 {
          assert ts[i] == rest[i - 1] && ts[i + 1] == rest[i];
        } else if s[0] in delimiters {
          assert ts[0] == [s[0]];
        }
      }
    }
  }

  /** The run `find_first_of` delimits is the run Tokenize takes. */
  lemma RunEnd(s: string, delimiters: string, start: nat)
    requires |s| < NPOS && start < |s| && s[start] !in delimiters
    ensures var e := FindFirstOf(s, delimiters, start);
            start < e && (e == NPOS || e < |s|)
            && RunLength(s[start..], delimiters) == (if e == NPOS then |s| - start else e - start)
  {
    assert forall i :: 0 <= i < |s| - start ==> s[start..][i] == s[start + i];
  }

  /**
   * `ParseEquation`: scans the equation once, emitting each delimiter as
   * a token and each run up to the next delimiter (`find_first_of`) as
   * another.
   */
  method ParseEquation(equation: string, delimiters: string) returns (tokens: seq<string>)
    requires |equation| < NPOS
    ensures tokens == Tokenize(equation, delimiters)
  {
    tokens := [];
    var start: nat := 0;
    while start < |equation|
      invariant start <= |equation| || start == NPOS
      invariant tokens + Tokenize(Rest(equation, start), delimiters) == Tokenize(equation, delimiters)
      decreases SIZE_RANGE - start
    {
      var token, next := NextToken(equation, delimiters, start);
      Shift(tokens, token, Tokenize(Rest(equation, next), delimiters));
      tokens := tokens + [token];
      start := next;
    }
  }

  lemma Shift(done: seq<string>, t: string, rest: seq<string>)
    ensures (done + [t]) + rest == done + ([t] + rest)
  {
  }

  /**
   * The body of `ParseEquation`'s loop: a delimiter is a token of its own;
   * any other character starts a run that ends at the next delimiter
   * (`find_first_of`, npos when there is none).
   */
  method NextToken(equation: string, delimiters: string, start: nat) returns (token: string, next: nat)
    requires |equation| < NPOS && start < |equation|
    ensures start < next && IsSize(next) && (next <= |equation| || next == NPOS)
    ensures Tokenize(Rest(equation, start), delimiters) == [token] + Tokenize(Rest(equation, next), delimiters)
  {
    if equation[start] in delimiters {
      next := start + 1;
    } else {
      next := FindFirstOf(equation, delimiters, start);
    }
    TokenAt(equation, delimiters, start);
    var sub := Substr(equation, start, SizeSub(next, start));
    token := sub.value;
  }

  /** One step of the scan: the token at `start` and where the next one begins. */
  lemma TokenAt(s: string, delimiters: string, start: nat)
    requires |s| < NPOS && start < |s|
    ensures var next := if s[start] in delimiters then start + 1 else FindFirstOf(s, delimiters, start);
            && start < next && IsSize(next) && (next <= |s| || next == NPOS)
            && Substr(s, start, SizeSub(next, start)).Ok?
            && Tokenize(Rest(s, start), delimiters)
               == [Substr(s, start, SizeSub(next, start)).value] + Tokenize(Rest(s, next), delimiters)
  {
    var rest := s[start..];
    assert rest[0] == s[start];
    if s[start] in delimiters {
      assert rest[1..] == Rest(s, start + 1);
      assert Substr(s, start, SizeSub(start + 1, start)).value == rest[..1];
      assert Tokenize(rest, delimiters) == [rest[..1]] + Tokenize(rest[1..], delimiters);
    } else {
      var next := FindFirstOf(s, delimiters, start);
      RunEnd(s, delimiters, start);
      var k := RunLength(rest, delimiters);
      assert rest[k..] == Rest(s, next);
      assert Substr(s, start, SizeSub(next, start)).value == rest[..k];
    }
  }

  // ---- postfix ----

  const OPERATORS: string := "()+-/*<>"
  const LOW_PRECEDENCE: string := "+-"
  const HIGH_PRECEDENCE: string := "/*<>"

  /** `myOperators.find(t) > myOperators.length()`: `t` occurs nowhere in the operator string. */
  predicate IsOperand(t: string) {
    Find(OPERATORS, t, 0) == NPOS
  }

  /** `chars.find(t) < chars.length()`. */
  predicate Within(chars: string, t: string)
    requires |chars| < NPOS
  {
    Find(chars, t, 0) < |chars|
  }

  lemma MinusIsOperator()
    ensures !IsOperand("-")
  {
    assert OPERATORS[3..4] == "-";
    assert OccursAt(OPERATORS, "-", 3);
  }

  lemma ZeroIsOperand()
    ensures IsOperand("0")
  {
    forall k | 0 <= k < |OPERATORS|
      ensures !OccursAt(OPERATORS, "0", k)
    {
      assert OPERATORS[k..k + 1][0] == OPERATORS[k];
    }
  }

  /** The operand tokens of `ts`, in order. */
  function Operands(ts: seq<string>): seq<string> {
    if ts == [] then []
    else Operands(ts[..|ts| - 1]) + (if IsOperand(ts[|ts| - 1]) then [ts[|ts| - 1]] else [])
  }

  /** A '-' that starts the equation or follows '(' is unary. */
  predicate IsUnaryMinus(ts: seq<string>, i: nat)
    requires i < |ts|
  {
    ts[i] == "-" && (i == 0 || ts[i - 1] == "(")
  }

  /** The tokens with a "0" operand put before every unary '-'. */
  function Padded(ts: seq<string>): seq<string> {
    if ts == [] then []
    else Padded(ts[..|ts| - 1]) + (if IsUnaryMinus(ts, |ts| - 1) then ["0", "-"] else [ts[|ts| - 1]])
  }

  lemma OperandsAppend(ts: seq<string>, t: string)
    ensures Operands(ts + [t]) == Operands(ts) + (if IsOperand(t) then [t] else [])
  {
    assert (ts + [t])[..|ts|] == ts;
  }

  lemma PaddedStep(ts: seq<string>, i: nat)
    requires i < |ts|
    ensures Padded(ts[..i + 1]) == Padded(ts[..i]) + (if IsUnaryMinus(ts, i) then ["0", "-"] else [ts[i]])
  {
    assert ts[..i + 1][..i] == ts[..i];
  }

  /** The operands one more token contributes: "0" for a unary minus, the token itself for an operand. */
  lemma PaddedOperands(ts: seq<string>, i: nat)
    requires i < |ts|
    ensures Operands(Padded(ts[..i + 1])) ==
              Operands(Padded(ts[..i])) + (if IsUnaryMinus(ts, i) then ["0"] else if IsOperand(ts[i]) then [ts[i]] else [])
  {
    PaddedStep(ts, i);
    var p := Padded(ts[..i]);
    if IsUnaryMinus(ts, i) {
      assert p + ["0", "-"] == (p + ["0"]) + ["-"];
      OperandsAppend(p + ["0"], "-");
      OperandsAppend(p, "0");
      MinusIsOperator();
      ZeroIsOperand();
    } else {
      OperandsAppend(p, ts[i]);
    }
  }

  /** No token on the operator stack is an operand. */
  predicate AllOperators(stack: seq<string>) {
    forall j :: 0 <= j < |stack| ==> !IsOperand(stack[j])
  }

  /** Moving the top of the operator stack to the output adds no operand. */
  method PopOperator(output: seq<string>, stack: seq<string>) returns (output': seq<string>, stack': seq<string>)
    requires stack != [] && AllOperators(stack)
    ensures output' == output + [stack[|stack| - 1]] && stack' == stack[..|stack| - 1]
    ensures Operands(output') == Operands(output)
    ensures AllOperators(stack')
  {
    output' := output + [stack[|stack| - 1]];
    stack' := stack[..|stack| - 1];
    OperandsAppend(output, stack[|stack| - 1]);
  }

  /** Pushing an operator onto the operator stack. */
  function PushOperator(stack: seq<string>, token: string): (r: seq<string>)
    requires AllOperators(stack) && !IsOperand(token)
    ensures AllOperators(r) && r != [] && r[|r| - 1] == token
    ensures |r| == |stack| + 1 && r[..|stack|] == stack
  {
    stack + [token]
  }

  lemma NothingAdded(xs: seq<string>)
    ensures xs + [] == xs
  {
  }

  /** The operands one token adds to the output: "0" before a unary minus, an operand itself. */
  function OperandsAdded(token: string, last: string): seq<string> {
    if token == "-" && (|last| == 0 || last == "(") then ["0"] else if IsOperand(token) then [token] else []
  }

  /**
   * What the scan knows of the stack from the previous token: nothing has
   * been pushed before the first token, and a '(' is still on top right
   * after it is read.
   */
  predicate ScanState(last: string, stack: seq<string>) {
    && (|last| == 0 ==> stack == [])
    && (last == "(" ==> stack != [] && stack[|stack| - 1] == "(")
  }

  /** Popping one more operator from below the popped ones appends it to their reversal. */
  lemma ReversedPop(s: seq<string>, i: nat)
    requires 0 < i <= |s|
    ensures Reversed(s[i - 1..]) == Reversed(s[i..]) + [s[i - 1]]
  {
    var a := Reversed(s[i - 1..]);
    var b := Reversed(s[i..]) + [s[i - 1]];
    assert |a| == |b|;
    forall j | 0 <= j < |a|
      ensures a[j] == b[j]
    {
      if j < |a| - 1 {
        assert a[j] == s[|s| - 1 - j];
        assert b[j] == s[i..][|s| - i - 1 - j];
      }
    }
  }

  /**
   * The loop of CloseGroup part way: the operators above `stack'` have gone
   * to the output, top first, and none of them is a '('.
   */
  predicate Closing(output: seq<string>, stack: seq<string>, output': seq<string>, stack': seq<string>) {
    && stack' != [] && |stack'| <= |stack| && stack' == stack[..|stack'|]
    && (forall j :: |stack'| <= j < |stack| ==> stack[j] != "(")
    && output' == output + Reversed(stack[|stack'|..])
    && Operands(output') == Operands(output)
    && AllOperators(stack')
  }

  /** One pop of the loop keeps Closing, or empties the stack of a stack without '('. */
  lemma ClosingStep(output: seq<string>, stack: seq<string>, output': seq<string>, stack': seq<string>)
    requires Closing(output, stack, output', stack') && stack'[|stack'| - 1] != "("
    requires Operands(output' + [stack'[|stack'| - 1]]) == Operands(output')
    ensures var s := stack'[..|stack'| - 1];
            && (s == [] ==> "(" !in stack)
            && (s != [] ==> Closing(output, stack, output' + [stack'[|stack'| - 1]], s))
  {
    var n := |stack'|;
    assert stack[n - 1] == stack'[n - 1];
    if n == 1 {
      assert forall j :: 0 <= j < |stack| ==> stack[j] != "(";
    } else {
      var s := stack'[..n - 1];
      assert s == stack[..n - 1];
      ReversedPop(stack, n);
      assert output' + [stack'[n - 1]] == output + Reversed(stack[n - 1..]);
      assert forall j :: 0 <= j < |s| ==> s[j] == stack'[j];
    }
  }

  /**
   * A ')' moves the operators above the nearest '(' to the output, top
   * first, and drops the '('; with no '(' on the stack the scan reaches
   * `back()` of the emptied stack.
   */
  method CloseGroup(output: seq<string>, stack: seq<string>) returns (r: Result<(seq<string>, seq<string>)>)
    requires stack != [] && AllOperators(stack)
    ensures r.Ok? ==> Operands(r.value.0) == Operands(output)
    ensures r.Ok? ==> AllOperators(r.value.1)
    ensures r.Ok? ==> |r.value.1| < |stack| && r.value.1 == stack[..|r.value.1|]
    ensures r.Fail? ==> r.failure == UndefinedBehavior
    ensures r.Fail? <==> "(" !in stack
    ensures r.Ok? ==> var k := |r.value.1|;
              && stack[k] == "(" && (forall j :: k < j < |stack| ==> stack[j] != "(")
              && r.value.0 == output + Reversed(stack[k + 1..])
  {
    var output', stack' := output, stack;
    assert stack[|stack|..] == [] && stack[..|stack|] == stack && output + [] == output;
    while stack'[|stack'| - 1] != "("
      invariant Closing(output, stack, output', stack')
      decreases |stack'|
    {
      ghost var before, below := output', stack';
      output', stack' := PopOperator(output', stack');
      ClosingStep(output, stack, before, below);
      if stack' == [] {
        return Fail(UndefinedBehavior);
      }
    }
    CloseDone(output, stack, output', stack');
    r := Ok((output', stack'[..|stack'| - 1]));
  }

  /** Where the loop of CloseGroup stops, at a '(' on top, the operators above it have gone to the output. */
  lemma CloseDone(output: seq<string>, stack: seq<string>, output': seq<string>, stack': seq<string>)
    requires Closing(output, stack, output', stack') && stack'[|stack'| - 1] == "("
    ensures var k := |stack'| - 1;
            && "(" in stack && stack[k] == "(" && (forall j :: k < j < |stack| ==> stack[j] != "(")
            && stack'[..k] == stack[..k] && AllOperators(stack'[..k])
            && output' == output + Reversed(stack[k + 1..])
  {
    var k := |stack'| - 1;
    assert stack[k] == stack'[k];
  }

  /**
   * A low-precedence operator meeting a high-precedence one pops every
   * high-precedence operator on top of the stack, then at most one
   * low-precedence operator.
   */
  method PopPrecedence(output: seq<string>, stack: seq<string>) returns (output': seq<string>, stack': seq<string>)
    requires AllOperators(stack)
    ensures Operands(output') == Operands(output)
    ensures AllOperators(stack')
    ensures |stack'| <= |stack| && stack' == stack[..|stack'|]
  {
    output', stack' := output, stack;
    while stack' != [] && Within(HIGH_PRECEDENCE, stack'[|stack'| - 1])
      invariant Operands(output') == Operands(output)
      invariant AllOperators(stack')
      invariant |stack'| <= |stack| && stack' == stack[..|stack'|]
    {
      output', stack' := PopOperator(output', stack');
    }
    if stack' != [] && Within(LOW_PRECEDENCE, stack'[|stack'| - 1]) {
      output', stack' := PopOperator(output', stack');
    }
  }

  /**
   * One token of `postfix`'s scan: an operand goes to the output; an
   * operator is pushed, after popping what its precedence displaces; a ')'
   * pops down to its '('. `last` is the previous token ("" before the
   * first). A ')' that empties the stack before meeting a '(' calls
   * `back()` on the empty stack, which C++ leaves undefined.
   */
  method PostfixStep(output: seq<string>, stack: seq<string>, token: string, last: string)
    returns (r: Result<(seq<string>, seq<string>)>)
    requires AllOperators(stack)
    requires |token| > 0 && ScanState(last, stack)
    ensures r.Ok? ==> Operands(r.value.0) == Operands(output) + OperandsAdded(token, last)
    ensures r.Ok? ==> AllOperators(r.value.1)
    ensures r.Ok? ==> ScanState(token, r.value.1)
    ensures r.Fail? ==> r.failure == UndefinedBehavior && token == ")"
  {
    var output', stack' := output, stack;
    if IsOperand(token) {
      MinusIsOperator();
      output' := output' + [token];
      OperandsAppend(output, token);
    } else if stack' == [] || stack'[|stack'| - 1] == "(" || token == "(" {
      if token == "-" && (|last| == 0 || last == "(") {
        output' := output' + ["0"];
        OperandsAppend(output, "0");
        ZeroIsOperand();
      } else {
        NothingAdded(Operands(output));
      }
      stack' := PushOperator(stack', token);
    } else {
      NothingAdded(Operands(output));
      if token == ")" {
        var closed := CloseGroup(output', stack');
        if closed.Fail? {
          return Fail(closed.failure);
        }
        output', stack' := closed.value.0, closed.value.1;
      } else if Within(HIGH_PRECEDENCE, token) && Within(LOW_PRECEDENCE, stack'[|stack'| - 1]) {
        stack' := PushOperator(stack', token);
      } else if Within(LOW_PRECEDENCE, token) && Within(HIGH_PRECEDENCE, stack'[|stack'| - 1]) {
        output', stack' := PopPrecedence(output', stack');
        stack' := PushOperator(stack', token);
      } else {
        output', stack' := PopOperator(output', stack');
        stack' := PushOperator(stack', token);
      }
    }
    return Ok((output', stack'));
  }

  /**
   * `postfix`: converts the infix equation to postfix order with an
   * operator stack; the operands keep their order, with a "0" put before
   * each unary minus.
   */
  method Postfix(equation: string) returns (r: Result<seq<string>>)
    requires |equation| < NPOS
    ensures r.Ok? ==> Operands(r.value) == Operands(Padded(Tokenize(equation, OPERATORS)))
    ensures r.Fail? ==> r.failure == UndefinedBehavior && ")" in Tokenize(equation, OPERATORS)
  {
    var tokens := ParseEquation(equation, OPERATORS);
    assert forall j :: 0 <= j < |tokens| ==> |tokens[j]| > 0 by {
      TokenShapes(equation, OPERATORS);
    }
    r := PostfixOf(tokens);
  }

  /**
   * The loop invariant of the scan after `i` tokens: the output holds the
   * operands of the padded prefix, the stack only operators, and `last` is
   * the previous token.
   */
  ghost predicate Scanned(tokens: seq<string>, i: nat, output: seq<string>, stack: seq<string>, last: string) {
    && i <= |tokens|
    && Operands(output) == Operands(Padded(tokens[..i]))
    && AllOperators(stack)
    && last == (if i == 0 then "" else tokens[i - 1])
    && ScanState(last, stack)
  }

  /** One step of the scan keeps its invariant. */
  lemma ScanAdvance(tokens: seq<string>, i: nat, output: seq<string>, stack: seq<string>, last: string,
                    output': seq<string>, stack': seq<string>)
    requires i < |tokens| && (i > 0 ==> |tokens[i - 1]| > 0)
    requires Scanned(tokens, i, output, stack, last)
    requires Operands(output') == Operands(output) + OperandsAdded(tokens[i], last)
    requires AllOperators(stack') && ScanState(tokens[i], stack')
    ensures Scanned(tokens, i + 1, output', stack', tokens[i])
  {
    PaddedOperands(tokens, i);
  }

  /** `PostfixStep` on the `i`-th token keeps the scan's invariant. */
  method ScanStep(ghost tokens: seq<string>, ghost i: nat, output: seq<string>, stack: seq<string>, token: string, last: string)
    returns (r: Result<(seq<string>, seq<string>)>)
    requires i < |tokens| && token == tokens[i] && |token| > 0 && (i > 0 ==> |tokens[i - 1]| > 0)
    requires Scanned(tokens, i, output, stack, last)
    ensures r.Ok? ==> Scanned(tokens, i + 1, r.value.0, r.value.1, token)
    ensures r.Fail? ==> r.failure == UndefinedBehavior && token == ")"
  {
    r := PostfixStep(output, stack, token, last);
    if r.Ok? {
      ScanAdvance(tokens, i, output, stack, last, r.value.0, r.value.1);
    }
  }

  lemma WholePrefix(ts: seq<string>)
    ensures ts[..|ts|] == ts && ts[..0] == []
  {
  }

  /** The scan of `postfix` over its token list. */
  method PostfixOf(tokens: seq<string>) returns (r: Result<seq<string>>)
    requires forall j :: 0 <= j < |tokens| ==> |tokens[j]| > 0
    ensures r.Ok? ==> Operands(r.value) == Operands(Padded(tokens))
    ensures r.Fail? ==> r.failure == UndefinedBehavior && ")" in tokens
  {
    var scanned := ScanTokens(tokens);
    if scanned.Fail? {
      return Fail(scanned.failure);
    }
    var output := FlushOperators(scanned.value.0, scanned.value.1);
    return Ok(output);
  }

  /** The token loop of `postfix`: the output so far and the operator stack left over. */
  method ScanTokens(tokens: seq<string>) returns (r: Result<(seq<string>, seq<string>)>)
    requires forall j :: 0 <= j < |tokens| ==> |tokens[j]| > 0
    ensures r.Ok? ==> Operands(r.value.0) == Operands(Padded(tokens))
    ensures r.Ok? ==> AllOperators(r.value.1)
    ensures r.Fail? ==> r.failure == UndefinedBehavior && ")" in tokens
  {
    var output: seq<string> := [];
    var stack: seq<string> := [];
    var last := "";
    var i := 0;
    WholePrefix(tokens);
    while i < |tokens|
      invariant Scanned(tokens, i, output, stack, last)
    {
      var token := tokens[i];
      var step := ScanStep(tokens, i, output, stack, token, last);
      if step.Fail? {
        return Fail(step.failure);
      }
      output, stack := step.value.0, step.value.1;
      last := token;
      i := i + 1;
    }
    WholePrefix(tokens);
    return Ok((output, stack));
  }

  /** After the last token every operator left on the stack goes to the output, top first. */
  method FlushOperators(output: seq<string>, stack: seq<string>) returns (output': seq<string>)
    requires AllOperators(stack)
    ensures output' == output + Reversed(stack)
    ensures Operands(output') == Operands(output)
  {
    output' := output;
    var stack' := stack;
    while stack' != []
      invariant |stack'| <= |stack| && stack' == stack[..|stack'|]
      invariant output' == output + Reversed(stack[|stack'|..])
      invariant Operands(output') == Operands(output)
      invariant AllOperators(stack')
    {
      output', stack' := PopOperator(output', stack');
    }
  }

  /** `s` back to front. */
  function Reversed(s: seq<string>): (r: seq<string>)
    ensures |r| == |s| && forall j :: 0 <= j < |s| ==> r[j] == s[|s| - 1 - j]
  {
    if s == [] then [] else [s[|s| - 1]] + Reversed(s[..|s| - 1])
  }
}
