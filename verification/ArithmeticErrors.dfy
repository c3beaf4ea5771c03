/** Which problem the calculator reports for text that is no expression (cmd/api/smart_tools.go). */
module ArithmeticErrors {
  import opened Wrappers
  import opened Text
  import opened Arithmetic

  /** Text that goes wrong where an operand is due, after anything that went right. */
  datatype Broken =
    | Ends(pad: string)
    | Odd(pad: string, text: string)
    | Unclosed(pad: string, inner: Sum, rest: string)
    | Inside(pad: string, at: Broken)
    | AfterSign(pad: string, minus: bool, at: Broken)
    | AfterPower(base: Unary, pad: string, at: Broken)
    | AfterTerm(left: Term, pad: string, op: MulOp, at: Broken)
    | AfterSum(sum: Sum, pad: string, minus: bool, at: Broken)

  function Level(b: Broken): nat {
    match b
    case AfterPower(_, _, _) => 1
    case AfterTerm(_, _, _, _) => 2
    case AfterSum(_, _, _, _) => 3
    case _ => 0
  }

  /** Operands bind as in the grammar, and what went right has a value. */
  ghost predicate BrokenOk<T>(ops: Floats<T>, b: Broken) {
    match b
    case Ends(pad) => Blank(pad)
    case Odd(pad, text) =>
      && Blank(pad) && text != [] && !IsBlank(text[0])
      && !IsDigit(text[0]) && text[0] != '.' && text[0] != '(' && text[0] != '+' && text[0] != '-'
    case Unclosed(pad, inner, rest) =>
      && Blank(pad) && SumOk(inner) && SumEnds(rest) && !StartsWith(Skip(rest), ')') && Eval(ops, inner).Ok?
    case Inside(pad, at) => Blank(pad) && BrokenOk(ops, at)
    case AfterSign(pad, _, at) => Blank(pad) && BrokenOk(ops, at) && Level(at) == 0
    case AfterPower(base, pad, at) =>
      UnaryOk(base) && EvalUnary(ops, base).Ok? && Blank(pad) && BrokenOk(ops, at) && Level(at) <= 1
    case AfterTerm(left, pad, _, at) =>
      TermOk(left) && EvalTerm(ops, left).Ok? && Blank(pad) && BrokenOk(ops, at) && Level(at) <= 1
    case AfterSum(left, pad, _, at) =>
      SumOk(left) && Eval(ops, left).Ok? && Blank(pad) && BrokenOk(ops, at) && Level(at) <= 2
  }

  function Spelled(b: Broken): string {
    match b
    case Ends(pad) => pad
    case Odd(pad, text) => pad + text
    case Unclosed(pad, inner, rest) => pad + ("(" + (Render(inner) + rest))
    case Inside(pad, at) => pad + ("(" + Spelled(at))
    case AfterSign(pad, minus, at) => pad + (Sign(minus) + Spelled(at))
    case AfterPower(base, pad, at) => RenderUnary(base) + (pad + "^" + Spelled(at))
    case AfterTerm(left, pad, op, at) => RenderTerm(left) + (pad + Symbol(op) + Spelled(at))
    case AfterSum(left, pad, minus, at) => Render(left) + (pad + Sign(minus) + Spelled(at))
  }

  /** The text is over, or something else stands there, or a parenthesis is not closed. */
  function ProblemOf(b: Broken): Problem {
    match b
    case Ends(_) => UnexpectedEnd
    case Odd(_, _) => ExpectedNumber
    case Unclosed(_, _, _) => MissingParenthesis
    case Inside(_, at) => ProblemOf(at)
    case AfterSign(_, _, at) => ProblemOf(at)
    case AfterPower(_, _, at) => ProblemOf(at)
    case AfterTerm(_, _, _, at) => ProblemOf(at)
    case AfterSum(_, _, _, at) => ProblemOf(at)
  }

  lemma PrimaryFails<T>(ops: Floats<T>, pad: string, t: string, p: Problem)
    requires Blank(pad) && Skip(t) == t && !StartsWith(t, '+') && !StartsWith(t, '-') && ParsePrimary(ops, t) == Fail(p)
    ensures ParseUnary(ops, pad + t) == Fail(p)
  {
    hide ParsePrimary;
    SkipPad(pad, t);
  }

  lemma {:induction false} UnaryBreaks<T>(ops: Floats<T>, b: Broken)
    requires BrokenOk(ops, b) && Level(b) == 0
    ensures ParseUnary(ops, Spelled(b)) == Fail(ProblemOf(b))
    decreases b, 0
  {
    match b
    case Ends(pad) =>
      assert pad + [] == pad && Skip([]) == [];
      PrimaryFails(ops, pad, [], UnexpectedEnd);
    case Odd(pad, text) =>
      assert Skip(text) == text;
      OddFails(ops, text);
      PrimaryFails(ops, pad, text, ExpectedNumber);
    case Unclosed(pad, inner, rest) =>
      UnclosedFails(ops, inner, rest);
      PrimaryFails(ops, pad, "(" + (Render(inner) + rest), MissingParenthesis);
    case Inside(pad, at) =>
      SumBreaks(ops, at);
      InsideFails(ops, Spelled(at), ProblemOf(at));
      PrimaryFails(ops, pad, "(" + Spelled(at), ProblemOf(at));
    case AfterSign(pad, minus, at) =>
      UnaryBreaks(ops, at);
      SignFails(ops, pad, minus, Spelled(at), ProblemOf(at));
  }

  lemma OddFails<T>(ops: Floats<T>, text: string)
    requires text != [] && !IsBlank(text[0]) && !IsDigit(text[0]) && text[0] != '.' && text[0] != '('
    ensures ParsePrimary(ops, text) == Fail(ExpectedNumber)
  {
    assert Skip(text) == text && NumberLength(text, false) == 0;
  }

  lemma UnclosedFails<T>(ops: Floats<T>, inner: Sum, rest: string)
    requires SumOk(inner) && SumEnds(rest) && !StartsWith(Skip(rest), ')') && Eval(ops, inner).Ok?
    ensures var t := "(" + (Render(inner) + rest);
            ParsePrimary(ops, t) == Fail(MissingParenthesis) && Skip(t) == t && t[0] == '('
  {
    hide ParseSum, Eval, SumOk, Render, SumEnds;
    var t := "(" + (Render(inner) + rest);
    assert Skip(t) == t && t[1..] == Render(inner) + rest;
    SumParses(ops, inner, rest);
    SkipTwice(rest);
  }

  lemma InsideFails<T>(ops: Floats<T>, text: string, p: Problem)
    requires ParseSum(ops, text) == Fail(p)
    ensures ParsePrimary(ops, "(" + text) == Fail(p) && Skip("(" + text) == "(" + text
  {
    hide ParseSum;
    var t := "(" + text;
    assert Skip(t) == t && t[1..] == text;
  }

  lemma SignFails<T>(ops: Floats<T>, pad: string, minus: bool, text: string, p: Problem)
    requires Blank(pad) && ParseUnary(ops, text) == Fail(p)
    ensures ParseUnary(ops, pad + (Sign(minus) + text)) == Fail(p)
  {
    var t := Sign(minus) + text;
    SkipPad(pad, t);
    assert Skip(t) == t && t[1..] == text;
  }

  lemma {:induction false} PowerBreaks<T>(ops: Floats<T>, b: Broken)
    requires BrokenOk(ops, b) && Level(b) <= 1
    ensures ParsePower(ops, Spelled(b)) == Fail(ProblemOf(b))
    decreases b, 1
  {
    hide ParseUnary, EvalUnary, UnaryOk;
    if Level(b) == 0 {
      UnaryBreaks(ops, b);
    } else {
      var AfterPower(base, pad, at) := b;
      PowerBreaks(ops, at);
      var tail := Spelled(at);
      OperatorAhead(pad, '^', tail);
      UnaryParses(ops, base, pad + "^" + tail);
      assert ("^" + tail)[1..] == tail;
    }
  }

  lemma {:induction false} TermBreaks<T>(ops: Floats<T>, b: Broken)
    requires BrokenOk(ops, b) && Level(b) <= 2
    ensures ParseTerm(ops, Spelled(b)) == Fail(ProblemOf(b))
    decreases b, 2
  {
    hide ParsePower, EvalTerm, TermOk;
    if Level(b) <= 1 {
      PowerBreaks(ops, b);
    } else {
      var AfterTerm(left, pad, op, at) := b;
      PowerBreaks(ops, at);
      var tail, c := Spelled(at), Symbol(op)[0];
      assert pad + Symbol(op) + tail == pad + [c] + tail;
      OperatorAhead(pad, c, tail);
      TermReaches(ops, left, pad + [c] + tail);
      assert ([c] + tail)[1..] == tail;
    }
  }

  lemma {:induction false} SumBreaks<T>(ops: Floats<T>, b: Broken)
    requires BrokenOk(ops, b)
    ensures ParseSum(ops, Spelled(b)) == Fail(ProblemOf(b))
    decreases b, 3
  {
    hide ParseTerm, Eval, SumOk;
    if Level(b) <= 2 {
      TermBreaks(ops, b);
    } else {
      var AfterSum(left, pad, minus, at) := b;
      TermBreaks(ops, at);
      var tail, c := Spelled(at), Sign(minus)[0];
      assert pad + Sign(minus) + tail == pad + [c] + tail;
      OperatorAhead(pad, c, tail);
      SumReaches(ops, left, pad + [c] + tail);
      assert ([c] + tail)[1..] == tail;
    }
  }

  /** Text that breaks is reported with the problem of the place where it does. */
  lemma BrokenIsReported<T>(ops: Floats<T>, b: Broken)
    requires BrokenOk(ops, b) && Spelled(b) != [] && TrimSpace(Spelled(b)) == Spelled(b) &&
             ByteLength(Spelled(b)) <= 256
    ensures Evaluated(ops, Spelled(b)) == Err(ProblemOf(b))
  {
    hide ParseSum, TrimSpace, ByteLength;
    SumBreaks(ops, b);
  }

  /** An expression with something after it that cannot continue it is invalid. */
  lemma LeftoverIsInvalid<T>(ops: Floats<T>, e: Sum, rest: string)
    requires SumOk(e) && Eval(ops, e).Ok? && SumEnds(rest) && Skip(rest) != []
    requires TrimSpace(Render(e) + rest) == Render(e) + rest && ByteLength(Render(e) + rest) <= 256
    ensures Evaluated(ops, Render(e) + rest) == Err(Invalid)
  {
    hide ParseSum, TrimSpace, ByteLength, SumEnds, SumOk, Eval;
    SumParses(ops, e, rest);
    SkipTwice(rest);
  }

  /** Nothing but white space, or more than 256 bytes, is not even looked at. */
  lemma NothingIsReported<T>(ops: Floats<T>, input: string)
    requires TrimSpace(input) == [] || ByteLength(TrimSpace(input)) > 256
    ensures Evaluated(ops, input) == Err(EmptyOrTooLong)
  {
  }
}
