/** The calculator's recursive-descent parser (cmd/api/smart_tools.go).

  float64 is uninterpreted: every result holds for all number operations.  The parser is proved
  against the grammar below, whose Render writes a derivation out with arbitrary blanks.
 */
module Arithmetic {
  import opened Wrappers
  import opened Text

  datatype Problem =
    | EmptyOrTooLong | UnexpectedEnd | MissingParenthesis | ExpectedNumber | BadNumber
    | DivisionByZero | ModuloByZero | Invalid

  datatype MulOp = Times | Over | Modulo

  /** float64 as the parser uses it; number is strconv.ParseFloat. */
  datatype Floats<!T> = Floats(number: string -> Option<T>, negate: T -> T, add: (T, T) -> T, subtract: (T, T) -> T,
                               multiply: (T, T) -> T, divide: (T, T) -> T, modulo: (T, T) -> T, power: (T, T) -> T,
                               isZero: T -> bool, isFinite: T -> bool)

  // -------------------------------------------------------------- the parser

  /** What a parse method leaves: its value and the unread text, or an error. */
  datatype Outcome<+T> = Done(value: T, rest: string) | Fail(problem: Problem)

  predicate IsBlank(c: char) { c == ' ' || c == '\t' }

  function Skip(t: string): (rest: string)
    ensures |rest| <= |t|
    ensures rest != [] ==> !IsBlank(rest[0])
  {
    if t != [] && IsBlank(t[0]) then Skip(t[1..]) else t
  }

  predicate StartsWith(t: string, c: char) { t != [] && t[0] == c }

  function MulOpOf(c: char): Option<MulOp> {
    if c == '*' then Some(Times) else if c == '/' then Some(Over) else if c == '%' then Some(Modulo) else None
  }

  function Combine<T>(ops: Floats<T>, op: MulOp, left: T, right: T): Result<T, Problem> {
    match op
    case Times => Ok(ops.multiply(left, right))
    case Over => if ops.isZero(right) then Err(DivisionByZero) else Ok(ops.divide(left, right))
    case Modulo => if ops.isZero(right) then Err(ModuloByZero) else Ok(ops.modulo(left, right))
  }

  function ParseSum<T>(ops: Floats<T>, t: string): (r: Outcome<T>)
    ensures r.Done? ==> |r.rest| < |t|
    decreases |t|, 5
  {
    match ParseTerm(ops, t)
    case Fail(e) => Fail(e)
    case Done(v, rest) => SumLoop(ops, rest, v)
  }

  function SumLoop<T>(ops: Floats<T>, t: string, left: T): (r: Outcome<T>)
    ensures r.Done? ==> |r.rest| <= |t|
    decreases |t|, 6
  {
    var u := Skip(t);
    if !StartsWith(u, '+') && !StartsWith(u, '-') then Done(left, u)
    else
      match ParseTerm(ops, u[1..])
      case Fail(e) => Fail(e)
      case Done(right, rest) => SumLoop(ops, rest, if u[0] == '+' then ops.add(left, right)
                                                   else ops.subtract(left, right))
  }

  function ParseTerm<T>(ops: Floats<T>, t: string): (r: Outcome<T>)
    ensures r.Done? ==> |r.rest| < |t|
    decreases |t|, 4
  {
    match ParsePower(ops, t)
    case Fail(e) => Fail(e)
    case Done(v, rest) => TermLoop(ops, rest, v)
  }

  function TermLoop<T>(ops: Floats<T>, t: string, left: T): (r: Outcome<T>)
    ensures r.Done? ==> |r.rest| <= |t|
    decreases |t|, 5
  {
    var u := Skip(t);
    if u == [] || MulOpOf(u[0]) == None then Done(left, u)
    else
      match ParsePower(ops, u[1..])
      case Fail(e) => Fail(e)
      case Done(right, rest) =>
        match Combine(ops, MulOpOf(u[0]).value, left, right)
        case Err(e) => Fail(e)
        case Ok(v) => TermLoop(ops, rest, v)
  }

  function ParsePower<T>(ops: Floats<T>, t: string): (r: Outcome<T>)
    ensures r.Done? ==> |r.rest| < |t|
    decreases |t|, 3
  {
    match ParseUnary(ops, t)
    case Fail(e) => Fail(e)
    case Done(left, rest) =>
      var u := Skip(rest);
      if !StartsWith(u, '^') then Done(left, u)
      else
        match ParsePower(ops, u[1..])
        case Fail(e) => Fail(e)
        case Done(right, after) => Done(ops.power(left, right), after)
  }

  function ParseUnary<T>(ops: Floats<T>, t: string): (r: Outcome<T>)
    ensures r.Done? ==> |r.rest| < |t|
    decreases |t|, 2
  {
    var u := Skip(t);
    if !StartsWith(u, '+') && !StartsWith(u, '-') then ParsePrimary(ops, u)
    else
      match ParseUnary(ops, u[1..])
      case Fail(e) => Fail(e)
      case Done(v, rest) => Done(if u[0] == '-' then ops.negate(v) else v, rest)
  }

  predicate IsDigit(c: char) { '0' <= c <= '9' }

  /** How much of t the number scan takes. */
  function NumberLength(t: string, dot: bool): (n: nat)
    ensures n <= |t|
  {
    if t != [] && IsDigit(t[0]) then 1 + NumberLength(t[1..], dot)
    else if StartsWith(t, '.') && !dot then 1 + NumberLength(t[1..], true)
    else 0
  }

  function ParsePrimary<T>(ops: Floats<T>, t: string): (r: Outcome<T>)
    ensures r.Done? ==> |r.rest| < |t|
    decreases |t|, 1
  {
    var u := Skip(t);
    if u == [] then Fail(UnexpectedEnd)
    else if u[0] == '(' then
      match ParseSum(ops, u[1..])
      case Fail(e) => Fail(e)
      case Done(v, rest) =>
        var w := Skip(rest);
        if !StartsWith(w, ')') then Fail(MissingParenthesis) else Done(v, w[1..])
    else
      var n := NumberLength(u, false);
      if n == 0 then Fail(ExpectedNumber)
      else
        match ops.number(u[..n])
        case None => Fail(BadNumber)
        case Some(v) => Done(v, u[n..])
  }

  function Finish<T>(ops: Floats<T>, r: Outcome<T>): Result<T, Problem> {
    match r
    case Fail(e) => Err(e)
    case Done(v, rest) => if Skip(rest) != [] || !ops.isFinite(v) then Err(Invalid) else Ok(v)
  }

  function Evaluated<T>(ops: Floats<T>, input: string): Result<T, Problem> {
    var s := TrimSpace(input);
    if s == [] || ByteLength(s) > 256 then Err(EmptyOrTooLong)
    else Finish(ops, ParseSum(ops, s))
  }

  // ----------------------------------------------------- the parser in place

  /** The cursor i over s, advanced by every parse method. */
  class ExpressionParser<T> {
    const ops: Floats<T>
    const s: string
    var i: nat

    constructor (ops: Floats<T>, s: string)
      ensures this.ops == ops && this.s == s && i == 0
    {
      this.ops, this.s, i := ops, s, 0;
    }

    predicate Valid()
      reads this
    {
      i <= |s|
    }

    ghost function Unread(): string
      reads this
      requires Valid()
    {
      s[i..]
    }

    /** The method's result and cursor are what the specification says of the text it started on. */
    ghost predicate Matches(r: Result<T, Problem>, spec: Outcome<T>)
      reads this
      requires Valid()
    {
      match spec
      case Fail(e) => r == Err(e)
      case Done(v, rest) => r == Ok(v) && Unread() == rest
    }

    method SkipSpaces()
      requires Valid()
      modifies this`i
      ensures Valid() && i >= old(i) && Unread() == Skip(old(Unread()))
    {
      while i < |s| && IsBlank(s[i])
        invariant Valid() && i >= old(i)
        invariant Skip(s[i..]) == Skip(old(s[i..]))
      {
        assert s[i..][1..] == s[i + 1..];
        i := i + 1;
      }
    }

    method Expression() returns (r: Result<T, Problem>)
      requires Valid()
      modifies this`i
      ensures Valid() && i >= old(i) && Matches(r, ParseSum(ops, old(Unread())))
      ensures r.Ok? ==> i > old(i)
      decreases |s| - i, 5
    {
      hide ParseTerm, Skip;
      r := Term();
      if r.Err? { return; }
      var left := r.value;
      while true
        invariant Valid() && i > old(i)
        invariant SumLoop(ops, s[i..], left) == ParseSum(ops, old(s[i..]))
        decreases |s| - i
      {
        ghost var t := s[i..];
        SkipSpaces();
        if i >= |s| || (s[i] != '+' && s[i] != '-') { return Ok(left); }
        var op := s[i];
        assert s[i..][1..] == s[i + 1..];
        i := i + 1;
        r := Term();
        if r.Err? { return; }
        left := if op == '+' then ops.add(left, r.value) else ops.subtract(left, r.value);
      }
    }

    method Term() returns (r: Result<T, Problem>)
      requires Valid()
      modifies this`i
      ensures Valid() && i >= old(i) && Matches(r, ParseTerm(ops, old(Unread())))
      ensures r.Ok? ==> i > old(i)
      decreases |s| - i, 4
    {
      hide ParsePower, Skip;
      r := Power();
      if r.Err? { return; }
      var left := r.value;
      while true
        invariant Valid() && i > old(i)
        invariant TermLoop(ops, s[i..], left) == ParseTerm(ops, old(s[i..]))
        decreases |s| - i
      {
        SkipSpaces();
        if i >= |s| || MulOpOf(s[i]).None? { return Ok(left); }
        var op := MulOpOf(s[i]).value;
        assert s[i..][1..] == s[i + 1..];
        i := i + 1;
        r := Power();
        if r.Err? { return; }
        var right := r.value;
        match op
        case Times => left := ops.multiply(left, right);
        case Over =>
          if ops.isZero(right) { return Err(DivisionByZero); }
          left := ops.divide(left, right);
        case Modulo =>
          if ops.isZero(right) { return Err(ModuloByZero); }
          left := ops.modulo(left, right);
      }
    }

    method Power() returns (r: Result<T, Problem>)
      requires Valid()
      modifies this`i
      ensures Valid() && i >= old(i) && Matches(r, ParsePower(ops, old(Unread())))
      ensures r.Ok? ==> i > old(i)
      decreases |s| - i, 3
    {
      hide ParseUnary, Skip;
      r := Unary();
      if r.Err? { return; }
      var left := r.value;
      SkipSpaces();
      if i < |s| && s[i] == '^' {
        assert s[i..][1..] == s[i + 1..];
        i := i + 1;
        r := Power();
        if r.Err? { return; }
        left := ops.power(left, r.value);
      }
      r := Ok(left);
    }

    method Unary() returns (r: Result<T, Problem>)
      requires Valid()
      modifies this`i
      ensures Valid() && i >= old(i) && Matches(r, ParseUnary(ops, old(Unread())))
      ensures r.Ok? ==> i > old(i)
      decreases |s| - i, 2
    {
      hide ParsePrimary, Skip;
      SkipSpaces();
      if i < |s| && (s[i] == '+' || s[i] == '-') {
        var op := s[i];
        assert s[i..][1..] == s[i + 1..];
        i := i + 1;
        r := Unary();
        if r.Ok? && op == '-' { r := Ok(ops.negate(r.value)); }
        return;
      }
      r := Primary();
    }

    method Primary() returns (r: Result<T, Problem>)
      requires Valid()
      modifies this`i
      ensures Valid() && i >= old(i) && Matches(r, ParsePrimary(ops, old(Unread())))
      ensures r.Ok? ==> i > old(i)
      decreases |s| - i, 1
    {
      hide ParseSum, Skip, NumberLength;
      SkipSpaces();
      if i >= |s| { return Err(UnexpectedEnd); }
      if s[i] == '(' {
        assert s[i..][1..] == s[i + 1..];
        i := i + 1;
        r := Expression();
        if r.Err? { return; }
        SkipSpaces();
        if i >= |s| || s[i] != ')' { return Err(MissingParenthesis); }
        assert s[i..][1..] == s[i + 1..];
        i := i + 1;
        return;
      }
      var start := i;
      ScanNumber();
      assert s[start..][..i - start] == s[start..i] && s[start..][i - start..] == s[i..];
      if start == i { return Err(ExpectedNumber); }
      var v := ops.number(s[start..i]);
      r := if v.Some? then Ok(v.value) else Err(BadNumber);
    }

    method ScanNumber()
      requires Valid()
      modifies this`i
      ensures Valid() && i == old(i) + NumberLength(old(Unread()), false)
    {
      var dot := false;
      while i < |s| && (IsDigit(s[i]) || (s[i] == '.' && !dot))
        invariant old(i) <= i <= |s|
        invariant NumberLength(old(s[i..]), false) == i - old(i) + NumberLength(s[i..], dot)
      {
        assert s[i..][1..] == s[i + 1..];
        if s[i] == '.' { dot := true; }
        i := i + 1;
      }
    }
  }

  method EvalExpression<T>(ops: Floats<T>, expression: string) returns (r: Result<T, Problem>)
    ensures r == Evaluated(ops, expression)
  {
    var s := TrimSpace(expression);
    if s == [] || ByteLength(s) > 256 { return Err(EmptyOrTooLong); }
    var p := new ExpressionParser(ops, s);
    assert p.Unread() == s;
    r := p.Expression();
    if r.Err? { return; }
    p.SkipSpaces();
    if p.i != |s| || !ops.isFinite(r.value) { return Err(Invalid); }
  }

  // -------------------------------------------------------------- the grammar

  // Every token carries the blanks written before it.  + and - associate to the left, as do * / %;
  // ^ associates to the right; a sign binds tighter than ^.

  datatype Sum = JustTerm(term: Term) | AddSub(left: Sum, pad: string, minus: bool, right: Term)

  datatype Term = JustPower(power: Power) | MulDiv(left: Term, pad: string, op: MulOp, right: Power)

  datatype Power = JustUnary(unary: Unary) | Raise(base: Unary, pad: string, exponent: Power)

  datatype Unary = JustPrimary(primary: Primary) | Signed(pad: string, minus: bool, operand: Unary)

  datatype Primary = Number(pad: string, text: string) | Group(pad: string, inner: Sum, close: string)

  predicate Blank(pad: string) { forall k | 0 <= k < |pad| :: pad[k] == ' ' || pad[k] == '\t' }

  /** Digits with at most one decimal point. */
  predicate Numeral(text: string) {
    && text != []
    && (forall k | 0 <= k < |text| :: '0' <= text[k] <= '9' || text[k] == '.')
    && (forall j, k | 0 <= j < k < |text| :: text[j] != '.' || text[k] != '.')
  }

  predicate SumOk(e: Sum) {
    match e
    case JustTerm(t) => TermOk(t)
    case AddSub(l, pad, _, r) => SumOk(l) && Blank(pad) && TermOk(r)
  }

  predicate TermOk(e: Term) {
    match e
    case JustPower(p) => PowerOk(p)
    case MulDiv(l, pad, _, r) => TermOk(l) && Blank(pad) && PowerOk(r)
  }

  predicate PowerOk(e: Power) {
    match e
    case JustUnary(u) => UnaryOk(u)
    case Raise(b, pad, x) => UnaryOk(b) && Blank(pad) && PowerOk(x)
  }

  predicate UnaryOk(e: Unary) {
    match e
    case JustPrimary(p) => PrimaryOk(p)
    case Signed(pad, _, u) => Blank(pad) && UnaryOk(u)
  }

  predicate PrimaryOk(e: Primary) {
    match e
    case Number(pad, text) => Blank(pad) && Numeral(text)
    case Group(pad, inner, close) => Blank(pad) && SumOk(inner) && Blank(close)
  }

  function Sign(minus: bool): string { if minus then "-" else "+" }

  function Symbol(op: MulOp): string {
    match op case Times => "*" case Over => "/" case Modulo => "%"
  }

  function Render(e: Sum): string {
    match e
    case JustTerm(t) => RenderTerm(t)
    case AddSub(l, pad, minus, r) => Render(l) + (pad + Sign(minus) + RenderTerm(r))
  }

  function RenderTerm(e: Term): string {
    match e
    case JustPower(p) => RenderPower(p)
    case MulDiv(l, pad, op, r) => RenderTerm(l) + (pad + Symbol(op) + RenderPower(r))
  }

  function RenderPower(e: Power): string {
    match e
    case JustUnary(u) => RenderUnary(u)
    case Raise(b, pad, x) => RenderUnary(b) + (pad + "^" + RenderPower(x))
  }

  function RenderUnary(e: Unary): string {
    match e
    case JustPrimary(p) => RenderPrimary(p)
    case Signed(pad, minus, u) => pad + (Sign(minus) + RenderUnary(u))
  }

  function RenderPrimary(e: Primary): string {
    match e
    case Number(pad, text) => pad + text
    case Group(pad, inner, close) => pad + ("(" + Render(inner) + close + ")")
  }

  function Lift2<T>(l: Result<T, Problem>, r: Result<T, Problem>, f: (T, T) -> Result<T, Problem>): Result<T, Problem> {
    match l
    case Err(_) => l
    case Ok(a) => match r case Err(_) => r case Ok(b) => f(a, b)
  }

  /** The meaning of a derivation: operands left to right, the first error wins. */
  function Eval<T>(ops: Floats<T>, e: Sum): Result<T, Problem> {
    match e
    case JustTerm(t) => EvalTerm(ops, t)
    case AddSub(l, _, minus, r) =>
      Lift2(Eval(ops, l), EvalTerm(ops, r), (a, b) => Ok(if minus then ops.subtract(a, b) else ops.add(a, b)))
  }

  function EvalTerm<T>(ops: Floats<T>, e: Term): Result<T, Problem> {
    match e
    case JustPower(p) => EvalPower(ops, p)
    case MulDiv(l, _, op, r) =>
      match op
      case Times => Lift2(EvalTerm(ops, l), EvalPower(ops, r), (a, b) => Ok(ops.multiply(a, b)))
      case Over =>
        Lift2(EvalTerm(ops, l), EvalPower(ops, r), (a, b) => if ops.isZero(b) then Err(DivisionByZero)
                                                             else Ok(ops.divide(a, b)))
      case Modulo =>
        Lift2(EvalTerm(ops, l), EvalPower(ops, r), (a, b) => if ops.isZero(b) then Err(ModuloByZero)
                                                             else Ok(ops.modulo(a, b)))
  }

  function EvalPower<T>(ops: Floats<T>, e: Power): Result<T, Problem> {
    match e
    case JustUnary(u) => EvalUnary(ops, u)
    case Raise(b, _, x) => Lift2(EvalUnary(ops, b), EvalPower(ops, x), (a, c) => Ok(ops.power(a, c)))
  }

  function EvalUnary<T>(ops: Floats<T>, e: Unary): Result<T, Problem> {
    match e
    case JustPrimary(p) => EvalPrimary(ops, p)
    case Signed(_, minus, u) =>
      match EvalUnary(ops, u)
      case Err(p) => Err(p)
      case Ok(v) => Ok(if minus then ops.negate(v) else v)
  }

  function EvalPrimary<T>(ops: Floats<T>, e: Primary): Result<T, Problem> {
    match e
    case Number(_, text) => if ops.number(text).None? then Err(BadNumber) else Ok(ops.number(text).value)
    case Group(_, inner, _) => Eval(ops, inner)
  }

  // ------------------------------------------------- parsing undoes rendering

  /** The outcome of a parse that stops in front of rest. */
  function Stop<T>(r: Result<T, Problem>, rest: string): Outcome<T> {
    match r case Err(e) => Fail(e) case Ok(v) => Done(v, rest)
  }

  predicate NumberEnds(rest: string) { rest == [] || (!IsDigit(rest[0]) && rest[0] != '.') }

  predicate PowerEnds(rest: string) { NumberEnds(rest) && !StartsWith(Skip(rest), '^') }

  predicate TermEnds(rest: string) { PowerEnds(rest) && (Skip(rest) == [] || MulOpOf(Skip(rest)[0]) == None) }

  predicate SumEnds(rest: string) { TermEnds(rest) && !StartsWith(Skip(rest), '+') && !StartsWith(Skip(rest), '-') }

  lemma {:induction false} SkipPad(pad: string, t: string)
    requires Blank(pad)
    ensures Skip(pad + t) == Skip(t)
  {
    if pad == [] {
      assert pad + t == t;
    } else {
      assert (pad + t)[1..] == pad[1..] + t;
      SkipPad(pad[1..], t);
    }
  }

  lemma SkipTwice(t: string)
    ensures Skip(Skip(t)) == Skip(t)
  {
    assert Skip(t) == [] || !IsBlank(Skip(t)[0]);
  }

  /** An operator token after blanks: what a loop sees, and why the operand before it has ended. */
  lemma OperatorAhead(pad: string, c: char, tail: string)
    requires Blank(pad) && !IsBlank(c) && !IsDigit(c) && c != '.'
    ensures Skip(pad + [c] + tail) == [c] + tail && NumberEnds(pad + [c] + tail)
  {
    assert pad + [c] + tail == pad + ([c] + tail);
    SkipPad(pad, [c] + tail);
    assert pad != [] ==> IsBlank(pad[0]);
  }

  lemma {:induction false} NumberMunch(text: string, rest: string, dot: bool)
    requires forall k | 0 <= k < |text| :: IsDigit(text[k]) || text[k] == '.'
    requires forall j, k | 0 <= j < k < |text| :: text[j] != '.' || text[k] != '.'
    requires dot ==> forall k | 0 <= k < |text| :: text[k] != '.'
    requires NumberEnds(rest)
    ensures NumberLength(text + rest, dot) == |text|
  {
    if text == [] {
      assert text + rest == rest;
    } else {
      assert (text + rest)[1..] == text[1..] + rest;
      NumberMunch(text[1..], rest, dot || text[0] == '.');
    }
  }

  lemma {:induction false} PrimaryParses<T>(ops: Floats<T>, e: Primary, rest: string)
    requires PrimaryOk(e) && NumberEnds(rest)
    ensures ParsePrimary(ops, RenderPrimary(e) + rest) == Stop(EvalPrimary(ops, e), rest)
    decreases e
  {
    match e
    case Number(pad, text) =>
      assert RenderPrimary(e) + rest == pad + (text + rest);
      SkipPad(pad, text + rest);
      NumberMunch(text, rest, false);
      assert (text + rest)[..|text|] == text && (text + rest)[|text|..] == rest;
      assert Skip(text + rest) == text + rest;
    case Group(pad, inner, close) =>
      hide NumberLength, Numeral;
      var end := close + ")" + rest;
      var body := "(" + (Render(inner) + end);
      assert RenderPrimary(e) + rest == pad + body;
      SkipPad(pad, body);
      assert Skip(body) == body && body[1..] == Render(inner) + end;
      OperatorAhead(close, ')', rest);
      SumParses(ops, inner, end);
      SkipTwice(end);
      assert (")" + rest)[1..] == rest;
  }

  lemma {:induction false} UnaryParses<T>(ops: Floats<T>, e: Unary, rest: string)
    requires UnaryOk(e) && NumberEnds(rest)
    ensures ParseUnary(ops, RenderUnary(e) + rest) == Stop(EvalUnary(ops, e), rest)
    decreases e
  {
    match e
    case JustPrimary(p) =>
      PrimaryParses(ops, p, rest);
      PrimaryHead(p, rest);
      SkipTwice(RenderPrimary(p) + rest);
    case Signed(pad, minus, u) =>
      var body := Sign(minus) + (RenderUnary(u) + rest);
      assert RenderUnary(e) + rest == pad + body;
      SkipPad(pad, body);
      assert Skip(body) == body && body[1..] == RenderUnary(u) + rest;
      UnaryParses(ops, u, rest);
  }

  /** A primary does not look like a sign. */
  lemma PrimaryHead(p: Primary, rest: string)
    requires PrimaryOk(p)
    ensures var u := Skip(RenderPrimary(p) + rest); u != [] && (IsDigit(u[0]) || u[0] == '.' || u[0] == '(')
  {
    var core := match p case Number(_, text) => text case Group(_, inner, close) => "(" + Render(inner) + close + ")";
    assert RenderPrimary(p) + rest == p.pad + (core + rest);
    SkipPad(p.pad, core + rest);
    assert Skip(core + rest) == core + rest && (core + rest)[0] == core[0];
  }

  lemma {:induction false} PowerParses<T>(ops: Floats<T>, e: Power, rest: string)
    requires PowerOk(e) && PowerEnds(rest)
    ensures ParsePower(ops, RenderPower(e) + rest) == Stop(EvalPower(ops, e), Skip(rest))
    decreases e
  {
    match e
    case JustUnary(u) => UnaryParses(ops, u, rest);
    case Raise(b, pad, x) =>
      var tail := RenderPower(x) + rest;
      assert RenderPower(e) + rest == RenderUnary(b) + (pad + "^" + tail);
      OperatorAhead(pad, '^', tail);
      UnaryParses(ops, b, pad + "^" + tail);
      assert ("^" + tail)[1..] == tail;
      PowerParses(ops, x, rest);
  }

  /** After a term, the parser is in its loop holding the term's value. */
  lemma {:induction false} TermReaches<T>(ops: Floats<T>, e: Term, rest: string)
    requires TermOk(e) && PowerEnds(rest)
    ensures ParseTerm(ops, RenderTerm(e) + rest) ==
            match EvalTerm(ops, e) case Err(p) => Fail(p) case Ok(v) => TermLoop(ops, rest, v)
    decreases e, 0
  {
    SkipTwice(rest);
    hide ParsePower, RenderPower, PowerOk, EvalPower, Skip;
    match e
    case JustPower(p) => PowerParses(ops, p, rest);
    case MulDiv(l, pad, op, r) =>
      var tail := RenderPower(r) + rest;
      var c := Symbol(op)[0];
      assert RenderTerm(e) + rest == RenderTerm(l) + (pad + [c] + tail);
      OperatorAhead(pad, c, tail);
      TermReaches(ops, l, pad + [c] + tail);
      assert ([c] + tail)[1..] == tail;
      PowerParses(ops, r, rest);
  }

  lemma TermParses<T>(ops: Floats<T>, e: Term, rest: string)
    requires TermOk(e) && TermEnds(rest)
    ensures ParseTerm(ops, RenderTerm(e) + rest) == Stop(EvalTerm(ops, e), Skip(rest))
    decreases e, 1
  {
    TermReaches(ops, e, rest);
  }

  lemma {:induction false} SumReaches<T>(ops: Floats<T>, e: Sum, rest: string)
    requires SumOk(e) && TermEnds(rest)
    ensures ParseSum(ops, Render(e) + rest) ==
            match Eval(ops, e) case Err(p) => Fail(p) case Ok(v) => SumLoop(ops, rest, v)
    decreases e, 1
  {
    hide ParseTerm, TermLoop, EvalTerm, RenderTerm;
    SkipTwice(rest);
    match e
    case JustTerm(t) => TermParses(ops, t, rest);
    case AddSub(l, pad, minus, r) =>
      var tail := RenderTerm(r) + rest;
      var c := Sign(minus)[0];
      assert Render(e) + rest == Render(l) + (pad + [c] + tail);
      OperatorAhead(pad, c, tail);
      SumReaches(ops, l, pad + [c] + tail);
      assert ([c] + tail)[1..] == tail;
      TermParses(ops, r, rest);
  }

  /** Parsing a rendered derivation, in front of anything that cannot continue it, gives its value
      (or its first error) and stops right there. */
  lemma SumParses<T>(ops: Floats<T>, e: Sum, rest: string)
    requires SumOk(e) && SumEnds(rest)
    ensures ParseSum(ops, Render(e) + rest) == Stop(Eval(ops, e), Skip(rest))
    decreases e, 2
  {
    SumReaches(ops, e, rest);
  }

  // --------------------------------------------------- the whole calculator

  predicate AllSpace(s: string) { forall k | 0 <= k < |s| :: IsSpace(s[k]) }

  /** Leading blanks do not matter to any parse method. */
  lemma ParseSkips<T>(ops: Floats<T>, t: string)
    ensures ParseSum(ops, Skip(t)) == ParseSum(ops, t)
  {
    hide ParsePrimary, SumLoop, TermLoop;
    SkipTwice(t);
    assert ParseUnary(ops, Skip(t)) == ParseUnary(ops, t);
    assert ParsePower(ops, Skip(t)) == ParsePower(ops, t);
    assert ParseTerm(ops, Skip(t)) == ParseTerm(ops, t);
  }

  /** A rendering ends in a digit, a point or a closing parenthesis. */
  predicate Closed(s: string) {
    s != [] && (var c := s[|s| - 1]; IsDigit(c) || c == '.' || c == ')')
  }

  lemma {:induction false} PrimaryCloses(e: Primary)
    requires PrimaryOk(e)
    ensures Closed(RenderPrimary(e))
  {
    if e.Number? { assert RenderPrimary(e)[|RenderPrimary(e)| - 1] == e.text[|e.text| - 1]; }
  }

  lemma {:induction false} UnaryCloses(e: Unary)
    requires UnaryOk(e)
    ensures Closed(RenderUnary(e))
  {
    match e
    case JustPrimary(p) => PrimaryCloses(p);
    case Signed(pad, minus, u) =>
      UnaryCloses(u);
      assert RenderUnary(e)[|RenderUnary(e)| - 1] == RenderUnary(u)[|RenderUnary(u)| - 1];
  }

  lemma {:induction false} PowerCloses(e: Power)
    requires PowerOk(e)
    ensures Closed(RenderPower(e))
  {
    match e
    case JustUnary(u) => UnaryCloses(u);
    case Raise(b, pad, x) =>
      PowerCloses(x);
      assert RenderPower(e)[|RenderPower(e)| - 1] == RenderPower(x)[|RenderPower(x)| - 1];
  }

  lemma {:induction false} TermCloses(e: Term)
    requires TermOk(e)
    ensures Closed(RenderTerm(e))
  {
    match e
    case JustPower(p) => PowerCloses(p);
    case MulDiv(l, pad, op, r) =>
      PowerCloses(r);
      assert RenderTerm(e)[|RenderTerm(e)| - 1] == RenderPower(r)[|RenderPower(r)| - 1];
  }

  lemma {:induction false} SumCloses(e: Sum)
    requires SumOk(e)
    ensures Closed(Render(e))
  {
    match e
    case JustTerm(t) => TermCloses(t);
    case AddSub(l, pad, minus, r) =>
      TermCloses(r);
      assert Render(e)[|Render(e)| - 1] == RenderTerm(r)[|RenderTerm(r)| - 1];
  }

  lemma {:induction false} SkipSplits(t: string) returns (pad: string)
    ensures Blank(pad) && t == pad + Skip(t)
  {
    if t != [] && IsBlank(t[0]) {
      var more := SkipSplits(t[1..]);
      pad := [t[0]] + more;
      assert pad + Skip(t) == [t[0]] + (more + Skip(t[1..])) == [t[0]] + t[1..] == t;
    } else {
      pad := [];
    }
  }

  lemma {:induction false} TrimLeftAll(p: string)
    requires AllSpace(p)
    ensures TrimLeft(p) == []
  {
    if p != [] { TrimLeftAll(p[1..]); }
  }

  lemma {:induction false} TrimRightAll(p: string)
    requires AllSpace(p)
    ensures TrimRight(p) == []
  {
    if p != [] { TrimRightAll(p[..|p| - 1]); }
  }

  /** After its blanks, a rendering starts with a digit, a point, a parenthesis or a sign. */
  predicate Opened(s: string) {
    var u := Skip(s);
    u != [] && (IsDigit(u[0]) || u[0] == '.' || u[0] == '(' || u[0] == '+' || u[0] == '-')
  }

  lemma {:induction false} UnaryOpens(e: Unary, rest: string)
    requires UnaryOk(e)
    ensures Opened(RenderUnary(e) + rest)
  {
    match e
    case JustPrimary(p) => PrimaryHead(p, rest);
    case Signed(pad, minus, u) =>
      assert RenderUnary(e) + rest == pad + (Sign(minus) + RenderUnary(u) + rest);
      SkipPad(pad, Sign(minus) + RenderUnary(u) + rest);
      assert Skip(Sign(minus) + RenderUnary(u) + rest)[0] == Sign(minus)[0];
  }

  lemma {:induction false} PowerOpens(e: Power, rest: string)
    requires PowerOk(e)
    ensures Opened(RenderPower(e) + rest)
  {
    match e
    case JustUnary(u) => UnaryOpens(u, rest);
    case Raise(b, pad, x) =>
      UnaryOpens(b, pad + "^" + RenderPower(x) + rest);
      assert RenderPower(e) + rest == RenderUnary(b) + (pad + "^" + RenderPower(x) + rest);
  }

  lemma {:induction false} TermOpens(e: Term, rest: string)
    requires TermOk(e)
    ensures Opened(RenderTerm(e) + rest)
  {
    match e
    case JustPower(p) => PowerOpens(p, rest);
    case MulDiv(l, pad, op, r) =>
      TermOpens(l, pad + Symbol(op) + RenderPower(r) + rest);
      assert RenderTerm(e) + rest == RenderTerm(l) + (pad + Symbol(op) + RenderPower(r) + rest);
  }

  lemma {:induction false} SumOpens(e: Sum, rest: string)
    requires SumOk(e)
    ensures Opened(Render(e) + rest)
  {
    match e
    case JustTerm(t) => TermOpens(t, rest);
    case AddSub(l, pad, minus, r) =>
      SumOpens(l, pad + Sign(minus) + RenderTerm(r) + rest);
      assert Render(e) + rest == Render(l) + (pad + Sign(minus) + RenderTerm(r) + rest);
  }

  /** Trimming a rendering between spaces leaves it without its leading blanks. */
  lemma CoreIsVisible(t: string)
    requires Closed(t) && Opened(t + [])
    ensures Skip(t) != [] && !IsSpace(Skip(t)[0]) && !IsSpace(Skip(t)[|Skip(t)| - 1])
  {
    assert t + [] == t;
    var pad := SkipSplits(t);
    var core := Skip(t);
    hide Skip;
    assert t == pad + core;
    assert core[|core| - 1] == t[|t| - 1];
  }

  lemma TrimmedRendering(e: Sum, lead: string, trail: string)
    requires SumOk(e) && AllSpace(lead) && AllSpace(trail)
    ensures TrimSpace(lead + Render(e) + trail) == Skip(Render(e)) != []
  {
    SumCloses(e);
    SumOpens(e, []);
    hide Render, SumOk, Skip, Closed, Opened, TrimLeft, TrimRight;
    var t := Render(e);
    CoreIsVisible(t);
    var pad := SkipSplits(t);
    var core := Skip(t);
    TrimAround(lead + pad, core, trail);
    TrimLeftAll(lead + pad);
    TrimRightAll(trail);
    hide TrimSpace, AllSpace;
    assert lead + t + trail == (lead + pad) + core + trail;
    assert [] + core + [] == core;
  }

  /** How the calculator reports the value or first error of a derivation. */
  function Reported<T>(ops: Floats<T>, r: Result<T, Problem>): Result<T, Problem> {
    match r
    case Err(e) => Err(e)
    case Ok(v) => if ops.isFinite(v) then Ok(v) else Err(Invalid)
  }

  /** Evaluating a rendered derivation gives its value or its first error, however it is spaced. */
  lemma EvaluatesRendering<T>(ops: Floats<T>, e: Sum, lead: string, trail: string)
    requires SumOk(e) && AllSpace(lead) && AllSpace(trail)
    ensures var input := lead + Render(e) + trail;
            Evaluated(ops, input) == if ByteLength(TrimSpace(input)) > 256 then Err(EmptyOrTooLong)
                                     else Reported(ops, Eval(ops, e))
  {
    hide ParseSum, TrimSpace, ByteLength;
    TrimmedRendering(e, lead, trail);
    ParseSkips(ops, Render(e));
    SumParses(ops, e, []);
    assert Render(e) + [] == Render(e);
  }

  // ------------------------------------------- only renderings are accepted

  lemma {:induction false} NumberLengthIsNumeral(t: string, dot: bool)
    ensures var n := NumberLength(t, dot);
            && (forall k | 0 <= k < n :: IsDigit(t[k]) || t[k] == '.')
            && (forall j, k | 0 <= j < k < n :: t[j] != '.' || t[k] != '.')
            && (dot ==> forall k | 0 <= k < n :: t[k] != '.')
  {
    if t != [] && (IsDigit(t[0]) || (t[0] == '.' && !dot)) {
      var dot' := dot || t[0] == '.';
      NumberLengthIsNumeral(t[1..], dot');
      assert forall k | 1 <= k < |t| :: t[k] == t[1..][k - 1];
    }
  }

  lemma NumberReads<T>(ops: Floats<T>, t: string, pad: string, u: string) returns (e: Primary)
    requires ParsePrimary(ops, t).Done? && u == Skip(t) && t == pad + u && Blank(pad) && u[0] != '('
    ensures var r := ParsePrimary(ops, t);
            PrimaryOk(e) && t == RenderPrimary(e) + r.rest && EvalPrimary(ops, e) == Ok(r.value)
  {
    hide Skip, ParseSum;
    var n := NumberLength(u, false);
    NumberParses(ops, t, u, n);
    NumberLengthIsNumeral(u, false);
    hide NumberLength, ParsePrimary;
    e := Number(pad, u[..n]);
    assert u == u[..n] + u[n..];
  }

  lemma NumberParses<T>(ops: Floats<T>, t: string, u: string, n: nat)
    requires ParsePrimary(ops, t).Done? && u == Skip(t) && u[0] != '(' && n == NumberLength(u, false)
    ensures 0 < n && ops.number(u[..n]).Some? && ParsePrimary(ops, t) == Done(ops.number(u[..n]).value, u[n..])
  {
    hide NumberLength, ParseSum;
  }

  lemma Bracketed(pad: string, inner: string, close: string, more: string, rest: string)
    ensures pad + ("(" + (inner + close + (more + (")" + rest)))) == pad + ("(" + inner + (close + more) + ")") + rest
  {
  }

  lemma PrimarySkips<T>(ops: Floats<T>, t: string)
    ensures ParsePrimary(ops, Skip(t)) == ParsePrimary(ops, t)
  {
    SkipTwice(t);
    hide Skip, NumberLength, ParseSum;
  }

  lemma {:induction false} PrimaryReads<T>(ops: Floats<T>, t: string) returns (e: Primary)
    requires ParsePrimary(ops, t).Done?
    ensures var r := ParsePrimary(ops, t);
            PrimaryOk(e) && t == RenderPrimary(e) + r.rest && EvalPrimary(ops, e) == Ok(r.value)
    decreases |t|, 1
  {
    hide NumberLength, Render, SumOk, Eval, ParseSum, Skip;
    var pad := SkipSplits(t);
    var u := Skip(t);
    if u[0] == '(' {
      var inner, close := SumReads(ops, u[1..]);
      var rest := ParseSum(ops, u[1..]).rest;
      var more := SkipSplits(rest);
      e := Group(pad, inner, close + more);
      var w := Skip(rest);
      assert w == ")" + w[1..];
      assert u == "(" + u[1..];
      Bracketed(pad, Render(inner), close, more, w[1..]);
    } else {
      e := NumberReads(ops, t, pad, u);
    }
  }

  lemma {:induction false} UnaryReads<T>(ops: Floats<T>, t: string) returns (e: Unary)
    requires ParseUnary(ops, t).Done?
    ensures var r := ParseUnary(ops, t);
            UnaryOk(e) && t == RenderUnary(e) + r.rest && EvalUnary(ops, e) == Ok(r.value)
    decreases |t|, 2
  {
    hide ParsePrimary, RenderPrimary, PrimaryOk, EvalPrimary, Skip;
    var pad := SkipSplits(t);
    var u := Skip(t);
    if StartsWith(u, '+') || StartsWith(u, '-') {
      var operand := UnaryReads(ops, u[1..]);
      e := Signed(pad, u[0] == '-', operand);
      assert u == Sign(u[0] == '-') + u[1..];
    } else {
      PrimarySkips(ops, t);
      var p := PrimaryReads(ops, t);
      e := JustPrimary(p);
    }
  }

  lemma Raised(base: string, pad: string, exponent: string, after: string, rest: string)
    ensures base + (pad + ("^" + (exponent + after + rest))) == base + (pad + "^" + exponent) + after + rest
  {
  }

  lemma {:induction false} PowerReads<T>(ops: Floats<T>, t: string) returns (e: Power, pad: string)
    requires ParsePower(ops, t).Done?
    ensures var r := ParsePower(ops, t);
            PowerOk(e) && Blank(pad) && t == RenderPower(e) + pad + r.rest && EvalPower(ops, e) == Ok(r.value)
    decreases |t|, 3
  {
    hide ParseUnary, RenderUnary, UnaryOk, EvalUnary, Skip;
    var base := UnaryReads(ops, t);
    var rest := ParseUnary(ops, t).rest;
    pad := SkipSplits(rest);
    var u := Skip(rest);
    if StartsWith(u, '^') {
      var exponent, after := PowerReads(ops, u[1..]);
      e := Raise(base, pad, exponent);
      assert u == "^" + u[1..];
      Raised(RenderUnary(base), pad, RenderPower(exponent), after, ParsePower(ops, u[1..]).rest);
      pad := after;
    } else {
      e := JustUnary(base);
    }
  }

  lemma Regroup(sofar: string, gap: string, more: string, symbol: string, right: string, after: string, rest: string)
    ensures sofar + gap + (more + (symbol + (right + after + rest))) ==
            sofar + (gap + more + symbol + right) + after + rest
  {
  }

  lemma CombineMeans<T>(ops: Floats<T>, l: Term, pad: string, op: MulOp, r: Power, a: T, b: T)
    requires EvalTerm(ops, l) == Ok(a) && EvalPower(ops, r) == Ok(b)
    ensures EvalTerm(ops, MulDiv(l, pad, op, r)) == Combine(ops, op, a, b)
  {
  }

  lemma {:induction false} TermLoopReads<T>(ops: Floats<T>, t: string, left: T, sofar: Term, gap: string)
    returns (e: Term, pad: string)
    requires TermLoop(ops, t, left).Done? && TermOk(sofar) && Blank(gap) && EvalTerm(ops, sofar) == Ok(left)
    ensures var r := TermLoop(ops, t, left);
            TermOk(e) && Blank(pad) && RenderTerm(sofar) + gap + t == RenderTerm(e) + pad + r.rest &&
              EvalTerm(ops, e) == Ok(r.value)
    decreases |t|, 5
  {
    hide ParsePower, EvalPower, RenderPower, PowerOk, Combine, Skip;
    var more := SkipSplits(t);
    var u := Skip(t);
    if u == [] || MulOpOf(u[0]) == None {
      e, pad := sofar, gap + more;
    } else {
      var op := MulOpOf(u[0]).value;
      var right, after := PowerReads(ops, u[1..]);
      var r := ParsePower(ops, u[1..]);
      var next := MulDiv(sofar, gap + more, op, right);
      assert u == Symbol(op) + u[1..];
      Regroup(RenderTerm(sofar), gap, more, Symbol(op), RenderPower(right), after, r.rest);
      CombineMeans(ops, sofar, gap + more, op, right, left, r.value);
      e, pad := TermLoopReads(ops, r.rest, Combine(ops, op, left, r.value).value, next, after);
    }
  }

  lemma {:induction false} TermReads<T>(ops: Floats<T>, t: string) returns (e: Term, pad: string)
    requires ParseTerm(ops, t).Done?
    ensures var r := ParseTerm(ops, t);
            TermOk(e) && Blank(pad) && t == RenderTerm(e) + pad + r.rest && EvalTerm(ops, e) == Ok(r.value)
    decreases |t|, 6
  {
    var first, gap := PowerReads(ops, t);
    var r := ParsePower(ops, t);
    e, pad := TermLoopReads(ops, r.rest, r.value, JustPower(first), gap);
  }

  lemma {:induction false} SumLoopReads<T>(ops: Floats<T>, t: string, left: T, sofar: Sum, gap: string)
    returns (e: Sum, pad: string)
    requires SumLoop(ops, t, left).Done? && SumOk(sofar) && Blank(gap) && Eval(ops, sofar) == Ok(left)
    ensures var r := SumLoop(ops, t, left);
            SumOk(e) && Blank(pad) && Render(sofar) + gap + t == Render(e) + pad + r.rest && Eval(ops, e) == Ok(r.value)
    decreases |t|, 7
  {
    hide ParseTerm, EvalTerm, RenderTerm, TermOk, Skip;
    var more := SkipSplits(t);
    var u := Skip(t);
    if !StartsWith(u, '+') && !StartsWith(u, '-') {
      e, pad := sofar, gap + more;
    } else {
      var minus := u[0] == '-';
      var right, after := TermReads(ops, u[1..]);
      var r := ParseTerm(ops, u[1..]);
      var next := AddSub(sofar, gap + more, minus, right);
      assert u == Sign(minus) + u[1..];
      Regroup(Render(sofar), gap, more, Sign(minus), RenderTerm(right), after, r.rest);
      var value := if u[0] == '+' then ops.add(left, r.value) else ops.subtract(left, r.value);
      assert Eval(ops, next) == Ok(value);
      e, pad := SumLoopReads(ops, r.rest, value, next, after);
    }
  }

  /** Whatever parses is a rendering with that value, followed by blanks and the unread text. */
  lemma {:induction false} SumReads<T>(ops: Floats<T>, t: string) returns (e: Sum, pad: string)
    requires ParseSum(ops, t).Done?
    ensures var r := ParseSum(ops, t);
            SumOk(e) && Blank(pad) && t == Render(e) + pad + r.rest && Eval(ops, e) == Ok(r.value)
    decreases |t|, 8
  {
    var first, gap := TermReads(ops, t);
    var r := ParseTerm(ops, t);
    e, pad := SumLoopReads(ops, r.rest, r.value, JustTerm(first), gap);
  }

  lemma {:induction false} TrimLeftSplits(s: string) returns (lead: string)
    ensures AllSpace(lead) && s == lead + TrimLeft(s)
  {
    if s != [] && IsSpace(s[0]) {
      var more := TrimLeftSplits(s[1..]);
      lead := [s[0]] + more;
      assert s == [s[0]] + s[1..];
    } else {
      lead := [];
    }
  }

  lemma {:induction false} TrimRightSplits(s: string) returns (trail: string)
    ensures AllSpace(trail) && s == TrimRight(s) + trail
  {
    if s != [] && IsSpace(s[|s| - 1]) {
      var more := TrimRightSplits(s[..|s| - 1]);
      trail := more + [s[|s| - 1]];
      assert s == s[..|s| - 1] + [s[|s| - 1]];
    } else {
      trail := [];
    }
  }

  /** input is the derivation e written out with some spacing, within the length limit, and e has the finite value v. */
  ghost predicate Spells<T>(ops: Floats<T>, input: string, v: T, e: Sum, lead: string, trail: string) {
    && SumOk(e) && AllSpace(lead) && AllSpace(trail) && input == lead + Render(e) + trail
    && ByteLength(TrimSpace(input)) <= 256 && Eval(ops, e) == Ok(v) && ops.isFinite(v)
  }

  /** The calculator answers v exactly when the input spells out a derivation with the finite value v. */
  lemma AcceptsExactlyTheGrammar<T>(ops: Floats<T>, input: string, v: T)
    ensures Evaluated(ops, input) == Ok(v) <==> exists e, lead, trail :: Spells(ops, input, v, e, lead, trail)
  {
    hide ParseSum, TrimLeft, TrimRight, ByteLength, Render, Eval;
    if Evaluated(ops, input) == Ok(v) {
      var s := TrimSpace(input);
      var e, pad := SumReads(ops, s);
      var lead := TrimLeftSplits(input);
      var trail := TrimRightSplits(TrimLeft(input));
      var rest := ParseSum(ops, s).rest;
      var more := SkipSplits(rest);
      assert input == lead + Render(e) + (pad + more + trail);
      assert Spells(ops, input, v, e, lead, pad + more + trail);
    }
    if exists e, lead, trail :: Spells(ops, input, v, e, lead, trail) {
      var e, lead, trail :| Spells(ops, input, v, e, lead, trail);
      EvaluatesRendering(ops, e, lead, trail);
    }
  }

  // ---------------------------------- expression trees, minimally parenthesised

  datatype Expr =
    | Num(text: string)
    | Minus(operand: Expr) | Plus(operand: Expr)
    | Add(left: Expr, right: Expr) | Subtract(left: Expr, right: Expr)
    | Mul(op: MulOp, left: Expr, right: Expr)
    | Pow(left: Expr, right: Expr)

  predicate ExprOk(e: Expr) {
    match e
    case Num(text) => Numeral(text)
    case Minus(x) => ExprOk(x)
    case Plus(x) => ExprOk(x)
    case Add(l, r) => ExprOk(l) && ExprOk(r)
    case Subtract(l, r) => ExprOk(l) && ExprOk(r)
    case Mul(_, l, r) => ExprOk(l) && ExprOk(r)
    case Pow(l, r) => ExprOk(l) && ExprOk(r)
  }

  function Value<T>(ops: Floats<T>, e: Expr): Result<T, Problem> {
    match e
    case Num(text) => if ops.number(text).None? then Err(BadNumber) else Ok(ops.number(text).value)
    case Minus(x) => (match Value(ops, x) case Err(p) => Err(p) case Ok(v) => Ok(ops.negate(v)))
    case Plus(x) => Value(ops, x)
    case Add(l, r) => Lift2(Value(ops, l), Value(ops, r), (a, b) => Ok(ops.add(a, b)))
    case Subtract(l, r) => Lift2(Value(ops, l), Value(ops, r), (a, b) => Ok(ops.subtract(a, b)))
    case Mul(op, l, r) =>
      var left, right := Value(ops, l), Value(ops, r);
      if left.Err? then left
      else if right.Err? then right
      else if op == Times then Ok(ops.multiply(left.value, right.value))
      else if ops.isZero(right.value) then Err(if op == Over then DivisionByZero else ModuloByZero)
      else Ok(if op == Over then ops.divide(left.value, right.value) else ops.modulo(left.value, right.value))
    case Pow(l, r) => Lift2(Value(ops, l), Value(ops, r), (a, b) => Ok(ops.power(a, b)))
  }

  // As...(e) writes e where its level of the grammar is wanted; looser operators get parentheses.

  function AsSum(e: Expr): Sum
    decreases e, 0
  {
    match e
    case Num(text) => JustTerm(JustPower(JustUnary(JustPrimary(Number("", text)))))
    case Minus(x) => JustTerm(JustPower(JustUnary(Signed("", true, AsUnary(x)))))
    case Plus(x) => JustTerm(JustPower(JustUnary(Signed("", false, AsUnary(x)))))
    case Add(l, r) => AddSub(AsSum(l), "", false, AsTerm(r))
    case Subtract(l, r) => AddSub(AsSum(l), "", true, AsTerm(r))
    case Mul(op, l, r) => JustTerm(MulDiv(AsTerm(l), "", op, AsPower(r)))
    case Pow(l, r) => JustTerm(JustPower(Raise(AsUnary(l), "", AsPower(r))))
  }

  function Parenthesised(e: Expr): Unary
    decreases e, 1
  {
    JustPrimary(Group("", AsSum(e), ""))
  }

  function AsTerm(e: Expr): Term
    decreases e, 2
  {
    var s := AsSum(e);
    if s.JustTerm? then s.term else JustPower(JustUnary(Parenthesised(e)))
  }

  function AsPower(e: Expr): Power
    decreases e, 2
  {
    var s := AsSum(e);
    if s.JustTerm? && s.term.JustPower? then s.term.power else JustUnary(Parenthesised(e))
  }

  function AsUnary(e: Expr): Unary
    decreases e, 2
  {
    var s := AsSum(e);
    if s.JustTerm? && s.term.JustPower? && s.term.power.JustUnary? then s.term.power.unary else Parenthesised(e)
  }

  lemma PowerAsSum<T>(ops: Floats<T>, p: Power)
    requires PowerOk(p)
    ensures var s := JustTerm(JustPower(p)); SumOk(s) && Eval(ops, s) == EvalPower(ops, p)
  {
    assert TermOk(JustPower(p)) && EvalTerm(ops, JustPower(p)) == EvalPower(ops, p);
  }

  lemma UnaryAsPower<T>(ops: Floats<T>, u: Unary)
    requires UnaryOk(u)
    ensures PowerOk(JustUnary(u)) && EvalPower(ops, JustUnary(u)) == EvalUnary(ops, u)
  {
  }

  /** Whatever level an expression is wanted at, parentheses supply it without changing the value. */
  lemma LevelsAgree<T>(ops: Floats<T>, e: Expr)
    requires SumOk(AsSum(e))
    ensures TermOk(AsTerm(e)) && PowerOk(AsPower(e)) && UnaryOk(AsUnary(e))
    ensures Eval(ops, AsSum(e)) == EvalTerm(ops, AsTerm(e)) == EvalPower(ops, AsPower(e)) == EvalUnary(ops, AsUnary(e))
  {
    hide AsSum;
    var s := AsSum(e);
    var g := Group("", s, "");
    assert PrimaryOk(g) && EvalPrimary(ops, g) == Eval(ops, s);
    assert UnaryOk(Parenthesised(e)) && EvalUnary(ops, Parenthesised(e)) == Eval(ops, s);
    UnaryAsPower(ops, Parenthesised(e));
    PowerAsSum(ops, JustUnary(Parenthesised(e)));
    assert s.JustTerm? ==> TermOk(s.term) && EvalTerm(ops, s.term) == Eval(ops, s);
    assert s.JustTerm? && s.term.JustPower? ==> PowerOk(s.term.power) && EvalPower(ops, s.term.power) == Eval(ops, s);
    assert s.JustTerm? && s.term.JustPower? && s.term.power.JustUnary? ==>
        UnaryOk(s.term.power.unary) && EvalUnary(ops, s.term.power.unary) == Eval(ops, s);
  }

  /** Parentheses where precedence needs them keep the value. */
  lemma {:induction false} ParenthesesKeepValue<T>(ops: Floats<T>, e: Expr)
    requires ExprOk(e)
    ensures SumOk(AsSum(e)) && Eval(ops, AsSum(e)) == Value(ops, e)
  {
    hide AsTerm, AsPower, AsUnary;
    match e
    case Num(text) =>
      var u := JustPrimary(Number("", text));
      assert PrimaryOk(u.primary) && EvalPrimary(ops, u.primary) == Value(ops, e);
      UnaryAsPower(ops, u);
      PowerAsSum(ops, JustUnary(u));
    case Minus(x) =>
      ParenthesesKeepValue(ops, x);
      LevelsAgree(ops, x);
      var u := Signed("", true, AsUnary(x));
      UnaryAsPower(ops, u);
      PowerAsSum(ops, JustUnary(u));
    case Plus(x) =>
      ParenthesesKeepValue(ops, x);
      LevelsAgree(ops, x);
      var u := Signed("", false, AsUnary(x));
      UnaryAsPower(ops, u);
      PowerAsSum(ops, JustUnary(u));
    case Add(l, r) =>
      ParenthesesKeepValue(ops, l);
      ParenthesesKeepValue(ops, r);
      LevelsAgree(ops, l);
      LevelsAgree(ops, r);
    case Subtract(l, r) =>
      ParenthesesKeepValue(ops, l);
      ParenthesesKeepValue(ops, r);
      LevelsAgree(ops, l);
      LevelsAgree(ops, r);
    case Mul(op, l, r) =>
      ParenthesesKeepValue(ops, l);
      ParenthesesKeepValue(ops, r);
      LevelsAgree(ops, l);
      LevelsAgree(ops, r);
      assert TermOk(MulDiv(AsTerm(l), "", op, AsPower(r)));
    case Pow(l, r) =>
      ParenthesesKeepValue(ops, l);
      ParenthesesKeepValue(ops, r);
      LevelsAgree(ops, l);
      LevelsAgree(ops, r);
      PowerAsSum(ops, Raise(AsUnary(l), "", AsPower(r)));
  }

  /** Round trip: print any expression tree with the parentheses its precedence needs, evaluate the
      text, and get the tree's value or its first error. */
  lemma PrintedTreesEvaluate<T>(ops: Floats<T>, e: Expr)
    requires ExprOk(e)
    ensures Evaluated(ops, Render(AsSum(e))) ==
            if ByteLength(TrimSpace(Render(AsSum(e)))) > 256 then Err(EmptyOrTooLong) else Reported(ops, Value(ops, e))
  {
    ParenthesesKeepValue(ops, e);
    EvaluatesRendering(ops, AsSum(e), [], []);
    assert [] + Render(AsSum(e)) + [] == Render(AsSum(e));
  }

  // ---------------------------------------------- no parentheses to spare

  /** The tree a derivation is of, blanks and parentheses forgotten. */
  function Tree(e: Sum): Expr {
    match e
    case JustTerm(t) => TreeOfTerm(t)
    case AddSub(l, _, minus, r) => if minus then Subtract(Tree(l), TreeOfTerm(r)) else Add(Tree(l), TreeOfTerm(r))
  }

  function TreeOfTerm(e: Term): Expr {
    match e
    case JustPower(p) => TreeOfPower(p)
    case MulDiv(l, _, op, r) => Mul(op, TreeOfTerm(l), TreeOfPower(r))
  }

  function TreeOfPower(e: Power): Expr {
    match e
    case JustUnary(u) => TreeOfUnary(u)
    case Raise(b, _, x) => Pow(TreeOfUnary(b), TreeOfPower(x))
  }

  function TreeOfUnary(e: Unary): Expr {
    match e
    case JustPrimary(p) => TreeOfPrimary(p)
    case Signed(_, minus, u) => if minus then Minus(TreeOfUnary(u)) else Plus(TreeOfUnary(u))
  }

  function TreeOfPrimary(e: Primary): Expr {
    match e
    case Number(_, text) => Num(text)
    case Group(_, inner, _) => Tree(inner)
  }

  /** How many pairs of parentheses a derivation has. */
  function Groups(e: Sum): nat {
    match e
    case JustTerm(t) => GroupsOfTerm(t)
    case AddSub(l, _, _, r) => Groups(l) + GroupsOfTerm(r)
  }

  function GroupsOfTerm(e: Term): nat {
    match e
    case JustPower(p) => GroupsOfPower(p)
    case MulDiv(l, _, _, r) => GroupsOfTerm(l) + GroupsOfPower(r)
  }

  function GroupsOfPower(e: Power): nat {
    match e
    case JustUnary(u) => GroupsOfUnary(u)
    case Raise(b, _, x) => GroupsOfUnary(b) + GroupsOfPower(x)
  }

  function GroupsOfUnary(e: Unary): nat {
    match e
    case JustPrimary(p) => GroupsOfPrimary(p)
    case Signed(_, _, u) => GroupsOfUnary(u)
  }

  function GroupsOfPrimary(e: Primary): nat {
    match e
    case Number(_, _) => 0
    case Group(_, inner, _) => 1 + Groups(inner)
  }

  /** Wanting a tighter level costs a pair of parentheses or nothing. */
  lemma LevelsCost(e: Expr)
    ensures Groups(AsSum(e)) <= GroupsOfTerm(AsTerm(e)) <= GroupsOfPower(AsPower(e)) <= GroupsOfUnary(AsUnary(e)) <=
            Groups(AsSum(e)) + 1
  {
    hide AsSum;
    var s := AsSum(e);
    assert GroupsOfUnary(Parenthesised(e)) == Groups(s) + 1;
    assert GroupsOfPower(JustUnary(Parenthesised(e))) == Groups(s) + 1;
    assert GroupsOfTerm(JustPower(JustUnary(Parenthesised(e)))) == Groups(s) + 1;
    assert s.JustTerm? ==> GroupsOfTerm(s.term) == Groups(s);
    assert s.JustTerm? && s.term.JustPower? ==> GroupsOfPower(s.term.power) == Groups(s);
    assert s.JustTerm? && s.term.JustPower? && s.term.power.JustUnary? ==>
             GroupsOfUnary(s.term.power.unary) == Groups(s);
  }

  lemma {:induction false} SumIsLeast(e: Sum)
    ensures Groups(AsSum(Tree(e))) <= Groups(e)
  {
    match e
    case JustTerm(t) => TermIsLeast(t); LevelsCost(TreeOfTerm(t)); hide AsTerm, AsSum;
    case AddSub(l, _, _, r) => SumIsLeast(l); TermIsLeast(r); hide AsTerm;
  }

  lemma {:induction false} TermIsLeast(e: Term)
    ensures GroupsOfTerm(AsTerm(TreeOfTerm(e))) <= GroupsOfTerm(e)
  {
    match e
    case JustPower(p) => PowerIsLeast(p); LevelsCost(TreeOfPower(p)); hide AsTerm, AsPower;
    case MulDiv(l, _, op, r) =>
      TermIsLeast(l);
      PowerIsLeast(r);
      var t := MulDiv(AsTerm(TreeOfTerm(l)), "", op, AsPower(TreeOfPower(r)));
      assert AsSum(TreeOfTerm(e)) == JustTerm(t);
      assert AsTerm(TreeOfTerm(e)) == t;
  }

  lemma {:induction false} PowerIsLeast(e: Power)
    ensures GroupsOfPower(AsPower(TreeOfPower(e))) <= GroupsOfPower(e)
  {
    match e
    case JustUnary(u) => UnaryIsLeast(u); LevelsCost(TreeOfUnary(u)); hide AsPower, AsUnary;
    case Raise(b, _, x) =>
      UnaryIsLeast(b);
      PowerIsLeast(x);
      var p := Raise(AsUnary(TreeOfUnary(b)), "", AsPower(TreeOfPower(x)));
      assert AsSum(TreeOfPower(e)) == JustTerm(JustPower(p));
      assert AsPower(TreeOfPower(e)) == p;
  }

  lemma {:induction false} UnaryIsLeast(e: Unary)
    ensures GroupsOfUnary(AsUnary(TreeOfUnary(e))) <= GroupsOfUnary(e)
  {
    match e
    case JustPrimary(p) => PrimaryIsLeast(p);
    case Signed(_, minus, u) =>
      UnaryIsLeast(u);
      var s := Signed("", minus, AsUnary(TreeOfUnary(u)));
      assert AsSum(TreeOfUnary(e)) == JustTerm(JustPower(JustUnary(s)));
      assert AsUnary(TreeOfUnary(e)) == s;
  }

  lemma {:induction false} PrimaryIsLeast(e: Primary)
    ensures GroupsOfUnary(AsUnary(TreeOfPrimary(e))) <= GroupsOfPrimary(e)
  {
    match e
    case Number(_, text) =>
      assert AsSum(Num(text)) == JustTerm(JustPower(JustUnary(JustPrimary(Number("", text)))));
      assert AsUnary(Num(text)) == JustPrimary(Number("", text));
    case Group(_, inner, _) => SumIsLeast(inner); LevelsCost(Tree(inner)); hide AsUnary, AsSum;
  }

  /** Printing an expression gives back its tree, at every level. */
  lemma LevelsHaveTheTree(e: Expr)
    requires Tree(AsSum(e)) == e
    ensures TreeOfTerm(AsTerm(e)) == e && TreeOfPower(AsPower(e)) == e && TreeOfUnary(AsUnary(e)) == e
  {
    hide AsSum;
    var s := AsSum(e);
    assert TreeOfUnary(Parenthesised(e)) == e;
    assert TreeOfPower(JustUnary(Parenthesised(e))) == e;
    assert TreeOfTerm(JustPower(JustUnary(Parenthesised(e)))) == e;
    assert s.JustTerm? ==> TreeOfTerm(s.term) == e;
    assert s.JustTerm? && s.term.JustPower? ==> TreeOfPower(s.term.power) == e;
    assert s.JustTerm? && s.term.JustPower? && s.term.power.JustUnary? ==> TreeOfUnary(s.term.power.unary) == e;
  }

  lemma TreeOfLevels(p: Power, u: Unary)
    ensures Tree(JustTerm(JustPower(p))) == TreeOfPower(p)
    ensures Tree(JustTerm(JustPower(JustUnary(u)))) == TreeOfUnary(u)
  {
    assert TreeOfTerm(JustPower(p)) == TreeOfPower(p);
    assert TreeOfTerm(JustPower(JustUnary(u))) == TreeOfPower(JustUnary(u)) == TreeOfUnary(u);
  }

  lemma {:induction false} PrintedTree(e: Expr)
    ensures Tree(AsSum(e)) == e
  {
    hide AsTerm, AsPower, AsUnary, TreeOfTerm, TreeOfPower;
    match e
    case Num(text) =>
      var u := JustPrimary(Number("", text));
      TreeOfLevels(JustUnary(u), u);
    case Minus(x) => PrintedTree(x); LevelsHaveTheTree(x); SignedTree(true, x);
    case Plus(x) => PrintedTree(x); LevelsHaveTheTree(x); SignedTree(false, x);
    case Add(l, r) => PrintedTree(l); PrintedTree(r); LevelsHaveTheTree(r);
    case Subtract(l, r) => PrintedTree(l); PrintedTree(r); LevelsHaveTheTree(r);
    case Mul(op, l, r) =>
      PrintedTree(l);
      PrintedTree(r);
      LevelsHaveTheTree(l);
      LevelsHaveTheTree(r);
      ProductTree(op, l, r);
    case Pow(l, r) => PrintedTree(l); PrintedTree(r); LevelsHaveTheTree(l); LevelsHaveTheTree(r); PowerTree(l, r);
  }

  lemma SignedTree(minus: bool, x: Expr)
    requires TreeOfUnary(AsUnary(x)) == x
    ensures Tree(JustTerm(JustPower(JustUnary(Signed("", minus, AsUnary(x)))))) == if minus then Minus(x) else Plus(x)
  {
    hide AsUnary;
    var u := Signed("", minus, AsUnary(x));
    TreeOfLevels(JustUnary(u), u);
  }

  lemma ProductTree(op: MulOp, l: Expr, r: Expr)
    requires TreeOfTerm(AsTerm(l)) == l && TreeOfPower(AsPower(r)) == r
    ensures Tree(JustTerm(MulDiv(AsTerm(l), "", op, AsPower(r)))) == Mul(op, l, r)
  {
    hide AsTerm, AsPower;
    assert TreeOfTerm(MulDiv(AsTerm(l), "", op, AsPower(r))) == Mul(op, l, r);
  }

  lemma PowerTree(l: Expr, r: Expr)
    requires TreeOfUnary(AsUnary(l)) == l && TreeOfPower(AsPower(r)) == r
    ensures Tree(JustTerm(JustPower(Raise(AsUnary(l), "", AsPower(r))))) == Pow(l, r)
  {
    hide AsUnary, AsPower;
    assert TreeOfPower(Raise(AsUnary(l), "", AsPower(r))) == Pow(l, r);
    TreeOfLevels(Raise(AsUnary(l), "", AsPower(r)), AsUnary(l));
  }

  /** A printed tree is a derivation of that tree, and none has fewer parentheses. */
  lemma ParenthesesAreMinimal(e: Expr, d: Sum)
    ensures Tree(AsSum(e)) == e
    ensures Tree(d) == e ==> Groups(AsSum(e)) <= Groups(d)
  {
    PrintedTree(e);
    SumIsLeast(d);
  }
}
