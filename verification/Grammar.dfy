/**
 * The calculator's grammar as derivation trees, with the text and the value of each
 * (src/ai/agent/calculator.js). Any number of spaces may stand before each token.
 */
module Grammar {
  import opened Options

  /**
   * JavaScript's number operations, which the parser applies but does not define:
   * how a literal is read, the operators, and the three tests the evaluator makes.
   */
  datatype Arithmetic<!V> = Arithmetic(
    literal: string -> V,
    negate: V -> V,
    operate: (char, V, V) -> V,   // + - * / % ^
    isZero: V -> bool,
    tooLarge: V -> bool,          // as an exponent
    isFinite: V -> bool,
    rounded: V -> V
  )

  datatype Primary = Num(sp: nat, text: string) | Paren(sp: nat, inner: Expr, spClose: nat)
  datatype Unary = Neg(sp: nat, arg: Unary) | Plain(p: Primary)
  datatype Factor = Base(u: Unary) | Power(base: Unary, sp: nat, exponent: Factor)
  datatype Term = Single(f: Factor) | Times(left: Term, sp: nat, op: char, right: Factor)
  datatype Expr = One(t: Term) | Plus(left: Expr, sp: nat, op: char, right: Term)

  predicate IsDigit(c: char) {
    '0' <= c <= '9'
  }

  predicate AllDigits(s: string) {
    forall i :: 0 <= i < |s| ==> IsDigit(s[i])
  }

  /** digits, or digits "." digits */
  ghost predicate IsNumber(s: string) {
    (s != "" && AllDigits(s)) || exists n :: IsDecimal(s, n)
  }

  predicate IsDecimal(s: string, n: int) {
    0 < n < |s| - 1 && AllDigits(s[..n]) && s[n] == '.' && AllDigits(s[n + 1..])
  }

  predicate IsTimes(c: char) {
    c == '*' || c == '/' || c == '%'
  }

  predicate IsPlus(c: char) {
    c == '+' || c == '-'
  }

  // ---------------------------------------------------------------- well-formed trees

  ghost predicate GoodPrimary(p: Primary) {
    match p
    case Num(_, text) => IsNumber(text)
    case Paren(_, inner, _) => GoodExpr(inner)
  }

  ghost predicate GoodUnary(u: Unary) {
    match u
    case Neg(_, arg) => GoodUnary(arg)
    case Plain(p) => GoodPrimary(p)
  }

  ghost predicate GoodFactor(f: Factor) {
    match f
    case Base(u) => GoodUnary(u)
    case Power(base, _, exponent) => GoodUnary(base) && GoodFactor(exponent)
  }

  ghost predicate GoodTerm(t: Term) {
    match t
    case Single(f) => GoodFactor(f)
    case Times(left, _, op, right) => GoodTerm(left) && IsTimes(op) && GoodFactor(right)
  }

  ghost predicate GoodExpr(e: Expr) {
    match e
    case One(t) => GoodTerm(t)
    case Plus(left, _, op, right) => GoodExpr(left) && IsPlus(op) && GoodTerm(right)
  }

  // ---------------------------------------------------------------- text

  function Spaces(n: nat): string {
    seq(n, _ => ' ')
  }

  function PrimaryText(p: Primary): string {
    match p
    case Num(sp, text) => Spaces(sp) + text
    case Paren(sp, inner, spClose) => Spaces(sp) + ("(" + (ExprText(inner) + (Spaces(spClose) + ")")))
  }

  function UnaryText(u: Unary): string {
    match u
    case Neg(sp, arg) => Spaces(sp) + ("-" + UnaryText(arg))
    case Plain(p) => PrimaryText(p)
  }

  function FactorText(f: Factor): string {
    match f
    case Base(u) => UnaryText(u)
    case Power(base, sp, exponent) => UnaryText(base) + (Spaces(sp) + ("^" + FactorText(exponent)))
  }

  function TermText(t: Term): string {
    match t
    case Single(f) => FactorText(f)
    case Times(left, sp, op, right) => TermText(left) + (Spaces(sp) + ([op] + FactorText(right)))
  }

  function ExprText(e: Expr): string {
    match e
    case One(t) => TermText(t)
    case Plus(left, sp, op, right) => ExprText(left) + (Spaces(sp) + ([op] + TermText(right)))
  }

  // ---------------------------------------------------------------- value

  /** No division or remainder by zero, no exponent beyond the limit. */
  function Operate<V>(a: Arithmetic<V>, op: char, x: V, y: V): Option<V> {
    if (op == '/' || op == '%') && a.isZero(y) then None
    else if op == '^' && a.tooLarge(y) then None
    else Some(a.operate(op, x, y))
  }

  function PrimaryValue<V>(a: Arithmetic<V>, p: Primary): Option<V> {
    match p
    case Num(_, text) => Some(a.literal(text))
    case Paren(_, inner, _) => ExprValue(a, inner)
  }

  function UnaryValue<V>(a: Arithmetic<V>, u: Unary): Option<V> {
    match u
    case Neg(_, arg) =>
      var v := UnaryValue(a, arg);
      if v.None? then None else Some(a.negate(v.value))
    case Plain(p) => PrimaryValue(a, p)
  }

  function FactorValue<V>(a: Arithmetic<V>, f: Factor): Option<V> {
    match f
    case Base(u) => UnaryValue(a, u)
    case Power(base, _, exponent) =>
      var x := UnaryValue(a, base);
      var y := FactorValue(a, exponent);
      if x.None? || y.None? then None else Operate(a, '^', x.value, y.value)
  }

  function TermValue<V>(a: Arithmetic<V>, t: Term): Option<V> {
    match t
    case Single(f) => FactorValue(a, f)
    case Times(left, _, op, right) =>
      var x := TermValue(a, left);
      var y := FactorValue(a, right);
      if x.None? || y.None? then None else Operate(a, op, x.value, y.value)
  }

  function ExprValue<V>(a: Arithmetic<V>, e: Expr): Option<V> {
    match e
    case One(t) => TermValue(a, t)
    case Plus(left, _, op, right) =>
      var x := ExprValue(a, left);
      var y := TermValue(a, right);
      if x.None? || y.None? then None else Operate(a, op, x.value, y.value)
  }

  /** The whole input derives `e`, with spaces at the end. */
  ghost predicate Derives(src: string, e: Expr) {
    GoodExpr(e) && exists sp: nat :: ExprText(e) + Spaces(sp) == src
  }
}
