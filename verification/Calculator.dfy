/** The calculator: a recursive-descent evaluator over a shared cursor (src/ai/agent/calculator.js). */
module Calculator {
  import opened Options
  import opened Grammar
  import opened Parsing

  // ---------------------------------------------------------------- texts of trees

  lemma TimesText(left: Term, sp: nat, op: char, right: Factor, s: string)
    ensures TermText(Times(left, sp, op, right)) + s == TermText(left) + (Spaces(sp) + ([op] + (FactorText(right) + s)))
  {
  }

  lemma PlusText(left: Expr, sp: nat, op: char, right: Term, s: string)
    ensures ExprText(Plus(left, sp, op, right)) + s == ExprText(left) + (Spaces(sp) + ([op] + (TermText(right) + s)))
  {
  }

  lemma PowerText(base: Unary, sp: nat, exponent: Factor, s: string)
    ensures FactorText(Power(base, sp, exponent)) + s == UnaryText(base) + (Spaces(sp) + ("^" + (FactorText(exponent) + s)))
  {
  }

  lemma BaseText(u: Unary)
    ensures FactorText(Base(u)) == UnaryText(u)
  {
  }

  lemma NegText(sp: nat, arg: Unary, s: string)
    ensures UnaryText(Neg(sp, arg)) + s == Spaces(sp) + ("-" + (UnaryText(arg) + s))
  {
  }

  lemma PlainText(p: Primary)
    ensures UnaryText(Plain(p)) == PrimaryText(p)
  {
  }

  lemma NumText(sp: nat, text: string, s: string)
    ensures PrimaryText(Num(sp, text)) + s == Spaces(sp) + (text + s)
  {
  }

  lemma ParenText(sp: nat, e: Expr, spClose: nat, s: string)
    ensures PrimaryText(Paren(sp, e, spClose)) + s == Spaces(sp) + ("(" + (ExprText(e) + (Spaces(spClose) + (")" + s))))
  {
  }

  lemma SpacesJoin(n: nat, m: nat, s: string)
    ensures Spaces(n) + (Spaces(m) + s) == Spaces(n + m) + s
  {
  }

  // ---------------------------------------------------------------- completeness

  /** What follows lets a factor end. */
  predicate EndsFactor(rest: string) {
    EndsNumber(rest) && !Starts(Skip(rest), '^')
  }

  predicate EndsTerm(rest: string) {
    EndsFactor(rest) && (Skip(rest) == "" || !IsTimes(Skip(rest)[0]))
  }

  predicate EndsExpr(rest: string) {
    EndsTerm(rest) && (Skip(rest) == "" || !IsPlus(Skip(rest)[0]))
  }

  /** A token that is neither digit nor dot, after spaces. */
  lemma TokenEnds(sp: nat, c: char, s: string)
    requires !IsDigit(c) && c != '.' && c != ' '
    ensures EndsNumber(Spaces(sp) + ([c] + s)) && Skip(Spaces(sp) + ([c] + s)) == [c] + s
  {
    SkipSpaces(sp, [c] + s);
  }

  lemma SkipKeepsStart(s: string)
    requires s != "" && s[0] != ' '
    ensures Skip(s) == s
  {
  }

  lemma {:induction false} PrimaryComplete<V>(a: Arithmetic<V>, p: Primary, rest: string)
    requires GoodPrimary(p) && PrimaryValue(a, p).Some? && EndsNumber(rest)
    ensures ReadPrimary(a, PrimaryText(p) + rest) == Ok(PrimaryValue(a, p).value, rest)
    decreases p, 0
  {
    match p
    case Num(sp, text) => NumComplete(a, sp, text, rest);
    case Paren(sp, inner, spClose) =>
      hide PrimaryText, ExprText, Spaces;
      var close := Spaces(spClose) + (")" + rest);
      ParenText(sp, inner, spClose, rest);
      SkipSpaces(sp, "(" + (ExprText(inner) + close));
      TokenEnds(spClose, ')', rest);
      ExprComplete(a, inner, close);
      assert ("(" + (ExprText(inner) + close))[1..] == ExprText(inner) + close;
      assert (")" + rest)[1..] == rest;
  }

  lemma NumComplete<V>(a: Arithmetic<V>, sp: nat, text: string, rest: string)
    requires IsNumber(text) && EndsNumber(rest)
    ensures ReadPrimary(a, PrimaryText(Num(sp, text)) + rest) == Ok(a.literal(text), rest)
  {
    NumText(sp, text, rest);
    SkipSpaces(sp, text + rest);
    SkipKeepsStart(text + rest);
    NumberLengthOf(text, rest);
    assert (text + rest)[..|text|] == text && (text + rest)[|text|..] == rest;
  }

  lemma {:induction false} UnaryComplete<V>(a: Arithmetic<V>, u: Unary, rest: string)
    requires GoodUnary(u) && UnaryValue(a, u).Some? && EndsNumber(rest)
    ensures ReadUnary(a, UnaryText(u) + rest) == Ok(UnaryValue(a, u).value, rest)
    decreases u, 1
  {
    match u
    case Neg(sp, arg) =>
      assert UnaryText(u) + rest == Spaces(sp) + ("-" + (UnaryText(arg) + rest));
      SkipSpaces(sp, "-" + (UnaryText(arg) + rest));
      UnaryComplete(a, arg, rest);
      assert ("-" + (UnaryText(arg) + rest))[1..] == UnaryText(arg) + rest;
    case Plain(p) =>
      PrimaryComplete(a, p, rest);
      NoMinus(p, rest);
      SkippedPrimary(a, PrimaryText(p) + rest);
  }

  /** A primary does not start with a minus. */
  lemma NoMinus(p: Primary, rest: string)
    requires GoodPrimary(p)
    ensures !Starts(Skip(PrimaryText(p) + rest), '-')
  {
    var s := PrimaryText(p) + rest;
    match p
    case Num(n, text) =>
      assert s == Spaces(n) + (text + rest);
      SkipSpaces(n, text + rest);
      SkipKeepsStart(text + rest);
    case Paren(n, inner, spClose) =>
      ParenText(n, inner, spClose, rest);
      SkipSpaces(n, "(" + (ExprText(inner) + (Spaces(spClose) + (")" + rest))));
  }

  /** Reading a primary does not mind spaces that were skipped already. */
  lemma SkippedPrimary<V>(a: Arithmetic<V>, s: string)
    ensures ReadPrimary(a, Skip(s)) == ReadPrimary(a, s)
  {
    hide ReadExpr, NumberLength, Spaces;
    var sp := SkipTakes(s);
  }

  lemma {:induction false} FactorComplete<V>(a: Arithmetic<V>, f: Factor, rest: string)
    requires GoodFactor(f) && FactorValue(a, f).Some? && EndsFactor(rest)
    ensures ReadFactor(a, FactorText(f) + rest) == Ok(FactorValue(a, f).value, Skip(rest))
    decreases f, 2
  {
    match f
    case Base(u) => UnaryComplete(a, u, rest);
    case Power(base, sp, exponent) =>
      var tail := Spaces(sp) + ("^" + (FactorText(exponent) + rest));
      assert FactorText(f) + rest == UnaryText(base) + tail;
      TokenEnds(sp, '^', FactorText(exponent) + rest);
      UnaryComplete(a, base, tail);
      FactorComplete(a, exponent, rest);
      assert ("^" + (FactorText(exponent) + rest))[1..] == FactorText(exponent) + rest;
  }

  /** The loop has read the term when it stands at what follows it. */
  lemma {:induction false} TermReached<V>(a: Arithmetic<V>, t: Term, rest: string)
    requires GoodTerm(t) && TermValue(a, t).Some? && EndsFactor(rest)
    ensures ReadTerm(a, TermText(t) + rest) == MoreFactors(a, TermValue(a, t).value, rest)
    decreases t, 3
  {
    match t
    case Single(f) =>
      FactorComplete(a, f, rest);
      var sp := SkipTakes(rest);
    case Times(left, sp, op, right) =>
      var tail := Spaces(sp) + ([op] + (FactorText(right) + rest));
      assert TermText(t) + rest == TermText(left) + tail;
      TokenEnds(sp, op, FactorText(right) + rest);
      TermReached(a, left, tail);
      FactorComplete(a, right, rest);
      assert ([op] + (FactorText(right) + rest))[1..] == FactorText(right) + rest;
      var n := SkipTakes(rest);
  }

  lemma {:induction false} ExprReached<V>(a: Arithmetic<V>, e: Expr, rest: string)
    requires GoodExpr(e) && ExprValue(a, e).Some? && EndsTerm(rest)
    ensures ReadExpr(a, ExprText(e) + rest) == MoreTerms(a, ExprValue(a, e).value, rest)
    decreases e, 4
  {
    match e
    case One(t) =>
      TermReached(a, t, rest);
      var sp := SkipTakes(rest);
    case Plus(left, sp, op, right) =>
      var tail := Spaces(sp) + ([op] + (TermText(right) + rest));
      assert ExprText(e) + rest == ExprText(left) + tail;
      TokenEnds(sp, op, TermText(right) + rest);
      ExprReached(a, left, tail);
      TermReached(a, right, rest);
      assert ([op] + (TermText(right) + rest))[1..] == TermText(right) + rest;
      var n := SkipTakes(rest);
  }

  /** Whatever derives an expression is read as that expression, up to what follows it. */
  lemma {:induction false} ExprComplete<V>(a: Arithmetic<V>, e: Expr, rest: string)
    requires GoodExpr(e) && ExprValue(a, e).Some? && EndsExpr(rest)
    ensures ReadExpr(a, ExprText(e) + rest) == Ok(ExprValue(a, e).value, Skip(rest))
    decreases e, 5
  {
    ExprReached(a, e, rest);
  }

  // ---------------------------------------------------------------- soundness

  /** Spaces before it do not change how the loop goes on. */
  lemma SpacesBefore<V>(a: Arithmetic<V>, v: V, sp: nat, s: string)
    ensures MoreFactors(a, v, Spaces(sp) + s) == MoreFactors(a, v, s)
    ensures MoreTerms(a, v, Spaces(sp) + s) == MoreTerms(a, v, s)
  {
    SkipSpaces(sp, s);
  }

  lemma NumberSound<V>(a: Arithmetic<V>, s: string) returns (p: Primary)
    requires Number(a, s).Ok?
    ensures GoodPrimary(p) && PrimaryValue(a, p) == Some(Number(a, s).value)
    ensures s == PrimaryText(p) + Number(a, s).rest
  {
    hide PrimaryText, Skip, NumberLength, IsNumber, Spaces;
    var sp := SkipTakes(s);
    var t := Skip(s);
    var n := NumberLength(t);
    NumberLengthIs(t);
    p := Num(sp, t[..n]);
    assert t == t[..n] + t[n..];
    NumText(sp, t[..n], t[n..]);
  }

  lemma {:induction false} PrimarySound<V>(a: Arithmetic<V>, s: string) returns (p: Primary)
    requires ReadPrimary(a, s).Ok?
    ensures GoodPrimary(p) && PrimaryValue(a, p) == Some(ReadPrimary(a, s).value)
    ensures s == PrimaryText(p) + ReadPrimary(a, s).rest
    decreases |s|, 0
  {
    hide ExprText, PrimaryText, Spaces, Skip, NumberLength;
    var sp := SkipTakes(s);
    var t := Skip(s);
    if Starts(t, '(') {
      var e, n := ExprSound(a, t[1..]);
      var read := ReadExpr(a, t[1..]);
      var m := SkipTakes(read.rest);
      var close := Skip(read.rest);
      p := Paren(sp, e, n + m);
      assert t == "(" + t[1..] && close == ")" + close[1..];
      SpacesJoin(n, m, close);
      ParenText(sp, e, n + m, close[1..]);
    } else {
      p := NumberSound(a, s);
    }
  }

  lemma {:induction false} UnarySound<V>(a: Arithmetic<V>, s: string) returns (u: Unary)
    requires ReadUnary(a, s).Ok?
    ensures GoodUnary(u) && UnaryValue(a, u) == Some(ReadUnary(a, s).value)
    ensures s == UnaryText(u) + ReadUnary(a, s).rest
    decreases |s|, 1
  {
    hide UnaryText, ReadPrimary, Spaces, Skip;
    var sp := SkipTakes(s);
    var t := Skip(s);
    if Starts(t, '-') {
      var arg := UnarySound(a, t[1..]);
      u := Neg(sp, arg);
      assert t == "-" + t[1..];
      NegText(sp, arg, ReadUnary(a, s).rest);
    } else {
      SkippedPrimary(a, s);
      var p := PrimarySound(a, s);
      u := Plain(p);
      PlainText(p);
    }
  }

  lemma {:induction false} FactorSound<V>(a: Arithmetic<V>, s: string) returns (f: Factor, sp: nat)
    requires ReadFactor(a, s).Ok?
    ensures GoodFactor(f) && FactorValue(a, f) == Some(ReadFactor(a, s).value)
    ensures s == FactorText(f) + (Spaces(sp) + ReadFactor(a, s).rest)
    decreases |s|, 2
  {
    hide FactorText, UnaryText, ReadUnary, Spaces, Skip;
    var base := UnarySound(a, s);
    var read := ReadUnary(a, s);
    var n := SkipTakes(read.rest);
    var t := Skip(read.rest);
    if Starts(t, '^') {
      var exponent;
      exponent, sp := FactorSound(a, t[1..]);
      f := Power(base, n, exponent);
      assert t == "^" + t[1..];
      PowerText(base, n, exponent, Spaces(sp) + ReadFactor(a, s).rest);
    } else {
      f, sp := Base(base), n;
      BaseText(base);
    }
  }

  lemma {:induction false} MoreFactorsSound<V>(a: Arithmetic<V>, left: Term, v: V, s: string) returns (t: Term, sp: nat)
    requires GoodTerm(left) && TermValue(a, left) == Some(v) && MoreFactors(a, v, s).Ok?
    ensures GoodTerm(t) && TermValue(a, t) == Some(MoreFactors(a, v, s).value)
    ensures TermText(left) + s == TermText(t) + (Spaces(sp) + MoreFactors(a, v, s).rest)
    decreases |s|, 3
  {
    hide TermText, FactorText, Spaces, Skip;
    var n := SkipTakes(s);
    var r := Skip(s);
    if r != "" && IsTimes(r[0]) {
      var read := ReadFactor(a, r[1..]);
      var f, m := FactorSound(a, r[1..]);
      var longer := Times(left, n, r[0], f);
      var w := Operate(a, r[0], v, read.value).value;
      assert r == [r[0]] + r[1..];
      SpacesBefore(a, w, m, read.rest);
      t, sp := MoreFactorsSound(a, longer, w, Spaces(m) + read.rest);
      TimesText(left, n, r[0], f, Spaces(m) + read.rest);
    } else {
      t, sp := left, n;
    }
  }

  lemma {:induction false} TermSound<V>(a: Arithmetic<V>, s: string) returns (t: Term, sp: nat)
    requires ReadTerm(a, s).Ok?
    ensures GoodTerm(t) && TermValue(a, t) == Some(ReadTerm(a, s).value)
    ensures s == TermText(t) + (Spaces(sp) + ReadTerm(a, s).rest)
    decreases |s|, 4
  {
    var read := ReadFactor(a, s);
    var f, m := FactorSound(a, s);
    SpacesBefore(a, read.value, m, read.rest);
    t, sp := MoreFactorsSound(a, Single(f), read.value, Spaces(m) + read.rest);
  }

  lemma {:induction false} MoreTermsSound<V>(a: Arithmetic<V>, left: Expr, v: V, s: string) returns (e: Expr, sp: nat)
    requires GoodExpr(left) && ExprValue(a, left) == Some(v) && MoreTerms(a, v, s).Ok?
    ensures GoodExpr(e) && ExprValue(a, e) == Some(MoreTerms(a, v, s).value)
    ensures ExprText(left) + s == ExprText(e) + (Spaces(sp) + MoreTerms(a, v, s).rest)
    decreases |s|, 5
  {
    hide ExprText, TermText, Spaces, Skip;
    var n := SkipTakes(s);
    var r := Skip(s);
    if r != "" && IsPlus(r[0]) {
      var read := ReadTerm(a, r[1..]);
      var t, m := TermSound(a, r[1..]);
      var longer := Plus(left, n, r[0], t);
      var w := Operate(a, r[0], v, read.value).value;
      assert r == [r[0]] + r[1..];
      SpacesBefore(a, w, m, read.rest);
      e, sp := MoreTermsSound(a, longer, w, Spaces(m) + read.rest);
      PlusText(left, n, r[0], t, Spaces(m) + read.rest);
    } else {
      e, sp := left, n;
    }
  }

  /** What is read as a value derives an expression with that value. */
  lemma {:induction false} ExprSound<V>(a: Arithmetic<V>, s: string) returns (e: Expr, sp: nat)
    requires ReadExpr(a, s).Ok?
    ensures GoodExpr(e) && ExprValue(a, e) == Some(ReadExpr(a, s).value)
    ensures s == ExprText(e) + (Spaces(sp) + ReadExpr(a, s).rest)
    decreases |s|, 6
  {
    var read := ReadTerm(a, s);
    var t, m := TermSound(a, s);
    SpacesBefore(a, read.value, m, read.rest);
    e, sp := MoreTermsSound(a, One(t), read.value, Spaces(m) + read.rest);
  }

  // ---------------------------------------------------------------- the whole input

  /** A derivation uses only the characters the first check lets through. */
  lemma {:induction false} PrimaryAllowed(p: Primary)
    requires GoodPrimary(p)
    ensures AllAllowed(PrimaryText(p)) && PrimaryText(p) != ""
    decreases p, 0
  {
    match p
    case Num(sp, text) => NumberAllowed(text);
    case Paren(sp, inner, spClose) => ExprAllowed(inner);
  }

  lemma NumberAllowed(text: string)
    requires IsNumber(text)
    ensures AllAllowed(text) && text != ""
  {
    if !AllDigits(text) {
      var n :| IsDecimal(text, n);
      forall i | 0 <= i < |text| ensures IsAllowed(text[i]) {
        if i < n {
          assert text[i] == text[..n][i];
        } else if i > n {
          assert text[i] == text[n + 1..][i - n - 1];
        }
      }
    }
  }

  lemma {:induction false} UnaryAllowed(u: Unary)
    requires GoodUnary(u)
    ensures AllAllowed(UnaryText(u)) && UnaryText(u) != ""
    decreases u, 1
  {
    match u
    case Neg(sp, arg) => UnaryAllowed(arg);
    case Plain(p) => PrimaryAllowed(p);
  }

  lemma {:induction false} FactorAllowed(f: Factor)
    requires GoodFactor(f)
    ensures AllAllowed(FactorText(f)) && FactorText(f) != ""
    decreases f, 2
  {
    match f
    case Base(u) => UnaryAllowed(u);
    case Power(base, sp, exponent) => UnaryAllowed(base); FactorAllowed(exponent);
  }

  lemma {:induction false} TermAllowed(t: Term)
    requires GoodTerm(t)
    ensures AllAllowed(TermText(t)) && TermText(t) != ""
    decreases t, 3
  {
    match t
    case Single(f) => FactorAllowed(f);
    case Times(left, sp, op, right) => TermAllowed(left); FactorAllowed(right);
  }

  lemma {:induction false} ExprAllowed(e: Expr)
    requires GoodExpr(e)
    ensures AllAllowed(ExprText(e)) && ExprText(e) != ""
    decreases e, 4
  {
    match e
    case One(t) => TermAllowed(t);
    case Plus(left, sp, op, right) => ExprAllowed(left); TermAllowed(right);
  }

  /** Every derivation of the input that has a value has the value the parser reads. */
  lemma Complete<V>(a: Arithmetic<V>, src: string, e: Expr)
    requires Derives(src, e) && ExprValue(a, e).Some?
    ensures ReadExpr(a, src).Ok? && ReadExpr(a, src).value == ExprValue(a, e).value && Skip(ReadExpr(a, src).rest) == ""
    ensures src != "" && AllAllowed(src)
  {
    var sp: nat :| ExprText(e) + Spaces(sp) == src;
    SkipSpaces(sp, "");
    assert Spaces(sp) + "" == Spaces(sp);
    ExprComplete(a, e, Spaces(sp));
    ExprAllowed(e);
  }

  /** What the parser reads to the end is the value of a derivation of the whole input. */
  lemma Sound<V>(a: Arithmetic<V>, src: string) returns (e: Expr)
    requires ReadExpr(a, src).Ok? && Skip(ReadExpr(a, src).rest) == ""
    ensures Derives(src, e) && ExprValue(a, e) == Some(ReadExpr(a, src).value)
  {
    var n, m;
    e, n := ExprSound(a, src);
    m := SkipTakes(ReadExpr(a, src).rest);
    assert Spaces(n) + (Spaces(m) + "") == Spaces(n + m);
    assert ExprText(e) + Spaces(n + m) == src;
  }

  /** The input is short enough and derives an expression with a finite value that rounds to `v`. */
  ghost predicate Answer<V(!new)>(a: Arithmetic<V>, src: string, v: V) {
    |src| <= 200 && exists e, w :: Derives(src, e) && ExprValue(a, e) == Some(w) && a.isFinite(w) && v == a.rounded(w)
  }

  /** Sound and complete: the calculator answers `v` exactly if the grammar does. */
  lemma AnswersExactly<V(!new)>(a: Arithmetic<V>, src: string, v: V)
    ensures Evaluate(a, src) == Some(v) <==> Answer(a, src, v)
  {
    hide ReadExpr, Skip, Derives, ExprValue;
    if Evaluate(a, src) == Some(v) {
      var e := Sound(a, src);
    }
    if Answer(a, src, v) {
      var e, w :| Derives(src, e) && ExprValue(a, e) == Some(w) && a.isFinite(w) && v == a.rounded(w);
      Complete(a, src, e);
    }
  }

  // ---------------------------------------------------------------- one meaning per input

  /** The tree of an expression without its spaces. */
  datatype Tree = Leaf(text: string) | Minus(arg: Tree) | Node(op: char, left: Tree, right: Tree)

  /** Arithmetic on trees: every expression has its own tree as its value. */
  function Trees(): Arithmetic<Tree> {
    Arithmetic((s: string) => Leaf(s), (t: Tree) => Minus(t), (op: char, x: Tree, y: Tree) => Node(op, x, y),
               (_: Tree) => false, (_: Tree) => false, (_: Tree) => true, (t: Tree) => t)
  }

  /** The value of a tree, operands first. */
  function Value<V>(a: Arithmetic<V>, t: Tree): Option<V> {
    match t
    case Leaf(text) => Some(a.literal(text))
    case Minus(arg) =>
      var v := Value(a, arg);
      if v.None? then None else Some(a.negate(v.value))
    case Node(op, left, right) =>
      var x := Value(a, left);
      var y := Value(a, right);
      if x.None? || y.None? then None else Operate(a, op, x.value, y.value)
  }

  lemma {:induction false} PrimaryTree<V>(a: Arithmetic<V>, p: Primary)
    ensures PrimaryValue(Trees(), p).Some? && PrimaryValue(a, p) == Value(a, PrimaryValue(Trees(), p).value)
    decreases p, 0
  {
    match p
    case Num(_, _) =>
    case Paren(_, inner, _) => ExprTree(a, inner);
  }

  lemma {:induction false} UnaryTree<V>(a: Arithmetic<V>, u: Unary)
    ensures UnaryValue(Trees(), u).Some? && UnaryValue(a, u) == Value(a, UnaryValue(Trees(), u).value)
    decreases u, 1
  {
    match u
    case Neg(_, arg) => UnaryTree(a, arg);
    case Plain(p) => PrimaryTree(a, p);
  }

  lemma {:induction false} FactorTree<V>(a: Arithmetic<V>, f: Factor)
    ensures FactorValue(Trees(), f).Some? && FactorValue(a, f) == Value(a, FactorValue(Trees(), f).value)
    decreases f, 2
  {
    match f
    case Base(u) => UnaryTree(a, u);
    case Power(base, _, exponent) => UnaryTree(a, base); FactorTree(a, exponent);
  }

  lemma {:induction false} TermTree<V>(a: Arithmetic<V>, t: Term)
    ensures TermValue(Trees(), t).Some? && TermValue(a, t) == Value(a, TermValue(Trees(), t).value)
    decreases t, 3
  {
    match t
    case Single(f) => FactorTree(a, f);
    case Times(left, _, _, right) => TermTree(a, left); FactorTree(a, right);
  }

  lemma {:induction false} ExprTree<V>(a: Arithmetic<V>, e: Expr)
    ensures ExprValue(Trees(), e).Some? && ExprValue(a, e) == Value(a, ExprValue(Trees(), e).value)
    decreases e, 4
  {
    match e
    case One(t) => TermTree(a, t);
    case Plus(left, _, _, right) => ExprTree(a, left); TermTree(a, right);
  }

  /** The grammar is unambiguous: an input has one tree, and so one value. */
  lemma Unambiguous<V>(a: Arithmetic<V>, src: string, e: Expr, f: Expr)
    requires Derives(src, e) && Derives(src, f)
    ensures ExprValue(Trees(), e) == ExprValue(Trees(), f)
    ensures ExprValue(a, e) == ExprValue(a, f)
  {
    hide ReadExpr, Skip, Derives, ExprValue, Value;
    ExprTree(a, e);
    ExprTree(a, f);
    Complete(Trees(), src, e);
    Complete(Trees(), src, f);
  }
}
