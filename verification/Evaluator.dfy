/** The evaluator as it runs: nested functions that advance one shared position (src/ai/agent/calculator.js). */
module Evaluator {
  import opened Options
  import opened Grammar
  import opened Parsing
  import Calculator

  /** What a function read from `before`: its value with the cursor at what is left, or an error thrown. */
  ghost predicate Reads<V>(p: Parsed<V>, src: string, pos: nat, result: Option<V>) {
    match p
    case Ok(v, rest) => pos <= |src| && src[pos..] == rest && result == Some(v)
    case Fail => result == None
  }

  class Cursor<V(0,!new)> {
    const a: Arithmetic<V>
    const src: string
    var pos: nat

    constructor (a: Arithmetic<V>, src: string)
      ensures this.a == a && this.src == src && pos == 0
    {
      this.a, this.src, pos := a, src, 0;
    }

    ghost function Left(): string
      requires pos <= |src|
      reads this
    {
      src[pos..]
    }

    predicate At(c: char)
      requires pos <= |src|
      reads this
    {
      pos < |src| && src[pos] == c
    }

    method Skip()
      requires pos <= |src|
      modifies `pos
      ensures old(pos) <= pos <= |src| && Left() == Parsing.Skip(old(Left()))
    {
      while pos < |src| && src[pos] == ' '
        invariant old(pos) <= pos <= |src|
        invariant Parsing.Skip(Left()) == Parsing.Skip(old(Left()))
      {
        assert Left()[1..] == src[pos + 1..];
        pos := pos + 1;
      }
    }

    method Number() returns (v: Option<V>)
      requires pos <= |src|
      modifies `pos
      ensures old(pos) <= pos && Reads(Parsing.Number(a, old(Left())), src, pos, v)
    {
      Skip();
      var n := NumberLength(src[pos..]);
      if n == 0 {
        return None;
      }
      v := Some(a.literal(src[pos..][..n]));
      assert src[pos..][n..] == src[pos + n..];
      pos := pos + n;
    }

    method Primary() returns (v: Option<V>)
      requires pos <= |src|
      modifies `pos
      ensures old(pos) <= pos && Reads(ReadPrimary(a, old(Left())), src, pos, v)
      decreases |src| - pos, 0
    {
      Skip();
      if At('(') {
        assert Left()[1..] == src[pos + 1..];
        pos := pos + 1;
        v := Expr();
        if v == None {
          return None;
        }
        Skip();
        if !At(')') {
          return None;
        }
        assert Left()[1..] == src[pos + 1..];
        pos := pos + 1;
        return v;
      }
      v := Number();
    }

    method Unary() returns (v: Option<V>)
      requires pos <= |src|
      modifies `pos
      ensures old(pos) <= pos && Reads(ReadUnary(a, old(Left())), src, pos, v)
      decreases |src| - pos, 1
    {
      Skip();
      if At('-') {
        assert Left()[1..] == src[pos + 1..];
        pos := pos + 1;
        var u := Unary();
        return if u == None then None else Some(a.negate(u.value));
      }
      v := Primary();
    }

    method Factor() returns (v: Option<V>)
      requires pos <= |src|
      modifies `pos
      ensures old(pos) <= pos && Reads(ReadFactor(a, old(Left())), src, pos, v)
      decreases |src| - pos, 2
    {
      hide ReadUnary, Parsing.Skip;
      var base := Unary();
      if base == None {
        return None;
      }
      Skip();
      if At('^') {
        assert Left()[1..] == src[pos + 1..];
        pos := pos + 1;
        var exp := Factor();
        if exp == None || a.tooLarge(exp.value) {
          return None;
        }
        return Some(a.operate('^', base.value, exp.value));
      }
      return base;
    }

    method Term() returns (v: Option<V>)
      requires pos <= |src|
      modifies `pos
      ensures old(pos) <= pos && Reads(ReadTerm(a, old(Left())), src, pos, v)
      decreases |src| - pos, 3
    {
      hide ReadFactor, Parsing.Skip;
      v := Factor();
      if v == None {
        return None;
      }
      while true
        invariant old(pos) <= pos <= |src| && v.Some?
        invariant ReadTerm(a, old(Left())) == MoreFactors(a, v.value, Left())
        invariant |Left()| < |old(Left())|
        decreases |src| - pos
      {
        Skip();
        if pos == |src| || !(src[pos] == '*' || src[pos] == '/' || src[pos] == '%') {
          return v;
        }
        var op := src[pos];
        assert Left()[1..] == src[pos + 1..];
        pos := pos + 1;
        var r := Factor();
        if r == None || ((op == '/' || op == '%') && a.isZero(r.value)) {
          return None;
        }
        v := Some(a.operate(op, v.value, r.value));
      }
    }

    method Expr() returns (v: Option<V>)
      requires pos <= |src|
      modifies `pos
      ensures old(pos) <= pos && Reads(ReadExpr(a, old(Left())), src, pos, v)
      decreases |src| - pos, 4
    {
      hide ReadTerm, Parsing.Skip;
      v := Term();
      if v == None {
        return None;
      }
      while true
        invariant old(pos) <= pos <= |src| && v.Some?
        invariant ReadExpr(a, old(Left())) == MoreTerms(a, v.value, Left())
        invariant |Left()| < |old(Left())|
        decreases |src| - pos
      {
        Skip();
        if pos == |src| || !(src[pos] == '+' || src[pos] == '-') {
          return v;
        }
        var op := src[pos];
        assert Left()[1..] == src[pos + 1..];
        pos := pos + 1;
        var r := Term();
        if r == None {
          return None;
        }
        v := Some(a.operate(op, v.value, r.value));
      }
    }
  }

  /** evaluateArithmetic: it answers exactly what the grammar says, and otherwise throws (None). */
  method EvaluateArithmetic<V(0,!new)>(a: Arithmetic<V>, src: string) returns (v: Option<V>)
    ensures v == Evaluate(a, src)
    ensures v.Some? ==> Calculator.Answer(a, src, v.value)
    ensures v.None? ==> forall x: V :: !Calculator.Answer(a, src, x)
  {
    forall x: V ensures Evaluate(a, src) == Some(x) <==> Calculator.Answer(a, src, x) {
      Calculator.AnswersExactly(a, src, x);
    }
    hide Calculator.Answer, ReadExpr, Parsing.Skip;
    if |src| > MAX_LENGTH || src == "" || !AllAllowed(src) {
      return None;
    }
    var cursor := new Cursor(a, src);
    assert src[0..] == src;
    var value := cursor.Expr();
    if value == None {
      return None;
    }
    cursor.Skip();
    if cursor.pos != |src| || !a.isFinite(value.value) {
      return None;
    }
    return Some(a.rounded(value.value));
  }
}
