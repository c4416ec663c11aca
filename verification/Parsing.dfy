/** Recursive descent as functions on the text that is still to be read (src/ai/agent/calculator.js). */
module Parsing {
  import opened Options
  import opened Grammar

  /** The value read and the text left, or an error. */
  datatype Parsed<V> = Ok(value: V, rest: string) | Fail

  function Skip(s: string): (r: string)
    ensures |r| <= |s|
  {
    if s != "" && s[0] == ' ' then Skip(s[1..]) else s
  }

  function DigitCount(s: string): (n: nat)
    ensures n <= |s|
  {
    if s != "" && IsDigit(s[0]) then 1 + DigitCount(s[1..]) else 0
  }

  /** How much of the text is the longest number at its start. */
  function NumberLength(s: string): (n: nat)
    ensures n <= |s|
  {
    var whole := DigitCount(s);
    if 0 < whole < |s| && s[whole] == '.' && DigitCount(s[whole + 1..]) > 0
    then whole + 1 + DigitCount(s[whole + 1..]) else whole
  }

  predicate Starts(s: string, c: char) {
    s != "" && s[0] == c
  }

  function Number<V>(a: Arithmetic<V>, s: string): (r: Parsed<V>)
    ensures r.Ok? ==> |r.rest| < |s|
  {
    var t := Skip(s);
    var n := NumberLength(t);
    if n == 0 then Fail else Ok(a.literal(t[..n]), t[n..])
  }

  function ReadPrimary<V>(a: Arithmetic<V>, s: string): (r: Parsed<V>)
    ensures r.Ok? ==> |r.rest| < |s|
    decreases |s|, 0
  {
    var t := Skip(s);
    if Starts(t, '(') then
      var e := ReadExpr(a, t[1..]);
      if e.Ok? && Starts(Skip(e.rest), ')') then Ok(e.value, Skip(e.rest)[1..]) else Fail
    else Number(a, t)
  }

  function ReadUnary<V>(a: Arithmetic<V>, s: string): (r: Parsed<V>)
    ensures r.Ok? ==> |r.rest| < |s|
    decreases |s|, 1
  {
    var t := Skip(s);
    if Starts(t, '-') then
      var u := ReadUnary(a, t[1..]);
      if u.Ok? then Ok(a.negate(u.value), u.rest) else Fail
    else ReadPrimary(a, t)
  }

  function ReadFactor<V>(a: Arithmetic<V>, s: string): (r: Parsed<V>)
    ensures r.Ok? ==> |r.rest| < |s|
    decreases |s|, 2
  {
    var base := ReadUnary(a, s);
    if base.Fail? then Fail
    else
      var t := Skip(base.rest);
      if Starts(t, '^') then
        var exponent := ReadFactor(a, t[1..]);
        if exponent.Fail? then Fail
        else
          var v := Operate(a, '^', base.value, exponent.value);
          if v.Some? then Ok(v.value, exponent.rest) else Fail
      else Ok(base.value, t)
  }

  function ReadTerm<V>(a: Arithmetic<V>, s: string): (r: Parsed<V>)
    ensures r.Ok? ==> |r.rest| < |s|
    decreases |s|, 3
  {
    var f := ReadFactor(a, s);
    if f.Ok? then MoreFactors(a, f.value, f.rest) else Fail
  }

  function MoreFactors<V>(a: Arithmetic<V>, v: V, s: string): (r: Parsed<V>)
    ensures r.Ok? ==> |r.rest| <= |s|
    decreases |s|, 3
  {
    var t := Skip(s);
    if t != "" && IsTimes(t[0]) then
      var f := ReadFactor(a, t[1..]);
      if f.Fail? then Fail
      else
        var w := Operate(a, t[0], v, f.value);
        if w.Some? then MoreFactors(a, w.value, f.rest) else Fail
    else Ok(v, t)
  }

  function ReadExpr<V>(a: Arithmetic<V>, s: string): (r: Parsed<V>)
    ensures r.Ok? ==> |r.rest| < |s|
    decreases |s|, 4
  {
    var t := ReadTerm(a, s);
    if t.Ok? then MoreTerms(a, t.value, t.rest) else Fail
  }

  function MoreTerms<V>(a: Arithmetic<V>, v: V, s: string): (r: Parsed<V>)
    ensures r.Ok? ==> |r.rest| <= |s|
    decreases |s|, 4
  {
    var t := Skip(s);
    if t != "" && IsPlus(t[0]) then
      var f := ReadTerm(a, t[1..]);
      if f.Fail? then Fail
      else
        var w := Operate(a, t[0], v, f.value);
        if w.Some? then MoreTerms(a, w.value, f.rest) else Fail
    else Ok(v, t)
  }

  /** JavaScript's \s within the characters the first test lets through. */
  predicate IsWhitespace(c: char) {
    c == ' ' || '\t' <= c <= '\r' || c == '\U{A0}' || c == '\U{1680}' || '\U{2000}' <= c <= '\U{200A}'
    || c == '\U{2028}' || c == '\U{2029}' || c == '\U{202F}' || c == '\U{205F}' || c == '\U{3000}' || c == '\U{FEFF}'
  }

  predicate IsAllowed(c: char) {
    IsDigit(c) || IsWhitespace(c) || c in ".+-*/%^()"
  }

  predicate AllAllowed(s: string) {
    forall i :: 0 <= i < |s| ==> IsAllowed(s[i])
  }

  const MAX_LENGTH := 200

  function Evaluate<V>(a: Arithmetic<V>, src: string): Option<V> {
    if |src| > MAX_LENGTH || src == "" || !AllAllowed(src) then None
    else
      var e := ReadExpr(a, src);
      if e.Ok? && Skip(e.rest) == "" && a.isFinite(e.value) then Some(a.rounded(e.value)) else None
  }

  // ---------------------------------------------------------------- tokens

  lemma {:induction false} SkipSpaces(sp: nat, s: string)
    ensures Skip(Spaces(sp) + s) == Skip(s)
  {
    if sp == 0 {
      assert Spaces(0) + s == s;
    } else {
      assert (Spaces(sp) + s)[1..] == Spaces(sp - 1) + s;
      SkipSpaces(sp - 1, s);
    }
  }

  /** Skipping takes spaces, and all of them. */
  lemma {:induction false} SkipTakes(s: string) returns (sp: nat)
    ensures s == Spaces(sp) + Skip(s)
    ensures !Starts(Skip(s), ' ') && Skip(Skip(s)) == Skip(s)
  {
    if s != "" && s[0] == ' ' {
      var n := SkipTakes(s[1..]);
      sp := n + 1;
      assert s == [' '] + s[1..];
      assert Spaces(sp) == [' '] + Spaces(sp - 1);
    } else {
      sp := 0;
    }
  }

  lemma {:induction false} DigitCountIs(s: string)
    ensures AllDigits(s[..DigitCount(s)])
    ensures DigitCount(s) == |s| || !IsDigit(s[DigitCount(s)])
  {
    if s != "" && IsDigit(s[0]) {
      DigitCountIs(s[1..]);
      var n := DigitCount(s);
      forall i | 0 <= i < n ensures IsDigit(s[i]) {
        if i > 0 {
          assert s[i] == s[1..][..n - 1][i - 1];
        }
      }
    }
  }

  lemma {:induction false} DigitCountOf(d: string, s: string)
    requires AllDigits(d) && (s == "" || !IsDigit(s[0]))
    ensures DigitCount(d + s) == |d|
  {
    if d == "" {
      assert d + s == s;
    } else {
      assert (d + s)[1..] == d[1..] + s;
      DigitCountOf(d[1..], s);
    }
  }

  /** What follows cannot prolong a number. */
  predicate EndsNumber(rest: string) {
    rest == "" || !(IsDigit(rest[0]) || rest[0] == '.')
  }

  lemma NumberLengthIs(s: string)
    requires NumberLength(s) > 0
    ensures IsNumber(s[..NumberLength(s)])
  {
    var whole, n := DigitCount(s), NumberLength(s);
    DigitCountIs(s);
    if n > whole {
      DigitCountIs(s[whole + 1..]);
      var t := s[..n];
      assert t[..whole] == s[..whole] && t[whole + 1..] == s[whole + 1..][..DigitCount(s[whole + 1..])];
      assert IsDecimal(t, whole);
    }
  }

  lemma FractionLength(w: string, f: string, rest: string)
    requires w != "" && AllDigits(w) && f != "" && AllDigits(f) && EndsNumber(rest)
    ensures NumberLength(w + ("." + (f + rest))) == |w| + 1 + |f|
  {
    var s := w + ("." + (f + rest));
    DigitCountOf(w, "." + (f + rest));
    DigitCountOf(f, rest);
    assert s[|w| + 1..] == f + rest;
  }

  lemma NumberLengthOf(text: string, rest: string)
    requires IsNumber(text) && EndsNumber(rest)
    ensures NumberLength(text + rest) == |text|
  {
    if text != "" && AllDigits(text) {
      DigitCountOf(text, rest);
    } else {
      var n :| IsDecimal(text, n);
      assert text + rest == text[..n] + ("." + (text[n + 1..] + rest));
      hide IsNumber, AllDigits, NumberLength, DigitCount;
      FractionLength(text[..n], text[n + 1..], rest);
    }
  }
}
