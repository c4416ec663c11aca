/** How JSON.stringify prints a string: section 7 of RFC 8259, with unpaired surrogates escaped as well. */
module JsonText {

  /** A UTF-16 code unit. */
  type Unit = u: int | 0 <= u < 0x10000

  type Text = seq<Unit>

  const QUOTE: Unit := 0x22
  const BACKSLASH: Unit := 0x5C
  const LOWER_U: Unit := 0x75

  predicate IsHigh(u: Unit) {
    0xD800 <= u < 0xDC00
  }

  predicate IsLow(u: Unit) {
    0xDC00 <= u < 0xE000
  }

  function HexDigit(n: int): Unit
    requires 0 <= n < 16
  {
    if n < 10 then 0x30 + n else 0x61 + n - 10
  }

  function HexValue(u: Unit): int {
    if 0x30 <= u <= 0x39 then u - 0x30 else if 0x61 <= u <= 0x66 then u - 0x61 + 10 else 0
  }

  function Hex4(u: Unit): (r: Text)
    ensures |r| == 4
  {
    [HexDigit(u / 4096), HexDigit(u / 256 % 16), HexDigit(u / 16 % 16), HexDigit(u % 16)]
  }

  function FromHex4(t: Text): Unit
    requires |t| >= 4
  {
    var v := ((HexValue(t[0]) * 16 + HexValue(t[1])) * 16 + HexValue(t[2])) * 16 + HexValue(t[3]);
    if 0 <= v < 0x10000 then v else 0
  }

  /** The letter of a two-character escape, where there is one. */
  function Letter(u: Unit): int {
    match u
    case 0x22 => 0x22
    case 0x5C => 0x5C
    case 0x08 => 0x62
    case 0x0C => 0x66
    case 0x0A => 0x6E
    case 0x0D => 0x72
    case 0x09 => 0x74
    case _ => -1
  }

  function FromLetter(c: Unit): Unit {
    match c
    case 0x62 => 0x08
    case 0x66 => 0x0C
    case 0x6E => 0x0A
    case 0x72 => 0x0D
    case 0x74 => 0x09
    case _ => c
  }

  /** One code unit that is not half of a surrogate pair. */
  function EscapeUnit(u: Unit): (r: Text)
    ensures r != []
  {
    if Letter(u) >= 0 then [BACKSLASH, Letter(u)]
    else if u < 0x20 || IsHigh(u) || IsLow(u) then [BACKSLASH, LOWER_U] + Hex4(u)
    else [u]
  }

  predicate StartsPair(s: Text) {
    |s| >= 2 && IsHigh(s[0]) && IsLow(s[1])
  }

  function Escape(s: Text): Text {
    if s == [] then []
    else if StartsPair(s) then [s[0], s[1]] + Escape(s[2..])
    else EscapeUnit(s[0]) + Escape(s[1..])
  }

  function Quote(s: Text): Text {
    [QUOTE] + (Escape(s) + [QUOTE])
  }

  /** Reads escaped text back. */
  function Unescape(t: Text): Text {
    if t == [] then []
    else if t[0] != BACKSLASH then [t[0]] + Unescape(t[1..])
    else if |t| >= 6 && t[1] == LOWER_U then [FromHex4(t[2..])] + Unescape(t[6..])
    else if |t| >= 2 then [FromLetter(t[1])] + Unescape(t[2..])
    else t
  }

  lemma HexDigitValue(n: int)
    requires 0 <= n < 16
    ensures HexValue(HexDigit(n)) == n
  {
  }

  lemma FourDigits(u: Unit)
    ensures u == (((u / 4096) * 16 + u / 256 % 16) * 16 + u / 16 % 16) * 16 + u % 16
  {
    assert u / 16 / 16 == u / 256 && u / 256 / 16 == u / 4096;
  }

  lemma HexRoundTrip(u: Unit, t: Text)
    ensures FromHex4(Hex4(u) + t) == u
  {
    HexDigitValue(u / 4096);
    HexDigitValue(u / 256 % 16);
    HexDigitValue(u / 16 % 16);
    HexDigitValue(u % 16);
    FourDigits(u);
    hide HexDigit, HexValue;
  }

  lemma Assoc(a: Text, b: Text, c: Text)
    ensures (a + b) + c == a + (b + c)
  {
  }

  lemma UnescapeUnit(u: Unit, t: Text)
    ensures Unescape(EscapeUnit(u) + t) == [u] + Unescape(t)
  {
    var e := EscapeUnit(u) + t;
    if Letter(u) >= 0 {
      assert e[2..] == t;
    } else if |EscapeUnit(u)| == 6 {
      assert e[2..] == Hex4(u) + t && e[6..] == t;
      HexRoundTrip(u, t);
    } else {
      assert e[1..] == t;
    }
  }

  /** Escaping loses nothing. */
  lemma {:induction false} UnescapeEscape(s: Text)
    ensures Unescape(Escape(s)) == s
  {
    if s == [] {
    } else if StartsPair(s) {
      UnescapeEscape(s[2..]);
      var e := Escape(s);
      assert e[1..] == [s[1]] + Escape(s[2..]) && e[1..][1..] == Escape(s[2..]);
      assert s == [s[0]] + ([s[1]] + s[2..]);
    } else {
      UnescapeEscape(s[1..]);
      UnescapeUnit(s[0], Escape(s[1..]));
    }
  }

  /** How long the string is that an opening quote starts: to its first quote that is not escaped. */
  function StringLength(t: Text): (n: nat)
    ensures n <= |t|
  {
    if t == [] then 0
    else if t[0] == QUOTE then 1
    else if t[0] == BACKSLASH && |t| >= 2 then 2 + StringLength(t[2..])
    else 1 + StringLength(t[1..])
  }

  lemma PlainLength(p: Text, t: Text)
    requires forall i :: 0 <= i < |p| ==> p[i] != QUOTE && p[i] != BACKSLASH
    ensures StringLength(p + t) == |p| + StringLength(t)
  {
    if p == [] {
      assert p + t == t;
    } else {
      assert (p + t)[1..] == p[1..] + t;
      PlainLength(p[1..], t);
    }
  }

  lemma UnitLength(u: Unit, t: Text)
    ensures StringLength(EscapeUnit(u) + t) == |EscapeUnit(u)| + StringLength(t)
  {
    var e := EscapeUnit(u) + t;
    if Letter(u) >= 0 {
      assert e[2..] == t;
    } else if |EscapeUnit(u)| == 6 {
      assert e[2..] == Hex4(u) + t;
      PlainLength(Hex4(u), t);
    } else {
      assert e[1..] == t;
    }
  }

  lemma OnlyQuote(t: Text)
    ensures StringLength([QUOTE] + t) == 1
  {
  }

  /** A printed string ends at its own closing quote, whatever follows. */
  lemma {:induction false} QuoteLength(s: Text, t: Text)
    ensures StringLength(Escape(s) + ([QUOTE] + t)) == |Escape(s)| + 1
  {
    OnlyQuote(t);
    hide StringLength, EscapeUnit;
    if s == [] {
      assert Escape(s) + ([QUOTE] + t) == [QUOTE] + t;
    } else if StartsPair(s) {
      var rest := Escape(s[2..]) + ([QUOTE] + t);
      QuoteLength(s[2..], t);
      PlainLength([s[0], s[1]], rest);
      Assoc([s[0], s[1]], Escape(s[2..]), [QUOTE] + t);
    } else {
      var rest := Escape(s[1..]) + ([QUOTE] + t);
      QuoteLength(s[1..], t);
      UnitLength(s[0], rest);
      Assoc(EscapeUnit(s[0]), Escape(s[1..]), [QUOTE] + t);
    }
  }

  /** A printed string determines the string, and where it ends. */
  lemma QuoteInjective(s: Text, t: Text, r: Text, q: Text)
    requires Quote(s) + r == Quote(t) + q
    ensures s == t && r == q
  {
    var a, b := Escape(s), Escape(t);
    assert (Quote(s) + r)[1..] == a + ([QUOTE] + r);
    assert (Quote(t) + q)[1..] == b + ([QUOTE] + q);
    QuoteLength(s, r);
    QuoteLength(t, q);
    assert |a| == |b|;
    assert (a + ([QUOTE] + r))[..|a|] == a && (b + ([QUOTE] + q))[..|b|] == b;
    assert (a + ([QUOTE] + r))[|a| + 1..] == r && (b + ([QUOTE] + q))[|b| + 1..] == q;
    UnescapeEscape(s);
    UnescapeEscape(t);
  }
}
