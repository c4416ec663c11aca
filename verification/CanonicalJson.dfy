/** The canonical JSON printer: object keys sorted at every depth (src/services/execution.service.js). */
module CanonicalJson {
  import opened Graphs
  import opened JsonText
  import Lexicographic

  /** A JSON value; a number is the text it is printed as. */
  datatype Json =
    | Null
    | Bool(b: bool)
    | Num(text: Text)
    | Str(s: Text)
    | Arr(items: seq<Json>)
    | Obj(members: seq<Member>)

  /** A property; an object has at most one of each key, in any order. */
  datatype Member = Member(key: Text, value: Json)

  function Ascii(s: string): (t: Text)
    requires forall i :: 0 <= i < |s| ==> s[i] < '\U{80}'
    ensures |t| == |s| && forall i :: 0 <= i < |s| ==> t[i] == s[i] as int
  {
    seq(|s|, i requires 0 <= i < |s| => s[i] as int)
  }

  /** Digits, signs, dot and exponent. */
  predicate IsNumberUnit(u: Unit) {
    0x30 <= u <= 0x39 || u == 0x2B || u == 0x2D || u == 0x2E || u == 0x65
  }

  ghost predicate Good(v: Json) {
    match v
    case Null => true
    case Bool(_) => true
    case Num(text) => text != [] && forall i :: 0 <= i < |text| ==> IsNumberUnit(text[i])
    case Str(_) => true
    case Arr(items) => forall i :: 0 <= i < |items| ==> Good(items[i])
    case Obj(members) =>
      && (forall i, j :: 0 <= i < j < |members| ==> members[i].key != members[j].key)
      && (forall i :: 0 <= i < |members| ==> Good(members[i].value))
  }

  /** Equal up to the order of object keys, at every depth. */
  ghost predicate Same(v: Json, w: Json)
    decreases v
  {
    match v
    case Arr(items) =>
      w.Arr? && |items| == |w.items| && forall i :: 0 <= i < |items| ==> Same(items[i], w.items[i])
    case Obj(members) =>
      && w.Obj? && |members| == |w.members|
      && forall i :: 0 <= i < |members| ==> Matched(members[i], w.members)
    case _ => v == w
  }

  /** Some property has this key and the same value. */
  ghost predicate Matched(m: Member, ms: seq<Member>)
    decreases m
  {
    exists j :: 0 <= j < |ms| && m.key == ms[j].key && Same(m.value, ms[j].value)
  }

  // ---------------------------------------------------------------- the printer

  /** A property as printed. */
  datatype Entry = Entry(key: Text, text: Text)

  function InsertByKey(e: Entry, es: seq<Entry>): seq<Entry> {
    if es == [] || Lexicographic.Less(e.key, es[0].key) then [e] + es else [es[0]] + InsertByKey(e, es[1..])
  }

  function SortByKey(es: seq<Entry>): seq<Entry> {
    if es == [] then [] else InsertByKey(es[0], SortByKey(es[1..]))
  }

  function Printed(e: Entry): Text {
    Quote(e.key) + ([0x3A] + e.text)
  }

  function PrintedAll(es: seq<Entry>): (r: seq<Text>)
    ensures |r| == |es| && forall i :: 0 <= i < |es| ==> r[i] == Printed(es[i])
  {
    seq(|es|, i requires 0 <= i < |es| => Printed(es[i]))
  }

  const COMMA: Unit := 0x2C

  /** join(",") */
  function Join(ts: seq<Text>): Text {
    if ts == [] then [] else if |ts| == 1 then ts[0] else ts[0] + ([COMMA] + Join(ts[1..]))
  }

  function Canonical(v: Json): Text {
    match v
    case Null => Ascii("null")
    case Bool(b) => if b then Ascii("true") else Ascii("false")
    case Num(text) => text
    case Str(s) => Quote(s)
    case Arr(items) => Ascii("[") + (Join(seq(|items|, i requires 0 <= i < |items| => Canonical(items[i]))) + Ascii("]"))
    case Obj(members) =>
      var es := seq(|members|, i requires 0 <= i < |members| => Entry(members[i].key, Canonical(members[i].value)));
      Ascii("{") + (Join(PrintedAll(SortByKey(es))) + Ascii("}"))
  }

  function Texts(items: seq<Json>): (r: seq<Text>)
    ensures |r| == |items| && forall i :: 0 <= i < |items| ==> r[i] == Canonical(items[i])
  {
    seq(|items|, i requires 0 <= i < |items| => Canonical(items[i]))
  }

  function Entries(members: seq<Member>): (r: seq<Entry>)
    ensures |r| == |members|
    ensures forall i :: 0 <= i < |members| ==> r[i] == Entry(members[i].key, Canonical(members[i].value))
  {
    seq(|members|, i requires 0 <= i < |members| => Entry(members[i].key, Canonical(members[i].value)))
  }

  lemma CanonicalArr(items: seq<Json>)
    ensures Canonical(Arr(items)) == Ascii("[") + (Join(Texts(items)) + Ascii("]"))
  {
    assert Texts(items) == seq(|items|, i requires 0 <= i < |items| => Canonical(items[i]));
  }

  lemma CanonicalObj(members: seq<Member>)
    ensures Canonical(Obj(members)) == Ascii("{") + (Join(PrintedAll(SortByKey(Entries(members)))) + Ascii("}"))
  {
    assert Entries(members) ==
      seq(|members|, i requires 0 <= i < |members| => Entry(members[i].key, Canonical(members[i].value)));
  }

  // ---------------------------------------------------------------- where a printed value ends

  /** How far a value reaches: to the first separator or closing bracket that is not inside it. */
  function ValueLength(t: Text, depth: nat): (n: nat)
    ensures n <= |t|
    decreases |t|
  {
    if t == [] || (depth == 0 && t[0] in {0x2C, 0x5D, 0x7D}) then 0
    else if t[0] == QUOTE then
      var n := 1 + StringLength(t[1..]);
      n + ValueLength(t[n..], depth)
    else if t[0] == 0x5B || t[0] == 0x7B then 1 + ValueLength(t[1..], depth + 1)
    else if t[0] == 0x5D || t[0] == 0x7D then 1 + ValueLength(t[1..], depth - 1)
    else 1 + ValueLength(t[1..], depth)
  }

  /** A text that a reader passes as a whole at this depth, whatever follows. */
  ghost predicate Passes(t: Text, depth: nat) {
    forall r: Text :: Reaches(t, r, depth)
  }

  predicate Reaches(t: Text, r: Text, depth: nat) {
    ValueLength(t + r, depth) == |t| + ValueLength(r, depth)
  }

  lemma PassesConcat(a: Text, b: Text, depth: nat)
    requires Passes(a, depth) && Passes(b, depth)
    ensures Passes(a + b, depth)
  {
    forall r: Text ensures Reaches(a + b, r, depth) {
      Assoc(a, b, r);
      assert Reaches(a, b + r, depth) && Reaches(b, r, depth);
    }
  }

  lemma {:induction false} PlainPasses(p: Text, depth: nat)
    requires forall i :: 0 <= i < |p| ==> p[i] !in {QUOTE, 0x2C, 0x5B, 0x5D, 0x7B, 0x7D}
    ensures Passes(p, depth)
  {
    forall r: Text ensures Reaches(p, r, depth) {
      PlainReaches(p, r, depth);
    }
  }

  lemma {:induction false} PlainReaches(p: Text, r: Text, depth: nat)
    requires forall i :: 0 <= i < |p| ==> p[i] !in {QUOTE, 0x2C, 0x5B, 0x5D, 0x7B, 0x7D}
    ensures Reaches(p, r, depth)
  {
    if p == [] {
      assert p + r == r;
    } else {
      assert (p + r)[1..] == p[1..] + r && (p + r)[0] == p[0];
      PlainReaches(p[1..], r, depth);
    }
  }

  lemma QuotePasses(s: Text, depth: nat)
    ensures Passes(Quote(s), depth)
  {
    forall r: Text ensures Reaches(Quote(s), r, depth) {
      var t := Quote(s) + r;
      assert t[1..] == Escape(s) + ([QUOTE] + r);
      QuoteLength(s, r);
      assert t[|Quote(s)|..] == r;
    }
  }

  /** A bracketed text passes if its inside passes one level deeper. */
  lemma BracketPasses(open: Unit, t: Text, close: Unit, depth: nat)
    requires (open == 0x5B && close == 0x5D) || (open == 0x7B && close == 0x7D)
    requires Passes(t, depth + 1)
    ensures Passes([open] + (t + [close]), depth)
  {
    forall r: Text ensures Reaches([open] + (t + [close]), r, depth) {
      var whole := [open] + (t + [close]) + r;
      assert whole[1..] == t + ([close] + r);
      assert Reaches(t, [close] + r, depth + 1);
      assert ([close] + r)[1..] == r;
    }
  }

  lemma {:induction false} JoinPasses(ts: seq<Text>, depth: nat)
    requires depth > 0 && forall i :: 0 <= i < |ts| ==> Passes(ts[i], depth)
    ensures Passes(Join(ts), depth)
  {
    if ts == [] {
      PlainPasses([], depth);
    } else if |ts| > 1 {
      JoinPasses(ts[1..], depth);
      assert Passes([COMMA], depth) by {
        forall r: Text ensures Reaches([COMMA], r, depth) {
          assert ([COMMA] + r)[1..] == r;
        }
      }
      PassesConcat([COMMA], Join(ts[1..]), depth);
      PassesConcat(ts[0], [COMMA] + Join(ts[1..]), depth);
    }
  }

  // ---------------------------------------------------------------- sorting

  ghost predicate SortedByKey(es: seq<Entry>) {
    forall i, j :: 0 <= i < j < |es| ==> Lexicographic.Less(es[i].key, es[j].key)
  }

  lemma {:induction false} InsertHolds(e: Entry, es: seq<Entry>)
    ensures |InsertByKey(e, es)| == |es| + 1
    ensures forall x :: x in InsertByKey(e, es) <==> x == e || x in es
  {
    if es != [] && !Lexicographic.Less(e.key, es[0].key) {
      InsertHolds(e, es[1..]);
      assert es == [es[0]] + es[1..];
    }
  }

  lemma {:induction false} SortHolds(es: seq<Entry>)
    ensures |SortByKey(es)| == |es|
    ensures forall x :: x in SortByKey(es) <==> x in es
  {
    if es != [] {
      SortHolds(es[1..]);
      InsertHolds(es[0], SortByKey(es[1..]));
      assert es == [es[0]] + es[1..];
    }
  }

  lemma PrependSorted(e: Entry, es: seq<Entry>)
    requires SortedByKey(es) && forall x :: x in es ==> Lexicographic.Less(e.key, x.key)
    ensures SortedByKey([e] + es)
  {
    var r := [e] + es;
    forall i, j | 0 <= i < j < |r| ensures Lexicographic.Less(r[i].key, r[j].key) {
      assert r[j] == es[j - 1] && r[j] in es;
    }
  }

  lemma TailSorted(es: seq<Entry>)
    requires SortedByKey(es) && es != []
    ensures SortedByKey(es[1..]) && forall x :: x in es[1..] ==> Lexicographic.Less(es[0].key, x.key)
  {
  }

  lemma {:induction false} InsertSorts(e: Entry, es: seq<Entry>)
    requires SortedByKey(es) && forall x :: x in es ==> x.key != e.key
    ensures SortedByKey(InsertByKey(e, es))
  {
    if es == [] {
    } else if Lexicographic.Less(e.key, es[0].key) {
      TailSorted(es);
      forall x | x in es ensures Lexicographic.Less(e.key, x.key) {
        if x != es[0] {
          Lexicographic.Transitive(e.key, es[0].key, x.key);
        }
      }
      PrependSorted(e, es);
    } else {
      TailSorted(es);
      Lexicographic.Total(e.key, es[0].key);
      InsertSorts(e, es[1..]);
      InsertHolds(e, es[1..]);
      PrependSorted(es[0], InsertByKey(e, es[1..]));
    }
  }

  ghost predicate DistinctKeys(es: seq<Entry>) {
    forall i, j :: 0 <= i < j < |es| ==> es[i].key != es[j].key
  }

  lemma {:induction false} SortSorts(es: seq<Entry>)
    requires DistinctKeys(es)
    ensures SortedByKey(SortByKey(es))
  {
    if es != [] {
      SortSorts(es[1..]);
      SortHolds(es[1..]);
      InsertSorts(es[0], SortByKey(es[1..]));
    }
  }

  /** A set of entries has one sorted listing. */
  lemma {:induction false} OneSorting(a: seq<Entry>, b: seq<Entry>)
    requires SortedByKey(a) && SortedByKey(b) && |a| == |b|
    requires forall x :: x in a ==> x in b
    ensures a == b
  {
    if a != [] {
      TailSorted(a);
      TailSorted(b);
      FirstIsSame(a, b);
      assert a == [a[0]] + a[1..] && b == [b[0]] + b[1..];
      forall x | x in a[1..] ensures x in b[1..] {
        assert x in a;
        Lexicographic.Irreflexive(x.key);
      }
      OneSorting(a[1..], b[1..]);
    }
  }

  lemma DistinctSorted(a: seq<Entry>)
    requires SortedByKey(a)
    ensures Distinct(a)
  {
    forall i, j | 0 <= i < j < |a| ensures a[i] != a[j] {
      Lexicographic.Irreflexive(a[i].key);
    }
  }

  /** If the first of `b` were not in `a`, the entries of `a` would have to fit in the rest of `b`. */
  lemma FirstIsSame(a: seq<Entry>, b: seq<Entry>)
    requires SortedByKey(a) && SortedByKey(b) && |a| == |b| > 0
    requires forall x :: x in a ==> x in b
    ensures a[0] == b[0]
  {
    if b[0] !in a {
      DistinctSorted(a);
      var rest := set x | x in b[1..];
      RestSize(b[1..]);
      forall x | x in a ensures x in rest {
        assert x in b && x != b[0];
      }
      DistinctWithin(a, rest);
    } else if a[0] != b[0] {
      TailSorted(a);
      TailSorted(b);
      assert a == [a[0]] + a[1..] && b == [b[0]] + b[1..];
      assert a[0] in a;
      assert b[0] in a[1..] && a[0] in b[1..];
      Lexicographic.Transitive(a[0].key, b[0].key, a[0].key);
      Lexicographic.Irreflexive(a[0].key);
    }
  }

  lemma {:induction false} RestSize<A>(b: seq<A>)
    ensures |set x | x in b| <= |b|
  {
    if b == [] {
      assert (set x | x in b) == {};
    } else {
      RestSize(b[1..]);
      assert (set x | x in b) == (set x | x in b[1..]) + {b[0]};
    }
  }

  // ---------------------------------------------------------------- printed values stand alone

  lemma EntryPasses(e: Entry, depth: nat)
    requires Passes(e.text, depth)
    ensures Passes(Printed(e), depth)
  {
    QuotePasses(e.key, depth);
    PlainPasses([0x3A], depth);
    PassesConcat([0x3A], e.text, depth);
    PassesConcat(Quote(e.key), [0x3A] + e.text, depth);
  }

  /** A reader finds the end of every printed value, whatever follows. */
  lemma {:induction false} CanonicalPasses(v: Json, depth: nat)
    requires Good(v)
    ensures Passes(Canonical(v), depth)
    decreases v
  {
    match v
    case Null => PlainPasses(Ascii("null"), depth);
    case Bool(b) => PlainPasses(Ascii("true"), depth); PlainPasses(Ascii("false"), depth);
    case Num(text) => PlainPasses(text, depth);
    case Str(s) => QuotePasses(s, depth);
    case Arr(items) =>
      forall i | 0 <= i < |items| ensures Passes(Canonical(items[i]), depth + 1) {
        CanonicalPasses(items[i], depth + 1);
      }
      ArrPasses(items, depth);
    case Obj(members) =>
      forall i | 0 <= i < |members| ensures Passes(Canonical(members[i].value), depth + 1) {
        CanonicalPasses(members[i].value, depth + 1);
      }
      ObjPasses(members, depth);
  }

  lemma ArrPasses(items: seq<Json>, depth: nat)
    requires forall i :: 0 <= i < |items| ==> Passes(Canonical(items[i]), depth + 1)
    ensures Passes(Canonical(Arr(items)), depth)
  {
    hide Passes, Canonical, Join;
    CanonicalArr(items);
    JoinPasses(Texts(items), depth + 1);
    BracketPasses(0x5B, Join(Texts(items)), 0x5D, depth);
    assert Ascii("[") == [0x5B] && Ascii("]") == [0x5D];
  }

  lemma ObjPasses(members: seq<Member>, depth: nat)
    requires forall i :: 0 <= i < |members| ==> Passes(Canonical(members[i].value), depth + 1)
    ensures Passes(Canonical(Obj(members)), depth)
  {
    hide Passes, Canonical, Join, SortByKey, Printed;
    CanonicalObj(members);
    var es := SortByKey(Entries(members));
    SortHolds(Entries(members));
    forall i | 0 <= i < |es| ensures Passes(PrintedAll(es)[i], depth + 1) {
      assert es[i] in es;
      var j :| 0 <= j < |members| && Entries(members)[j] == es[i];
      EntryPasses(es[i], depth + 1);
    }
    JoinPasses(PrintedAll(es), depth + 1);
    BracketPasses(0x7B, Join(PrintedAll(es)), 0x7D, depth);
    assert Ascii("{") == [0x7B] && Ascii("}") == [0x7D];
  }

  /** What may follow a printed value. */
  predicate Ends(r: Text) {
    r == [] || r[0] in {0x2C, 0x5D, 0x7D}
  }

  /** Two texts that pass and agree up to what follows are equal. */
  lemma SameEnd(t: Text, u: Text, r: Text, q: Text)
    requires Passes(t, 0) && Passes(u, 0) && Ends(r) && Ends(q) && t + r == u + q
    ensures t == u && r == q
  {
    assert Reaches(t, r, 0) && Reaches(u, q, 0);
    assert (t + r)[..|t|] == t && (u + q)[..|u|] == u;
    assert (t + r)[|t|..] == r && (u + q)[|u|..] == q;
  }

  /** A text that begins as a value, not as a separator or an end. */
  ghost predicate StandsAlone(t: Text) {
    Passes(t, 0) && t != [] && !Ends(t)
  }

  lemma JoinSplit(ts: seq<Text>, close: Text)
    requires ts != [] && close != [] && Ends(close)
    ensures Join(ts) + close == ts[0] + (if |ts| == 1 then close else [COMMA] + (Join(ts[1..]) + close))
    ensures Ends(if |ts| == 1 then close else [COMMA] + (Join(ts[1..]) + close))
  {
    if |ts| > 1 {
      Assoc(ts[0], [COMMA] + Join(ts[1..]), close);
      Assoc([COMMA], Join(ts[1..]), close);
    }
  }

  /** A joined list determines its elements. */
  lemma {:induction false} JoinInjective(ts: seq<Text>, us: seq<Text>, close: Unit)
    requires close == 0x5D || close == 0x7D
    requires forall i :: 0 <= i < |ts| ==> StandsAlone(ts[i])
    requires forall i :: 0 <= i < |us| ==> StandsAlone(us[i])
    requires Join(ts) + [close] == Join(us) + [close]
    ensures ts == us
  {
    if ts == [] || us == [] {
      JoinStarts(ts, close);
      JoinStarts(us, close);
    } else {
      JoinSplit(ts, [close]);
      JoinSplit(us, [close]);
      var r := if |ts| == 1 then [close] else [COMMA] + (Join(ts[1..]) + [close]);
      var q := if |us| == 1 then [close] else [COMMA] + (Join(us[1..]) + [close]);
      SameEnd(ts[0], us[0], r, q);
      if |ts| > 1 {
        assert r[0] == COMMA && |us| > 1;
        assert r[1..] == Join(ts[1..]) + [close] && q[1..] == Join(us[1..]) + [close];
        JoinInjective(ts[1..], us[1..], close);
        assert ts == [ts[0]] + ts[1..] && us == [us[0]] + us[1..];
      } else {
        assert q[0] == close && |us| == 1;
      }
    }
  }

  lemma JoinStarts(ts: seq<Text>, close: Unit)
    requires close == 0x5D || close == 0x7D
    requires forall i :: 0 <= i < |ts| ==> StandsAlone(ts[i])
    ensures (Join(ts) + [close])[0] == close <==> ts == []
  {
    if ts != [] {
      JoinSplit(ts, [close]);
      assert StandsAlone(ts[0]);
      assert (Join(ts) + [close])[0] == ts[0][0];
    }
  }

  // ---------------------------------------------------------------- the theorem

  /** The first unit of a printed value tells its kind. */
  function Kind(v: Json): int {
    match v
    case Null => 0
    case Bool(b) => if b then 1 else 2
    case Num(_) => 3
    case Str(_) => 4
    case Arr(_) => 5
    case Obj(_) => 6
  }

  function KindOf(u: Unit): int {
    match u
    case 0x6E => 0
    case 0x74 => 1
    case 0x66 => 2
    case 0x22 => 4
    case 0x5B => 5
    case 0x7B => 6
    case _ => 3
  }

  lemma KindShows(v: Json)
    requires Good(v)
    ensures Canonical(v) != [] && KindOf(Canonical(v)[0]) == Kind(v) && StandsAlone(Canonical(v))
  {
    CanonicalPasses(v, 0);
  }

  lemma TextsStandAlone(items: seq<Json>)
    requires forall i :: 0 <= i < |items| ==> Good(items[i])
    ensures forall i :: 0 <= i < |items| ==> StandsAlone(Texts(items)[i])
  {
    forall i | 0 <= i < |items| ensures StandsAlone(Texts(items)[i]) {
      KindShows(items[i]);
    }
  }

  /** Equal printed arrays have equal printed elements. */
  lemma ArrInjective(a: seq<Json>, b: seq<Json>)
    requires Good(Arr(a)) && Good(Arr(b)) && Canonical(Arr(a)) == Canonical(Arr(b))
    ensures Texts(a) == Texts(b)
  {
    TextsStandAlone(a);
    TextsStandAlone(b);
    CanonicalArr(a);
    CanonicalArr(b);
    hide StandsAlone, Canonical, Join, Good;
    assert Canonical(Arr(a))[1..] == Join(Texts(a)) + [0x5D] && Canonical(Arr(b))[1..] == Join(Texts(b)) + [0x5D];
    JoinInjective(Texts(a), Texts(b), 0x5D);
  }

  lemma EntryStandsAlone(members: seq<Member>, e: Entry)
    requires Good(Obj(members)) && e in Entries(members)
    ensures StandsAlone(Printed(e))
  {
    var i :| 0 <= i < |members| && Entries(members)[i] == e;
    CanonicalPasses(members[i].value, 0);
    hide Canonical, Passes, Good;
    EntryPasses(e, 0);
  }

  lemma SortedStandAlone(members: seq<Member>)
    requires Good(Obj(members))
    ensures var es := SortByKey(Entries(members));
      SortedByKey(es) && forall i :: 0 <= i < |es| ==> StandsAlone(PrintedAll(es)[i])
  {
    var es := SortByKey(Entries(members));
    assert DistinctKeys(Entries(members));
    SortSorts(Entries(members));
    SortHolds(Entries(members));
    hide SortByKey, StandsAlone, Good, Canonical, Printed;
    forall i | 0 <= i < |es| ensures StandsAlone(PrintedAll(es)[i]) {
      assert es[i] in es;
      EntryStandsAlone(members, es[i]);
    }
  }

  lemma PrintedInjective(e: Entry, f: Entry)
    requires Printed(e) == Printed(f)
    ensures e == f
  {
    QuoteInjective(e.key, f.key, [0x3A] + e.text, [0x3A] + f.text);
    assert ([0x3A] + e.text)[1..] == e.text && ([0x3A] + f.text)[1..] == f.text;
  }

  /** Equal printed objects have the same printed properties. */
  lemma ObjInjective(a: seq<Member>, b: seq<Member>)
    requires Good(Obj(a)) && Good(Obj(b)) && Canonical(Obj(a)) == Canonical(Obj(b))
    ensures |a| == |b| && forall e :: e in Entries(a) <==> e in Entries(b)
  {
    SortedStandAlone(a);
    SortedStandAlone(b);
    CanonicalObj(a);
    CanonicalObj(b);
    SortHolds(Entries(a));
    SortHolds(Entries(b));
    hide StandsAlone, Canonical, Join, Good, SortByKey, SortedByKey, Printed;
    var es, fs := SortByKey(Entries(a)), SortByKey(Entries(b));
    assert Canonical(Obj(a))[1..] == Join(PrintedAll(es)) + [0x7D] && Canonical(Obj(b))[1..] == Join(PrintedAll(fs)) + [0x7D];
    JoinInjective(PrintedAll(es), PrintedAll(fs), 0x7D);
    assert |es| == |fs|;
    forall i | 0 <= i < |es| ensures es[i] == fs[i] {
      assert PrintedAll(es)[i] == PrintedAll(fs)[i];
      PrintedInjective(es[i], fs[i]);
    }
    assert es == fs;
  }

  /** Texts that are equal come from values that are equal up to key order. */
  lemma {:induction false} PrintsApart(v: Json, w: Json)
    requires Good(v) && Good(w) && Canonical(v) == Canonical(w)
    ensures Same(v, w)
    decreases v
  {
    KindShows(v);
    KindShows(w);
    match v
    case Str(s) =>
      assert Quote(s) + [] == Quote(s) && Quote(w.s) + [] == Quote(w.s);
      QuoteInjective(s, w.s, [], []);
    case Arr(items) =>
      ArrInjective(items, w.items);
      forall i | 0 <= i < |items| ensures Same(items[i], w.items[i]) {
        assert Texts(items)[i] == Texts(w.items)[i];
        PrintsApart(items[i], w.items[i]);
      }
    case Obj(members) =>
      ObjInjective(members, w.members);
      forall i | 0 <= i < |members| ensures Matched(members[i], w.members) {
        assert Entries(members)[i] in Entries(members);
        var j :| 0 <= j < |w.members| && Entries(w.members)[j] == Entries(members)[i];
        PrintsApart(members[i].value, w.members[j].value);
      }
    case _ =>
  }

  /** Values that are equal up to key order print the same. */
  lemma {:induction false} PrintsAlike(v: Json, w: Json)
    requires Good(v) && Good(w) && Same(v, w)
    ensures Canonical(v) == Canonical(w)
    decreases v
  {
    match v
    case Arr(items) =>
      forall i | 0 <= i < |items| ensures Texts(items)[i] == Texts(w.items)[i] {
        PrintsAlike(items[i], w.items[i]);
      }
      assert Texts(items) == Texts(w.items);
      CanonicalArr(items);
      CanonicalArr(w.items);
    case Obj(members) =>
      forall i | 0 <= i < |members| ensures Entries(members)[i] in Entries(w.members) {
        assert Matched(members[i], w.members);
        var j :| 0 <= j < |w.members| && members[i].key == w.members[j].key && Same(members[i].value, w.members[j].value);
        PrintsAlike(members[i].value, w.members[j].value);
        assert Entries(w.members)[j] == Entries(members)[i];
      }
      SameSorting(members, w.members);
      CanonicalObj(members);
      CanonicalObj(w.members);
    case _ =>
  }

  lemma SameSorting(a: seq<Member>, b: seq<Member>)
    requires Good(Obj(a)) && Good(Obj(b)) && |a| == |b|
    requires forall i :: 0 <= i < |a| ==> Entries(a)[i] in Entries(b)
    ensures SortByKey(Entries(a)) == SortByKey(Entries(b))
  {
    var es, fs := Entries(a), Entries(b);
    SortHolds(es);
    SortHolds(fs);
    assert DistinctKeys(es) && DistinctKeys(fs);
    SortSorts(es);
    SortSorts(fs);
    OneSorting(SortByKey(es), SortByKey(fs));
  }

  /** The canonical text identifies a value exactly up to the order of object keys. */
  lemma CanonicalIffSame(v: Json, w: Json)
    requires Good(v) && Good(w)
    ensures Canonical(v) == Canonical(w) <==> Same(v, w)
  {
    if Same(v, w) {
      PrintsAlike(v, w);
    }
    if Canonical(v) == Canonical(w) {
      PrintsApart(v, w);
    }
  }
}
