/**
 * A reader of JSON texts without white space (RFC 8259), and what the canonical printer
 * prints read with it (src/services/execution.service.js).
 */
module JsonReader {
  import opened Options
  import opened JsonText
  import opened CanonicalJson
  import Lexicographic

  /** What was read, and the rest of the text. */
  datatype Read<A> = Read(what: A, rest: Text)

  predicate Begins(t: Text, u: Unit) {
    t != [] && t[0] == u
  }

  /** How many units of a number the text begins with. */
  function NumberUnits(t: Text): (n: nat)
    ensures n <= |t|
  {
    if t == [] || !(t[0] in {0x2B, 0x2D, 0x2E, 0x65} || 0x30 <= t[0] <= 0x39) then 0 else 1 + NumberUnits(t[1..])
  }

  /** A word that stands for a value. */
  function ReadWord(t: Text, word: Text, v: Json): (r: Option<Read<Json>>)
    requires word != []
    ensures r.Some? ==> |r.value.rest| < |t|
  {
    if |word| <= |t| && t[..|word|] == word then Some(Read(v, t[|word|..])) else None
  }

  /** A string in quotes. */
  function ReadString(t: Text): (r: Option<Read<Text>>)
    ensures r.Some? ==> |r.value.rest| < |t|
  {
    if t == [] || t[0] != 0x22 then None
    else
      var n := StringLength(t[1..]);
      if n == 0 || t[n] != 0x22 then None else Some(Read(Unescape(t[1..n]), t[n + 1..]))
  }

  /** A value: null, true, false, a string, an array, an object or a number. */
  function ReadValue(t: Text): (r: Option<Read<Json>>)
    ensures r.Some? ==> |r.value.rest| < |t|
    decreases |t|, 1
  {
    if Begins(t, 0x6E) then ReadWord(t, [0x6E, 0x75, 0x6C, 0x6C], Null)
    else if Begins(t, 0x74) then ReadWord(t, [0x74, 0x72, 0x75, 0x65], Bool(true))
    else if Begins(t, 0x66) then ReadWord(t, [0x66, 0x61, 0x6C, 0x73, 0x65], Bool(false))
    else if Begins(t, 0x22) then
      match ReadString(t)
      case None => None
      case Some(s) => Some(Read(Str(s.what), s.rest))
    else if Begins(t, 0x5B) then ReadArray(t)
    else if Begins(t, 0x7B) then ReadObject(t)
    else
      var n := NumberUnits(t);
      if n == 0 then None else Some(Read(Num(t[..n]), t[n..]))
  }

  function ReadArray(t: Text): (r: Option<Read<Json>>)
    requires t != []
    ensures r.Some? ==> |r.value.rest| < |t|
    decreases |t|, 0
  {
    if Begins(t[1..], 0x5D) then Some(Read(Arr([]), t[2..]))
    else
      match ReadItems(t[1..])
      case None => None
      case Some(items) => Some(Read(Arr(items.what), items.rest))
  }

  function ReadObject(t: Text): (r: Option<Read<Json>>)
    requires t != []
    ensures r.Some? ==> |r.value.rest| < |t|
    decreases |t|, 0
  {
    if Begins(t[1..], 0x7D) then Some(Read(Obj([]), t[2..]))
    else
      match ReadMembers(t[1..])
      case None => None
      case Some(members) => Some(Read(Obj(members.what), members.rest))
  }

  /** Values with commas between them, up to a closing bracket. */
  function ReadItems(t: Text): (r: Option<Read<seq<Json>>>)
    ensures r.Some? ==> |r.value.rest| < |t|
    decreases |t|, 2
  {
    match ReadValue(t)
    case None => None
    case Some(v) =>
      if Begins(v.rest, 0x5D) then Some(Read([v.what], v.rest[1..]))
      else if Begins(v.rest, 0x2C) then
        match ReadItems(v.rest[1..])
        case None => None
        case Some(more) => Some(Read([v.what] + more.what, more.rest))
      else None
  }

  /** Keys, colons and values with commas between them, up to a closing brace. */
  function ReadMembers(t: Text): (r: Option<Read<seq<Member>>>)
    ensures r.Some? ==> |r.value.rest| < |t|
    decreases |t|, 2
  {
    match ReadString(t)
    case None => None
    case Some(key) =>
      if !Begins(key.rest, 0x3A) then None
      else
        match ReadValue(key.rest[1..])
        case None => None
        case Some(v) =>
          if Begins(v.rest, 0x7D) then Some(Read([Member(key.what, v.what)], v.rest[1..]))
          else if Begins(v.rest, 0x2C) then
            match ReadMembers(v.rest[1..])
            case None => None
            case Some(more) => Some(Read([Member(key.what, v.what)] + more.what, more.rest))
          else None
  }

  /** At every depth the keys stand in ascending order of their code units. */
  ghost predicate Ascending(v: Json) {
    match v
    case Arr(items) => forall i :: 0 <= i < |items| ==> Ascending(items[i])
    case Obj(members) =>
      && (forall i, j :: 0 <= i < j < |members| ==> Lexicographic.Less(members[i].key, members[j].key))
      && (forall i :: 0 <= i < |members| ==> Ascending(members[i].value))
    case _ => true
  }

  // ---------------------------------------------------------------- reading what was printed

  /** Whatever separator or end follows, the text is read as this value. */
  ghost predicate ReadsAs(t: Text, v: Json) {
    forall rest: Text :: Ends(rest) ==> ReadsBefore(t, rest, v)
  }

  predicate ReadsBefore(t: Text, rest: Text, v: Json) {
    ReadValue(t + rest) == Some(Read(v, rest))
  }

  lemma ReadsQuote(s: Text, rest: Text)
    ensures ReadString(Quote(s) + rest) == Some(Read(s, rest))
  {
    var t := Quote(s) + rest;
    assert t[1..] == Escape(s) + ([QUOTE] + rest);
    QuoteLength(s, rest);
    UnescapeEscape(s);
    var n := |Escape(s)| + 1;
    assert t[1..n] == Escape(s) && t[n] == QUOTE && t[n + 1..] == rest;
  }

  lemma {:induction false} ReadsNumber(p: Text, rest: Text)
    requires (forall i :: 0 <= i < |p| ==> IsNumberUnit(p[i])) && Ends(rest)
    ensures NumberUnits(p + rest) == |p|
  {
    if p == [] {
      assert p + rest == rest;
    } else {
      assert (p + rest)[1..] == p[1..] + rest;
      ReadsNumber(p[1..], rest);
    }
  }

  /** A joined list of texts followed by a closing unit: the first text, and what follows it. */
  lemma ListStarts(ts: seq<Text>, close: Unit, rest: Text)
    requires ts != [] && close in {0x5D, 0x7D}
    ensures var after := if |ts| == 1 then [close] + rest else [COMMA] + (Join(ts[1..]) + ([close] + rest));
      Join(ts) + ([close] + rest) == ts[0] + after && Ends(after)
  {
    if |ts| > 1 {
      Assoc(ts[0], [COMMA] + Join(ts[1..]), [close] + rest);
      Assoc([COMMA], Join(ts[1..]), [close] + rest);
    }
  }

  lemma AfterUnit(u: Unit, t: Text)
    ensures ([u] + t)[1..] == t && forall x: Unit :: Begins([u] + t, x) <==> x == u
  {
  }

  lemma LastItem(t: Text, v: Json, rest: Text)
    requires ReadValue(t) == Some(Read(v, [0x5D] + rest))
    ensures ReadItems(t) == Some(Read([v], rest))
  {
    AfterUnit(0x5D, rest);
    hide ReadValue;
  }

  lemma MoreItems(t: Text, v: Json, more: Text, vs: seq<Json>, rest: Text)
    requires ReadValue(t) == Some(Read(v, [COMMA] + more)) && ReadItems(more) == Some(Read(vs, rest))
    ensures ReadItems(t) == Some(Read([v] + vs, rest))
  {
    AfterUnit(COMMA, more);
    hide ReadValue;
  }

  lemma {:induction false} ReadsList(ts: seq<Text>, vs: seq<Json>, rest: Text)
    requires ts != [] && |ts| == |vs| && forall i :: 0 <= i < |ts| ==> ReadsAs(ts[i], vs[i])
    ensures ReadItems(Join(ts) + ([0x5D] + rest)) == Some(Read(vs, rest))
  {
    hide Join, Begins, ReadValue, ReadItems, Ends;
    ListStarts(ts, 0x5D, rest);
    var after: Text := if |ts| == 1 then [0x5D] + rest else [COMMA] + (Join(ts[1..]) + ([0x5D] + rest));
    assert ReadsBefore(ts[0], after, vs[0]);
    if |ts| == 1 {
      LastItem(ts[0] + after, vs[0], rest);
      assert vs == [vs[0]];
    } else {
      ReadsList(ts[1..], vs[1..], rest);
      MoreItems(ts[0] + after, vs[0], Join(ts[1..]) + ([0x5D] + rest), vs[1..], rest);
      assert vs == [vs[0]] + vs[1..];
    }
  }

  /** The properties that printed entries are read as. */
  function Properties(es: seq<Entry>, vs: seq<Json>): (r: seq<Member>)
    requires |es| == |vs|
    ensures |r| == |es| && forall i :: 0 <= i < |es| ==> r[i] == Member(es[i].key, vs[i])
  {
    seq(|es|, i requires 0 <= i < |es| => Member(es[i].key, vs[i]))
  }

  lemma PropertiesSplit(es: seq<Entry>, vs: seq<Json>)
    requires |es| == |vs| && es != []
    ensures Properties(es, vs) == [Member(es[0].key, vs[0])] + Properties(es[1..], vs[1..])
  {
  }

  lemma LastMember(t: Text, key: Text, value: Text, v: Json, rest: Text)
    requires ReadString(t) == Some(Read(key, [0x3A] + value)) && ReadValue(value) == Some(Read(v, [0x7D] + rest))
    ensures ReadMembers(t) == Some(Read([Member(key, v)], rest))
  {
    AfterUnit(0x3A, value);
    AfterUnit(0x7D, rest);
    hide ReadValue, ReadString;
  }

  lemma MoreMembers(t: Text, key: Text, value: Text, v: Json, more: Text, ms: seq<Member>, rest: Text)
    requires ReadString(t) == Some(Read(key, [0x3A] + value)) && ReadValue(value) == Some(Read(v, [COMMA] + more))
    requires ReadMembers(more) == Some(Read(ms, rest))
    ensures ReadMembers(t) == Some(Read([Member(key, v)] + ms, rest))
  {
    AfterUnit(0x3A, value);
    AfterUnit(COMMA, more);
    hide ReadValue, ReadString;
  }

  lemma {:induction false} ReadsEntries(es: seq<Entry>, vs: seq<Json>, rest: Text)
    requires es != [] && |es| == |vs| && forall i :: 0 <= i < |es| ==> ReadsAs(es[i].text, vs[i])
    ensures ReadMembers(Join(PrintedAll(es)) + ([0x7D] + rest)) == Some(Read(Properties(es, vs), rest))
  {
    hide Join, Begins, ReadValue, ReadString, ReadMembers, Quote, Printed;
    var ts, e, v := PrintedAll(es), es[0], vs[0];
    ListStarts(ts, 0x7D, rest);
    var after: Text := if |ts| == 1 then [0x7D] + rest else [COMMA] + (Join(ts[1..]) + ([0x7D] + rest));
    EntryStarts(e, after);
    ReadsQuote(e.key, [0x3A] + (e.text + after));
    assert ReadsBefore(e.text, after, v);
    PropertiesSplit(es, vs);
    if |ts| == 1 {
      LastMember(ts[0] + after, e.key, e.text + after, v, rest);
      assert Properties(es[1..], vs[1..]) == [] && Properties(es, vs) == [Member(e.key, v)];
    } else {
      assert ts[1..] == PrintedAll(es[1..]);
      ReadsEntries(es[1..], vs[1..], rest);
      MoreMembers(ts[0] + after, e.key, e.text + after, v, Join(ts[1..]) + ([0x7D] + rest), Properties(es[1..], vs[1..]), rest);
    }
  }

  lemma EntryStarts(e: Entry, after: Text)
    ensures Printed(e) + after == Quote(e.key) + ([0x3A] + (e.text + after))
  {
    Assoc(Quote(e.key), [0x3A] + e.text, after);
    Assoc([0x3A], e.text, after);
  }

  // ---------------------------------------------------------------- the theorem

  /** What was read is the value printed, up to key order, and its keys ascend. */
  ghost predicate Faithful(v: Json, w: Json) {
    Same(v, w) && Ascending(w) && ReadsAs(Canonical(v), w)
  }

  lemma ReadsWord(word: Text, rest: Text, v: Json)
    requires word != []
    ensures ReadWord(word + rest, word, v) == Some(Read(v, rest))
  {
    assert (word + rest)[..|word|] == word && (word + rest)[|word|..] == rest;
  }

  lemma NullReads(rest: Text)
    ensures ReadsBefore(Canonical(Null), rest, Null)
  {
    ReadsWord([0x6E, 0x75, 0x6C, 0x6C], rest, Null);
    hide ReadWord;
    assert Canonical(Null) == [0x6E, 0x75, 0x6C, 0x6C];
  }

  lemma BoolReads(b: bool, rest: Text)
    ensures ReadsBefore(Canonical(Bool(b)), rest, Bool(b))
  {
    ReadsWord([0x74, 0x72, 0x75, 0x65], rest, Bool(true));
    ReadsWord([0x66, 0x61, 0x6C, 0x73, 0x65], rest, Bool(false));
    hide ReadWord;
    assert Canonical(Bool(b)) == if b then [0x74, 0x72, 0x75, 0x65] else [0x66, 0x61, 0x6C, 0x73, 0x65];
  }

  lemma StringReads(s: Text, rest: Text)
    ensures ReadsBefore(Canonical(Str(s)), rest, Str(s))
  {
    ReadsQuote(s, rest);
    hide ReadString;
    assert Canonical(Str(s)) == Quote(s) && Begins(Quote(s) + rest, 0x22);
  }

  lemma NumberReads(text: Text, rest: Text)
    requires Good(Num(text)) && Ends(rest)
    ensures ReadsBefore(Canonical(Num(text)), rest, Num(text))
  {
    ReadsNumber(text, rest);
    hide NumberUnits;
    var t := text + rest;
    assert IsNumberUnit(t[0]) && t[..|text|] == text && t[|text|..] == rest;
  }

  lemma PlainReads(v: Json)
    requires Good(v) && (v.Null? || v.Bool? || v.Num? || v.Str?)
    ensures Faithful(v, v)
  {
    hide ReadsBefore, Canonical;
    forall rest: Text | Ends(rest) ensures ReadsBefore(Canonical(v), rest, v) {
      match v
      case Null => NullReads(rest);
      case Bool(b) => BoolReads(b, rest);
      case Num(text) => NumberReads(text, rest);
      case Str(s) => StringReads(s, rest);
    }
  }

  /** The elements, one by one. */
  lemma {:induction false} ItemsRead(items: seq<Json>, n: nat) returns (ws: seq<Json>)
    requires n <= |items| && forall i :: 0 <= i < |items| ==> Good(items[i])
    ensures |ws| == n && forall i :: 0 <= i < n ==> Faithful(items[i], ws[i])
    decreases items, n
  {
    if n == 0 {
      ws := [];
    } else {
      hide Faithful;
      var before := ItemsRead(items, n - 1);
      var w := ReadsBack(items[n - 1]);
      ws := before + [w];
    }
  }

  lemma {:induction false} ReadsBack(v: Json) returns (w: Json)
    requires Good(v)
    ensures Faithful(v, w)
    decreases v
  {
    match v
    case Arr(items) =>
      var ws := ItemsRead(items, |items|);
      w := Arr(ws);
      ArrayReads(items, ws);
    case Obj(members) =>
      var ws := ValuesRead(members, |members|);
      w := ObjectReads(members, ws);
    case _ =>
      w := v;
      PlainReads(v);
  }

  /** The values of the properties, one by one. */
  lemma {:induction false} ValuesRead(members: seq<Member>, n: nat) returns (ws: seq<Json>)
    requires n <= |members| && forall i :: 0 <= i < |members| ==> Good(members[i].value)
    ensures |ws| == n && forall i :: 0 <= i < n ==> Faithful(members[i].value, ws[i])
    decreases members, n
  {
    if n == 0 {
      ws := [];
    } else {
      hide Faithful;
      var before := ValuesRead(members, n - 1);
      var w := ReadsBack(members[n - 1].value);
      ws := before + [w];
    }
  }

  lemma Opened(inside: Text)
    ensures ReadValue([0x5B] + inside) == ReadArray([0x5B] + inside)
    ensures ReadValue([0x7B] + inside) == ReadObject([0x7B] + inside)
  {
    AfterUnit(0x5B, inside);
    AfterUnit(0x7B, inside);
    hide ReadArray, ReadObject, ReadString, ReadWord, NumberUnits, Begins;
  }

  /** A bracket, then a list that is not empty: the inside is read by itself. */
  lemma OpenItems(inside: Text, vs: seq<Json>, rest: Text)
    requires !Begins(inside, 0x5D) && ReadItems(inside) == Some(Read(vs, rest))
    ensures ReadValue([0x5B] + inside) == Some(Read(Arr(vs), rest))
  {
    hide ReadValue, ReadItems;
    Opened(inside);
    AfterUnit(0x5B, inside);
  }

  /** And so with a brace. */
  lemma OpenMembers(inside: Text, ms: seq<Member>, rest: Text)
    requires !Begins(inside, 0x7D) && ReadMembers(inside) == Some(Read(ms, rest))
    ensures ReadValue([0x7B] + inside) == Some(Read(Obj(ms), rest))
  {
    hide ReadValue, ReadMembers;
    Opened(inside);
    AfterUnit(0x7B, inside);
  }

  lemma ArrayOpens(ts: seq<Text>, vs: seq<Json>, rest: Text)
    requires ts != [] && |ts| == |vs| && forall i :: 0 <= i < |ts| ==> ReadsAs(ts[i], vs[i]) && StandsAlone(ts[i])
    ensures ReadValue([0x5B] + (Join(ts) + ([0x5D] + rest))) == Some(Read(Arr(vs), rest))
  {
    hide ReadItems, ReadValue, Join, Begins, ReadsAs, StandsAlone;
    ReadsList(ts, vs, rest);
    FirstStands(ts, 0x5D, rest);
    OpenItems(Join(ts) + ([0x5D] + rest), vs, rest);
  }

  lemma FirstStands(ts: seq<Text>, close: Unit, rest: Text)
    requires ts != [] && StandsAlone(ts[0]) && close in {0x5D, 0x7D}
    ensures !Begins(Join(ts) + ([close] + rest), close)
  {
    ListStarts(ts, close, rest);
    hide Passes;
  }

  lemma EmptyReads(rest: Text)
    ensures ReadsBefore(Canonical(Arr([])), rest, Arr([])) && ReadsBefore(Canonical(Obj([])), rest, Obj([]))
  {
    CanonicalArr([]);
    CanonicalObj([]);
    hide Canonical;
    assert Canonical(Arr([])) + rest == [0x5B] + ([0x5D] + rest);
    assert Canonical(Obj([])) + rest == [0x7B] + ([0x7D] + rest);
    assert ([0x5B] + ([0x5D] + rest))[2..] == rest && ([0x7B] + ([0x7D] + rest))[2..] == rest;
    Opened([0x5D] + rest);
    Opened([0x7D] + rest);
    AfterUnit(0x5B, [0x5D] + rest);
    AfterUnit(0x7B, [0x7D] + rest);
    hide ReadValue;
  }

  /** What surrounds the inside of a bracketed text. */
  lemma Surrounded(open: Unit, t: Text, close: Unit, rest: Text)
    ensures ([open] + (t + [close])) + rest == [open] + (t + ([close] + rest))
  {
  }

  lemma Brackets()
    ensures Ascii("[") == [0x5B] && Ascii("]") == [0x5D] && Ascii("{") == [0x7B] && Ascii("}") == [0x7D]
  {
  }

  lemma ArrayBefore(items: seq<Json>, ws: seq<Json>, rest: Text)
    requires items != [] && |ws| == |items|
    requires forall i :: 0 <= i < |items| ==> ReadsAs(Texts(items)[i], ws[i]) && StandsAlone(Texts(items)[i])
    ensures ReadsBefore(Canonical(Arr(items)), rest, Arr(ws))
  {
    CanonicalArr(items);
    hide Canonical, ReadValue, StandsAlone, ReadsAs, Join, Texts;
    ArrayOpens(Texts(items), ws, rest);
    Brackets();
    Surrounded(0x5B, Join(Texts(items)), 0x5D, rest);
  }

  lemma ArrayReads(items: seq<Json>, ws: seq<Json>)
    requires Good(Arr(items)) && |ws| == |items| && forall i :: 0 <= i < |items| ==> Faithful(items[i], ws[i])
    ensures Faithful(Arr(items), Arr(ws))
  {
    TextsStandAlone(items);
    hide Canonical, StandsAlone, ReadsAs, ReadsBefore;
    forall rest: Text | Ends(rest) ensures ReadsBefore(Canonical(Arr(items)), rest, Arr(ws)) {
      if items == [] {
        EmptyReads(rest);
      } else {
        ArrayBefore(items, ws, rest);
      }
    }
    AllBefore(Canonical(Arr(items)), Arr(ws));
  }

  lemma AllBefore(t: Text, v: Json)
    requires forall rest: Text :: Ends(rest) ==> ReadsBefore(t, rest, v)
    ensures ReadsAs(t, v)
  {
  }

  lemma ObjectOpens(es: seq<Entry>, vs: seq<Json>, rest: Text)
    requires es != [] && |es| == |vs| && StandsAlone(PrintedAll(es)[0])
    requires forall i :: 0 <= i < |es| ==> ReadsAs(es[i].text, vs[i])
    ensures ReadValue([0x7B] + (Join(PrintedAll(es)) + ([0x7D] + rest))) == Some(Read(Obj(Properties(es, vs)), rest))
  {
    hide ReadMembers, ReadValue, Join, Printed, Begins, ReadsAs, StandsAlone;
    ReadsEntries(es, vs, rest);
    FirstStands(PrintedAll(es), 0x7D, rest);
    OpenMembers(Join(PrintedAll(es)) + ([0x7D] + rest), Properties(es, vs), rest);
  }

  /** The entry is that property, printed. */
  predicate IsEntryOf(e: Entry, members: seq<Member>, i: nat) {
    i < |members| && e.key == members[i].key && e.text == Canonical(members[i].value)
  }

  /** The position of the property an entry was printed from. */
  lemma PrintedFrom(members: seq<Member>, e: Entry) returns (i: nat)
    requires e in SortByKey(Entries(members))
    ensures IsEntryOf(e, members, i)
  {
    SortHolds(Entries(members));
    i :| 0 <= i < |members| && Entries(members)[i] == e;
  }

  /** The values in the order in which their properties are printed. */
  lemma {:induction false} InPrintedOrder(members: seq<Member>, ws: seq<Json>, n: nat) returns (at: seq<nat>)
    requires |ws| == |members| && n <= |SortByKey(Entries(members))|
    ensures |at| == n
    ensures forall j :: 0 <= j < n ==> IsEntryOf(SortByKey(Entries(members))[j], members, at[j])
    decreases n
  {
    if n == 0 {
      at := [];
    } else {
      hide SortByKey, Canonical;
      var before := InPrintedOrder(members, ws, n - 1);
      var i := PrintedFrom(members, SortByKey(Entries(members))[n - 1]);
      at := before + [i];
    }
  }

  lemma ObjectReads(members: seq<Member>, ws: seq<Json>) returns (w: Json)
    requires Good(Obj(members)) && |ws| == |members|
    requires forall i :: 0 <= i < |members| ==> Faithful(members[i].value, ws[i])
    ensures Faithful(Obj(members), w)
  {
    var es := SortByKey(Entries(members));
    SortHolds(Entries(members));
    SortedStandAlone(members);
    hide SortByKey, Canonical, StandsAlone, ReadsAs;
    var at := InPrintedOrder(members, ws, |es|);
    var vs := seq(|es|, j requires 0 <= j < |es| => ws[at[j]]);
    w := Obj(Properties(es, vs));
    ObjectText(members, es, vs);
    SameProperties(members, es, vs, at, ws);
  }

  lemma ObjectBefore(members: seq<Member>, es: seq<Entry>, vs: seq<Json>, rest: Text)
    requires members != [] && es == SortByKey(Entries(members)) && |es| == |vs| == |members|
    requires forall i :: 0 <= i < |es| ==> ReadsAs(es[i].text, vs[i]) && StandsAlone(PrintedAll(es)[i])
    ensures ReadsBefore(Canonical(Obj(members)), rest, Obj(Properties(es, vs)))
  {
    CanonicalObj(members);
    hide Canonical, ReadValue, StandsAlone, ReadsAs, Join, SortByKey, Printed;
    ObjectOpens(es, vs, rest);
    Brackets();
    Surrounded(0x7B, Join(PrintedAll(es)), 0x7D, rest);
  }

  lemma ObjectText(members: seq<Member>, es: seq<Entry>, vs: seq<Json>)
    requires es == SortByKey(Entries(members)) && |es| == |vs| == |members|
    requires forall i :: 0 <= i < |es| ==> ReadsAs(es[i].text, vs[i]) && StandsAlone(PrintedAll(es)[i])
    ensures ReadsAs(Canonical(Obj(members)), Obj(Properties(es, vs)))
  {
    hide Canonical, StandsAlone, ReadsAs, SortByKey, ReadsBefore;
    forall rest: Text | Ends(rest) ensures ReadsBefore(Canonical(Obj(members)), rest, Obj(Properties(es, vs))) {
      if members == [] {
        EmptyReads(rest);
        assert Properties(es, vs) == [];
      } else {
        ObjectBefore(members, es, vs, rest);
      }
    }
    AllBefore(Canonical(Obj(members)), Obj(Properties(es, vs)));
  }

  /** Every property is among the entries, with the value that was read for it. */
  lemma SameProperties(members: seq<Member>, es: seq<Entry>, vs: seq<Json>, at: seq<nat>, ws: seq<Json>)
    requires Good(Obj(members)) && es == SortByKey(Entries(members)) && |es| == |vs| == |at| == |members| == |ws|
    requires SortedByKey(es) && forall x :: x in es <==> x in Entries(members)
    requires forall j :: 0 <= j < |es| ==> IsEntryOf(es[j], members, at[j]) && vs[j] == ws[at[j]]
    requires forall i :: 0 <= i < |members| ==> Same(members[i].value, ws[i]) && Ascending(ws[i])
    ensures Same(Obj(members), Obj(Properties(es, vs))) && Ascending(Obj(Properties(es, vs)))
  {
    hide Canonical, SortByKey, Lexicographic.Less;
    forall i | 0 <= i < |members| ensures Matched(members[i], Properties(es, vs)) {
      assert Entries(members)[i] in es;
      var j :| 0 <= j < |es| && es[j] == Entries(members)[i];
      assert at[j] == i;
      assert Properties(es, vs)[j].key == members[i].key && Same(members[i].value, Properties(es, vs)[j].value);
    }
  }

  /** The canonical text of a value is a JSON text of the same value, up to key order, whose keys ascend at every depth. */
  lemma TextReadsBack(v: Json) returns (w: Json)
    requires Good(v)
    ensures ReadValue(Canonical(v)) == Some(Read(w, [])) && Same(v, w) && Ascending(w)
  {
    w := ReadsBack(v);
    hide Canonical, ReadValue;
    assert ReadsBefore(Canonical(v), [], w) && Canonical(v) + [] == Canonical(v);
  }
}
