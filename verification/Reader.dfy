/** A reader for the canonical text. */
module Reader {
  // It undoes the writer: an accepted document comes back in its normal form,
  // keys sorted at every depth and every number as the reader classifies it.

  import opened Words
  import opened Decimals
  import opened Json
  import opened Canonical

  // ---- the grammar --------------------------------------------------------

  function HexValue(c: char): Option<nat> {
    if '0' <= c <= '9' then Some(c as int - '0' as int)
    else if 'a' <= c <= 'f' then Some(c as int - 'a' as int + 10)
    else None
  }

  /** The character after a backslash, and how much text the escape took. */
  function ReadEscape(s: string): (r: Option<(char, string)>)
    ensures r.Some? ==> |r.value.1| < |s|
  {
    if s == [] then None
    else if s[0] == '"' || s[0] == '\\' then Some((s[0], s[1..]))
    else if s[0] == 'b' then Some((8 as char, s[1..]))
    else if s[0] == 'f' then Some((12 as char, s[1..]))
    else if s[0] == 'n' then Some(('\n', s[1..]))
    else if s[0] == 'r' then Some(('\r', s[1..]))
    else if s[0] == 't' then Some(('\t', s[1..]))
    else if s[0] == 'u' && |s| >= 5 && s[1] == '0' && s[2] == '0' then
      var hi, lo := HexValue(s[3]), HexValue(s[4]);
      if hi.Some? && lo.Some? then Some(((16 * hi.value + lo.value) as char, s[5..])) else None
    else None
  }

  /** The rest of a string after its opening quote. */
  function ReadString(s: string): (r: Option<(string, string)>)
    ensures r.Some? ==> |r.value.1| < |s|
    decreases |s|
  {
    if s == [] then None
    else if s[0] == '"' then Some(("", s[1..]))
    else if s[0] == '\\' then
      var e := ReadEscape(s[1..]);
      if e.None? then None
      else
        var tail := ReadString(e.value.1);
        if tail.None? then None else Some(([e.value.0] + tail.value.0, tail.value.1))
    else if s[0] as int < 0x20 then None
    else
      var tail := ReadString(s[1..]);
      if tail.None? then None else Some(([s[0]] + tail.value.0, tail.value.1))
  }

  function Expect(s: string, word: string, v: Json): (r: Option<(Json, string)>)
    requires word != []
    ensures r.Some? ==> |r.value.1| < |s|
  {
    if word <= s then Some((v, s[|word|..])) else None
  }

  function ReadValue(s: string): (r: Option<(Json, string)>)
    ensures r.Some? ==> |r.value.1| < |s|
    decreases |s|, 0
  {
    if s == [] then None
    else if s[0] == 'n' then Expect(s, "null", Null)
    else if s[0] == 't' then Expect(s, "true", Bool(true))
    else if s[0] == 'f' then Expect(s, "false", Bool(false))
    else if s[0] == '"' then
      var t := ReadString(s[1..]);
      if t.None? then None else Some((Str(t.value.0), t.value.1))
    else if s[0] == '[' then
      if |s| > 1 && s[1] == ']' then Some((Arr([]), s[2..]))
      else
        var t := ReadItems(s[1..]);
        if t.None? then None else Some((Arr(t.value.0), t.value.1))
    else if s[0] == '{' then
      if |s| > 1 && s[1] == '}' then Some((Obj([]), s[2..]))
      else
        var t := ReadMembers(s[1..]);
        if t.None? then None else Some((Obj(t.value.0), t.value.1))
    else
      var t := ReadNumber(s);
      if t.None? then None else Some((Num(t.value.0), t.value.1))
  }

  function ReadItems(s: string): (r: Option<(seq<Json>, string)>)
    ensures r.Some? ==> |r.value.1| < |s|
    decreases |s|, 1
  {
    var head := ReadValue(s);
    if head.None? || head.value.1 == [] then None
    else
      var v, t := head.value.0, head.value.1;
      if t[0] == ']' then Some(([v], t[1..]))
      else if t[0] == ',' then
        var tail := ReadItems(t[1..]);
        if tail.None? then None else Some(([v] + tail.value.0, tail.value.1))
      else None
  }

  function ReadPair(s: string): (r: Option<(Entry<Json>, string)>)
    ensures r.Some? ==> |r.value.1| < |s|
    decreases |s|, 1
  {
    if s == [] || s[0] != '"' then None
    else
      var k := ReadString(s[1..]);
      if k.None? || k.value.1 == [] || k.value.1[0] != ':' then None
      else
        var v := ReadValue(k.value.1[1..]);
        if v.None? then None else Some((Entry(k.value.0, v.value.0), v.value.1))
  }

  function ReadMembers(s: string): (r: Option<(seq<Entry<Json>>, string)>)
    ensures r.Some? ==> |r.value.1| < |s|
    decreases |s|, 2
  {
    var head := ReadPair(s);
    if head.None? || head.value.1 == [] then None
    else
      var e, t := head.value.0, head.value.1;
      if t[0] == '}' then Some(([e], t[1..]))
      else if t[0] == ',' then
        var tail := ReadMembers(t[1..]);
        if tail.None? then None else Some(([e] + tail.value.0, tail.value.1))
      else None
  }

  /** A whole text: one value and nothing after it. */
  function Read(s: string): Option<Json> {
    var r := ReadValue(s);
    if r.Some? && r.value.1 == [] then Some(r.value.0) else None
  }

  // ---- the normal form ----------------------------------------------------

  /** Keys sorted at every depth, every number as the reader gives it back. */
  function Normal(v: Json): Json
    decreases v, 1
  {
    match v
    case Num(n) => if IsFinite(n) then Num(NormalNumber(n)) else v
    case Arr(items) => Arr(NormalItems(items))
    case Obj(ms) => Obj(SortByKey(NormalMembers(ms)))
    case _ => v
  }

  function NormalItems(items: seq<Json>): (r: seq<Json>)
    ensures |r| == |items|
    ensures forall i :: 0 <= i < |items| ==> r[i] == Normal(items[i])
    decreases items, 0
  {
    if items == [] then [] else [Normal(items[0])] + NormalItems(items[1..])
  }

  function NormalMembers(ms: seq<Entry<Json>>): (r: seq<Entry<Json>>)
    ensures |r| == |ms|
    ensures forall i :: 0 <= i < |ms| ==> r[i] == Entry(ms[i].key, Normal(ms[i].value))
    decreases ms, 0
  {
    if ms == [] then [] else [Entry(ms[0].key, Normal(ms[0].value))] + NormalMembers(ms[1..])
  }

  lemma MembersAreMapped(ms: seq<Entry<Json>>)
    ensures NormalMembers(ms) == MapValues(Normal, ms)
    ensures MemberTexts(ms) == MapValues(Text, ms)
  {
    TextsAreMapped(ms);
  }

  // ---- reading a string back ----------------------------------------------

  function Prepend(c: char, tail: Option<(string, string)>): Option<(string, string)> {
    if tail.None? then None else Some(([c] + tail.value.0, tail.value.1))
  }

  lemma ReadEscaped(c: char, rest: string)
    ensures ReadString(Escape(c) + rest) == Prepend(c, ReadString(rest))
  {
    var e := Escape(c);
    var s := e + rest;
    if |e| == 2 {
      ReadShortEscape(c, rest);
      EscapedStep(e, c, rest);
    } else if |e| == 6 {
      ReadHexEscape(c as int, rest);
      EscapedStep(e, c, rest);
    } else {
      assert s[1..] == rest;
    }
  }

  lemma EscapedStep(e: string, c: char, rest: string)
    requires e != [] && e[0] == '\\'
    requires ReadEscape(e[1..] + rest) == Some((c, rest))
    ensures ReadString(e + rest) == Prepend(c, ReadString(rest))
  {
    var s := e + rest;
    assert s[0] == '\\' && s[1..] == e[1..] + rest;
    assert ReadEscape(s[1..]) == Some((c, rest));
  }

  lemma ReadShortEscape(c: char, rest: string)
    requires |Escape(c)| == 2
    ensures Escape(c)[0] == '\\' && ReadEscape(Escape(c)[1..] + rest) == Some((c, rest))
  {
    assert (Escape(c)[1..] + rest)[1..] == rest;
  }

  lemma ReadHexEscape(n: nat, rest: string)
    requires n < 0x20
    ensures ReadEscape(("\\u00" + [HexDigit(n / 16), HexDigit(n % 16)])[1..] + rest) == Some((n as char, rest))
  {
    assert ("\\u00" + [HexDigit(n / 16), HexDigit(n % 16)])[1..] == "u00" + [HexDigit(n / 16), HexDigit(n % 16)];
    var s := "u00" + [HexDigit(n / 16), HexDigit(n % 16)] + rest;
    assert s[5..] == rest;
  }

  lemma Associates(a: string, b: string, c: string)
    ensures (a + b) + c == a + (b + c)
  {
  }

  lemma {:induction false} ReadEscapedAll(s: string, rest: string)
    ensures ReadString(EscapeAll(s) + ("\"" + rest)) == Some((s, rest))
  {
    var t := "\"" + rest;
    if s == [] {
      assert EscapeAll(s) + t == t && t[1..] == rest;
    } else {
      ReadEscaped(s[0], EscapeAll(s[1..]) + t);
      ReadEscapedAll(s[1..], rest);
      Associates(Escape(s[0]), EscapeAll(s[1..]), t);
      assert [s[0]] + s[1..] == s;
    }
  }

  /** A quoted string reads back to itself, whatever it holds and whatever
      follows it. */
  lemma ReadStringText(s: string, rest: string)
    ensures (StringText(s) + rest)[0] == '"'
    ensures ReadString((StringText(s) + rest)[1..]) == Some((s, rest))
  {
    ReadEscapedAll(s, rest);
    assert (StringText(s) + rest)[1..] == EscapeAll(s) + ("\"" + rest);
  }

  // ---- reading a document back --------------------------------------------

  /** No number in the document is NaN or an infinity. */
  ghost predicate AllFinite(v: Json) {
    match v
    case Num(n) => WellFormedNumber(n) && IsFinite(n)
    case Arr(items) => forall i :: 0 <= i < |items| ==> AllFinite(items[i])
    case Obj(ms) => forall i :: 0 <= i < |ms| ==> AllFinite(ms[i].value)
    case _ => true
  }

  lemma {:induction false} AcceptedIsFinite(v: Json)
    requires WellFormed(v) && Accepted(v)
    ensures AllFinite(v)
  {
    match v
    case Arr(items) =>
      forall i | 0 <= i < |items| ensures AllFinite(items[i]) { AcceptedIsFinite(items[i]); }
    case Obj(ms) =>
      forall i | 0 <= i < |ms| ensures AllFinite(ms[i].value) { AcceptedIsFinite(ms[i].value); }
    case _ =>
  }

  lemma NumberTextStarts(n: Number)
    requires WellFormedNumber(n) && IsFinite(n)
    ensures |NumberText(n)| > 0
    ensures NumberText(n)[0] == '-' || IsDigit(NumberText(n)[0])
  {
  }

  /** What every value's text begins with tells the reader which rule to use,
      and no value's text begins like the end of a list. */
  lemma TextStarts(v: Json)
    requires AllFinite(v)
    ensures |Text(v)| > 0 && Text(v)[0] !in "]},:"
  {
    if v.Num? { NumberTextStarts(v.n); }
  }

  lemma ReadWord(word: string, v: Json, rest: string)
    requires (v, word) == (Null, "null") || (v, word) == (Bool(true), "true") || (v, word) == (Bool(false), "false")
    ensures ReadValue(word + rest) == Some((v, rest))
  {
    assert (word + rest)[|word|..] == rest;
    assert (word + rest)[0] == word[0];
  }

  lemma ReadNumText(n: Number, rest: string)
    requires WellFormedNumber(n) && IsFinite(n)
    requires EndsNumber(rest)
    ensures ReadValue(NumberText(n) + rest) == Some((Num(NormalNumber(n)), rest))
  {
    NumberTextStarts(n);
    ReadNumberText(n, rest);
    Dispatch(NumberText(n) + rest, NormalNumber(n), rest);
  }

  lemma Dispatch(s: string, n: Number, rest: string)
    requires s != [] && (s[0] == '-' || IsDigit(s[0]))
    requires ReadNumber(s) == Some((n, rest))
    ensures ReadValue(s) == Some((Num(n), rest))
  {
    var c := s[0];
    assert c != 'n' && c != 't' && c != 'f' && c != '"' && c != '[' && c != '{';
  }

  lemma ReadStrText(t: string, rest: string)
    ensures ReadValue(StringText(t) + rest) == Some((Str(t), rest))
  {
    ReadStringText(t, rest);
  }

  lemma {:induction false} ReadText(v: Json, rest: string)
    requires AllFinite(v)
    requires EndsNumber(rest)
    ensures ReadValue(Text(v) + rest) == Some((Normal(v), rest))
    decreases v, 2
  {
    match v
    case Null => ReadWord("null", Null, rest);
    case Bool(b) => ReadWord(if b then "true" else "false", v, rest);
    case Num(n) => ReadNumText(n, rest);
    case Str(t) => ReadStrText(t, rest);
    case Arr(items) => ReadArrayText(v, items, rest);
    case Obj(ms) => ReadObjectText(v, ms, rest);
  }

  lemma ReadArrayText(v: Json, items: seq<Json>, rest: string)
    requires v == Arr(items) && AllFinite(v)
    ensures ReadValue(Text(v) + rest) == Some((Normal(v), rest))
    decreases v, 1
  {
    var body := Join(ItemTexts(items));
    assert Text(v) + rest == "[" + body + ("]" + rest);
    if items == [] {
      EmptyArray(rest);
    } else {
      TextStarts(items[0]);
      assert body[0] == Text(items[0])[0];
      ReadItemsText(v, items, rest);
      OpenArray(body, NormalItems(items), rest);
    }
  }

  lemma EmptyArray(rest: string)
    ensures ReadValue("[" + "" + ("]" + rest)) == Some((Arr([]), rest))
  {
    var s := "[" + "" + ("]" + rest);
    assert s[2..] == rest;
  }

  lemma OpenArray(body: string, items: seq<Json>, rest: string)
    requires body != "" && body[0] != ']' && ReadItems(body + ("]" + rest)) == Some((items, rest))
    ensures ReadValue("[" + body + ("]" + rest)) == Some((Arr(items), rest))
  {
    var s := "[" + body + ("]" + rest);
    assert s[1..] == body + ("]" + rest) && s[1] == body[0];
  }

  lemma {:induction false} ReadItemsText(bound: Json, items: seq<Json>, rest: string)
    requires items != []
    requires forall i :: 0 <= i < |items| ==> AllFinite(items[i]) && items[i] < bound
    ensures ReadItems(Join(ItemTexts(items)) + ("]" + rest)) == Some((NormalItems(items), rest))
    decreases bound, 0, |items|
  {
    var close := "]" + rest;
    FirstItem(items);
    if |items| == 1 {
      ReadText(items[0], close);
      LastItem(Text(items[0]), Normal(items[0]), rest);
    } else {
      var more := Join(ItemTexts(items[1..])) + close;
      ReadText(items[0], "," + more);
      ReadItemsText(bound, items[1..], rest);
      NextItem(Text(items[0]), Normal(items[0]), more, NormalItems(items[1..]), rest);
      JoinStep(ItemTexts(items), close);
    }
  }

  lemma FirstItem(items: seq<Json>)
    requires items != []
    ensures NormalItems(items) == [Normal(items[0])] + NormalItems(items[1..])
    ensures ItemTexts(items)[0] == Text(items[0]) && ItemTexts(items)[1..] == ItemTexts(items[1..])
    ensures |items| == 1 ==> NormalItems(items) == [Normal(items[0])] && Join(ItemTexts(items)) == Text(items[0])
  {
  }

  lemma LastItem(text: string, v: Json, rest: string)
    requires ReadValue(text + ("]" + rest)) == Some((v, "]" + rest))
    ensures ReadItems(text + ("]" + rest)) == Some(([v], rest))
  {
    assert ("]" + rest)[1..] == rest;
  }

  lemma NextItem(text: string, v: Json, more: string, vs: seq<Json>, rest: string)
    requires ReadValue(text + ("," + more)) == Some((v, "," + more))
    requires ReadItems(more) == Some((vs, rest))
    ensures ReadItems(text + ("," + more)) == Some(([v] + vs, rest))
  {
    assert ("," + more)[1..] == more;
  }

  lemma ReadObjectText(v: Json, ms: seq<Entry<Json>>, rest: string)
    requires v == Obj(ms) && AllFinite(v)
    ensures ReadValue(Text(v) + rest) == Some((Normal(v), rest))
    decreases v, 1
  {
    var es := SortByKey(ms);
    MembersAreMapped(ms);
    SortCommutes(Text, ms);
    SortCommutes(Normal, ms);
    SortKeepsElements(ms);
    forall i | 0 <= i < |es| ensures AllFinite(es[i].value) && es[i].value < v {
      assert es[i] in ms;
    }
    if ms == [] {
      EmptyObject(rest);
    } else {
      var body := Join(PairTexts(MapValues(Text, es)));
      ReadMembersText(v, es, rest);
      OpenObject(body, MapValues(Normal, es), rest);
      Associates("{" + body, "}", rest);
    }
  }

  lemma EmptyObject(rest: string)
    ensures ReadValue("{" + "" + "}" + rest) == Some((Obj([]), rest))
  {
    var s := "{" + "" + "}" + rest;
    assert s[2..] == rest;
  }

  lemma OpenObject(body: string, es: seq<Entry<Json>>, rest: string)
    requires ReadMembers(body + ("}" + rest)) == Some((es, rest))
    ensures ReadValue("{" + body + ("}" + rest)) == Some((Obj(es), rest))
  {
    var s := "{" + body + ("}" + rest);
    assert s[1..] == body + ("}" + rest);
  }

  lemma ReadPairText(bound: Json, e: Entry<Json>, rest: string)
    requires AllFinite(e.value) && e.value < bound
    requires EndsNumber(rest)
    ensures ReadPair(PairText(Entry(e.key, Text(e.value))) + rest) == Some((Entry(e.key, Normal(e.value)), rest))
    decreases bound, 0, 0
  {
    var after := ":" + (Text(e.value) + rest);
    PairSplits(e.key, Text(e.value), rest);
    ReadStringText(e.key, after);
    ReadText(e.value, rest);
    PairSteps(StringText(e.key) + after, e.key, Text(e.value) + rest, Normal(e.value), rest);
  }

  lemma PairSplits(key: string, text: string, rest: string)
    ensures PairText(Entry(key, text)) + rest == StringText(key) + (":" + (text + rest))
  {
  }

  lemma PairSteps(s: string, key: string, t: string, v: Json, rest: string)
    requires s != "" && s[0] == '"' && ReadString(s[1..]) == Some((key, ":" + t))
    requires ReadValue(t) == Some((v, rest))
    ensures ReadPair(s) == Some((Entry(key, v), rest))
  {
    assert (":" + t)[1..] == t;
  }

  lemma JoinStep(parts: seq<string>, close: string)
    requires |parts| > 1
    ensures Join(parts) + close == parts[0] + ("," + (Join(parts[1..]) + close))
  {
  }

  lemma {:induction false} ReadMembersText(bound: Json, es: seq<Entry<Json>>, rest: string)
    requires es != []
    requires forall i :: 0 <= i < |es| ==> AllFinite(es[i].value) && es[i].value < bound
    ensures ReadMembers(Join(PairTexts(MapValues(Text, es))) + ("}" + rest)) == Some((MapValues(Normal, es), rest))
    decreases bound, 0, |es|
  {
    var close, e := "}" + rest, es[0];
    var text, normal := PairText(Entry(e.key, Text(e.value))), Entry(e.key, Normal(e.value));
    var texts := PairTexts(MapValues(Text, es));
    FirstPair(es);
    if |es| == 1 {
      ReadPairText(bound, e, close);
      LastMember(text, normal, rest);
    } else {
      var more := Join(texts[1..]) + close;
      ReadPairText(bound, e, "," + more);
      ReadMembersText(bound, es[1..], rest);
      NextMember(text, normal, more, MapValues(Normal, es[1..]), rest);
      JoinStep(texts, close);
    }
  }

  lemma FirstPair(es: seq<Entry<Json>>)
    requires es != []
    ensures var e, texts := es[0], PairTexts(MapValues(Text, es));
      texts[0] == PairText(Entry(e.key, Text(e.value))) &&
      texts[1..] == PairTexts(MapValues(Text, es[1..])) &&
      (|es| == 1 ==> Join(texts) == texts[0])
    ensures MapValues(Normal, es) == [Entry(es[0].key, Normal(es[0].value))] + MapValues(Normal, es[1..])
    ensures |es| == 1 ==> MapValues(Normal, es) == [Entry(es[0].key, Normal(es[0].value))]
  {
  }

  lemma LastMember(text: string, e: Entry<Json>, rest: string)
    requires ReadPair(text + ("}" + rest)) == Some((e, "}" + rest))
    ensures ReadMembers(text + ("}" + rest)) == Some(([e], rest))
  {
    assert ("}" + rest)[1..] == rest;
  }

  lemma NextMember(text: string, e: Entry<Json>, more: string, es: seq<Entry<Json>>, rest: string)
    requires ReadPair(text + ("," + more)) == Some((e, "," + more))
    requires ReadMembers(more) == Some((es, rest))
    ensures ReadMembers(text + ("," + more)) == Some(([e] + es, rest))
  {
    assert ("," + more)[1..] == more;
  }

  /** The reader undoes the writer: every accepted document comes back in its
      normal form. */
  lemma ReadUndoesText(v: Json)
    requires WellFormed(v) && Accepted(v)
    ensures Read(Text(v)) == Some(Normal(v))
  {
    AcceptedIsFinite(v);
    ReadText(v, "");
    assert Text(v) + "" == Text(v);
  }
}
