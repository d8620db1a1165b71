/** The table of locked dependencies as text, and that it reads back as the
    table: the writing of the rows that were kept loses nothing. */
module LockTable {
  import opened Words
  import opened Json
  import opened Canonical
  import opened Reader
  import opened Lockfile

  // ---- strings ------------------------------------------------------------

  /** Quote, backslash and control characters; the rest stands for itself. */
  function LockEscape(c: char): (e: string)
    ensures e != ""
  {
    if c == '"' then "\\\""
    else if c == '\\' then "\\\\"
    else if c as int < 0x20 then "\\u00" + [HexDigit(c as int / 16), HexDigit(c as int % 16)]
    else [c]
  }

  function LockEscapes(s: string): string {
    if s == "" then "" else LockEscape(s[0]) + LockEscapes(s[1..])
  }

  function Quoted(s: string): string {
    "\"" + LockEscapes(s) + "\""
  }

  method JsonStr(s: string) returns (out: string)
    ensures out == Quoted(s)
  {
    out := "\"";
    var i := 0;
    while i < |s|
      invariant i <= |s| && out + LockEscapes(s[i..]) == "\"" + LockEscapes(s)
    {
      assert s[i..][0] == s[i] && s[i..][1..] == s[i + 1..];
      Associates(out, LockEscape(s[i]), LockEscapes(s[i + 1..]));
      out := out + LockEscape(s[i]);
      i := i + 1;
    }
    assert s[i..] == "";
    out := out + "\"";
  }

  lemma ReadLockEscape(c: char, rest: string)
    ensures ReadString(LockEscape(c) + rest) == Prepend(c, ReadString(rest))
  {
    var e := LockEscape(c);
    if c == '"' || c == '\\' {
      assert Escape(c) == e;
      ReadShortEscape(c, rest);
      EscapedStep(e, c, rest);
    } else if c as int < 0x20 {
      ReadHexEscape(c as int, rest);
      assert (c as int) as char == c;
      EscapedStep(e, c, rest);
    } else {
      assert (e + rest)[1..] == rest;
    }
  }

  lemma {:induction false} ReadLockEscapes(s: string, rest: string)
    ensures ReadString(LockEscapes(s) + ("\"" + rest)) == Some((s, rest))
  {
    var t := "\"" + rest;
    if s == "" {
      assert LockEscapes(s) + t == t && t[1..] == rest;
    } else {
      ReadLockEscape(s[0], LockEscapes(s[1..]) + t);
      ReadLockEscapes(s[1..], rest);
      Associates(LockEscape(s[0]), LockEscapes(s[1..]), t);
      assert [s[0]] + s[1..] == s;
    }
  }

  /** An escaped string is recovered by unescaping, whatever follows it. */
  lemma ReadQuotedString(s: string, rest: string)
    ensures (Quoted(s) + rest)[0] == '"'
    ensures ReadString((Quoted(s) + rest)[1..]) == Some((s, rest))
  {
    ReadLockEscapes(s, rest);
    assert (Quoted(s) + rest)[1..] == LockEscapes(s) + ("\"" + rest);
  }

  lemma ReadQuoted(s: string, rest: string)
    ensures ReadValue(Quoted(s) + rest) == Some((Str(s), rest))
  {
    ReadQuotedString(s, rest);
  }

  // ---- members whose values are already text ------------------------------

  datatype Spelled = Spelled(key: string, text: string, value: Json)

  ghost predicate Reads(m: Spelled) {
    forall rest :: ReadValue(m.text + rest) == Some((m.value, rest))
  }

  function SpelledText(m: Spelled): string {
    Quoted(m.key) + ":" + m.text
  }

  function SpelledTexts(ms: seq<Spelled>): (r: seq<string>)
    ensures |r| == |ms| && forall i :: 0 <= i < |ms| ==> r[i] == SpelledText(ms[i])
  {
    seq(|ms|, i requires 0 <= i < |ms| => SpelledText(ms[i]))
  }

  function SpelledEntries(ms: seq<Spelled>): (r: seq<Entry<Json>>)
    ensures |r| == |ms| && forall i :: 0 <= i < |ms| ==> r[i] == Entry(ms[i].key, ms[i].value)
  {
    seq(|ms|, i requires 0 <= i < |ms| => Entry(ms[i].key, ms[i].value))
  }

  lemma ReadSpelledPair(m: Spelled, rest: string)
    requires Reads(m)
    ensures ReadPair(SpelledText(m) + rest) == Some((Entry(m.key, m.value), rest))
  {
    var after := ":" + (m.text + rest);
    TextOfPair(m, rest);
    ReadQuotedString(m.key, after);
    assert ReadValue(m.text + rest) == Some((m.value, rest));
    PairSteps(Quoted(m.key) + after, m.key, m.text + rest, m.value, rest);
  }

  lemma TextOfPair(m: Spelled, rest: string)
    ensures SpelledText(m) + rest == Quoted(m.key) + (":" + (m.text + rest))
  {
  }

  lemma {:induction false} ReadSpelledMembers(ms: seq<Spelled>, rest: string)
    requires ms != [] && forall i :: 0 <= i < |ms| ==> Reads(ms[i])
    ensures ReadMembers(Join(SpelledTexts(ms)) + ("}" + rest)) == Some((SpelledEntries(ms), rest))
    decreases |ms|
  {
    var text, e, close := SpelledText(ms[0]), Entry(ms[0].key, ms[0].value), "}" + rest;
    FirstSpelled(ms);
    if |ms| == 1 {
      ReadSpelledPair(ms[0], close);
      LastMember(text, e, rest);
    } else {
      var more := Join(SpelledTexts(ms[1..])) + close;
      ReadSpelledPair(ms[0], "," + more);
      ReadSpelledMembers(ms[1..], rest);
      NextMember(text, e, more, SpelledEntries(ms[1..]), rest);
      JoinStep(SpelledTexts(ms), close);
    }
  }

  lemma FirstSpelled(ms: seq<Spelled>)
    requires ms != []
    ensures SpelledEntries(ms) == [Entry(ms[0].key, ms[0].value)] + SpelledEntries(ms[1..])
    ensures SpelledTexts(ms)[0] == SpelledText(ms[0]) && SpelledTexts(ms)[1..] == SpelledTexts(ms[1..])
    ensures |ms| == 1 ==> SpelledEntries(ms) == [Entry(ms[0].key, ms[0].value)] && Join(SpelledTexts(ms)) == SpelledText(ms[0])
  {
  }

  function ObjectText(ms: seq<Spelled>): string {
    "{" + Join(SpelledTexts(ms)) + "}"
  }

  lemma ReadSpelledObject(ms: seq<Spelled>, rest: string)
    requires forall i :: 0 <= i < |ms| ==> Reads(ms[i])
    ensures ReadValue(ObjectText(ms) + rest) == Some((Obj(SpelledEntries(ms)), rest))
  {
    var body := Join(SpelledTexts(ms));
    assert ObjectText(ms) + rest == "{" + body + ("}" + rest);
    if ms == [] {
      EmptyObject(rest);
      assert "{" + "" + "}" + rest == "{" + body + ("}" + rest);
    } else {
      ReadSpelledMembers(ms, rest);
      OpenObject(body, SpelledEntries(ms), rest);
      BraceOpens(body, rest);
    }
  }

  lemma BraceOpens(body: string, rest: string)
    ensures ("{" + body + ("}" + rest))[0] == '{'
  {
  }

  // ---- the table ----------------------------------------------------------

  function OptionText(v: Option<string>): string {
    if v.Some? then Quoted(v.value) else "null"
  }

  function OptionJson(v: Option<string>): Json {
    if v.Some? then Str(v.value) else Null
  }

  function Fields(pkg: Package): seq<Spelled> {
    [Spelled("version", Quoted(pkg.version), Str(pkg.version)),
     Spelled("source", OptionText(pkg.source), OptionJson(pkg.source)),
     Spelled("checksum", OptionText(pkg.checksum), OptionJson(pkg.checksum))]
  }

  function PackageJson(pkg: Package): Json {
    Obj([Entry("version", Str(pkg.version)), Entry("source", OptionJson(pkg.source)), Entry("checksum", OptionJson(pkg.checksum))])
  }

  function TableMembers(table: seq<Entry<Package>>): (r: seq<Spelled>)
    ensures |r| == |table|
    ensures forall i :: 0 <= i < |table| ==> r[i] == Spelled(table[i].key, ObjectText(Fields(table[i].value)), PackageJson(table[i].value))
  {
    seq(|table|, i requires 0 <= i < |table| =>
      Spelled(table[i].key, ObjectText(Fields(table[i].value)), PackageJson(table[i].value)))
  }

  function TableText(table: seq<Entry<Package>>): string {
    ObjectText(TableMembers(table)) + "\n"
  }

  lemma OptionReads(key: string, v: Option<string>)
    ensures Reads(Spelled(key, OptionText(v), OptionJson(v)))
  {
    forall rest ensures ReadValue(OptionText(v) + rest) == Some((OptionJson(v), rest)) {
      if v.Some? { ReadQuoted(v.value, rest); } else { ReadWord("null", Null, rest); }
    }
  }

  lemma PackageReads(key: string, pkg: Package)
    ensures Reads(Spelled(key, ObjectText(Fields(pkg)), PackageJson(pkg)))
  {
    var ms := Fields(pkg);
    OptionReads("version", Some(pkg.version));
    OptionReads("source", pkg.source);
    OptionReads("checksum", pkg.checksum);
    assert SpelledEntries(ms) == PackageJson(pkg).members;
    forall rest ensures ReadValue(ObjectText(ms) + rest) == Some((PackageJson(pkg), rest)) {
      ReadSpelledObject(ms, rest);
    }
  }

  function TableJson(table: seq<Entry<Package>>): (r: seq<Entry<Json>>)
    ensures |r| == |table| && forall i :: 0 <= i < |table| ==> r[i] == Entry(table[i].key, PackageJson(table[i].value))
  {
    seq(|table|, i requires 0 <= i < |table| => Entry(table[i].key, PackageJson(table[i].value)))
  }

  /** The text is a JSON object, and reading it gives the table back. */
  lemma TableReadsBack(table: seq<Entry<Package>>)
    ensures ReadValue(TableText(table)) == Some((Obj(TableJson(table)), "\n"))
  {
    var ms := TableMembers(table);
    forall i | 0 <= i < |ms| ensures Reads(ms[i]) {
      PackageReads(table[i].key, table[i].value);
    }
    ReadSpelledObject(ms, "\n");
    assert SpelledEntries(ms) == TableJson(table);
  }

  /** `lock_dependencies_json`: scan, key, sort, drop repeats, write. */
  method LockDependenciesJson(lines: seq<string>) returns (text: string)
    ensures text == TableText(Table(Flushed(ScanLines(Scan([], None), lines))))
  {
    var packages := Packages(lines);
    var members := TableMembers(Table(packages));
    text := WriteTable(members);
  }

  method WriteTable(members: seq<Spelled>) returns (text: string)
    ensures text == ObjectText(members) + "\n"
  {
    ghost var parts := SpelledTexts(members);
    text := "{";
    var i := 0;
    assert parts[..0] == [];
    while i < |members|
      invariant i <= |members|
      invariant text == "{" + Join(parts[..i])
    {
      Extend("{", parts, i);
      if i > 0 { text := text + ","; }
      text := AppendRow(text, members[i]);
      i := i + 1;
    }
    assert parts[..|parts|] == parts;
    text := text + "}\n";
    Closes("{" + Join(parts));
  }

  lemma Closes(open: string)
    ensures open + "}\n" == open + "}" + "\n"
  {
  }

  method AppendRow(before: string, m: Spelled) returns (text: string)
    ensures text == before + SpelledText(m)
  {
    var key := JsonStr(m.key);
    text := before + key;
    text := text + ":";
    text := text + m.text;
  }
}
