/** The canonical writer: one text per document, whatever order its keys came
    in and however its numbers were typed. */
module Canonical {
  import opened Words
  import opened Decimals
  import opened Json

  // ---- refusals -----------------------------------------------------------

  datatype CanonicalError =
    | BadNumber(path: seq<Step>, refusal: NumberRefusal)
    | NonAsciiKey(path: seq<Step>, key: string)

  predicate IsAscii(s: string) {
    forall i :: 0 <= i < |s| ==> s[i] as int < 128
  }

  /** The writer takes a document exactly when it takes every number and every
      key in it. */
  ghost predicate Accepted(v: Json) {
    match v
    case Num(n) => CanonicalNumber(n).Success?
    case Arr(items) => forall i :: 0 <= i < |items| ==> Accepted(items[i])
    case Obj(ms) => forall i :: 0 <= i < |ms| ==> IsAscii(ms[i].key) && Accepted(ms[i].value)
    case _ => true
  }

  /** An error that tells the truth: following its path from `v` really leads to
      the value it complains about. */
  ghost predicate Blames(v: Json, e: CanonicalError) {
    var found := Follow(v, e.path);
    found.Some? &&
    match e
    case BadNumber(_, refusal) => found.value.Num? && CanonicalNumber(found.value.n) == Failure(refusal)
    case NonAsciiKey(_, key) =>
      found.value.Obj? && key in Keys(found.value.members) && !IsAscii(key)
  }

  lemma {:induction false} BlameIsRefusal(v: Json, e: CanonicalError)
    requires Blames(v, e)
    ensures !Accepted(v)
    decreases |e.path|
  {
    if e.path == [] {
      if e.NonAsciiKey? {
        var i :| 0 <= i < |v.members| && v.members[i].key == e.key;
      }
    } else {
      var inner := e.(path := e.path[1..]);
      match v
      case Arr(items) => BlameIsRefusal(items[e.path[0].i], inner);
      case Obj(ms) =>
        var k := e.path[0].key;
        var i :| 0 <= i < |ms| && ms[i].key == k && ms[i].value == Lookup(ms, k).value;
        BlameIsRefusal(ms[i].value, inner);
    }
  }

  // ---- the text -----------------------------------------------------------

  function HexDigit(d: nat): char
    requires d < 16
  {
    if d < 10 then ('0' as int + d) as char else ('a' as int + d - 10) as char
  }

  /** One character of a string, escaped as section 7 of RFC 8259 allows and
      `JSON.stringify` does. */
  function Escape(c: char): (s: string)
    ensures |s| > 0
  {
    if c == '"' then "\\\""
    else if c == '\\' then "\\\\"
    else if c as int == 8 then "\\b"
    else if c as int == 12 then "\\f"
    else if c == '\n' then "\\n"
    else if c == '\r' then "\\r"
    else if c == '\t' then "\\t"
    else if c as int < 0x20 then "\\u00" + [HexDigit(c as int / 16), HexDigit(c as int % 16)]
    else [c]
  }

  function EscapeAll(s: string): string {
    if s == [] then "" else Escape(s[0]) + EscapeAll(s[1..])
  }

  function StringText(s: string): string {
    "\"" + EscapeAll(s) + "\""
  }

  function Join(parts: seq<string>): string {
    if parts == [] then ""
    else if |parts| == 1 then parts[0]
    else parts[0] + "," + Join(parts[1..])
  }

  function PairText(e: Entry<string>): string {
    StringText(e.key) + ":" + e.value
  }

  function PairTexts(es: seq<Entry<string>>): (r: seq<string>)
    ensures |r| == |es|
    ensures forall i :: 0 <= i < |es| ==> r[i] == PairText(es[i])
  {
    seq(|es|, i requires 0 <= i < |es| => PairText(es[i]))
  }

  /** The canonical text. A non-finite number never gets this far. */
  function Text(v: Json): string
    decreases v, 1
  {
    match v
    case Null => "null"
    case Bool(b) => if b then "true" else "false"
    case Num(n) => if IsFinite(n) then NumberText(n) else "NaN"
    case Str(s) => StringText(s)
    case Arr(items) => "[" + Join(ItemTexts(items)) + "]"
    case Obj(ms) => "{" + Join(PairTexts(SortByKey(MemberTexts(ms)))) + "}"
  }

  function ItemTexts(items: seq<Json>): (r: seq<string>)
    ensures |r| == |items|
    ensures forall i :: 0 <= i < |items| ==> r[i] == Text(items[i])
    decreases items, 0
  {
    if items == [] then [] else [Text(items[0])] + ItemTexts(items[1..])
  }

  function MemberTexts(ms: seq<Entry<Json>>): (r: seq<Entry<string>>)
    ensures |r| == |ms|
    ensures forall i :: 0 <= i < |ms| ==> r[i] == Entry(ms[i].key, Text(ms[i].value))
    decreases ms, 0
  {
    if ms == [] then [] else [Entry(ms[0].key, Text(ms[0].value))] + MemberTexts(ms[1..])
  }

  lemma TextsAreMapped(ms: seq<Entry<Json>>)
    ensures MemberTexts(ms) == MapValues(Text, ms)
  {
  }

  lemma {:induction false} JoinGrows(parts: seq<string>, i: nat)
    requires i < |parts|
    ensures Join(parts[..i + 1]) == Join(parts[..i]) + (if i > 0 then "," else "") + parts[i]
  {
    var longer := parts[..i + 1];
    if i > 0 {
      assert longer[1..] == parts[1..][..i];
      assert parts[..i][1..] == parts[1..][..i - 1];
      JoinGrows(parts[1..], i - 1);
      if i > 1 { assert parts[..i] != []; }
    }
  }

  lemma Extend(start: string, parts: seq<string>, i: nat)
    requires i < |parts|
    ensures (if i > 0 then start + Join(parts[..i]) + "," else start + Join(parts[..i])) + parts[i]
         == start + Join(parts[..i + 1])
  {
    JoinGrows(parts, i);
  }
}
