/** The writer itself: it appends to one growing buffer as it walks the
    document, and stops at the first value it must refuse. */
module Writer {
  import opened Words
  import opened Decimals
  import opened Json
  import opened Canonical
  import Faithful

  class TextBuffer {
    var text: string

    constructor ()
      ensures text == ""
    {
      text := "";
    }

    method Push(s: string)
      modifies this
      ensures text == old(text) + s
    {
      text := text + s;
    }
  }

  /** The string between quotes, every character that needs it escaped. */
  method CanonicalString(s: string) returns (out: string)
    ensures out == StringText(s)
  {
    out := "\"";
    var i := 0;
    while i < |s|
      invariant i <= |s|
      invariant out + EscapeAll(s[i..]) == "\"" + EscapeAll(s)
    {
      assert s[i..][1..] == s[i + 1..];
      out := out + Escape(s[i]);
      i := i + 1;
    }
    assert out + EscapeAll(s[i..]) == out;
    out := out + "\"";
  }

  /** An object's members in ascending key order, once every key is known to be
      ASCII. */
  method SortedMembers(ms: seq<Entry<Json>>, path: seq<Step>)
      returns (r: Result<seq<Entry<Json>>, CanonicalError>)
    ensures r.Success? ==> r.value == SortByKey(ms) && forall i :: 0 <= i < |ms| ==> IsAscii(ms[i].key)
    ensures r.Failure? ==> r.error.NonAsciiKey? && r.error.path == path
    ensures r.Failure? ==> r.error.key in Keys(ms) && !IsAscii(r.error.key)
  {
    for i := 0 to |ms|
      invariant forall k :: 0 <= k < i ==> IsAscii(ms[k].key)
    {
      if !IsAscii(ms[i].key) {
        return Failure(NonAsciiKey(path, ms[i].key));
      }
    }
    return Success(SortByKey(ms));
  }

  /** An error found under `step` is an error of the parent, one step further
      from the root. */
  ghost predicate BlamesFrom(v: Json, path: seq<Step>, e: CanonicalError) {
    path <= e.path && Blames(v, e.(path := e.path[|path|..]))
  }

  lemma BlameFromIsRefusal(v: Json, path: seq<Step>, e: CanonicalError)
    requires BlamesFrom(v, path, e)
    ensures !Accepted(v)
  {
    BlameIsRefusal(v, e.(path := e.path[|path|..]));
  }

  lemma BlameRises(v: Json, step: Step, child: Json, path: seq<Step>, e: CanonicalError)
    requires Follow(v, [step]) == Some(child)
    requires BlamesFrom(child, path + [step], e)
    ensures BlamesFrom(v, path, e)
  {
    var inner := e.path[|path| + 1..];
    var outer := e.path[|path|..];
    assert outer[0] == e.path[|path|] == (path + [step])[|path|];
    assert outer == [step] + inner;
    assert outer[1..] == inner;
    FollowStep(v, step, child, inner);
  }

  lemma FollowStep(v: Json, step: Step, child: Json, inner: seq<Step>)
    requires Follow(v, [step]) == Some(child)
    ensures Follow(v, [step] + inner) == Follow(child, inner)
  {
    var p := [step] + inner;
    assert p[1..] == inner;
    assert [step][1..] == [];
    match v
    case Arr(items) => assert Follow(items[step.i], []) == Some(child);
    case Obj(ms) => assert Follow(Lookup(ms, step.key).value, []) == Some(child);
  }

  lemma ItemBlame(v: Json, items: seq<Json>, i: nat, path: seq<Step>, e: CanonicalError)
    requires v == Arr(items) && i < |items|
    requires BlamesFrom(items[i], path + [Index(i)], e)
    ensures BlamesFrom(v, path, e)
  {
    assert [Index(i)][1..] == [];
    BlameRises(v, Index(i), items[i], path, e);
  }

  lemma MemberBlame(v: Json, ms: seq<Entry<Json>>, j: nat, path: seq<Step>, e: CanonicalError)
    requires v == Obj(ms) && WellFormed(v) && j < |ms|
    requires BlamesFrom(ms[j].value, path + [Key(ms[j].key)], e)
    ensures BlamesFrom(v, path, e)
  {
    assert [Key(ms[j].key)][1..] == [];
    LookupAt(ms, j);
    BlameRises(v, Key(ms[j].key), ms[j].value, path, e);
  }

  lemma PairAssociates(start: string, e: Entry<Json>)
    ensures start + StringText(e.key) + ":" + Text(e.value) == start + MemberText(e)
  {
  }

  /** Append `value` to the buffer. Every accepted document is written in full
      and every refused one is refused, with an error that leads to a value
      which really is at fault. */
  method WriteCanonical(value: Json, path: seq<Step>, out: TextBuffer)
      returns (r: Result<(), CanonicalError>)
    requires WellFormed(value)
    modifies out
    ensures r.Success? == Accepted(value)
    ensures r.Success? ==> out.text == old(out.text) + Text(value)
    ensures r.Failure? ==> BlamesFrom(value, path, r.error)
    decreases value, 1
  {
    match value {
      case Null => out.Push("null");
      case Bool(b) => out.Push(if b then "true" else "false");
      case Num(n) =>
        CanonicalNumberText(n);
        var spelled := CanonicalNumber(n);
        if spelled.Failure? {
          return Failure(BadNumber(path, spelled.error));
        }
        out.Push(spelled.value);
      case Str(s) =>
        var t := CanonicalString(s);
        out.Push(t);
      case Arr(items) =>
        r := WriteItems(value, items, path, out);
        return;
      case Obj(ms) =>
        r := WriteMembers(value, ms, path, out);
        return;
    }
    return Success(());
  }

  method WriteItems(ghost value: Json, items: seq<Json>, path: seq<Step>, out: TextBuffer)
      returns (r: Result<(), CanonicalError>)
    requires value == Arr(items) && WellFormed(value)
    modifies out
    ensures r.Success? == Accepted(value)
    ensures r.Success? ==> out.text == old(out.text) + Text(value)
    ensures r.Failure? ==> BlamesFrom(value, path, r.error)
    decreases value, 0, 1
  {
    out.Push("[");
    ghost var start := out.text;
    var i := 0;
    r := Success(());
    assert ItemTexts(items)[..0] == [];
    while i < |items| && r.Success?
      invariant i <= |items|
      invariant r.Failure? ==> BlamesFrom(value, path, r.error)
      invariant r.Success? ==> FirstAccepted(items, i)
      invariant r.Success? ==> out.text == start + Join(ItemTexts(items)[..i])
    {
      r := WriteItem(value, items, i, path, out, start);
      i := i + 1;
    }
    if r.Failure? {
      BlameFromIsRefusal(value, path, r.error);
      return;
    }
    FirstAreAccepted(items, i);
    assert ItemTexts(items)[..i] == ItemTexts(items);
    out.Push("]");
    Brackets(old(out.text), Join(ItemTexts(items)));
  }

  ghost predicate FirstAccepted(items: seq<Json>, n: nat)
    requires n <= |items|
  {
    n == 0 || (FirstAccepted(items, n - 1) && Accepted(items[n - 1]))
  }

  lemma {:induction false} FirstAreAccepted(items: seq<Json>, n: nat)
    requires n <= |items| && FirstAccepted(items, n)
    ensures forall k :: 0 <= k < n ==> Accepted(items[k])
  {
    if n > 0 { FirstAreAccepted(items, n - 1); }
  }

  lemma Brackets(start: string, body: string)
    ensures start + "[" + body + "]" == start + ("[" + body + "]")
  {
  }

  /** One element, with its comma: a prefix of the list grows by one. */
  method WriteItem(ghost value: Json, items: seq<Json>, i: nat, path: seq<Step>, out: TextBuffer, ghost start: string)
      returns (r: Result<(), CanonicalError>)
    requires value == Arr(items) && WellFormed(value) && i < |items|
    requires out.text == start + Join(ItemTexts(items)[..i])
    modifies out
    ensures r.Success? ==> Accepted(items[i])
    ensures r.Success? ==> out.text == start + Join(ItemTexts(items)[..i + 1])
    ensures r.Failure? ==> BlamesFrom(value, path, r.error)
    decreases value, 0, 0
  {
    Extend(start, ItemTexts(items), i);
    if i > 0 { out.Push(","); }
    r := WriteCanonical(items[i], path + [Index(i)], out);
    if r.Failure? { ItemBlame(value, items, i, path, r.error); }
  }

  method WriteMembers(ghost value: Json, ms: seq<Entry<Json>>, path: seq<Step>, out: TextBuffer)
      returns (r: Result<(), CanonicalError>)
    requires value == Obj(ms) && WellFormed(value)
    modifies out
    ensures r.Success? == Accepted(value)
    ensures r.Success? ==> out.text == old(out.text) + Text(value)
    ensures r.Failure? ==> BlamesFrom(value, path, r.error)
    decreases value, 0, 2
  {
    var sorting := SortedMembers(ms, path);
    if sorting.Failure? {
      ghost var k := KeyIsHeld(ms, sorting.error.key);
      assert sorting.error.path[|path|..] == [];
      return Failure(sorting.error);
    }
    SortKeepsElements(ms);
    assert HoldsAll(ms, sorting.value);
    out.Push("{");
    r := WriteSorted(value, ms, sorting.value, path, out, MemberList(sorting.value), ValuesOf(sorting.value));
    if r.Failure? {
      BlameFromIsRefusal(value, path, r.error);
      return;
    }
    out.Push("}");
    ObjectIsWritten(ms, old(out.text));
  }

  lemma ObjectIsWritten(ms: seq<Entry<Json>>, start: string)
    requires forall k :: 0 <= k < |ms| ==> IsAscii(ms[k].key)
    requires FirstAccepted(ValuesOf(SortByKey(ms)), |ms|)
    ensures Accepted(Obj(ms))
    ensures start + "{" + Join(MemberList(SortByKey(ms))) + "}" == start + Text(Obj(ms))
  {
    ObjectText(ms);
    Braces(start, Join(MemberList(SortByKey(ms))));
    FirstAreAccepted(ValuesOf(SortByKey(ms)), |ms|);
    forall k | 0 <= k < |ms| ensures Accepted(SortByKey(ms)[k].value) {
      assert Accepted(ValuesOf(SortByKey(ms))[k]);
    }
    SortedAreAccepted(ms);
  }

  ghost function ValuesOf(es: seq<Entry<Json>>): (vs: seq<Json>)
    ensures |vs| == |es|
    ensures forall i :: 0 <= i < |es| ==> vs[i] == es[i].value
  {
    seq(|es|, i requires 0 <= i < |es| => es[i].value)
  }

  lemma Braces(start: string, body: string)
    ensures start + "{" + body + "}" == start + ("{" + body + "}")
  {
  }

  lemma SortedAreAccepted(ms: seq<Entry<Json>>)
    requires forall k :: 0 <= k < |ms| ==> Accepted(SortByKey(ms)[k].value)
    ensures forall k :: 0 <= k < |ms| ==> Accepted(ms[k].value)
  {
    var es := SortByKey(ms);
    SortKeepsElements(ms);
    forall k | 0 <= k < |ms| ensures Accepted(ms[k].value) {
      assert ms[k] in es;
      var j :| 0 <= j < |es| && es[j] == ms[k];
    }
  }

  /** What each sorted member is written as, and what its value is. */
  ghost predicate Spells(es: seq<Entry<Json>>, parts: seq<string>, values: seq<Json>) {
    |parts| == |es| && |values| == |es| &&
    (forall i {:trigger parts[i]} :: 0 <= i < |es| ==> parts[i] == MemberText(es[i])) &&
    (forall i {:trigger values[i]} :: 0 <= i < |es| ==> values[i] == es[i].value)
  }

  ghost predicate HoldsAll(ms: seq<Entry<Json>>, es: seq<Entry<Json>>) {
    forall i :: 0 <= i < |es| ==> es[i] in ms
  }

  method WriteSorted(ghost value: Json, ghost ms: seq<Entry<Json>>, es: seq<Entry<Json>>, path: seq<Step>,
                     out: TextBuffer, ghost parts: seq<string>, ghost values: seq<Json>)
      returns (r: Result<(), CanonicalError>)
    requires value == Obj(ms) && WellFormed(value) && HoldsAll(ms, es)
    requires Spells(es, parts, values)
    modifies out
    ensures r.Success? ==> FirstAccepted(values, |values|)
    ensures r.Success? ==> out.text == old(out.text) + Join(parts)
    ensures r.Failure? ==> BlamesFrom(value, path, r.error)
    decreases value, 0, 1
  {
    ghost var start := out.text;
    var i := 0;
    r := Success(());
    assert parts[..0] == [];
    while i < |es| && r.Success?
      invariant i <= |es|
      invariant r.Failure? ==> BlamesFrom(value, path, r.error)
      invariant r.Success? ==> FirstAccepted(values, i)
      invariant r.Success? ==> out.text == start + Join(parts[..i])
    {
      r := WriteMember(value, ms, es, i, path, out, start, parts, values);
      i := i + 1;
    }
    assert parts[..|parts|] == parts;
  }

  /** One member, with its comma, its key and its colon. */
  method WriteMember(ghost value: Json, ghost ms: seq<Entry<Json>>, es: seq<Entry<Json>>, i: nat, path: seq<Step>,
                     out: TextBuffer, ghost start: string, ghost parts: seq<string>, ghost values: seq<Json>)
      returns (r: Result<(), CanonicalError>)
    requires value == Obj(ms) && WellFormed(value) && HoldsAll(ms, es) && i < |es|
    requires Spells(es, parts, values)
    requires out.text == start + Join(parts[..i])
    modifies out
    ensures r.Success? ==> Accepted(values[i])
    ensures r.Success? ==> out.text == start + Join(parts[..i + 1])
    ensures r.Failure? ==> BlamesFrom(value, path, r.error)
    decreases value, 0, 0
  {
    ghost var j: nat :| j < |ms| && ms[j] == es[i];
    Extend(start, parts, i);
    if i > 0 { out.Push(","); }
    PairAssociates(out.text, es[i]);
    var key := CanonicalString(es[i].key);
    out.Push(key);
    out.Push(":");
    r := WriteCanonical(es[i].value, path + [Key(es[i].key)], out);
    if r.Failure? { MemberBlame(value, ms, j, path, r.error); }
  }

  ghost function MemberList(es: seq<Entry<Json>>): (parts: seq<string>)
    ensures |parts| == |es|
    ensures forall i :: 0 <= i < |es| ==> parts[i] == MemberText(es[i])
  {
    PairTexts(MapValues(Text, es))
  }

  ghost function MemberText(e: Entry<Json>): string {
    PairText(Entry(e.key, Text(e.value)))
  }

  lemma ObjectText(ms: seq<Entry<Json>>)
    ensures Text(Obj(ms)) == "{" + Join(MemberList(SortByKey(ms))) + "}"
  {
    TextsAreMapped(ms);
    SortCommutes(Text, ms);
  }

  /** `canonical_json`: the text of an accepted document, an error otherwise. */
  method CanonicalJson(value: Json) returns (r: Result<string, CanonicalError>)
    requires WellFormed(value)
    ensures r.Success? <==> Accepted(value)
    ensures r.Success? ==> r.value == Text(value)
    ensures r.Failure? ==> Blames(value, r.error)
  {
    var out := new TextBuffer();
    var w := WriteCanonical(value, [], out);
    if w.Failure? {
      assert w.error.path[0..] == w.error.path;
      BlameIsRefusal(value, w.error);
      return Failure(w.error);
    }
    return Success(out.text);
  }
}
