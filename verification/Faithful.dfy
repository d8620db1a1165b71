/** What the canonical text names. */
module Faithful {
  // A document and nothing less; key order is no part of that name.

  import opened Words
  import opened Decimals
  import opened Json
  import opened Canonical
  import opened Reader

  lemma SameItems(xs: seq<Json>, ys: seq<Json>)
    ensures Same(Arr(xs), Arr(ys)) <==> |xs| == |ys| && forall i :: 0 <= i < |xs| ==> Same(xs[i], ys[i])
  {
  }

  lemma ItemsIffSame(xs: seq<Json>, ys: seq<Json>)
    requires |xs| == |ys| && forall i :: 0 <= i < |xs| ==> (Normal(xs[i]) == Normal(ys[i]) <==> Same(xs[i], ys[i]))
    ensures NormalItems(xs) == NormalItems(ys) <==> Same(Arr(xs), Arr(ys))
  {
    SameItems(xs, ys);
    SameElements(NormalItems(xs), NormalItems(ys));
  }

  lemma SameElements(a: seq<Json>, b: seq<Json>)
    requires |a| == |b|
    ensures a == b <==> forall i :: 0 <= i < |a| ==> a[i] == b[i]
  {
  }

  /** Members of the same key have the same normal value. */
  ghost predicate NormalsAgree(ms: seq<Entry<Json>>, ns: seq<Entry<Json>>) {
    forall i, j :: 0 <= i < |ms| && 0 <= j < |ns| && ms[i].key == ns[j].key ==>
      Normal(ms[i].value) == Normal(ns[j].value)
  }

  ghost predicate ValuesSame(ms: seq<Entry<Json>>, ns: seq<Entry<Json>>) {
    forall i, j :: 0 <= i < |ms| && 0 <= j < |ns| && ms[i].key == ns[j].key ==> Same(ms[i].value, ns[j].value)
  }

  lemma SameObjects(ms: seq<Entry<Json>>, ns: seq<Entry<Json>>)
    ensures Same(Obj(ms), Obj(ns)) <==> Keys(ms) == Keys(ns) && ValuesSame(ms, ns)
  {
  }

  lemma ValuesIffSame(ms: seq<Entry<Json>>, ns: seq<Entry<Json>>)
    requires forall i, j :: 0 <= i < |ms| && 0 <= j < |ns| ==>
               (Normal(ms[i].value) == Normal(ns[j].value) <==> Same(ms[i].value, ns[j].value))
    ensures NormalsAgree(ms, ns) <==> ValuesSame(ms, ns)
  {
  }

  lemma MembersIffSame(ms: seq<Entry<Json>>, ns: seq<Entry<Json>>)
    requires DistinctKeys(ms) && DistinctKeys(ns)
    requires NormalsAgree(ms, ns) <==> ValuesSame(ms, ns)
    ensures SortByKey(NormalMembers(ms)) == SortByKey(NormalMembers(ns)) <==> Same(Obj(ms), Obj(ns))
  {
    SameObjects(ms, ns);
    if Keys(ms) == Keys(ns) && NormalsAgree(ms, ns) { SameMembersNormalise(ms, ns); }
    if SortByKey(NormalMembers(ms)) == SortByKey(NormalMembers(ns)) {
      NormalKeysMatch(ms, ns);
      NormalValuesMatch(ms, ns);
    }
  }

  /** Two documents read back the same exactly when they are the same document. */
  lemma {:induction false} NormalIffSame(a: Json, b: Json)
    requires WellFormed(a) && WellFormed(b) && AllFinite(a) && AllFinite(b)
    ensures Normal(a) == Normal(b) <==> Same(a, b)
  {
    match (a, b)
    case (Num(x), Num(y)) => NormalNumberIsValue(x, y);
    case (Arr(xs), Arr(ys)) =>
      if |xs| == |ys| {
        forall i | 0 <= i < |xs| ensures Normal(xs[i]) == Normal(ys[i]) <==> Same(xs[i], ys[i]) {
          NormalIffSame(xs[i], ys[i]);
        }
        ItemsIffSame(xs, ys);
      }
    case (Obj(ms), Obj(ns)) =>
      forall i, j | 0 <= i < |ms| && 0 <= j < |ns|
        ensures Normal(ms[i].value) == Normal(ns[j].value) <==> Same(ms[i].value, ns[j].value)
      {
        NormalIffSame(ms[i].value, ns[j].value);
      }
      ValuesIffSame(ms, ns);
      MembersIffSame(ms, ns);
    case _ =>
  }

  lemma SameMembersNormalise(ms: seq<Entry<Json>>, ns: seq<Entry<Json>>)
    requires DistinctKeys(ms) && DistinctKeys(ns) && Keys(ms) == Keys(ns)
    requires NormalsAgree(ms, ns)
    ensures SortByKey(NormalMembers(ms)) == SortByKey(NormalMembers(ns))
  {
    var a, b := NormalMembers(ms), NormalMembers(ns);
    MembersInto(ms, ns);
    MembersInto(ns, ms);
    SameBothWays(a, b);
    SortForgetsOrder(a, b);
  }

  lemma SameBothWays<T>(a: seq<T>, b: seq<T>)
    requires forall i :: 0 <= i < |a| ==> a[i] in b
    requires forall i :: 0 <= i < |b| ==> b[i] in a
    ensures forall x :: x in a <==> x in b
  {
  }

  lemma MembersInto(ms: seq<Entry<Json>>, ns: seq<Entry<Json>>)
    requires Keys(ms) <= Keys(ns)
    requires NormalsAgree(ms, ns)
    ensures forall i :: 0 <= i < |ms| ==> NormalMembers(ms)[i] in NormalMembers(ns)
  {
    var a, b := NormalMembers(ms), NormalMembers(ns);
    forall i | 0 <= i < |ms| ensures a[i] in b {
      assert ms[i].key in Keys(ms);
      var j := KeyIsHeld(ns, ms[i].key);
      assert b[j] == a[i];
    }
  }

  lemma NormalKeysMatch(ms: seq<Entry<Json>>, ns: seq<Entry<Json>>)
    requires SortByKey(NormalMembers(ms)) == SortByKey(NormalMembers(ns))
    ensures Keys(ms) == Keys(ns)
  {
    SortedAlike(NormalMembers(ms), NormalMembers(ns));
    KeysOfNormal(ms);
    KeysOfNormal(ns);
  }

  lemma NormalValuesMatch(ms: seq<Entry<Json>>, ns: seq<Entry<Json>>)
    requires DistinctKeys(ns)
    requires SortByKey(NormalMembers(ms)) == SortByKey(NormalMembers(ns))
    ensures NormalsAgree(ms, ns)
  {
    SortedAlike(NormalMembers(ms), NormalMembers(ns));
    ValuesAreHeld(ms, ns);
  }

  lemma ValuesAreHeld(ms: seq<Entry<Json>>, ns: seq<Entry<Json>>)
    requires DistinctKeys(ns)
    requires forall k :: 0 <= k < |ms| ==> NormalMembers(ms)[k] in NormalMembers(ns)
    ensures NormalsAgree(ms, ns)
  {
    forall i, j | 0 <= i < |ms| && 0 <= j < |ns| && ms[i].key == ns[j].key
      ensures Normal(ms[i].value) == Normal(ns[j].value)
    {
      ValueIsHeld(ms, ns, i, j);
    }
  }

  lemma ValueIsHeld(ms: seq<Entry<Json>>, ns: seq<Entry<Json>>, i: nat, j: nat)
    requires DistinctKeys(ns) && i < |ms| && j < |ns| && ms[i].key == ns[j].key
    requires forall k :: 0 <= k < |ms| ==> NormalMembers(ms)[k] in NormalMembers(ns)
    ensures Normal(ms[i].value) == Normal(ns[j].value)
  {
    var a, b := NormalMembers(ms), NormalMembers(ns);
    var k :| 0 <= k < |b| && b[k] == a[i];
    assert k == j by { assert ns[k].key == ns[j].key; }
  }

  lemma KeysOfNormal(ms: seq<Entry<Json>>)
    ensures Keys(NormalMembers(ms)) == Keys(ms)
  {
    var a := NormalMembers(ms);
    forall k ensures k in Keys(a) <==> k in Keys(ms) {
      if k in Keys(a) {
        var i :| 0 <= i < |a| && a[i].key == k;
        assert ms[i].key == k;
      }
      if k in Keys(ms) {
        var i :| 0 <= i < |ms| && ms[i].key == k;
        assert a[i].key == k;
      }
    }
  }

  /** The normal form has the text of the document it came from. */
  lemma {:induction false} NormalKeepsText(v: Json)
    requires WellFormed(v) && AllFinite(v)
    ensures Text(Normal(v)) == Text(v)
  {
    match v
    case Num(n) => Decimals.NormalKeepsText(n);
    case Arr(items) =>
      forall i | 0 <= i < |items| ensures Text(Normal(items[i])) == Text(items[i]) { NormalKeepsText(items[i]); }
      assert ItemTexts(NormalItems(items)) == ItemTexts(items);
    case Obj(ms) =>
      forall i | 0 <= i < |ms| ensures Text(Normal(ms[i].value)) == Text(ms[i].value) { NormalKeepsText(ms[i].value); }
      var a := NormalMembers(ms);
      var s := SortByKey(a);
      MembersAreMapped(s);
      MembersAreMapped(a);
      SortCommutes(Text, s);
      SortCommutes(Text, a);
      SortSorts(a);
      SortOfSorted(s);
      assert MemberTexts(a) == MemberTexts(ms);
    case _ =>
  }

  /** The canonical text is faithful: two accepted documents have the same text
      exactly when they differ only in key order and in how numbers are typed. */
  lemma TextIsFaithful(a: Json, b: Json)
    requires WellFormed(a) && WellFormed(b) && Accepted(a) && Accepted(b)
    ensures Text(a) == Text(b) <==> Same(a, b)
  {
    AcceptedIsFinite(a);
    AcceptedIsFinite(b);
    ReadUndoesText(a);
    ReadUndoesText(b);
    NormalIffSame(a, b);
    NormalKeepsText(a);
    NormalKeepsText(b);
  }

  /** Whether a document is accepted does not depend on the order of its keys. */
  lemma {:induction false} OrderDoesNotDecide(a: Json, b: Json)
    requires WellFormed(a) && WellFormed(b) && Reordered(a, b) && Accepted(a)
    ensures Accepted(b)
  {
    match (a, b)
    case (Arr(xs), Arr(ys)) =>
      forall i | 0 <= i < |ys| ensures Accepted(ys[i]) { OrderDoesNotDecide(xs[i], ys[i]); }
    case (Obj(ms), Obj(ns)) =>
      forall j | 0 <= j < |ns| ensures IsAscii(ns[j].key) && Accepted(ns[j].value) {
        assert ns[j].key in Keys(ns);
        var i := KeyIsHeld(ms, ns[j].key);
        OrderDoesNotDecide(ms[i].value, ns[j].value);
      }
    case _ =>
  }

  lemma {:induction false} ReorderedIsSame(a: Json, b: Json)
    requires WellFormed(a) && WellFormed(b) && AllFinite(a) && Reordered(a, b)
    ensures Same(a, b)
  {
    match (a, b)
    case (Arr(xs), Arr(ys)) =>
      forall i | 0 <= i < |xs| ensures Same(xs[i], ys[i]) { ReorderedIsSame(xs[i], ys[i]); }
    case (Obj(ms), Obj(ns)) =>
      forall i, j | 0 <= i < |ms| && 0 <= j < |ns| && ms[i].key == ns[j].key
        ensures Same(ms[i].value, ns[j].value)
      {
        ReorderedIsSame(ms[i].value, ns[j].value);
      }
    case _ =>
  }

  /** Neither does its text. */
  lemma OrderDoesNotShow(a: Json, b: Json)
    requires WellFormed(a) && WellFormed(b) && Accepted(a) && Reordered(a, b)
    ensures Accepted(b) && Text(a) == Text(b)
  {
    OrderDoesNotDecide(a, b);
    AcceptedIsFinite(a);
    ReorderedIsSame(a, b);
    TextIsFaithful(a, b);
  }

  // ---- writing what was read ----------------------------------------------

  /** Somewhere in the document there is a number that reads back as an integer
      too large for the writer. */
  ghost predicate HasUnsafeWhole(v: Json) {
    match v
    case Num(n) => RereadsUnsafe(n)
    case Arr(items) => exists i :: 0 <= i < |items| && HasUnsafeWhole(items[i])
    case Obj(ms) => exists i :: 0 <= i < |ms| && HasUnsafeWhole(ms[i].value)
    case _ => false
  }

  lemma {:induction false} NormalIsWellFormed(v: Json)
    requires WellFormed(v) && AllFinite(v)
    ensures WellFormed(Normal(v))
  {
    match v
    case Arr(items) =>
      forall i | 0 <= i < |items| ensures WellFormed(NormalItems(items)[i]) { NormalIsWellFormed(items[i]); }
    case Obj(ms) =>
      var a := NormalMembers(ms);
      var s := SortByKey(a);
      SortSorts(a);
      SortedKeysDistinct(s);
      SortKeepsElements(a);
      forall i | 0 <= i < |s| ensures WellFormed(s[i].value) {
        assert s[i] in a;
        var j :| 0 <= j < |a| && a[j] == s[i];
        NormalIsWellFormed(ms[j].value);
      }
    case _ =>
  }

  /** An accepted document's text, read and written again, is refused exactly
      when it holds one of those numbers. */
  lemma {:induction false} RewriteRefuses(v: Json)
    requires WellFormed(v) && Accepted(v)
    ensures Accepted(Normal(v)) <==> !HasUnsafeWhole(v)
  {
    match v
    case Num(n) => NormalIsAccepted(n);
    case Arr(items) =>
      forall i | 0 <= i < |items| ensures Accepted(Normal(items[i])) <==> !HasUnsafeWhole(items[i]) {
        RewriteRefuses(items[i]);
      }
      if Accepted(Normal(v)) {
        forall i | 0 <= i < |items| ensures !HasUnsafeWhole(items[i]) {
          assert Accepted(NormalItems(items)[i]);
        }
      }
    case Obj(ms) =>
      forall i | 0 <= i < |ms| ensures Accepted(Normal(ms[i].value)) <==> !HasUnsafeWhole(ms[i].value) {
        RewriteRefuses(ms[i].value);
      }
      NormalObjectAccepted(ms);
    case _ =>
  }

  lemma NormalObjectAccepted(ms: seq<Entry<Json>>)
    requires forall i :: 0 <= i < |ms| ==> IsAscii(ms[i].key)
    ensures Accepted(Normal(Obj(ms))) <==> forall i :: 0 <= i < |ms| ==> Accepted(Normal(ms[i].value))
  {
    var a := NormalMembers(ms);
    var s := SortByKey(a);
    SortKeepsElements(a);
    if Accepted(Obj(s)) {
      forall i | 0 <= i < |ms| ensures Accepted(Normal(ms[i].value)) {
        assert a[i] in s;
        var k :| 0 <= k < |s| && s[k] == a[i];
      }
    }
    if forall i :: 0 <= i < |ms| ==> Accepted(Normal(ms[i].value)) {
      forall k | 0 <= k < |s| ensures IsAscii(s[k].key) && Accepted(s[k].value) {
        assert s[k] in a;
        var i :| 0 <= i < |a| && a[i] == s[k];
      }
    }
  }

  /** Canonicalising the text that was written gives that text back, except
      that a whole float above `2^53 - 1` which fits a 64-bit integer comes back
      as an integer and is refused. */
  lemma RewriteIsIdentity(v: Json)
    requires WellFormed(v) && Accepted(v)
    ensures Read(Text(v)) == Some(Normal(v))
    ensures WellFormed(Normal(v)) && Text(Normal(v)) == Text(v)
    ensures Accepted(Normal(v)) <==> !HasUnsafeWhole(v)
  {
    AcceptedIsFinite(v);
    ReadUndoesText(v);
    NormalIsWellFormed(v);
    NormalKeepsText(v);
    RewriteRefuses(v);
  }
}
