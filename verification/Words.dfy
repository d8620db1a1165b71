/** Strings compared by code point, entries of a key and a value, and the sort
    that object keys, index rows and lockfile rows all go through: it forgets the
    order it was given and keeps everything else. */
module Words {

  datatype Option<+T> = None | Some(value: T)

  datatype Result<+T, +E> = Success(value: T) | Failure(error: E)

  /** A keyed value: an object member, an index row, a lockfile row. */
  datatype Entry<T> = Entry(key: string, value: T)

  /** Strict lexicographic order by code point, which is what Rust's `str`
      ordering by UTF-8 byte comes to. */
  predicate Before(a: string, b: string) {
    if b == [] then false
    else if a == [] then true
    else if a[0] != b[0] then a[0] < b[0]
    else Before(a[1..], b[1..])
  }

  lemma {:induction false} BeforeIrreflexive(a: string)
    ensures !Before(a, a)
  {
    if a != [] { BeforeIrreflexive(a[1..]); }
  }

  lemma {:induction false} BeforeTransitive(a: string, b: string, c: string)
    requires Before(a, b) && Before(b, c)
    ensures Before(a, c)
  {
    if a != [] && a[0] == b[0] && b[0] == c[0] { BeforeTransitive(a[1..], b[1..], c[1..]); }
  }

  lemma {:induction false} BeforeTotal(a: string, b: string)
    ensures a == b || Before(a, b) || Before(b, a)
  {
    if a != [] && b != [] && a[0] == b[0] {
      BeforeTotal(a[1..], b[1..]);
      assert a[1..] == b[1..] ==> a == [a[0]] + a[1..] == [b[0]] + b[1..] == b;
    }
  }

  ghost predicate DistinctKeys<T>(es: seq<Entry<T>>) {
    forall i, j :: 0 <= i < j < |es| ==> es[i].key != es[j].key
  }

  ghost predicate StrictlySorted<T>(es: seq<Entry<T>>) {
    forall i, j :: 0 <= i < j < |es| ==> Before(es[i].key, es[j].key)
  }

  function Keys<T>(es: seq<Entry<T>>): (ks: set<string>) {
    set i | 0 <= i < |es| :: es[i].key
  }

  lemma KeyIsHeld<T>(es: seq<Entry<T>>, k: string) returns (i: nat)
    requires k in Keys(es)
    ensures i < |es| && es[i].key == k
  {
    i :| i < |es| && es[i].key == k;
  }

  lemma KeysOfOneMore<T>(es: seq<Entry<T>>, e: Entry<T>)
    ensures Keys(es + [e]) == Keys(es) + {e.key}
  {
    var more := es + [e];
    assert more[|es|] == e;
    forall k | k in Keys(es) ensures k in Keys(more) {
      var i := KeyIsHeld(es, k);
      assert more[i] == es[i];
    }
    forall k | k in Keys(more) ensures k in Keys(es) + {e.key} {
      var i := KeyIsHeld(more, k);
      if i < |es| { assert es[i].key in Keys(es); }
    }
  }

  /** Put `e` in front of the first entry whose key is strictly larger, after
      every entry with an equal key: the step of a stable sort. */
  function Insert<T>(e: Entry<T>, es: seq<Entry<T>>): (r: seq<Entry<T>>)
    ensures |r| == |es| + 1
  {
    if es == [] then [e]
    else if Before(es[|es| - 1].key, e.key) || es[|es| - 1].key == e.key then es + [e]
    else Insert(e, es[..|es| - 1]) + [es[|es| - 1]]
  }

  function SortByKey<T>(es: seq<Entry<T>>): (r: seq<Entry<T>>)
    ensures |r| == |es|
  {
    if es == [] then [] else Insert(es[|es| - 1], SortByKey(es[..|es| - 1]))
  }

  lemma {:induction false} InsertIsPermutation<T>(e: Entry<T>, es: seq<Entry<T>>)
    ensures multiset(Insert(e, es)) == multiset(es) + multiset{e}
  {
    if es != [] {
      var n := |es| - 1;
      assert es == es[..n] + [es[n]];
      if !(Before(es[n].key, e.key) || es[n].key == e.key) { InsertIsPermutation(e, es[..n]); }
    }
  }

  lemma {:induction false} SortIsPermutation<T>(es: seq<Entry<T>>)
    ensures multiset(SortByKey(es)) == multiset(es)
  {
    if es != [] {
      var n := |es| - 1;
      assert es == es[..n] + [es[n]];
      SortIsPermutation(es[..n]);
      InsertIsPermutation(es[n], SortByKey(es[..n]));
    }
  }

  lemma SameElements<T>(a: seq<T>, b: seq<T>)
    requires multiset(a) == multiset(b)
    ensures forall i :: 0 <= i < |a| ==> a[i] in b
    ensures forall i :: 0 <= i < |b| ==> b[i] in a
    ensures forall x :: x in a <==> x in b
  {
    forall x ensures x in a <==> x in b {
      assert x in a <==> x in multiset(a);
      assert x in b <==> x in multiset(b);
    }
  }

  /** Every entry of the sort is an entry of the input and the other way round. */
  lemma SortKeepsElements<T>(es: seq<Entry<T>>)
    ensures forall e :: e in SortByKey(es) <==> e in es
    ensures forall i :: 0 <= i < |es| ==> SortByKey(es)[i] in es
    ensures Keys(SortByKey(es)) == Keys(es)
  {
    SortIsPermutation(es);
    var s := SortByKey(es);
    SameElements(s, es);
    forall k | k in Keys(s) ensures k in Keys(es) {
      var i :| 0 <= i < |s| && s[i].key == k;
      assert s[i] in es;
    }
    forall k | k in Keys(es) ensures k in Keys(s) {
      var i :| 0 <= i < |es| && es[i].key == k;
      assert es[i] in s;
    }
  }

  lemma SortedAlike<T>(a: seq<Entry<T>>, b: seq<Entry<T>>)
    requires SortByKey(a) == SortByKey(b)
    ensures forall i :: 0 <= i < |a| ==> a[i] in b
    ensures Keys(a) == Keys(b)
  {
    SortKeepsElements(a);
    SortKeepsElements(b);
    forall i | 0 <= i < |a| ensures a[i] in b {
      assert a[i] in SortByKey(a);
    }
  }

  lemma {:induction false} InsertSorts<T>(e: Entry<T>, es: seq<Entry<T>>)
    requires StrictlySorted(es)
    requires forall i :: 0 <= i < |es| ==> es[i].key != e.key
    ensures StrictlySorted(Insert(e, es))
  {
    var n := |es| - 1;
    if es == [] {
    } else if Before(es[n].key, e.key) {
      forall i | 0 <= i < |es| ensures Before(es[i].key, e.key) {
        if i < n { BeforeTransitive(es[i].key, es[n].key, e.key); }
      }
    } else {
      InsertSorts(e, es[..n]);
      BeforeTotal(es[n].key, e.key);
      InsertedBelow(e, es[..n], es[n].key);
    }
  }

  lemma InsertedBelow<T>(e: Entry<T>, es: seq<Entry<T>>, top: string)
    requires Before(e.key, top)
    requires forall i :: 0 <= i < |es| ==> Before(es[i].key, top)
    ensures forall i :: 0 <= i < |Insert(e, es)| ==> Before(Insert(e, es)[i].key, top)
  {
    InsertIsPermutation(e, es);
    SameElements(Insert(e, es), es + [e]);
  }

  lemma {:induction false} SortSorts<T>(es: seq<Entry<T>>)
    requires DistinctKeys(es)
    ensures StrictlySorted(SortByKey(es))
  {
    if es != [] {
      var n := |es| - 1;
      SortSorts(es[..n]);
      SortKeepsElements(es[..n]);
      var s := SortByKey(es[..n]);
      forall i | 0 <= i < |s| ensures s[i].key != es[n].key {
        assert s[i] in es[..n];
      }
      InsertSorts(es[n], s);
    }
  }

  lemma SortedKeysDistinct<T>(es: seq<Entry<T>>)
    requires StrictlySorted(es)
    ensures DistinctKeys(es)
  {
    forall i, j | 0 <= i < j < |es| ensures es[i].key != es[j].key {
      BeforeIrreflexive(es[i].key);
    }
  }

  lemma SortOfSorted<T>(es: seq<Entry<T>>)
    requires StrictlySorted(es)
    ensures SortByKey(es) == es
  {
    if es != [] {
      var n := |es| - 1;
      SortOfSorted(es[..n]);
      assert n > 0 ==> Before(es[n - 1].key, es[n].key);
    }
  }

  /** Two strictly sorted sequences that agree on their keys, and on the value
      under each key, are the same sequence. */
  lemma {:induction false} SortedIsUnique<T>(a: seq<Entry<T>>, b: seq<Entry<T>>)
    requires StrictlySorted(a) && StrictlySorted(b)
    requires forall e :: e in a <==> e in b
    ensures a == b
  {
    if |b| > 0 { assert b[0] in b; }
    if a != [] {
      assert a[|a| - 1] in b;
      var n, m := |a| - 1, |b| - 1;
      if a[n] != b[m] {
        assert b[m] in a && a[n] in b;
        var i :| 0 <= i < |a| && a[i] == b[m];
        var j :| 0 <= j < |b| && b[j] == a[n];
        assert Before(a[i].key, a[n].key) && Before(b[j].key, b[m].key);
        BeforeTransitive(a[n].key, b[m].key, a[n].key);
        BeforeIrreflexive(a[n].key);
        assert false;
      }
      SortedKeysDistinct(a);
      SortedKeysDistinct(b);
      forall e ensures e in a[..n] <==> e in b[..m] {
        assert e in a[..n] ==> e in a && e != a[n];
        assert e in b[..m] ==> e in b && e != b[m];
        assert e in a && e != a[n] ==> e in a[..n];
        assert e in b && e != b[m] ==> e in b[..m];
      }
      SortedIsUnique(a[..n], b[..m]);
      assert a == a[..n] + [a[n]] && b == b[..m] + [b[m]];
    }
  }

  /** Key order does not matter to the sort. */
  lemma SortForgetsOrder<T>(a: seq<Entry<T>>, b: seq<Entry<T>>)
    requires DistinctKeys(a) && DistinctKeys(b)
    requires forall e :: e in a <==> e in b
    ensures SortByKey(a) == SortByKey(b)
  {
    SortSorts(a);
    SortSorts(b);
    SortKeepsElements(a);
    SortKeepsElements(b);
    SortedIsUnique(SortByKey(a), SortByKey(b));
  }

  // ---- values that ride along with their keys -----------------------------

  function MapValues<S, T>(f: S -> T, es: seq<Entry<S>>): (r: seq<Entry<T>>)
    ensures |r| == |es|
    ensures forall i :: 0 <= i < |es| ==> r[i] == Entry(es[i].key, f(es[i].value))
  {
    seq(|es|, i requires 0 <= i < |es| => Entry(es[i].key, f(es[i].value)))
  }

  lemma {:induction false} InsertCommutes<S, T>(f: S -> T, e: Entry<S>, es: seq<Entry<S>>)
    ensures MapValues(f, Insert(e, es)) == Insert(Entry(e.key, f(e.value)), MapValues(f, es))
  {
    if es != [] {
      var n := |es| - 1;
      assert MapValues(f, es)[..n] == MapValues(f, es[..n]);
      if !(Before(es[n].key, e.key) || es[n].key == e.key) { InsertCommutes(f, e, es[..n]); }
    }
  }

  /** Sorting moves whole entries: changing the values first or last is the same. */
  lemma {:induction false} SortCommutes<S, T>(f: S -> T, es: seq<Entry<S>>)
    ensures SortByKey(MapValues(f, es)) == MapValues(f, SortByKey(es))
  {
    if es != [] {
      var n := |es| - 1;
      assert MapValues(f, es)[..n] == MapValues(f, es[..n]);
      SortCommutes(f, es[..n]);
      InsertCommutes(f, es[n], SortByKey(es[..n]));
    }
  }
}
