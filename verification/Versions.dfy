/** The release axis: one key per build of a version, in the order of its least
    (version, timestamp, key). */
module Versions {
  import opened Words
  import opened Decimals

  datatype Snapshot = Snapshot(version: string, gitSha: string, timestamp: string)

  const U64_TOP: nat := 0xFFFF_FFFF_FFFF_FFFF

  // ---- version numbers ----------------------------------------------------

  datatype Semver = Semver(major: nat, minor: nat, patch: nat)

  function DropV(s: string): string {
    if |s| > 0 && s[0] == 'v' then DropV(s[1..]) else s
  }

  /** Up to the first of the characters in `stops`. */
  function UpTo(s: string, stops: string): string {
    if s == "" || s[0] in stops then "" else [s[0]] + UpTo(s[1..], stops)
  }

  /** Split at every dot. */
  function Parts(s: string): (parts: seq<string>)
    ensures |parts| > 0
    decreases |s|
  {
    var head := UpTo(s, ".");
    if |head| >= |s| then [s] else [head] + Parts(s[|head| + 1..])
  }

  function ParseU64(s: string): Option<nat> {
    var digits := if |s| > 0 && s[0] == '+' then s[1..] else s;
    if digits == "" || !(forall i :: 0 <= i < |digits| ==> IsDigit(digits[i])) || Digits(digits) > U64_TOP then None
    else Some(Digits(digits))
  }

  function Digits(s: string): nat
    requires forall i :: 0 <= i < |s| ==> IsDigit(s[i])
  {
    if s == "" then 0 else 10 * Digits(s[..|s| - 1]) + DigitValue(s[|s| - 1])
  }

  /** The first three dotted numbers, whatever follows them; anything with fewer
      sorts after every version there is. */
  function SemverOf(version: string): Semver {
    var parts := Parts(UpTo(DropV(version), "-+"));
    if |parts| >= 3 && ParseU64(parts[0]).Some? && ParseU64(parts[1]).Some? && ParseU64(parts[2]).Some?
    then Semver(ParseU64(parts[0]).value, ParseU64(parts[1]).value, ParseU64(parts[2]).value)
    else Semver(U64_TOP, U64_TOP, U64_TOP)
  }

  function VersionKey(version: string, gitSha: string): string {
    if gitSha == "" || gitSha == "unknown" then version else version + "@" + gitSha
  }

  // ---- a total order ------------------------------------------------------

  datatype Item = Item(key: string, semver: Semver, timestamp: string)

  function ItemOf(s: Snapshot): Item {
    Item(VersionKey(s.version, s.gitSha), SemverOf(s.version), s.timestamp)
  }

  predicate SemverBefore(a: Semver, b: Semver) {
    a.major < b.major || (a.major == b.major && (a.minor < b.minor || (a.minor == b.minor && a.patch < b.patch)))
  }

  predicate Less(a: Item, b: Item) {
    SemverBefore(a.semver, b.semver) ||
    (a.semver == b.semver && (Before(a.timestamp, b.timestamp) || (a.timestamp == b.timestamp && Before(a.key, b.key))))
  }

  lemma LessIsTotal(a: Item, b: Item)
    ensures a == b || Less(a, b) || Less(b, a)
  {
    BeforeTotal(a.timestamp, b.timestamp);
    BeforeTotal(a.key, b.key);
  }

  lemma LessIsStrict(a: Item, b: Item)
    ensures !(Less(a, b) && Less(b, a))
  {
    if Less(a, b) && Less(b, a) {
      BeforeIrreflexive(a.timestamp);
      BeforeIrreflexive(a.key);
      if Before(a.timestamp, b.timestamp) && Before(b.timestamp, a.timestamp) {
        BeforeTransitive(a.timestamp, b.timestamp, a.timestamp);
      }
      if Before(a.key, b.key) && Before(b.key, a.key) { BeforeTransitive(a.key, b.key, a.key); }
    }
  }

  lemma LessIsTransitive(a: Item, b: Item, c: Item)
    requires Less(a, b) && Less(b, c)
    ensures Less(a, c)
  {
    if Before(a.timestamp, b.timestamp) && Before(b.timestamp, c.timestamp) {
      BeforeTransitive(a.timestamp, b.timestamp, c.timestamp);
    }
    if Before(a.key, b.key) && Before(b.key, c.key) { BeforeTransitive(a.key, b.key, c.key); }
  }

  // ---- the sort -----------------------------------------------------------

  ghost predicate IsSorted(items: seq<Item>) {
    forall i, j :: 0 <= i < j < |items| ==> !Less(items[j], items[i])
  }

  /** Put an item behind everything that is not larger. */
  function Place(e: Item, items: seq<Item>): (r: seq<Item>)
    ensures multiset(r) == multiset(items) + multiset{e}
  {
    if items == [] then [e]
    else
      var init, last := items[..|items| - 1], items[|items| - 1];
      assert items == init + [last];
      if Less(e, last) then Place(e, init) + [last] else items + [e]
  }

  function Sorted(items: seq<Item>): (r: seq<Item>)
    ensures multiset(r) == multiset(items)
  {
    if items == [] then []
    else
      assert items == items[..|items| - 1] + [items[|items| - 1]];
      Place(items[|items| - 1], Sorted(items[..|items| - 1]))
  }

  lemma {:induction false} PlaceSorts(e: Item, items: seq<Item>)
    requires IsSorted(items)
    ensures IsSorted(Place(e, items))
  {
    if items != [] {
      var init, last := items[..|items| - 1], items[|items| - 1];
      if Less(e, last) {
        PlaceSorts(e, init);
        var r := Place(e, init);
        forall i | 0 <= i < |r| ensures !Less(last, r[i]) {
          assert r[i] in multiset(r);
          if r[i] == e { LessIsStrict(e, last); } else { assert r[i] in multiset(init); }
        }
      } else {
        forall i | 0 <= i < |items| ensures !Less(e, items[i]) {
          if Less(e, items[i]) && i < |items| - 1 {
            LessIsTotal(items[i], last);
            if Less(items[i], last) { LessIsTransitive(e, items[i], last); }
          }
        }
      }
    }
  }

  lemma {:induction false} SortedIsSorted(items: seq<Item>)
    ensures IsSorted(Sorted(items))
  {
    if items != [] {
      SortedIsSorted(items[..|items| - 1]);
      PlaceSorts(items[|items| - 1], Sorted(items[..|items| - 1]));
    }
  }

  lemma Without<T>(s: seq<T>, j: nat)
    requires j < |s|
    ensures multiset(s[..j] + s[j + 1..]) == multiset(s) - multiset{s[j]}
    ensures s[j] in multiset(s)
  {
    assert s == s[..j] + [s[j]] + s[j + 1..];
  }

  lemma Holds<T>(s: seq<T>, x: T) returns (i: nat)
    requires x in multiset(s)
    ensures i < |s| && s[i] == x
  {
    i :| 0 <= i < |s| && s[i] == x;
  }

  lemma LastsAgree(a: seq<Item>, b: seq<Item>)
    requires IsSorted(a) && IsSorted(b) && multiset(a) == multiset(b) && a != [] && b != []
    ensures a[|a| - 1] == b[|b| - 1]
  {
    LastIsTop(a, b);
    LastIsTop(b, a);
    LessIsTotal(a[|a| - 1], b[|b| - 1]);
  }

  /** Nothing in a sorted sequence is larger than its last. */
  lemma LastIsTop(a: seq<Item>, b: seq<Item>)
    requires IsSorted(b) && multiset(a) == multiset(b) && a != [] && b != []
    ensures !Less(b[|b| - 1], a[|a| - 1])
  {
    var x := a[|a| - 1];
    Without(a, |a| - 1);
    var i := Holds(b, x);
    if i == |b| - 1 { LessIsStrict(x, x); }
  }

  /** There is one sorted sequence to a multiset. */
  lemma {:induction false} SortedIsUnique(a: seq<Item>, b: seq<Item>)
    requires IsSorted(a) && IsSorted(b) && multiset(a) == multiset(b)
    ensures a == b
  {
    assert |a| == |multiset(a)| == |multiset(b)| == |b|;
    if a != [] {
      var n := |a| - 1;
      LastsAgree(a, b);
      Without(a, n);
      Without(b, n);
      assert a[..n] + a[n + 1..] == a[..n] && b[..n] + b[n + 1..] == b[..n];
      PrefixIsSorted(a, n);
      PrefixIsSorted(b, n);
      SortedIsUnique(a[..n], b[..n]);
      SameEnds(a, b, n);
    }
  }

  lemma PrefixIsSorted(a: seq<Item>, n: nat)
    requires IsSorted(a) && n <= |a|
    ensures IsSorted(a[..n])
  {
  }

  lemma SameEnds(a: seq<Item>, b: seq<Item>, n: nat)
    requires |a| == n + 1 == |b| && a[..n] == b[..n] && a[n] == b[n]
    ensures a == b
  {
    assert a == a[..n] + [a[n]] && b == b[..n] + [b[n]];
  }

  // ---- the keys -----------------------------------------------------------

  /** Keys in the order they first appear. */
  function FirstKeys(items: seq<Item>): seq<string> {
    if items == [] then []
    else
      var init, last := FirstKeys(items[..|items| - 1]), items[|items| - 1];
      if last.key in init then init else init + [last.key]
  }

  function Items(history: seq<Snapshot>): (r: seq<Item>)
    ensures |r| == |history| && forall i :: 0 <= i < |history| ==> r[i] == ItemOf(history[i])
  {
    seq(|history|, i requires 0 <= i < |history| => ItemOf(history[i]))
  }

  /** `ordered_version_keys`: sort, then let each key through once. */
  method OrderedVersionKeys(history: seq<Snapshot>) returns (keys: seq<string>)
    ensures keys == FirstKeys(Sorted(Items(history)))
  {
    var items := Sorted(Items(history));
    var seen: set<string> := {};
    keys := [];
    var i := 0;
    while i < |items|
      invariant i <= |items|
      invariant keys == FirstKeys(items[..i])
      invariant forall k :: k in seen <==> k in keys
    {
      assert items[..i + 1][..i] == items[..i];
      if items[i].key !in seen {
        seen := seen + {items[i].key};
        keys := keys + [items[i].key];
      }
      i := i + 1;
    }
    assert items[..i] == items;
  }

  lemma {:induction false} FirstKeysAreTheKeys(items: seq<Item>)
    ensures forall i, j :: 0 <= i < j < |FirstKeys(items)| ==> FirstKeys(items)[i] != FirstKeys(items)[j]
    ensures forall i :: 0 <= i < |items| ==> items[i].key in FirstKeys(items)
    ensures forall k :: k in FirstKeys(items) ==> exists i :: 0 <= i < |items| && items[i].key == k
  {
    if items != [] {
      var init := items[..|items| - 1];
      FirstKeysAreTheKeys(init);
      forall k | k in FirstKeys(items) ensures exists i :: 0 <= i < |items| && items[i].key == k {
        if k in FirstKeys(init) {
          var i :| 0 <= i < |init| && init[i].key == k;
          assert items[i].key == k;
        } else {
          assert items[|items| - 1].key == k;
        }
      }
    }
  }

  /** Where each key of the list first appears. */
  lemma {:induction false} FirstAppearances(items: seq<Item>, i: nat, j: nat) returns (at: nat)
    requires i < j < |FirstKeys(items)|
    ensures at < |items| && items[at].key == FirstKeys(items)[i]
    ensures forall n :: 0 <= n < |items| && items[n].key == FirstKeys(items)[j] ==> at < n
  {
    var init := items[..|items| - 1];
    if j < |FirstKeys(init)| {
      at := FirstAppearances(init, i, j);
      assert FirstKeys(items)[i] == FirstKeys(init)[i] && FirstKeys(items)[j] == FirstKeys(init)[j];
      forall n | 0 <= n < |items| && items[n].key == FirstKeys(items)[j] ensures at < n {
        if n < |init| { assert init[n] == items[n]; }
      }
    } else {
      FirstKeysAreTheKeys(init);
      var k := FirstKeys(init)[i];
      assert FirstKeys(items)[i] == k && k in FirstKeys(init);
      at :| 0 <= at < |init| && init[at].key == k;
      forall n | 0 <= n < |items| && items[n].key == FirstKeys(items)[j] ensures at < n {
      }
    }
  }

  // ---- what the axis promises ---------------------------------------------

  lemma {:induction false} ItemsOfPermutation(a: seq<Snapshot>, b: seq<Snapshot>)
    requires multiset(a) == multiset(b)
    ensures multiset(Items(a)) == multiset(Items(b))
    decreases |a|
  {
    assert |a| == |multiset(a)| == |multiset(b)| == |b|;
    if a != [] {
      var n := |a| - 1;
      Without(a, n);
      var j := Holds(b, a[n]);
      Without(b, j);
      assert a[..n] + a[n + 1..] == a[..n];
      ItemsOfPermutation(a[..n], b[..j] + b[j + 1..]);
      ItemsWithout(a, n);
      ItemsWithout(b, j);
    }
  }

  lemma ItemsWithout(s: seq<Snapshot>, j: nat)
    requires j < |s|
    ensures multiset(Items(s)) == multiset(Items(s[..j] + s[j + 1..])) + multiset{ItemOf(s[j])}
  {
    Without(Items(s), j);
    assert Items(s[..j] + s[j + 1..]) == Items(s)[..j] + Items(s)[j + 1..];
  }

  /** The order of the history file does not matter. */
  lemma KeysForgetOrder(a: seq<Snapshot>, b: seq<Snapshot>)
    requires multiset(a) == multiset(b)
    ensures FirstKeys(Sorted(Items(a))) == FirstKeys(Sorted(Items(b)))
  {
    ItemsOfPermutation(a, b);
    SortedIsSorted(Items(a));
    SortedIsSorted(Items(b));
    SortedIsUnique(Sorted(Items(a)), Sorted(Items(b)));
  }

  /** The keys are the history's, each once. */
  lemma KeysAreTheHistorys(history: seq<Snapshot>)
    ensures var keys := FirstKeys(Sorted(Items(history)));
      (forall i, j :: 0 <= i < j < |keys| ==> keys[i] != keys[j]) &&
      forall k :: k in keys <==> exists s :: s in history && VersionKey(s.version, s.gitSha) == k
  {
    var items := Items(history);
    var sorted := Sorted(items);
    var keys := FirstKeys(sorted);
    FirstKeysAreTheKeys(sorted);
    forall k | k in keys ensures exists s :: s in history && VersionKey(s.version, s.gitSha) == k {
      var i :| 0 <= i < |sorted| && sorted[i].key == k;
      assert sorted[i] in multiset(items);
      var n :| 0 <= n < |items| && items[n] == sorted[i];
      assert history[n] in history;
    }
    forall s | s in history ensures VersionKey(s.version, s.gitSha) in keys {
      var n :| 0 <= n < |history| && history[n] == s;
      assert items[n] in multiset(sorted);
      var i :| 0 <= i < |sorted| && sorted[i] == items[n];
    }
  }

  /** A key comes before another exactly when its least item does: some snapshot
      of the earlier key is smaller than every snapshot of the later one. */
  lemma KeysAreOrdered(history: seq<Snapshot>, i: nat, j: nat) returns (first: Snapshot)
    requires i < j < |FirstKeys(Sorted(Items(history)))|
    ensures first in history && ItemOf(first).key == FirstKeys(Sorted(Items(history)))[i]
    ensures forall s :: s in history && ItemOf(s).key == FirstKeys(Sorted(Items(history)))[j] ==> Less(ItemOf(first), ItemOf(s))
  {
    var items := Items(history);
    var sorted := Sorted(items);
    var keys := FirstKeys(sorted);
    SortedIsSorted(items);
    FirstKeysAreTheKeys(sorted);
    var at := FirstAppearances(sorted, i, j);
    assert sorted[at] in multiset(items);
    var n :| 0 <= n < |items| && items[n] == sorted[at];
    first := history[n];
    forall s | s in history && ItemOf(s).key == keys[j] ensures Less(ItemOf(first), ItemOf(s)) {
      var m :| 0 <= m < |history| && history[m] == s;
      assert items[m] in multiset(sorted);
      var k :| 0 <= k < |sorted| && sorted[k] == items[m];
      LessIsTotal(sorted[at], sorted[k]);
    }
  }
}
