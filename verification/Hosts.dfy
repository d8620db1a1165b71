/** Hosts that share a bucket. A run id ends in the hash of the host's fields joined
    by NULs: when the join tells fields from all others, when it tells hosts from
    other hosts, and two admitted documents for which it does neither. */
module Hosts {
  import opened Words
  import opened Decimals
  import opened Json
  import opened Integrity
  import opened Admission
  import opened Archive

  predicate NulFree(parts: seq<string>) {
    forall i :: 0 <= i < |parts| ==> (0 as char) !in parts[i]
  }

  /** Host fields cannot run into one another: with no NUL inside a field, equal
      text means equal fields. */
  lemma {:induction false} SeparatedApart(a: seq<string>, b: seq<string>)
    requires |a| == |b| && NulFree(a) && NulFree(b)
    requires Separated(a) == Separated(b)
    ensures a == b
  {
    if |a| > 1 {
      var x, y := Separated(a), Separated(b);
      var m, n := |a[0]|, |b[0]|;
      assert x[m] == 0 as char && y[n] == 0 as char;
      assert x[..m] == a[0] && y[..n] == b[0];
      assert forall i :: 0 <= i < m ==> x[i] in a[0];
      assert forall i :: 0 <= i < n ==> y[i] in b[0];
      assert x[m + 1..] == Separated(a[1..]) && y[n + 1..] == Separated(b[1..]);
      assert NulFree(a[1..]) && NulFree(b[1..]);
      SeparatedApart(a[1..], b[1..]);
      assert a == [a[0]] + a[1..] && b == [b[0]] + b[1..];
    }
  }

  // ---- when a NUL does run fields into one another ------------------------

  const NUL: char := 0 as char

  function Nuls(s: string): nat {
    if s == "" then 0 else Nuls(s[1..]) + (if s[0] == NUL then 1 else 0)
  }

  function NulsWithin(parts: seq<string>): nat {
    if parts == [] then 0 else Nuls(parts[0]) + NulsWithin(parts[1..])
  }

  lemma {:induction false} NulsOfSum(a: string, b: string)
    ensures Nuls(a + b) == Nuls(a) + Nuls(b)
  {
    if a == "" {
      assert a + b == b;
    } else {
      assert (a + b)[1..] == a[1..] + b;
      NulsOfSum(a[1..], b);
    }
  }

  lemma {:induction false} NoNuls(s: string)
    ensures Nuls(s) == 0 <==> NUL !in s
  {
    if s != "" {
      NoNuls(s[1..]);
      assert s == [s[0]] + s[1..];
    }
  }

  lemma {:induction false} NoNulsWithin(parts: seq<string>)
    ensures NulsWithin(parts) == 0 <==> NulFree(parts)
  {
    if parts != [] {
      NoNuls(parts[0]);
      NoNulsWithin(parts[1..]);
      assert forall i :: 0 < i < |parts| ==> parts[i] == parts[1..][i - 1];
      assert NulFree(parts) ==> NulFree(parts[1..]);
    }
  }

  lemma {:induction false} NulsOfSeparated(parts: seq<string>)
    requires parts != []
    ensures Nuls(Separated(parts)) == |parts| - 1 + NulsWithin(parts)
  {
    if |parts| == 1 {
      assert parts[1..] == [];
    } else {
      NulsOfSeparated(parts[1..]);
      assert [NUL][1..] == "" && Nuls([NUL]) == 1;
      NulsOfSum(parts[0] + [NUL], Separated(parts[1..]));
      NulsOfSum(parts[0], [NUL]);
    }
  }

  /** The join after a part depends on the part and the next one only through
      their own join. */
  lemma {:induction false} SameJoinSamePlace(head: seq<string>, p: string, q: string, x: string, y: string, tail: seq<string>)
    requires p + [NUL] + q == x + [NUL] + y
    ensures Separated(head + [p, q] + tail) == Separated(head + [x, y] + tail)
  {
    var a, b := head + [p, q] + tail, head + [x, y] + tail;
    if head == [] {
      assert a[1..] == [q] + tail && b[1..] == [y] + tail;
      assert a[1..][1..] == tail && b[1..][1..] == tail;
      if tail == [] {
        assert [q] + tail == [q] && [y] + tail == [y] && Separated([q]) == q && Separated([y]) == y;
      } else {
        assert Separated(a) == p + [NUL] + (q + [NUL] + Separated(tail)) == (p + [NUL] + q) + ([NUL] + Separated(tail));
        assert Separated(b) == x + [NUL] + (y + [NUL] + Separated(tail)) == (x + [NUL] + y) + ([NUL] + Separated(tail));
      }
    } else {
      assert a[1..] == head[1..] + [p, q] + tail && b[1..] == head[1..] + [x, y] + tail;
      SameJoinSamePlace(head[1..], p, q, x, y, tail);
    }
  }

  function FirstNul(s: string): (i: nat)
    requires NUL in s
    ensures i < |s| && s[i] == NUL
  {
    if s[0] == NUL then 0 else 1 + FirstNul(s[1..])
  }

  /** Fields one of which holds a NUL, beside other fields of the same text. */
  lemma AnotherSplit(a: seq<string>) returns (b: seq<string>)
    requires |a| > 1 && !NulFree(a)
    ensures |b| == |a| && b != a && Separated(b) == Separated(a)
  {
    var i :| 0 <= i < |a| && NUL in a[i];
    var k := FirstNul(a[i]);
    var x, y := a[i][..k], a[i][k + 1..];
    assert a[i] == x + [NUL] + y;
    if i + 1 < |a| {
      b := SplitEarlier(a, i, x, y);
    } else {
      b := SplitLater(a, i, x, y);
    }
  }

  lemma SplitEarlier(a: seq<string>, i: nat, x: string, y: string) returns (b: seq<string>)
    requires i + 1 < |a| && a[i] == x + [NUL] + y
    ensures b == a[i := x][i + 1 := y + [NUL] + a[i + 1]] && b != a && Separated(b) == Separated(a)
  {
    var head, tail, next := a[..i], a[i + 2..], y + [NUL] + a[i + 1];
    b := head + [x, next] + tail;
    assert a == head + [a[i], a[i + 1]] + tail;
    assert a[i] + [NUL] + a[i + 1] == x + [NUL] + next;
    SameJoinSamePlace(head, a[i], a[i + 1], x, next, tail);
    assert b[i] == x;
  }

  lemma SplitLater(a: seq<string>, i: nat, x: string, y: string) returns (b: seq<string>)
    requires 0 < i < |a| && a[i] == x + [NUL] + y
    ensures b == a[i - 1 := a[i - 1] + [NUL] + x][i := y] && b != a && Separated(b) == Separated(a)
  {
    var head, tail, before := a[..i - 1], a[i + 1..], a[i - 1] + [NUL] + x;
    b := head + [before, y] + tail;
    assert a == head + [a[i - 1], a[i]] + tail;
    assert a[i - 1] + [NUL] + a[i] == before + [NUL] + y;
    SameJoinSamePlace(head, a[i - 1], a[i], before, y, tail);
    assert b[i] == y;
  }

  /** The joined text tells fields from all others, empty ones among them, exactly
      when none of them holds a NUL. */
  lemma FieldsAreToldApartIff(a: seq<string>)
    requires |a| > 1
    ensures (forall b :: |b| == |a| && Separated(b) == Separated(a) ==> b == a) <==> NulFree(a)
  {
    if NulFree(a) {
      forall b | |b| == |a| && Separated(b) == Separated(a) ensures b == a {
        NulsOfSeparated(a);
        NulsOfSeparated(b);
        NoNulsWithin(a);
        NoNulsWithin(b);
        SeparatedApart(a, b);
      }
    } else {
      var b := AnotherSplit(a);
    }
  }

  // ---- fields a host can have ---------------------------------------------

  /** A name as a host field holds it: not empty, no space at its ends. */
  predicate IsTrimmed(s: string) {
    s != "" && !IsSpace(s[0]) && !IsSpace(s[|s| - 1])
  }

  ghost predicate AreTrimmed(parts: seq<string>) {
    forall i :: 0 <= i < |parts| ==> IsTrimmed(parts[i])
  }

  lemma {:induction false} TrimTrims(s: string)
    ensures Trim(s) != "" ==> IsTrimmed(Trim(s))
  {
    if s != "" {
      if IsSpace(s[0]) { TrimTrims(s[1..]); } else if IsSpace(s[|s| - 1]) { TrimTrims(s[..|s| - 1]); }
    }
  }

  lemma NamesAreTrimmed(v: Option<Json>, path: seq<string>)
    ensures IsTrimmed(NameAt(v, path))
  {
    var at := Under(v, path);
    if at.Some? && at.value.Str? { TrimTrims(at.value.s); }
  }

  lemma ShownIsTrimmed(v: Option<Json>, show: Json -> string)
    requires forall u :: IsTrimmed(show(u))
    ensures IsTrimmed(Shown(v, show))
  {
    if v.Some? { assert IsTrimmed(show(v.value)); }
  }

  /** Every field of a host is trimmed, when the text of a value is. */
  lemma HostPartsAreTrimmed(provenance: Option<Json>, show: Json -> string)
    requires forall v :: IsTrimmed(show(v))
    ensures AreTrimmed(HostParts(provenance, show))
  {
    NamesAreTrimmed(provenance, ["os"]);
    NamesAreTrimmed(provenance, ["arch"]);
    NamesAreTrimmed(provenance, ["cpuModel"]);
    NamesAreTrimmed(provenance, ["node", "rustc"]);
    NamesAreTrimmed(provenance, ["filesystem", "fsType"]);
    ShownIsTrimmed(Under(provenance, ["emulated"]), show);
    AllSix(NameAt(provenance, ["os"]), NameAt(provenance, ["arch"]), NameAt(provenance, ["cpuModel"]), NameAt(provenance, ["node", "rustc"]),
           NameAt(provenance, ["filesystem", "fsType"]), Shown(Under(provenance, ["emulated"]), show));
  }

  lemma AllSix(a: string, b: string, c: string, d: string, e: string, f: string)
    requires IsTrimmed(a) && IsTrimmed(b) && IsTrimmed(c) && IsTrimmed(d) && IsTrimmed(e) && IsTrimmed(f)
    ensures AreTrimmed([a, b, c, d, e, f])
  {
  }

  /** A NUL with no space beside it: what is left of the field and what is right
      of it could be the ends of fields. */
  predicate Splits(s: string, j: nat) {
    j < |s| && s[j] == NUL && (j > 0 ==> !IsSpace(s[j - 1])) && (j + 1 < |s| ==> !IsSpace(s[j + 1]))
  }

  /** Such a NUL can be taken for the one that separates its field from the next,
      when something comes before it, or from the one before, when something
      comes after it. */
  ghost predicate IsLoose(a: seq<string>, i: nat, j: nat) {
    i < |a| && Splits(a[i], j) && ((j > 0 && i + 1 < |a|) || (j + 1 < |a[i]| && i > 0))
  }

  ghost predicate InnerTight(s: string) {
    forall j: nat :: Splits(s, j) ==> |s| == 1
  }

  ghost predicate LastTight(s: string) {
    forall j: nat :: Splits(s, j) ==> j + 1 == |s|
  }

  ghost predicate FirstTight(s: string) {
    forall j: nat :: Splits(s, j) ==> j == 0
  }

  /** The fields after the first. */
  ghost predicate RestTight(c: seq<string>) {
    c != [] && LastTight(c[|c| - 1]) && forall i :: 0 <= i < |c| - 1 ==> InnerTight(c[i])
  }

  lemma JoinOf(parts: seq<string>)
    requires |parts| > 1
    ensures Separated(parts) == parts[0] + [NUL] + Separated(parts[1..])
  {
  }

  lemma JoinStarts(parts: seq<string>)
    requires parts != [] && parts[0] != ""
    ensures Separated(parts) != "" && Separated(parts)[0] == parts[0][0]
  {
    if |parts| > 1 { JoinOf(parts); }
  }

  lemma TailOfTight(c: seq<string>)
    requires |c| > 1 && AreTrimmed(c) && RestTight(c)
    ensures AreTrimmed(c[1..]) && RestTight(c[1..]) && FirstTight(c[0])
  {
    var t := c[1..];
    assert t[|t| - 1] == c[|c| - 1] && forall i :: 0 <= i < |t| - 1 ==> t[i] == c[i + 1];
    assert InnerTight(c[0]);
  }

  /** Where the text has a NUL in a field and a field of the same text ends, the
      NUL splits the field. */
  lemma EndSplits(s: string, u: string, v: string, rest: string)
    requires |u| < |s| && v != "" && !IsSpace(v[0]) && (u != "" ==> !IsSpace(u[|u| - 1]))
    requires s + rest == u + [NUL] + v
    ensures Splits(s, |u|)
  {
    var t := s + rest;
    assert t[|u|] == NUL && t[|u| + 1] == v[0];
    if u != "" { assert t[|u| - 1] == u[|u| - 1]; }
  }

  lemma SameStart(x: string, y: string, p: string, q: string)
    requires |x| == |p| && x + [NUL] + y == p + [NUL] + q
    ensures x == p && y == q
  {
    assert (x + [NUL] + y)[..|x|] == x && (p + [NUL] + q)[..|p|] == p;
    assert (x + [NUL] + y)[|x| + 1..] == y && (p + [NUL] + q)[|p| + 1..] == q;
  }

  lemma LaterStart(x: string, y: string, p: string, q: string) returns (u: string)
    requires |x| > |p| && x + [NUL] + y == p + [NUL] + q
    ensures x == p + [NUL] + u && q == u + [NUL] + y
  {
    var t := x + [NUL] + y;
    assert t[..|x|] == x && (p + [NUL] + q)[..|p|] == p && t[|p|] == NUL;
    u := x[|p| + 1..];
    assert x == p + [NUL] + u;
    assert t == p + [NUL] + (u + [NUL] + y);
    SameStart(p, u + [NUL] + y, p, q);
  }

  /** As many fields do not fit in less of the text of tight ones. */
  lemma {:induction false} NoRoom(c: seq<string>, u: string, d: seq<string>)
    requires |c| == |d| && AreTrimmed(c) && RestTight(c) && AreTrimmed(d) && (u != "" ==> !IsSpace(u[|u| - 1]))
    requires u + [NUL] + Separated(d) == Separated(c)
    ensures false
    decreases |c|
  {
    JoinStarts(d);
    if |c| == 1 {
      EndSplits(c[0], u, Separated(d), "");
      assert false;
    } else {
      TailOfTight(c);
      JoinOf(c);
      JoinOf(d);
      var w := NextRoom(c, u, d);
      assert AreTrimmed(d[1..]);
      NoRoom(c[1..], w, d[1..]);
    }
  }

  lemma NextRoom(c: seq<string>, u: string, d: seq<string>) returns (w: string)
    requires |c| == |d| > 1 && IsTrimmed(d[0]) && InnerTight(c[0]) && (u != "" ==> !IsSpace(u[|u| - 1]))
    requires Separated(d) == d[0] + [NUL] + Separated(d[1..])
    requires u + [NUL] + Separated(d) == c[0] + [NUL] + Separated(c[1..])
    ensures (w != "" ==> !IsSpace(w[|w| - 1])) && w + [NUL] + Separated(d[1..]) == Separated(c[1..])
  {
    var more, rest := Separated(d), Separated(c[1..]);
    if |u| < |c[0]| {
      EndSplits(c[0], u, more, [NUL] + rest);
      assert u == "" && c[0] == [NUL];
      w := WithoutFirst(d[0], Separated(d[1..]), rest);
    } else if |u| == |c[0]| {
      SameStart(u, more, c[0], rest);
      w := d[0];
    } else {
      var v := LaterStart(u, more, c[0], rest);
      w := v + [NUL] + d[0];
      assert w + [NUL] + Separated(d[1..]) == v + [NUL] + more;
    }
  }

  lemma WithoutFirst(d: string, tail: string, rest: string) returns (w: string)
    requires IsTrimmed(d) && [NUL] + (d + [NUL] + tail) == [NUL] + [NUL] + rest
    ensures (w != "" ==> !IsSpace(w[|w| - 1])) && w + [NUL] + tail == rest
  {
    var t := d + [NUL] + tail;
    assert ([NUL] + t)[1..] == t && ([NUL] + [NUL] + rest)[1..] == [NUL] + rest;
    w := d[1..];
    assert t[1..] == w + [NUL] + tail && ([NUL] + rest)[1..] == rest;
  }

  lemma {:induction false} TightIsUnique(a: seq<string>, b: seq<string>)
    requires |a| == |b| > 0 && AreTrimmed(a) && AreTrimmed(b) && Separated(a) == Separated(b)
    requires |a| > 1 ==> FirstTight(a[0]) && RestTight(a[1..])
    ensures a == b
    decreases |a|
  {
    if |a| > 1 {
      JoinOf(a);
      JoinOf(b);
      assert AreTrimmed(a[1..]) && AreTrimmed(b[1..]);
      SameFirst(a, b);
      SameStart(a[0], Separated(a[1..]), b[0], Separated(b[1..]));
      if |a| > 2 { TailOfTight(a[1..]); }
      TightIsUnique(a[1..], b[1..]);
      assert a == [a[0]] + a[1..] && b == [b[0]] + b[1..];
    }
  }

  lemma SameFirst(a: seq<string>, b: seq<string>)
    requires |a| == |b| > 1 && IsTrimmed(a[0]) && IsTrimmed(b[0]) && AreTrimmed(a[1..]) && AreTrimmed(b[1..])
    requires a[0] + [NUL] + Separated(a[1..]) == b[0] + [NUL] + Separated(b[1..])
    requires FirstTight(a[0]) && RestTight(a[1..])
    ensures |a[0]| == |b[0]|
  {
    if |b[0]| < |a[0]| {
      JoinStarts(b[1..]);
      EndSplits(a[0], b[0], Separated(b[1..]), [NUL] + Separated(a[1..]));
      assert false;
    } else if |b[0]| > |a[0]| {
      var u := LaterStart(b[0], Separated(b[1..]), a[0], Separated(a[1..]));
      NoRoom(a[1..], u, b[1..]);
    }
  }

  /** A loose NUL makes another host of the same text. */
  lemma AnotherHost(a: seq<string>, i: nat, j: nat) returns (b: seq<string>)
    requires AreTrimmed(a) && IsLoose(a, i, j)
    ensures |b| == |a| && b != a && AreTrimmed(b) && Separated(b) == Separated(a)
  {
    var x, y := a[i][..j], a[i][j + 1..];
    assert a[i] == x + [NUL] + y;
    if j > 0 && i + 1 < |a| {
      b := SplitEarlier(a, i, x, y);
      assert IsTrimmed(x) && IsTrimmed(y + [NUL] + a[i + 1]);
    } else {
      b := SplitLater(a, i, x, y);
      assert IsTrimmed(y) && IsTrimmed(a[i - 1] + [NUL] + x);
    }
  }

  lemma NothingLooseIsTight(a: seq<string>)
    requires |a| > 1 && forall i: nat, j: nat :: !IsLoose(a, i, j)
    ensures FirstTight(a[0]) && RestTight(a[1..])
  {
    var c := a[1..];
    var last := c[|c| - 1];
    forall j: nat | Splits(a[0], j) ensures j == 0 { assert !IsLoose(a, 0, j); }
    forall j: nat | Splits(last, j) ensures j + 1 == |last| { assert !IsLoose(a, |a| - 1, j); }
    forall i | 0 <= i < |c| - 1 ensures InnerTight(c[i]) {
      forall j: nat | Splits(c[i], j) ensures |c[i]| == 1 { assert !IsLoose(a, i + 1, j); }
    }
  }

  /** Among fields that hosts can have, the joined text tells these from all
      others exactly when they hold no loose NUL. */
  lemma HostsAreToldApartIff(a: seq<string>)
    requires |a| > 1 && AreTrimmed(a)
    ensures (forall b :: |b| == |a| && AreTrimmed(b) && Separated(b) == Separated(a) ==> b == a) <==>
            forall i: nat, j: nat :: !IsLoose(a, i, j)
  {
    if forall i: nat, j: nat :: !IsLoose(a, i, j) {
      NothingLooseIsTight(a);
      forall b | |b| == |a| && AreTrimmed(b) && Separated(b) == Separated(a) ensures b == a { TightIsUnique(a, b); }
    } else {
      var i: nat, j: nat :| IsLoose(a, i, j);
      var b := AnotherHost(a, i, j);
    }
  }

  // ---- two admitted documents with one id ---------------------------------

  /** Every other member is the same. */
  ghost predicate AgreeOffHost(p: Json, q: Json) {
    forall key :: key != "os" && key != "arch" ==> Get(p, key) == Get(q, key)
  }

  lemma SameFirstStep(p: Json, q: Json, path: seq<string>)
    requires AgreeOffHost(p, q) && path != [] && path[0] != "os" && path[0] != "arch"
    ensures Under(Some(p), path) == Under(Some(q), path)
  {
  }

  function LaterFields(p: Option<Json>, show: Json -> string): seq<string> {
    [NameAt(p, ["cpuModel"]), NameAt(p, ["node", "rustc"]), NameAt(p, ["filesystem", "fsType"]), Shown(Under(p, ["emulated"]), show)]
  }

  lemma SameLaterFields(p: Json, q: Json, show: Json -> string)
    requires AgreeOffHost(p, q)
    ensures LaterFields(Some(p), show) == LaterFields(Some(q), show)
    ensures Under(Some(p), ["library", "commit"]) == Under(Some(q), ["library", "commit"])
  {
    SameFirstStep(p, q, ["cpuModel"]);
    SameFirstStep(p, q, ["node", "rustc"]);
    SameFirstStep(p, q, ["filesystem", "fsType"]);
    SameFirstStep(p, q, ["emulated"]);
    SameFirstStep(p, q, ["library", "commit"]);
  }

  lemma FieldsFromTheFront(p: Option<Json>, show: Json -> string)
    ensures HostParts(p, show) == [] + [NameAt(p, ["os"]), NameAt(p, ["arch"])] + LaterFields(p, show)
  {
  }

  lemma TextMeets(x: string, y: string, z: string)
    ensures (x + [NUL] + y) + [NUL] + z == x + [NUL] + (y + [NUL] + z)
  {
  }

  /** Two provenances whose hosts differ, a NUL having moved the end of the one
      field into the next, and one text for both. */
  lemma NulMovesAField(p: Json, q: Json, x: string, y: string, z: string, show: Json -> string)
    requires AgreeOffHost(p, q)
    requires NameAt(Some(p), ["os"]) == x + [NUL] + y && NameAt(Some(p), ["arch"]) == z
    requires NameAt(Some(q), ["os"]) == x && NameAt(Some(q), ["arch"]) == y + [NUL] + z
    ensures HostParts(Some(p), show) != HostParts(Some(q), show)
    ensures Separated(HostParts(Some(p), show)) == Separated(HostParts(Some(q), show))
  {
    SameLaterFields(p, q, show);
    FieldsFromTheFront(Some(p), show);
    FieldsFromTheFront(Some(q), show);
    TextMeets(x, y, z);
    SameJoinSamePlace([], x + [NUL] + y, z, x, y + [NUL] + z, LaterFields(Some(p), show));
    assert HostParts(Some(p), show)[0] == x + [NUL] + y && HostParts(Some(q), show)[0] == x;
  }

  lemma SameTextSameId(a: Json, b: Json, hash: string -> string, show: Json -> string)
    requires Get(a, "startedAt") == Get(b, "startedAt")
    requires Under(Get(a, "provenance"), ["library", "commit"]) == Under(Get(b, "provenance"), ["library", "commit"])
    requires Separated(HostParts(Get(a, "provenance"), show)) == Separated(HostParts(Get(b, "provenance"), show))
    ensures RunId(a, hash, show) == RunId(b, hash, show)
  {
  }

  lemma NamedAt(p: Json, key: string, s: string)
    requires Get(p, key) == Some(Str(s)) && IsTrimmed(s)
    ensures NameAt(Some(p), [key]) == s && Label(Under(Some(p), [key])) == Some(s)
  {
    assert [key][1..] == [];
    assert Under(Some(p), [key]) == Some(Str(s));
    assert Trim(s) == s;
  }

  lemma LookupOfPut(ms: seq<Entry<Json>>, key: string, v: Json, other: string)
    requires DistinctKeys(ms)
    ensures Lookup(Put(ms, key, v), other) == if other == key then Some(v) else Lookup(ms, other)
  {
    PutKeepsDistinct(ms, key, v);
    if other == key {
      LookupIsMembership(Put(ms, key, v), key, v);
    } else {
      SameEntriesSameLookup(Put(ms, key, v), ms, other);
    }
  }

  /** The provenance with these two names in it. */
  function ProvenanceOn(p: Json, os: string, arch: string): Json {
    Obj(Put(Put(MembersOf(p), "os", Str(os)), "arch", Str(arch)))
  }

  function On(doc: Json, os: string, arch: string): Json {
    Obj(Put(MembersOf(doc), "provenance", ProvenanceOn(Block(doc, "provenance"), os, arch)))
  }

  lemma ProvenanceHasHost(p: Json, os: string, arch: string)
    requires p.Obj? && WellFormed(p)
    ensures WellFormed(ProvenanceOn(p, os, arch)) && AgreeOffHost(p, ProvenanceOn(p, os, arch))
    ensures Get(ProvenanceOn(p, os, arch), "os") == Some(Str(os)) && Get(ProvenanceOn(p, os, arch), "arch") == Some(Str(arch))
  {
    var once := Put(p.members, "os", Str(os));
    PutIsWellFormed(p.members, "os", Str(os));
    PutIsWellFormed(once, "arch", Str(arch));
    forall key ensures Lookup(Put(once, "arch", Str(arch)), key) ==
        if key == "arch" then Some(Str(arch)) else if key == "os" then Some(Str(os)) else Lookup(p.members, key) {
      LookupOfPut(p.members, "os", Str(os), key);
      LookupOfPut(once, "arch", Str(arch), key);
    }
  }

  lemma DocumentHasHost(doc: Json, p: Json, os: string, arch: string)
    requires WellFormed(doc) && Get(doc, "provenance") == Some(p) && p.Obj?
    ensures WellFormed(p) && WellFormed(On(doc, os, arch))
    ensures Get(On(doc, os, arch), "provenance") == Some(ProvenanceOn(p, os, arch))
    ensures forall key :: key != "provenance" ==> Get(On(doc, os, arch), key) == Get(doc, key)
  {
    ProvenanceHasHost(p, os, arch);
    PutIsWellFormed(doc.members, "provenance", ProvenanceOn(p, os, arch));
    forall key ensures Get(On(doc, os, arch), key) ==
        if key == "provenance" then Some(ProvenanceOn(p, os, arch)) else Lookup(doc.members, key) {
      LookupOfPut(doc.members, "provenance", ProvenanceOn(p, os, arch), key);
    }
  }

  /** Claims from provenances that agree off the host. */
  ghost predicate ClaimsAgree(c: Claim, d: Claim, p: Json, q: Json) {
    c.provenance == Some(p) && d == c.(provenance := Some(q)) && AgreeOffHost(p, q)
  }

  lemma TreesAndBuildAgree(c: Claim, d: Claim, p: Json, q: Json)
    requires ClaimsAgree(c, d, p, q)
    ensures NamesTrees(c) == NamesTrees(d) && IsReleaseBuild(c) == IsReleaseBuild(d)
  {
    SameFirstStep(p, q, ["dirty"]);
    SameFirstStep(p, q, ["library", "dirty"]);
    SameFirstStep(p, q, ["commit"]);
    SameFirstStep(p, q, ["library", "commit"]);
    SameFirstStep(p, q, ["allowDirty"]);
    SameFirstStep(p, q, ["node", "rustflags"]);
    SameFirstStep(p, q, ["node", "debugAssertions"]);
    SameFirstStep(p, q, ["node", "buildProfile"]);
  }

  lemma RestAgrees(c: Claim, d: Claim, p: Json, q: Json)
    requires ClaimsAgree(c, d, p, q)
    ensures NotEmulated(c) == NotEmulated(d) && NamesFilesystem(c) == NamesFilesystem(d) && IsResolved(c) == IsResolved(d)
  {
    SameFirstStep(p, q, ["emulated"]);
    SameFirstStep(p, q, ["filesystem", "fsType"]);
    SameFirstStep(p, q, ["filesystem", "scratchDir"]);
    SameFirstStep(p, q, ["filesystem", "declaredTmpfs"]);
    SameFirstStep(p, q, ["invocation"]);
  }

  lemma HostIsNamed(c: Claim, d: Claim, p: Json, q: Json)
    requires ClaimsAgree(c, d, p, q) && NamesHost(c)
    requires Label(Under(Some(q), ["os"])).Some? && Label(Under(Some(q), ["arch"])).Some?
    ensures NamesHost(d)
  {
    SameFirstStep(p, q, ["cpuModel"]);
  }

  /** Moved to another named host, a document is admitted when it was. */
  lemma AdmittedElsewhere(doc: Json, a: Json, p: Json, q: Json, os: string, arch: string, walk: string -> Option<nat>)
    requires ClaimsAgree(ClaimOf(doc), ClaimOf(a), p, q) && NamesHost(ClaimOf(doc))
    requires Get(q, "os") == Some(Str(os)) && Get(q, "arch") == Some(Str(arch)) && IsTrimmed(os) && IsTrimmed(arch)
    ensures Admissible(a, walk) == Admissible(doc, walk)
  {
    var c, d := ClaimOf(doc), ClaimOf(a);
    NamedAt(q, "os", os);
    NamedAt(q, "arch", arch);
    TreesAndBuildAgree(c, d, p, q);
    RestAgrees(c, d, p, q);
    HostIsNamed(c, d, p, q);
  }

  lemma NamedProvenanceIsObject(c: Claim)
    requires NamesHost(c)
    ensures c.provenance.Some? && c.provenance.value.Obj?
  {
  }

  lemma AgreeElsewhere(p: Json, q: Json, r: Json)
    requires AgreeOffHost(p, q) && AgreeOffHost(p, r)
    ensures AgreeOffHost(q, r)
  {
    forall key | key != "os" && key != "arch" ensures Get(q, key) == Get(r, key) { assert Get(p, key) == Get(q, key); }
  }

  lemma StillTrimmed(x: string, y: string)
    requires IsTrimmed(x) && IsTrimmed(y)
    ensures IsTrimmed(x + [NUL] + y)
  {
  }

  /** Two hosts of one text, and the commit they share with a third. */
  lemma TwoHosts(p: Json, q: Json, r: Json, x: string, y: string, z: string, show: Json -> string)
    requires AgreeOffHost(p, q) && AgreeOffHost(p, r)
    requires NameAt(Some(q), ["os"]) == x + [NUL] + y && NameAt(Some(q), ["arch"]) == z
    requires NameAt(Some(r), ["os"]) == x && NameAt(Some(r), ["arch"]) == y + [NUL] + z
    ensures HostParts(Some(q), show) != HostParts(Some(r), show)
    ensures Separated(HostParts(Some(q), show)) == Separated(HostParts(Some(r), show))
    ensures Under(Some(q), ["library", "commit"]) == Under(Some(r), ["library", "commit"]) == Under(Some(p), ["library", "commit"])
  {
    AgreeElsewhere(p, q, r);
    NulMovesAField(q, r, x, y, z, show);
    SameLaterFields(p, q, show);
    SameLaterFields(p, r, show);
  }

  /** A document with the start and the commit of one that has an id has one. */
  lemma StillHasId(doc: Json, a: Json, hash: string -> string, show: Json -> string)
    requires RunId(doc, hash, show).Success? && Get(a, "startedAt") == Get(doc, "startedAt")
    requires Under(Get(a, "provenance"), ["library", "commit"]) == Under(Get(doc, "provenance"), ["library", "commit"])
    ensures RunId(a, hash, show).Success?
  {
  }

  lemma HostsOfOneId(doc: Json, a: Json, b: Json, p: Json, q: Json, r: Json, x: string, y: string, z: string, hash: string -> string, show: Json -> string)
    requires Get(doc, "provenance") == Some(p) && Get(a, "provenance") == Some(q) && Get(b, "provenance") == Some(r)
    requires Get(a, "startedAt") == Get(b, "startedAt") == Get(doc, "startedAt") && RunId(doc, hash, show).Success?
    requires AgreeOffHost(p, q) && AgreeOffHost(p, r)
    requires NameAt(Some(q), ["os"]) == x + [NUL] + y && NameAt(Some(q), ["arch"]) == z
    requires NameAt(Some(r), ["os"]) == x && NameAt(Some(r), ["arch"]) == y + [NUL] + z
    ensures HostParts(Get(a, "provenance"), show) != HostParts(Get(b, "provenance"), show)
    ensures RunId(a, hash, show).Success? && RunId(a, hash, show) == RunId(b, hash, show)
  {
    TwoHosts(p, q, r, x, y, z, show);
    StillHasId(doc, a, hash, show);
    SameTextSameId(a, b, hash, show);
  }

  /** The document as a producer on this other host would have written it: its
      provenance differs in the two names, and nothing else does. */
  ghost predicate IsElsewhere(doc: Json, a: Json, p: Json, q: Json, os: string, arch: string) {
    WellFormed(a) && Get(doc, "provenance") == Some(p) && Get(a, "provenance") == Some(q) && AgreeOffHost(p, q) &&
    (forall key :: key != "provenance" ==> Get(a, key) == Get(doc, key)) &&
    Get(q, "os") == Some(Str(os)) && Get(q, "arch") == Some(Str(arch))
  }

  lemma Elsewhere(doc: Json, p: Json, os: string, arch: string) returns (a: Json, q: Json)
    requires WellFormed(doc) && Get(doc, "provenance") == Some(p) && p.Obj?
    ensures IsElsewhere(doc, a, p, q, os, arch)
  {
    DocumentHasHost(doc, p, os, arch);
    ProvenanceHasHost(p, os, arch);
    a, q := On(doc, os, arch), ProvenanceOn(p, os, arch);
  }

  lemma AdmittedByArchive(w: World, doc: Json, a: Json)
    requires Admissible(a, w.walk) == Admissible(doc, w.walk) && Undisputed(w, doc) && Get(a, "integrity") == Get(doc, "integrity")
    ensures Admitted(w, a) == Admitted(w, doc)
  {
  }

  lemma ElsewhereIsAdmitted(w: World, doc: Json, a: Json, p: Json, q: Json, os: string, arch: string)
    requires IsElsewhere(doc, a, p, q, os, arch) && IsTrimmed(os) && IsTrimmed(arch)
    requires NamesHost(ClaimOf(doc)) && Undisputed(w, doc)
    ensures Admitted(w, a) == Admitted(w, doc)
  {
    AdmittedElsewhere(doc, a, p, q, os, arch, w.walk);
    AdmittedByArchive(w, doc, a);
  }

  lemma ElsewhereIsNamed(doc: Json, a: Json, p: Json, q: Json, os: string, arch: string)
    requires IsElsewhere(doc, a, p, q, os, arch) && IsTrimmed(os) && IsTrimmed(arch)
    ensures NameAt(Some(q), ["os"]) == os && NameAt(Some(q), ["arch"]) == arch
  {
    NamedAt(q, "os", os);
    NamedAt(q, "arch", arch);
  }

  lemma OneIdElsewhere(doc: Json, a: Json, b: Json, p: Json, q: Json, r: Json, x: string, y: string, z: string,
                       hash: string -> string, show: Json -> string)
    requires IsElsewhere(doc, a, p, q, x + [NUL] + y, z) && IsElsewhere(doc, b, p, r, x, y + [NUL] + z)
    requires IsTrimmed(x) && IsTrimmed(y) && IsTrimmed(z) && RunId(doc, hash, show).Success?
    ensures HostParts(Some(q), show) != HostParts(Some(r), show)
    ensures RunId(a, hash, show).Success? && RunId(a, hash, show) == RunId(b, hash, show)
  {
    StillTrimmed(x, y);
    StillTrimmed(y, z);
    ElsewhereIsNamed(doc, a, p, q, x + [NUL] + y, z);
    ElsewhereIsNamed(doc, b, p, r, x, y + [NUL] + z);
    HostsOfOneId(doc, a, b, p, q, r, x, y, z, hash, show);
  }

  lemma AdmittedNamesHost(w: World, doc: Json)
    requires Admitted(w, doc)
    ensures NamesHost(ClaimOf(doc))
  {
  }

  /** For every document the archive admits and any three names there are two
      hosts it could have come from that the archive does not tell apart: the
      documents from both are admitted, under one id. */
  lemma NulRunsHostsTogether(w: World, doc: Json, x: string, y: string, z: string) returns (a: Json, b: Json, p: Json, q: Json, r: Json)
    requires WellFormed(doc) && Admitted(w, doc) && Undisputed(w, doc) && IdOf(w, doc).Success?
    requires IsTrimmed(x) && IsTrimmed(y) && IsTrimmed(z)
    ensures IsElsewhere(doc, a, p, q, x + [NUL] + y, z) && IsElsewhere(doc, b, p, r, x, y + [NUL] + z)
    ensures Admitted(w, a) && Admitted(w, b)
    ensures HostParts(Some(q), w.show) != HostParts(Some(r), w.show)
    ensures IdOf(w, a).Success? && IdOf(w, a) == IdOf(w, b)
  {
    AdmittedNamesHost(w, doc);
    NamedProvenanceIsObject(ClaimOf(doc));
    p := Get(doc, "provenance").value;
    StillTrimmed(x, y);
    StillTrimmed(y, z);
    a, q := Elsewhere(doc, p, x + [NUL] + y, z);
    b, r := Elsewhere(doc, p, x, y + [NUL] + z);
    ElsewhereIsAdmitted(w, doc, a, p, q, x + [NUL] + y, z);
    ElsewhereIsAdmitted(w, doc, b, p, r, x, y + [NUL] + z);
    OneIdElsewhere(doc, a, b, p, q, r, x, y, z, w.hash, w.show);
  }

  // ---- a document that is admitted ----------------------------------------

  lemma OneStep(p: Json, k: string, v: Json)
    requires Get(p, k) == Some(v)
    ensures Under(Some(p), [k]) == Some(v)
  {
    assert [k][1..] == [];
  }

  lemma TwoSteps(p: Json, k: string, v: Json, l: string)
    requires Get(p, k) == Some(v)
    ensures Under(Some(p), [k, l]) == Get(v, l)
  {
    assert [k, l][1..] == [l] && [l][1..] == [];
    assert Under(Some(p), [k, l]) == Under(Some(v), [l]) == Under(Get(v, l), []);
  }

  lemma LabelOf(s: string)
    requires IsTrimmed(s)
    ensures Label(Some(Str(s))) == Some(s)
  {
    assert Trim(s) == s;
  }

  lemma KeyAt(ms: seq<Entry<Json>>, i: nat, key: string, v: Json)
    requires DistinctKeys(ms) && i < |ms| && ms[i] == Entry(key, v)
    ensures Get(Obj(ms), key) == Some(v)
  {
    LookupAt(ms, i);
  }

  lemma NoSuchKey(v: Json, key: string)
    requires v.Obj? && forall i :: 0 <= i < |v.members| ==> v.members[i].key != key
    ensures Get(v, key) == None
  {
  }

  lemma CompleteNamesHost(c: Claim, p: Json)
    requires c.provenance == Some(p) && Get(p, "emulated") == Some(Bool(false))
    requires Get(p, "os") == Get(p, "arch") == Get(p, "cpuModel") == Some(Str("x"))
    ensures NamesHost(c) && NotEmulated(c)
  {
    OneStep(p, "os", Str("x"));
    OneStep(p, "arch", Str("x"));
    OneStep(p, "cpuModel", Str("x"));
    OneStep(p, "emulated", Bool(false));
    LabelOf("x");
  }

  lemma CompleteNamesTrees(c: Claim, p: Json, library: Json)
    requires c.provenance == Some(p) && Get(p, "commit") == Some(Str("x")) && Get(p, "dirty") == Some(Bool(false))
    requires Get(p, "library") == Some(library) && Get(library, "commit") == Some(Str("x")) && Get(library, "dirty") == Some(Bool(false))
    ensures NamesTrees(c)
  {
    OneStep(p, "commit", Str("x"));
    OneStep(p, "dirty", Bool(false));
    TwoSteps(p, "library", library, "commit");
    TwoSteps(p, "library", library, "dirty");
    LabelOf("x");
  }

  lemma CompleteIsRelease(c: Claim, p: Json, node: Json)
    requires c.provenance == Some(p) && Get(p, "node") == Some(node) && Get(node, "rustflags") == None
    requires Get(node, "debugAssertions") == Some(Bool(false)) && Get(node, "buildProfile") == Some(Str("release"))
    ensures IsReleaseBuild(c)
  {
    TwoSteps(p, "node", node, "debugAssertions");
    TwoSteps(p, "node", node, "buildProfile");
    TwoSteps(p, "node", node, "rustflags");
    LabelOf("release");
  }

  lemma CompleteNamesFilesystem(c: Claim, p: Json, filesystem: Json)
    requires c.provenance == Some(p) && Get(p, "filesystem") == Some(filesystem)
    requires Get(filesystem, "fsType") == Get(filesystem, "scratchDir") == Some(Str("x"))
    ensures NamesFilesystem(c)
  {
    TwoSteps(p, "filesystem", filesystem, "fsType");
    TwoSteps(p, "filesystem", filesystem, "scratchDir");
    LabelOf("x");
    assert |"x"| != |"tmpfs"|;
  }

  lemma CompleteIsResolved(c: Claim, p: Json, invocation: Json, resolved: Json, measurement: Json)
    requires c.provenance == Some(p) && Get(p, "invocation") == Some(invocation) && Get(invocation, "resolved") == Some(resolved)
    requires Get(invocation, "argv") == Get(invocation, "command") == Get(invocation, "cwd") == Some(Str("x"))
    requires Get(resolved, "scenarios") == Some(Arr([Str("x")])) && resolved.Obj?
    requires c.measurement == Some(measurement) && Get(resolved, "reps") == Get(measurement, "reps") == Some(Num(PosInt(1)))
    requires forall i :: 0 <= i < |ItemsOf(c.cells)| ==> !FellShort(ItemsOf(c.cells)[i])
    ensures IsResolved(c)
  {
    OneStep(p, "invocation", invocation);
    OneStep(invocation, "argv", Str("x"));
    OneStep(invocation, "command", Str("x"));
    OneStep(invocation, "cwd", Str("x"));
    OneStep(invocation, "resolved", resolved);
    TwoSteps(invocation, "resolved", resolved, "scenarios");
    TwoSteps(invocation, "resolved", resolved, "reps");
    OneStep(measurement, "reps", Num(PosInt(1)));
    assert |"x"| != |"all"|;
  }

  lemma PairOf(k: string, v: Json, l: string, u: Json) returns (o: Json)
    requires k != l && WellFormed(v) && WellFormed(u)
    ensures o.Obj? && WellFormed(o) && Get(o, k) == Some(v) && Get(o, l) == Some(u)
    ensures forall key :: key != k && key != l ==> Get(o, key) == None
  {
    var ms := [Entry(k, v), Entry(l, u)];
    o := Obj(ms);
    KeyAt(ms, 0, k, v);
    KeyAt(ms, 1, l, u);
    forall key | key != k && key != l ensures Get(o, key) == None { NoSuchKey(o, key); }
  }

  lemma SomeInvocation(resolved: Json) returns (o: Json)
    requires WellFormed(resolved)
    ensures WellFormed(o) && Get(o, "resolved") == Some(resolved)
    ensures Get(o, "argv") == Get(o, "command") == Get(o, "cwd") == Some(Str("x"))
  {
    var ms := [Entry("cwd", Str("x")), Entry("argv", Str("x")), Entry("command", Str("x")), Entry("resolved", resolved)];
    o := Obj(ms);
    assert |ms[0].key| == 3 && |ms[1].key| == 4 && |ms[2].key| == 7 && |ms[3].key| == 8;
    KeyAt(ms, 0, "cwd", Str("x"));
    KeyAt(ms, 1, "argv", Str("x"));
    KeyAt(ms, 2, "command", Str("x"));
    KeyAt(ms, 3, "resolved", resolved);
  }

  const HOST_KEYS := ["os", "arch", "node", "dirty", "commit", "library", "cpuModel", "emulated", "filesystem", "invocation"]

  function Rank(key: string): nat
    requires key != ""
  {
    1000 * |key| + key[0] as int
  }

  lemma HostKeysDiffer()
    ensures forall i, j :: 0 <= i < j < |HOST_KEYS| ==> HOST_KEYS[i] != HOST_KEYS[j]
  {
    var ks := HOST_KEYS;
    assert Rank(ks[0]) < Rank(ks[1]) < Rank(ks[2]) < Rank(ks[3]) < Rank(ks[4]);
    assert Rank(ks[4]) < Rank(ks[5]) < Rank(ks[6]) < Rank(ks[7]) < Rank(ks[8]) < Rank(ks[9]);
    assert forall i :: 0 <= i < |ks| ==> ks[i] != "";
    assert forall i, j :: 0 <= i < j < |ks| ==> Rank(ks[i]) < Rank(ks[j]);
  }

  function Members(keys: seq<string>, values: seq<Json>): (ms: seq<Entry<Json>>)
    requires |keys| == |values|
    ensures |ms| == |keys| && forall i :: 0 <= i < |ms| ==> ms[i] == Entry(keys[i], values[i])
  {
    seq(|keys|, i requires 0 <= i < |keys| => Entry(keys[i], values[i]))
  }

  lemma SomeMembers(values: seq<Json>) returns (o: Json)
    requires |values| == |HOST_KEYS| && forall i :: 0 <= i < |values| ==> WellFormed(values[i])
    ensures WellFormed(o) && forall i :: 0 <= i < |HOST_KEYS| ==> Get(o, HOST_KEYS[i]) == Some(values[i])
  {
    HostKeysDiffer();
    var ms := Members(HOST_KEYS, values);
    o := Obj(ms);
    forall i | 0 <= i < |HOST_KEYS| ensures Get(o, HOST_KEYS[i]) == Some(values[i]) { KeyAt(ms, i, HOST_KEYS[i], values[i]); }
  }

  lemma SomeProvenance(node: Json, library: Json, filesystem: Json, invocation: Json) returns (p: Json)
    requires WellFormed(node) && WellFormed(library) && WellFormed(filesystem) && WellFormed(invocation)
    ensures WellFormed(p) && Get(p, "os") == Get(p, "arch") == Get(p, "cpuModel") == Get(p, "commit") == Some(Str("x"))
    ensures Get(p, "dirty") == Get(p, "emulated") == Some(Bool(false)) && Get(p, "node") == Some(node) && Get(p, "library") == Some(library)
    ensures Get(p, "filesystem") == Some(filesystem) && Get(p, "invocation") == Some(invocation)
  {
    var vs := [Str("x"), Str("x"), node, Bool(false), Str("x"), library, Str("x"), Bool(false), filesystem, invocation];
    p := SomeMembers(vs);
    assert Get(p, HOST_KEYS[0]) == Some(vs[0]) && Get(p, HOST_KEYS[1]) == Some(vs[1]) && Get(p, HOST_KEYS[2]) == Some(vs[2]);
    assert Get(p, HOST_KEYS[3]) == Some(vs[3]) && Get(p, HOST_KEYS[4]) == Some(vs[4]) && Get(p, HOST_KEYS[5]) == Some(vs[5]);
    assert Get(p, HOST_KEYS[6]) == Some(vs[6]) && Get(p, HOST_KEYS[7]) == Some(vs[7]) && Get(p, HOST_KEYS[8]) == Some(vs[8]);
    assert Get(p, HOST_KEYS[9]) == Some(vs[9]);
  }

  lemma SomeDocument(p: Json, cells: Json, measurement: Json) returns (d: Json)
    requires WellFormed(p) && WellFormed(cells) && WellFormed(measurement)
    ensures WellFormed(d) && Get(d, "provenance") == Some(p) && Get(d, "startedAt") == Some(Str("x"))
    ensures Get(d, "cells") == Some(cells) && Get(d, "measurement") == Some(measurement)
    ensures Get(d, "profile") == None && Get(d, "integrity") == None
  {
    var ms := [Entry("cells", cells), Entry("startedAt", Str("x")), Entry("provenance", p), Entry("measurement", measurement)];
    d := Obj(ms);
    assert |"profile"| == 7 && |"integrity"| == 9 && "integrity"[0] != "startedAt"[0];
    assert |ms[0].key| == 5 && |ms[1].key| == 9 && |ms[2].key| == 10 && |ms[3].key| == 11;
    KeyAt(ms, 0, "cells", cells);
    KeyAt(ms, 1, "startedAt", Str("x"));
    KeyAt(ms, 2, "provenance", p);
    KeyAt(ms, 3, "measurement", measurement);
    NoSuchKey(d, "profile");
    NoSuchKey(d, "integrity");
  }

  lemma CellIsAnswered(c: Claim, cell: Json, walk: string -> Option<nat>)
    requires c.cells == Some(Arr([cell])) && c.profile == None
    requires Get(cell, "reason") == Some(Str("x")) && Get(cell, "outcome") == None && Get(cell, "reps") == None
    ensures CellsAreAnswered(c) && WalkAgrees(c, walk) && forall i :: 0 <= i < |ItemsOf(c.cells)| ==> !FellShort(ItemsOf(c.cells)[i])
  {
    LabelOf("x");
    assert ItemsOf(c.cells) == [cell];
  }

  /** The parts of a document that answers every rule. */
  datatype Parts = Parts(p: Json, node: Json, library: Json, filesystem: Json, invocation: Json, resolved: Json, cell: Json, measurement: Json)

  ghost predicate HasParts(d: Json, m: Parts) {
    Get(d, "provenance") == Some(m.p) && Get(d, "startedAt") == Some(Str("x")) && Get(d, "cells") == Some(Arr([m.cell])) &&
    Get(d, "measurement") == Some(m.measurement) && Get(d, "profile") == None && Get(d, "integrity") == None
  }

  ghost predicate HoldsItsParts(m: Parts) {
    Get(m.p, "os") == Get(m.p, "arch") == Get(m.p, "cpuModel") == Get(m.p, "commit") == Some(Str("x")) &&
    Get(m.p, "dirty") == Get(m.p, "emulated") == Some(Bool(false)) && Get(m.p, "node") == Some(m.node) &&
    Get(m.p, "library") == Some(m.library) && Get(m.p, "filesystem") == Some(m.filesystem) && Get(m.p, "invocation") == Some(m.invocation)
  }

  ghost predicate PartsAnswer(m: Parts) {
    Get(m.library, "commit") == Some(Str("x")) && Get(m.library, "dirty") == Some(Bool(false)) &&
    Get(m.node, "rustflags") == None && Get(m.node, "debugAssertions") == Some(Bool(false)) &&
    Get(m.node, "buildProfile") == Some(Str("release")) &&
    Get(m.filesystem, "fsType") == Get(m.filesystem, "scratchDir") == Some(Str("x")) &&
    Get(m.invocation, "resolved") == Some(m.resolved) && m.resolved.Obj? &&
    Get(m.invocation, "argv") == Get(m.invocation, "command") == Get(m.invocation, "cwd") == Some(Str("x")) &&
    Get(m.resolved, "scenarios") == Some(Arr([Str("x")])) && Get(m.resolved, "reps") == Get(m.measurement, "reps") == Some(Num(PosInt(1))) &&
    Get(m.cell, "reason") == Some(Str("x")) && Get(m.cell, "outcome") == None && Get(m.cell, "reps") == None
  }

  ghost predicate AreWellFormed(m: Parts) {
    WellFormed(m.node) && WellFormed(m.library) && WellFormed(m.filesystem) && WellFormed(m.invocation) &&
    WellFormed(m.cell) && WellFormed(m.measurement)
  }

  lemma SomeBuild() returns (node: Json)
    ensures WellFormed(node) && Get(node, "rustflags") == None
    ensures Get(node, "debugAssertions") == Some(Bool(false)) && Get(node, "buildProfile") == Some(Str("release"))
  {
    assert |"rustflags"| == 9 && |"debugAssertions"| == 15 && |"buildProfile"| == 12;
    node := PairOf("debugAssertions", Bool(false), "buildProfile", Str("release"));
  }

  lemma SomeCell() returns (cell: Json)
    ensures WellFormed(cell) && Get(cell, "reason") == Some(Str("x")) && Get(cell, "outcome") == None && Get(cell, "reps") == None
  {
    assert |"reason"| == 6 && |"outcome"| == 7 && |"reps"| == 4;
    cell := PairOf("reason", Str("x"), "", Null);
  }

  lemma SomeResolution() returns (invocation: Json, resolved: Json)
    ensures WellFormed(invocation) && Get(invocation, "resolved") == Some(resolved) && resolved.Obj?
    ensures Get(invocation, "argv") == Get(invocation, "command") == Get(invocation, "cwd") == Some(Str("x"))
    ensures Get(resolved, "scenarios") == Some(Arr([Str("x")])) && Get(resolved, "reps") == Some(Num(PosInt(1)))
  {
    resolved := PairOf("scenarios", Arr([Str("x")]), "reps", Num(PosInt(1)));
    invocation := SomeInvocation(resolved);
  }

  lemma SomeParts() returns (m: Parts)
    ensures PartsAnswer(m) && AreWellFormed(m)
  {
    var node := SomeBuild();
    var library := PairOf("commit", Str("x"), "dirty", Bool(false));
    var filesystem := PairOf("fsType", Str("x"), "scratchDir", Str("x"));
    var invocation, resolved := SomeResolution();
    var cell := SomeCell();
    var measurement := PairOf("reps", Num(PosInt(1)), "", Null);
    m := Parts(Null, node, library, filesystem, invocation, resolved, cell, measurement);
  }

  lemma PartsAreAdmitted(w: World, d: Json, m: Parts)
    requires HasParts(d, m) && HoldsItsParts(m) && PartsAnswer(m)
    ensures Admitted(w, d)
  {
    var c := ClaimOf(d);
    CellIsAnswered(c, m.cell, w.walk);
    CompleteNamesHost(c, m.p);
    CompleteNamesTrees(c, m.p, m.library);
    CompleteIsRelease(c, m.p, m.node);
    CompleteNamesFilesystem(c, m.p, m.filesystem);
    CompleteIsResolved(c, m.p, m.invocation, m.resolved, m.measurement);
  }

  lemma StartAndCommitMakeAnId(doc: Json, p: Json, library: Json, hash: string -> string, show: Json -> string)
    requires Get(doc, "startedAt") == Some(Str("x")) && Get(doc, "provenance") == Some(p)
    requires Get(p, "library") == Some(library) && Get(library, "commit") == Some(Str("x"))
    ensures RunId(doc, hash, show).Success?
  {
    TwoSteps(p, "library", library, "commit");
    LabelOf("x");
  }

  lemma PartsSuffice(w: World, d: Json, m: Parts)
    requires HasParts(d, m) && HoldsItsParts(m) && PartsAnswer(m)
    ensures Admitted(w, d) && Undisputed(w, d) && IdOf(w, d).Success?
  {
    PartsAreAdmitted(w, d, m);
    StartAndCommitMakeAnId(d, m.p, m.library, w.hash, w.show);
  }

  lemma ProvenanceOf(m: Parts) returns (p: Json)
    requires AreWellFormed(m)
    ensures WellFormed(p) && HoldsItsParts(m.(p := p))
  {
    p := SomeProvenance(m.node, m.library, m.filesystem, m.invocation);
  }

  lemma DocumentOf(m: Parts) returns (d: Json)
    requires AreWellFormed(m) && WellFormed(m.p)
    ensures WellFormed(d) && HasParts(d, m)
  {
    d := SomeDocument(m.p, Arr([m.cell]), m.measurement);
  }

  lemma StillAnswer(m: Parts, p: Json)
    requires PartsAnswer(m)
    ensures PartsAnswer(m.(p := p)) && (AreWellFormed(m) ==> AreWellFormed(m.(p := p)))
  {
  }

  /** There is a document the archive admits and has an id for, so there are two
      it does not tell apart. */
  lemma SomeDocumentIsAdmitted(w: World)
    ensures exists d :: WellFormed(d) && Admitted(w, d) && Undisputed(w, d) && IdOf(w, d).Success?
  {
    var m := SomeParts();
    var p := ProvenanceOf(m);
    StillAnswer(m, p);
    var d := DocumentOf(m.(p := p));
    PartsSuffice(w, d, m.(p := p));
  }
}
