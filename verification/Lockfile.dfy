/** The lockfile scanner. */
module Lockfile {
  // Packages out of the lock text, a key for each, and of the packages that
  // share a key the first to keep its row.

  import opened Words
  import opened Json
  import opened Canonical
  import opened Reader
  import Spaces = Admission

  datatype Package = Package(name: string, version: string, source: Option<string>, checksum: Option<string>)

  // ---- one line -----------------------------------------------------------

  function TrimStart(s: string): string {
    if |s| > 0 && Spaces.IsSpace(s[0]) then TrimStart(s[1..]) else s
  }

  function TrimEnd(s: string): string {
    if |s| > 0 && Spaces.IsSpace(s[|s| - 1]) then TrimEnd(s[..|s| - 1]) else s
  }

  function Trim(s: string): string {
    TrimEnd(TrimStart(s))
  }

  /** Without the quotes at either end. */
  function Unquote(s: string): string {
    if |s| > 0 && s[0] == '"' then Unquote(s[1..])
    else if |s| > 0 && s[|s| - 1] == '"' then Unquote(s[..|s| - 1])
    else s
  }

  function Field(line: string, key: string): Option<string> {
    if !(key <= line) then None
    else
      var rest := TrimStart(line[|key|..]);
      if |rest| == 0 || rest[0] != '=' then None else Some(Unquote(Trim(rest[1..])))
  }

  const HEADER := "[[package]]"

  // ---- the scan -----------------------------------------------------------

  datatype Scan = Scan(packages: seq<Package>, current: Option<Package>)

  function Flushed(s: Scan): seq<Package> {
    if s.current.Some? then s.packages + [s.current.value] else s.packages
  }

  function WithField(pkg: Package, line: string): Package {
    if Field(line, "name").Some? then pkg.(name := Field(line, "name").value)
    else if Field(line, "version").Some? then pkg.(version := Field(line, "version").value)
    else if Field(line, "source").Some? then pkg.(source := Some(Field(line, "source").value))
    else if Field(line, "checksum").Some? then pkg.(checksum := Some(Field(line, "checksum").value))
    else pkg
  }

  function ScanLine(s: Scan, raw: string): Scan {
    var line := Trim(raw);
    if line == HEADER then Scan(Flushed(s), Some(Package("", "", None, None)))
    else if |line| > 0 && line[0] == '[' then Scan(Flushed(s), None)
    else if s.current.None? then s
    else s.(current := Some(WithField(s.current.value, line)))
  }

  function ScanLines(s: Scan, lines: seq<string>): Scan
    decreases |lines|
  {
    if lines == [] then s else ScanLines(ScanLine(s, lines[0]), lines[1..])
  }

  lemma {:induction false} ScanSplits(s: Scan, a: seq<string>, b: seq<string>)
    ensures ScanLines(s, a + b) == ScanLines(ScanLines(s, a), b)
    decreases |a|
  {
    if a == [] {
      assert a + b == b;
    } else {
      assert (a + b)[0] == a[0] && (a + b)[1..] == a[1..] + b;
      ScanSplits(ScanLine(s, a[0]), a[1..], b);
    }
  }

  /** The packages of the lock text, in its order. */
  method Packages(lines: seq<string>) returns (packages: seq<Package>)
    ensures packages == Flushed(ScanLines(Scan([], None), lines))
  {
    packages := [];
    var current: Option<Package> := None;
    var i := 0;
    while i < |lines|
      invariant i <= |lines|
      invariant ScanLines(Scan(packages, current), lines[i..]) == ScanLines(Scan([], None), lines)
    {
      var line := Trim(lines[i]);
      assert lines[i..][0] == lines[i] && lines[i..][1..] == lines[i + 1..];
      if line == HEADER {
        if current.Some? { packages := packages + [current.value]; }
        current := Some(Package("", "", None, None));
      } else if |line| > 0 && line[0] == '[' {
        if current.Some? { packages := packages + [current.value]; }
        current := None;
      } else if current.Some? {
        current := Some(WithField(current.value, line));
      }
      i := i + 1;
    }
    assert lines[i..] == [];
    if current.Some? { packages := packages + [current.value]; }
  }

  // ---- lock text as it is written -----------------------------------------

  /** A value that may stand between quotes: it begins and ends with something
      other than a quote. */
  predicate IsPlain(v: string) {
    v != "" ==> v[0] != '"' && v[|v| - 1] != '"'
  }

  function Line(key: string, v: string): string {
    key + " = \"" + v + "\""
  }

  /** A line that is no header and sets no field: a blank, an entry of a
      dependency list, its closing bracket, a key nobody asks for. */
  predicate IsOther(raw: string) {
    var line := Trim(raw);
    (line == "" || line[0] != '[') &&
    Field(line, "name").None? && Field(line, "version").None? && Field(line, "source").None? && Field(line, "checksum").None?
  }

  function Optional(key: string, v: Option<string>): seq<string> {
    if v.Some? then [Line(key, v.value)] else []
  }

  /** One block of a lock file, with whatever else it says. */
  function BlockLines(pkg: Package, other: seq<string>): seq<string> {
    [HEADER, Line("name", pkg.name), Line("version", pkg.version)] + Optional("source", pkg.source) +
    Optional("checksum", pkg.checksum) + other
  }

  predicate IsWritable(pkg: Package) {
    IsPlain(pkg.name) && IsPlain(pkg.version) && (pkg.source.Some? ==> IsPlain(pkg.source.value)) &&
    (pkg.checksum.Some? ==> IsPlain(pkg.checksum.value))
  }

  function LockLines(pkgs: seq<Package>, others: seq<seq<string>>): seq<string>
    requires |others| == |pkgs|
  {
    if pkgs == [] then [] else BlockLines(pkgs[0], others[0]) + LockLines(pkgs[1..], others[1..])
  }

  lemma QuotedUnquotes(v: string)
    requires IsPlain(v)
    ensures Unquote("\"" + v + "\"") == v
  {
    var q := "\"" + v + "\"";
    assert q[0] == '"' && q[1..] == v + "\"";
    var r := v + "\"";
    if v == "" {
      assert Unquote(r) == Unquote(r[1..]) && r[1..] == "";
    } else {
      assert r[0] == v[0] && r[|r| - 1] == '"' && r[..|r| - 1] == v;
      assert Unquote(v) == v;
    }
  }

  lemma {:induction false} NothingToTrim(s: string)
    requires s != "" && !Spaces.IsSpace(s[0]) && !Spaces.IsSpace(s[|s| - 1])
    ensures Trim(s) == s && TrimStart(s) == s
  {
  }

  lemma LineReads(key: string, v: string)
    requires key != "" && !Spaces.IsSpace(key[0]) && IsPlain(v)
    ensures Trim(Line(key, v)) == Line(key, v) && Field(Line(key, v), key) == Some(v)
  {
    var line, tail := Line(key, v), " = \"" + v + "\"";
    assert line[0] == key[0] && line[|line| - 1] == '"';
    NothingToTrim(line);
    assert line[|key|..] == tail;
    var quoted := "\"" + v + "\"";
    assert tail == " " + ("= " + quoted);
    NothingToTrim("= " + quoted);
    SpaceIsTrimmed("= " + quoted);
    assert ("= " + quoted)[1..] == " " + quoted;
    NothingToTrim(quoted);
    SpaceIsTrimmed(quoted);
    QuotedUnquotes(v);
  }

  lemma SpaceIsTrimmed(s: string)
    ensures TrimStart(" " + s) == TrimStart(s)
  {
    assert (" " + s)[1..] == s;
  }

  lemma OtherKey(key: string, other: string, v: string)
    requires key != "" && other != "" && key[0] != other[0]
    ensures Field(Line(key, v), other).None?
  {
    assert Line(key, v)[0] == key[0];
  }

  lemma FieldSets(s: Scan, pkg: Package, key: string, v: string, after: Package)
    requires s.current == Some(pkg) && IsPlain(v)
    requires key in ["name", "version", "source", "checksum"]
    requires after == if key == "name" then pkg.(name := v) else if key == "version" then pkg.(version := v)
                      else if key == "source" then pkg.(source := Some(v)) else pkg.(checksum := Some(v))
    ensures ScanLine(s, Line(key, v)) == s.(current := Some(after))
  {
    LineReads(key, v);
    var line := Line(key, v);
    assert line[0] == key[0];
    if key != "name" { OtherKey(key, "name", v); }
    if key != "version" { OtherKey(key, "version", v); }
    if key != "source" { OtherKey(key, "source", v); }
    assert line != HEADER by { assert HEADER[0] == '['; }
  }

  predicate AllOther(other: seq<string>) {
    forall i :: 0 <= i < |other| ==> IsOther(other[i])
  }

  lemma {:induction false} OthersAreSkipped(s: Scan, other: seq<string>)
    requires s.current.Some? && AllOther(other)
    ensures ScanLines(s, other) == s
    decreases |other|
  {
    if other != [] {
      assert HEADER[0] == '[';
      assert ScanLine(s, other[0]) == s;
      OthersAreSkipped(s, other[1..]);
    }
  }

  lemma OptionalSets(s: Scan, pkg: Package, key: string, v: Option<string>, after: Package)
    requires s.current == Some(pkg) && key in ["source", "checksum"] && (v.Some? ==> IsPlain(v.value))
    requires after == if v.None? then pkg else if key == "source" then pkg.(source := v) else pkg.(checksum := v)
    ensures ScanLines(s, Optional(key, v)) == s.(current := Some(after))
  {
    if v.Some? {
      FieldSets(s, pkg, key, v.value, after);
      assert [Line(key, v.value)][1..] == [];
    }
  }

  lemma HeaderOpens(s: Scan)
    ensures ScanLine(s, HEADER) == Scan(Flushed(s), Some(Package("", "", None, None)))
  {
    NothingToTrim(HEADER);
  }

  /** A block scans to its package, whatever other lines it holds. */
  lemma BlockScans(s: Scan, pkg: Package, other: seq<string>)
    requires IsWritable(pkg) && AllOther(other)
    ensures ScanLines(s, BlockLines(pkg, other)) == Scan(Flushed(s), Some(pkg))
  {
    var s1 := Scan(Flushed(s), Some(Package("", "", None, None)));
    var s2 := s1.(current := Some(Package(pkg.name, "", None, None)));
    var s3 := s1.(current := Some(Package(pkg.name, pkg.version, None, None)));
    var s4 := s1.(current := Some(Package(pkg.name, pkg.version, pkg.source, None)));
    var head := [HEADER, Line("name", pkg.name), Line("version", pkg.version)];
    HeadScans(s, pkg);
    ScanSplits(s, head, Optional("source", pkg.source));
    ScanSplits(s, head + Optional("source", pkg.source), Optional("checksum", pkg.checksum));
    ScanSplits(s, head + Optional("source", pkg.source) + Optional("checksum", pkg.checksum), other);
    OptionalSets(s3, s3.current.value, "source", pkg.source, s4.current.value);
    OptionalSets(s4, s4.current.value, "checksum", pkg.checksum, pkg);
    OthersAreSkipped(s1.(current := Some(pkg)), other);
  }

  lemma HeadScans(s: Scan, pkg: Package)
    requires IsPlain(pkg.name) && IsPlain(pkg.version)
    ensures ScanLines(s, [HEADER, Line("name", pkg.name), Line("version", pkg.version)]) ==
            Scan(Flushed(s), Some(Package(pkg.name, pkg.version, None, None)))
  {
    var lines := [HEADER, Line("name", pkg.name), Line("version", pkg.version)];
    var s1 := Scan(Flushed(s), Some(Package("", "", None, None)));
    var s2 := s1.(current := Some(Package(pkg.name, "", None, None)));
    var s3 := s1.(current := Some(Package(pkg.name, pkg.version, None, None)));
    HeaderOpens(s);
    FieldSets(s1, s1.current.value, "name", pkg.name, s2.current.value);
    FieldSets(s2, s2.current.value, "version", pkg.version, s3.current.value);
    assert lines[1..][1..] == [lines[2]] && lines[1..][0] == lines[1] && [lines[2]][1..] == [];
    assert ScanLines(s1, lines[1..]) == ScanLines(s2, [lines[2]]);
    assert ScanLines(s2, [lines[2]]) == ScanLines(s3, []);
  }

  predicate AreBlocks(pkgs: seq<Package>, others: seq<seq<string>>) {
    |others| == |pkgs| && forall i :: 0 <= i < |pkgs| ==> IsWritable(pkgs[i]) && AllOther(others[i])
  }

  lemma {:induction false} LockScans(s: Scan, pkgs: seq<Package>, others: seq<seq<string>>)
    requires AreBlocks(pkgs, others)
    ensures Flushed(ScanLines(s, LockLines(pkgs, others))) == Flushed(s) + pkgs
    decreases |pkgs|
  {
    if pkgs != [] {
      ScanSplits(s, BlockLines(pkgs[0], others[0]), LockLines(pkgs[1..], others[1..]));
      BlockScans(s, pkgs[0], others[0]);
      LockScans(Scan(Flushed(s), Some(pkgs[0])), pkgs[1..], others[1..]);
      FrontMoves(Flushed(s), pkgs);
    }
  }

  lemma FrontMoves(a: seq<Package>, b: seq<Package>)
    requires b != []
    ensures (a + [b[0]]) + b[1..] == a + b
  {
  }

  /** Well-formed lock text scans to exactly its packages, in order. */
  lemma ScanLosesNothing(pkgs: seq<Package>, others: seq<seq<string>>)
    requires AreBlocks(pkgs, others)
    ensures Flushed(ScanLines(Scan([], None), LockLines(pkgs, others))) == pkgs
  {
    LockScans(Scan([], None), pkgs, others);
  }

  // ---- one row a package --------------------------------------------------

  function Count(pkgs: seq<Package>, name: string): nat {
    if pkgs == [] then 0 else Count(pkgs[1..], name) + (if pkgs[0].name == name then 1 else 0)
  }

  /** Bare when the name occurs once, with the version when it does not. */
  function KeyOf(pkgs: seq<Package>, pkg: Package): string {
    if Count(pkgs, pkg.name) > 1 then pkg.name + "@" + pkg.version else pkg.name
  }

  function Rows(pkgs: seq<Package>, all: seq<Package>): seq<Entry<Package>> {
    if pkgs == [] then []
    else (if pkgs[0].name == "" then [] else [Entry(KeyOf(all, pkgs[0]), pkgs[0])]) + Rows(pkgs[1..], all)
  }

  /** Of rows next to one another with the same key, the first. */
  function Deduped(es: seq<Entry<Package>>): (r: seq<Entry<Package>>)
    ensures es != [] ==> r != [] && r[|r| - 1].key == es[|es| - 1].key
  {
    if |es| <= 1 then es
    else
      var init, last := Deduped(es[..|es| - 1]), es[|es| - 1];
      if init[|init| - 1].key == last.key then init else init + [last]
  }

  function Table(pkgs: seq<Package>): seq<Entry<Package>> {
    Deduped(SortByKey(Rows(pkgs, pkgs)))
  }

  lemma {:induction false} RowsAreThePackages(pkgs: seq<Package>, all: seq<Package>)
    ensures forall e :: e in Rows(pkgs, all) <==> e.value in pkgs && e.value.name != "" && e.key == KeyOf(all, e.value)
  {
    if pkgs != [] { RowsAreThePackages(pkgs[1..], all); }
  }

  ghost predicate WeaklySorted<T>(es: seq<Entry<T>>) {
    forall i, j :: 0 <= i < j < |es| ==> Before(es[i].key, es[j].key) || es[i].key == es[j].key
  }

  lemma {:induction false} InsertSortsWeakly<T>(e: Entry<T>, es: seq<Entry<T>>)
    requires WeaklySorted(es)
    ensures WeaklySorted(Insert(e, es))
  {
    if es != [] {
      var n := |es| - 1;
      if Before(es[n].key, e.key) || es[n].key == e.key {
        LastIsTop(e, es);
      } else {
        InsertSortsWeakly(e, es[..n]);
        BeforeTotal(es[n].key, e.key);
        InsertedUnder(e, es[..n], es[n].key);
      }
    }
  }

  lemma LastIsTop<T>(e: Entry<T>, es: seq<Entry<T>>)
    requires WeaklySorted(es) && es != []
    requires Before(es[|es| - 1].key, e.key) || es[|es| - 1].key == e.key
    ensures forall i :: 0 <= i < |es| ==> Before(es[i].key, e.key) || es[i].key == e.key
  {
    var n := |es| - 1;
    forall i | 0 <= i < n ensures Before(es[i].key, e.key) || es[i].key == e.key {
      if Before(es[i].key, es[n].key) && Before(es[n].key, e.key) {
        BeforeTransitive(es[i].key, es[n].key, e.key);
      }
    }
  }

  lemma InsertedUnder<T>(e: Entry<T>, es: seq<Entry<T>>, top: string)
    requires Before(e.key, top)
    requires forall i :: 0 <= i < |es| ==> Before(es[i].key, top) || es[i].key == top
    ensures forall i :: 0 <= i < |Insert(e, es)| ==> Before(Insert(e, es)[i].key, top) || Insert(e, es)[i].key == top
  {
    var r := Insert(e, es);
    InsertIsPermutation(e, es);
    SameElements(r, es + [e]);
    forall i | 0 <= i < |r| ensures Before(r[i].key, top) || r[i].key == top {
      assert r[i] in es + [e];
    }
  }

  lemma {:induction false} SortSortsWeakly<T>(es: seq<Entry<T>>)
    ensures WeaklySorted(SortByKey(es))
  {
    if es != [] {
      SortSortsWeakly(es[..|es| - 1]);
      InsertSortsWeakly(es[|es| - 1], SortByKey(es[..|es| - 1]));
    }
  }

  /** Deduplication drops rows but no key, and invents nothing. */
  lemma {:induction false} DedupedKeeps(es: seq<Entry<Package>>)
    ensures forall e :: e in Deduped(es) ==> e in es
    ensures Keys(Deduped(es)) == Keys(es)
  {
    if |es| > 1 {
      var n := |es| - 1;
      DedupedKeeps(es[..n]);
      KeysOfOneMore(es[..n], es[n]);
      assert es[..n] + [es[n]] == es;
      var init := Deduped(es[..n]);
      if init[|init| - 1].key == es[n].key {
        assert init[|init| - 1].key in Keys(init);
      } else {
        KeysOfOneMore(init, es[n]);
      }
    }
  }

  lemma {:induction false} DedupedIsStrict(es: seq<Entry<Package>>)
    requires WeaklySorted(es)
    ensures StrictlySorted(Deduped(es))
  {
    if |es| > 1 {
      var n := |es| - 1;
      var init := Deduped(es[..n]);
      DedupedIsStrict(es[..n]);
      DedupedKeeps(es[..n]);
      if init[|init| - 1].key != es[n].key {
        assert init[|init| - 1] in es[..n];
        AppendKeepsStrict(init, es[n]);
      }
    }
  }

  lemma AppendKeepsStrict(es: seq<Entry<Package>>, e: Entry<Package>)
    requires StrictlySorted(es) && es != [] && Before(es[|es| - 1].key, e.key)
    ensures StrictlySorted(es + [e])
  {
    forall i | 0 <= i < |es| ensures Before(es[i].key, e.key) {
      if i < |es| - 1 { BeforeTransitive(es[i].key, es[|es| - 1].key, e.key); }
    }
  }

  /** Keys come out strictly ascending; every row is a package under its key; and
      every named package's key has a row. */
  lemma TableIsSound(pkgs: seq<Package>)
    ensures StrictlySorted(Table(pkgs))
    ensures forall e :: e in Table(pkgs) ==> e.value in pkgs && e.value.name != "" && e.key == KeyOf(pkgs, e.value)
    ensures forall pkg :: pkg in pkgs && pkg.name != "" ==> KeyOf(pkgs, pkg) in Keys(Table(pkgs))
  {
    var rows := Rows(pkgs, pkgs);
    RowsAreThePackages(pkgs, pkgs);
    SortSortsWeakly(rows);
    SortKeepsElements(rows);
    DedupedIsStrict(SortByKey(rows));
    DedupedKeeps(SortByKey(rows));
    forall pkg | pkg in pkgs && pkg.name != "" ensures KeyOf(pkgs, pkg) in Keys(rows) {
      var e := Entry(KeyOf(pkgs, pkg), pkg);
      assert e in rows;
      var i :| 0 <= i < |rows| && rows[i] == e;
      assert rows[i].key in Keys(rows);
    }
  }

  lemma {:induction false} CountOfTwo(pkgs: seq<Package>, i: nat, j: nat)
    requires i < j < |pkgs| && pkgs[i].name == pkgs[j].name
    ensures Count(pkgs, pkgs[i].name) > 1
  {
    if i > 0 {
      CountOfTwo(pkgs[1..], i - 1, j - 1);
    } else {
      CountOfOne(pkgs[1..], j - 1);
    }
  }

  lemma {:induction false} CountOfOne(pkgs: seq<Package>, i: nat)
    requires i < |pkgs|
    ensures Count(pkgs, pkgs[i].name) > 0
  {
    if i > 0 { CountOfOne(pkgs[1..], i - 1); }
  }

  lemma SplitsAtSign(a: string, b: string, v: string, w: string)
    requires '@' !in a && '@' !in b
    ensures a + "@" + v == b + "@" + w <==> a == b && v == w
    ensures a + "@" + v != b
  {
    var x, y := a + "@" + v, b + "@" + w;
    assert x[|a|] == '@' && y[|b|] == '@';
    assert forall i :: 0 <= i < |a| ==> x[i] in a;
    assert forall i :: 0 <= i < |b| ==> y[i] in b;
    if x == y {
      assert |a| == |b|;
      assert x[..|a|] == a && y[..|b|] == b && x[|a| + 1..] == v && y[|b| + 1..] == w;
    }
  }

  /** With names free of the at sign, two entries of the lock share a row exactly
      when name and version coincide, and a row is keyed by the bare name exactly
      when the name occurs once. */
  lemma SharingARow(pkgs: seq<Package>, i: nat, j: nat)
    requires i < j < |pkgs| && '@' !in pkgs[i].name && '@' !in pkgs[j].name
    ensures KeyOf(pkgs, pkgs[i]) == KeyOf(pkgs, pkgs[j]) <==> pkgs[i].name == pkgs[j].name && pkgs[i].version == pkgs[j].version
    ensures KeyOf(pkgs, pkgs[i]) == pkgs[i].name <==> Count(pkgs, pkgs[i].name) == 1
  {
    var p, q := pkgs[i], pkgs[j];
    if p.name == q.name { CountOfTwo(pkgs, i, j); }
    CountOfOne(pkgs, i);
    SplitsAtSign(p.name, q.name, p.version, q.version);
    SplitsAtSign(q.name, p.name, q.version, p.version);
    SplitsAtSign(p.name, p.name, p.version, p.version);
  }

  // ---- which rows are kept ------------------------------------------------

  /** The first entry under a key. */
  function FirstUnder<T>(es: seq<Entry<T>>, key: string): Option<Entry<T>> {
    if es == [] then None
    else
      var first, last := FirstUnder(es[..|es| - 1], key), es[|es| - 1];
      if first.Some? then first else if last.key == key then Some(last) else None
  }

  lemma {:induction false} InsertKeepsFirst<T>(e: Entry<T>, es: seq<Entry<T>>, key: string)
    ensures FirstUnder(Insert(e, es), key) == FirstUnder(es + [e], key)
  {
    assert (es + [e])[..|es|] == es;
    if es != [] {
      var init, last := es[..|es| - 1], es[|es| - 1];
      var inserted := Insert(e, init);
      InsertKeepsFirst(e, init, key);
      assert (init + [e])[..|init|] == init;
      assert (inserted + [last])[..|inserted|] == inserted;
    }
  }

  lemma {:induction false} SortKeepsFirst<T>(es: seq<Entry<T>>, key: string)
    ensures FirstUnder(SortByKey(es), key) == FirstUnder(es, key)
  {
    if es != [] {
      var init, last := es[..|es| - 1], es[|es| - 1];
      SortKeepsFirst(init, key);
      InsertKeepsFirst(last, SortByKey(init), key);
      assert (SortByKey(init) + [last])[..|init|] == SortByKey(init);
    }
  }

  lemma {:induction false} DedupedKeepsFirst(es: seq<Entry<Package>>, key: string)
    ensures FirstUnder(Deduped(es), key) == FirstUnder(es, key)
  {
    if |es| > 1 {
      var init, last := Deduped(es[..|es| - 1]), es[|es| - 1];
      DedupedKeepsFirst(es[..|es| - 1], key);
      assert (init + [last])[..|init|] == init;
    }
  }

  lemma {:induction false} FirstIsHeld<T>(es: seq<Entry<T>>, key: string)
    ensures FirstUnder(es, key).Some? <==> key in Keys(es)
    ensures FirstUnder(es, key).Some? ==> FirstUnder(es, key).value in es && FirstUnder(es, key).value.key == key
  {
    if es != [] {
      var init, last := es[..|es| - 1], es[|es| - 1];
      FirstIsHeld(init, key);
      if key in Keys(init) {
        var i := KeyIsHeld(init, key);
        assert es[i].key in Keys(es);
      }
      if key in Keys(es) && last.key != key {
        var i := KeyIsHeld(es, key);
        assert init[i].key in Keys(init);
      }
      assert last.key in Keys(es);
    }
  }

  /** The table holds, for each key, the first package in the lock that has it,
      and nothing else. */
  lemma TableHoldsTheFirst(pkgs: seq<Package>, e: Entry<Package>)
    ensures e in Table(pkgs) <==> FirstUnder(Rows(pkgs, pkgs), e.key) == Some(e)
  {
    var table := Table(pkgs);
    TableIsSound(pkgs);
    SortKeepsFirst(Rows(pkgs, pkgs), e.key);
    DedupedKeepsFirst(SortByKey(Rows(pkgs, pkgs)), e.key);
    FirstIsHeld(table, e.key);
    if e in table {
      var i :| 0 <= i < |table| && table[i] == e;
      assert table[i].key in Keys(table);
      OneRowAKey(table, e, FirstUnder(table, e.key).value);
    }
  }

  lemma OneRowAKey(table: seq<Entry<Package>>, a: Entry<Package>, b: Entry<Package>)
    requires StrictlySorted(table) && a in table && b in table && a.key == b.key
    ensures a == b
  {
    SortedKeysDistinct(table);
    var i :| 0 <= i < |table| && table[i] == a;
    var j :| 0 <= j < |table| && table[j] == b;
    assert i == j;
  }

  ghost predicate HasItsRow(pkgs: seq<Package>, pkg: Package) {
    Entry(KeyOf(pkgs, pkg), pkg) in Table(pkgs)
  }

  /** Every named package has its own row exactly when no two different ones have
      the same key. */
  lemma NothingIsLostIff(pkgs: seq<Package>)
    ensures (forall p :: p in pkgs && p.name != "" ==> HasItsRow(pkgs, p)) <==>
            (forall p, q :: p in pkgs && q in pkgs && p.name != "" && q.name != "" && KeyOf(pkgs, p) == KeyOf(pkgs, q) ==> p == q)
  {
    var table := Table(pkgs);
    TableIsSound(pkgs);
    if forall p :: p in pkgs && p.name != "" ==> HasItsRow(pkgs, p) {
      forall p, q | p in pkgs && q in pkgs && p.name != "" && q.name != "" && KeyOf(pkgs, p) == KeyOf(pkgs, q) ensures p == q {
        assert HasItsRow(pkgs, p) && HasItsRow(pkgs, q);
        OneRowAKey(table, Entry(KeyOf(pkgs, p), p), Entry(KeyOf(pkgs, q), q));
      }
    }
    if forall p, q :: p in pkgs && q in pkgs && p.name != "" && q.name != "" && KeyOf(pkgs, p) == KeyOf(pkgs, q) ==> p == q {
      forall p | p in pkgs && p.name != "" ensures HasItsRow(pkgs, p) {
        var i := KeyIsHeld(table, KeyOf(pkgs, p));
        assert table[i] in table && table[i].value == p;
      }
    }
  }

  /** When two different packages have one key: they agree on name and version,
      or an at sign in a name imitates another's version. */
  ghost predicate KeysMeet(pkgs: seq<Package>, p: Package, q: Package) {
    if p.name == q.name then p.version == q.version else Imitates(pkgs, p, q) || Imitates(pkgs, q, p) || BothSpellTheSame(pkgs, p, q)
  }

  /** `p`, alone of its name, is named as `q` is keyed by name and version. */
  predicate Imitates(pkgs: seq<Package>, p: Package, q: Package) {
    Count(pkgs, p.name) == 1 && Count(pkgs, q.name) > 1 && p.name == q.name + "@" + q.version
  }

  /** Neither is alone of its name, and the two spell one name and version. */
  predicate BothSpellTheSame(pkgs: seq<Package>, p: Package, q: Package) {
    Count(pkgs, p.name) > 1 && Count(pkgs, q.name) > 1 && p.name + "@" + p.version == q.name + "@" + q.version
  }

  lemma KeysMeetIff(pkgs: seq<Package>, p: Package, q: Package)
    requires p in pkgs && q in pkgs && p != q
    ensures KeyOf(pkgs, p) == KeyOf(pkgs, q) <==> KeysMeet(pkgs, p, q)
  {
    var i :| 0 <= i < |pkgs| && pkgs[i] == p;
    var j :| 0 <= j < |pkgs| && pkgs[j] == q;
    CountOfOne(pkgs, i);
    CountOfOne(pkgs, j);
    if p.name == q.name {
      if i < j { CountOfTwo(pkgs, i, j); } else { CountOfTwo(pkgs, j, i); }
      SameTail(p.name + "@", p.version, q.version);
    }
  }

  lemma SameTail(head: string, a: string, b: string)
    ensures head + a == head + b <==> a == b
  {
    assert (head + a)[|head|..] == a && (head + b)[|head|..] == b;
  }

  /** With names free of the at sign, every named package has its own row exactly
      when no two different ones have one name and version. */
  lemma PlainNamesLoseNothingIff(pkgs: seq<Package>)
    requires forall p :: p in pkgs ==> '@' !in p.name
    ensures (forall p :: p in pkgs && p.name != "" ==> HasItsRow(pkgs, p)) <==>
            (forall p, q :: p in pkgs && q in pkgs && p.name != "" && p.name == q.name && p.version == q.version ==> p == q)
  {
    NothingIsLostIff(pkgs);
    forall p, q | p in pkgs && q in pkgs && p != q
      ensures KeyOf(pkgs, p) == KeyOf(pkgs, q) <==> p.name == q.name && p.version == q.version
    {
      KeysMeetIff(pkgs, p, q);
      SplitsAtSign(p.name, q.name, p.version, q.version);
      SplitsAtSign(q.name, p.name, q.version, p.version);
    }
  }

  /** One name and version from two sources: the second entry is lost, with its
      source and its checksum. */
  lemma SecondSourceIsLost(name: string, version: string, registry: Package, git: Package)
    requires name != "" && registry.name == name == git.name && registry.version == version == git.version && registry != git
    ensures var pkgs := [registry, git]; HasItsRow(pkgs, registry) && !HasItsRow(pkgs, git)
  {
    var pkgs := [registry, git];
    assert pkgs[1..] == [git] && pkgs[1..][1..] == [];
    var key := KeyOf(pkgs, registry);
    var rows := [Entry(key, registry), Entry(key, git)];
    assert Rows(pkgs[1..], pkgs) == [rows[1]];
    assert Rows(pkgs, pkgs) == rows;
    assert rows[..1] == [rows[0]] && rows[..1][..0] == [];
    assert FirstUnder(rows[..1], key) == Some(rows[0]);
    TableHoldsTheFirst(pkgs, Entry(key, registry));
    TableHoldsTheFirst(pkgs, Entry(key, git));
  }

  /** With an at sign in a name, packages of different names can share a key, and
      the one that comes later is lost. */
  lemma AtSignLosesAPackage()
    ensures var pkgs := [Package("a", "1", None, None), Package("a", "2", None, None), Package("a@1", "9", None, None)];
      HasItsRow(pkgs, pkgs[0]) && HasItsRow(pkgs, pkgs[1]) && !HasItsRow(pkgs, pkgs[2])
  {
    var pkgs := [Package("a", "1", None, None), Package("a", "2", None, None), Package("a@1", "9", None, None)];
    assert pkgs[1..][1..] == pkgs[2..] && pkgs[2..][1..] == [];
    assert Count(pkgs[2..], "a") == 0 && Count(pkgs[1..], "a") == 1 && Count(pkgs, "a") == 2;
    assert Count(pkgs[2..], "a@1") == 1 && Count(pkgs[1..], "a@1") == 1 && Count(pkgs, "a@1") == 1;
    assert "a" + "@" + "1" == "a@1" && "a" + "@" + "2" == "a@2";
    var rows := [Entry("a@1", pkgs[0]), Entry("a@2", pkgs[1]), Entry("a@1", pkgs[2])];
    assert Rows(pkgs[2..], pkgs) == [rows[2]] && Rows(pkgs[1..], pkgs) == [rows[1], rows[2]];
    assert Rows(pkgs, pkgs) == rows;
    FirstOfThree(rows);
    TableHoldsTheFirst(pkgs, rows[0]);
    TableHoldsTheFirst(pkgs, rows[1]);
    TableHoldsTheFirst(pkgs, rows[2]);
  }

  lemma FirstOfThree(rows: seq<Entry<Package>>)
    requires |rows| == 3 && rows[0].key == rows[2].key && rows[1].key != rows[0].key
    ensures FirstUnder(rows, rows[0].key) == Some(rows[0]) && FirstUnder(rows, rows[1].key) == Some(rows[1])
  {
    assert rows[..2][..1] == [rows[0]] && rows[..1][..0] == [];
    assert FirstUnder(rows[..1], rows[0].key) == Some(rows[0]) && FirstUnder(rows[..1], rows[1].key) == None;
    assert rows[..2][..1] == rows[..1];
    assert FirstUnder(rows[..2], rows[0].key) == Some(rows[0]) && FirstUnder(rows[..2], rows[1].key) == Some(rows[1]);
  }
}
