/** What may enter the archive. */
module Admission {
  // Which documents are admitted, and the identity a document derives from its
  // own evidence. Both read a handful of paths, none of them one sealing writes.

  import opened Words
  import opened Decimals
  import opened Json

  // ---- strings ------------------------------------------------------------

  /** The Unicode `White_Space` property. */
  predicate IsSpace(c: char) {
    var n := c as int;
    9 <= n <= 13 || n == 0x20 || n == 0x85 || n == 0xA0 || n == 0x1680 || 0x2000 <= n <= 0x200A ||
    n == 0x2028 || n == 0x2029 || n == 0x202F || n == 0x205F || n == 0x3000
  }

  function Trim(s: string): string {
    if s == "" then ""
    else if IsSpace(s[0]) then Trim(s[1..])
    else if IsSpace(s[|s| - 1]) then Trim(s[..|s| - 1])
    else s
  }

  predicate IsAlphanumeric(c: char) {
    '0' <= c <= '9' || 'a' <= c <= 'z' || 'A' <= c <= 'Z'
  }

  function Kept(c: char): string {
    if IsAlphanumeric(c) then [c] else ""
  }

  function Alphanumerics(s: string): string {
    if s == "" then "" else Kept(s[0]) + Alphanumerics(s[1..])
  }

  predicate Contains(s: string, part: string) {
    exists i :: 0 <= i <= |s| - |part| && s[i..][..|part|] == part
  }

  predicate EndsWith(s: string, tail: string) {
    |tail| <= |s| && s[|s| - |tail|..] == tail
  }

  // ---- paths --------------------------------------------------------------

  function Under(v: Option<Json>, path: seq<string>): Option<Json>
    decreases |path|
  {
    if v.None? || path == [] then v else Under(Get(v.value, path[0]), path[1..])
  }

  /** A string that is not blank; absent, null, another type and blank are all
      the same. */
  function Label(v: Option<Json>): (r: Option<string>)
    ensures r.Some? ==> r.value != "" && v.Some? && v.value.Str?
  {
    if v.Some? && v.value.Str? && Trim(v.value.s) != "" then Some(Trim(v.value.s)) else None
  }

  function Flag(v: Option<Json>): Option<bool> {
    if v.Some? && v.value.Bool? then Some(v.value.b) else None
  }

  function Count(v: Option<Json>): Option<nat> {
    if v.Some? && v.value.Num? && v.value.n.PosInt? then Some(v.value.n.u) else None
  }

  function ItemsOf(v: Option<Json>): seq<Json> {
    if v.Some? && v.value.Arr? then v.value.items else []
  }

  // ---- admission ----------------------------------------------------------

  /** What the admission rules consult: four top-level values of the document. */
  datatype Claim = Claim(provenance: Option<Json>, cells: Option<Json>, measurement: Option<Json>, profile: Option<Json>)

  function ClaimOf(doc: Json): Claim {
    Claim(Get(doc, "provenance"), Get(doc, "cells"), Get(doc, "measurement"), Get(doc, "profile"))
  }

  predicate NotEmulated(c: Claim) {
    Under(c.provenance, ["emulated"]) == Some(Bool(false))
  }

  predicate NamesHost(c: Claim) {
    Label(Under(c.provenance, ["os"])).Some? &&
    Label(Under(c.provenance, ["arch"])).Some? &&
    Label(Under(c.provenance, ["cpuModel"])).Some?
  }

  /** Both trees have a commit and a word on whether they were clean; one that was
      not is declared, and so on each cell. */
  predicate NamesTrees(c: Claim) {
    var harness := Flag(Under(c.provenance, ["dirty"]));
    var library := Flag(Under(c.provenance, ["library", "dirty"]));
    Label(Under(c.provenance, ["commit"])).Some? &&
    Label(Under(c.provenance, ["library", "commit"])).Some? &&
    harness.Some? && library.Some? &&
    (harness == Some(true) || library == Some(true) ==>
       Flag(Under(c.provenance, ["allowDirty"])) == Some(true) &&
       forall i :: 0 <= i < |ItemsOf(c.cells)| ==> Flag(Get(ItemsOf(c.cells)[i], "dirty")) == Some(true))
  }

  predicate IsReleaseBuild(c: Claim) {
    var flags := Under(c.provenance, ["node", "rustflags"]);
    Under(c.provenance, ["node", "debugAssertions"]) == Some(Bool(false)) &&
    Label(Under(c.provenance, ["node", "buildProfile"])) == Some("release") &&
    (flags.Some? && flags.value.Str? ==>
       !Contains(flags.value.s, "-C instrument-coverage") &&
       !Contains(flags.value.s, "-Cinstrument-coverage") &&
       !Contains(flags.value.s, "-Z"))
  }

  predicate NamesFilesystem(c: Claim) {
    var fsType := Label(Under(c.provenance, ["filesystem", "fsType"]));
    fsType.Some? &&
    Label(Under(c.provenance, ["filesystem", "scratchDir"])).Some? &&
    (fsType.value == "tmpfs" ==> Flag(Under(c.provenance, ["filesystem", "declaredTmpfs"])) == Some(true))
  }

  predicate Present(v: Option<Json>) {
    v.Some? && v.value != Null
  }

  /** The invocation is recorded and resolved, its repetitions agree with the
      measurement's, and no cell fell short of its own floor. */
  predicate IsResolved(c: Claim) {
    var invocation := Under(c.provenance, ["invocation"]);
    var scenarios := ItemsOf(Under(invocation, ["resolved", "scenarios"]));
    var resolved := Under(invocation, ["resolved", "reps"]);
    var declared := Under(c.measurement, ["reps"]);
    Present(Under(invocation, ["argv"])) && Present(Under(invocation, ["command"])) &&
    Present(Under(invocation, ["cwd"])) && Present(Under(invocation, ["resolved"])) &&
    scenarios != [] && Str("all") !in scenarios &&
    resolved.Some? && declared.Some? && Matches(resolved.value, declared.value, EqualNumbers) &&
    forall i :: 0 <= i < |ItemsOf(c.cells)| ==> !FellShort(ItemsOf(c.cells)[i])
  }

  /** `==` on numbers: the same kind and the same value, so the two float zeros
      are equal and `1` and `1.0` are not. */
  predicate EqualNumbers(x: Number, y: Number) {
    x == y || (x.Decimal? && y.Decimal? && SameValue(x, y))
  }

  predicate FellShort(cell: Json) {
    var reps := Count(Get(cell, "reps"));
    var floor := Count(Get(cell, "minReps"));
    reps.Some? && floor.Some? && reps.value < floor.value
  }

  predicate IsAnswered(cell: Json) {
    if Get(cell, "outcome") == Some(Str("ok")) then Flag(Get(cell, "attested")) == Some(true)
    else Label(Get(cell, "reason")).Some?
  }

  predicate CellsAreAnswered(c: Claim) {
    ItemsOf(c.cells) != [] &&
    forall i :: 0 <= i < |ItemsOf(c.cells)| ==> IsAnswered(ItemsOf(c.cells)[i])
  }

  /** The read-sample cap of a sweep profile. */
  function ReadSamples(profile: string): Option<nat> {
    if profile == "ci" then Some(512)
    else if profile == "full" || profile == "xl" then Some(20_000)
    else None
  }

  /** The declared request count of a read row is the length of the walk its
      profile takes over the cell's plan, plus one. `walk` gives the number of
      coordinates the planner lays out for a cell name. */
  predicate WalkAgrees(c: Claim, walk: string -> Option<nat>) {
    c.profile.Some? && c.profile.value.Str? && ReadSamples(c.profile.value.s).Some? ==>
      forall i :: 0 <= i < |ItemsOf(c.cells)| ==>
        RowAgrees(ItemsOf(c.cells)[i], ReadSamples(c.profile.value.s).value, walk)
  }

  predicate RowAgrees(cell: Json, cap: nat, walk: string -> Option<nat>) {
    var name := Get(cell, "cell");
    var found := Get(cell, "median");
    if Get(cell, "metric") == Some(Str("requests_declared")) && name.Some? && name.value.Str? &&
       walk(name.value.s).Some? && found.Some? && found.value.Num? && IsFinite(found.value.n)
    then
      var steps := walk(name.value.s).value;
      var off := Value(found.value.n) - (if cap < steps then cap else steps) as real - 1.0;
      -EPSILON <= off <= EPSILON
    else true
  }

  /** `f64::EPSILON`, two to the minus 52. */
  const EPSILON: real := 1.0 / 4503599627370496.0

  /** `admit`: no rule refuses. */
  predicate Admissible(doc: Json, walk: string -> Option<nat>) {
    var c := ClaimOf(doc);
    NotEmulated(c) && NamesHost(c) && NamesTrees(c) && IsReleaseBuild(c) && NamesFilesystem(c) &&
    IsResolved(c) && CellsAreAnswered(c) && WalkAgrees(c, walk)
  }

  // ---- identity -----------------------------------------------------------

  /** Split at the first dot, drop what follows it, keep a closing `Z`. */
  function WithoutFraction(iso: string): string {
    var dot := FirstDot(iso);
    if dot == |iso| then iso
    else iso[..dot] + Closing(iso[dot + 1..])
  }

  function Closing(tail: string): string {
    if EndsWith(tail, "Z") then "Z" else ""
  }

  function FirstDot(s: string): (i: nat)
    ensures i <= |s|
    ensures i < |s| ==> s[i] == '.'
    ensures forall j :: 0 <= j < i ==> s[j] != '.'
  {
    if s == "" || s[0] == '.' then 0 else 1 + FirstDot(s[1..])
  }

  function CompactTimestamp(iso: string): string {
    Alphanumerics(WithoutFraction(iso))
  }

  lemma {:induction false} AlphanumericsOfSum(a: string, b: string)
    ensures Alphanumerics(a + b) == Alphanumerics(a) + Alphanumerics(b)
  {
    if a == "" {
      assert a + b == b;
    } else {
      var s := a + b;
      assert s[0] == a[0] && s[1..] == a[1..] + b;
      AlphanumericsOfSum(a[1..], b);
      Associate(Kept(a[0]), Alphanumerics(a[1..]), Alphanumerics(b));
    }
  }

  lemma Associate(a: string, b: string, c: string)
    ensures (a + b) + c == a + (b + c)
  {
  }

  /** A producer that starts printing a fraction of a second keeps its run ids
      exactly when what follows the fraction leaves no more behind than a `Z`:
      a `Z` suffix does, a numeric offset does not. */
  lemma FractionIsForgotten(head: string, fraction: string, suffix: string)
    requires '.' !in head && '.' !in suffix
    requires EndsWith(fraction + suffix, "Z") <==> EndsWith(suffix, "Z")
    ensures CompactTimestamp(head + "." + (fraction + suffix)) == CompactTimestamp(head + suffix)
       <==> Alphanumerics(suffix) == Closing(suffix)
  {
    CompactWithFraction(head, fraction + suffix);
    CompactWithNoFraction(head, suffix);
    SamePrefix(Alphanumerics(head), Closing(suffix), Alphanumerics(suffix));
  }

  lemma CompactWithFraction(head: string, tail: string)
    requires '.' !in head
    ensures CompactTimestamp(head + "." + tail) == Alphanumerics(head) + Closing(tail)
  {
    WithFraction(head, tail);
    AlphanumericsOfSum(head, Closing(tail));
    OneLetter('Z');
  }

  lemma CompactWithNoFraction(head: string, suffix: string)
    requires '.' !in head && '.' !in suffix
    ensures CompactTimestamp(head + suffix) == Alphanumerics(head) + Alphanumerics(suffix)
  {
    WithNoFraction(head, suffix);
    AlphanumericsOfSum(head, suffix);
  }

  lemma {:induction false} DotAfter(head: string, tail: string)
    requires '.' !in head
    ensures FirstDot(head + "." + tail) == |head|
  {
    var long := head + "." + tail;
    assert long[|head|] == '.';
    assert forall j :: 0 <= j < |head| ==> long[j] == head[j] && head[j] in head;
  }

  lemma WithFraction(head: string, tail: string)
    requires '.' !in head
    ensures WithoutFraction(head + "." + tail) == head + Closing(tail)
  {
    var long := head + "." + tail;
    DotAfter(head, tail);
    assert long[..|head|] == head && long[|head| + 1..] == tail;
  }

  lemma WithNoFraction(head: string, suffix: string)
    requires '.' !in head && '.' !in suffix
    ensures WithoutFraction(head + suffix) == head + suffix
  {
    var short := head + suffix;
    assert forall j :: 0 <= j < |short| ==> short[j] in head || short[j] in suffix;
  }

  lemma OneLetter(c: char)
    ensures Alphanumerics([c]) == Kept(c)
    ensures Alphanumerics("") == ""
  {
    assert [c][1..] == "";
    assert Kept(c) + "" == Kept(c);
  }

  lemma SamePrefix(p: string, a: string, b: string)
    ensures p + a == p + b <==> a == b
  {
    assert (p + a)[|p|..] == a && (p + b)[|p|..] == b;
  }

  datatype Missing = StartedAt | LibraryCommit

  function OrUnknown(name: Option<string>): string {
    if name.Some? then name.value else "unknown"
  }

  function Separated(parts: seq<string>): string {
    if parts == [] then ""
    else if |parts| == 1 then parts[0]
    else parts[0] + [0 as char] + Separated(parts[1..])
  }

  /** What decides comparability, in the order it is hashed. `show` is the text
      of a value that is there. */
  function HostParts(provenance: Option<Json>, show: Json -> string): (parts: seq<string>)
    ensures |parts| == 6
  {
    [NameAt(provenance, ["os"]),
     NameAt(provenance, ["arch"]),
     NameAt(provenance, ["cpuModel"]),
     NameAt(provenance, ["node", "rustc"]),
     NameAt(provenance, ["filesystem", "fsType"]),
     Shown(Under(provenance, ["emulated"]), show)]
  }

  function NameAt(v: Option<Json>, path: seq<string>): string {
    OrUnknown(Label(Under(v, path)))
  }

  function Shown(v: Option<Json>, show: Json -> string): string {
    if v.Some? then show(v.value) else "absent"
  }

  function FirstEight(s: string): string {
    if |s| <= 8 then s else s[..8]
  }

  /** `<startedAt>-<library commit>-<host8>`. */
  function RunId(doc: Json, hash: string -> string, show: Json -> string): Result<string, Missing> {
    var provenance := Get(doc, "provenance");
    var started := Label(Get(doc, "startedAt"));
    var commit := Label(Under(provenance, ["library", "commit"]));
    if started.None? then Failure(StartedAt)
    else if commit.None? then Failure(LibraryCommit)
    else Success(CompactTimestamp(started.value) + "-" + commit.value + "-" +
                 FirstEight(hash(Separated(HostParts(provenance, show)))))
  }

  lemma RunIdHasHyphen(doc: Json, hash: string -> string, show: Json -> string)
    requires RunId(doc, hash, show).Success?
    ensures '-' in RunId(doc, hash, show).value
  {
    var stamp := CompactTimestamp(Label(Get(doc, "startedAt")).value);
    assert RunId(doc, hash, show).value[|stamp|] == '-';
  }

  /** Of the two ways to have no run id, an admitted document has only one: the
      start time is the field no admission rule reads. */
  lemma AdmittedHasRunId(doc: Json, walk: string -> Option<nat>, hash: string -> string, show: Json -> string)
    requires Admissible(doc, walk)
    ensures RunId(doc, hash, show) == Failure(StartedAt) <==> Label(Get(doc, "startedAt")).None?
    ensures RunId(doc, hash, show) != Failure(LibraryCommit)
  {
  }

  // ---- documents that are the same have the same identity ------------------

  ghost predicate SameOption(a: Option<Json>, b: Option<Json>) {
    match (a, b)
    case (Some(x), Some(y)) => Same(x, y)
    case (None, None) => true
    case _ => false
  }

  lemma SameGet(a: Json, b: Json, key: string)
    requires WellFormed(a) && WellFormed(b) && Same(a, b)
    ensures SameOption(Get(a, key), Get(b, key))
    ensures Get(a, key).Some? ==> WellFormed(Get(a, key).value) && WellFormed(Get(b, key).value)
  {
    if a.Obj? {
      var x, y := Lookup(a.members, key), Lookup(b.members, key);
      if key in Keys(a.members) {
        var i := KeyIsHeld(a.members, key);
        var j := KeyIsHeld(b.members, key);
        LookupAt(a.members, i);
        LookupAt(b.members, j);
      }
    }
  }

  lemma {:induction false} SameUnder(a: Option<Json>, b: Option<Json>, path: seq<string>)
    requires SameOption(a, b)
    requires a.Some? ==> WellFormed(a.value) && WellFormed(b.value)
    ensures SameOption(Under(a, path), Under(b, path))
    decreases |path|
  {
    if a.Some? && path != [] {
      SameGet(a.value, b.value, path[0]);
      SameUnder(Get(a.value, path[0]), Get(b.value, path[0]), path[1..]);
    }
  }

  lemma SameLabel(a: Option<Json>, b: Option<Json>)
    requires SameOption(a, b)
    ensures Label(a) == Label(b)
    ensures Label(a).Some? ==> a == b
  {
  }

  lemma SameLabelUnder(a: Option<Json>, b: Option<Json>, path: seq<string>)
    requires SameOption(a, b)
    requires a.Some? ==> WellFormed(a.value) && WellFormed(b.value)
    ensures Label(Under(a, path)) == Label(Under(b, path))
  {
    SameUnder(a, b, path);
    SameLabel(Under(a, path), Under(b, path));
  }

  lemma SameHost(a: Option<Json>, b: Option<Json>, show: Json -> string)
    requires SameOption(a, b)
    requires a.Some? ==> WellFormed(a.value) && WellFormed(b.value)
    requires Under(a, ["emulated"]) == Under(b, ["emulated"])
    ensures HostParts(a, show) == HostParts(b, show)
  {
    SameLabelUnder(a, b, ["os"]);
    SameLabelUnder(a, b, ["arch"]);
    SameLabelUnder(a, b, ["cpuModel"]);
    SameLabelUnder(a, b, ["node", "rustc"]);
    SameLabelUnder(a, b, ["filesystem", "fsType"]);
  }
}
