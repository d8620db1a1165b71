/** The release sweep and its history. */
module Sweep {
  // An append-only history file written by rename, one snapshot a version, and a
  // worktree that goes however its version ended.

  import opened Words
  import Spaces = Admission

  datatype Snapshot = Snapshot(schema: nat, family: string, version: string, sha: string, labels: seq<string>)

  const CURRENT_SCHEMA: nat := 3
  const LEGACY_FAMILY := "vips"

  // ---- migration ----------------------------------------------------------

  /** The words between white space. */
  function SplitWords(s: string): seq<string>
    decreases |s|
  {
    if s == "" then []
    else if Spaces.IsSpace(s[0]) then SplitWords(s[1..])
    else var w := Word(s); [w] + SplitWords(s[|w|..])
  }

  function Word(s: string): (w: string)
    requires s != "" && !Spaces.IsSpace(s[0])
    ensures 0 < |w| <= |s|
    ensures forall i :: 0 <= i < |w| ==> !Spaces.IsSpace(w[i])
  {
    if |s| == 1 || Spaces.IsSpace(s[1]) then [s[0]] else [s[0]] + Word(s[1..])
  }

  function Underscored(words: seq<string>): string {
    if words == [] then "" else if |words| == 1 then words[0] else words[0] + "_" + Underscored(words[1..])
  }

  /** A label with spaces becomes one with underscores. */
  function NormalLabel(label_: string): string {
    if ' ' !in label_ then label_ else Underscored(SplitWords(label_))
  }

  function NormalLabels(labels: seq<string>): (r: seq<string>)
    ensures |r| == |labels| && forall i :: 0 <= i < |labels| ==> r[i] == NormalLabel(labels[i])
  {
    seq(|labels|, i requires 0 <= i < |labels| => NormalLabel(labels[i]))
  }

  predicate IsBlank(s: string) {
    forall i :: 0 <= i < |s| ==> Spaces.IsSpace(s[i])
  }

  function Migrate(s: Snapshot): Snapshot {
    s.(labels := NormalLabels(s.labels),
       family := if IsBlank(s.family) then LEGACY_FAMILY else s.family,
       schema := if s.schema < CURRENT_SCHEMA then CURRENT_SCHEMA else s.schema)
  }

  function MigrateAll(h: seq<Snapshot>): (r: seq<Snapshot>)
    ensures |r| == |h| && forall i :: 0 <= i < |h| ==> r[i] == Migrate(h[i])
  {
    seq(|h|, i requires 0 <= i < |h| => Migrate(h[i]))
  }

  lemma {:induction false} WordsHoldNoSpace(s: string)
    ensures forall i :: 0 <= i < |SplitWords(s)| ==> forall k :: 0 <= k < |SplitWords(s)[i]| ==> !Spaces.IsSpace(SplitWords(s)[i][k])
    decreases |s|
  {
    if s != "" {
      if Spaces.IsSpace(s[0]) { WordsHoldNoSpace(s[1..]); } else { WordsHoldNoSpace(s[|Word(s)|..]); }
    }
  }

  lemma {:induction false} UnderscoredHoldsNoSpace(words: seq<string>)
    requires forall i :: 0 <= i < |words| ==> forall k :: 0 <= k < |words[i]| ==> !Spaces.IsSpace(words[i][k])
    ensures forall k :: 0 <= k < |Underscored(words)| ==> !Spaces.IsSpace(Underscored(words)[k])
  {
    if |words| > 1 { UnderscoredHoldsNoSpace(words[1..]); }
  }

  lemma NormalLabelIsStable(label_: string)
    ensures NormalLabel(NormalLabel(label_)) == NormalLabel(label_)
  {
    if ' ' in label_ {
      WordsHoldNoSpace(label_);
      UnderscoredHoldsNoSpace(SplitWords(label_));
      assert Spaces.IsSpace(' ');
    }
  }

  /** Migrating what has been migrated changes nothing. */
  lemma MigrateIsStable(s: Snapshot)
    ensures Migrate(Migrate(s)) == Migrate(s)
  {
    forall i | 0 <= i < |s.labels| ensures NormalLabel(NormalLabel(s.labels[i])) == NormalLabel(s.labels[i]) {
      NormalLabelIsStable(s.labels[i]);
    }
    assert NormalLabels(NormalLabels(s.labels)) == NormalLabels(s.labels);
    assert !IsBlank(LEGACY_FAMILY) by { assert !Spaces.IsSpace(LEGACY_FAMILY[0]); }
  }

  // ---- the file -----------------------------------------------------------

  datatype Text = Torn | Whole(history: seq<Snapshot>)

  /** A missing file is an empty history; one that does not parse is an error. */
  function Load(file: Option<Text>): Option<seq<Snapshot>> {
    match file
    case None => Some([])
    case Some(Torn) => None
    case Some(Whole(h)) => Some(MigrateAll(h))
  }

  /** A snapshot may join a history whose every snapshot is of its family. */
  predicate MayJoin(h: seq<Snapshot>, s: Snapshot) {
    !IsBlank(s.family) && forall i :: 0 <= i < |h| ==> h[i].family == s.family
  }

  predicate IsSingle(h: seq<Snapshot>, family: string) {
    forall i :: 0 <= i < |h| ==> h[i].family == family
  }

  lemma LoadAfterAppend(h: seq<Snapshot>, s: Snapshot)
    ensures Load(Some(Whole(MigrateAll(h) + [s]))) == Some(MigrateAll(h) + [Migrate(s)])
  {
    var m := MigrateAll(h);
    forall i | 0 <= i < |m| ensures Migrate(m[i]) == m[i] { MigrateIsStable(h[i]); }
    assert MigrateAll(m + [s]) == m + [Migrate(s)];
  }

  // ---- the sweep ----------------------------------------------------------

  datatype Fate = Works | Fails | DiesBefore | DiesAfter

  datatype Halt = Fine | Failed | Dead

  /** What one version's build measured, or that it could not be built. */
  datatype Build = NoTree | NoIdentity(tree: nat) | NoBuild(tree: nat) | Built(tree: nat, version: string, sha: string, labels: seq<string>)

  datatype Outcome = Appended(refname: string, version: string, sha: string, entries: nat) | Skipped(refname: string)

  datatype Ended = Recorded(o: Outcome) | Died

  class Runner {
    const fate: nat -> Fate
    const family: string
    var tick: nat
    var file: Option<Text>
    var temp: Option<Text>
    var trees: set<nat>
    ghost var stuck: set<nat>

    constructor (fate: nat -> Fate, family: string, file: Option<Text>)
      ensures this.fate == fate && this.family == family && this.file == file && trees == {} && stuck == {}
    {
      this.fate, this.family, this.file := fate, family, file;
      tick, temp, trees, stuck := 0, None, {}, {};
    }

    method Next() returns (f: Fate)
      modifies this`tick
      ensures f == fate(old(tick))
    {
      f := fate(tick);
      tick := tick + 1;
    }

    /** Fill a file beside the history and rename it over: whatever happens, the
        history is the old one or the new one, whole. */
    method SaveHistory(h: seq<Snapshot>) returns (r: Halt)
      modifies this`tick, this`file, this`temp
      ensures r == Fine ==> file == Some(Whole(h))
      ensures r == Failed ==> file == old(file)
      ensures r == Dead ==> file == old(file) || file == Some(Whole(h))
    {
      var f := Next();
      if f == Fails { return Failed; }
      if f == DiesBefore { return Dead; }
      temp := Some(Torn);
      if f == DiesAfter { return Dead; }
      f := Next();
      if f == Fails { return Failed; }
      if f == DiesBefore { return Dead; }
      temp := Some(Whole(h));
      if f == DiesAfter { return Dead; }
      f := Next();
      if f == DiesBefore { return Dead; }
      if f == Fails {
        f := Next();
        if f == Works || f == DiesAfter { temp := None; }
        return if f == DiesBefore || f == DiesAfter then Dead else Failed;
      }
      file, temp := temp, None;
      r := if f == DiesAfter then Dead else Fine;
    }

    /** `append_version_snapshot`: load, push, save; the number on record. */
    method AppendSnapshot(version: string, sha: string, labels: seq<string>) returns (r: Halt, entries: nat)
      modifies this`tick, this`file, this`temp
      ensures var s := Snapshot(CURRENT_SCHEMA, family, version, sha, labels);
        var was := Load(old(file));
        (r == Fine ==> was.Some? && MayJoin(was.value, s) && file == Some(Whole(was.value + [s])) && entries == |was.value| + 1) &&
        (r == Failed ==> file == old(file)) &&
        (r == Dead ==> file == old(file) || (was.Some? && MayJoin(was.value, s) && file == Some(Whole(was.value + [s])))) &&
        (was.None? || !MayJoin(was.value, s) ==> r == Failed)
    {
      entries := 0;
      var was := Load(file);
      if was.None? { return Failed, 0; }
      var s := Snapshot(CURRENT_SCHEMA, family, version, sha, labels);
      if !MayJoin(was.value, s) { return Failed, 0; }
      r := SaveHistory(was.value + [s]);
      if r == Fine { entries := |was.value| + 1; }
    }

    /** Remove a worktree: git first, the directory itself when git could not. */
    method Remove(tree: nat) returns (dead: bool)
      modifies this`tick, this`trees, this`stuck
      ensures trees == old(trees) - {tree} || trees == old(trees)
      ensures !dead ==> trees == old(trees) - {tree} || stuck == old(stuck) + {tree}
      ensures old(stuck) <= stuck <= old(stuck) + {tree}
    {
      var f := Next();
      if f == DiesBefore { return true; }
      if f == Works || f == DiesAfter { trees := trees - {tree}; }
      if f == DiesAfter { return true; }
      if tree in trees {
        f := Next();
        if f == DiesBefore { return true; }
        if f == Works || f == DiesAfter { trees := trees - {tree}; } else { stuck := stuck + {tree}; }
        if f == DiesAfter { return true; }
      }
      return false;
    }

    /** Check out, build, run and append one version; the worktree goes whichever
        way it ended. */
    method RunOne(refname: string, b: Build) returns (e: Ended)
      requires !b.NoTree? ==> b.tree !in trees
      modifies this`tick, this`file, this`temp, this`trees, this`stuck
      ensures IsStep(family, old(file), b, refname, file, e)
      ensures !e.Died? ==> trees <= old(trees) + stuck
      ensures old(stuck) <= stuck && forall t :: t in stuck && t !in old(stuck) ==> !b.NoTree? && t == b.tree
    {
      var f := Next();
      if f == DiesBefore { return Died; }
      if f == Fails || b.NoTree? { return Recorded(Skipped(refname)); }
      trees := trees + {b.tree};
      if f == DiesAfter { return Died; }
      var outcome := Skipped(refname);
      if b.Built? {
        var r, entries := AppendSnapshot(b.version, b.sha, b.labels);
        if r == Dead { return Died; }
        if r == Fine { outcome := Appended(refname, b.version, b.sha, entries); }
      }
      var dead := Remove(b.tree);
      e := if dead then Died else Recorded(outcome);
    }

    /** `run_matrix`: every ref in turn, a failure of one skipping only that one. */
    method RunMatrix(refs: seq<string>, builds: seq<Build>) returns (outcomes: seq<Outcome>, died: bool, ghost added: seq<Snapshot>)
      requires |builds| == |refs| && trees == {} && stuck == {}
      requires forall i, j :: 0 <= i < j < |builds| && !builds[i].NoTree? && !builds[j].NoTree? ==> builds[i].tree != builds[j].tree
      modifies this`tick, this`file, this`temp, this`trees, this`stuck
      ensures !died ==> |outcomes| == |refs|
      ensures |outcomes| <= |refs| && forall i :: 0 <= i < |outcomes| ==> outcomes[i].refname == refs[i]
      ensures Load(old(file)).None? ==> file == old(file) && forall i :: 0 <= i < |outcomes| ==> outcomes[i].Skipped?
      ensures Load(old(file)).Some? ==> HasGrown(family, Load(old(file)).value, file, outcomes, died, added)
      ensures !died ==> trees <= stuck
    {
      outcomes, died, added := [], false, [];
      if Load(file).Some? { assert Load(file).value + [] == Load(file).value; }
      var i := 0;
      while i < |refs|
        invariant i <= |refs| && |outcomes| == i && !died
        invariant forall k :: 0 <= k < i ==> outcomes[k].refname == refs[k]
        invariant Load(old(file)).None? ==> file == old(file) && forall k :: 0 <= k < i ==> outcomes[k].Skipped?
        invariant Load(old(file)).Some? ==> HasGrown(family, Load(old(file)).value, file, outcomes, false, added)
        invariant trees <= stuck && forall t :: t in stuck ==> IsEarlier(builds, i, t)
      {
        ghost var was := file;
        assert !builds[i].NoTree? ==> !IsEarlier(builds, i, builds[i].tree);
        var e := RunOne(refs[i], builds[i]);
        if Load(old(file)).Some? {
          added := Grows(family, Load(old(file)).value, was, builds[i], refs[i], file, e, outcomes, added);
        }
        if e.Died? { return outcomes, true, added; }
        outcomes := outcomes + [e.o];
        forall t | t in stuck ensures IsEarlier(builds, i + 1, t) {
          if !IsEarlier(builds, i, t) { assert builds[i].tree == t; }
        }
        i := i + 1;
      }
    }
  }

  // ---- what one version may do, and what all of them add up to -------------

  function New(family: string, b: Build): Snapshot
    requires b.Built?
  {
    Snapshot(CURRENT_SCHEMA, family, b.version, b.sha, b.labels)
  }

  /** One version leaves the file as it was or with its own snapshot on the end,
      and says which. */
  ghost predicate IsStep(family: string, before: Option<Text>, b: Build, refname: string, after: Option<Text>, e: Ended) {
    var was := Load(before);
    var joined := b.Built? && was.Some? && MayJoin(was.value, New(family, b)) && after == Some(Whole(was.value + [New(family, b)]));
    match e
    case Died => after == before || joined
    case Recorded(Skipped(r)) => r == refname && after == before
    case Recorded(Appended(r, v, s, n)) => r == refname && joined && v == b.version && s == b.sha && n == |was.value| + 1
  }

  function Appends(outcomes: seq<Outcome>): nat {
    if outcomes == [] then 0 else Appends(outcomes[..|outcomes| - 1]) + (if outcomes[|outcomes| - 1].Appended? then 1 else 0)
  }

  /** The file holds the history it started with, then what was added; every
      appended outcome reports the length the history had reached. */
  ghost predicate HasGrown(family: string, start: seq<Snapshot>, file: Option<Text>, outcomes: seq<Outcome>, died: bool, added: seq<Snapshot>) {
    Load(file) == Some(start + added) &&
    IsSingle(added, family) &&
    (added != [] ==> IsSingle(start, family)) &&
    Appends(outcomes) <= |added| <= Appends(outcomes) + (if died then 1 else 0) &&
    forall k :: 0 <= k < |outcomes| && outcomes[k].Appended? ==> outcomes[k].entries == |start| + Appends(outcomes[..k + 1])
  }

  /** The worktree of one of the first `n` versions. */
  ghost predicate IsEarlier(builds: seq<Build>, n: nat, tree: nat)
    requires n <= |builds|
  {
    exists k :: 0 <= k < n && !builds[k].NoTree? && builds[k].tree == tree
  }

  lemma AppendsOneMore(outcomes: seq<Outcome>, o: Outcome)
    ensures Appends(outcomes + [o]) == Appends(outcomes) + (if o.Appended? then 1 else 0)
  {
    assert (outcomes + [o])[..|outcomes|] == outcomes;
  }

  lemma ReportsStay(outcomes: seq<Outcome>, o: Outcome, k: nat)
    requires k < |outcomes|
    ensures Appends((outcomes + [o])[..k + 1]) == Appends(outcomes[..k + 1])
  {
    assert (outcomes + [o])[..k + 1] == outcomes[..k + 1];
  }

  /** What the file holds once a snapshot has joined it. */
  lemma JoinedLoads(family: string, before: Option<Text>, b: Build, start: seq<Snapshot>, added: seq<Snapshot>)
    requires b.Built? && Load(before) == Some(start + added) && MayJoin(start + added, New(family, b))
    ensures Load(Some(Whole(start + added + [New(family, b)]))) == Some(start + (added + [Migrate(New(family, b))]))
    ensures Migrate(New(family, b)).family == family
  {
    var h := if before.None? then [] else before.value.history;
    LoadAfterAppend(h, New(family, b));
    assert MigrateAll(h) == start + added;
    assert start + added + [Migrate(New(family, b))] == start + (added + [Migrate(New(family, b))]);
  }

  lemma Grows(family: string, start: seq<Snapshot>, before: Option<Text>, b: Build, refname: string, after: Option<Text>,
              e: Ended, outcomes: seq<Outcome>, added: seq<Snapshot>) returns (more: seq<Snapshot>)
    requires HasGrown(family, start, before, outcomes, false, added)
    requires IsStep(family, before, b, refname, after, e)
    ensures e.Died? ==> HasGrown(family, start, after, outcomes, true, more)
    ensures !e.Died? ==> HasGrown(family, start, after, outcomes + [e.o], false, more)
    ensures added <= more
  {
    more := added;
    if after != before || (e.Recorded? && e.o.Appended?) {
      JoinedLoads(family, before, b, start, added);
      more := added + [Migrate(New(family, b))];
      assert forall i :: 0 <= i < |start| ==> start[i] == (start + added)[i];
    }
    if e.Recorded? {
      AppendsOneMore(outcomes, e.o);
      forall k | 0 <= k < |outcomes| + 1 && (outcomes + [e.o])[k].Appended?
        ensures (outcomes + [e.o])[k].entries == |start| + Appends((outcomes + [e.o])[..k + 1])
      {
        if k < |outcomes| {
          ReportsStay(outcomes, e.o, k);
        } else {
          assert (outcomes + [e.o])[..k + 1] == outcomes + [e.o];
        }
      }
    }
  }

  /** The sweep conserves history: the migrated history it found is a prefix of
      the history it leaves, and a history of one family stays one. */
  lemma GrownIsConserved(family: string, start: seq<Snapshot>, file: Option<Text>, outcomes: seq<Outcome>, died: bool, added: seq<Snapshot>)
    requires HasGrown(family, start, file, outcomes, died, added)
    ensures Load(file).Some? && start <= Load(file).value
    ensures forall f :: IsSingle(start, f) && start != [] ==> IsSingle(Load(file).value, f)
    ensures !died ==> |Load(file).value| == |start| + Appends(outcomes)
  {
    if added != [] && start != [] {
      assert start[0].family == family;
    }
  }

  // ---- budgets ------------------------------------------------------------

  const U64_TOP: nat := 0xFFFF_FFFF_FFFF_FFFF

  function Cut(x: nat): nat {
    if x > U64_TOP then U64_TOP else x
  }

  function SaturatingMul(a: nat, b: nat): nat {
    Cut(a * b)
  }

  /** Twice the bytes of the smallest strip, no less than the floor. */
  function StreamingBudget(floor: nat, width: nat, tile: nat, bpp: nat): nat {
    var strip := SaturatingMul(SaturatingMul(width, SaturatingMul(2, tile)), bpp);
    var twice := SaturatingMul(strip, 2);
    if floor < twice then twice else floor
  }

  lemma CutOnce(a: nat, b: nat)
    ensures Cut(Cut(a) * b) == Cut(a * b) && Cut(b * Cut(a)) == Cut(b * a)
  {
    assert b * Cut(a) == Cut(a) * b && b * a == a * b;
    if a > U64_TOP && b > 0 {
      assert U64_TOP * b >= U64_TOP * 1;
      assert a * b >= a * 1;
    }
  }

  /** Saturating at every multiplication comes to saturating the exact product:
      the budget is the larger of the floor and four strips' bytes, cut off at
      the top of the range, and never wraps below what a strip needs. */
  lemma BudgetIsExact(floor: nat, width: nat, tile: nat, bpp: nat)
    ensures var needed := Cut(width * (2 * tile) * bpp * 2);
      StreamingBudget(floor, width, tile, bpp) == if floor < needed then needed else floor
  {
    CutOnce(2 * tile, width);
    CutOnce(width * (2 * tile), bpp);
    CutOnce(width * (2 * tile) * bpp, 2);
  }
}
