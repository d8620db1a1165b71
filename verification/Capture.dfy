/** The capture driver. */
module Capture {
  // It measures every family on a remote machine, gates each document, and
  // publishes all of them or none. Every step may answer, refuse, or break.

  import opened Words
  import opened Publishing
  import Spaces = Admission

  const FAMILIES: seq<string> := ["storage", "engines"]

  // ---- steps and answers --------------------------------------------------

  datatype Label =
    | Stage | Push | BuildDriver | Build(f: string) | MakeScratch
    | SettleCores(f: string) | SettleLoad(f: string)
    | LoadAtStart(f: string) | Measure(f: string) | Retrieve(f: string)
    | Check(f: string) | File(f: string) | Verify(f: string) | RetrieveFiled(f: string) | RetrieveIndex(f: string)
    | RemoveBuilder(f: string) | ListContainers(f: string) | RemoveContainer(f: string, id: string)
    | RemoveImage(f: string) | RemoveScratch | ListImages | ListScratch
    | Import(f: string)
    | Commit

  /** What a command came back with, and what the staged history holds once it
      has; or no answer at all. */
  datatype Reply = Reply(code: int, out: string, err: string, history: string) | Breaks

  datatype Event = Event(step: Label, reply: Reply)

  predicate Passes(e: Event, step: Label) {
    e.step == step && e.reply.Reply? && e.reply.code == 0
  }

  /** How the driver reads what commands print. An unreadable core count or load
      is none; a run id that is not there makes the driver give up. */
  datatype Readers = Readers(
    cores: string -> Option<int>,
    load: string -> Option<real>,
    runId: string -> Option<string>,
    isDocument: string -> bool,
    isHistory: string -> bool,
    lines: string -> seq<string>,
    words: string -> seq<string>)

  datatype Reason =
    | Said(f: string, line: string)
    | SaidNothing(f: string, code: int)
    | NotQuiet(f: string)
    | UnknownFamily
    | Unpublishable
    | Missing(families: seq<string>)

  datatype Halt<+T> = Done(value: T) | Refused(reasons: seq<Reason>) | Broke

  // ---- gates --------------------------------------------------------------

  /** White space as `str.strip` takes it: the Unicode property and the four
      information separators. */
  predicate IsStripped(c: char) {
    Spaces.IsSpace(c) || 0x1C <= c as int <= 0x1F
  }

  predicate IsBlank(line: string) {
    forall i :: 0 <= i < |line| ==> IsStripped(line[i])
  }

  function NonBlank(lines: seq<string>): seq<string> {
    if lines == [] then []
    else NonBlank(lines[..|lines| - 1]) + (if IsBlank(lines[|lines| - 1]) then [] else [lines[|lines| - 1]])
  }

  function SaidBy(f: string, lines: seq<string>): (r: seq<Reason>)
    ensures |r| == |lines|
    ensures forall i :: 0 <= i < |lines| ==> r[i] == Said(f, lines[i])
  {
    seq(|lines|, i requires 0 <= i < |lines| => Said(f, lines[i]))
  }

  /** The lines of the gate's complaint, or the driver's own line in their place. */
  method GateRefused(rd: Readers, r: Reply, f: string, refusals: seq<Reason>) returns (more: seq<Reason>)
    requires r.Reply?
    ensures |more| > |refusals| && more[..|refusals|] == refusals
    ensures var given := NonBlank(rd.lines(if r.err != "" then r.err else r.out));
      more[|refusals|..] == if given == [] then [SaidNothing(f, r.code)] else SaidBy(f, given)
  {
    var said := false;
    var lines := rd.lines(if r.err != "" then r.err else r.out);
    more := refusals;
    var i := 0;
    while i < |lines|
      invariant i <= |lines|
      invariant more == refusals + SaidBy(f, NonBlank(lines[..i]))
      invariant said <==> NonBlank(lines[..i]) != []
    {
      assert lines[..i + 1][..i] == lines[..i];
      if !IsBlank(lines[i]) {
        more := more + [Said(f, lines[i])];
        said := true;
      }
      i := i + 1;
    }
    assert lines[..i] == lines;
    if !said {
      more := more + [SaidNothing(f, r.code)];
    }
  }

  // ---- waiting for quiet --------------------------------------------------

  const SETTLE_POLL_S: nat := 20

  /** A reading under the line; one that could not be read is not. */
  predicate Under(reading: Option<real>, threshold: real) {
    reading.Some? && reading.value < threshold
  }

  /** Readings `i - 1` and `i` are both under the line. */
  predicate QuietAt(readings: seq<Option<real>>, threshold: real, i: int)
    requires 0 <= i < |readings|
  {
    i > 0 && Under(readings[i - 1], threshold) && Under(readings[i], threshold)
  }

  ghost predicate NeverQuiet(readings: seq<Option<real>>, threshold: real) {
    forall i :: 0 <= i < |readings| ==> !QuietAt(readings, threshold, i)
  }

  /** The readings are what the load steps from `start` on came back with. */
  ghost predicate AreReadings(rd: Readers, log: seq<Event>, start: nat, readings: seq<Option<real>>, f: string) {
    |log| == start + |readings| &&
    forall i :: start <= i < |log| ==> Passes(log[i], SettleLoad(f)) && rd.load(log[i].reply.out) == readings[i - start]
  }

  lemma OneMoreReading(readings: seq<Option<real>>, threshold: real, load: Option<real>)
    requires NeverQuiet(readings, threshold)
    ensures var more := readings + [load];
      NeverQuiet(more, threshold) <==> !QuietAt(more, threshold, |readings|)
  {
    var more := readings + [load];
    forall i | 0 <= i < |readings| ensures QuietAt(more, threshold, i) <==> QuietAt(readings, threshold, i) {
    }
  }

  // ---- what cleanup must reach --------------------------------------------

  ghost predicate Did(log: seq<Event>, step: Label) {
    exists i :: 0 <= i < |log| && log[i].step == step
  }

  ghost predicate ContainersRemoved(rd: Readers, log: seq<Event>, f: string, i: nat)
    requires i < |log|
  {
    log[i].step == ListContainers(f) && log[i].reply.Reply? &&
    forall id :: id in rd.words(log[i].reply.out) ==> Did(log, RemoveContainer(f, id))
  }

  /** Every container a family was still running, and its image, told to go. */
  ghost predicate IsGone(rd: Readers, log: seq<Event>, f: string) {
    Did(log, RemoveImage(f)) && exists i :: 0 <= i < |log| && ContainersRemoved(rd, log, f, i)
  }

  ghost predicate BuildersGone(log: seq<Event>) {
    forall k :: 0 <= k < |FAMILIES| ==> Did(log, RemoveBuilder(FAMILIES[k]))
  }

  ghost predicate FamiliesGone(rd: Readers, log: seq<Event>) {
    forall k :: 0 <= k < |FAMILIES| ==> IsGone(rd, log, FAMILIES[k])
  }

  /** Everything the run made has been told to go: builders, containers, images
      and the scratch tree. */
  ghost predicate CleanedUp(rd: Readers, log: seq<Event>) {
    BuildersGone(log) && FamiliesGone(rd, log) && Did(log, RemoveScratch)
  }

  predicate IsCleaning(step: Label) {
    step.RemoveBuilder? || step.ListContainers? || step.RemoveContainer? || step.RemoveImage? ||
    step.RemoveScratch? || step.ListImages? || step.ListScratch?
  }

  /** The last thing the driver did was a cleaning step it got no answer to. */
  predicate StoppedCleaning(log: seq<Event>) {
    |log| > 0 && IsCleaning(log[|log| - 1].step) && log[|log| - 1].reply.Breaks?
  }

  lemma GoneStays(rd: Readers, log: seq<Event>, more: seq<Event>, f: string)
    requires log <= more
    ensures forall step :: Did(log, step) ==> Did(more, step)
    ensures IsGone(rd, log, f) ==> IsGone(rd, more, f)
  {
    forall step | Did(log, step) ensures Did(more, step) {
      var i :| 0 <= i < |log| && log[i].step == step;
      assert more[i].step == step;
    }
    if IsGone(rd, log, f) {
      var i :| 0 <= i < |log| && ContainersRemoved(rd, log, f, i);
      assert ContainersRemoved(rd, more, f, i);
    }
  }

  lemma CleanStays(rd: Readers, log: seq<Event>, more: seq<Event>)
    requires log <= more
    ensures BuildersGone(log) ==> BuildersGone(more)
    ensures FamiliesGone(rd, log) ==> FamiliesGone(rd, more)
    ensures CleanedUp(rd, log) ==> CleanedUp(rd, more)
  {
    GoneStays(rd, log, more, "");
    forall k | 0 <= k < |FAMILIES| && FamiliesGone(rd, log) ensures IsGone(rd, more, FAMILIES[k]) {
      GoneStays(rd, log, more, FAMILIES[k]);
    }
  }

  /** From step `a` on the document of a family passed every gate on the machine
      that measured it, one after the other, and came back with its index. */
  ghost predicate IsGated(rd: Readers, log: seq<Event>, a: nat, f: string, runId: string) {
    a + 4 < |log| &&
    Passes(log[a], Check(f)) &&
    Passes(log[a + 1], File(f)) && rd.runId(log[a + 1].reply.out) == Some(runId) &&
    Passes(log[a + 2], Verify(f)) &&
    Passes(log[a + 3], RetrieveFiled(f)) &&
    Passes(log[a + 4], RetrieveIndex(f))
  }

  /** The staging tree holds what came back from the gates. */
  ghost predicate IsStaged(rd: Readers, log: seq<Event>, staged: map<string, Directory>, f: string, runId: string) {
    f in staged && exists a: nat :: IsGated(rd, log, a, f, runId) && Holds(staged[f], runId, log[a + 3].reply.out, log[a + 4].reply.out)
  }

  lemma StagedStays(rd: Readers, log: seq<Event>, more: seq<Event>, staged: map<string, Directory>, f: string, runId: string)
    requires IsStaged(rd, log, staged, f, runId) && log <= more
    ensures IsStaged(rd, more, staged, f, runId)
  {
    OthersStayStaged(rd, log, more, staged, staged, f, runId);
  }

  ghost predicate AreStaged(rd: Readers, log: seq<Event>, staged: map<string, Directory>, runIds: map<string, Option<string>>) {
    forall f :: f in runIds && runIds[f].Some? ==> IsStaged(rd, log, staged, f, runIds[f].value)
  }

  predicate AllPassed(runIds: map<string, Option<string>>, families: seq<string>) {
    forall k :: 0 <= k < |families| ==> families[k] in runIds && runIds[families[k]].Some?
  }

  // ---- the driver ---------------------------------------------------------

  class Driver {
    const reply: nat -> Reply
    const fates: nat -> Fate
    const rd: Readers
    var log: seq<Event>
    var copied: nat
    var repo: Repo
    var staged: map<string, Directory>
    var history: string
    var refusals: seq<Reason>
    var runIds: map<string, Option<string>>
    var imported: set<string>

    constructor (reply: nat -> Reply, fates: nat -> Fate, rd: Readers, repo: Repo)
      ensures this.reply == reply && this.fates == fates && this.rd == rd && this.repo == repo
      ensures copied == 0 && log == [] && refusals == [] && runIds == map[] && imported == {}
    {
      this.reply, this.fates, this.rd, this.repo := reply, fates, rd, repo;
      log, copied, staged, history, refusals, runIds, imported := [], 0, map[], "", [], map[], {};
    }

    /** One command. A non-zero exit is an answer only where it is allowed to be. */
    method Run(step: Label, allowFailure: bool) returns (h: Halt<Reply>)
      modifies this`log
      ensures var r := reply(|old(log)|);
        log == old(log) + [Event(step, r)] &&
        h == if r.Reply? && (allowFailure || r.code == 0) then Done(r) else Broke
    {
      var r := reply(|log|);
      log := log + [Event(step, r)];
      h := if r.Reply? && (allowFailure || r.code == 0) then Done(r) else Broke;
    }

    /** Wait for two readings in a row under half the cores, for as long as the
        budget lasts, or refuse. */
    method Settle(f: string, timeout: int) returns (h: Halt<real>, ghost readings: seq<Option<real>>, ghost threshold: real)
      modifies this`log
      ensures old(log) <= log
      ensures !h.Broke? ==> threshold > 0.0 && AreReadings(rd, log, |old(log)| + 1, readings, f)
      ensures h.Done? ==> h.value == threshold && |readings| >= 2
      ensures h.Done? ==> QuietAt(readings, threshold, |readings| - 1) && NeverQuiet(readings[..|readings| - 1], threshold)
      ensures |readings| >= 2 ==> SETTLE_POLL_S * (|readings| - 2) < timeout
      ensures h.Refused? ==> |readings| > 0 && SETTLE_POLL_S * (|readings| - 1) >= timeout && NeverQuiet(readings, threshold)
      ensures h.Refused? ==> h.reasons == [NotQuiet(f)]
    {
      readings, threshold := [], 0.0;
      var r := Run(SettleCores(f), false);
      if !r.Done? { return Broke, readings, threshold; }
      var parsed := rd.cores(r.value.out);
      var cores := if parsed.Some? then parsed.value else 6;
      if cores <= 0 { return Broke, readings, threshold; }
      var line := cores as real / 2.0;
      threshold := line;
      var waited := 0;
      var last: Option<real> := None;
      while true
        invariant old(log) <= log && AreReadings(rd, log, |old(log)| + 1, readings, f)
        invariant waited == SETTLE_POLL_S * |readings|
        invariant |readings| >= 1 ==> SETTLE_POLL_S * (|readings| - 1) < timeout
        invariant last == if readings == [] then None else readings[|readings| - 1]
        invariant NeverQuiet(readings, threshold)
        decreases timeout - waited
      {
        var raw := Run(SettleLoad(f), false);
        if !raw.Done? { return Broke, readings, threshold; }
        var load := rd.load(raw.value.out);
        OneMoreReading(readings, threshold, load);
        assert (readings + [load])[..|readings|] == readings;
        readings := readings + [load];
        if Under(last, line) && Under(load, line) {
          return Done(line), readings, threshold;
        }
        if waited >= timeout {
          return Refused([NotQuiet(f)]), readings, threshold;
        }
        last := load;
        waited := waited + SETTLE_POLL_S;
      }
    }

    // ---- measuring and gating ---------------------------------------------

    /** Everything measured so far that passed its gates is staged, and with no
        refusal everything measured so far has passed. */
    ghost predicate Good(measured: seq<string>)
      reads this
    {
      AreStaged(rd, log, staged, runIds) && (refusals == [] ==> AllPassed(runIds, measured))
    }

    /** Check, archive and verify a document on the machine that measured it,
        and bring the sealed file and the index back to the staging tree. */
    method ArchiveFamily(f: string) returns (h: Halt<Option<string>>)
      modifies this`log, this`staged, this`refusals
      ensures old(log) <= log && old(refusals) <= refusals && !h.Refused?
      ensures forall g :: g != f ==> (g in staged <==> g in old(staged)) && (g in staged ==> staged[g] == old(staged)[g])
      ensures h.Done? && h.value.Some? ==> IsStaged(rd, log, staged, f, h.value.value) && refusals == old(refusals)
      ensures h.Done? && h.value.None? ==> |refusals| > |old(refusals)| && staged == old(staged)
    {
      var a := |log|;
      var check := Run(Check(f), true);
      if !check.Done? { return Broke; }
      if check.value.code != 0 { refusals := GateRefused(rd, check.value, f, refusals); return Done(None); }
      var filed := Run(File(f), true);
      if !filed.Done? { return Broke; }
      if filed.value.code != 0 { refusals := GateRefused(rd, filed.value, f, refusals); return Done(None); }
      var runId := rd.runId(filed.value.out);
      if runId.None? { return Broke; }
      var verified := Run(Verify(f), true);
      if !verified.Done? { return Broke; }
      if verified.value.code != 0 { refusals := GateRefused(rd, verified.value, f, refusals); return Done(None); }
      h := BringBack(f, runId.value, a);
    }

    method BringBack(f: string, runId: string, ghost a: nat) returns (h: Halt<Option<string>>)
      requires a + 3 == |log| && Passes(log[a], Check(f)) && Passes(log[a + 1], File(f))
      requires rd.runId(log[a + 1].reply.out) == Some(runId) && Passes(log[a + 2], Verify(f))
      modifies this`log, this`staged
      ensures old(log) <= log && (h.Broke? || h == Done(Some(runId)))
      ensures forall g :: g != f ==> (g in staged <==> g in old(staged)) && (g in staged ==> staged[g] == old(staged)[g])
      ensures h.Done? ==> IsStaged(rd, log, staged, f, runId)
    {
      var document := Run(RetrieveFiled(f), false);
      if !document.Done? { return Broke; }
      var index := Run(RetrieveIndex(f), false);
      if !index.Done? { return Broke; }
      assert IsGated(rd, log, a, f, runId);
      Store(f, runId, document.value.out, index.value.out);
      assert Holds(staged[f], runId, log[a + 3].reply.out, log[a + 4].reply.out);
      h := Done(Some(runId));
    }

    /** The sealed file and the index, written one after the other. */
    method Store(f: string, runId: string, document: string, index: string)
      modifies this`staged
      ensures forall g :: g != f ==> (g in staged <==> g in old(staged)) && (g in staged ==> staged[g] == old(staged)[g])
      ensures f in staged && Holds(staged[f], runId, document, index)
    {
      var directory := if f in staged then staged[f] else map[];
      directory := directory[runId + ".json" := document];
      directory := directory["index.json" := index];
      staged := staged[f := directory];
      NamedApart(runId);
    }

    method ImportFamily(f: string) returns (h: Halt<bool>)
      modifies this`log, this`history, this`refusals
      ensures old(log) <= log && old(refusals) <= refusals && !h.Refused?
      ensures h == Done(true) ==>
        |log| > 0 && Passes(log[|log| - 1], Import(f)) && history == log[|log| - 1].reply.history && refusals == old(refusals)
      ensures h == Done(false) ==> |refusals| > |old(refusals)|
    {
      var r := Run(Import(f), true);
      if !r.Done? { return Broke; }
      history := r.value.history;
      if r.value.code != 0 { refusals := GateRefused(rd, r.value, f, refusals); return Done(false); }
      h := Done(true);
    }

    method MeasureFamily(f: string, timeout: int) returns (h: Halt<()>)
      modifies this`log
      ensures old(log) <= log && (h.Refused? ==> h.reasons != [])
    {
      var settled, _, _ := Settle(f, timeout);
      if settled.Refused? { return Refused(settled.reasons); }
      if settled.Broke? { return Broke; }
      var load := Run(LoadAtStart(f), true);
      if !load.Done? { return Broke; }
      var measured := Run(Measure(f), false);
      if !measured.Done? { return Broke; }
      var document := Run(Retrieve(f), false);
      if !document.Done? { return Broke; }
      h := if rd.isDocument(document.value.out) then Done(()) else Broke;
    }

    method MeasureAll(families: seq<string>, timeout: int) returns (h: Halt<()>)
      requires Good([])
      modifies this`log, this`staged, this`refusals, this`runIds
      ensures old(log) <= log && (h.Refused? ==> h.reasons != [])
      ensures h.Done? ==> Good(families)
    {
      var i := 0;
      while i < |families|
        invariant i <= |families| && old(log) <= log && Good(families[..i])
      {
        var f := families[i];
        h := MeasureAndFile(f, timeout, families[..i]);
        if !h.Done? { return; }
        assert families[..i + 1] == families[..i] + [f];
        i := i + 1;
      }
      assert families[..i] == families;
      h := Done(());
    }

    method MeasureAndFile(f: string, timeout: int, ghost measured: seq<string>) returns (h: Halt<()>)
      requires Good(measured)
      modifies this`log, this`staged, this`refusals, this`runIds
      ensures old(log) <= log && (h.Refused? ==> h.reasons != [])
      ensures h.Done? ==> Good(measured + [f])
    {
      ghost var was := log;
      h := MeasureFamily(f, timeout);
      LogGrows(rd, was, log, staged, runIds);
      if h.Done? {
        h := FileAndRecord(f, measured);
      }
    }

    method FileAndRecord(f: string, ghost measured: seq<string>) returns (h: Halt<()>)
      requires Good(measured)
      modifies this`log, this`staged, this`refusals, this`runIds
      ensures old(log) <= log && !h.Refused?
      ensures h.Done? ==> Good(measured + [f])
    {
      var filed := ArchiveFamily(f);
      if filed.Done? {
        AnotherIsStaged(rd, old(log), log, old(staged), staged, runIds, f, filed.value);
        if refusals == [] { OneMorePassed(runIds, measured, f, filed.value); }
        runIds := runIds[f := filed.value];
        h := Done(());
      } else {
        h := Broke;
      }
    }

    // ---- the machine and what is left on it -------------------------------

    method NasWork(families: seq<string>, timeout: int) returns (h: Halt<()>)
      requires Good([])
      modifies this`log, this`staged, this`refusals, this`runIds
      ensures old(log) <= log && (h.Refused? ==> h.reasons != [])
      ensures h.Done? ==> Good(families)
    {
      h := RunAll([Push, BuildDriver]);
      if !h.Done? { return; }
      h := RunAll(Builds(families));
      if !h.Done? { return; }
      h := RunAll([MakeScratch, MakeScratch, Push]);
      if !h.Done? { return; }
      h := MeasureAll(families, timeout);
    }

    /** Steps none of which may fail. */
    method RunAll(steps: seq<Label>) returns (h: Halt<()>)
      requires Good([])
      modifies this`log
      ensures old(log) <= log && !h.Refused? && Good([])
    {
      var i := 0;
      while i < |steps|
        invariant i <= |steps| && old(log) <= log && Good([])
      {
        ghost var before := log;
        var r := Run(steps[i], false);
        LogGrows(rd, before, log, staged, runIds);
        if !r.Done? { return Broke; }
        i := i + 1;
      }
      h := Done(());
    }

    /** Tell everything the run made to go, then list what is left. A command
        that answers with a failure does not stop it. */
    method Cleanup() returns (h: Halt<()>)
      modifies this`log
      ensures old(log) <= log && !h.Refused?
      ensures h.Done? ==> CleanedUp(rd, log)
      ensures h.Broke? ==> StoppedCleaning(log)
    {
      h := RemoveBuilders();
      if h.Done? {
        ghost var before := log;
        h := RemoveFamilies();
        CleanStays(rd, before, log);
      }
      if h.Done? {
        h := FinishCleanup();
      }
    }

    method FinishCleanup() returns (h: Halt<()>)
      requires BuildersGone(log) && FamiliesGone(rd, log)
      modifies this`log
      ensures old(log) <= log && !h.Refused?
      ensures h.Done? ==> CleanedUp(rd, log)
      ensures h.Broke? ==> StoppedCleaning(log)
    {
      var steps := [RemoveScratch, ListImages, ListScratch];
      h := Finish(steps);
      CleanStays(rd, old(log), log);
      if h.Done? { assert Did(log, steps[0]); }
    }

    /** Steps that may each fail without stopping the next. */
    method Finish(steps: seq<Label>) returns (h: Halt<()>)
      requires forall k :: 0 <= k < |steps| ==> IsCleaning(steps[k])
      modifies this`log
      ensures old(log) <= log && !h.Refused?
      ensures h.Done? ==> forall k :: 0 <= k < |steps| ==> Did(log, steps[k])
      ensures h.Broke? ==> StoppedCleaning(log)
    {
      var i := 0;
      while i < |steps|
        invariant i <= |steps| && old(log) <= log
        invariant forall k :: 0 <= k < i ==> Did(log, steps[k])
      {
        ghost var before := log;
        var r := Run(steps[i], true);
        GoneStays(rd, before, log, "");
        assert log[|log| - 1].step == steps[i];
        if !r.Done? { return Broke; }
        i := i + 1;
      }
      h := Done(());
    }

    method RemoveBuilders() returns (h: Halt<()>)
      modifies this`log
      ensures old(log) <= log && !h.Refused?
      ensures h.Done? ==> BuildersGone(log)
      ensures h.Broke? ==> StoppedCleaning(log)
    {
      var steps := seq(|FAMILIES|, i requires 0 <= i < |FAMILIES| => RemoveBuilder(FAMILIES[i]));
      h := Finish(steps);
      if h.Done? {
        forall k | 0 <= k < |FAMILIES| ensures Did(log, RemoveBuilder(FAMILIES[k])) {
          assert Did(log, steps[k]);
        }
      }
    }

    method RemoveFamilies() returns (h: Halt<()>)
      modifies this`log
      ensures old(log) <= log && !h.Refused?
      ensures h.Done? ==> FamiliesGone(rd, log)
      ensures h.Broke? ==> StoppedCleaning(log)
    {
      var i := 0;
      h := Done(());
      while i < |FAMILIES| && h.Done?
        invariant i <= |FAMILIES| && old(log) <= log && !h.Refused?
        invariant h.Done? ==> forall k :: 0 <= k < i ==> IsGone(rd, log, FAMILIES[k])
        invariant h.Broke? ==> StoppedCleaning(log)
      {
        ghost var before := log;
        h := RemoveFamily(FAMILIES[i]);
        forall k | h.Done? && 0 <= k < i ensures IsGone(rd, log, FAMILIES[k]) {
          GoneStays(rd, before, log, FAMILIES[k]);
        }
        i := i + 1;
      }
    }

    method RemoveFamily(f: string) returns (h: Halt<()>)
      modifies this`log
      ensures old(log) <= log && !h.Refused?
      ensures h.Done? ==> IsGone(rd, log, f)
      ensures h.Broke? ==> StoppedCleaning(log)
    {
      ghost var at := |log|;
      var listed := Run(ListContainers(f), true);
      if !listed.Done? { return Broke; }
      var ids := rd.words(listed.value.out);
      var steps := seq(|ids|, i requires 0 <= i < |ids| => RemoveContainer(f, ids[i]));
      h := Finish(steps + [RemoveImage(f)]);
      if h.Done? {
        forall id | id in ids ensures Did(log, RemoveContainer(f, id)) {
          var k :| 0 <= k < |ids| && ids[k] == id;
          assert Did(log, (steps + [RemoveImage(f)])[k]);
        }
        assert Did(log, (steps + [RemoveImage(f)])[|steps|]);
        assert ContainersRemoved(rd, log, f, at);
      }
    }

    // ---- importing and publishing -----------------------------------------

    /** Import every family that was filed; one that was not is passed over. */
    method ImportAll(families: seq<string>) returns (h: Halt<()>)
      requires AreStaged(rd, log, staged, runIds)
      modifies this`log, this`history, this`refusals, this`imported
      ensures old(log) <= log && old(refusals) <= refusals && !h.Refused?
      ensures AreStaged(rd, log, staged, runIds)
      ensures old(imported) == {} ==> AreImported(rd, log, runIds, imported)
    {
      var i := 0;
      h := Done(());
      while i < |families| && h.Done?
        invariant i <= |families| && old(log) <= log && old(refusals) <= refusals && !h.Refused?
        invariant old(imported) == {} ==> AreImported(rd, log, runIds, imported)
      {
        var f := families[i];
        if f in runIds && runIds[f].Some? {
          h := ImportOne(f);
        }
        i := i + 1;
      }
      LogGrows(rd, old(log), log, staged, runIds);
    }

    method ImportOne(f: string) returns (h: Halt<()>)
      requires f in runIds && runIds[f].Some?
      modifies this`log, this`history, this`refusals, this`imported
      ensures old(log) <= log && old(refusals) <= refusals && !h.Refused?
      ensures AreImported(rd, old(log), runIds, old(imported)) ==> AreImported(rd, log, runIds, imported)
    {
      var r := ImportFamily(f);
      ImportsStay(rd, old(log), log, runIds, imported);
      if r.Done? {
        imported := if r.value then imported + {f} else imported - {f};
        h := Done(());
      } else {
        h := Broke;
      }
    }

    /** Make the copies, one after another. One that fails stops it there. */
    method CopyAll(cs: seq<Copy>) returns (h: Halt<()>, ghost k: nat)
      modifies this`repo, this`copied
      ensures !h.Refused? && copied >= old(copied)
      ensures StopsAt(fates, old(copied), |cs|, k) && (h.Done? <==> k == |cs|)
      ensures repo == Stopped(old(repo), cs, fates, old(copied), k)
    {
      k := 0;
      var i := 0;
      while i < |cs|
        invariant i <= |cs| && k == i && copied == old(copied) + i && GoThrough(fates, old(copied), i)
        invariant repo == AllCopied(old(repo), cs[..i])
      {
        assert cs[..i + 1][..i] == cs[..i];
        var fate := fates(copied);
        copied := copied + 1;
        if !fate.Copies? {
          repo := Broken(repo, cs[i].path, fate);
          return Broke, k;
        }
        repo := repo[cs[i].path := cs[i].text];
        i := i + 1;
        k := k + 1;
      }
      assert cs[..i] == cs;
      h := Done(());
    }

    /** Put what was staged into the repository. */
    method Publish(families: seq<string>) returns (h: Halt<()>, ghost cs: seq<Copy>, ghost k: nat)
      modifies this`repo, this`copied
      ensures !h.Refused? && copied >= old(copied)
      ensures IsPlan(cs, staged, history, families) && StopsAt(fates, old(copied), |cs|, k) && (h.Done? <==> k == |cs|)
      ensures repo == Stopped(old(repo), cs, fates, old(copied), k)
      ensures h.Done? ==> IsPublished(repo, old(repo), staged, history, families)
      ensures IsWhole(repo, old(repo), staged, history, families) <==> StopsCleanly(old(repo), cs, fates, old(copied), k)
    {
      var plan := PlanOf(staged, history, families);
      cs := plan;
      h, k := CopyAll(plan);
      WholeOrUnchangedIff(old(repo), cs, fates, old(copied), k, staged, history, families);
      if h.Done? {
        AllCopiedIsPublished(old(repo), cs, staged, history, families);
      }
    }

    // ---- the whole run ----------------------------------------------------

    /** After the machine is done with: import, and publish every family that
        was asked for or none of them. */
    method Conclude(families: seq<string>, plan: bool, commit: bool) returns (h: Halt<bool>, ghost p: Publication)
      requires AreStaged(rd, log, staged, runIds) && imported == {}
      modifies this`log, this`history, this`refusals, this`imported, this`repo, this`copied
      ensures old(log) <= log && staged == old(staged)
      ensures h.Refused? ==> p.NotBegun? && h.reasons != []
      ensures h.Done? ==> h.value == !plan && (h.value ==> p.Begun? && p.k == |p.cs|)
      ensures p.Begun? || h.Done? ==> refusals == [] && AllGated(rd, log, staged, runIds, families)
      ensures plan ==> p.NotBegun?
      ensures IsOutcome(p, repo, old(repo), fates, old(copied), staged, history, families)
    {
      p := NotBegun;
      var r := ImportAll(families);
      if !r.Done? { return Broke, p; }
      var missing := NotIn(families, imported);
      if missing != [] { return Refused(refusals + [Missing(missing)]), p; }
      if refusals != [] { return Refused(refusals), p; }
      EveryFamilyIsGated(rd, log, staged, runIds, imported, families);
      if plan {
        h := if rd.isHistory(history) then Done(false) else Broke;
        return h, p;
      }
      ghost var before := log;
      h, p := PublishAndCommit(families, commit);
      GatesStay(rd, before, log, staged, runIds, families);
    }

    method PublishAndCommit(families: seq<string>, commit: bool) returns (h: Halt<bool>, ghost p: Publication)
      modifies this`log, this`repo, this`copied
      ensures old(log) <= log && !h.Refused? && p.Begun?
      ensures h.Done? ==> h.value && p.k == |p.cs|
      ensures IsOutcome(p, repo, old(repo), fates, old(copied), staged, history, families)
    {
      var copiedAll, cs, k := Publish(families);
      p := Begun(cs, k);
      if !copiedAll.Done? { return Broke, p; }
      if !rd.isHistory(history) { return Broke, p; }
      if commit {
        var added := Run(Commit, false);
        if !added.Done? { return Broke, p; }
        var committed := Run(Commit, false);
        if !committed.Done? { return Broke, p; }
      }
      h := Done(true);
    }

    /** The part that uses the machine, and the cleaning up that follows it
        however it ended. */
    method UseMachine(families: seq<string>, timeout: int, keep: bool) returns (h: Halt<()>)
      requires Good([])
      modifies this`log, this`staged, this`refusals, this`runIds
      ensures old(log) <= log && (h.Refused? ==> h.reasons != [])
      ensures h.Done? ==> Good(families)
      ensures keep || CleanedUp(rd, log) || (h.Broke? && StoppedCleaning(log))
    {
      h := NasWork(families, timeout);
      if !keep {
        ghost var before := log;
        var cleaned := Cleanup();
        if h.Done? { LogGrows(rd, before, log, staged, runIds); }
        if !cleaned.Done? { h := Broke; }
      }
    }

    /** The machine used and cleaned, then what was measured published, all of it
        or nothing. */
    method MeasureAndPublish(families: seq<string>, timeout: int, plan: bool, keep: bool, commit: bool)
      returns (h: Halt<bool>, ghost p: Publication)
      requires Good([]) && imported == {}
      modifies this`log, this`staged, this`refusals, this`runIds, this`history, this`imported, this`repo, this`copied
      ensures h.Refused? ==> p.NotBegun? && h.reasons != []
      ensures h.Done? ==> h.value == !plan && (h.value ==> p.Begun? && p.k == |p.cs|)
      ensures p.Begun? || h.Done? ==> refusals == [] && AllGated(rd, log, staged, runIds, families)
      ensures plan ==> p.NotBegun?
      ensures IsOutcome(p, repo, old(repo), fates, old(copied), staged, history, families)
      ensures !keep ==> CleanedUp(rd, log) || (h.Broke? && StoppedCleaning(log) && p.NotBegun?)
    {
      p := NotBegun;
      var used := UseMachine(families, timeout, keep);
      if used.Refused? {
        h := Refused(used.reasons);
      } else if used.Broke? {
        h := Broke;
      } else {
        ghost var before := log;
        h, p := Conclude(families, plan, commit);
        CleanStays(rd, before, log);
      }
    }

    /** `main`, from the families asked for to what the repository holds. */
    method Capture(families: seq<string>, publishable: bool, timeout: int, plan: bool, keep: bool, commit: bool)
      returns (h: Halt<bool>, ghost usedMachine: bool, ghost p: Publication)
      requires log == [] && copied == 0 && refusals == [] && runIds == map[] && imported == {}
      modifies this
      ensures h.Refused? ==> p.NotBegun? && h.reasons != []
      ensures h.Done? ==> h.value == !plan && (h.value ==> p.Begun? && p.k == |p.cs|)
      ensures p.Begun? || h.Done? ==> refusals == [] && AllGated(rd, log, staged, runIds, families)
      ensures plan || !publishable ==> p.NotBegun?
      ensures IsOutcome(p, repo, old(repo), fates, 0, staged, history, families)
      ensures usedMachine && !keep ==> CleanedUp(rd, log) || (h.Broke? && StoppedCleaning(log) && p.NotBegun?)
      ensures !publishable || (exists k :: 0 <= k < |families| && families[k] !in FAMILIES) ==> h.Refused? && log == []
    {
      usedMachine, p := false, NotBegun;
      if exists k :: 0 <= k < |families| && families[k] !in FAMILIES { return Refused([UnknownFamily]), usedMachine, p; }
      if !publishable { return Refused([Unpublishable]), usedMachine, p; }
      var copiedHere := StageArchive(families);
      if !copiedHere { return Broke, usedMachine, p; }
      var ready := RunAll([Stage, Stage, Stage, Stage, Stage, Stage]);
      if !ready.Done? { return Broke, usedMachine, p; }
      usedMachine := true;
      h, p := MeasureAndPublish(families, timeout, plan, keep, commit);
    }

    /** What the steps that follow will change in place of the repository. One
        without a history has nothing to copy. */
    method StageArchive(families: seq<string>) returns (ok: bool)
      modifies this`staged, this`history
      ensures ok <==> History in repo
      ensures ok ==> history == repo[History]
      ensures ok ==> forall f :: f in staged <==> f in families && Folder(f) in repo
      ensures ok ==> forall f :: f in staged ==> staged[f] == FilesOf(repo, f)
    {
      ok := History in repo;
      if ok {
        history := repo[History];
        staged := map f | f in families && Folder(f) in repo :: FilesOf(repo, f);
      }
    }
  }

  function NotIn(families: seq<string>, imported: set<string>): (missing: seq<string>)
    ensures missing == [] <==> forall k :: 0 <= k < |families| ==> families[k] in imported
  {
    if families == [] then []
    else
      var rest := NotIn(families[..|families| - 1], imported);
      var r := if families[|families| - 1] in imported then rest else rest + [families[|families| - 1]];
      assert forall k :: 0 <= k < |families| - 1 ==> families[k] == families[..|families| - 1][k];
      r
  }

  /** Every family asked for was checked, filed, verified, brought back and
      imported. */
  ghost predicate AllGated(rd: Readers, log: seq<Event>, staged: map<string, Directory>, runIds: map<string, Option<string>>, families: seq<string>) {
    forall k :: 0 <= k < |families| ==>
      families[k] in runIds && runIds[families[k]].Some? &&
      IsStaged(rd, log, staged, families[k], runIds[families[k]].value) && WasImported(log, families[k])
  }

  lemma EveryFamilyIsGated(rd: Readers, log: seq<Event>, staged: map<string, Directory>, runIds: map<string, Option<string>>,
                           imported: set<string>, families: seq<string>)
    requires AreStaged(rd, log, staged, runIds) && AreImported(rd, log, runIds, imported)
    requires forall k :: 0 <= k < |families| ==> families[k] in imported
    ensures AllGated(rd, log, staged, runIds, families)
  {
  }

  lemma GatesStay(rd: Readers, log: seq<Event>, more: seq<Event>, staged: map<string, Directory>,
                  runIds: map<string, Option<string>>, families: seq<string>)
    requires log <= more && AllGated(rd, log, staged, runIds, families)
    ensures AllGated(rd, more, staged, runIds, families)
  {
    forall k | 0 <= k < |families|
      ensures IsStaged(rd, more, staged, families[k], runIds[families[k]].value) && WasImported(more, families[k])
    {
      StagedStays(rd, log, more, staged, families[k], runIds[families[k]].value);
      var i :| 0 <= i < |log| && Passes(log[i], Import(families[k]));
      assert Passes(more[i], Import(families[k]));
    }
  }

  /** Every family marked as imported was, and nothing else is marked. */
  ghost predicate AreImported(rd: Readers, log: seq<Event>, runIds: map<string, Option<string>>, imported: set<string>) {
    forall f :: f in imported ==> f in runIds && runIds[f].Some? && WasImported(log, f)
  }

  ghost predicate WasImported(log: seq<Event>, f: string) {
    exists i :: 0 <= i < |log| && Passes(log[i], Import(f))
  }

  lemma ImportsStay(rd: Readers, log: seq<Event>, more: seq<Event>, runIds: map<string, Option<string>>, imported: set<string>)
    requires log <= more
    ensures AreImported(rd, log, runIds, imported) ==> AreImported(rd, more, runIds, imported)
  {
    forall f | WasImported(log, f) ensures WasImported(more, f) {
      var i :| 0 <= i < |log| && Passes(log[i], Import(f));
      assert Passes(more[i], Import(f));
    }
  }

  function Builds(families: seq<string>): seq<Label> {
    seq(|families|, i requires 0 <= i < |families| => Build(families[i]))
  }

  lemma NamedApart(runId: string)
    ensures runId != "index" ==> runId + ".json" != "index.json"
  {
    if runId + ".json" == "index.json" {
      assert (runId + ".json")[..|runId|] == runId && |runId| == 5;
      assert runId == "index.json"[..5] == "index";
    }
  }

  lemma OthersStayStaged(rd: Readers, log: seq<Event>, more: seq<Event>, staged: map<string, Directory>,
                         after: map<string, Directory>, f: string, runId: string)
    requires IsStaged(rd, log, staged, f, runId) && log <= more && f in after && after[f] == staged[f]
    ensures IsStaged(rd, more, after, f, runId)
  {
    var a: nat :| IsGated(rd, log, a, f, runId) && Holds(staged[f], runId, log[a + 3].reply.out, log[a + 4].reply.out);
    assert forall i :: a <= i < a + 5 ==> more[i] == log[i];
    assert IsGated(rd, more, a, f, runId);
  }

  lemma LogGrows(rd: Readers, log: seq<Event>, more: seq<Event>, staged: map<string, Directory>, runIds: map<string, Option<string>>)
    requires log <= more && AreStaged(rd, log, staged, runIds)
    ensures AreStaged(rd, more, staged, runIds)
  {
    forall f | f in runIds && runIds[f].Some? ensures IsStaged(rd, more, staged, f, runIds[f].value) {
      StagedStays(rd, log, more, staged, f, runIds[f].value);
    }
  }

  lemma OneMorePassed(runIds: map<string, Option<string>>, measured: seq<string>, f: string, result: Option<string>)
    requires AllPassed(runIds, measured) && result.Some?
    ensures AllPassed(runIds[f := result], measured + [f])
  {
  }

  lemma AnotherIsStaged(rd: Readers, log: seq<Event>, more: seq<Event>, staged: map<string, Directory>, after: map<string, Directory>,
                        runIds: map<string, Option<string>>, f: string, result: Option<string>)
    requires log <= more && AreStaged(rd, log, staged, runIds)
    requires forall g :: g != f ==> (g in after <==> g in staged) && (g in after ==> after[g] == staged[g])
    requires result.Some? ==> IsStaged(rd, more, after, f, result.value)
    ensures AreStaged(rd, more, after, runIds[f := result])
  {
    forall g | g in runIds && runIds[g].Some? && g != f ensures IsStaged(rd, more, after, g, runIds[g].value) {
      OthersStayStaged(rd, log, more, staged, after, g, runIds[g].value);
    }
  }
}
