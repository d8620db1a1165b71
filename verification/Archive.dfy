/** The archive directory. */
module Archive {
  // Documents under names derived from their own evidence, one index beside
  // them, every write made by filling a temporary file and renaming it. The
  // process may die, and the filesystem may refuse, at every single effect.

  import opened Words
  import opened Decimals
  import opened Json
  import opened Canonical
  import opened Integrity
  import opened Admission

  /** What the archiver takes from outside: the hash, the text of a value, the
      planner's walk length for a cell name, and its own process id. */
  datatype World = World(hash: string -> string, show: Json -> string, walk: string -> Option<nat>, process: nat)

  /** A file's text, read as JSON: a document, or something that is not one. */
  datatype Text = Garbled | Document(v: Json)

  type Files = map<string, Text>

  const INDEX := "index.json"

  predicate IsJsonName(name: string) {
    EndsWith(name, ".json")
  }

  function FileName(id: string): string {
    id + ".json"
  }

  /** The extension is replaced, so a temporary file never looks like a filed one. */
  function TempName(w: World, name: string, nonce: nat): string
    requires IsJsonName(name)
  {
    name[..|name| - 5] + ".tmp-" + NatText(w.process) + "-" + NatText(nonce)
  }

  // ---- what one document is filed as --------------------------------------

  predicate Undisputed(w: World, doc: Json) {
    var claimed := Get(doc, "integrity");
    claimed.None? || claimed == Some(Null)
  }

  /** `admit_text`: no rule refuses, and digests the document carries still hold. */
  ghost predicate Admitted(w: World, doc: Json) {
    Admissible(doc, w.walk) &&
    (Undisputed(w, doc) || (Accepted(Evidence(doc)) && Stated(doc) == Some(DigestsOf(w.hash, doc))))
  }

  function IdOf(w: World, doc: Json): Result<string, Missing> {
    RunId(doc, w.hash, w.show)
  }

  function DigestOf(w: World, doc: Json): string {
    DigestsOf(w.hash, doc).document
  }

  /** The digest a filed document carries, empty when it carries none. */
  function FiledDigest(v: Json): string {
    var d := Under(Some(v), ["integrity", "document"]);
    if d.Some? && d.value.Str? then d.value.s else ""
  }

  /** An id that names a file of the directory itself. */
  predicate IsPlain(id: string) {
    '/' !in id && (0 as char) !in id
  }

  // ---- the index ----------------------------------------------------------

  function OrNull(v: Option<Json>): Json {
    if v.Some? then v.value else Null
  }

  function Row(w: World, id: string, digest: string, doc: Json): Json {
    var provenance := Get(doc, "provenance");
    Obj([Entry("runId", Str(id)),
         Entry("documentDigest", Str(digest)),
         Entry("startedAt", OrNull(Get(doc, "startedAt"))),
         Entry("libraryCommit", OrNull(Under(provenance, ["library", "commit"]))),
         Entry("emulated", OrNull(Under(provenance, ["emulated"]))),
         Entry("fsType", OrNull(Under(provenance, ["filesystem", "fsType"]))),
         Entry("file", Str(FileName(id)))])
  }

  function RowId(row: Json): Option<string> {
    var id := Get(row, "runId");
    if id.Some? && id.value.Str? then Some(id.value.s) else None
  }

  /** A row with no id sorts before every row that has one. */
  function SortKey(id: Option<string>): string {
    if id.None? then "" else "#" + id.value
  }

  function Keyed(rows: seq<Json>): (r: seq<Entry<Json>>)
    ensures |r| == |rows|
    ensures forall i :: 0 <= i < |rows| ==> r[i] == Entry(SortKey(RowId(rows[i])), rows[i])
  {
    seq(|rows|, i requires 0 <= i < |rows| => Entry(SortKey(RowId(rows[i])), rows[i]))
  }

  function Unkeyed(es: seq<Entry<Json>>): (r: seq<Json>)
    ensures |r| == |es|
    ensures forall i :: 0 <= i < |es| ==> r[i] == es[i].value
  {
    seq(|es|, i requires 0 <= i < |es| => es[i].value)
  }

  predicate HasRow(rows: seq<Json>, id: string) {
    exists i :: 0 <= i < |rows| && RowId(rows[i]) == Some(id)
  }

  function WithRow(rows: seq<Json>, row: Json): seq<Json> {
    Unkeyed(SortByKey(Keyed(rows + [row])))
  }

  predicate Readable(files: Files) {
    INDEX in files ==> files[INDEX].Document? && files[INDEX].v.Arr?
  }

  function RowsOf(files: Files): seq<Json>
    requires Readable(files)
  {
    if INDEX in files then files[INDEX].v.items else []
  }

  // ---- one call -----------------------------------------------------------

  datatype ArchiveError =
    | Malformed
    | Refused
    | NoRunId(missing: Missing)
    | Uncanonical(reason: CanonicalError)
    | Collision(runId: string, existing: string, incoming: string)
    | Io

  datatype Outcome =
    | Archived(runId: string, digest: string, written: bool)
    | Failed(error: ArchiveError)
    | Crashed

  /** The arguments of one call, with the clock readings it makes. */
  datatype Call = Call(text: Text, now: string, nonce: nat, indexNonce: nat)

  predicate Halted(o: Outcome) {
    o == Crashed || o == Failed(Io)
  }

  function Replaced(files: Files, name: string, text: Text, temp: string): Files {
    (files - {temp})[name := text]
  }

  /** Every disk an atomic write can leave when it does not come back with
      success: nothing done, a torn or whole temporary file, the temporary file
      cleaned up, or the rename done and the process dead before it could say so. */
  predicate Unfinished(files: Files, name: string, text: Text, temp: string, after: Files) {
    after == files || after == files[temp := Garbled] || after == files[temp := text] ||
    after == files - {temp} || after == Replaced(files, name, text, temp)
  }

  /** The index step, from the disk on which the document is already filed. */
  ghost predicate Indexing(w: World, files: Files, c: Call, doc: Json, id: string, written: bool, after: Files, o: Outcome) {
    var done := Archived(id, DigestOf(w, doc), written);
    if !Readable(files) then after == files && Halted(o)
    else if HasRow(RowsOf(files), id) then after == files && (o == done || Halted(o))
    else
      var text := Document(Arr(WithRow(RowsOf(files), Row(w, id, DigestOf(w, doc), doc))));
      var temp := TempName(w, INDEX, c.indexNonce);
      (Halted(o) && Unfinished(files, INDEX, text, temp, after)) ||
      (o == done && after == Replaced(files, INDEX, text, temp))
  }

  ghost predicate Filing(w: World, files: Files, c: Call, doc: Json, id: string, after: Files, o: Outcome) {
    var name := FileName(id);
    if name in files then
      (Halted(o) && after == files) ||
      if files[name].Garbled? then o == Failed(Malformed) && after == files
      else if FiledDigest(files[name].v) == DigestOf(w, doc) then Indexing(w, files, c, doc, id, false, after, o)
      else o == Failed(Collision(id, FiledDigest(files[name].v), DigestOf(w, doc))) && after == files
    else
      var text := Document(Seal(w.hash, doc, c.now));
      var temp := TempName(w, name, c.nonce);
      (Halted(o) && Unfinished(files, name, text, temp, after)) ||
      Indexing(w, Replaced(files, name, text, temp), c, doc, id, true, after, o)
  }

  /** The call gets past every check that does not look at the disk. */
  ghost predicate Ready(w: World, c: Call) {
    c.text.Document? && Admitted(w, c.text.v) && IdOf(w, c.text.v).Success? && Accepted(Evidence(c.text.v))
  }

  /** The first of those checks that it does not get past. */
  ghost predicate Rejects(w: World, c: Call, e: ArchiveError) {
    if c.text.Garbled? then e == Malformed
    else if !Admitted(w, c.text.v) then e == Refused
    else if IdOf(w, c.text.v).Failure? then e == NoRunId(IdOf(w, c.text.v).error)
    else !Accepted(Evidence(c.text.v)) && e.Uncanonical?
  }

  /** Everything one call may do to the disk and may answer. */
  ghost predicate Transition(w: World, files: Files, c: Call, after: Files, o: Outcome) {
    if Ready(w, c) then Filing(w, files, c, c.text.v, IdOf(w, c.text.v).value, after, o)
    else o.Failed? && Rejects(w, c, o.error) && after == files
  }

  // ---- the archiver -------------------------------------------------------

  /** What becomes of one effect on the filesystem. */
  datatype Fate = Works | Fails | DiesBefore | DiesAfter

  datatype Halt = Fine | IoError | Dead

  class Archiver {
    const w: World
    const fate: nat -> Fate
    var files: Files
    var tick: nat

    constructor (w: World, fate: nat -> Fate, files: Files)
      ensures this.w == w && this.fate == fate && this.files == files && tick == 0
    {
      this.w, this.fate, this.files, tick := w, fate, files, 0;
    }

    ghost predicate Untroubled(from: nat)
      reads this
    {
      forall n :: n >= from ==> fate(n) == Works
    }

    /** One effect: the disk becomes `next`, or stays, or the process dies on
        either side of it. */
    method Act(next: Files) returns (h: Halt)
      modifies this
      ensures tick == old(tick) + 1
      ensures h == Fine ==> files == next
      ensures h == IoError ==> files == old(files)
      ensures h == Dead ==> files == old(files) || files == next
      ensures fate(old(tick)) == Works ==> h == Fine
    {
      var f := fate(tick);
      tick := tick + 1;
      if f == Works || f == DiesAfter {
        files := next;
      }
      h := if f == Works then Fine else if f == Fails then IoError else Dead;
    }

    /** Create or truncate, fill, rename; a refused rename takes its temporary
        file away again, any other refusal leaves it lying. */
    method WriteAtomically(name: string, text: Text, nonce: nat) returns (h: Halt)
      requires IsJsonName(name)
      modifies this
      ensures h == Fine ==> files == Replaced(old(files), name, text, TempName(w, name, nonce))
      ensures h != Fine ==> Unfinished(old(files), name, text, TempName(w, name, nonce), files)
      ensures tick >= old(tick)
      ensures Untroubled(old(tick)) ==> h == Fine
    {
      var temp := TempName(w, name, nonce);
      h := Act(files[temp := Garbled]);
      if h == Fine {
        h := Fill(temp, text, old(files));
      }
      if h == Fine {
        h := Rename(temp, name, text, old(files));
      }
    }

    method Fill(temp: string, text: Text, ghost start: Files) returns (h: Halt)
      requires files == start[temp := Garbled]
      modifies this
      ensures tick >= old(tick)
      ensures h == Fine ==> files == start[temp := text]
      ensures files == start[temp := text] || files == start[temp := Garbled]
      ensures fate(old(tick)) == Works ==> h == Fine
    {
      assert start[temp := Garbled][temp := text] == start[temp := text];
      h := Act(files[temp := text]);
    }

    method Rename(temp: string, name: string, text: Text, ghost start: Files) returns (h: Halt)
      requires files == start[temp := text]
      modifies this
      ensures tick >= old(tick)
      ensures h == Fine ==> files == Replaced(start, name, text, temp)
      ensures h != Fine ==> Unfinished(start, name, text, temp, files)
      ensures fate(old(tick)) == Works ==> h == Fine
    {
      assert start[temp := text] - {temp} == start - {temp};
      h := Act(Replaced(files, name, text, temp));
      if h == IoError {
        var cleaned := Act(files - {temp});
        if cleaned == Dead { h := Dead; }
      }
    }

    method UpdateIndex(id: string, doc: Json, c: Call, written: bool) returns (o: Outcome)
      modifies this
      ensures Indexing(w, old(files), c, doc, id, written, files, o)
      ensures Untroubled(old(tick)) && Readable(old(files)) ==> !Halted(o)
    {
      var h := Act(files);
      if h != Fine {
        o := Stopped(h);
      } else if !Readable(files) {
        o := Failed(Io);
      } else if HasRow(RowsOf(files), id) {
        o := Archived(id, DigestOf(w, doc), written);
      } else {
        o := AddRow(id, doc, c, written);
      }
    }

    method AddRow(id: string, doc: Json, c: Call, written: bool) returns (o: Outcome)
      requires Readable(files) && !HasRow(RowsOf(files), id)
      modifies this
      ensures Indexing(w, old(files), c, doc, id, written, files, o)
      ensures Untroubled(old(tick)) ==> !Halted(o)
    {
      var rows := RowsOf(files);
      rows := rows + [Row(w, id, DigestOf(w, doc), doc)];
      rows := Unkeyed(SortByKey(Keyed(rows)));
      var h := WriteAtomically(INDEX, Document(Arr(rows)), c.indexNonce);
      o := if h == Fine then Archived(id, DigestOf(w, doc), written) else Stopped(h);
    }

    method Admit(doc: Json) returns (ok: bool)
      requires WellFormed(doc)
      ensures ok <==> Admitted(w, doc)
    {
      ok := Admissible(doc, w.walk);
      if ok && !Undisputed(w, doc) {
        var report := Verify(w.hash, doc);
        if report.Success? && report.value.stated.Some? {
          PickPartitions(report.value.stated.value, report.value.recomputed);
        }
        ok := report.Success? && report.value.Ok();
      }
    }

    method Prepare(c: Call) returns (r: Result<string, ArchiveError>)
      requires c.text.Document? ==> WellFormed(c.text.v)
      ensures r.Success? <==> Ready(w, c)
      ensures r.Success? ==> IdOf(w, c.text.v) == Success(r.value)
      ensures r.Failure? ==> Rejects(w, c, r.error) && r.error != Io
      ensures r.Failure? && r.error.NoRunId? ==> r.error.missing == StartedAt && Label(Get(c.text.v, "startedAt")).None?
    {
      if c.text.Garbled? { return Failure(Malformed); }
      var admitted := Admit(c.text.v);
      if !admitted { return Failure(Refused); }
      var id := IdOf(w, c.text.v);
      if id.Failure? {
        AdmittedHasRunId(c.text.v, w.walk, w.hash, w.show);
        return Failure(NoRunId(id.error));
      }
      var digests := ComputeDigests(w.hash, c.text.v);
      r := if digests.Success? then Success(id.value) else Failure(Uncanonical(digests.error));
    }

    /** `archive_text`: admit, derive the id, seal, file unless filed, index. */
    method ArchiveText(c: Call) returns (o: Outcome)
      requires c.text.Document? ==> WellFormed(c.text.v)
      modifies this
      ensures Transition(w, old(files), c, files, o)
      ensures Untroubled(old(tick)) && Readable(old(files)) && (Ready(w, c) ==> IsPlain(IdOf(w, c.text.v).value)) ==> !Halted(o)
      ensures Ready(w, c) && !IsPlain(IdOf(w, c.text.v).value) && FileName(IdOf(w, c.text.v).value) !in old(files) ==>
        Halted(o) && files == old(files)
    {
      var id := Prepare(c);
      if id.Failure? {
        o := Failed(id.error);
      } else {
        o := File(c, c.text.v, id.value);
      }
    }

    method File(c: Call, doc: Json, id: string) returns (o: Outcome)
      requires IdOf(w, doc) == Success(id)
      modifies this
      ensures Filing(w, old(files), c, doc, id, files, o)
      ensures Untroubled(old(tick)) && Readable(old(files)) && IsPlain(id) ==> !Halted(o)
      ensures !IsPlain(id) && FileName(id) !in old(files) ==> Halted(o) && files == old(files)
    {
      var h := Act(files);
      if h != Fine {
        o := Stopped(h);
      } else if FileName(id) in files {
        o := Refile(c, doc, id);
      } else {
        o := FileNew(c, doc, id);
      }
    }

    /** The id is taken: by this document, by another, or by something unreadable. */
    method Refile(c: Call, doc: Json, id: string) returns (o: Outcome)
      requires FileName(id) in files
      modifies this
      ensures Filing(w, old(files), c, doc, id, files, o)
      ensures Untroubled(old(tick)) && Readable(old(files)) ==> !Halted(o)
    {
      var found := files[FileName(id)];
      var h := Act(files);
      if h != Fine { return Stopped(h); }
      if found.Garbled? { return Failed(Malformed); }
      var existing := FiledDigest(found.v);
      if existing == DigestOf(w, doc) {
        o := UpdateIndex(id, doc, c, false);
      } else {
        o := Failed(Collision(id, existing, DigestOf(w, doc)));
      }
    }

    /** Nothing has the id yet. One that would lead out of the directory cannot
        be written. */
    method FileNew(c: Call, doc: Json, id: string) returns (o: Outcome)
      requires FileName(id) !in files && IdOf(w, doc) == Success(id)
      modifies this
      ensures Filing(w, old(files), c, doc, id, files, o)
      ensures Untroubled(old(tick)) && Readable(old(files)) && IsPlain(id) ==> !Halted(o)
      ensures !IsPlain(id) ==> o == Failed(Io) && files == old(files)
    {
      if !IsPlain(id) { return Failed(Io); }
      JsonNames(id);
      var text := Document(Seal(w.hash, doc, c.now));
      RunIdHasHyphen(doc, w.hash, w.show);
      FilingKeepsIndex(w, files, id, text, c.nonce);
      var h := WriteAtomically(FileName(id), text, c.nonce);
      if h == Fine {
        o := UpdateIndex(id, doc, c, true);
      } else {
        o := Stopped(h);
      }
    }
  }

  function Stopped(h: Halt): Outcome {
    if h == Dead then Crashed else Failed(Io)
  }

  // ---- names that cannot meet ---------------------------------------------

  /** A run id holds a hyphen, so no document is ever filed over the index. */
  lemma IdIsNoIndex(id: string)
    requires '-' in id
    ensures FileName(id) != INDEX
  {
    var i :| 0 <= i < |id| && id[i] == '-';
    assert FileName(id)[i] == '-';
  }

  /** A temporary file is never mistaken for a document or the index. */
  lemma TempIsNotFiled(w: World, name: string, nonce: nat)
    requires IsJsonName(name)
    ensures !IsJsonName(TempName(w, name, nonce))
  {
    var temp := TempName(w, name, nonce);
    assert temp[|temp| - 1] == NatText(nonce)[|NatText(nonce)| - 1];
    if IsJsonName(temp) { LastOfTail(temp, ".json"); }
  }

  lemma FilingKeepsIndex(w: World, files: Files, id: string, text: Text, nonce: nat)
    requires '-' in id && IsJsonName(FileName(id))
    ensures Readable(Replaced(files, FileName(id), text, TempName(w, FileName(id), nonce))) <==> Readable(files)
  {
    IdIsNoIndex(id);
    JsonNames(id);
    TempIsNotFiled(w, FileName(id), nonce);
  }

  lemma LastOfTail(s: string, tail: string)
    requires tail != "" && EndsWith(s, tail)
    ensures s[|s| - 1] == tail[|tail| - 1]
  {
    assert s[|s| - |tail|..][|tail| - 1] == s[|s| - 1];
  }

  lemma JsonNames(id: string)
    ensures IsJsonName(FileName(id)) && IsJsonName(INDEX)
  {
    assert FileName(id)[|id|..] == ".json";
  }
}
