/** What no sequence of archive calls can break, wherever each of them died:
    filed documents stay as they were filed, every one of them was admitted,
    verifies and derives its own name, and the index's rows are true, sorted and
    never lost. And what a call that completes brings about: one file and one
    row for its document, raw or sealed, whatever crashed before it. */
module ArchiveSafety {
  import opened Words
  import opened Decimals
  import opened Json
  import opened Canonical
  import opened Integrity
  import opened Admission
  import opened Archive

  // ---- a filed document is never touched again ----------------------------

  predicate IsFiled(files: Files, name: string) {
    name in files && IsJsonName(name) && name != INDEX
  }

  ghost predicate KeepsFiled(before: Files, after: Files) {
    forall name :: IsFiled(before, name) ==> name in after && after[name] == before[name]
  }

  /** No index row is ever dropped or rewritten. */
  ghost predicate KeepsRows(before: Files, after: Files) {
    Readable(before) && Readable(after) && forall row :: row in RowsOf(before) ==> row in RowsOf(after)
  }

  lemma UnfinishedKeepsFiled(files: Files, name: string, text: Text, temp: string, after: Files)
    requires Unfinished(files, name, text, temp, after)
    requires name !in files || name == INDEX
    requires !IsJsonName(temp)
    ensures KeepsFiled(files, after)
  {
  }

  lemma IndexingKeepsFiled(w: World, files: Files, c: Call, doc: Json, id: string, written: bool, after: Files, o: Outcome)
    requires Indexing(w, files, c, doc, id, written, after, o)
    ensures KeepsFiled(files, after)
  {
    JsonNames(id);
    if Readable(files) && !HasRow(RowsOf(files), id) {
      var temp := TempName(w, INDEX, c.indexNonce);
      TempIsNotFiled(w, INDEX, c.indexNonce);
      UnfinishedKeepsFiled(files, INDEX, Document(Arr(WithRow(RowsOf(files), Row(w, id, DigestOf(w, doc), doc)))), temp, after);
    }
  }

  lemma FilingKeepsFiled(w: World, files: Files, c: Call, doc: Json, id: string, after: Files, o: Outcome)
    requires Filing(w, files, c, doc, id, after, o)
    ensures KeepsFiled(files, after)
  {
    var name := FileName(id);
    JsonNames(id);
    if name !in files {
      var text := Document(Seal(w.hash, doc, c.now));
      var temp := TempName(w, name, c.nonce);
      TempIsNotFiled(w, name, c.nonce);
      if Halted(o) && Unfinished(files, name, text, temp, after) {
        UnfinishedKeepsFiled(files, name, text, temp, after);
      } else {
        UnfinishedKeepsFiled(files, name, text, temp, Replaced(files, name, text, temp));
        IndexingKeepsFiled(w, Replaced(files, name, text, temp), c, doc, id, true, after, o);
      }
    } else if files[name].Document? && FiledDigest(files[name].v) == DigestOf(w, doc) && after != files {
      IndexingKeepsFiled(w, files, c, doc, id, false, after, o);
    }
  }

  /** Whatever a call does, a collision included, it overwrites no document. */
  lemma CallKeepsFiled(w: World, files: Files, c: Call, after: Files, o: Outcome)
    requires Transition(w, files, c, after, o)
    ensures KeepsFiled(files, after)
  {
    if Ready(w, c) {
      FilingKeepsFiled(w, files, c, c.text.v, IdOf(w, c.text.v).value, after, o);
    }
  }

  // ---- what sealing does not change ---------------------------------------

  lemma SealKeepsClaims(w: World, doc: Json, now: string)
    requires WellFormed(doc) && doc.Obj?
    ensures Admissible(Seal(w.hash, doc, now), w.walk) == Admissible(doc, w.walk)
    ensures IdOf(w, Seal(w.hash, doc, now)) == IdOf(w, doc)
    ensures forall id, digest :: Row(w, id, digest, Seal(w.hash, doc, now)) == Row(w, id, digest, doc)
  {
    SealKeepsKeys(w.hash, doc, now, "provenance");
    SealKeepsKeys(w.hash, doc, now, "cells");
    SealKeepsKeys(w.hash, doc, now, "measurement");
    SealKeepsKeys(w.hash, doc, now, "profile");
    SealKeepsKeys(w.hash, doc, now, "startedAt");
  }

  lemma AdmissibleIsObject(doc: Json, walk: string -> Option<nat>)
    requires Admissible(doc, walk)
    ensures doc.Obj?
  {
  }

  /** Sealing an entry, any number of times, changes neither whether it is ready
      to be filed nor what it is filed as. */
  lemma {:induction false} SealedEntryIsSame(w: World, doc: Json, times: seq<string>)
    requires WellFormed(doc) && Ready(w, Call(Document(doc), "", 0, 0))
    ensures var again := SealAgain(w.hash, doc, times);
      WellFormed(again) && Ready(w, Call(Document(again), "", 0, 0)) &&
      IdOf(w, again) == IdOf(w, doc) && DigestsOf(w.hash, again) == DigestsOf(w.hash, doc) &&
      Evidence(again).Obj?
    decreases |times|
  {
    AdmissibleIsObject(doc, w.walk);
    if times != [] {
      SealedIsReady(w, doc, times[0]);
      SealedEntryIsSame(w, Seal(w.hash, doc, times[0]), times[1..]);
    }
  }

  lemma SealedIsReady(w: World, doc: Json, now: string)
    requires WellFormed(doc) && Ready(w, Call(Document(doc), "", 0, 0))
    ensures var sealed := Seal(w.hash, doc, now);
      WellFormed(sealed) && Ready(w, Call(Document(sealed), "", 0, 0)) &&
      Get(sealed, "integrity") == Some(DigestsJson(DigestsOf(w.hash, sealed))) &&
      IdOf(w, sealed) == IdOf(w, doc) && DigestsOf(w.hash, sealed) == DigestsOf(w.hash, doc)
  {
    AdmissibleIsObject(doc, w.walk);
    SealKeepsClaims(w, doc, now);
    SealKeepsDigests(w.hash, doc, now);
    SealStatesDigests(w.hash, doc, now);
  }

  // ---- the state of the directory -----------------------------------------

  /** A filed document was admitted, verifies, and derives its own name. */
  ghost predicate Honest(w: World, name: string, v: Json) {
    WellFormed(v) && Admissible(v, w.walk) && Accepted(Evidence(v)) &&
    Get(v, "integrity") == Some(DigestsJson(DigestsOf(w.hash, v))) &&
    IdOf(w, v).Success? && name == FileName(IdOf(w, v).value)
  }

  /** An index row names a file that is there and says of it what it holds. */
  ghost predicate RowIsTrue(w: World, files: Files, row: Json) {
    var id := RowId(row);
    id.Some? && IsFiled(files, FileName(id.value)) && files[FileName(id.value)].Document? &&
    row == Row(w, id.value, DigestOf(w, files[FileName(id.value)].v), files[FileName(id.value)].v)
  }

  ghost predicate RowsAreTrue(w: World, files: Files, rows: seq<Json>) {
    StrictlySorted(Keyed(rows)) &&
    forall i :: 0 <= i < |rows| ==> RowIsTrue(w, files, rows[i])
  }

  ghost function Honesty(w: World): (string, Text) -> bool {
    (name, text: Text) => text.Document? && Honest(w, name, text.v)
  }

  /** Every filed document meets `ok`, and the index is sorted and true. */
  ghost predicate Kept(w: World, files: Files, ok: (string, Text) -> bool) {
    (forall name :: IsFiled(files, name) ==> ok(name, files[name])) &&
    Readable(files) && RowsAreTrue(w, files, RowsOf(files))
  }

  ghost predicate Sound(w: World, files: Files) {
    Kept(w, files, Honesty(w))
  }

  lemma EmptyIsSound(w: World)
    ensures Sound(w, map[])
  {
  }

  /** The order the index is kept in is the order of its run ids. */
  lemma RowsAscend(w: World, files: Files, rows: seq<Json>, i: nat, j: nat)
    requires RowsAreTrue(w, files, rows) && i < j < |rows|
    ensures RowId(rows[i]).Some? && RowId(rows[j]).Some?
    ensures Before(RowId(rows[i]).value, RowId(rows[j]).value)
  {
    assert RowIsTrue(w, files, rows[i]) && RowIsTrue(w, files, rows[j]);
    var a, b := RowId(rows[i]).value, RowId(rows[j]).value;
    assert Before(Keyed(rows)[i].key, Keyed(rows)[j].key);
    assert ("#" + a)[1..] == a && ("#" + b)[1..] == b;
  }

  lemma RowHasItsId(w: World, id: string, digest: string, doc: Json)
    ensures RowId(Row(w, id, digest, doc)) == Some(id)
  {
    var ms := Row(w, id, digest, doc).members;
    assert ms[0].key == "runId";
  }

  lemma SealedIsHonest(w: World, doc: Json, now: string)
    requires WellFormed(doc) && Ready(w, Call(Document(doc), "", 0, 0))
    ensures Honest(w, FileName(IdOf(w, doc).value), Seal(w.hash, doc, now))
    ensures DigestOf(w, Seal(w.hash, doc, now)) == DigestOf(w, doc)
  {
    SealedIsReady(w, doc, now);
  }

  lemma HonestDigest(w: World, name: string, v: Json)
    requires Honest(w, name, v)
    ensures FiledDigest(v) == DigestOf(w, v)
  {
    StampedDigest(v, DigestsOf(w.hash, v));
  }

  lemma StampedDigest(v: Json, d: Digests)
    requires Get(v, "integrity") == Some(DigestsJson(d))
    ensures FiledDigest(v) == d.document
  {
    var block := DigestsJson(d).members;
    DigestKeysDiffer(block);
    LookupAt(block, 3);
    UnderTwo(v, "integrity", "document");
  }

  lemma UnderTwo(v: Json, a: string, b: string)
    ensures Under(Some(v), [a, b]) == var x := Get(v, a); if x.None? then None else Get(x.value, b)
  {
    var x := Get(v, a);
    assert [a, b][1..] == [b] && [b][1..] == [];
    assert Under(Some(v), [a, b]) == Under(x, [b]);
    if x.Some? {
      assert Under(x, [b]) == Under(Get(x.value, b), []);
    }
  }

  /** One evidence, one identity: documents that digest alike get the same run
      id and the same index row. */
  lemma SameIdentity(w: World, a: Json, b: Json, id: string, digest: string)
    requires Injective(w.hash)
    requires WellFormed(a) && WellFormed(b) && Accepted(Evidence(a)) && Accepted(Evidence(b))
    requires Admissible(a, w.walk) && Admissible(b, w.walk)
    requires DigestOf(w, a) == DigestOf(w, b)
    ensures IdOf(w, a) == IdOf(w, b)
    ensures IdOf(w, a).Success? ==> Row(w, id, digest, a) == Row(w, id, digest, b)
  {
    SameClaims(w, a, b);
    var p, q := Get(a, "provenance"), Get(b, "provenance");
    SameHost(p, q, w.show);
    SameColumns(p, q);
    SameLabel(Get(a, "startedAt"), Get(b, "startedAt"));
  }

  lemma SameClaims(w: World, a: Json, b: Json)
    requires Injective(w.hash)
    requires WellFormed(a) && WellFormed(b) && Accepted(Evidence(a)) && Accepted(Evidence(b))
    requires DigestOf(w, a) == DigestOf(w, b)
    ensures SameOption(Get(a, "startedAt"), Get(b, "startedAt"))
    ensures SameOption(Get(a, "provenance"), Get(b, "provenance"))
    ensures Get(a, "provenance").Some? ==> WellFormed(Get(a, "provenance").value) && WellFormed(Get(b, "provenance").value)
  {
    EvidenceIsWellFormed(a);
    EvidenceIsWellFormed(b);
    DigestIsIdentity(w.hash, Evidence(a), Evidence(b));
    EvidenceKeepsBlocks(a, "provenance");
    EvidenceKeepsBlocks(b, "provenance");
    EvidenceKeepsBlocks(a, "startedAt");
    EvidenceKeepsBlocks(b, "startedAt");
    SameGet(Evidence(a), Evidence(b), "provenance");
    SameGet(Evidence(a), Evidence(b), "startedAt");
  }

  lemma SameColumns(p: Option<Json>, q: Option<Json>)
    requires SameOption(p, q)
    requires p.Some? ==> WellFormed(p.value) && WellFormed(q.value)
    ensures Label(Under(p, ["library", "commit"])) == Label(Under(q, ["library", "commit"]))
    ensures Label(Under(p, ["library", "commit"])).Some? ==> Under(p, ["library", "commit"]) == Under(q, ["library", "commit"])
    ensures Label(Under(p, ["filesystem", "fsType"])).Some? ==>
              Under(p, ["filesystem", "fsType"]) == Under(q, ["filesystem", "fsType"])
  {
    SameUnder(p, q, ["library", "commit"]);
    SameUnder(p, q, ["filesystem", "fsType"]);
    SameLabel(Under(p, ["library", "commit"]), Under(q, ["library", "commit"]));
    SameLabel(Under(p, ["filesystem", "fsType"]), Under(q, ["filesystem", "fsType"]));
  }

  // ---- every effect keeps the directory sound -----------------------------

  lemma FileWriteIsKept(w: World, files: Files, ok: (string, Text) -> bool, name: string, text: Text, temp: string, after: Files)
    requires Kept(w, files, ok) && Unfinished(files, name, text, temp, after)
    requires name !in files && IsJsonName(name) && name != INDEX && !IsJsonName(temp)
    requires ok(name, text)
    ensures Kept(w, after, ok) && KeepsRows(files, after)
  {
    JsonNames("");
    UnfinishedKeepsFiled(files, name, text, temp, after);
    OnlyOneIsNew(files, name, text, temp, after);
    RowsStayTrue(w, files, after, RowsOf(files));
  }

  lemma RowsStayTrue(w: World, files: Files, after: Files, rows: seq<Json>)
    requires KeepsFiled(files, after) && RowsAreTrue(w, files, rows)
    ensures RowsAreTrue(w, after, rows)
  {
    forall i | 0 <= i < |rows| ensures RowIsTrue(w, after, rows[i]) { assert RowIsTrue(w, files, rows[i]); }
  }

  lemma OnlyOneIsNew(files: Files, name: string, text: Text, temp: string, after: Files)
    requires Unfinished(files, name, text, temp, after) && !IsJsonName(temp)
    ensures forall n :: IsFiled(after, n) ==> (n == name && after[n] == text) || (IsFiled(files, n) && after[n] == files[n])
  {
  }

  lemma SortedRowsAreTheRows(rows: seq<Json>)
    ensures var sorted := SortByKey(Keyed(rows));
      Keyed(Unkeyed(sorted)) == sorted && forall r :: r in Unkeyed(sorted) <==> r in rows
  {
    var es := Keyed(rows);
    var sorted := SortByKey(es);
    var result := Unkeyed(sorted);
    SortKeepsElements(es);
    forall i | 0 <= i < |result| ensures result[i] in rows && Keyed(result)[i] == sorted[i] {
      assert sorted[i] in es;
      var j :| 0 <= j < |es| && es[j] == sorted[i];
      assert rows[j] == result[i];
    }
    forall i | 0 <= i < |rows| ensures rows[i] in result {
      assert es[i] in sorted;
      var j :| 0 <= j < |sorted| && sorted[j] == es[i];
      assert result[j] == rows[i];
    }
  }

  /** A row with a new id goes where its id sorts and moves no other row. */
  lemma WithRowIsTrue(w: World, files: Files, rows: seq<Json>, row: Json)
    requires RowsAreTrue(w, files, rows) && RowIsTrue(w, files, row)
    requires !HasRow(rows, RowId(row).value)
    ensures RowsAreTrue(w, files, WithRow(rows, row))
    ensures forall r :: r in WithRow(rows, row) <==> r in rows || r == row
  {
    NewKeyIsDistinct(w, files, rows, row);
    SortSorts(Keyed(rows + [row]));
    SortedRowsAreTheRows(rows + [row]);
    assert row in rows + [row];
    var result := WithRow(rows, row);
    forall i | 0 <= i < |result| ensures RowIsTrue(w, files, result[i]) {
      assert result[i] in rows + [row];
    }
  }

  lemma NewKeyIsDistinct(w: World, files: Files, rows: seq<Json>, row: Json)
    requires RowsAreTrue(w, files, rows) && RowIsTrue(w, files, row)
    requires !HasRow(rows, RowId(row).value)
    ensures DistinctKeys(Keyed(rows + [row]))
  {
    var es := Keyed(rows + [row]);
    SortedKeysDistinct(Keyed(rows));
    forall i, j | 0 <= i < j < |es| ensures es[i].key != es[j].key {
      if j < |rows| {
        assert es[i] == Keyed(rows)[i] && es[j] == Keyed(rows)[j];
      } else {
        assert RowIsTrue(w, files, rows[i]);
        assert RowId(rows[i]) != RowId(row);
        var a, b := RowId(rows[i]).value, RowId(row).value;
        assert ("#" + a)[1..] == a && ("#" + b)[1..] == b;
      }
    }
  }

  lemma IndexWriteIsKept(w: World, files: Files, ok: (string, Text) -> bool, rows: seq<Json>, temp: string, after: Files)
    requires Kept(w, files, ok) && RowsAreTrue(w, files, rows) && !IsJsonName(temp)
    requires Unfinished(files, INDEX, Document(Arr(rows)), temp, after)
    requires forall row :: row in RowsOf(files) ==> row in rows
    ensures Kept(w, after, ok) && KeepsRows(files, after)
  {
    JsonNames("");
    UnfinishedKeepsFiled(files, INDEX, Document(Arr(rows)), temp, after);
    OnlyOneIsNew(files, INDEX, Document(Arr(rows)), temp, after);
    var now := RowsOf(after);
    assert now == RowsOf(files) || now == rows;
    RowsStayTrue(w, files, after, now);
  }

  /** The document being indexed is filed, under its id and with its digest. */
  ghost predicate IsFiledAs(w: World, files: Files, doc: Json, id: string) {
    IsFiled(files, FileName(id)) && files[FileName(id)].Document? &&
    var v := files[FileName(id)].v;
    DigestOf(w, v) == DigestOf(w, doc) &&
    Row(w, id, DigestOf(w, doc), v) == Row(w, id, DigestOf(w, doc), doc)
  }

  lemma IndexingIsKept(w: World, files: Files, ok: (string, Text) -> bool, c: Call, doc: Json, id: string,
                       written: bool, after: Files, o: Outcome)
    requires Kept(w, files, ok) && IsFiledAs(w, files, doc, id)
    requires Indexing(w, files, c, doc, id, written, after, o)
    ensures Kept(w, after, ok) && KeepsRows(files, after)
    ensures o.Archived? ==> HasRow(RowsOf(after), id) && o == Archived(id, DigestOf(w, doc), written)
    ensures o.Archived? || Halted(o)
  {
    if !HasRow(RowsOf(files), id) {
      var row := Row(w, id, DigestOf(w, doc), doc);
      RowHasItsId(w, id, DigestOf(w, doc), doc);
      TempIsNotFiled(w, INDEX, c.indexNonce);
      AddingIsKept(w, files, ok, row, TempName(w, INDEX, c.indexNonce), after);
    }
  }

  lemma AddingIsKept(w: World, files: Files, ok: (string, Text) -> bool, row: Json, temp: string, after: Files)
    requires Kept(w, files, ok) && RowIsTrue(w, files, row) && !IsJsonName(temp)
    requires !HasRow(RowsOf(files), RowId(row).value)
    requires Unfinished(files, INDEX, Document(Arr(WithRow(RowsOf(files), row))), temp, after)
    ensures Kept(w, after, ok) && KeepsRows(files, after)
    ensures INDEX in after && after[INDEX] == Document(Arr(WithRow(RowsOf(files), row))) ==> HasRow(RowsOf(after), RowId(row).value)
  {
    var rows := WithRow(RowsOf(files), row);
    WithRowIsTrue(w, files, RowsOf(files), row);
    IndexWriteIsKept(w, files, ok, rows, temp, after);
    assert row in rows;
  }

  // ---- every call keeps the directory sound -------------------------------

  lemma NewFileIsKept(w: World, files: Files, ok: (string, Text) -> bool, c: Call, doc: Json, id: string, after: Files, o: Outcome)
    requires Kept(w, files, ok) && Filing(w, files, c, doc, id, after, o)
    requires FileName(id) !in files && IsJsonName(FileName(id)) && FileName(id) != INDEX
    requires ok(FileName(id), Document(Seal(w.hash, doc, c.now)))
    requires IsFiledAs(w, map[FileName(id) := Document(Seal(w.hash, doc, c.now))], doc, id)
    ensures Kept(w, after, ok) && KeepsRows(files, after)
    ensures o.Archived? ==> HasRow(RowsOf(after), id) && IsFiledAs(w, after, doc, id) && o.runId == id && o.digest == DigestOf(w, doc)
  {
    var name := FileName(id);
    var text := Document(Seal(w.hash, doc, c.now));
    var temp := TempName(w, name, c.nonce);
    TempIsNotFiled(w, name, c.nonce);
    if Halted(o) && Unfinished(files, name, text, temp, after) {
      FileWriteIsKept(w, files, ok, name, text, temp, after);
    } else {
      var mid := Replaced(files, name, text, temp);
      FileWriteIsKept(w, files, ok, name, text, temp, mid);
      IndexingIsKept(w, mid, ok, c, doc, id, true, after, o);
      IndexingKeepsFiled(w, mid, c, doc, id, true, after, o);
    }
  }

  /** Filing keeps whatever every filed document has, provided the new one has
      it, and the row it adds is true of the file that was found. */
  lemma FilingIsKept(w: World, files: Files, ok: (string, Text) -> bool, c: Call, doc: Json, id: string, after: Files, o: Outcome)
    requires Kept(w, files, ok) && Filing(w, files, c, doc, id, after, o) && '-' in id
    requires ok(FileName(id), Document(Seal(w.hash, doc, c.now)))
    requires IsFiledAs(w, map[FileName(id) := Document(Seal(w.hash, doc, c.now))], doc, id)
    requires FileName(id) in files && files[FileName(id)].Document? && FiledDigest(files[FileName(id)].v) == DigestOf(w, doc) ==>
               IsFiledAs(w, files, doc, id)
    ensures Kept(w, after, ok) && KeepsRows(files, after)
    ensures o.Archived? ==> HasRow(RowsOf(after), id) && IsFiledAs(w, after, doc, id) && o.runId == id && o.digest == DigestOf(w, doc)
  {
    if FileName(id) !in files {
      JsonNames(id);
      IdIsNoIndex(id);
      NewFileIsKept(w, files, ok, c, doc, id, after, o);
    } else {
      FoundFilingIsKept(w, files, ok, c, doc, id, after, o);
    }
  }

  lemma FoundFilingIsKept(w: World, files: Files, ok: (string, Text) -> bool, c: Call, doc: Json, id: string, after: Files, o: Outcome)
    requires Kept(w, files, ok) && Filing(w, files, c, doc, id, after, o) && FileName(id) in files
    requires files[FileName(id)].Document? && FiledDigest(files[FileName(id)].v) == DigestOf(w, doc) ==> IsFiledAs(w, files, doc, id)
    ensures Kept(w, after, ok) && KeepsRows(files, after)
    ensures o.Archived? ==> HasRow(RowsOf(after), id) && IsFiledAs(w, after, doc, id) && o.runId == id && o.digest == DigestOf(w, doc)
  {
    if after != files || o.Archived? {
      FoundFileIsKept(w, files, ok, c, doc, id, after, o);
    }
  }

  lemma FoundFileIsKept(w: World, files: Files, ok: (string, Text) -> bool, c: Call, doc: Json, id: string, after: Files, o: Outcome)
    requires Kept(w, files, ok) && IsFiledAs(w, files, doc, id)
    requires Indexing(w, files, c, doc, id, false, after, o)
    ensures Kept(w, after, ok) && KeepsRows(files, after)
    ensures o.Archived? ==> HasRow(RowsOf(after), id) && IsFiledAs(w, after, doc, id) && o.runId == id && o.digest == DigestOf(w, doc)
  {
    IndexingIsKept(w, files, ok, c, doc, id, false, after, o);
    IndexingKeepsFiled(w, files, c, doc, id, false, after, o);
    JsonNames(id);
  }

  lemma SealedIsFiledAs(w: World, doc: Json, now: string, id: string)
    requires WellFormed(doc) && Ready(w, Call(Document(doc), "", 0, 0)) && IdOf(w, doc) == Success(id)
    ensures '-' in id
    ensures Honesty(w)(FileName(id), Document(Seal(w.hash, doc, now)))
    ensures IsFiledAs(w, map[FileName(id) := Document(Seal(w.hash, doc, now))], doc, id)
  {
    RunIdHasHyphen(doc, w.hash, w.show);
    IdIsNoIndex(id);
    JsonNames(id);
    AdmissibleIsObject(doc, w.walk);
    SealedIsHonest(w, doc, now);
    SealKeepsClaims(w, doc, now);
  }

  lemma FoundIsFiledAs(w: World, files: Files, doc: Json, id: string)
    requires Injective(w.hash) && Sound(w, files)
    requires WellFormed(doc) && Ready(w, Call(Document(doc), "", 0, 0)) && IdOf(w, doc) == Success(id)
    requires IsFiled(files, FileName(id))
    ensures files[FileName(id)].Document?
    ensures FiledDigest(files[FileName(id)].v) == DigestOf(w, files[FileName(id)].v)
    ensures FiledDigest(files[FileName(id)].v) == DigestOf(w, doc) ==> IsFiledAs(w, files, doc, id)
  {
    var text := files[FileName(id)];
    assert Honesty(w)(FileName(id), text);
    HonestDigest(w, FileName(id), text.v);
    if DigestOf(w, text.v) == DigestOf(w, doc) {
      SameIdentity(w, text.v, doc, id, DigestOf(w, doc));
    }
  }

  /** One call, however it ends: the directory stays sound. Completed, it leaves
      the document filed under its own id and listed in the index. */
  lemma CallKeepsSound(w: World, files: Files, c: Call, after: Files, o: Outcome)
    requires Injective(w.hash) && Sound(w, files) && Transition(w, files, c, after, o)
    requires c.text.Document? ==> WellFormed(c.text.v)
    ensures Sound(w, after) && KeepsRows(files, after)
    ensures o.Archived? ==>
      Ready(w, c) && IdOf(w, c.text.v) == Success(o.runId) && o.digest == DigestOf(w, c.text.v) &&
      IsFiledAs(w, after, c.text.v, o.runId) && HasRow(RowsOf(after), o.runId)
  {
    if Ready(w, c) {
      var doc, id := c.text.v, IdOf(w, c.text.v).value;
      SealedIsFiledAs(w, doc, c.now, id);
      IdIsNoIndex(id);
      JsonNames(id);
      if FileName(id) in files { FoundIsFiledAs(w, files, doc, id); }
      FilingIsKept(w, files, Honesty(w), c, doc, id, after, o);
    }
  }

  // ---- every sequence of calls --------------------------------------------

  /** A call, how it ended and the disk it left. */
  datatype Event = Event(call: Call, outcome: Outcome, disk: Files)

  /** What one archiver does in one call. */
  ghost function Calling(w: World): (Files, Event) -> bool {
    (files, e: Event) =>
      (e.call.text.Document? ==> WellFormed(e.call.text.v)) && Transition(w, files, e.call, e.disk, e.outcome)
  }

  ghost predicate IsRun(step: (Files, Event) -> bool, start: Files, run: seq<Event>)
    decreases |run|
  {
    run == [] || (step(start, run[0]) && IsRun(step, run[0].disk, run[1..]))
  }

  function LastDisk(start: Files, run: seq<Event>): Files {
    if run == [] then start else run[|run| - 1].disk
  }

  lemma {:induction false} RunsKeep(step: (Files, Event) -> bool, holds: Files -> bool, start: Files, run: seq<Event>)
    requires holds(start) && IsRun(step, start, run)
    requires forall files, e: Event :: holds(files) && step(files, e) ==> holds(e.disk) && KeepsFiled(files, e.disk) && KeepsRows(files, e.disk)
    requires Readable(start)
    ensures holds(LastDisk(start, run)) && KeepsFiled(start, LastDisk(start, run)) && KeepsRows(start, LastDisk(start, run))
    decreases |run|
  {
    if run != [] {
      RunsKeep(step, holds, run[0].disk, run[1..]);
      assert LastDisk(start, run) == LastDisk(run[0].disk, run[1..]);
      assert forall name :: IsFiled(start, name) ==> IsFiled(run[0].disk, name);
    }
  }

  lemma {:induction false} RunSplits(step: (Files, Event) -> bool, start: Files, run: seq<Event>)
    requires IsRun(step, start, run) && run != []
    ensures IsRun(step, start, run[..|run| - 1])
    ensures step(LastDisk(start, run[..|run| - 1]), run[|run| - 1])
    decreases |run|
  {
    if |run| > 1 {
      RunSplits(step, run[0].disk, run[1..]);
      var init := run[..|run| - 1];
      assert init[1..] == run[1..][..|run| - 2];
      assert LastDisk(start, init) == LastDisk(run[0].disk, init[1..]);
    }
  }

  /** Over any sequence of calls, refused, failed, colliding or dead at any
      point: the directory is sound at the end, no document ever filed has changed
      and no row ever added is gone. */
  lemma RunsAreSafe(w: World, start: Files, run: seq<Event>)
    requires Injective(w.hash) && Sound(w, start) && IsRun(Calling(w), start, run)
    ensures Sound(w, LastDisk(start, run))
    ensures KeepsFiled(start, LastDisk(start, run)) && KeepsRows(start, LastDisk(start, run))
  {
    forall files, e: Event | Sound(w, files) && Calling(w)(files, e)
      ensures Sound(w, e.disk) && KeepsFiled(files, e.disk) && KeepsRows(files, e.disk)
    {
      CallKeepsSound(w, files, e.call, e.disk, e.outcome);
      CallKeepsFiled(w, files, e.call, e.disk, e.outcome);
    }
    RunsKeep(Calling(w), files => Sound(w, files), start, run);
  }

  /** From an empty directory every run of calls, each of which may stop at any
      effect, leaves a sound one. */
  lemma EveryArchiveIsSound(w: World, run: seq<Event>)
    requires Injective(w.hash) && IsRun(Calling(w), map[], run)
    ensures Sound(w, LastDisk(map[], run))
  {
    EmptyIsSound(w);
    RunsAreSafe(w, map[], run);
  }

  // ---- one document, one file, one row ------------------------------------

  lemma OneFilePerDigest(w: World, files: Files, a: string, b: string)
    requires Injective(w.hash) && Sound(w, files) && IsFiled(files, a) && IsFiled(files, b)
    ensures files[a].Document? && files[b].Document?
    ensures DigestOf(w, files[a].v) == DigestOf(w, files[b].v) ==> a == b
  {
    assert Honesty(w)(a, files[a]) && Honesty(w)(b, files[b]);
    if DigestOf(w, files[a].v) == DigestOf(w, files[b].v) {
      SameIdentity(w, files[a].v, files[b].v, "", "");
    }
  }

  lemma OneRowPerId(w: World, files: Files, rows: seq<Json>, i: nat, j: nat)
    requires RowsAreTrue(w, files, rows) && i < |rows| && j < |rows|
    requires RowId(rows[i]) == RowId(rows[j])
    ensures i == j
  {
    if i < j { RowsAscend(w, files, rows, i, j); BeforeIrreflexive(RowId(rows[i]).value); }
    if j < i { RowsAscend(w, files, rows, j, i); BeforeIrreflexive(RowId(rows[i]).value); }
  }

  ghost predicate IsOnlyFile(w: World, files: Files, digest: string, name: string) {
    IsFiled(files, name) &&
    forall other :: IsFiled(files, other) ==>
      files[other].Document? && (DigestOf(w, files[other].v) == digest <==> other == name)
  }

  predicate IsOnlyRow(rows: seq<Json>, id: string, row: Json) {
    row in rows && RowId(row) == Some(id) &&
    forall i, j :: 0 <= i < |rows| && 0 <= j < |rows| && RowId(rows[i]) == Some(id) && RowId(rows[j]) == Some(id) ==> i == j
  }

  /** The document is filed once, under its own id; nothing else in the
      directory has its evidence; the index has one row for it, the row it would
      have been given on a first, undisturbed attempt. */
  ghost predicate IsArchivedOnce(w: World, files: Files, doc: Json, id: string) {
    Readable(files) &&
    IsOnlyFile(w, files, DigestOf(w, doc), FileName(id)) &&
    IsOnlyRow(RowsOf(files), id, Row(w, id, DigestOf(w, doc), doc))
  }

  lemma FiledAndListedIsOnce(w: World, files: Files, doc: Json, id: string)
    requires Injective(w.hash) && Sound(w, files)
    requires IsFiledAs(w, files, doc, id) && HasRow(RowsOf(files), id)
    ensures IsArchivedOnce(w, files, doc, id)
  {
    forall name | IsFiled(files, name)
      ensures files[name].Document? && (DigestOf(w, files[name].v) == DigestOf(w, doc) <==> name == FileName(id))
    {
      OneFilePerDigest(w, files, name, FileName(id));
    }
    TheRowIsTheOnlyOne(w, files, RowsOf(files), doc, id);
  }

  lemma TheRowIsTheOnlyOne(w: World, files: Files, rows: seq<Json>, doc: Json, id: string)
    requires RowsAreTrue(w, files, rows) && IsFiledAs(w, files, doc, id) && HasRow(rows, id)
    ensures IsOnlyRow(rows, id, Row(w, id, DigestOf(w, doc), doc))
  {
    var i :| 0 <= i < |rows| && RowId(rows[i]) == Some(id);
    assert RowIsTrue(w, files, rows[i]);
    forall i, j | 0 <= i < |rows| && 0 <= j < |rows| && RowId(rows[i]) == Some(id) && RowId(rows[j]) == Some(id)
      ensures i == j
    {
      OneRowPerId(w, files, rows, i, j);
    }
  }

  lemma CompletedLeavesOne(w: World, files: Files, c: Call, after: Files, o: Outcome)
    requires Injective(w.hash) && Sound(w, files) && Transition(w, files, c, after, o) && o.Archived?
    requires c.text.Document? && WellFormed(c.text.v)
    ensures IsArchivedOnce(w, after, c.text.v, o.runId)
    ensures IdOf(w, c.text.v) == Success(o.runId)
  {
    CallKeepsSound(w, files, c, after, o);
    FiledAndListedIsOnce(w, after, c.text.v, o.runId);
  }

  lemma SealedRowIsSame(w: World, doc: Json, times: seq<string>, id: string)
    requires Injective(w.hash)
    requires WellFormed(doc) && Ready(w, Call(Document(doc), "", 0, 0))
    ensures var again := SealAgain(w.hash, doc, times);
      IdOf(w, again) == IdOf(w, doc) && DigestOf(w, again) == DigestOf(w, doc) &&
      Row(w, id, DigestOf(w, doc), again) == Row(w, id, DigestOf(w, doc), doc)
  {
    SealedEntryIsSame(w, doc, times);
    SameIdentity(w, SealAgain(w.hash, doc, times), doc, id, DigestOf(w, doc));
  }

  /** Whatever crashes and failures came before, one completed archive of a
      document, raw or sealed any number of times, leaves one file and one row. */
  lemma CompletedIsArchivedOnce(w: World, start: Files, run: seq<Event>, doc: Json, times: seq<string>)
    requires Injective(w.hash) && Sound(w, start) && IsRun(Calling(w), start, run) && run != []
    requires WellFormed(doc) && Ready(w, Call(Document(doc), "", 0, 0))
    requires run[|run| - 1].call.text == Document(SealAgain(w.hash, doc, times))
    requires run[|run| - 1].outcome.Archived?
    ensures run[|run| - 1].outcome.runId == IdOf(w, doc).value
    ensures IsArchivedOnce(w, LastDisk(start, run), doc, IdOf(w, doc).value)
  {
    var last := run[|run| - 1];
    RunSplits(Calling(w), start, run);
    RunsAreSafe(w, start, run[..|run| - 1]);
    CompletedLeavesOne(w, LastDisk(start, run[..|run| - 1]), last.call, last.disk, last.outcome);
    SealedRowIsSame(w, doc, times, last.outcome.runId);
  }

  /** And so in every archive there can be: whatever came before, a call for the
      document that completes leaves it filed and listed once. */
  lemma EveryArchiveHoldsItOnce(w: World, run: seq<Event>, doc: Json, times: seq<string>)
    requires Injective(w.hash) && IsRun(Calling(w), map[], run) && run != []
    requires WellFormed(doc) && Ready(w, Call(Document(doc), "", 0, 0))
    requires run[|run| - 1].call.text == Document(SealAgain(w.hash, doc, times))
    requires run[|run| - 1].outcome.Archived?
    ensures IsArchivedOnce(w, LastDisk(map[], run), doc, IdOf(w, doc).value)
  {
    EmptyIsSound(w);
    CompletedIsArchivedOnce(w, map[], run, doc, times);
  }

  lemma RefilingIsQuiet(w: World, files: Files, c: Call, doc: Json, id: string, after: Files, o: Outcome)
    requires Filing(w, files, c, doc, id, after, o) && Readable(files)
    requires FileName(id) in files && files[FileName(id)].Document?
    requires FiledDigest(files[FileName(id)].v) == DigestOf(w, doc) && HasRow(RowsOf(files), id)
    ensures after == files && (o == Archived(id, DigestOf(w, doc), false) || Halted(o))
  {
  }

  lemma FilingOutcome(w: World, files: Files, c: Call, doc: Json, id: string, after: Files, o: Outcome)
    requires Filing(w, files, c, doc, id, after, o) && Readable(files) && '-' in id && !Halted(o)
    requires FileName(id) in files ==> files[FileName(id)].Document?
    ensures o.Archived? <==> FileName(id) !in files || FiledDigest(files[FileName(id)].v) == DigestOf(w, doc)
    ensures !o.Archived? ==> o.Failed? && o.error.Collision? && after == files
  {
    JsonNames(id);
    if FileName(id) !in files {
      FilingKeepsIndex(w, files, id, Document(Seal(w.hash, doc, c.now)), c.nonce);
    }
  }

  /** Archiving again what is already archived, raw or sealed, touches nothing. */
  lemma ArchivingAgainIsQuiet(w: World, files: Files, doc: Json, times: seq<string>, c: Call, after: Files, o: Outcome)
    requires Injective(w.hash) && Sound(w, files)
    requires WellFormed(doc) && Ready(w, Call(Document(doc), "", 0, 0))
    requires IsArchivedOnce(w, files, doc, IdOf(w, doc).value)
    requires c.text == Document(SealAgain(w.hash, doc, times)) && Transition(w, files, c, after, o)
    ensures after == files
    ensures o == Archived(IdOf(w, doc).value, DigestOf(w, doc), false) || Halted(o)
  {
    var id := IdOf(w, doc).value;
    OnceMeansListed(w, files, doc, id);
    FoundIsFiledAs(w, files, doc, id);
    SealedEntryIsSame(w, doc, times);
    RefilingIsQuiet(w, files, c, c.text.v, id, after, o);
  }

  lemma OnceMeansListed(w: World, files: Files, doc: Json, id: string)
    requires IsArchivedOnce(w, files, doc, id)
    ensures HasRow(RowsOf(files), id) && IsFiled(files, FileName(id)) && files[FileName(id)].Document?
    ensures DigestOf(w, files[FileName(id)].v) == DigestOf(w, doc)
  {
    var i :| 0 <= i < |RowsOf(files)| && RowsOf(files)[i] == Row(w, id, DigestOf(w, doc), doc);
  }

  /** Undisturbed, a document that is ready is archived exactly when its id is
      free or the document filed there is the same one; otherwise the call
      reports the collision and changes nothing. */
  lemma CollisionIsAnotherRun(w: World, files: Files, c: Call, after: Files, o: Outcome)
    requires Injective(w.hash) && Sound(w, files) && Transition(w, files, c, after, o) && !Halted(o)
    requires Ready(w, c) && WellFormed(c.text.v)
    ensures var name := FileName(IdOf(w, c.text.v).value);
      o.Archived? <==> name !in files || (files[name].Document? && Same(Evidence(files[name].v), Evidence(c.text.v)))
    ensures !o.Archived? ==> o.Failed? && o.error.Collision? && after == files
  {
    var doc, id := c.text.v, IdOf(w, c.text.v).value;
    SealedIsFiledAs(w, doc, c.now, id);
    JsonNames(id);
    IdIsNoIndex(id);
    if FileName(id) in files {
      FoundIsFiledAs(w, files, doc, id);
      SameAsFound(w, files, doc, id);
    }
    FilingOutcome(w, files, c, doc, id, after, o);
  }

  lemma SameAsFound(w: World, files: Files, doc: Json, id: string)
    requires Injective(w.hash) && Sound(w, files) && IsFiled(files, FileName(id))
    requires WellFormed(doc) && Accepted(Evidence(doc))
    ensures files[FileName(id)].Document?
    ensures DigestOf(w, files[FileName(id)].v) == DigestOf(w, doc) <==> Same(Evidence(files[FileName(id)].v), Evidence(doc))
  {
    var v := files[FileName(id)].v;
    assert Honesty(w)(FileName(id), files[FileName(id)]);
    EvidenceIsWellFormed(v);
    EvidenceIsWellFormed(doc);
    DigestIsIdentity(w.hash, Evidence(v), Evidence(doc));
  }
}
