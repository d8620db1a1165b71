/** The four digests of a document. */
module Integrity {
  // The digests, the seal that writes them into a document, and the verification
  // that says which block moved. The hash is a parameter: results that need it
  // to be collision-free say so with `Injective`.

  import opened Words
  import opened Decimals
  import opened Json
  import opened Canonical
  import opened Reader
  import opened Faithful
  import Writer

  ghost predicate Injective(hash: string -> string) {
    forall a, b :: hash(a) == hash(b) ==> a == b
  }

  datatype Digests = Digests(cells: string, runners: string, measurements: string, document: string)

  // ---- object maps that keep insertion order ------------------------------

  function IndexOf(ms: seq<Entry<Json>>, key: string): (r: Option<nat>)
    ensures r.Some? ==> r.value < |ms| && ms[r.value].key == key
    ensures r.None? ==> forall i :: 0 <= i < |ms| ==> ms[i].key != key
  {
    if ms == [] then None
    else if ms[|ms| - 1].key == key then Some(|ms| - 1)
    else IndexOf(ms[..|ms| - 1], key)
  }

  /** Remove a key the way an insertion-ordered map does: the last entry takes
      the place of the removed one. */
  function SwapRemove(ms: seq<Entry<Json>>, key: string): seq<Entry<Json>> {
    var at := IndexOf(ms, key);
    if at.None? then ms else ms[at.value := ms[|ms| - 1]][..|ms| - 1]
  }

  /** Insert a key: in place when it is there, at the end when it is not. */
  function Put(ms: seq<Entry<Json>>, key: string, v: Json): seq<Entry<Json>> {
    var at := IndexOf(ms, key);
    if at.None? then ms + [Entry(key, v)] else ms[at.value := Entry(key, v)]
  }

  lemma RemoveForgetsOneKey(ms: seq<Entry<Json>>, key: string)
    requires DistinctKeys(ms)
    ensures DistinctKeys(SwapRemove(ms, key))
    ensures forall e :: e in SwapRemove(ms, key) <==> e in ms && e.key != key
  {
    var at := IndexOf(ms, key);
    var r := SwapRemove(ms, key);
    if at.Some? {
      var n := |ms| - 1;
      forall e ensures e in r <==> e in ms && e.key != key {
        if e in r {
          var i :| 0 <= i < |r| && r[i] == e;
          assert e == ms[if i == at.value then n else i];
        }
        if e in ms && e.key != key {
          var i :| 0 <= i < |ms| && ms[i] == e;
          assert r[if i == n then at.value else i] == e;
        }
      }
    }
  }

  lemma PutKeepsDistinct(ms: seq<Entry<Json>>, key: string, v: Json)
    requires DistinctKeys(ms)
    ensures DistinctKeys(Put(ms, key, v))
    ensures Entry(key, v) in Put(ms, key, v)
    ensures forall e: Entry<Json> :: e.key != key ==> (e in Put(ms, key, v) <==> e in ms)
  {
    var r := Put(ms, key, v);
    var at := IndexOf(ms, key);
    var i := if at.None? then |ms| else at.value;
    assert r[i] == Entry(key, v);
    forall e: Entry<Json> | e.key != key ensures e in r <==> e in ms {
      if e in r {
        var j :| 0 <= j < |r| && r[j] == e;
        assert ms[j] == e;
      }
      if e in ms {
        var j :| 0 <= j < |ms| && ms[j] == e;
        assert r[j] == e;
      }
    }
  }

  lemma PutIsWellFormed(ms: seq<Entry<Json>>, key: string, v: Json)
    requires WellFormed(Obj(ms)) && WellFormed(v)
    ensures WellFormed(Obj(Put(ms, key, v)))
  {
    PutKeepsDistinct(ms, key, v);
  }

  /** Looking a key up is asking whether an entry is in the map. */
  lemma LookupIsMembership(ms: seq<Entry<Json>>, key: string, v: Json)
    requires DistinctKeys(ms)
    ensures Lookup(ms, key) == Some(v) <==> Entry(key, v) in ms
  {
    if Entry(key, v) in ms {
      var i :| 0 <= i < |ms| && ms[i] == Entry(key, v);
      LookupAt(ms, i);
    }
  }

  lemma SameEntriesSameLookup(ms: seq<Entry<Json>>, ns: seq<Entry<Json>>, key: string)
    requires DistinctKeys(ms) && DistinctKeys(ns)
    requires forall v :: Entry(key, v) in ms <==> Entry(key, v) in ns
    ensures Lookup(ms, key) == Lookup(ns, key)
  {
    var a, b := Lookup(ms, key), Lookup(ns, key);
    if a.Some? { LookupIsMembership(ms, key, a.value); LookupIsMembership(ns, key, a.value); }
    if b.Some? { LookupIsMembership(ms, key, b.value); LookupIsMembership(ns, key, b.value); }
  }

  // ---- the digests --------------------------------------------------------

  function Digest(hash: string -> string, v: Json): string {
    "sha256:" + hash(Text(v))
  }

  /** A block of the document, `null` when the document has no such key. */
  function Block(doc: Json, key: string): Json {
    var b := Get(doc, key);
    if b.Some? then b.value else Null
  }

  /** The document without the two keys that sealing writes. */
  function Evidence(doc: Json): Json {
    match doc
    case Obj(ms) => Obj(SwapRemove(SwapRemove(ms, "integrity"), "combinedAt"))
    case _ => doc
  }

  function DigestsOf(hash: string -> string, doc: Json): Digests {
    Digests(
      Digest(hash, Block(doc, "cells")),
      Digest(hash, Block(doc, "runner")),
      Digest(hash, Block(doc, "measurement")),
      Digest(hash, Evidence(doc)))
  }

  lemma EvidenceEntries(ms: seq<Entry<Json>>)
    requires DistinctKeys(ms)
    ensures DistinctKeys(Evidence(Obj(ms)).members)
    ensures forall e :: e in Evidence(Obj(ms)).members <==> e in ms && e.key != "integrity" && e.key != "combinedAt"
  {
    RemoveForgetsOneKey(ms, "integrity");
    RemoveForgetsOneKey(SwapRemove(ms, "integrity"), "combinedAt");
  }

  lemma EvidenceIsWellFormed(doc: Json)
    requires WellFormed(doc)
    ensures WellFormed(Evidence(doc))
  {
    if doc.Obj? {
      EvidenceEntries(doc.members);
      var es := Evidence(doc).members;
      forall i | 0 <= i < |es| ensures WellFormed(es[i].value) {
        assert es[i] in doc.members;
      }
    }
  }

  /** Every key but the two sealing writes has in the evidence the value it has
      in the document. */
  lemma EvidenceKeepsBlocks(doc: Json, key: string)
    requires WellFormed(doc) && key != "integrity" && key != "combinedAt"
    ensures Get(Evidence(doc), key) == Get(doc, key)
  {
    if doc.Obj? {
      EvidenceEntries(doc.members);
      SameEntriesSameLookup(Evidence(doc).members, doc.members, key);
    }
  }

  lemma BlocksAreAccepted(doc: Json, key: string)
    requires WellFormed(doc) && Accepted(Evidence(doc))
    requires key != "integrity" && key != "combinedAt"
    ensures WellFormed(Block(doc, key)) && Accepted(Block(doc, key))
  {
    EvidenceKeepsBlocks(doc, key);
    EvidenceIsWellFormed(doc);
    var b := Get(Evidence(doc), key);
    if b.Some? {
      var es := Evidence(doc).members;
      var i :| 0 <= i < |es| && es[i].key == key && es[i].value == b.value;
    }
  }

  /** `compute_digests`: four texts, four hashes; refused exactly when the
      evidence is. */
  method ComputeDigests(hash: string -> string, doc: Json) returns (r: Result<Digests, CanonicalError>)
    requires WellFormed(doc)
    ensures r.Success? <==> Accepted(Evidence(doc))
    ensures r.Success? ==> r.value == DigestsOf(hash, doc)
  {
    var keys := ["cells", "runner", "measurement"];
    var computed: seq<string> := [];
    EvidenceIsWellFormed(doc);
    while |computed| < 3
      invariant |computed| <= 3
      invariant forall k :: 0 <= k < |computed| ==> computed[k] == Digest(hash, Block(doc, keys[k]))
      decreases 3 - |computed|
    {
      var key := keys[|computed|];
      assert key == "cells" || key == "runner" || key == "measurement";
      BlockIsWellFormed(doc, key);
      var text := Writer.CanonicalJson(Block(doc, key));
      if text.Failure? {
        if Accepted(Evidence(doc)) { BlocksAreAccepted(doc, key); }
        return Failure(text.error);
      }
      computed := computed + ["sha256:" + hash(text.value)];
    }
    var whole := Writer.CanonicalJson(Evidence(doc));
    if whole.Failure? {
      return Failure(whole.error);
    }
    return Success(Digests(computed[0], computed[1], computed[2], "sha256:" + hash(whole.value)));
  }

  lemma BlockIsWellFormed(doc: Json, key: string)
    requires WellFormed(doc)
    ensures WellFormed(Block(doc, key))
  {
    var b := Get(doc, key);
    if b.Some? {
      var i :| 0 <= i < |doc.members| && doc.members[i].key == key && doc.members[i].value == b.value;
    }
  }

  /** Under a collision-free hash two digests agree exactly when the documents
      under them are the same. */
  lemma DigestIsIdentity(hash: string -> string, a: Json, b: Json)
    requires Injective(hash)
    requires WellFormed(a) && WellFormed(b) && Accepted(a) && Accepted(b)
    ensures Digest(hash, a) == Digest(hash, b) <==> Same(a, b)
  {
    TextIsFaithful(a, b);
    var x, y := hash(Text(a)), hash(Text(b));
    if "sha256:" + x == "sha256:" + y {
      assert x == ("sha256:" + x)[7..] == ("sha256:" + y)[7..] == y;
    }
  }

  // ---- sealing ------------------------------------------------------------

  function DigestsJson(d: Digests): Json {
    Obj([Entry("cells", Str(d.cells)), Entry("runners", Str(d.runners)),
         Entry("measurements", Str(d.measurements)), Entry("document", Str(d.document))])
  }

  function StringUnder(ms: seq<Entry<Json>>, key: string): Option<string> {
    var v := Lookup(ms, key);
    if v.Some? && v.value.Str? then Some(v.value.s) else None
  }

  /** Reading an `integrity` block: an object with the four strings, whatever
      else it holds, or an array of exactly four. */
  function ParseDigests(v: Json): Option<Digests> {
    match v
    case Obj(ms) =>
      var (c, r, m, d) := (StringUnder(ms, "cells"), StringUnder(ms, "runners"),
                           StringUnder(ms, "measurements"), StringUnder(ms, "document"));
      if c.Some? && r.Some? && m.Some? && d.Some? then Some(Digests(c.value, r.value, m.value, d.value)) else None
    case Arr(items) =>
      if |items| == 4 && items[0].Str? && items[1].Str? && items[2].Str? && items[3].Str?
      then Some(Digests(items[0].s, items[1].s, items[2].s, items[3].s))
      else None
    case _ => None
  }

  function MembersOf(doc: Json): seq<Entry<Json>> {
    if doc.Obj? then doc.members else []
  }

  /** `seal`: the same members, the time of combining, and the four digests of
      the document as it was handed in. */
  function Seal(hash: string -> string, doc: Json, now: string): Json {
    Obj(Put(Put(MembersOf(doc), "combinedAt", Str(now)), "integrity", DigestsJson(DigestsOf(hash, doc))))
  }

  lemma DigestsJsonParses(d: Digests)
    ensures ParseDigests(DigestsJson(d)) == Some(d)
    ensures WellFormed(DigestsJson(d))
  {
    var ms := DigestsJson(d).members;
    DigestKeysDiffer(ms);
    StringIsUnder(ms, 0, d.cells);
    StringIsUnder(ms, 1, d.runners);
    StringIsUnder(ms, 2, d.measurements);
    StringIsUnder(ms, 3, d.document);
    StringsAreWellFormed(ms);
  }

  lemma StringIsUnder(ms: seq<Entry<Json>>, i: nat, s: string)
    requires DistinctKeys(ms) && i < |ms| && ms[i].value == Str(s)
    ensures StringUnder(ms, ms[i].key) == Some(s)
  {
    LookupAt(ms, i);
  }

  lemma StringsAreWellFormed(ms: seq<Entry<Json>>)
    requires DistinctKeys(ms) && forall i :: 0 <= i < |ms| ==> ms[i].value.Str?
    ensures WellFormed(Obj(ms))
  {
  }

  lemma DigestKeysDiffer(ms: seq<Entry<Json>>)
    requires |ms| == 4
    requires ms[0].key == "cells" && ms[1].key == "runners" && ms[2].key == "measurements" && ms[3].key == "document"
    ensures DistinctKeys(ms)
  {
    assert |ms[0].key| == 5 && |ms[1].key| == 7 && |ms[2].key| == 12 && |ms[3].key| == 8;
  }

  lemma SealEntries(hash: string -> string, doc: Json, now: string)
    requires WellFormed(doc)
    ensures DistinctKeys(Seal(hash, doc, now).members)
    ensures Entry("integrity", DigestsJson(DigestsOf(hash, doc))) in Seal(hash, doc, now).members
    ensures forall e: Entry<Json> :: e.key != "integrity" && e.key != "combinedAt" ==>
              (e in Seal(hash, doc, now).members <==> e in MembersOf(doc))
  {
    var ms := MembersOf(doc);
    PutKeepsDistinct(ms, "combinedAt", Str(now));
    PutKeepsDistinct(Put(ms, "combinedAt", Str(now)), "integrity", DigestsJson(DigestsOf(hash, doc)));
  }

  lemma SealIsWellFormed(hash: string -> string, doc: Json, now: string)
    requires WellFormed(doc)
    ensures WellFormed(Seal(hash, doc, now))
  {
    var ms := MembersOf(doc);
    PutIsWellFormed(ms, "combinedAt", Str(now));
    DigestsJsonParses(DigestsOf(hash, doc));
    PutIsWellFormed(Put(ms, "combinedAt", Str(now)), "integrity", DigestsJson(DigestsOf(hash, doc)));
  }

  /** Sealing leaves every other key alone. */
  lemma SealKeepsKeys(hash: string -> string, doc: Json, now: string, key: string)
    requires WellFormed(doc) && doc.Obj? && key != "integrity" && key != "combinedAt"
    ensures Get(Seal(hash, doc, now), key) == Get(doc, key)
  {
    SealEntries(hash, doc, now);
    SameEntriesSameLookup(Seal(hash, doc, now).members, doc.members, key);
  }

  lemma SealStatesDigests(hash: string -> string, doc: Json, now: string)
    requires WellFormed(doc)
    ensures Get(Seal(hash, doc, now), "integrity") == Some(DigestsJson(DigestsOf(hash, doc)))
    ensures Stated(Seal(hash, doc, now)) == Some(DigestsOf(hash, doc))
  {
    SealEntries(hash, doc, now);
    LookupIsMembership(Seal(hash, doc, now).members, "integrity", DigestsJson(DigestsOf(hash, doc)));
    DigestsJsonParses(DigestsOf(hash, doc));
  }

  /** The evidence of the sealed document is the evidence of the document, up
      to key order. */
  lemma SealKeepsEvidence(hash: string -> string, doc: Json, now: string)
    requires WellFormed(doc) && doc.Obj?
    ensures Reordered(Evidence(Seal(hash, doc, now)), Evidence(doc))
  {
    var sealed := Seal(hash, doc, now);
    SealIsWellFormed(hash, doc, now);
    EvidenceEntries(sealed.members);
    EvidenceEntries(doc.members);
    SealEntries(hash, doc, now);
    EvidenceIsWellFormed(doc);
    EvidenceIsWellFormed(sealed);
    SameEntriesAreReordered(Evidence(sealed).members, Evidence(doc).members);
  }

  lemma {:induction false} ReorderedReflexive(v: Json)
    requires WellFormed(v)
    ensures Reordered(v, v)
  {
    match v
    case Arr(items) =>
      forall i | 0 <= i < |items| ensures Reordered(items[i], items[i]) { ReorderedReflexive(items[i]); }
    case Obj(ms) =>
      forall i, j | 0 <= i < |ms| && 0 <= j < |ms| && ms[i].key == ms[j].key
        ensures Reordered(ms[i].value, ms[j].value)
      {
        assert i == j;
        ReorderedReflexive(ms[i].value);
      }
    case _ =>
  }

  lemma SameEntriesAreReordered(ms: seq<Entry<Json>>, ns: seq<Entry<Json>>)
    requires WellFormed(Obj(ms)) && WellFormed(Obj(ns))
    requires forall e :: e in ms <==> e in ns
    ensures Reordered(Obj(ms), Obj(ns))
  {
    forall k ensures k in Keys(ms) <==> k in Keys(ns) {
      if k in Keys(ms) { var i := KeyIsHeld(ms, k); assert ms[i] in ns; }
      if k in Keys(ns) { var i := KeyIsHeld(ns, k); assert ns[i] in ms; }
    }
    forall i, j | 0 <= i < |ms| && 0 <= j < |ns| && ms[i].key == ns[j].key
      ensures Reordered(ms[i].value, ns[j].value)
    {
      assert ms[i] in ns;
      var k :| 0 <= k < |ns| && ns[k] == ms[i];
      assert k == j;
      ReorderedReflexive(ms[i].value);
    }
  }

  /** Sealing moves none of the four digests. */
  lemma SealKeepsDigests(hash: string -> string, doc: Json, now: string)
    requires WellFormed(doc) && doc.Obj? && Accepted(Evidence(doc))
    ensures WellFormed(Seal(hash, doc, now)) && Accepted(Evidence(Seal(hash, doc, now)))
    ensures DigestsOf(hash, Seal(hash, doc, now)) == DigestsOf(hash, doc)
  {
    var sealed := Seal(hash, doc, now);
    SealKeepsKeys(hash, doc, now, "cells");
    SealKeepsKeys(hash, doc, now, "runner");
    SealKeepsKeys(hash, doc, now, "measurement");
    SealIsWellFormed(hash, doc, now);
    EvidenceIsWellFormed(doc);
    EvidenceIsWellFormed(sealed);
    SealKeepsEvidence(hash, doc, now);
    ReorderedSymmetric(Evidence(sealed), Evidence(doc));
    OrderDoesNotShow(Evidence(doc), Evidence(sealed));
  }

  lemma {:induction false} ReorderedSymmetric(a: Json, b: Json)
    requires Reordered(a, b)
    ensures Reordered(b, a)
  {
    match (a, b)
    case (Arr(xs), Arr(ys)) =>
      forall i | 0 <= i < |xs| ensures Reordered(ys[i], xs[i]) { ReorderedSymmetric(xs[i], ys[i]); }
    case (Obj(ms), Obj(ns)) =>
      forall i, j | 0 <= i < |ns| && 0 <= j < |ms| && ns[i].key == ms[j].key
        ensures Reordered(ns[i].value, ms[j].value)
      {
        ReorderedSymmetric(ms[j].value, ns[i].value);
      }
    case _ =>
  }

  /** Sealing again and again, at whatever times, leaves all four digests where
      the first seal put them. */
  function SealAgain(hash: string -> string, doc: Json, times: seq<string>): Json
    decreases |times|
  {
    if times == [] then doc else SealAgain(hash, Seal(hash, doc, times[0]), times[1..])
  }

  lemma {:induction false} ResealingIsStable(hash: string -> string, doc: Json, times: seq<string>)
    requires WellFormed(doc) && doc.Obj? && Accepted(Evidence(doc))
    ensures WellFormed(SealAgain(hash, doc, times)) && SealAgain(hash, doc, times).Obj?
    ensures DigestsOf(hash, SealAgain(hash, doc, times)) == DigestsOf(hash, doc)
    decreases |times|
  {
    if times != [] {
      SealKeepsDigests(hash, doc, times[0]);
      ResealingIsStable(hash, Seal(hash, doc, times[0]), times[1..]);
    }
  }

  // ---- verification -------------------------------------------------------

  /** The digests a document claims for itself. */
  function Stated(doc: Json): Option<Digests> {
    var i := Get(doc, "integrity");
    if i.None? then None else ParseDigests(i.value)
  }

  datatype Report = Report(
    recomputed: Digests,
    stated: Option<Digests>,
    moved: seq<string>,
    held: seq<string>,
    malformedIntegrity: bool)
  {
    predicate Ok() { stated.Some? && moved == [] }
  }

  const BLOCK_NAMES: seq<string> := ["cells", "runners", "measurements", "document"]

  function Field(d: Digests, block: nat): string {
    if block == 0 then d.cells else if block == 1 then d.runners else if block == 2 then d.measurements else d.document
  }

  predicate Agrees(stated: Digests, actual: Digests, block: nat) {
    Field(stated, block) == Field(actual, block)
  }

  /** The names, in order, of the first `n` blocks that agree, or that do not. */
  function Pick(stated: Digests, actual: Digests, agree: bool, n: nat): (names: seq<string>)
    requires n <= 4
  {
    if n == 0 then []
    else Pick(stated, actual, agree, n - 1)
         + (if Agrees(stated, actual, n - 1) == agree then [BLOCK_NAMES[n - 1]] else [])
  }

  method Compare(stated: Digests, actual: Digests) returns (moved: seq<string>, held: seq<string>)
    ensures moved == Pick(stated, actual, false, 4) && held == Pick(stated, actual, true, 4)
  {
    moved, held := [], [];
    var k := 0;
    while k < 4
      invariant k <= 4
      invariant moved == Pick(stated, actual, false, k)
      invariant held == Pick(stated, actual, true, k)
    {
      if Agrees(stated, actual, k) {
        held := held + [BLOCK_NAMES[k]];
      } else {
        moved := moved + [BLOCK_NAMES[k]];
      }
      k := k + 1;
    }
  }

  /** `verify`: all four digests recomputed and compared, none skipped. */
  method Verify(hash: string -> string, doc: Json) returns (r: Result<Report, CanonicalError>)
    requires WellFormed(doc)
    ensures r.Success? <==> Accepted(Evidence(doc))
    ensures r.Success? ==> r.value.recomputed == DigestsOf(hash, doc) && r.value.stated == Stated(doc)
    ensures r.Success? && r.value.stated.Some? ==>
      r.value.moved == Pick(r.value.stated.value, r.value.recomputed, false, 4) &&
      r.value.held == Pick(r.value.stated.value, r.value.recomputed, true, 4)
    ensures r.Success? && r.value.stated.None? ==> r.value.moved == [] && r.value.held == []
    ensures r.Success? ==>
      (r.value.malformedIntegrity <==>
        r.value.stated.None? && Get(doc, "integrity").Some? && Get(doc, "integrity").value != Null)
  {
    var digests := ComputeDigests(hash, doc);
    if digests.Failure? {
      return Failure(digests.error);
    }
    var actual := digests.value;
    var stated := Stated(doc);
    var moved, held: seq<string> := [], [];
    if stated.Some? {
      moved, held := Compare(stated.value, actual);
    }
    var claimed := Get(doc, "integrity");
    return Success(Report(actual, stated, moved, held,
                          claimed.Some? && claimed.value != Null && stated.None?));
  }

  /** Every name is in exactly one of the two lists. */
  lemma PickPartitions(stated: Digests, actual: Digests)
    ensures forall k :: 0 <= k < 4 ==>
      (BLOCK_NAMES[k] in Pick(stated, actual, true, 4) <==> Agrees(stated, actual, k)) &&
      (BLOCK_NAMES[k] in Pick(stated, actual, false, 4) <==> !Agrees(stated, actual, k))
    ensures |Pick(stated, actual, true, 4)| + |Pick(stated, actual, false, 4)| == 4
    ensures Pick(stated, actual, false, 4) == [] <==> stated == actual
  {
    forall k, agree: bool | 0 <= k < 4
      ensures BLOCK_NAMES[k] in Pick(stated, actual, agree, 4) <==> Agrees(stated, actual, k) == agree
    {
      PickHolds(stated, actual, agree, 4, k);
    }
    PickCounts(stated, actual, 4);
    if Pick(stated, actual, false, 4) == [] {
      assert BLOCK_NAMES[0] !in Pick(stated, actual, false, 4) && BLOCK_NAMES[1] !in Pick(stated, actual, false, 4);
      assert BLOCK_NAMES[2] !in Pick(stated, actual, false, 4) && BLOCK_NAMES[3] !in Pick(stated, actual, false, 4);
    }
    if stated == actual {
      PickAgrees(stated, 4);
    }
  }

  lemma {:induction false} PickAgrees(d: Digests, n: nat)
    requires n <= 4
    ensures Pick(d, d, false, n) == []
  {
    if n > 0 { PickAgrees(d, n - 1); }
  }

  lemma {:induction false} PickCounts(stated: Digests, actual: Digests, n: nat)
    requires n <= 4
    ensures |Pick(stated, actual, true, n)| + |Pick(stated, actual, false, n)| == n
  {
    if n > 0 { PickCounts(stated, actual, n - 1); }
  }

  lemma {:induction false} PickHolds(stated: Digests, actual: Digests, agree: bool, n: nat, k: nat)
    requires n <= 4 && k < 4
    ensures BLOCK_NAMES[k] in Pick(stated, actual, agree, n) <==> k < n && Agrees(stated, actual, k) == agree
  {
    if n > 0 {
      PickHolds(stated, actual, agree, n - 1, k);
      NamesAreDistinct(k, n - 1);
    }
  }

  lemma NamesAreDistinct(j: nat, k: nat)
    requires j < 4 && k < 4
    ensures BLOCK_NAMES[j] == BLOCK_NAMES[k] <==> j == k
  {
    assert |BLOCK_NAMES[0]| == 5 && |BLOCK_NAMES[1]| == 7 && |BLOCK_NAMES[2]| == 12 && |BLOCK_NAMES[3]| == 8;
  }

  /** A sealed object verifies; anything else that is sealed does not, because
      the seal digests the value and then files an object in its place. */
  lemma SealedVerifies(hash: string -> string, doc: Json, now: string)
    requires Injective(hash) && WellFormed(doc) && Accepted(Evidence(doc))
    ensures Stated(Seal(hash, doc, now)) == Some(DigestsOf(hash, Seal(hash, doc, now))) <==> doc.Obj?
  {
    SealStatesDigests(hash, doc, now);
    if doc.Obj? {
      SealKeepsDigests(hash, doc, now);
    } else {
      var sealed := Seal(hash, doc, now);
      SealIsWellFormed(hash, doc, now);
      EvidenceIsWellFormed(sealed);
      EmptyEvidence(hash, doc, now);
      DigestIsIdentity(hash, doc, Evidence(sealed));
    }
  }

  lemma EmptyEvidence(hash: string -> string, doc: Json, now: string)
    requires WellFormed(doc) && !doc.Obj?
    ensures Evidence(Seal(hash, doc, now)) == Obj([])
  {
    var sealed := Seal(hash, doc, now);
    SealEntries(hash, doc, now);
    EvidenceEntries(sealed.members);
    var es := Evidence(sealed).members;
    assert forall e :: e in es ==> e in MembersOf(doc);
    NothingIsEmpty(es, MembersOf(doc));
  }

  lemma NothingIsEmpty<T>(es: seq<T>, within: seq<T>)
    requires forall e :: e in es ==> e in within
    ensures within == [] ==> es == []
  {
    if |es| > 0 { assert es[0] in es; }
  }

  // ---- localisation -------------------------------------------------------

  /** The content a block's digest covers. */
  function Content(doc: Json, block: nat): Json {
    if block == 0 then Block(doc, "cells")
    else if block == 1 then Block(doc, "runner")
    else if block == 2 then Block(doc, "measurement")
    else Evidence(doc)
  }

  lemma ContentIsAccepted(doc: Json, block: nat)
    requires WellFormed(doc) && Accepted(Evidence(doc))
    ensures WellFormed(Content(doc, block)) && Accepted(Content(doc, block))
  {
    if block == 0 {
      BlocksAreAccepted(doc, "cells");
    } else if block == 1 {
      BlocksAreAccepted(doc, "runner");
    } else if block == 2 {
      BlocksAreAccepted(doc, "measurement");
    } else {
      EvidenceIsWellFormed(doc);
    }
  }

  /** Edit a sealed document and leave its integrity block alone: verification
      names exactly the blocks whose content is no longer the same, and the two
      lists it gives split the four names between them. */
  lemma VerifyLocalises(hash: string -> string, sealed: Json, edited: Json, block: nat)
    requires Injective(hash)
    requires WellFormed(sealed) && Accepted(Evidence(sealed))
    requires WellFormed(edited) && Accepted(Evidence(edited))
    requires Stated(sealed) == Some(DigestsOf(hash, sealed))
    requires Get(edited, "integrity") == Get(sealed, "integrity")
    requires block < 4
    ensures Stated(edited) == Stated(sealed)
    ensures BLOCK_NAMES[block] in Pick(Stated(edited).value, DigestsOf(hash, edited), false, 4)
       <==> !Same(Content(sealed, block), Content(edited, block))
    ensures BLOCK_NAMES[block] in Pick(Stated(edited).value, DigestsOf(hash, edited), true, 4)
       <==> Same(Content(sealed, block), Content(edited, block))
  {
    FieldLocalises(hash, sealed, edited, block);
    PickHolds(DigestsOf(hash, sealed), DigestsOf(hash, edited), true, 4, block);
    PickHolds(DigestsOf(hash, sealed), DigestsOf(hash, edited), false, 4, block);
  }

  lemma FieldLocalises(hash: string -> string, a: Json, b: Json, block: nat)
    requires Injective(hash)
    requires WellFormed(a) && Accepted(Evidence(a)) && WellFormed(b) && Accepted(Evidence(b))
    requires block < 4
    ensures Agrees(DigestsOf(hash, a), DigestsOf(hash, b), block) <==> Same(Content(a, block), Content(b, block))
  {
    ContentIsAccepted(a, block);
    ContentIsAccepted(b, block);
    DigestIsIdentity(hash, Content(a, block), Content(b, block));
    FieldDigestsContent(hash, a, block);
    FieldDigestsContent(hash, b, block);
  }

  lemma FieldDigestsContent(hash: string -> string, doc: Json, block: nat)
    requires block < 4
    ensures Field(DigestsOf(hash, doc), block) == Digest(hash, Content(doc, block))
  {
  }

  /** A block cannot move without the document moving too. */
  lemma BlockMovesDocument(a: Json, b: Json, block: nat)
    requires WellFormed(a) && WellFormed(b) && Accepted(Evidence(a)) && Accepted(Evidence(b))
    requires block < 3
    requires Same(Evidence(a), Evidence(b))
    ensures Same(Content(a, block), Content(b, block))
  {
    var key := if block == 0 then "cells" else if block == 1 then "runner" else "measurement";
    EvidenceKeepsBlocks(a, key);
    EvidenceKeepsBlocks(b, key);
    EvidenceIsWellFormed(a);
    EvidenceIsWellFormed(b);
    SameBlocks(Evidence(a), Evidence(b), key);
  }

  lemma SameBlocks(a: Json, b: Json, key: string)
    requires WellFormed(a) && WellFormed(b) && Same(a, b)
    ensures Same(Block(a, key), Block(b, key))
  {
    if a.Obj? && key in Keys(a.members) {
      var i := KeyIsHeld(a.members, key);
      var j := KeyIsHeld(b.members, key);
      LookupAt(a.members, i);
      LookupAt(b.members, j);
    }
  }

  /** A member that is absent and one that is `null`, a block among them, give
      the same block digests; only the document's digest tells the two documents
      apart. */
  lemma AbsentIsNotNull(hash: string -> string, ms: seq<Entry<Json>>, key: string, block: nat)
    requires Injective(hash)
    requires WellFormed(Obj(ms)) && Accepted(Evidence(Obj(ms)))
    requires key !in Keys(ms) && key != "integrity" && key != "combinedAt" && IsAscii(key)
    requires block < 3
    ensures var more := Obj(ms + [Entry(key, Null)]);
      WellFormed(more) && Accepted(Evidence(more)) &&
      Field(DigestsOf(hash, Obj(ms)), block) == Field(DigestsOf(hash, more), block) &&
      DigestsOf(hash, Obj(ms)).document != DigestsOf(hash, more).document
  {
    NullFits(ms, key);
    NullKeepsContent(ms, key, block);
    FieldDigestsContent(hash, Obj(ms), block);
    FieldDigestsContent(hash, Obj(ms + [Entry(key, Null)]), block);
    NullMovesDocument(hash, ms, key);
  }

  lemma NullKeepsContent(ms: seq<Entry<Json>>, key: string, block: nat)
    requires WellFormed(Obj(ms)) && key !in Keys(ms) && block < 3
    ensures Content(Obj(ms), block) == Content(Obj(ms + [Entry(key, Null)]), block)
  {
    if block == 0 {
      NullKeepsBlock(ms, key, "cells");
    } else if block == 1 {
      NullKeepsBlock(ms, key, "runner");
    } else {
      NullKeepsBlock(ms, key, "measurement");
    }
  }

  lemma NullMovesDocument(hash: string -> string, ms: seq<Entry<Json>>, key: string)
    requires Injective(hash)
    requires WellFormed(Obj(ms)) && Accepted(Evidence(Obj(ms)))
    requires key !in Keys(ms) && key != "integrity" && key != "combinedAt" && IsAscii(key)
    ensures Accepted(Evidence(Obj(ms + [Entry(key, Null)])))
    ensures DigestsOf(hash, Obj(ms)).document != DigestsOf(hash, Obj(ms + [Entry(key, Null)])).document
  {
    NullFits(ms, key);
    NullIsEvidence(ms, key);
    EvidenceIsWellFormed(Obj(ms));
    EvidenceIsWellFormed(Obj(ms + [Entry(key, Null)]));
    DigestIsIdentity(hash, Evidence(Obj(ms)), Evidence(Obj(ms + [Entry(key, Null)])));
  }

  lemma NullFits(ms: seq<Entry<Json>>, key: string)
    requires WellFormed(Obj(ms)) && key !in Keys(ms)
    ensures WellFormed(Obj(ms + [Entry(key, Null)]))
  {
    forall i | 0 <= i < |ms| ensures ms[i].key != key { assert ms[i].key in Keys(ms); }
  }

  lemma NullKeepsBlock(ms: seq<Entry<Json>>, key: string, name: string)
    requires WellFormed(Obj(ms)) && key !in Keys(ms)
    ensures Block(Obj(ms), name) == Block(Obj(ms + [Entry(key, Null)]), name)
  {
    var more := ms + [Entry(key, Null)];
    NullFits(ms, key);
    if name in Keys(ms) {
      var i := KeyIsHeld(ms, name);
      LookupAt(ms, i);
      assert more[i] == ms[i];
      LookupAt(more, i);
    } else if name == key {
      assert more[|ms|] == Entry(key, Null);
      LookupAt(more, |ms|);
    } else {
      KeysOfOneMore(ms, Entry(key, Null));
    }
  }

  lemma NullIsEvidence(ms: seq<Entry<Json>>, key: string)
    requires WellFormed(Obj(ms)) && Accepted(Evidence(Obj(ms)))
    requires DistinctKeys(ms + [Entry(key, Null)])
    requires key !in Keys(ms) && key != "integrity" && key != "combinedAt" && IsAscii(key)
    ensures Accepted(Evidence(Obj(ms + [Entry(key, Null)])))
    ensures !Same(Evidence(Obj(ms)), Evidence(Obj(ms + [Entry(key, Null)])))
  {
    var more := ms + [Entry(key, Null)];
    EvidenceEntries(ms);
    EvidenceEntries(more);
    assert more[|ms|] == Entry(key, Null);
    NullIsMore(ms, more, key, Evidence(Obj(ms)).members, Evidence(Obj(more)).members);
  }

  lemma NullIsMore(ms: seq<Entry<Json>>, more: seq<Entry<Json>>, key: string, a: seq<Entry<Json>>, b: seq<Entry<Json>>)
    requires key !in Keys(ms) && more == ms + [Entry(key, Null)] && Accepted(Obj(a))
    requires key != "integrity" && key != "combinedAt" && IsAscii(key)
    requires forall e :: e in a <==> e in ms && e.key != "integrity" && e.key != "combinedAt"
    requires forall e :: e in b <==> e in more && e.key != "integrity" && e.key != "combinedAt"
    ensures Accepted(Obj(b)) && !Same(Obj(a), Obj(b))
  {
    assert more[|ms|] == Entry(key, Null);
    HoldsKey(b, Entry(key, Null));
    NoNewKey(a, ms, key);
    AcceptedWithNull(a, key, b);
  }

  lemma NoNewKey(a: seq<Entry<Json>>, ms: seq<Entry<Json>>, key: string)
    requires key !in Keys(ms) && forall e :: e in a ==> e in ms
    ensures key !in Keys(a)
  {
    if key in Keys(a) {
      var i := KeyIsHeld(a, key);
      assert a[i] in ms;
      HoldsKey(ms, a[i]);
    }
  }

  lemma HoldsKey(es: seq<Entry<Json>>, e: Entry<Json>)
    requires e in es
    ensures e.key in Keys(es)
  {
    var i :| 0 <= i < |es| && es[i] == e;
    assert es[i].key in Keys(es);
  }

  lemma AcceptedWithNull(a: seq<Entry<Json>>, key: string, b: seq<Entry<Json>>)
    requires Accepted(Obj(a)) && IsAscii(key)
    requires forall e :: e in b ==> e == Entry(key, Null) || e in a
    ensures Accepted(Obj(b))
  {
    forall i | 0 <= i < |b| ensures IsAscii(b[i].key) && Accepted(b[i].value) {
      if b[i] != Entry(key, Null) {
        assert b[i] in a;
        var k :| 0 <= k < |a| && a[k] == b[i];
      }
    }
  }
}
