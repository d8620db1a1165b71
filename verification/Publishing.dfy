/** Publishing, copy by copy. */
module Publishing {
  // One folder or file after another is put into the repository. A copy can fail
  // and leave its target cut short; what the repository then holds, and when it
  // is still what it was or already what it was to be.

  import opened Words

  // ---- what is published --------------------------------------------------

  type Directory = map<string, string>

  /** What publishing touches in the repository: a family's folder, a file in it,
      the history. */
  datatype Path = Folder(family: string) | Item(family: string, name: string) | History

  /** What is there; a folder holds nothing of its own. */
  type Repo = map<Path, string>

  function Look(repo: Repo, p: Path): Option<string> {
    if p in repo then Some(repo[p]) else None
  }

  /** A family's files as the repository has them. */
  function FilesOf(repo: Repo, f: string): Directory {
    map p | p in repo && p.Item? && p.family == f :: p.name := repo[p]
  }

  /** A name that is only `.json` has no suffix. */
  predicate IsJson(name: string) {
    |name| > 5 && name[|name| - 5..] == ".json"
  }

  /** What publishing is to put at a path, if anything. */
  function Wanted(staged: map<string, Directory>, history: string, families: seq<string>, p: Path): Option<string> {
    match p
    case Folder(f) => if f in families && f in staged then Some("") else None
    case Item(f, name) => if f in families && f in staged && IsJson(name) && name in staged[f] then Some(staged[f][name]) else None
    case History => Some(history)
  }

  /** Every family's documents, its index and the history are in place, and
      everything else is as it was. */
  ghost predicate IsPublished(after: Repo, before: Repo, staged: map<string, Directory>, history: string, families: seq<string>) {
    forall p :: Look(after, p) ==
      if Wanted(staged, history, families, p).Some? then Wanted(staged, history, families, p) else Look(before, p)
  }

  // ---- one copy after another ---------------------------------------------

  datatype Copy = Copy(path: Path, text: string)

  /** What becomes of one copy: it goes through, or it fails and leaves its
      target alone or holding whatever had been written of it. */
  datatype Fate = Copies | Untouched | Torn(left: string)

  /** A folder is there or not; only a file can be cut short. */
  predicate Cuts(fate: Fate, p: Path) {
    fate.Torn? && !p.Folder?
  }

  function Broken(repo: Repo, p: Path, fate: Fate): Repo {
    if Cuts(fate, p) then repo[p := fate.left] else repo
  }

  function AllCopied(repo: Repo, cs: seq<Copy>): Repo {
    if cs == [] then repo else AllCopied(repo, cs[..|cs| - 1])[cs[|cs| - 1].path := cs[|cs| - 1].text]
  }

  ghost predicate GoThrough(fates: nat -> Fate, from: nat, n: nat) {
    forall j :: from <= j < from + n ==> fates(j).Copies?
  }

  /** The first `k` copies went through, and the next one, if there is one, was
      the first that did not. */
  ghost predicate StopsAt(fates: nat -> Fate, from: nat, n: nat, k: nat) {
    k <= n && GoThrough(fates, from, k) && (k < n ==> !fates(from + k).Copies?)
  }

  /** The repository when copy `k` was the first that failed, by this fate. */
  function FailedAt(repo: Repo, cs: seq<Copy>, k: nat, fate: Fate): Repo
    requires k < |cs|
  {
    Broken(AllCopied(repo, cs[..k]), cs[k].path, fate)
  }

  /** The repository once the copies have stopped. */
  function Stopped(repo: Repo, cs: seq<Copy>, fates: nat -> Fate, from: nat, k: nat): Repo
    requires k <= |cs|
  {
    if k == |cs| then AllCopied(repo, cs) else FailedAt(repo, cs, k, fates(from + k))
  }

  /** A family's folder, then its JSON files in the order of their names. */
  ghost predicate ListsFamily(cs: seq<Copy>, staged: map<string, Directory>, f: string) {
    if f !in staged then cs == []
    else cs != [] && cs[0] == Copy(Folder(f), "") && ListsFiles(cs[1..], staged[f], f)
  }

  ghost predicate ListsFiles(cs: seq<Copy>, d: Directory, f: string) {
    (forall i :: 0 <= i < |cs| ==> IsFileCopy(cs[i], d, f)) &&
    (forall i, j :: 0 <= i < j < |cs| ==> cs[i].path.Item? && cs[j].path.Item? && Before(cs[i].path.name, cs[j].path.name)) &&
    (forall name :: name in d && IsJson(name) ==> exists i :: 0 <= i < |cs| && cs[i].path == Item(f, name))
  }

  predicate IsFileCopy(c: Copy, d: Directory, f: string) {
    c.path.Item? && c.path.family == f && IsJson(c.path.name) && c.path.name in d && c.text == d[c.path.name]
  }

  ghost predicate ListsFamilies(cs: seq<Copy>, staged: map<string, Directory>, families: seq<string>)
    decreases |families|
  {
    if families == [] then cs == []
    else
      exists m :: 0 <= m <= |cs| && ListsFamilies(cs[..m], staged, families[..|families| - 1]) &&
                  ListsFamily(cs[m..], staged, families[|families| - 1])
  }

  /** All the copies publishing makes, in order: family after family, the history
      last. */
  ghost predicate IsPlan(cs: seq<Copy>, staged: map<string, Directory>, history: string, families: seq<string>) {
    cs != [] && cs[|cs| - 1] == Copy(History, history) && ListsFamilies(cs[..|cs| - 1], staged, families)
  }

  // ---- what the copies come to --------------------------------------------

  /** Every copy puts what is wanted where it is wanted. */
  ghost predicate PutsWhatIsWanted(cs: seq<Copy>, staged: map<string, Directory>, history: string, families: seq<string>) {
    forall i :: 0 <= i < |cs| ==> Wanted(staged, history, families, cs[i].path) == Some(cs[i].text)
  }

  ghost predicate Reaches(cs: seq<Copy>, p: Path) {
    exists i :: 0 <= i < |cs| && cs[i].path == p
  }

  lemma FamilyReaches(cs: seq<Copy>, staged: map<string, Directory>, history: string, families: seq<string>, f: string)
    requires ListsFamily(cs, staged, f) && f in families
    ensures PutsWhatIsWanted(cs, staged, history, families)
    ensures f in staged ==> Reaches(cs, Folder(f)) && forall name :: name in staged[f] && IsJson(name) ==> Reaches(cs, Item(f, name))
  {
    if f in staged {
      var files := cs[1..];
      forall i | 0 <= i < |cs| ensures Wanted(staged, history, families, cs[i].path) == Some(cs[i].text) {
        if i > 0 { assert IsFileCopy(files[i - 1], staged[f], f); }
      }
      forall name | name in staged[f] && IsJson(name) ensures Reaches(cs, Item(f, name)) {
        var i :| 0 <= i < |files| && files[i].path == Item(f, name);
        assert cs[i + 1].path == Item(f, name);
      }
    }
  }

  lemma {:induction false} FamiliesReach(cs: seq<Copy>, staged: map<string, Directory>, history: string, families: seq<string>, all: seq<string>)
    requires ListsFamilies(cs, staged, families) && forall f :: f in families ==> f in all
    ensures PutsWhatIsWanted(cs, staged, history, all)
    ensures forall f :: f in families && f in staged ==> Reaches(cs, Folder(f))
    ensures forall f, name :: f in families && f in staged && name in staged[f] && IsJson(name) ==> Reaches(cs, Item(f, name))
    decreases |families|
  {
    if families != [] {
      var init, last := families[..|families| - 1], families[|families| - 1];
      var m :| 0 <= m <= |cs| && ListsFamilies(cs[..m], staged, init) && ListsFamily(cs[m..], staged, last);
      FamiliesReach(cs[..m], staged, history, init, all);
      FamilyReaches(cs[m..], staged, history, all, last);
      JoinedReach(cs, m, staged, history, all);
      assert forall f :: f in families ==> f in init || f == last;
    }
  }

  lemma JoinedReach(cs: seq<Copy>, m: nat, staged: map<string, Directory>, history: string, families: seq<string>)
    requires m <= |cs|
    requires PutsWhatIsWanted(cs[..m], staged, history, families) && PutsWhatIsWanted(cs[m..], staged, history, families)
    ensures PutsWhatIsWanted(cs, staged, history, families)
    ensures forall p :: Reaches(cs[..m], p) || Reaches(cs[m..], p) ==> Reaches(cs, p)
  {
    forall i | 0 <= i < |cs| ensures Wanted(staged, history, families, cs[i].path) == Some(cs[i].text) {
      if i < m { assert cs[..m][i] == cs[i]; } else { assert cs[m..][i - m] == cs[i]; }
    }
    forall p | Reaches(cs[..m], p) ensures Reaches(cs, p) {
      var i :| 0 <= i < m && cs[..m][i].path == p;
      assert cs[i].path == p;
    }
    forall p | Reaches(cs[m..], p) ensures Reaches(cs, p) {
      var i :| 0 <= i < |cs| - m && cs[m..][i].path == p;
      assert cs[m + i].path == p;
    }
  }

  /** The plan reaches everything that is wanted and nothing else. */
  lemma PlanIsWhatIsWanted(cs: seq<Copy>, staged: map<string, Directory>, history: string, families: seq<string>)
    requires IsPlan(cs, staged, history, families)
    ensures PutsWhatIsWanted(cs, staged, history, families)
    ensures forall p :: Wanted(staged, history, families, p).Some? <==> Reaches(cs, p)
  {
    var n := |cs| - 1;
    FamiliesReach(cs[..n], staged, history, families, families);
    assert cs[n..] == [Copy(History, history)];
    JoinedReach(cs, n, staged, history, families);
    assert cs[n].path == History;
    forall p | Wanted(staged, history, families, p).Some? ensures Reaches(cs, p) {
      match p
      case Folder(f) => assert Reaches(cs[..n], p);
      case Item(f, name) => assert Reaches(cs[..n], p);
      case History =>
    }
  }

  /** After some of the copies: what they reached is as wanted, the rest as it
      was. */
  lemma {:induction false} CopiedLooks(repo: Repo, cs: seq<Copy>, staged: map<string, Directory>, history: string, families: seq<string>, p: Path)
    requires PutsWhatIsWanted(cs, staged, history, families)
    ensures Look(AllCopied(repo, cs), p) == if Reaches(cs, p) then Wanted(staged, history, families, p) else Look(repo, p)
  {
    if cs != [] {
      var n := |cs| - 1;
      assert forall i :: 0 <= i < n ==> cs[..n][i] == cs[i];
      CopiedLooks(repo, cs[..n], staged, history, families, p);
      if Reaches(cs, p) && cs[n].path != p {
        var i :| 0 <= i < |cs| && cs[i].path == p;
        assert cs[..n][i].path == p;
      }
    }
  }

  /** All the copies together are the publication. */
  lemma AllCopiedIsPublished(repo: Repo, cs: seq<Copy>, staged: map<string, Directory>, history: string, families: seq<string>)
    requires IsPlan(cs, staged, history, families)
    ensures IsPublished(AllCopied(repo, cs), repo, staged, history, families)
  {
    PlanIsWhatIsWanted(cs, staged, history, families);
    forall p ensures Look(AllCopied(repo, cs), p) ==
        if Wanted(staged, history, families, p).Some? then Wanted(staged, history, families, p) else Look(repo, p) {
      CopiedLooks(repo, cs, staged, history, families, p);
    }
  }

  /** When a copy fails: the targets before it are as wanted, its own holds what
      was left in it, and everything else is as it was. */
  lemma WhatRemains(repo: Repo, cs: seq<Copy>, k: nat, fate: Fate, staged: map<string, Directory>, history: string,
                    families: seq<string>, p: Path)
    requires IsPlan(cs, staged, history, families) && k < |cs|
    ensures Look(FailedAt(repo, cs, k, fate), p) ==
      if p == cs[k].path && Cuts(fate, p) then Some(fate.left)
      else if Reaches(cs[..k], p) then Wanted(staged, history, families, p)
      else Look(repo, p)
  {
    PlanIsWhatIsWanted(cs, staged, history, families);
    CopiedLooks(repo, cs[..k], staged, history, families, p);
  }

  /** Copying this would change nothing. */
  predicate IsThere(repo: Repo, c: Copy) {
    Look(repo, c.path) == Some(c.text)
  }

  /** No copy before the one that fails would change the repository, and that one
      is cut to what its target held already if it is cut at all. */
  ghost predicate NothingMoves(repo: Repo, cs: seq<Copy>, k: nat, fate: Fate)
    requires k < |cs|
  {
    if Cuts(fate, cs[k].path) then
      Look(repo, cs[k].path) == Some(fate.left) && forall i :: 0 <= i < k && cs[i].path != cs[k].path ==> IsThere(repo, cs[i])
    else
      forall i :: 0 <= i < k ==> IsThere(repo, cs[i])
  }

  /** Neither the copy that fails nor any after it would change more than those
      before it have changed, and that one is written in full if it is cut. */
  ghost predicate NothingIsMissing(repo: Repo, cs: seq<Copy>, k: nat, fate: Fate)
    requires k < |cs|
  {
    if Cuts(fate, cs[k].path) then
      fate.left == cs[k].text &&
      forall i :: k < i < |cs| && cs[i].path != cs[k].path ==> IsThere(repo, cs[i]) || Reaches(cs[..k], cs[i].path)
    else
      forall i :: k <= i < |cs| ==> IsThere(repo, cs[i]) || Reaches(cs[..k], cs[i].path)
  }

  lemma SameLooks(a: Repo, b: Repo)
    ensures a == b <==> forall p :: Look(a, p) == Look(b, p)
  {
    if forall p :: Look(a, p) == Look(b, p) {
      forall p ensures p in a <==> p in b { assert Look(a, p) == Look(b, p); }
      forall p | p in a ensures a[p] == b[p] { assert Look(a, p) == Look(b, p); }
    }
  }

  lemma UnchangedIff(repo: Repo, cs: seq<Copy>, k: nat, fate: Fate, staged: map<string, Directory>, history: string, families: seq<string>)
    requires IsPlan(cs, staged, history, families) && k < |cs|
    ensures FailedAt(repo, cs, k, fate) == repo <==> NothingMoves(repo, cs, k, fate)
  {
    var after := FailedAt(repo, cs, k, fate);
    SameLooks(after, repo);
    PlanIsWhatIsWanted(cs, staged, history, families);
    forall i | 0 <= i < k && (cs[i].path != cs[k].path || !Cuts(fate, cs[k].path)) ensures Look(after, cs[i].path) == Some(cs[i].text) {
      WhatRemains(repo, cs, k, fate, staged, history, families, cs[i].path);
      assert cs[..k][i].path == cs[i].path;
    }
    WhatRemains(repo, cs, k, fate, staged, history, families, cs[k].path);
    if NothingMoves(repo, cs, k, fate) {
      forall p ensures Look(after, p) == Look(repo, p) {
        WhatRemains(repo, cs, k, fate, staged, history, families, p);
        if Reaches(cs[..k], p) {
          var i :| 0 <= i < k && cs[..k][i].path == p;
          assert p != cs[k].path || !Cuts(fate, p) ==> IsThere(repo, cs[i]);
        }
      }
    }
  }

  lemma CompleteIff(repo: Repo, cs: seq<Copy>, k: nat, fate: Fate, staged: map<string, Directory>, history: string, families: seq<string>)
    requires IsPlan(cs, staged, history, families) && k < |cs|
    ensures IsPublished(FailedAt(repo, cs, k, fate), repo, staged, history, families) <==> NothingIsMissing(repo, cs, k, fate)
  {
    var after := FailedAt(repo, cs, k, fate);
    PlanIsWhatIsWanted(cs, staged, history, families);
    forall p ensures Look(after, p) ==
        if p == cs[k].path && Cuts(fate, p) then Some(fate.left)
        else if Reaches(cs[..k], p) then Wanted(staged, history, families, p) else Look(repo, p) {
      WhatRemains(repo, cs, k, fate, staged, history, families, p);
    }
    if IsPublished(after, repo, staged, history, families) {
      forall i | k <= i < |cs| ensures Look(after, cs[i].path) == Some(cs[i].text) {
        assert Wanted(staged, history, families, cs[i].path) == Some(cs[i].text);
      }
    }
    if NothingIsMissing(repo, cs, k, fate) {
      forall p ensures Look(after, p) ==
          if Wanted(staged, history, families, p).Some? then Wanted(staged, history, families, p) else Look(repo, p) {
        if Reaches(cs, p) && !Reaches(cs[..k], p) { MissingIsThere(repo, cs, k, fate, p); }
      }
    }
  }

  lemma MissingIsThere(repo: Repo, cs: seq<Copy>, k: nat, fate: Fate, p: Path)
    requires k < |cs| && NothingIsMissing(repo, cs, k, fate) && Reaches(cs, p) && !Reaches(cs[..k], p)
    ensures exists i :: k <= i < |cs| && cs[i].path == p && if p == cs[k].path && Cuts(fate, p) then fate.left == cs[k].text else IsThere(repo, cs[i])
  {
    var i :| 0 <= i < |cs| && cs[i].path == p;
    if p == cs[k].path { assert k <= k < |cs| && cs[k].path == p; }
  }

  ghost predicate IsWhole(after: Repo, before: Repo, staged: map<string, Directory>, history: string, families: seq<string>) {
    after == before || IsPublished(after, before, staged, history, families)
  }

  /** The copies all go through, or the one that fails does so while nothing has
      moved or when nothing is missing. */
  ghost predicate StopsCleanly(repo: Repo, cs: seq<Copy>, fates: nat -> Fate, from: nat, k: nat)
    requires k <= |cs|
  {
    k == |cs| || NothingMoves(repo, cs, k, fates(from + k)) || NothingIsMissing(repo, cs, k, fates(from + k))
  }

  /** Wherever the copies stop, the repository is unchanged or complete exactly
      when they stopped cleanly. */
  lemma WholeOrUnchangedIff(repo: Repo, cs: seq<Copy>, fates: nat -> Fate, from: nat, k: nat, staged: map<string, Directory>, history: string, families: seq<string>)
    requires IsPlan(cs, staged, history, families) && k <= |cs|
    ensures IsWhole(Stopped(repo, cs, fates, from, k), repo, staged, history, families) <==> StopsCleanly(repo, cs, fates, from, k)
  {
    if k == |cs| {
      AllCopiedIsPublished(repo, cs, staged, history, families);
    } else {
      UnchangedIff(repo, cs, k, fates(from + k), staged, history, families);
      CompleteIff(repo, cs, k, fates(from + k), staged, history, families);
    }
  }

  // ---- which publications survive a failure -------------------------------

  /** All the copies that would change something go to one target. */
  ghost predicate OneTargetMoves(repo: Repo, cs: seq<Copy>) {
    forall i, j :: 0 <= i < |cs| && 0 <= j < |cs| && !IsThere(repo, cs[i]) && !IsThere(repo, cs[j]) ==> cs[i].path == cs[j].path
  }

  /** Copies that fail without touching their target leave the repository
      unchanged or complete wherever they stop exactly when at most one target is
      to change. */
  lemma SurvivesFailuresIff(repo: Repo, cs: seq<Copy>, staged: map<string, Directory>, history: string, families: seq<string>)
    requires IsPlan(cs, staged, history, families)
    ensures (forall k :: 0 <= k < |cs| ==> IsWhole(FailedAt(repo, cs, k, Untouched), repo, staged, history, families)) <==> OneTargetMoves(repo, cs)
  {
    forall k | 0 <= k < |cs|
      ensures IsWhole(FailedAt(repo, cs, k, Untouched), repo, staged, history, families) <==>
        NothingMoves(repo, cs, k, Untouched) || NothingIsMissing(repo, cs, k, Untouched)
    {
      UnchangedIff(repo, cs, k, Untouched, staged, history, families);
      CompleteIff(repo, cs, k, Untouched, staged, history, families);
    }
    if OneTargetMoves(repo, cs) {
      forall k | 0 <= k < |cs| ensures NothingMoves(repo, cs, k, Untouched) || NothingIsMissing(repo, cs, k, Untouched) {
        if i :| 0 <= i < k && !IsThere(repo, cs[i]) { assert cs[..k][i].path == cs[i].path; }
      }
    } else {
      var i, j :| 0 <= i < |cs| && 0 <= j < |cs| && !IsThere(repo, cs[i]) && !IsThere(repo, cs[j]) && cs[i].path != cs[j].path;
      PlanIsWhatIsWanted(cs, staged, history, families);
      var a := FirstOf(cs, i);
      var b := FirstOf(cs, j);
      if a < b { HalfwayIsNeither(repo, cs, a, b); } else { HalfwayIsNeither(repo, cs, b, a); }
    }
  }

  /** The first copy to the same target. */
  lemma FirstOf(cs: seq<Copy>, i: nat) returns (a: nat)
    requires i < |cs|
    ensures a <= i && cs[a].path == cs[i].path && !Reaches(cs[..a], cs[i].path)
  {
    if Reaches(cs[..i], cs[i].path) {
      var j :| 0 <= j < i && cs[..i][j].path == cs[i].path;
      a := FirstOf(cs, j);
    } else {
      a := i;
    }
  }

  lemma HalfwayIsNeither(repo: Repo, cs: seq<Copy>, a: nat, b: nat)
    requires a < b < |cs| && !IsThere(repo, cs[a]) && !IsThere(repo, cs[b]) && !Reaches(cs[..b], cs[b].path)
    ensures !NothingMoves(repo, cs, b, Untouched) && !NothingIsMissing(repo, cs, b, Untouched)
  {
  }

  /** A file cut to neither what it was nor what it was to be is damage whatever
      the plan, and every plan ends with a file: the history. */
  lemma NoPlanSurvivesTearing(repo: Repo, cs: seq<Copy>, staged: map<string, Directory>, history: string, families: seq<string>)
    requires IsPlan(cs, staged, history, families)
    ensures forall k, left :: 0 <= k < |cs| && !cs[k].path.Folder? && left != cs[k].text && Look(repo, cs[k].path) != Some(left) ==>
      !IsWhole(FailedAt(repo, cs, k, Torn(left)), repo, staged, history, families)
    ensures exists left :: !IsWhole(FailedAt(repo, cs, |cs| - 1, Torn(left)), repo, staged, history, families)
  {
    forall k, left | 0 <= k < |cs| && !cs[k].path.Folder? && left != cs[k].text && Look(repo, cs[k].path) != Some(left)
      ensures !IsWhole(FailedAt(repo, cs, k, Torn(left)), repo, staged, history, families)
    {
      UnchangedIff(repo, cs, k, Torn(left), staged, history, families);
      CompleteIff(repo, cs, k, Torn(left), staged, history, families);
    }
    var left := if history != "" && Look(repo, History) != Some("") then ""
                else if history != "a" && Look(repo, History) != Some("a") then "a" else "b";
    assert cs[|cs| - 1] == Copy(History, history);
    assert !IsWhole(FailedAt(repo, cs, |cs| - 1, Torn(left)), repo, staged, history, families);
  }

  /** A document filed long ago is copied again with the rest; when that copy
      fails part way, the repository holds it cut short, and is neither what it
      was nor what it was to be. */
  lemma FailedCopyCutsAFiledDocument(text: string, left: string, history: string)
    requires left != text
    ensures var repo := map[Folder("storage") := "", Item("storage", "a.json") := text, History := history];
      var staged := map["storage" := map["a.json" := text]];
      var cs := [Copy(Folder("storage"), ""), Copy(Item("storage", "a.json"), text), Copy(History, history)];
      var fates := n => if n == 1 then Torn(left) else Copies;
      IsPlan(cs, staged, history, ["storage"]) && StopsAt(fates, 0, |cs|, 1) &&
      var after := Stopped(repo, cs, fates, 0, 1);
      Look(after, Item("storage", "a.json")) == Some(left) &&
      after != repo && !IsPublished(after, repo, staged, history, ["storage"])
  {
    var repo := map[Folder("storage") := "", Item("storage", "a.json") := text, History := history];
    var d := map["a.json" := text];
    var staged := map["storage" := d];
    var cs := [Copy(Folder("storage"), ""), Copy(Item("storage", "a.json"), text), Copy(History, history)];
    var fates := n => if n == 1 then Torn(left) else Copies;
    assert "a.json"[1..] == ".json";
    var two := cs[..2];
    assert two[1..] == [cs[1]] && cs[1].path == Item("storage", "a.json");
    assert ListsFiles(two[1..], d, "storage") by { assert two[1..][0] == cs[1]; }
    assert two[..0] == [] && two[0..] == two && ["storage"][..0] == [];
    assert ListsFamilies(two[..0], staged, ["storage"][..0]) && ListsFamily(two[0..], staged, "storage");
    assert ListsFamilies(two, staged, ["storage"]);
    assert IsPlan(cs, staged, history, ["storage"]);
    var after := Stopped(repo, cs, fates, 0, 1);
    assert Look(after, Item("storage", "a.json")) == Some(left);
    assert Look(repo, Item("storage", "a.json")) == Some(text);
    assert Wanted(staged, history, ["storage"], Item("storage", "a.json")) == Some(text);
  }

  // ---- for one family -----------------------------------------------------

  /** The directory holds those files. A document named like the index would be
      overwritten by it. */
  predicate Holds(d: Directory, runId: string, document: string, index: string) {
    "index.json" in d && d["index.json"] == index &&
    (runId != "index" ==> runId + ".json" in d && d[runId + ".json"] == document)
  }

  /** What publishing everything means for one family: the repository holds the
      index and, unless its name would be the index's or no name at all, the
      document that came back through the gates. */
  lemma PublishedHolds(after: Repo, before: Repo, staged: map<string, Directory>, history: string, families: seq<string>,
                       f: string, runId: string, document: string, index: string)
    requires IsPublished(after, before, staged, history, families)
    requires f in families && f in staged && Holds(staged[f], runId, document, index)
    ensures Look(after, History) == Some(history) && Look(after, Item(f, "index.json")) == Some(index)
    ensures runId != "index" && runId != "" ==> Look(after, Item(f, runId + ".json")) == Some(document)
  {
    JsonNames(runId);
  }

  lemma JsonNames(runId: string)
    ensures IsJson("index.json") && (runId != "" ==> IsJson(runId + ".json"))
  {
    assert (runId + ".json")[|runId|..] == ".json";
    assert "index.json"[5..] == ".json";
  }

  /** A family nobody asked for, and any file that is not JSON, is left as it
      was, however far the copies got. */
  lemma OthersAreUntouched(repo: Repo, cs: seq<Copy>, fates: nat -> Fate, from: nat, k: nat, staged: map<string, Directory>, history: string,
                           families: seq<string>, p: Path)
    requires IsPlan(cs, staged, history, families) && k <= |cs|
    requires !p.History? && (p.family !in families || (p.Item? && !IsJson(p.name)))
    ensures Look(Stopped(repo, cs, fates, from, k), p) == Look(repo, p)
  {
    PlanIsWhatIsWanted(cs, staged, history, families);
    CopiedLooks(repo, cs[..k], staged, history, families, p);
    assert Reaches(cs[..k], p) ==> Reaches(cs, p);
    if k < |cs| { assert Reaches(cs, cs[k].path); } else { assert cs[..k] == cs; }
  }

  /** Whether publishing was begun, with what plan, and how many of its copies
      went through. */
  datatype Publication = NotBegun | Begun(cs: seq<Copy>, k: nat)

  /** The repository is as publishing left it, if it was begun: unchanged or
      complete exactly when the copies stopped cleanly. */
  ghost predicate IsOutcome(p: Publication, after: Repo, before: Repo, fates: nat -> Fate, from: nat, staged: map<string, Directory>,
                            history: string, families: seq<string>) {
    match p
    case NotBegun => after == before
    case Begun(cs, k) =>
      IsPlan(cs, staged, history, families) && StopsAt(fates, from, |cs|, k) && after == Stopped(before, cs, fates, from, k) &&
      (k == |cs| ==> IsPublished(after, before, staged, history, families)) &&
      (IsWhole(after, before, staged, history, families) <==> StopsCleanly(before, cs, fates, from, k))
  }

  // ---- a family's copies --------------------------------------------------

  /** The folder, then the JSON files in the order of their names. */
  method FamilyCopies(staged: map<string, Directory>, f: string) returns (cs: seq<Copy>)
    ensures ListsFamily(cs, staged, f)
  {
    if f !in staged { return []; }
    var files := FileCopies(staged[f], f);
    cs := [Copy(Folder(f), "")] + files;
    assert cs[1..] == files;
  }

  function CopiesOf(es: seq<Entry<Copy>>): (cs: seq<Copy>)
    ensures |cs| == |es| && forall i :: 0 <= i < |es| ==> cs[i] == es[i].value
  {
    seq(|es|, i requires 0 <= i < |es| => es[i].value)
  }

  method FileCopies(d: Directory, f: string) returns (cs: seq<Copy>)
    ensures ListsFiles(cs, d, f)
  {
    var es := NamedCopies(d, f);
    var sorted := SortByKey(es);
    cs := CopiesOf(sorted);
    SortSorts(es);
    SortKeepsElements(es);
    SortedListsFiles(cs, sorted, d, f);
  }

  ghost predicate NamesAll(es: seq<Entry<Copy>>, d: Directory, f: string) {
    forall name :: name in d && IsJson(name) ==> Entry(name, Copy(Item(f, name), d[name])) in es
  }

  lemma SortedListsFiles(cs: seq<Copy>, sorted: seq<Entry<Copy>>, d: Directory, f: string)
    requires |cs| == |sorted| && forall i :: 0 <= i < |cs| ==> cs[i] == sorted[i].value
    requires StrictlySorted(sorted) && NamesAll(sorted, d, f)
    requires forall e :: e in sorted ==> NamesItsCopy(e, d, f)
    ensures ListsFiles(cs, d, f)
  {
    forall i | 0 <= i < |cs| ensures IsFileCopy(cs[i], d, f) && cs[i].path.name == sorted[i].key {
      assert sorted[i] in sorted;
    }
    forall name | name in d && IsJson(name) ensures exists i :: 0 <= i < |cs| && cs[i].path == Item(f, name) {
      var e := Entry(name, Copy(Item(f, name), d[name]));
      assert e in sorted;
      var i :| 0 <= i < |sorted| && sorted[i] == e;
      assert cs[i].path == Item(f, name);
    }
  }

  predicate NamesItsCopy(e: Entry<Copy>, d: Directory, f: string) {
    IsFileCopy(e.value, d, f) && e.value.path.name == e.key
  }

  method NamedCopies(d: Directory, f: string) returns (es: seq<Entry<Copy>>)
    ensures DistinctKeys(es) && (forall e :: e in es ==> NamesItsCopy(e, d, f)) && NamesAll(es, d, f)
  {
    es := [];
    var left := d.Keys;
    while left != {}
      invariant left <= d.Keys && DistinctKeys(es)
      invariant forall i :: 0 <= i < |es| ==> NamesItsCopy(es[i], d, f) && es[i].key !in left
      invariant forall name :: name in d && IsJson(name) && name !in left ==> Entry(name, Copy(Item(f, name), d[name])) in es
      decreases left
    {
      var name :| name in left;
      if IsJson(name) { es := es + [Entry(name, Copy(Item(f, name), d[name]))]; }
      left := left - {name};
    }
  }

  /** The copies that put what was staged into the repository: one family after
      another, its folder, its JSON files by name, and the history last. */
  method PlanOf(staged: map<string, Directory>, history: string, families: seq<string>) returns (cs: seq<Copy>)
    ensures IsPlan(cs, staged, history, families)
  {
    cs := [];
    var i := 0;
    while i < |families|
      invariant i <= |families| && ListsFamilies(cs, staged, families[..i])
    {
      var more := FamilyCopies(staged, families[i]);
      assert families[..i + 1][..i] == families[..i];
      assert (cs + more)[..|cs|] == cs && (cs + more)[|cs|..] == more;
      cs := cs + more;
      i := i + 1;
    }
    assert families[..i] == families;
    assert (cs + [Copy(History, history)])[..|cs|] == cs;
    cs := cs + [Copy(History, history)];
  }
}
