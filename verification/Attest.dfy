/** Whether the result under an engine's name is that engine's: each is held
    against the pyramids its siblings wrote. */
module Attest {
  import opened Words

  datatype Engine = Monolithic | Streaming | MapReduce | Libvips

  datatype Artefact = Artefact(entries: nat, bytes: nat)

  /** One repetition: the tiles in each level directory, the tiles the engine
      said it produced, and the walk of what it left. */
  datatype Run = Run(levels: seq<nat>, tiles: nat, artefact: Option<Artefact>)

  datatype Member = Member(engine: Engine, runs: seq<Run>)

  datatype Reason = NoPyramid(walkedNothing: nat, of: nat) | NotReproduced | OnlyEngine | NoneAgrees

  datatype Attestation = Attestation(observed: bool, reproduced: bool, agreed: bool, reasons: seq<Reason>)
  {
    predicate IsAttested() { observed && reproduced && agreed }
  }

  /** What the repetitions have in common, none when there is none or two differ. */
  function Grid(runs: seq<Run>): Option<seq<nat>> {
    if runs == [] || runs[0].levels == [] then None
    else if forall i :: 0 <= i < |runs| ==> runs[i].levels == runs[0].levels then Some(runs[0].levels)
    else None
  }

  function Tiles(runs: seq<Run>): Option<nat> {
    if runs == [] then None
    else if forall i :: 0 <= i < |runs| ==> runs[i].tiles == runs[0].tiles then Some(runs[0].tiles)
    else None
  }

  predicate Walked(runs: seq<Run>) {
    runs != [] && forall i :: 0 <= i < |runs| ==>
      runs[i].artefact.Some? && runs[i].artefact.value.entries > 0 && runs[i].artefact.value.bytes > 0 && runs[i].levels != []
  }

  /** The other engine's pyramids can be walked and are these. */
  predicate Agrees(own: seq<Run>, sibling: seq<Run>) {
    Walked(sibling) && Grid(sibling).Some? && Grid(sibling) == Grid(own) && Tiles(sibling) == Tiles(own)
  }

  predicate HasSibling(group: seq<Member>, i: nat)
    requires i < |group|
  {
    exists j :: 0 <= j < |group| && group[j].engine != group[i].engine && Agrees(group[i].runs, group[j].runs)
  }

  function Unwalked(runs: seq<Run>): nat {
    if runs == [] then 0
    else Unwalked(runs[1..]) + (if runs[0].artefact.None? || runs[0].levels == [] then 1 else 0)
  }

  /** Attested: walked, the same pyramid every time, and one other engine that
      wrote it too. Reasons are given exactly when it is not. */
  ghost predicate IsVerdict(group: seq<Member>, i: nat, v: Attestation)
    requires i < |group|
  {
    var runs := group[i].runs;
    v.observed == Walked(runs) &&
    v.reproduced == (Grid(runs).Some? && Tiles(runs).Some?) &&
    v.agreed == (Grid(runs).Some? && HasSibling(group, i)) &&
    (v.reasons == [] <==> v.IsAttested())
  }

  method AttestGroup(group: seq<Member>) returns (out: seq<Attestation>)
    ensures |out| == |group|
    ensures forall i :: 0 <= i < |group| ==> IsVerdict(group, i, out[i])
  {
    out := [];
    while |out| < |group|
      invariant |out| <= |group|
      invariant forall i :: 0 <= i < |out| ==> IsVerdict(group, i, out[i])
      decreases |group| - |out|
    {
      var runs := group[|out|].runs;
      var reasons: seq<Reason> := [];
      var observed := Walked(runs);
      if !observed {
        reasons := reasons + [NoPyramid(Unwalked(runs), if |runs| > 0 then |runs| else 1)];
      }
      var reproduced := Grid(runs).Some? && Tiles(runs).Some?;
      if !reproduced {
        reasons := reasons + [NotReproduced];
      }
      var sibling := FindSibling(group, |out|);
      var agreed := Grid(runs).Some? && sibling;
      if !agreed {
        reasons := reasons + [if |group| < 2 then OnlyEngine else NoneAgrees];
      }
      out := out + [Attestation(observed, reproduced, agreed, if observed && reproduced && agreed then [] else reasons)];
    }
  }

  method FindSibling(group: seq<Member>, i: nat) returns (found: bool)
    requires i < |group|
    ensures found <==> HasSibling(group, i)
  {
    found := false;
    var j := 0;
    while j < |group|
      invariant j <= |group|
      invariant found <==> exists k :: 0 <= k < j && group[k].engine != group[i].engine && Agrees(group[i].runs, group[k].runs)
    {
      if group[j].engine != group[i].engine && Agrees(group[i].runs, group[j].runs) { found := true; }
      j := j + 1;
    }
  }

  ghost predicate AreVerdicts(group: seq<Member>, out: seq<Attestation>) {
    |out| == |group| && forall i :: 0 <= i < |group| ==> IsVerdict(group, i, out[i])
  }

  /** Attestation is never one-sided: an attested engine has another, attested
      too, with its grid and its number of tiles. */
  lemma NeverOneSided(group: seq<Member>, out: seq<Attestation>, i: nat) returns (j: nat)
    requires AreVerdicts(group, out) && i < |group| && out[i].IsAttested()
    ensures j < |group| && group[j].engine != group[i].engine && out[j].IsAttested()
    ensures Grid(group[j].runs) == Grid(group[i].runs) && Tiles(group[j].runs) == Tiles(group[i].runs)
  {
    assert IsVerdict(group, i, out[i]);
    j :| 0 <= j < |group| && group[j].engine != group[i].engine && Agrees(group[i].runs, group[j].runs);
    assert IsVerdict(group, j, out[j]);
    assert Agrees(group[j].runs, group[i].runs);
    assert HasSibling(group, j);
  }

  /** One engine is never attested. */
  lemma AloneIsNotAttested(group: seq<Member>, out: seq<Attestation>)
    requires AreVerdicts(group, out) && |group| == 1
    ensures !out[0].IsAttested()
  {
    assert IsVerdict(group, 0, out[0]);
  }

  /** With three engines, all that are attested agree with one another. */
  lemma ThreeAgree(group: seq<Member>, out: seq<Attestation>, i: nat, j: nat)
    requires AreVerdicts(group, out) && |group| <= 3 && i < |group| && j < |group|
    requires out[i].IsAttested() && out[j].IsAttested()
    ensures Grid(group[i].runs) == Grid(group[j].runs) && Tiles(group[i].runs) == Tiles(group[j].runs)
  {
    var a := NeverOneSided(group, out, i);
    var b := NeverOneSided(group, out, j);
  }

  function Pyramid(tiles: nat): seq<Run> {
    [Run([1, tiles], tiles + 1, Some(Artefact(1, 1)))]
  }

  /** With four they may split into two pairs that do not. */
  lemma FourMaySplit(a: nat, b: nat, out: seq<Attestation>)
    requires a != b
    requires AreVerdicts([Member(Monolithic, Pyramid(a)), Member(Streaming, Pyramid(a)),
                          Member(MapReduce, Pyramid(b)), Member(Libvips, Pyramid(b))], out)
    ensures out[0].IsAttested() && out[2].IsAttested() && Grid(Pyramid(a)) != Grid(Pyramid(b))
  {
    var group := [Member(Monolithic, Pyramid(a)), Member(Streaming, Pyramid(a)),
                  Member(MapReduce, Pyramid(b)), Member(Libvips, Pyramid(b))];
    assert IsVerdict(group, 0, out[0]) && IsVerdict(group, 2, out[2]);
    assert Grid(Pyramid(a)) == Some([1, a]) && Grid(Pyramid(b)) == Some([1, b]);
    assert group[1].engine != group[0].engine && Agrees(group[0].runs, group[1].runs);
    assert group[3].engine != group[2].engine && Agrees(group[2].runs, group[3].runs);
    assert [1, a][1] == a && [1, b][1] == b;
  }
}
