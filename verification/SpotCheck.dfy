/** The pixel spot-check: which level of two pyramids is compared, which tiles
    are sampled, and what passing means. */
module SpotCheck {
  import opened Words

  datatype Grid = Grid(index: nat, cols: nat, rows: nat)

  predicate SameShape(a: Grid, b: Grid) {
    a.cols == b.cols && a.rows == b.rows
  }

  predicate IsMultiTile(g: Grid) {
    g.cols * g.rows > 1
  }

  // ---- alignment ----------------------------------------------------------

  function Shared(refs: seq<Grid>, cands: seq<Grid>): nat {
    if |refs| < |cands| then |refs| else |cands|
  }

  /** Level `k` counted down from full resolution, on both sides. */
  predicate IsPaired(refs: seq<Grid>, cands: seq<Grid>, k: nat) {
    0 < k < Shared(refs, cands) && SameShape(refs[|refs| - 1 - k], cands[|cands| - 1 - k])
  }

  predicate IsMid(refs: seq<Grid>, cands: seq<Grid>, k: nat) {
    IsPaired(refs, cands, k) && IsMultiTile(cands[|cands| - 1 - k])
  }

  /** `extended` is `reference` behind one extra level of a single tile. */
  predicate IsApexExtended(reference: seq<nat>, extended: seq<nat>) {
    |extended| == |reference| + 1 && extended[0] == 1 && extended[1..] == reference
  }

  function TileCounts(levels: seq<Grid>): (r: seq<nat>)
    ensures |r| == |levels| && forall i :: 0 <= i < |levels| ==> r[i] == levels[i].cols * levels[i].rows
  {
    seq(|levels|, i requires 0 <= i < |levels| => levels[i].cols * levels[i].rows)
  }

  /** The reference has the candidate's grids, with or without a leading apex. */
  predicate IsAligned(refs: seq<Grid>, cands: seq<Grid>) {
    (|refs| == |cands| || |refs| == |cands| + 1) &&
    forall i :: 0 <= i < |cands| ==> SameShape(refs[|refs| - |cands| + i], cands[i])
  }

  /** Counting down from full resolution absorbs the apex: every level the two
      pyramids share is compared with one of the same shape. */
  lemma EveryPairMatches(refs: seq<Grid>, cands: seq<Grid>, k: nat)
    requires IsAligned(refs, cands) && 0 < k < Shared(refs, cands)
    ensures IsPaired(refs, cands, k)
  {
    var i := |cands| - 1 - k;
    assert SameShape(refs[|refs| - |cands| + i], cands[i]);
  }

  /** The extra apex is just what the geometry gate annotates. */
  lemma ApexIsAnnotated(refs: seq<Grid>, cands: seq<Grid>)
    requires IsAligned(refs, cands) && |refs| == |cands| + 1 && refs[0].cols == 1 && refs[0].rows == 1
    ensures IsApexExtended(TileCounts(cands), TileCounts(refs))
  {
    var r, c := TileCounts(refs), TileCounts(cands);
    forall i | 0 <= i < |c| ensures r[1..][i] == c[i] {
      assert SameShape(refs[|refs| - |cands| + i], cands[i]);
    }
  }

  // ---- the level that is compared -----------------------------------------

  function Mids(refs: seq<Grid>, cands: seq<Grid>, k: nat): (mids: seq<nat>)
    ensures forall m :: m in mids <==> 0 < m < k && IsMid(refs, cands, m)
  {
    if k <= 1 then [] else Mids(refs, cands, k - 1) + (if IsMid(refs, cands, k - 1) then [k - 1] else [])
  }

  predicate Ascends(ks: seq<nat>) {
    forall i, j :: 0 <= i < j < |ks| ==> ks[i] < ks[j]
  }

  /** The multi-tile levels are listed finest first, each once, so the one in the
      middle of the list is their median. */
  lemma {:induction false} MidsAscend(refs: seq<Grid>, cands: seq<Grid>, k: nat)
    ensures Ascends(Mids(refs, cands, k))
  {
    if k > 1 {
      MidsAscend(refs, cands, k - 1);
      var init := Mids(refs, cands, k - 1);
      forall i | 0 <= i < |init| ensures init[i] < k - 1 {
        assert init[i] in init;
      }
    }
  }

  /** The median multi-tile level below full resolution; when there is none, the
      first level below full resolution that matches. */
  ghost predicate IsChosen(refs: seq<Grid>, cands: seq<Grid>, k: nat) {
    var mids := Mids(refs, cands, Shared(refs, cands));
    IsPaired(refs, cands, k) &&
    if mids != [] then k == mids[|mids| / 2] else forall j :: 0 < j < k ==> !IsPaired(refs, cands, j)
  }

  method ChooseLevel(refs: seq<Grid>, cands: seq<Grid>) returns (level: Option<nat>)
    ensures level.Some? ==> IsChosen(refs, cands, level.value)
    ensures level.None? <==> forall k: nat :: !IsPaired(refs, cands, k)
  {
    var mids := CollectMids(refs, cands);
    if mids != [] {
      assert mids[|mids| / 2] in mids;
      level := Some(mids[|mids| / 2]);
    } else {
      level := FirstPaired(refs, cands);
    }
  }

  method CollectMids(refs: seq<Grid>, cands: seq<Grid>) returns (mids: seq<nat>)
    ensures mids == Mids(refs, cands, Shared(refs, cands))
  {
    var shared := Shared(refs, cands);
    mids := [];
    var k := 1;
    while k < shared
      invariant 1 <= k && (k == 1 || k <= shared) && mids == Mids(refs, cands, k)
    {
      if IsMid(refs, cands, k) { mids := mids + [k]; }
      k := k + 1;
    }
    if shared <= 1 { NoMids(refs, cands, shared); }
  }

  lemma NoMids(refs: seq<Grid>, cands: seq<Grid>, k: nat)
    requires k <= 1
    ensures Mids(refs, cands, k) == Mids(refs, cands, 1) == []
  {
  }

  method FirstPaired(refs: seq<Grid>, cands: seq<Grid>) returns (level: Option<nat>)
    ensures level.None? <==> forall k: nat :: !IsPaired(refs, cands, k)
    ensures level.Some? ==> IsPaired(refs, cands, level.value) && forall k :: 0 < k < level.value ==> !IsPaired(refs, cands, k)
  {
    var shared := Shared(refs, cands);
    var k := 1;
    while k < shared
      invariant 1 <= k && forall j: nat :: 0 < j < k ==> !IsPaired(refs, cands, j)
    {
      if IsPaired(refs, cands, k) { return Some(k); }
      k := k + 1;
    }
    level := None;
  }

  // ---- the tiles that are sampled -----------------------------------------

  const MAX_SPOT_TILES: nat := 16

  function Stride(total: nat): (s: nat)
    ensures s > 0
  {
    var s := (total + 15) / 16;
    if s < 1 then 1 else s
  }

  /** How many of the first `n` positions an even stride takes. */
  function Taken(n: nat, stride: nat): nat
    requires stride > 0
  {
    if n == 0 then 0 else Taken(n - 1, stride) + (if (n - 1) % stride == 0 then 1 else 0)
  }

  lemma {:induction false} TakenCount(n: nat, stride: nat)
    requires stride > 0
    ensures Taken(n, stride) == (n + stride - 1) / stride
  {
    if n > 0 {
      TakenCount(n - 1, stride);
      CeilStep(n - 1, stride);
    } else {
      assert (stride - 1) / stride == 0;
    }
  }

  lemma CeilStep(m: nat, stride: nat)
    requires stride > 0
    ensures (m + stride) / stride == (m + stride - 1) / stride + (if m % stride == 0 then 1 else 0)
  {
    var q, r := m / stride, m % stride;
    assert m == q * stride + r;
    assert (m + stride) / stride == q + 1 by { DivIs(m + stride, stride, q + 1, r); }
    if r == 0 {
      assert (m + stride - 1) / stride == q by { DivIs(m + stride - 1, stride, q, stride - 1); }
    } else {
      assert (m + stride - 1) / stride == q + 1 by { DivIs(m + stride - 1, stride, q + 1, r - 1); }
    }
  }

  lemma DivIs(n: nat, d: nat, q: nat, r: nat)
    requires d > 0 && n == q * d + r && r < d
    ensures n / d == q
  {
    var p := n / d;
    assert n == p * d + n % d;
    assert p < q ==> (p + 1) * d <= q * d;
    assert q < p ==> (q + 1) * d <= p * d;
  }

  /** No more than sixteen tiles are sampled, the first always among them, and all
      of them when there are no more than sixteen. */
  lemma SampleIsSmall(total: nat)
    ensures Taken(total, Stride(total)) <= MAX_SPOT_TILES
    ensures total > 0 ==> 0 % Stride(total) == 0
    ensures total <= MAX_SPOT_TILES ==> Taken(total, Stride(total)) == total
  {
    var s := Stride(total);
    TakenCount(total, s);
    if total > 16 {
      SixteenStrides(total, s);
    } else if total > 0 {
      assert s == 1;
    }
  }

  lemma SixteenStrides(total: nat, s: nat)
    requires s == (total + 15) / 16 && s > 0
    ensures (total + s - 1) / s <= 16
  {
    assert total <= 16 * s;
    var q := (total + s - 1) / s;
    assert q * s <= total + s - 1;
    assert q >= 17 ==> q * s >= 17 * s;
  }

  // ---- scoring ------------------------------------------------------------

  function Squared(a: int, b: int): nat {
    (a - b) * (a - b)
  }

  function SquaredError(a: seq<nat>, b: seq<nat>, n: nat): nat
    requires n <= |a| && n <= |b|
  {
    if n == 0 then 0 else SquaredError(a, b, n - 1) + Squared(a[n - 1], b[n - 1])
  }

  /** A peak signal-to-noise ratio of at least 40 decibels, as a threshold on the
      squared error: ten thousand times it is at most 255 squared a sample. */
  predicate Clears(a: seq<nat>, b: seq<nat>) {
    |a| == |b| && |a| > 0 && 10_000 * SquaredError(a, b, |a|) <= 255 * 255 * |a|
  }

  method ClearsThreshold(a: seq<nat>, b: seq<nat>) returns (ok: bool)
    ensures ok <==> Clears(a, b)
  {
    if |a| != |b| || |a| == 0 { return false; }
    var se := 0;
    var i := 0;
    while i < |a|
      invariant i <= |a| && se == SquaredError(a, b, i)
    {
      se := se + Squared(a[i], b[i]);
      i := i + 1;
    }
    ok := 10_000 * se <= 255 * 255 * |a|;
  }

  lemma {:induction false} NoErrorAgainstItself(a: seq<nat>, n: nat)
    requires n <= |a|
    ensures SquaredError(a, a, n) == 0
  {
    if n > 0 { NoErrorAgainstItself(a, n - 1); }
  }

  datatype Tile = Absent | Decoded(samples: seq<nat>) | Corrupt

  /** Both sides hold something at the position. */
  predicate IsCompared(r: Tile, c: Tile) {
    r != Absent && c != Absent
  }

  predicate IsGood(r: Tile, c: Tile) {
    r.Decoded? && c.Decoded? && Clears(r.samples, c.samples)
  }

  predicate IsSampled(i: nat, total: nat) {
    i < total && i % Stride(total) == 0
  }

  /** Of the first `n` positions, those sampled with a tile on both sides. */
  function Compared(refs: seq<Tile>, cands: seq<Tile>, n: nat): (count: nat)
    requires n <= |refs| == |cands|
    ensures count <= Taken(n, Stride(|refs|))
  {
    if n == 0 then 0
    else Compared(refs, cands, n - 1) + (if IsSampled(n - 1, |refs|) && IsCompared(refs[n - 1], cands[n - 1]) then 1 else 0)
  }

  datatype Check = Check(compared: nat, clears: bool)

  /** Compare one level's tiles, in row order: a tile missing on one side is
      skipped, one present on both sides that does not decode fails the check.
      Nothing compared is no check at all. */
  method CompareTiles(refs: seq<Tile>, cands: seq<Tile>) returns (check: Option<Check>)
    requires |refs| == |cands|
    ensures check.None? <==> forall i :: 0 <= i < |refs| && IsSampled(i, |refs|) ==> !IsCompared(refs[i], cands[i])
    ensures check.Some? ==> check.value.compared == Compared(refs, cands, |refs|) && 0 < check.value.compared <= MAX_SPOT_TILES
    ensures check.Some? ==>
      (check.value.clears <==>
        forall i :: 0 <= i < |refs| && IsSampled(i, |refs|) && IsCompared(refs[i], cands[i]) ==> IsGood(refs[i], cands[i]))
  {
    var stride := Stride(|refs|);
    var compared, clears := 0, true;
    var i := 0;
    while i < |refs|
      invariant i <= |refs| && compared == Compared(refs, cands, i)
      invariant compared == 0 <==> forall j :: 0 <= j < i && IsSampled(j, |refs|) ==> !IsCompared(refs[j], cands[j])
      invariant clears <==>
        forall j :: 0 <= j < i && IsSampled(j, |refs|) && IsCompared(refs[j], cands[j]) ==> IsGood(refs[j], cands[j])
    {
      if i % stride == 0 && IsCompared(refs[i], cands[i]) {
        var good := false;
        if refs[i].Decoded? && cands[i].Decoded? {
          good := ClearsThreshold(refs[i].samples, cands[i].samples);
        }
        clears := clears && good;
        compared := compared + 1;
      }
      i := i + 1;
    }
    SampleIsSmall(|refs|);
    check := if compared == 0 then None else Some(Check(compared, clears));
  }

  datatype Skip = NoReferenceLevels | NoCandidateLevels | NoComparableMidLevel | NoCoPresentTiles

  /** The tiles of one level in row order. */
  function TilesOf(tile: (Grid, nat) -> Tile, at: Grid, total: nat): (ts: seq<Tile>)
    ensures |ts| == total && forall i :: 0 <= i < total ==> ts[i] == tile(at, i)
  {
    seq(total, i requires 0 <= i < total => tile(at, i))
  }

  /** Every sampled position with a tile on both sides decodes and clears. */
  ghost predicate LevelClears(ref: Grid, cand: Grid, refTile: (Grid, nat) -> Tile, candTile: (Grid, nat) -> Tile) {
    var total := cand.cols * cand.rows;
    forall i: nat :: i < total && IsSampled(i, total) && IsCompared(refTile(ref, i), candTile(cand, i)) ==>
      IsGood(refTile(ref, i), candTile(cand, i))
  }

  /** Some sampled position has a tile on both sides. */
  ghost predicate LevelMeets(ref: Grid, cand: Grid, refTile: (Grid, nat) -> Tile, candTile: (Grid, nat) -> Tile) {
    var total := cand.cols * cand.rows;
    exists i: nat :: i < total && IsSampled(i, total) && IsCompared(refTile(ref, i), candTile(cand, i))
  }

  /** A level compared with itself clears exactly when each of its sampled tiles
      is absent or decodes to something. */
  lemma ClearsAgainstItselfIff(g: Grid, tile: (Grid, nat) -> Tile)
    ensures LevelClears(g, g, tile, tile) <==>
      forall i: nat :: i < g.cols * g.rows && IsSampled(i, g.cols * g.rows) ==>
        tile(g, i).Absent? || (tile(g, i).Decoded? && |tile(g, i).samples| > 0)
  {
    var total := g.cols * g.rows;
    forall i: nat | i < total && IsSampled(i, total) && tile(g, i) != Absent
      ensures IsGood(tile(g, i), tile(g, i)) <==> tile(g, i).Decoded? && |tile(g, i).samples| > 0
    {
      if tile(g, i).Decoded? { NoErrorAgainstItself(tile(g, i).samples, |tile(g, i).samples|); }
    }
  }

  /** Compare two levels of the same shape. */
  method CompareLevels(ref: Grid, cand: Grid, refTile: (Grid, nat) -> Tile, candTile: (Grid, nat) -> Tile) returns (check: Option<Check>)
    ensures check.Some? <==> LevelMeets(ref, cand, refTile, candTile)
    ensures check.Some? ==> 0 < check.value.compared <= MAX_SPOT_TILES
    ensures check.Some? ==> (check.value.clears <==> LevelClears(ref, cand, refTile, candTile))
  {
    var total := cand.cols * cand.rows;
    var rs, cs := TilesOf(refTile, ref, total), TilesOf(candTile, cand, total);
    check := CompareTiles(rs, cs);
    assert forall i: nat :: i < total ==> rs[i] == refTile(ref, i) && cs[i] == candTile(cand, i);
  }

  /** `spot_check_tile_psnr`: a level below full resolution whose grids match on
      both sides, and of its sampled tiles every one that is there on both sides
      decodes and clears the threshold, or the check does not pass. */
  method SpotCheckTiles(refs: seq<Grid>, cands: seq<Grid>, refTile: (Grid, nat) -> Tile, candTile: (Grid, nat) -> Tile)
    returns (r: Result<Check, Skip>, ghost k: nat)
    ensures r == Failure(NoReferenceLevels) <==> refs == []
    ensures r == Failure(NoCandidateLevels) <==> refs != [] && cands == []
    ensures r == Failure(NoComparableMidLevel) <==> refs != [] && cands != [] && forall j: nat :: !IsPaired(refs, cands, j)
    ensures r.Success? || r == Failure(NoCoPresentTiles) ==> IsChosen(refs, cands, k)
    ensures r.Success? ==>
      LevelMeets(refs[|refs| - 1 - k], cands[|cands| - 1 - k], refTile, candTile) &&
      0 < r.value.compared <= MAX_SPOT_TILES &&
      (r.value.clears <==> LevelClears(refs[|refs| - 1 - k], cands[|cands| - 1 - k], refTile, candTile))
    ensures r == Failure(NoCoPresentTiles) ==> !LevelMeets(refs[|refs| - 1 - k], cands[|cands| - 1 - k], refTile, candTile)
  {
    k := 0;
    if refs == [] { return Failure(NoReferenceLevels), k; }
    if cands == [] { return Failure(NoCandidateLevels), k; }
    var level := ChooseLevel(refs, cands);
    if level.None? { return Failure(NoComparableMidLevel), k; }
    k := level.value;
    var check := CompareLevels(refs[|refs| - 1 - level.value], cands[|cands| - 1 - level.value], refTile, candTile);
    r := if check.None? then Failure(NoCoPresentTiles) else Success(check.value);
  }
}
