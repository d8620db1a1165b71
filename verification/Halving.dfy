/** Box-filter halving of an interleaved three-channel square, and how far its
    rounding can drift from the exact mean over many levels. */
module Halving {
  import opened Grid

  predicate IsSquare(px: seq<nat>, size: nat) {
    |px| == (3 * size) * size
  }

  /** Channel `c` of the pixel at (x, y). */
  function Pixel(px: seq<nat>, size: nat, c: nat, x: nat, y: nat): nat
    requires IsSquare(px, size) && c < 3 && x < size && y < size
  {
    Sample(px, 3 * size, size, 3 * x + c, y)
  }

  /** The mean of a two by two block, rounded to the nearest level, halves up. */
  function Box(px: seq<nat>, size: nat, c: nat, x: nat, y: nat): nat
    requires IsSquare(px, size) && c < 3 && x < size / 2 && y < size / 2
  {
    (Pixel(px, size, c, 2 * x, 2 * y) + Pixel(px, size, c, 2 * x + 1, 2 * y) +
     Pixel(px, size, c, 2 * x, 2 * y + 1) + Pixel(px, size, c, 2 * x + 1, 2 * y + 1) + 2) / 4
  }

  /** The positions of the half-size buffer before row `rows`, and in that row
      the first `samples`, hold the box means. */
  ghost predicate IsHalfUpTo(out: seq<nat>, px: seq<nat>, size: nat, samples: nat, rows: nat) {
    IsSquare(px, size) && IsSquare(out, size / 2) &&
    forall c: nat, x: nat, y: nat :: c < 3 && x < size / 2 && y < size / 2 && (y < rows || (y == rows && 3 * x + c < samples)) ==>
      Pixel(out, size / 2, c, x, y) == Box(px, size, c, x, y)
  }

  ghost predicate IsHalf(out: seq<nat>, px: seq<nat>, size: nat) {
    IsHalfUpTo(out, px, size, 0, size / 2)
  }

  method Halve(px: seq<nat>, size: nat) returns (half: seq<nat>)
    requires IsSquare(px, size)
    ensures IsHalf(half, px, size)
  {
    var n := size / 2;
    var out := new nat[(3 * n) * n](_ => 0);
    var y := 0;
    while y < n
      invariant y <= n
      invariant IsHalfUpTo(out[..], px, size, 0, y)
    {
      var x := 0;
      while x < n
        invariant x <= n
        invariant IsHalfUpTo(out[..], px, size, 3 * x, y)
      {
        var c := 0;
        while c < 3
          invariant c <= 3
          invariant IsHalfUpTo(out[..], px, size, 3 * x + c, y)
        {
          AtBounded(3 * x + c, y, 3 * n, n);
          ghost var before := out[..];
          out[At(3 * x + c, y, 3 * n)] := Box(px, size, c, x, y);
          OneWrite(before, out[..], 3 * n, n, 3 * x + c, y, Box(px, size, c, x, y));
          c := c + 1;
        }
        x := x + 1;
      }
      y := y + 1;
    }
    half := out[..];
  }

  // ---- many levels --------------------------------------------------------

  function Side(size: nat, k: nat): nat {
    if k == 0 then size else Side(size, k - 1) / 2
  }

  /** Each level is the half of the one before. */
  ghost predicate IsPyramid(levels: seq<seq<nat>>, size: nat) {
    |levels| > 0 && IsSquare(levels[0], size) &&
    forall k :: 0 <= k < |levels| - 1 ==> IsHalf(levels[k + 1], levels[k], Side(size, k))
  }

  method Pyramid(px: seq<nat>, size: nat, count: nat) returns (levels: seq<seq<nat>>)
    requires IsSquare(px, size)
    ensures |levels| == count + 1 && levels[0] == px && IsPyramid(levels, size)
  {
    levels := [px];
    var side := size;
    while |levels| <= count
      invariant 0 < |levels| <= count + 1 && levels[0] == px && IsPyramid(levels, size)
      invariant side == Side(size, |levels| - 1) && IsSquare(levels[|levels| - 1], side)
      decreases count - |levels|
    {
      var half := Halve(levels[|levels| - 1], side);
      levels := levels + [half];
      side := side / 2;
    }
  }

  // ---- exact sums ---------------------------------------------------------

  predicate Inside(px: seq<nat>, size: nat, c: nat, x: nat, y: nat, w: nat, h: nat) {
    IsSquare(px, size) && c < 3 && x + w <= size && y + h <= size
  }

  function RowSum(px: seq<nat>, size: nat, c: nat, x: nat, y: nat, w: nat): nat
    requires Inside(px, size, c, x, y, w, 1)
  {
    if w == 0 then 0 else RowSum(px, size, c, x, y, w - 1) + Pixel(px, size, c, x + w - 1, y)
  }

  /** The sum of a `w` by `h` block whose corner is (x, y). */
  function BlockSum(px: seq<nat>, size: nat, c: nat, x: nat, y: nat, w: nat, h: nat): nat
    requires Inside(px, size, c, x, y, w, h)
  {
    if h == 0 then 0 else BlockSum(px, size, c, x, y, w, h - 1) + RowSum(px, size, c, x, y + h - 1, w)
  }

  lemma {:induction false} RowSplits(px: seq<nat>, size: nat, c: nat, x: nat, y: nat, a: nat, b: nat)
    requires Inside(px, size, c, x, y, a + b, 1)
    ensures RowSum(px, size, c, x, y, a + b) == RowSum(px, size, c, x, y, a) + RowSum(px, size, c, x + a, y, b)
  {
    if b > 0 { RowSplits(px, size, c, x, y, a, b - 1); }
  }

  lemma {:induction false} BlockSplitsAcross(px: seq<nat>, size: nat, c: nat, x: nat, y: nat, a: nat, b: nat, h: nat)
    requires Inside(px, size, c, x, y, a + b, h)
    ensures BlockSum(px, size, c, x, y, a + b, h) == BlockSum(px, size, c, x, y, a, h) + BlockSum(px, size, c, x + a, y, b, h)
  {
    if h > 0 {
      BlockSplitsAcross(px, size, c, x, y, a, b, h - 1);
      RowSplits(px, size, c, x, y + h - 1, a, b);
    }
  }

  lemma {:induction false} BlockSplitsDown(px: seq<nat>, size: nat, c: nat, x: nat, y: nat, w: nat, a: nat, b: nat)
    requires Inside(px, size, c, x, y, w, a + b)
    ensures BlockSum(px, size, c, x, y, w, a + b) == BlockSum(px, size, c, x, y, w, a) + BlockSum(px, size, c, x, y + a, w, b)
  {
    if b > 0 { BlockSplitsDown(px, size, c, x, y, w, a, b - 1); }
  }

  lemma BlockIsFourQuarters(px: seq<nat>, size: nat, c: nat, x: nat, y: nat, m: nat)
    requires Inside(px, size, c, x, y, 2 * m, 2 * m)
    ensures BlockSum(px, size, c, x, y, 2 * m, 2 * m) ==
      BlockSum(px, size, c, x, y, m, m) + BlockSum(px, size, c, x + m, y, m, m) +
      BlockSum(px, size, c, x, y + m, m, m) + BlockSum(px, size, c, x + m, y + m, m, m)
  {
    BlockSplitsDown(px, size, c, x, y, 2 * m, m, m);
    BlockSplitsAcross(px, size, c, x, y, m, m, m);
    BlockSplitsAcross(px, size, c, x, y + m, m, m, m);
  }

  // ---- the drift ----------------------------------------------------------

  function Span(k: nat): nat {
    if k == 0 then 1 else 2 * Span(k - 1)
  }

  function Area(k: nat): (a: nat)
    ensures a > 0
  {
    if k == 0 then 1 else 4 * Area(k - 1)
  }

  /** `v` times the area of a level-`k` block. */
  function Lift(v: int, k: nat): int {
    if k == 0 then v else 4 * Lift(v, k - 1)
  }

  /** `k` times the area of a level-`k` block. */
  function Slack(k: nat): nat {
    if k == 0 then 0 else 4 * Slack(k - 1) + Area(k)
  }

  lemma {:induction false} LiftAdds(a: int, b: int, k: nat)
    ensures Lift(a + b, k) == Lift(a, k) + Lift(b, k)
  {
    if k > 0 { LiftAdds(a, b, k - 1); }
  }

  lemma {:induction false} LiftOfError(e: int, k: nat)
    requires -1 <= e <= 2
    ensures 0 - Area(k) <= Lift(e, k) <= 2 * Area(k)
  {
    if k > 0 { LiftOfError(e, k - 1); }
  }

  lemma {:induction false} LiftIsProduct(v: int, k: nat)
    ensures Lift(v, k) == Area(k) * v
  {
    if k > 0 { LiftIsProduct(v, k - 1); }
  }

  lemma {:induction false} SlackIsProduct(k: nat)
    ensures Slack(k) == k * Area(k)
  {
    if k > 0 {
      SlackIsProduct(k - 1);
      assert 4 * ((k - 1) * Area(k - 1)) == (k - 1) * Area(k);
    }
  }

  ghost predicate Drifts(v: nat, sum: nat, k: nat) {
    0 - Slack(k) <= 4 * (Lift(v, k) - sum) <= 2 * Slack(k)
  }

  /** Rounding a mean of four that have each drifted over `k` levels. */
  lemma DriftOfMean(v0: nat, v1: nat, v2: nat, v3: nat, s0: nat, s1: nat, s2: nat, s3: nat, k: nat)
    requires Drifts(v0, s0, k) && Drifts(v1, s1, k) && Drifts(v2, s2, k) && Drifts(v3, s3, k)
    ensures Drifts((v0 + v1 + v2 + v3 + 2) / 4, s0 + s1 + s2 + s3, k + 1)
  {
    var v := (v0 + v1 + v2 + v3 + 2) / 4;
    var e := 4 * v - (v0 + v1 + v2 + v3);
    LiftAdds(v, v, k);
    LiftAdds(2 * v, 2 * v, k);
    assert Lift(v, k + 1) == Lift(4 * v, k);
    LiftAdds(v0, v1, k);
    LiftAdds(v0 + v1, v2, k);
    LiftAdds(v0 + v1 + v2, v3, k);
    LiftAdds(v0 + v1 + v2 + v3, e, k);
    LiftOfError(e, k);
  }

  /** The sum of the full-resolution samples under a level's pixel, quarter by
      quarter. */
  function Exact(px: seq<nat>, size: nat, k: nat, c: nat, x: nat, y: nat): nat
    requires IsSquare(px, size) && c < 3 && x < Side(size, k) && y < Side(size, k)
  {
    if k == 0 then Pixel(px, size, c, x, y)
    else Exact(px, size, k - 1, c, 2 * x, 2 * y) + Exact(px, size, k - 1, c, 2 * x + 1, 2 * y) +
         Exact(px, size, k - 1, c, 2 * x, 2 * y + 1) + Exact(px, size, k - 1, c, 2 * x + 1, 2 * y + 1)
  }

  lemma {:induction false} SpanFits(size: nat, k: nat, x: nat)
    requires x < Side(size, k)
    ensures x * Span(k) + Span(k) <= size
  {
    if k > 0 {
      SpanFits(size, k - 1, 2 * x + 1);
      Doubling(x, Span(k - 1));
    }
  }

  lemma Doubling(x: nat, m: nat)
    ensures x * (2 * m) == (2 * x) * m && (2 * x + 1) * m == (2 * x) * m + m
  {
  }

  /** It is the sum over the square block of that pixel, whose corner is (u, t). */
  lemma {:induction false} ExactIsTheBlock(px: seq<nat>, size: nat, k: nat, c: nat, x: nat, y: nat, u: nat, t: nat)
    requires IsSquare(px, size) && c < 3 && x < Side(size, k) && y < Side(size, k)
    requires u == x * Span(k) && t == y * Span(k)
    ensures Inside(px, size, c, u, t, Span(k), Span(k))
    ensures Exact(px, size, k, c, x, y) == BlockSum(px, size, c, u, t, Span(k), Span(k))
    decreases k, 1
  {
    SpanFits(size, k, x);
    SpanFits(size, k, y);
    if k == 0 {
      assert RowSum(px, size, c, x, y, 1) == Pixel(px, size, c, x, y);
    } else {
      var m := Span(k - 1);
      Doubling(x, m);
      Doubling(y, m);
      QuartersAreBlocks(px, size, k, c, x, y, u, t, m);
      BlockIsFourQuarters(px, size, c, u, t, m);
    }
  }

  lemma {:induction false} QuartersAreBlocks(px: seq<nat>, size: nat, k: nat, c: nat, x: nat, y: nat, u: nat, t: nat, m: nat)
    requires IsSquare(px, size) && c < 3 && k > 0 && x < Side(size, k) && y < Side(size, k)
    requires m == Span(k - 1) && u == (2 * x) * m && u + m == (2 * x + 1) * m && t == (2 * y) * m && t + m == (2 * y + 1) * m
    ensures Inside(px, size, c, u, t, 2 * m, 2 * m)
    ensures Exact(px, size, k, c, x, y) ==
      BlockSum(px, size, c, u, t, m, m) + BlockSum(px, size, c, u + m, t, m, m) +
      BlockSum(px, size, c, u, t + m, m, m) + BlockSum(px, size, c, u + m, t + m, m, m)
    decreases k, 0
  {
    ExactIsTheBlock(px, size, k - 1, c, 2 * x, 2 * y, u, t);
    ExactIsTheBlock(px, size, k - 1, c, 2 * x + 1, 2 * y, u + m, t);
    ExactIsTheBlock(px, size, k - 1, c, 2 * x, 2 * y + 1, u, t + m);
    ExactIsTheBlock(px, size, k - 1, c, 2 * x + 1, 2 * y + 1, u + m, t + m);
  }

  lemma LevelIsSquare(levels: seq<seq<nat>>, size: nat, k: nat)
    requires IsPyramid(levels, size) && k < |levels|
    ensures IsSquare(levels[k], Side(size, k))
  {
    if k > 0 { assert IsHalf(levels[k - 1 + 1], levels[k - 1], Side(size, k - 1)); }
  }

  lemma LevelIsBox(levels: seq<seq<nat>>, size: nat, k: nat, c: nat, x: nat, y: nat)
    requires IsPyramid(levels, size) && 0 < k < |levels| && c < 3 && x < Side(size, k) && y < Side(size, k)
    ensures IsSquare(levels[k], Side(size, k)) && IsSquare(levels[k - 1], Side(size, k - 1))
    ensures Pixel(levels[k], Side(size, k), c, x, y) == Box(levels[k - 1], Side(size, k - 1), c, x, y)
  {
    assert IsHalf(levels[k - 1 + 1], levels[k - 1], Side(size, k - 1));
  }

  ghost predicate LevelDrifts(base: seq<nat>, size: nat, k: nat, px: seq<nat>) {
    IsSquare(base, size) && IsSquare(px, Side(size, k)) &&
    forall c: nat, x: nat, y: nat :: c < 3 && x < Side(size, k) && y < Side(size, k) ==>
      Drifts(Pixel(px, Side(size, k), c, x, y), Exact(base, size, k, c, x, y), k)
  }

  lemma {:induction false} LevelsDrift(levels: seq<seq<nat>>, size: nat, k: nat)
    requires IsPyramid(levels, size) && k < |levels|
    ensures LevelDrifts(levels[0], size, k, levels[k])
  {
    LevelIsSquare(levels, size, k);
    if k > 0 {
      LevelsDrift(levels, size, k - 1);
      var side := Side(size, k - 1);
      forall c: nat, x: nat, y: nat | c < 3 && x < Side(size, k) && y < Side(size, k)
        ensures Drifts(Pixel(levels[k], Side(size, k), c, x, y), Exact(levels[0], size, k, c, x, y), k)
      {
        LevelIsBox(levels, size, k, c, x, y);
        BoxDrifts(levels[0], size, k, levels[k - 1], side, c, x, y);
      }
    }
  }

  lemma PixelDrifts(levels: seq<seq<nat>>, size: nat, k: nat, c: nat, x: nat, y: nat)
    requires IsPyramid(levels, size) && k < |levels| && c < 3 && x < Side(size, k) && y < Side(size, k)
    ensures IsSquare(levels[k], Side(size, k))
    ensures Drifts(Pixel(levels[k], Side(size, k), c, x, y), Exact(levels[0], size, k, c, x, y), k)
  {
    LevelsDrift(levels, size, k);
  }

  lemma BoxDrifts(base: seq<nat>, size: nat, k: nat, px: seq<nat>, side: nat, c: nat, x: nat, y: nat)
    requires IsSquare(base, size) && IsSquare(px, side) && k > 0 && side == Side(size, k - 1)
    requires c < 3 && x < side / 2 && y < side / 2
    requires Drifts(Pixel(px, side, c, 2 * x, 2 * y), Exact(base, size, k - 1, c, 2 * x, 2 * y), k - 1)
    requires Drifts(Pixel(px, side, c, 2 * x + 1, 2 * y), Exact(base, size, k - 1, c, 2 * x + 1, 2 * y), k - 1)
    requires Drifts(Pixel(px, side, c, 2 * x, 2 * y + 1), Exact(base, size, k - 1, c, 2 * x, 2 * y + 1), k - 1)
    requires Drifts(Pixel(px, side, c, 2 * x + 1, 2 * y + 1), Exact(base, size, k - 1, c, 2 * x + 1, 2 * y + 1), k - 1)
    ensures Drifts(Box(px, side, c, x, y), Exact(base, size, k, c, x, y), k)
  {
    DriftOfMean(Pixel(px, side, c, 2 * x, 2 * y), Pixel(px, side, c, 2 * x + 1, 2 * y),
                Pixel(px, side, c, 2 * x, 2 * y + 1), Pixel(px, side, c, 2 * x + 1, 2 * y + 1),
                Exact(base, size, k - 1, c, 2 * x, 2 * y), Exact(base, size, k - 1, c, 2 * x + 1, 2 * y),
                Exact(base, size, k - 1, c, 2 * x, 2 * y + 1), Exact(base, size, k - 1, c, 2 * x + 1, 2 * y + 1),
                k - 1);
  }

  /** Within a quarter of a level a halving below and half a level a halving
      above. */
  predicate StaysNear(v: nat, mean: real, k: nat) {
    mean - k as real / 4.0 <= v as real <= mean + k as real / 2.0
  }

  /** After `k` halvings, of a square of any size, every sample stays near the
      exact mean of the block of the original it stands for, whose corner is
      (u, t). */
  lemma HalvingsStayNearTheMean(levels: seq<seq<nat>>, size: nat, k: nat, c: nat, x: nat, y: nat, u: nat, t: nat)
    requires IsPyramid(levels, size) && k < |levels| && c < 3 && x < Side(size, k) && y < Side(size, k)
    requires u == x * Span(k) && t == y * Span(k)
    ensures IsSquare(levels[k], Side(size, k)) && Inside(levels[0], size, c, u, t, Span(k), Span(k)) && Span(k) * Span(k) == Area(k)
    ensures StaysNear(Pixel(levels[k], Side(size, k), c, x, y), BlockSum(levels[0], size, c, u, t, Span(k), Span(k)) as real / Area(k) as real, k)
  {
    PixelDrifts(levels, size, k, c, x, y);
    ExactIsTheBlock(levels[0], size, k, c, x, y, u, t);
    SpanSquared(k);
    DriftIsNear(Pixel(levels[k], Side(size, k), c, x, y), Exact(levels[0], size, k, c, x, y), k);
  }

  lemma DriftIsNear(v: nat, sum: nat, k: nat)
    requires Drifts(v, sum, k)
    ensures StaysNear(v, sum as real / Area(k) as real, k)
  {
    LiftIsProduct(v, k);
    SlackIsProduct(k);
    DriftAsRatio(v, sum, k, Area(k));
  }

  lemma {:induction false} SpanSquared(k: nat)
    ensures Span(k) * Span(k) == Area(k)
  {
    if k > 0 {
      SpanSquared(k - 1);
      var m := Span(k - 1);
      assert (2 * m) * (2 * m) == 4 * (m * m);
    }
  }

  lemma DriftAsRatio(v: nat, sum: nat, k: nat, a: nat)
    requires a > 0 && -(k * a) <= 4 * (a * v - sum) <= 2 * (k * a)
    ensures StaysNear(v, sum as real / a as real, k)
  {
    var r, q, n, m := a as real, v as real, k as real, sum as real / a as real;
    Products(v, k, a);
    assert m * r == sum as real;
    PositiveFactor(r, q - m + n / 4.0);
    PositiveFactor(r, m + n / 2.0 - q);
  }

  lemma Products(v: nat, k: nat, a: nat)
    ensures (a * v) as real == a as real * v as real && (k * a) as real == a as real * k as real
  {
  }

  lemma PositiveFactor(r: real, x: real)
    requires r > 0.0
    ensures r * x >= 0.0 ==> x >= 0.0
  {
    assert x < 0.0 ==> r * x < 0.0;
  }

  /** Every full-resolution sample under a level's pixel lies in a range. */
  predicate IsBounded(px: seq<nat>, size: nat, k: nat, c: nat, x: nat, y: nat, lo: nat, hi: nat)
    requires IsSquare(px, size) && c < 3 && x < Side(size, k) && y < Side(size, k)
  {
    if k == 0 then lo <= Pixel(px, size, c, x, y) <= hi
    else IsBounded(px, size, k - 1, c, 2 * x, 2 * y, lo, hi) && IsBounded(px, size, k - 1, c, 2 * x + 1, 2 * y, lo, hi) &&
         IsBounded(px, size, k - 1, c, 2 * x, 2 * y + 1, lo, hi) && IsBounded(px, size, k - 1, c, 2 * x + 1, 2 * y + 1, lo, hi)
  }

  lemma {:induction false} BlockIsBounded(px: seq<nat>, size: nat, k: nat, c: nat, x: nat, y: nat, lo: nat, hi: nat)
    requires IsSquare(px, size) && c < 3 && x < Side(size, k) && y < Side(size, k)
    requires Inside(px, size, c, x * Span(k), y * Span(k), Span(k), Span(k))
    requires forall u: nat, t: nat :: x * Span(k) <= u < x * Span(k) + Span(k) && y * Span(k) <= t < y * Span(k) + Span(k) ==>
      lo <= Pixel(px, size, c, u, t) <= hi
    ensures IsBounded(px, size, k, c, x, y, lo, hi)
  {
    if k > 0 {
      Doubling(x, Span(k - 1));
      Doubling(y, Span(k - 1));
      BlockIsBounded(px, size, k - 1, c, 2 * x, 2 * y, lo, hi);
      BlockIsBounded(px, size, k - 1, c, 2 * x + 1, 2 * y, lo, hi);
      BlockIsBounded(px, size, k - 1, c, 2 * x, 2 * y + 1, lo, hi);
      BlockIsBounded(px, size, k - 1, c, 2 * x + 1, 2 * y + 1, lo, hi);
    }
  }

  ghost predicate LevelIsBounded(base: seq<nat>, size: nat, k: nat, px: seq<nat>, lo: nat, hi: nat) {
    IsSquare(base, size) && IsSquare(px, Side(size, k)) &&
    forall c: nat, x: nat, y: nat :: c < 3 && x < Side(size, k) && y < Side(size, k) && IsBounded(base, size, k, c, x, y, lo, hi) ==>
      lo <= Pixel(px, Side(size, k), c, x, y) <= hi
  }

  lemma {:induction false} BoundedLevelsStay(levels: seq<seq<nat>>, size: nat, k: nat, lo: nat, hi: nat)
    requires IsPyramid(levels, size) && k < |levels|
    ensures LevelIsBounded(levels[0], size, k, levels[k], lo, hi)
  {
    LevelIsSquare(levels, size, k);
    if k > 0 {
      BoundedLevelsStay(levels, size, k - 1, lo, hi);
      forall c: nat, x: nat, y: nat | c < 3 && x < Side(size, k) && y < Side(size, k) && IsBounded(levels[0], size, k, c, x, y, lo, hi)
        ensures lo <= Pixel(levels[k], Side(size, k), c, x, y) <= hi
      {
        LevelIsBox(levels, size, k, c, x, y);
        BoxIsBounded(levels[0], size, k, levels[k - 1], c, x, y, lo, hi);
      }
    }
  }

  lemma BoxIsBounded(base: seq<nat>, size: nat, k: nat, px: seq<nat>, c: nat, x: nat, y: nat, lo: nat, hi: nat)
    requires k > 0 && LevelIsBounded(base, size, k - 1, px, lo, hi)
    requires c < 3 && x < Side(size, k) && y < Side(size, k) && IsBounded(base, size, k, c, x, y, lo, hi)
    ensures lo <= Box(px, Side(size, k - 1), c, x, y) <= hi
  {
    var side := Side(size, k - 1);
    assert lo <= Pixel(px, side, c, 2 * x, 2 * y) <= hi && lo <= Pixel(px, side, c, 2 * x + 1, 2 * y) <= hi;
    assert lo <= Pixel(px, side, c, 2 * x, 2 * y + 1) <= hi && lo <= Pixel(px, side, c, 2 * x + 1, 2 * y + 1) <= hi;
  }

  /** Nor does a sample leave the range of its block. */
  lemma HalvingsStayInRange(levels: seq<seq<nat>>, size: nat, k: nat, c: nat, x: nat, y: nat, lo: nat, hi: nat)
    requires IsPyramid(levels, size) && k < |levels| && c < 3 && x < Side(size, k) && y < Side(size, k)
    requires Inside(levels[0], size, c, x * Span(k), y * Span(k), Span(k), Span(k))
    requires forall u: nat, t: nat :: x * Span(k) <= u < x * Span(k) + Span(k) && y * Span(k) <= t < y * Span(k) + Span(k) ==>
      lo <= Pixel(levels[0], size, c, u, t) <= hi
    ensures IsSquare(levels[k], Side(size, k))
    ensures lo <= Pixel(levels[k], Side(size, k), c, x, y) <= hi
  {
    BlockIsBounded(levels[0], size, k, c, x, y, lo, hi);
    BoundedLevelsStay(levels, size, k, lo, hi);
  }
}
