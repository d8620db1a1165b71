/** The gradient mask and the ink overlap measured inside it. */
module Mask {
  import opened Words
  import opened Grid

  function Distance(a: int, b: int): nat {
    if a < b then b - a else a - b
  }

  // ---- what the mask means ------------------------------------------------

  predicate Adjacent(x: nat, y: nat, x2: nat, y2: nat) {
    Distance(x, x2) + Distance(y, y2) == 1
  }

  /** The pixel differs from one of its four neighbours by at least `step`. */
  ghost predicate IsEdge(luma: seq<nat>, w: nat, h: nat, step: nat, x: nat, y: nat)
    requires |luma| == w * h && x < w && y < h
  {
    exists x2: nat, y2: nat :: x2 < w && y2 < h && Adjacent(x, y, x2, y2) &&
      Distance(Sample(luma, w, h, x, y), Sample(luma, w, h, x2, y2)) >= step
  }

  predicate Near(x: nat, y: nat, x2: nat, y2: nat, radius: nat) {
    Distance(x, x2) <= radius && Distance(y, y2) <= radius
  }

  /** Some edge lies within `radius` of the pixel in the larger of the two
      coordinate distances. */
  ghost predicate IsMarked(luma: seq<nat>, w: nat, h: nat, step: nat, radius: nat, x: nat, y: nat)
    requires |luma| == w * h
  {
    exists x2: nat, y2: nat :: x2 < w && y2 < h && Near(x, y, x2, y2, radius) && IsEdge(luma, w, h, step, x2, y2)
  }

  // ---- the first pass: edges ----------------------------------------------

  method StepAt(luma: seq<nat>, w: nat, h: nat, step: nat, x: nat, y: nat) returns (on: bool)
    requires |luma| == w * h && x < w && y < h
    ensures on <==> IsEdge(luma, w, h, step, x, y)
  {
    var here := Sample(luma, w, h, x, y);
    on :=
      (x > 0 && Distance(here, Sample(luma, w, h, x - 1, y)) >= step) ||
      (x + 1 < w && Distance(here, Sample(luma, w, h, x + 1, y)) >= step) ||
      (y > 0 && Distance(here, Sample(luma, w, h, x, y - 1)) >= step) ||
      (y + 1 < h && Distance(here, Sample(luma, w, h, x, y + 1)) >= step);
    assert x > 0 ==> Adjacent(x, y, x - 1, y);
    assert y > 0 ==> Adjacent(x, y, x, y - 1);
    assert Adjacent(x, y, x + 1, y) && Adjacent(x, y, x, y + 1);
  }

  /** The rows before `rows`, and in row `rows` the columns before `columns`,
      are known to be edges or not. */
  ghost predicate AreEdges(on: seq<bool>, luma: seq<nat>, w: nat, h: nat, step: nat, columns: nat, rows: nat)
    requires |on| == |luma| == w * h
  {
    forall x: nat, y: nat :: x < w && y < h && (y < rows || (y == rows && x < columns)) ==>
      Sample(on, w, h, x, y) == IsEdge(luma, w, h, step, x, y)
  }

  method Edges(luma: seq<nat>, w: nat, h: nat, step: nat) returns (edges: seq<bool>)
    requires |luma| == w * h
    ensures |edges| == w * h && AreEdges(edges, luma, w, h, step, 0, h)
  {
    var on := new bool[w * h](_ => false);
    var y := 0;
    while y < h
      invariant y <= h
      invariant AreEdges(on[..], luma, w, h, step, 0, y)
    {
      var x := 0;
      while x < w
        invariant x <= w
        invariant AreEdges(on[..], luma, w, h, step, x, y)
      {
        var here := StepAt(luma, w, h, step, x, y);
        SetSample(on, w, h, x, y, here);
        x := x + 1;
      }
      y := y + 1;
    }
    edges := on[..];
  }

  method SetSample(out: array<bool>, w: nat, h: nat, x: nat, y: nat, v: bool)
    requires out.Length == w * h && x < w && y < h
    modifies out
    ensures forall u: nat, t: nat :: u < w && t < h ==>
      Sample(out[..], w, h, u, t) == if u == x && t == y then v else Sample(old(out[..]), w, h, u, t)
  {
    AtBounded(x, y, w, h);
    out[At(x, y, w)] := v;
    OneWrite(old(out[..]), out[..], w, h, x, y, v);
  }

  // ---- the second pass: dilation ------------------------------------------

  /** An edge in the rows before `rows`, or in row `rows` in the columns before
      `columns`, is near. */
  ghost predicate IsSpread(on: seq<bool>, w: nat, h: nat, radius: nat, columns: nat, rows: nat, x: nat, y: nat)
    requires |on| == w * h
  {
    exists x2: nat, y2: nat :: x2 < w && y2 < h && (y2 < rows || (y2 == rows && x2 < columns)) &&
      Near(x, y, x2, y2, radius) && Sample(on, w, h, x2, y2)
  }

  ghost predicate HasSpread(out: seq<bool>, on: seq<bool>, w: nat, h: nat, radius: nat, columns: nat, rows: nat)
    requires |out| == |on| == w * h
  {
    forall x: nat, y: nat :: x < w && y < h ==>
      Sample(out, w, h, x, y) == IsSpread(on, w, h, radius, columns, rows, x, y)
  }

  /** `out` with the block around (x, y) set, up to row `rows` and in row `rows`
      up to column `columns`. */
  ghost predicate HasBlock(out: seq<bool>, was: seq<bool>, w: nat, h: nat, radius: nat, x: nat, y: nat, columns: int, rows: int)
    requires |out| == |was| == w * h
  {
    forall u: nat, v: nat :: u < w && v < h ==>
      Sample(out, w, h, u, v) ==
      (Sample(was, w, h, u, v) || (Near(u, v, x, y, radius) && (v < rows || (v == rows && u < columns))))
  }

  method MarkBlock(out: array<bool>, w: nat, h: nat, radius: nat, x: nat, y: nat)
    requires out.Length == w * h && x < w && y < h
    modifies out
    ensures HasBlock(out[..], old(out[..]), w, h, radius, x, y, 0, h)
  {
    var v := if y > radius then y - radius else 0;
    var bottom := if y + radius < h then y + radius else h - 1;
    var left := if x > radius then x - radius else 0;
    var right := if x + radius < w then x + radius else w - 1;
    while v <= bottom
      invariant y - radius <= v <= bottom + 1
      invariant HasBlock(out[..], old(out[..]), w, h, radius, x, y, 0, v)
    {
      var u := left;
      while u <= right
        invariant left <= u <= right + 1
        invariant HasBlock(out[..], old(out[..]), w, h, radius, x, y, u, v)
      {
        SetSample(out, w, h, u, v, true);
        u := u + 1;
      }
      v := v + 1;
    }
  }

  method Spread(on: seq<bool>, w: nat, h: nat, radius: nat) returns (mask: seq<bool>)
    requires |on| == w * h
    ensures |mask| == w * h && HasSpread(mask, on, w, h, radius, 0, h)
  {
    var out := new bool[w * h](_ => false);
    NothingSpread(out[..], on, w, h, radius);
    var y := 0;
    while y < h
      invariant y <= h
      invariant HasSpread(out[..], on, w, h, radius, 0, y)
    {
      var x := 0;
      while x < w
        invariant x <= w
        invariant HasSpread(out[..], on, w, h, radius, x, y)
      {
        if Sample(on, w, h, x, y) {
          MarkBlock(out, w, h, radius, x, y);
        }
        x := x + 1;
      }
      y := y + 1;
    }
    mask := out[..];
  }

  lemma NothingSpread(out: seq<bool>, on: seq<bool>, w: nat, h: nat, radius: nat)
    requires |out| == |on| == w * h && forall i :: 0 <= i < |out| ==> !out[i]
    ensures HasSpread(out, on, w, h, radius, 0, 0)
  {
    forall x: nat, y: nat | x < w && y < h ensures !Sample(out, w, h, x, y) {
      AtBounded(x, y, w, h);
    }
  }

  /** A pixel is in the mask exactly when some edge lies within `radius` of it. */
  method GradientMask(luma: seq<nat>, w: nat, h: nat, step: nat, radius: nat) returns (mask: seq<bool>)
    requires |luma| == w * h
    ensures |mask| == w * h
    ensures forall x: nat, y: nat :: x < w && y < h ==>
      Sample(mask, w, h, x, y) == IsMarked(luma, w, h, step, radius, x, y)
  {
    var on := Edges(luma, w, h, step);
    mask := Spread(on, w, h, radius);
    forall x: nat, y: nat | x < w && y < h
      ensures Sample(mask, w, h, x, y) == IsMarked(luma, w, h, step, radius, x, y)
    {
      SpreadOfEdges(on, luma, w, h, step, radius, x, y);
    }
  }

  lemma SpreadOfEdges(on: seq<bool>, luma: seq<nat>, w: nat, h: nat, step: nat, radius: nat, x: nat, y: nat)
    requires |on| == |luma| == w * h && AreEdges(on, luma, w, h, step, 0, h)
    ensures IsSpread(on, w, h, radius, 0, h, x, y) == IsMarked(luma, w, h, step, radius, x, y)
  {
    if IsMarked(luma, w, h, step, radius, x, y) {
      var x2: nat, y2: nat :| x2 < w && y2 < h && Near(x, y, x2, y2, radius) && IsEdge(luma, w, h, step, x2, y2);
      assert Sample(on, w, h, x2, y2);
    }
  }

  /** A larger radius or a smaller step marks every pixel marked before. */
  lemma MaskIsMonotone(luma: seq<nat>, w: nat, h: nat, step: nat, lower: nat, radius: nat, wider: nat, x: nat, y: nat)
    requires |luma| == w * h && lower <= step && radius <= wider
    requires IsMarked(luma, w, h, step, radius, x, y)
    ensures IsMarked(luma, w, h, lower, wider, x, y)
  {
    var x2: nat, y2: nat :| x2 < w && y2 < h && Near(x, y, x2, y2, radius) && IsEdge(luma, w, h, step, x2, y2);
    assert Near(x, y, x2, y2, wider) && IsEdge(luma, w, h, lower, x2, y2);
  }

  // ---- ink overlap --------------------------------------------------------

  function Shortest(a: nat, b: nat, c: nat): nat {
    var m := if a < b then a else b;
    if m < c then m else c
  }

  /** The masked pixels before `n` at which both tiles have ink, or either has. */
  ghost function InkBoth(reference: seq<nat>, candidate: seq<nat>, mask: seq<bool>, threshold: nat, n: nat): set<nat>
    requires n <= |reference| && n <= |candidate| && n <= |mask|
  {
    set i: nat | i < n && mask[i] && reference[i] < threshold && candidate[i] < threshold
  }

  ghost function InkEither(reference: seq<nat>, candidate: seq<nat>, mask: seq<bool>, threshold: nat, n: nat): set<nat>
    requires n <= |reference| && n <= |candidate| && n <= |mask|
  {
    set i: nat | i < n && mask[i] && (reference[i] < threshold || candidate[i] < threshold)
  }

  /** Intersection over union of the ink inside the mask, over the pixels all
      three buffers have; nothing when there is no ink. */
  method InkIou(reference: seq<nat>, candidate: seq<nat>, mask: seq<bool>, threshold: nat) returns (iou: Option<real>)
    ensures var n := Shortest(|reference|, |candidate|, |mask|);
      var both := |InkBoth(reference, candidate, mask, threshold, n)|;
      var either := |InkEither(reference, candidate, mask, threshold, n)|;
      iou == if either == 0 then None else Some(both as real / either as real)
  {
    var n := Shortest(|reference|, |candidate|, |mask|);
    var inter, union := 0, 0;
    var i := 0;
    while i < n
      invariant i <= n
      invariant inter == |InkBoth(reference, candidate, mask, threshold, i)|
      invariant union == |InkEither(reference, candidate, mask, threshold, i)|
    {
      OneMorePixel(reference, candidate, mask, threshold, i);
      if mask[i] {
        var r, c := reference[i] < threshold, candidate[i] < threshold;
        if r && c { inter := inter + 1; }
        if r || c { union := union + 1; }
      }
      i := i + 1;
    }
    iou := if union > 0 then Some(inter as real / union as real) else None;
  }

  lemma OneMorePixel(reference: seq<nat>, candidate: seq<nat>, mask: seq<bool>, threshold: nat, i: nat)
    requires i < |reference| && i < |candidate| && i < |mask|
    ensures InkBoth(reference, candidate, mask, threshold, i + 1) ==
      InkBoth(reference, candidate, mask, threshold, i) +
      (if mask[i] && reference[i] < threshold && candidate[i] < threshold then {i} else {})
    ensures InkEither(reference, candidate, mask, threshold, i + 1) ==
      InkEither(reference, candidate, mask, threshold, i) +
      (if mask[i] && (reference[i] < threshold || candidate[i] < threshold) then {i} else {})
  {
  }

  /** The overlap lies between 0 and 1, does not depend on which tile is the
      reference, and is 1 exactly when the two have the same ink in the mask. */
  lemma IouIsARatio(reference: seq<nat>, candidate: seq<nat>, mask: seq<bool>, threshold: nat, n: nat)
    requires n <= |reference| && n <= |candidate| && n <= |mask|
    ensures var both := InkBoth(reference, candidate, mask, threshold, n);
      var either := InkEither(reference, candidate, mask, threshold, n);
      both == InkBoth(candidate, reference, mask, threshold, n) && either == InkEither(candidate, reference, mask, threshold, n) &&
      (|either| > 0 ==> 0.0 <= |both| as real / |either| as real <= 1.0) &&
      (|either| > 0 ==>
         (|both| as real / |either| as real == 1.0 <==>
          forall i :: 0 <= i < n && mask[i] ==> (reference[i] < threshold <==> candidate[i] < threshold)))
  {
    var both, either := InkBoth(reference, candidate, mask, threshold, n), InkEither(reference, candidate, mask, threshold, n);
    assert both <= either;
    SubsetCount(both, either);
    assert both == either <==> forall i :: 0 <= i < n && mask[i] ==> (reference[i] < threshold <==> candidate[i] < threshold) by {
      forall i | both == either && 0 <= i < n && mask[i] ensures reference[i] < threshold <==> candidate[i] < threshold {
        assert i in either <==> i in both;
      }
    }
    if |either| > 0 { UnitRatio(|both|, |either|); }
  }

  lemma UnitRatio(a: nat, b: nat)
    requires a <= b && b > 0
    ensures 0.0 <= a as real / b as real <= 1.0
    ensures a as real / b as real == 1.0 <==> a == b
  {
  }

  lemma SubsetCount(a: set<nat>, b: set<nat>)
    requires a <= b
    ensures |a| <= |b| && (|a| == |b| <==> a == b)
  {
    assert b == a + (b - a);
    assert |b| == |a| + |b - a|;
    assert b - a == {} <==> a == b;
  }
}
