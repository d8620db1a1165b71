/** The synthetic control in exact arithmetic: known geometry sampled by area,
    halved level by level, and where its line is found at each. */
module Control {
  import opened Words
  import opened Grid
  import opened Halving
  import opened Edge
  import opened LineEdges

  const LINE_LEFT: real := 301.37
  const LINE_WIDTH: real := 6.0
  const LINE_RIGHT: real := LINE_LEFT + LINE_WIDTH
  const RED_TOP: real := 700.0
  const RED_BOTTOM: real := 704.0
  const SIZE: nat := 1024

  // ---- area sampling commutes with halving --------------------------------

  /** Sampling the halved line is the mean of sampling the line twice as finely. */
  lemma CoverHalves(left: real, right: real, i: nat)
    requires left <= right
    ensures Cover(left / 2.0, right / 2.0, i) == (Cover(left, right, 2 * i) + Cover(left, right, 2 * i + 1)) / 2.0
  {
    var at := 2.0 * i as real;
    assert (2 * i) as real == at && (2 * i + 1) as real == at + 1.0;
    OverlapSplits(left, right, at);
    OverlapShrinks(left, right, at);
  }

  /** The length that `[left, right]` and `[from, to]` share. */
  function Overlap(left: real, right: real, from: real, to: real): real {
    MaxR(0.0, MinR(right, to) - MaxR(left, from))
  }

  lemma OverlapSplits(left: real, right: real, at: real)
    requires left <= right
    ensures Overlap(left, right, at, at + 2.0) == Overlap(left, right, at, at + 1.0) + Overlap(left, right, at + 1.0, at + 2.0)
  {
  }

  lemma OverlapShrinks(left: real, right: real, at: real)
    ensures Overlap(left / 2.0, right / 2.0, at / 2.0, at / 2.0 + 1.0) == Overlap(left, right, at, at + 2.0) / 2.0
  {
  }

  lemma BeyondHalves(t: real, i: nat)
    ensures Beyond(t / 2.0, i) == (Beyond(t, 2 * i) + Beyond(t, 2 * i + 1)) / 2.0
  {
  }

  /** A profile halved by exact means. */
  function HalfProfile(p: seq<real>): (q: seq<real>)
    ensures |q| == |p| / 2
    ensures forall i: nat :: i < |q| ==> q[i] == (p[2 * i] + p[2 * i + 1]) / 2.0
  {
    seq(|p| / 2, i requires 0 <= i < |p| / 2 => (p[2 * i] + p[2 * i + 1]) / 2.0)
  }

  function HalfTimes(p: seq<real>, k: nat): seq<real> {
    if k == 0 then p else HalfProfile(HalfTimes(p, k - 1))
  }

  function Shrunk(x: real, k: nat): real {
    if k == 0 then x else Shrunk(x, k - 1) / 2.0
  }

  lemma MeanOfBlend(from: real, to: real, x: real, y: real)
    ensures ((from + (to - from) * x) + (from + (to - from) * y)) / 2.0 == from + (to - from) * ((x + y) / 2.0)
  {
    ScaledSum(to - from, x, y);
  }

  lemma HalfOfStep(p: seq<real>, from: real, to: real, t: real)
    requires IsStep(p, from, to, t)
    ensures IsStep(HalfProfile(p), from, to, t / 2.0)
  {
    var q := HalfProfile(p);
    forall i: nat | i < |q| ensures IsSampled(q[i], from, to, t / 2.0, i) {
      assert IsSampled(p[2 * i], from, to, t, 2 * i) && IsSampled(p[2 * i + 1], from, to, t, 2 * i + 1);
      HalfOfPair(p[2 * i], p[2 * i + 1], from, to, t, i);
    }
  }

  lemma HalfOfPair(a: real, b: real, from: real, to: real, t: real, i: nat)
    requires a == from + (to - from) * Beyond(t, 2 * i) && b == from + (to - from) * Beyond(t, 2 * i + 1)
    ensures (a + b) / 2.0 == from + (to - from) * Beyond(t / 2.0, i)
  {
    MeanOfBlend(from, to, Beyond(t, 2 * i), Beyond(t, 2 * i + 1));
    BeyondHalves(t, i);
  }

  lemma {:induction false} HalvedStepIsStep(p: seq<real>, from: real, to: real, t: real, k: nat)
    requires IsStep(p, from, to, t)
    ensures IsStep(HalfTimes(p, k), from, to, Shrunk(t, k))
  {
    if k > 0 {
      HalvedStepIsStep(p, from, to, t, k - 1);
      HalfOfStep(HalfTimes(p, k - 1), from, to, Shrunk(t, k - 1));
    }
  }

  /** The truth halves with the image: after any number of halvings a step is
      found as one at its own position over that power of two is. */
  lemma HalvedStepIsFoundExactly(p: seq<real>, from: real, to: real, t: real, k: nat)
    requires IsStep(p, from, to, t) && |HalfTimes(p, k)| >= 2
    ensures FindsStep(HalfTimes(p, k), Abs(to - from), Shrunk(t, k))
  {
    HalvedStepIsStep(p, from, to, t, k);
    StepIsFoundExactly(HalfTimes(p, k), from, to, Shrunk(t, k));
  }

  // ---- the control --------------------------------------------------------

  /** One channel of one pixel at level 0. Each line takes its share of what is
      under it, the vertical one first; red takes none of the first channel. */
  function Drawn(x: nat, y: nat, c: nat): real {
    var base := 255.0 * (1.0 - Cover(LINE_LEFT, LINE_RIGHT, x));
    if c == 0 then base else base * (1.0 - Cover(RED_TOP, RED_BOTTOM, y))
  }

  /** The same at level `k`, by exact means. */
  function Level(k: nat, x: nat, y: nat, c: nat): real {
    if k == 0 then Drawn(x, y, c)
    else (Level(k - 1, 2 * x, 2 * y, c) + Level(k - 1, 2 * x + 1, 2 * y, c) +
          Level(k - 1, 2 * x, 2 * y + 1, c) + Level(k - 1, 2 * x + 1, 2 * y + 1, c)) / 4.0
  }

  lemma {:induction false} ShrunkInOrder(k: nat)
    ensures Shrunk(LINE_LEFT, k) < Shrunk(LINE_RIGHT, k)
  {
    if k > 0 { ShrunkInOrder(k - 1); }
  }

  /** Above the red line, every channel of every level is the black line alone,
      area-sampled at that level. */
  lemma {:induction false} BandIsLine(k: nat, x: nat, y: nat, c: nat)
    requires (y + 1) * Span(k) <= 700
    ensures Level(k, x, y, c) == 255.0 - 255.0 * Cover(Shrunk(LINE_LEFT, k), Shrunk(LINE_RIGHT, k), x)
  {
    if k == 0 {
      assert Cover(RED_TOP, RED_BOTTOM, y) == 0.0;
    } else {
      Doubling(y, Span(k - 1));
      assert (y + 1) * Span(k) == (2 * y + 2) * Span(k - 1);
      assert (2 * y + 1) * Span(k - 1) <= (2 * y + 2) * Span(k - 1);
      BandIsLine(k - 1, 2 * x, 2 * y, c);
      BandIsLine(k - 1, 2 * x + 1, 2 * y, c);
      BandIsLine(k - 1, 2 * x, 2 * y + 1, c);
      BandIsLine(k - 1, 2 * x + 1, 2 * y + 1, c);
      ShrunkInOrder(k - 1);
      CoverHalves(Shrunk(LINE_LEFT, k - 1), Shrunk(LINE_RIGHT, k - 1), x);
    }
  }

  function Band(k: nat): nat {
    var half := Side(SIZE, k) / 2;
    if half < 64 then half else 64
  }

  /** The band measured at every level stays above the red line. */
  lemma BandMissesRed(k: nat, y: nat)
    requires y < Band(k)
    ensures (y + 1) * Span(k) <= 700
  {
    SidesFit(SIZE, k);
    HalfFits(y + 1, Side(SIZE, k), Span(k));
  }

  lemma HalfFits(rows: nat, side: nat, span: nat)
    requires rows <= side / 2
    ensures 2 * (rows * span) <= side * span
  {
    TimesGrows(2 * rows, side, span);
    assert (2 * rows) * span == 2 * (rows * span);
  }

  lemma TimesGrows(a: nat, b: nat, c: nat)
    requires a <= b
    ensures a * c <= b * c
  {
  }

  lemma {:induction false} SidesFit(size: nat, k: nat)
    ensures Side(size, k) * Span(k) <= size
  {
    if k > 0 {
      SidesFit(size, k - 1);
      Doubling(Side(size, k), Span(k - 1));
      assert 2 * Side(size, k) <= Side(size, k - 1);
      TimesGrows(2 * Side(size, k), Side(size, k - 1), Span(k - 1));
    }
  }

  ghost predicate IsBand(luma: seq<real>, k: nat) {
    |luma| == Side(SIZE, k) * Band(k) &&
    forall x: nat, y: nat :: x < Side(SIZE, k) && y < Band(k) ==>
      Sample(luma, Side(SIZE, k), Band(k), x, y) == Level(k, x, y, 0)
  }

  lemma BandProfile(luma: seq<real>, k: nat, y: nat)
    requires IsBand(luma, k) && y < Band(k)
    ensures IsLine(Profile(luma, Side(SIZE, k), Band(k), X, y), 255.0, 0.0, Shrunk(LINE_LEFT, k), Shrunk(LINE_RIGHT, k))
  {
    var p := Profile(luma, Side(SIZE, k), Band(k), X, y);
    var u := Covers(Shrunk(LINE_LEFT, k), Shrunk(LINE_RIGHT, k), |p|);
    BandMissesRed(k, y);
    forall i: nat | i < |p| ensures BlendAt(p, 255.0, 0.0, u, i) {
      BandIsLine(k, i, y, 0);
      assert Sample(luma, Side(SIZE, k), Band(k), i, y) == Level(k, i, y, 0);
    }
  }

  // ---- what is measured ---------------------------------------------------

  lemma SameProfiles(luma: seq<real>, k: nat, y: nat)
    requires IsBand(luma, k) && y < Band(k)
    ensures Profile(luma, Side(SIZE, k), Band(k), X, y) == Profile(luma, Side(SIZE, k), Band(k), X, 0)
  {
    BandMissesRed(k, y);
    BandMissesRed(k, 0);
    var p, q := Profile(luma, Side(SIZE, k), Band(k), X, y), Profile(luma, Side(SIZE, k), Band(k), X, 0);
    forall i: nat | i < |p| ensures p[i] == q[i] {
      BandIsLine(k, i, y, 0);
      BandIsLine(k, i, 0, 0);
      assert Sample(luma, Side(SIZE, k), Band(k), i, y) == Level(k, i, y, 0);
      assert Sample(luma, Side(SIZE, k), Band(k), i, 0) == Level(k, i, 0, 0);
    }
  }

  /** The whole band finds the line where its first row does. */
  lemma BandFinds(luma: seq<real>, k: nat)
    requires IsBand(luma, k) && Side(SIZE, k) >= 2 && Band(k) >= 2
    requires IsFound(Profile(luma, Side(SIZE, k), Band(k), X, 0))
    ensures Position(luma, Side(SIZE, k), Band(k), X) == Some(Centroid(Profile(luma, Side(SIZE, k), Band(k), X, 0)))
  {
    var w, h := Side(SIZE, k), Band(k);
    var at := Centroid(Profile(luma, w, h, X, 0));
    forall line: nat | line < Lines(w, h, X) ensures LineFinds(luma, w, h, X, line, at) {
      SameProfiles(luma, k, line);
    }
    PositionOfAlike(luma, w, h, X, at);
  }

  /** The edges of the line at each of the five levels that are measured. */
  lemma EdgesAtLevel(k: nat)
    requires k <= 4
    ensures Side(SIZE, k) >= 64 && Band(k) >= 2
    ensures var (left, right) := (Shrunk(LINE_LEFT, k), Shrunk(LINE_RIGHT, k));
      1.0 <= left < right <= (Side(SIZE, k) - 1) as real
  {
    FiveLevels();
  }

  lemma FiveLevels()
    ensures Shrunk(LINE_LEFT, 0) == 301.37 && Shrunk(LINE_RIGHT, 0) == 307.37
    ensures Shrunk(LINE_LEFT, 1) == 150.685 && Shrunk(LINE_RIGHT, 1) == 153.685
    ensures Shrunk(LINE_LEFT, 2) == 75.3425 && Shrunk(LINE_RIGHT, 2) == 76.8425
    ensures Shrunk(LINE_LEFT, 3) == 37.67125 && Shrunk(LINE_RIGHT, 3) == 38.42125
    ensures Shrunk(LINE_LEFT, 4) == 18.835625 && Shrunk(LINE_RIGHT, 4) == 19.210625
    ensures Side(SIZE, 0) == 1024 && Side(SIZE, 1) == 512 && Side(SIZE, 2) == 256 && Side(SIZE, 3) == 128 && Side(SIZE, 4) == 64
  {
    assert Side(SIZE, 1) == 512;
    assert Side(SIZE, 2) == 256;
    assert Side(SIZE, 3) == 128;
    assert Shrunk(LINE_LEFT, 1) == 150.685 && Shrunk(LINE_RIGHT, 1) == 153.685;
    assert Shrunk(LINE_LEFT, 2) == 75.3425 && Shrunk(LINE_RIGHT, 2) == 76.8425;
    assert Shrunk(LINE_LEFT, 3) == 37.67125 && Shrunk(LINE_RIGHT, 3) == 38.42125;
  }

  /** The pixel covered most at each level, and how much of it. */
  lemma TopAtLevel(k: nat) returns (top: real)
    requires k <= 4
    ensures Shrunk(LINE_LEFT, k) < Shrunk(LINE_RIGHT, k) && Shrunk(LINE_LEFT, k) >= 0.0
    ensures top == Cover(Shrunk(LINE_LEFT, k), Shrunk(LINE_RIGHT, k), Mode(Shrunk(LINE_LEFT, k), Shrunk(LINE_RIGHT, k)))
    ensures top >= 0.2 && (top == 1.0 <==> k <= 1)
    ensures !IsWhole(Shrunk(LINE_LEFT, k) + Shrunk(LINE_RIGHT, k))
  {
    FiveLevels();
    var (left, right) := (Shrunk(LINE_LEFT, k), Shrunk(LINE_RIGHT, k));
    var m := if k == 0 then 302 else if k == 1 then 151 else if k == 2 then 76 else if k == 3 then 38 else 19;
    FloorIs(left, m - 1);
    assert Mode(left, right) == m;
    top := Cover(left, right, m);
    NotWhole(left + right, if k == 0 then 608 else if k == 1 then 304 else if k == 2 then 152 else if k == 3 then 76 else 38);
  }

  lemma FloorIs(x: real, j: int)
    requires j as real <= x < j as real + 1.0
    ensures x.Floor == j
  {
  }

  lemma NotWhole(x: real, j: int)
    requires j as real < x < j as real + 1.0
    ensures !IsWhole(x)
  {
    FloorIs(x, j);
  }

  /** The centre halves with the edges. */
  lemma {:induction false} CentreShrinks(k: nat)
    ensures Shrunk(LINE_LEFT + LINE_WIDTH / 2.0, k) == (Shrunk(LINE_LEFT, k) + Shrunk(LINE_RIGHT, k)) / 2.0
  {
    if k > 0 { CentreShrinks(k - 1); }
  }

  /** In exact arithmetic the line is found with no displacement at the two
      levels where it still covers a pixel whole, and at none of the others. */
  lemma ControlIsExactTwice(luma: seq<real>, k: nat)
    requires k <= 4 && IsBand(luma, k)
    ensures var truth := Shrunk(LINE_LEFT + LINE_WIDTH / 2.0, k);
      var found := Displacement(luma, Side(SIZE, k), Band(k), X, truth);
      found.Some? && (found.value == 0.0 <==> k <= 1)
  {
    EdgesAtLevel(k);
    CentreShrinks(k);
    FirstRowIsExactTwice(luma, k);
    BandFinds(luma, k);
  }

  lemma FirstRowIsExactTwice(luma: seq<real>, k: nat)
    requires k <= 4 && IsBand(luma, k) && Band(k) >= 1
    ensures var p := Profile(luma, Side(SIZE, k), Band(k), X, 0);
      IsFound(p) && (Centroid(p) == (Shrunk(LINE_LEFT, k) + Shrunk(LINE_RIGHT, k)) / 2.0 <==> k <= 1)
  {
    EdgesAtLevel(k);
    BandProfile(luma, k, 0);
    var top := TopAtLevel(k);
    LineIsExactIfTop(Profile(luma, Side(SIZE, k), Band(k), X, 0), Shrunk(LINE_LEFT, k), Shrunk(LINE_RIGHT, k), top);
  }

  lemma LineIsExactIfTop(p: seq<real>, left: real, right: real, top: real)
    requires IsLine(p, 255.0, 0.0, left, right) && |p| >= 2 && 1.0 <= left < right <= (|p| - 1) as real
    requires top == Cover(left, right, Mode(left, right)) && top >= 0.2 && !IsWhole(left + right)
    ensures IsFound(p) && (Centroid(p) == (left + right) / 2.0 <==> top == 1.0)
  {
    var m := Mode(left, right);
    var weighed, _, _ := LineMeasures(p, 255.0, 0.0, 255.0, left, right, m, top, right - left, LineEdges.Before(left, right, m));
    LineIsFoundAtItsCentre(p, 255.0, 0.0, left, right);
    FullPixelIsTop(left, right);
  }

  // ---- luma ---------------------------------------------------------------

  /** Rec. 601 luma, rounded to the nearest level. */
  function Luma(r: nat, g: nat, b: nat): nat {
    (299 * r + 587 * g + 114 * b + 500) / 1000
  }

  /** A grey keeps its level, and no pixel is darker than its darkest channel or
      lighter than its lightest. */
  lemma LumaStaysBetween(r: nat, g: nat, b: nat, lo: nat, hi: nat)
    requires lo <= r <= hi && lo <= g <= hi && lo <= b <= hi
    ensures lo <= Luma(r, g, b) <= hi
  {
    assert 1000 * lo <= 299 * r + 587 * g + 114 * b <= 1000 * hi;
  }
}
