/** The control as bytes. */
module ControlBytes {
  // The image that is really drawn and halved, every sample rounded to a byte:
  // what its rows hold at each level, and how far from the truth the line is
  // found in them.

  import opened Words
  import opened Grid
  import opened Halving
  import opened Edge
  import opened LineEdges
  import opened Control

  // ---- drawing ------------------------------------------------------------

  /** To the nearest whole number, halves up. */
  function Round(x: real): nat
    requires x >= 0.0
  {
    (x + 0.5).Floor
  }

  function BlackOverWhite(x: nat): nat {
    Round(255.0 * (1.0 - Cover(LINE_LEFT, LINE_RIGHT, x)))
  }

  /** One channel of one pixel. */
  function DrawnByte(c: nat, x: nat, y: nat): nat {
    if c == 0 then BlackOverWhite(x) else Reddened(BlackOverWhite(x), Cover(RED_TOP, RED_BOTTOM, y))
  }

  function Reddened(base: nat, red: real): nat
    requires 0.0 <= red <= 1.0
  {
    NotNegative(base as real, 1.0 - red);
    Round(base as real * (1.0 - red))
  }

  lemma NotNegative(a: real, b: real)
    requires a >= 0.0 && b >= 0.0
    ensures a * b >= 0.0
  {
  }

  ghost predicate IsDrawnUpTo(px: seq<nat>, size: nat, samples: nat, rows: nat) {
    IsSquare(px, size) &&
    forall c: nat, x: nat, y: nat :: c < 3 && x < size && y < size && (y < rows || (y == rows && 3 * x + c < samples)) ==>
      Pixel(px, size, c, x, y) == DrawnByte(c, x, y)
  }

  ghost predicate IsDrawn(px: seq<nat>, size: nat) {
    IsDrawnUpTo(px, size, 0, size)
  }

  /** `control`, at any size. */
  method DrawControl(size: nat) returns (drawn: seq<nat>)
    ensures IsDrawn(drawn, size)
  {
    var px := new nat[(3 * size) * size](_ => 255);
    var y := 0;
    while y < size
      invariant y <= size && IsDrawnUpTo(px[..], size, 0, y)
    {
      var x := 0;
      while x < size
        invariant x <= size && IsDrawnUpTo(px[..], size, 3 * x, y)
      {
        var base, red := BlackOverWhite(x), Cover(RED_TOP, RED_BOTTOM, y);
        WriteChannel(px, size, 0, x, y, base);
        WriteChannel(px, size, 1, x, y, Reddened(base, red));
        WriteChannel(px, size, 2, x, y, Reddened(base, red));
        x := x + 1;
      }
      y := y + 1;
    }
    drawn := px[..];
  }

  method WriteChannel(px: array<nat>, size: nat, c: nat, x: nat, y: nat, v: nat)
    requires c < 3 && x < size && y < size && v == DrawnByte(c, x, y)
    requires IsDrawnUpTo(px[..], size, 3 * x + c, y)
    modifies px
    ensures IsDrawnUpTo(px[..], size, 3 * x + c + 1, y)
  {
    AtBounded(3 * x + c, y, 3 * size, size);
    ghost var before := px[..];
    px[At(3 * x + c, y, 3 * size)] := v;
    OneMoreDrawn(before, px[..], size, c, x, y, v);
  }

  lemma OneMoreDrawn(before: seq<nat>, after: seq<nat>, size: nat, c: nat, x: nat, y: nat, v: nat)
    requires c < 3 && x < size && y < size && v == DrawnByte(c, x, y) && IsDrawnUpTo(before, size, 3 * x + c, y)
    requires At(3 * x + c, y, 3 * size) < |before| && after == before[At(3 * x + c, y, 3 * size) := v]
    ensures IsDrawnUpTo(after, size, 3 * x + c + 1, y)
  {
    OneWrite(before, after, 3 * size, size, 3 * x + c, y, v);
  }

  // ---- the rows above the red line ----------------------------------------

  /** A sample of level `k`, in any row and channel above the red line. */
  function RowByte(k: nat, x: nat): nat {
    if k == 0 then BlackOverWhite(x) else (2 * RowByte(k - 1, 2 * x) + 2 * RowByte(k - 1, 2 * x + 1) + 2) / 4
  }

  ghost predicate RowsAre(px: seq<nat>, k: nat) {
    IsSquare(px, Side(SIZE, k)) &&
    forall c: nat, x: nat, y: nat :: c < 3 && x < Side(SIZE, k) && y < Side(SIZE, k) && (y + 1) * Span(k) <= 700 ==>
      Pixel(px, Side(SIZE, k), c, x, y) == RowByte(k, x)
  }

  lemma DrawnRowsAre(px: seq<nat>)
    requires IsDrawn(px, SIZE)
    ensures RowsAre(px, 0)
  {
    forall c: nat, x: nat, y: nat | c < 3 && x < SIZE && y < SIZE && (y + 1) * Span(0) <= 700
      ensures Pixel(px, SIZE, c, x, y) == RowByte(0, x)
    {
      NoRedAbove(BlackOverWhite(x), y);
    }
  }

  lemma HalvedRowsAre(half: seq<nat>, px: seq<nat>, k: nat)
    requires k > 0 && RowsAre(px, k - 1) && IsHalf(half, px, Side(SIZE, k - 1))
    ensures RowsAre(half, k)
  {
    forall c: nat, x: nat, y: nat | c < 3 && x < Side(SIZE, k) && y < Side(SIZE, k) && (y + 1) * Span(k) <= 700
      ensures Pixel(half, Side(SIZE, k), c, x, y) == RowByte(k, x)
    {
      RowsAbove(y, k);
      BoxOfColumns(half, px, Side(SIZE, k - 1), c, x, y, RowByte(k - 1, 2 * x), RowByte(k - 1, 2 * x + 1));
    }
  }

  lemma {:induction false} LevelsAreRows(levels: seq<seq<nat>>, k: nat)
    requires IsPyramid(levels, SIZE) && IsDrawn(levels[0], SIZE) && k < |levels|
    ensures RowsAre(levels[k], k)
  {
    if k == 0 {
      DrawnRowsAre(levels[0]);
    } else {
      LevelsAreRows(levels, k - 1);
      HalvedRowsAre(levels[k], levels[k - 1], k);
    }
  }

  lemma RowsAbove(y: nat, k: nat)
    requires k > 0 && (y + 1) * Span(k) <= 700
    ensures (2 * y + 1) * Span(k - 1) <= (2 * y + 2) * Span(k - 1) <= 700
  {
    Doubling(y + 1, Span(k - 1));
    TimesGrows(2 * y + 1, 2 * y + 2, Span(k - 1));
  }

  lemma BoxOfColumns(half: seq<nat>, px: seq<nat>, size: nat, c: nat, x: nat, y: nat, a: nat, b: nat)
    requires IsHalf(half, px, size) && c < 3 && x < size / 2 && y < size / 2
    requires Pixel(px, size, c, 2 * x, 2 * y) == a && Pixel(px, size, c, 2 * x + 1, 2 * y) == b
    requires Pixel(px, size, c, 2 * x, 2 * y + 1) == a && Pixel(px, size, c, 2 * x + 1, 2 * y + 1) == b
    ensures Pixel(half, size / 2, c, x, y) == (2 * a + 2 * b + 2) / 4
  {
  }

  lemma NoRedAbove(base: nat, y: nat)
    requires y < 700
    ensures Reddened(base, Cover(RED_TOP, RED_BOTTOM, y)) == base
  {
    assert Cover(RED_TOP, RED_BOTTOM, y) == 0.0;
    FloorIs(base as real + 0.5, base);
  }

  /** White but for a few samples from `at` on. */
  datatype Dip = Dip(at: nat, samples: seq<nat>)

  function InDip(d: Dip, x: nat): nat {
    if d.at <= x < d.at + |d.samples| then d.samples[x - d.at] else 255
  }

  const DIPS: seq<Dip> := [
    Dip(301, [94, 0, 0, 0, 0, 0, 161]),
    Dip(150, [175, 0, 0, 81]),
    Dip(75, [88, 41]),
    Dip(37, [172, 148]),
    Dip(18, [214, 202])]

  lemma DrawnRow(x: nat)
    ensures BlackOverWhite(x) == InDip(DIPS[0], x)
  {
    var v := 255.0 * (1.0 - Cover(LINE_LEFT, LINE_RIGHT, x)) + 0.5;
    FloorIs(v, if x == 301 then 94 else if 302 <= x <= 306 then 0 else if x == 307 then 161 else 255);
  }

  lemma {:induction false} RowIsDip(k: nat, x: nat)
    requires k <= 4
    ensures RowByte(k, x) == InDip(DIPS[k], x)
  {
    if k == 0 {
      DrawnRow(x);
    } else {
      RowIsDip(k - 1, 2 * x);
      RowIsDip(k - 1, 2 * x + 1);
      DipHalves(k, x);
    }
  }

  lemma DipHalves(k: nat, x: nat)
    requires 0 < k <= 4
    ensures (2 * InDip(DIPS[k - 1], 2 * x) + 2 * InDip(DIPS[k - 1], 2 * x + 1) + 2) / 4 == InDip(DIPS[k], x)
  {
  }

  // ---- luma of a band -----------------------------------------------------

  function LumaOf(px: seq<nat>): (l: seq<nat>)
    ensures |l| == |px| / 3
    ensures forall i :: 0 <= i < |l| ==> l[i] == Luma(px[3 * i], px[3 * i + 1], px[3 * i + 2])
  {
    seq(|px| / 3, i requires 0 <= i < |px| / 3 => Luma(px[3 * i], px[3 * i + 1], px[3 * i + 2]))
  }

  function AsReals(s: seq<nat>): (r: seq<real>)
    ensures |r| == |s| && forall i :: 0 <= i < |s| ==> r[i] == s[i] as real
  {
    seq(|s|, i requires 0 <= i < |s| => s[i] as real)
  }

  lemma {:induction false} ChannelsOfPixel(x: nat, y: nat, size: nat, c: nat)
    ensures At(3 * x + c, y, 3 * size) == 3 * At(x, y, size) + c
  {
    if y > 0 { ChannelsOfPixel(x, y - 1, size, c); }
  }

  lemma BandFitsLuma(px: seq<nat>, size: nat, rows: nat)
    requires IsSquare(px, size) && rows <= size
    ensures size * rows <= |LumaOf(px)|
  {
    Rows(rows, size, size);
    PixelsOfSquare(px, size);
  }

  lemma PixelsOfSquare(px: seq<nat>, size: nat)
    requires IsSquare(px, size)
    ensures |px| / 3 == size * size
  {
    ThreeTimes(size, size);
  }

  lemma ThreeTimes(a: nat, b: nat)
    ensures (3 * a) * b == 3 * (a * b)
  {
  }

  /** The rows of luma the measurement is made on. */
  function BandLuma(px: seq<nat>, size: nat, rows: nat): (l: seq<real>)
    requires IsSquare(px, size) && rows <= size
    ensures |l| == size * rows
  {
    BandFitsLuma(px, size, rows);
    AsReals(LumaOf(px)[..size * rows])
  }

  lemma BandSample(px: seq<nat>, size: nat, rows: nat, x: nat, y: nat)
    requires IsSquare(px, size) && rows <= size && x < size && y < rows
    ensures Sample(BandLuma(px, size, rows), size, rows, x, y) ==
            Luma(Pixel(px, size, 0, x, y), Pixel(px, size, 1, x, y), Pixel(px, size, 2, x, y)) as real
  {
    BandFitsLuma(px, size, rows);
    AtBounded(x, y, size, rows);
    ChannelsOfPixel(x, y, size, 0);
    ChannelsOfPixel(x, y, size, 1);
    ChannelsOfPixel(x, y, size, 2);
  }

  // ---- where the line is found --------------------------------------------

  predicate IsDip(p: seq<real>, d: Dip) {
    forall i: nat :: i < |p| ==> p[i] == InDip(d, i) as real
  }

  lemma StepAdds(p: seq<real>, n: nat, s: real)
    requires 0 < n < |p| && Step(p, n) == s
    ensures Weight(p, n + 1) == Weight(p, n) + s && Moment(p, n + 1) == Moment(p, n) + s * n as real
  {
    MultipleIsProduct(n, s);
  }

  lemma {:induction false} FlatBefore(p: seq<real>, d: Dip, n: nat)
    requires IsDip(p, d) && n <= d.at && n <= |p|
    ensures Weight(p, n) == 0.0 && Moment(p, n) == 0.0
  {
    if n > 1 {
      FlatBefore(p, d, n - 1);
      StepAdds(p, n - 1, 0.0);
    }
  }

  lemma {:induction false} FlatAfter(p: seq<real>, d: Dip, n: nat)
    requires IsDip(p, d) && d.at > 0 && d.at + |d.samples| < n <= |p|
    ensures Weight(p, n) == Weight(p, d.at + |d.samples| + 1) && Moment(p, n) == Moment(p, d.at + |d.samples| + 1)
  {
    if n > d.at + |d.samples| + 1 {
      FlatAfter(p, d, n - 1);
      StepAdds(p, n - 1, 0.0);
    }
  }

  /** The total of the steps of each dip, and of their positions by weight. */
  const WEIGHTS: seq<real> := [510.0, 510.0, 428.0, 214.0, 106.0]
  const MOMENTS: seq<real> := [155228.0, 77614.0, 32575.0, 8156.0, 2026.0]

  lemma FirstDipWeighs(p: seq<real>)
    requires IsDip(p, DIPS[0]) && |p| > 309
    ensures Weight(p, 309) == WEIGHTS[0] && Moment(p, 309) == MOMENTS[0]
  {
    FlatBefore(p, DIPS[0], 301);
    StepAdds(p, 301, 161.0);
    StepAdds(p, 302, 94.0);
    StepAdds(p, 303, 0.0);
    StepAdds(p, 304, 0.0);
    StepAdds(p, 305, 0.0);
    StepAdds(p, 306, 0.0);
    StepAdds(p, 307, 161.0);
    StepAdds(p, 308, 94.0);
  }

  lemma SecondDipWeighs(p: seq<real>)
    requires IsDip(p, DIPS[1]) && |p| > 155
    ensures Weight(p, 155) == WEIGHTS[1] && Moment(p, 155) == MOMENTS[1]
  {
    FlatBefore(p, DIPS[1], 150);
    StepAdds(p, 150, 80.0);
    StepAdds(p, 151, 175.0);
    StepAdds(p, 152, 0.0);
    StepAdds(p, 153, 81.0);
    StepAdds(p, 154, 174.0);
  }

  lemma ShortDipWeighs(p: seq<real>, d: Dip)
    requires IsDip(p, d) && d.at > 0 && |d.samples| == 2 && |p| > d.at + 3
    requires d.samples[1] <= d.samples[0] <= 255
    ensures var (a, b, n) := ((255 - d.samples[0]) as real, (d.samples[0] - d.samples[1]) as real, d.at as real);
      Weight(p, d.at + 3) == a + b + (a + b) &&
      Moment(p, d.at + 3) == a * n + b * (n + 1.0) + (a + b) * (n + 2.0)
  {
    var a, b := (255 - d.samples[0]) as real, (d.samples[0] - d.samples[1]) as real;
    FlatBefore(p, d, d.at);
    StepAdds(p, d.at, a);
    StepAdds(p, d.at + 1, b);
    StepAdds(p, d.at + 2, a + b);
  }

  lemma DipWeighs(p: seq<real>, k: nat)
    requires k <= 4 && IsDip(p, DIPS[k]) && |p| == Side(SIZE, k)
    ensures Weight(p, |p|) == WEIGHTS[k] && Moment(p, |p|) == MOMENTS[k]
  {
    FiveLevels();
    FlatAfter(p, DIPS[k], |p|);
    if k == 0 {
      FirstDipWeighs(p);
    } else if k == 1 {
      SecondDipWeighs(p);
    } else {
      LastDipsWeigh(p, k);
    }
  }

  lemma LastDipsWeigh(p: seq<real>, k: nat)
    requires 2 <= k <= 4 && IsDip(p, DIPS[k]) && |p| > DIPS[k].at + 3
    ensures Weight(p, DIPS[k].at + 3) == WEIGHTS[k] && Moment(p, DIPS[k].at + 3) == MOMENTS[k]
  {
    ShortDipWeighs(p, DIPS[k]);
  }

  lemma BandIsDip(levels: seq<seq<nat>>, k: nat, line: nat)
    requires IsPyramid(levels, SIZE) && IsDrawn(levels[0], SIZE) && k < |levels| && k <= 4 && line < Band(k)
    ensures IsSquare(levels[k], Side(SIZE, k)) && Band(k) <= Side(SIZE, k)
    ensures IsDip(Profile(BandLuma(levels[k], Side(SIZE, k), Band(k)), Side(SIZE, k), Band(k), X, line), DIPS[k])
  {
    FiveLevels();
    BandByte(levels, k, 0, line);
    var p := Profile(BandLuma(levels[k], Side(SIZE, k), Band(k)), Side(SIZE, k), Band(k), X, line);
    forall i: nat | i < |p| ensures p[i] == InDip(DIPS[k], i) as real {
      BandByte(levels, k, i, line);
    }
  }

  lemma BandByte(levels: seq<seq<nat>>, k: nat, x: nat, line: nat)
    requires IsPyramid(levels, SIZE) && IsDrawn(levels[0], SIZE) && k < |levels| && k <= 4
    requires x < Side(SIZE, k) && line < Band(k) <= Side(SIZE, k)
    ensures IsSquare(levels[k], Side(SIZE, k))
    ensures Sample(BandLuma(levels[k], Side(SIZE, k), Band(k)), Side(SIZE, k), Band(k), x, line) == InDip(DIPS[k], x) as real
  {
    BandMissesRed(k, line);
    LevelsAreRows(levels, k);
    RowIsDip(k, x);
    GreySample(levels[k], Side(SIZE, k), Band(k), x, line, RowByte(k, x));
  }

  lemma GreySample(px: seq<nat>, size: nat, rows: nat, x: nat, y: nat, v: nat)
    requires IsSquare(px, size) && rows <= size && x < size && y < rows
    requires Pixel(px, size, 0, x, y) == v && Pixel(px, size, 1, x, y) == v && Pixel(px, size, 2, x, y) == v
    ensures Sample(BandLuma(px, size, rows), size, rows, x, y) == v as real
  {
    BandSample(px, size, rows, x, y);
    LumaStaysBetween(v, v, v, v, v);
  }

  /** How far from the truth the line of the control is found at each level. */
  const DISPLACEMENTS: seq<real> := [0.7 / 510.0, 0.35 / 510.0, 7.41 / 428.0, 14.1025 / 214.0, 9.54875 / 106.0]

  /** What a lossless codec's row reports: exactly these displacements, at none of
      the five levels zero and at each of them under a tenth of a pixel. */
  lemma BytesMoveTheLine(levels: seq<seq<nat>>, k: nat)
    requires IsPyramid(levels, SIZE) && IsDrawn(levels[0], SIZE) && k < |levels| && k <= 4
    ensures IsSquare(levels[k], Side(SIZE, k)) && Band(k) <= Side(SIZE, k)
    ensures Displacement(BandLuma(levels[k], Side(SIZE, k), Band(k)), Side(SIZE, k), Band(k), X, Shrunk(LINE_LEFT + LINE_WIDTH / 2.0, k)) ==
            Some(DISPLACEMENTS[k])
    ensures 0.0 < DISPLACEMENTS[k] < 0.1
  {
    EdgesAtLevel(k);
    BandIsDip(levels, k, 0);
    BandIsFoundAt(levels, k, MOMENTS[k] / WEIGHTS[k]);
    CentreShrinks(k);
    OffTheTruth(k);
  }

  lemma BandIsFoundAt(levels: seq<seq<nat>>, k: nat, at: real)
    requires IsPyramid(levels, SIZE) && IsDrawn(levels[0], SIZE) && k < |levels| && k <= 4
    requires IsSquare(levels[k], Side(SIZE, k)) && 2 <= Band(k) <= Side(SIZE, k) && at == MOMENTS[k] / WEIGHTS[k]
    ensures Position(BandLuma(levels[k], Side(SIZE, k), Band(k)), Side(SIZE, k), Band(k), X) == Some(at)
  {
    var w, h := Side(SIZE, k), Band(k);
    var luma := BandLuma(levels[k], w, h);
    forall line: nat | line < h ensures LineFinds(luma, w, h, X, line, at) {
      BandIsDip(levels, k, line);
      DipWeighs(Profile(luma, w, h, X, line), k);
    }
    PositionOfAlike(luma, w, h, X, at);
  }

  lemma OffTheTruth(k: nat)
    requires k <= 4
    ensures Abs(MOMENTS[k] / WEIGHTS[k] - (Shrunk(LINE_LEFT, k) + Shrunk(LINE_RIGHT, k)) / 2.0) == DISPLACEMENTS[k]
    ensures 0.0 < DISPLACEMENTS[k] < 0.1
  {
    FiveLevels();
  }
}
