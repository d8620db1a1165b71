/** The search for the cell whose archive root stops just under the cutoff, and
    the text form of a cell. */
module Brink {
  import opened Words
  import opened Decimals

  /** The most entries a root directory takes without leaves. */
  const LARGEST_FLAT_ROOT: nat := 16383

  const WIDTHS: seq<nat> := [256, 512, 1024, 2048, 4096]

  datatype Cell = Cell(width: nat, height: nat, tilePx: nat, tiles: nat)

  /** How many tiles the planner lays out for a tile size and a canvas, none when
      it refuses. */
  type Planner = (nat, nat, nat) -> Option<nat>

  predicate Fits(planned: Planner, t: nat, w: nat, h: nat) {
    planned(t, w, h).Some? && planned(t, w, h).value <= LARGEST_FLAT_ROOT
  }

  /** The cells the search is over: every tile size from 16 to 256, five widths,
      heights from the width to twice the width. */
  predicate IsCandidate(t: nat, w: nat, h: nat) {
    16 <= t <= 256 && w in WIDTHS && w <= h <= 2 * w
  }

  /** Among the candidates of one tile size and width, one shorter than one that
      fits fits too, with no more tiles. */
  ghost predicate IsMonotone(planned: Planner) {
    forall t, w, h, k :: IsCandidate(t, w, h) && h <= k <= 2 * w && Fits(planned, t, w, k) ==>
      Fits(planned, t, w, h) && planned(t, w, h).value <= planned(t, w, k).value
  }

  /** Bisect, keeping a fitting lower end. For a monotone planner the end is the
      tallest canvas that fits. */
  method Tallest(planned: Planner, t: nat, w: nat) returns (low: nat)
    requires IsCandidate(t, w, w) && Fits(planned, t, w, w)
    ensures w <= low <= 2 * w && Fits(planned, t, w, low)
    ensures IsMonotone(planned) ==> forall h :: low < h <= 2 * w ==> !Fits(planned, t, w, h)
  {
    low := w;
    var high := 2 * w;
    while low < high
      invariant w <= low <= high <= 2 * w && Fits(planned, t, w, low)
      invariant IsMonotone(planned) ==> forall h :: high < h <= 2 * w ==> !Fits(planned, t, w, h)
      decreases high - low
    {
      var mid := low + (high - low + 1) / 2;
      if Fits(planned, t, w, mid) {
        low := mid;
      } else {
        high := mid - 1;
      }
    }
  }

  /** A candidate that fits, with its tile count. */
  ghost predicate IsFound(planned: Planner, c: Cell) {
    IsCandidate(c.tilePx, c.width, c.height) && planned(c.tilePx, c.width, c.height) == Some(c.tiles) &&
    c.tiles <= LARGEST_FLAT_ROOT
  }

  /** Of the candidates looked at, those of smaller tile sizes and at this tile
      size of the widths before `i`: there is a best cell so far when a square one
      fits and, for a monotone planner, none that fits has more tiles. */
  ghost predicate IsBestOf(planned: Planner, best: Option<Cell>, t: nat, i: nat) {
    (best.Some? ==> IsFound(planned, best.value)) &&
    forall u, j, h ::
      (16 <= u <= 256 && 0 <= j < |WIDTHS| && (u < t || (u == t && j < i)) &&
       WIDTHS[j] <= h <= 2 * WIDTHS[j] && Fits(planned, u, WIDTHS[j], h)) ==>
      (h == WIDTHS[j] ==> best.Some?) &&
      (IsMonotone(planned) ==> best.Some? && planned(u, WIDTHS[j], h).value <= best.value.tiles)
  }

  method SearchWidth(planned: Planner, t: nat, i: nat, before: Option<Cell>) returns (best: Option<Cell>)
    requires 16 <= t <= 256 && i < |WIDTHS| && IsBestOf(planned, before, t, i)
    ensures IsBestOf(planned, best, t, i + 1)
  {
    best := before;
    var w := WIDTHS[i];
    assert forall h :: w <= h <= 2 * w ==> IsCandidate(t, w, h);
    if !Fits(planned, t, w, w) { return; }
    var h := Tallest(planned, t, w);
    var tiles := planned(t, w, h).value;
    if best.None? || tiles > best.value.tiles {
      best := Some(Cell(w, h, t, tiles));
    }
  }

  /** `brink_search`: a candidate that fits, whatever the planner; none only when
      no square candidate fits. For a monotone planner no candidate that fits has
      more tiles. */
  method BrinkSearch(planned: Planner) returns (best: Option<Cell>)
    ensures best.Some? ==> IsFound(planned, best.value)
    ensures best.None? ==> forall t, w :: IsCandidate(t, w, w) ==> !Fits(planned, t, w, w)
    ensures IsMonotone(planned) ==> forall t, w, h :: IsCandidate(t, w, h) && Fits(planned, t, w, h) ==>
      best.Some? && planned(t, w, h).value <= best.value.tiles
  {
    best := None;
    var t := 16;
    while t <= 256
      invariant 16 <= t <= 257 && IsBestOf(planned, best, t, 0)
    {
      var i := 0;
      while i < |WIDTHS|
        invariant i <= |WIDTHS| && IsBestOf(planned, best, t, i)
      {
        best := SearchWidth(planned, t, i, best);
        i := i + 1;
      }
      t := t + 1;
    }
    forall u, w, h | IsCandidate(u, w, h) && Fits(planned, u, w, h)
      ensures h == w ==> best.Some?
      ensures IsMonotone(planned) ==> best.Some? && planned(u, w, h).value <= best.value.tiles
    {
      var j :| 0 <= j < |WIDTHS| && WIDTHS[j] == w;
    }
  }

  // ---- the text form of a cell --------------------------------------------

  datatype Source = Gradient | Noise | Flat | PeriodicGradient

  function SourceText(s: Source): string {
    match s
    case Gradient => "gradient"
    case Noise => "noise"
    case Flat => "flat"
    case PeriodicGradient => "periodic-gradient"
  }

  function ParseSource(s: string): Option<Source> {
    if s == "gradient" then Some(Gradient)
    else if s == "noise" then Some(Noise)
    else if s == "flat" then Some(Flat)
    else if s == "periodic-gradient" then Some(PeriodicGradient)
    else None
  }

  /** Split at the first occurrence of `c`. */
  function SplitOnce(s: string, c: char): (r: Option<(string, string)>)
    ensures r.None? <==> c !in s
    ensures r.Some? ==> s == r.value.0 + [c] + r.value.1 && c !in r.value.0
  {
    if s == "" then None
    else if s[0] == c then Some(("", s[1..]))
    else
      var rest := SplitOnce(s[1..], c);
      if rest.None? then None else Some(([s[0]] + rest.value.0, rest.value.1))
  }

  lemma {:induction false} SplitAt(a: string, c: char, b: string)
    requires c !in a
    ensures SplitOnce(a + [c] + b, c) == Some((a, b))
  {
    var s := a + [c] + b;
    if a == "" {
      assert s[0] == c && s[1..] == b;
    } else {
      assert s[0] == a[0] && s[1..] == a[1..] + [c] + b;
      SplitAt(a[1..], c, b);
      assert [a[0]] + a[1..] == a;
    }
  }

  const U32_MAX: nat := 0xFFFF_FFFF

  /** A decimal number that fits 32 bits; a leading plus sign is taken. */
  function ParseU32(s: string): Option<nat> {
    var digits := if |s| > 0 && s[0] == '+' then s[1..] else s;
    if digits == "" || !(forall i :: 0 <= i < |digits| ==> IsDigit(digits[i])) || DigitsOf(digits) > U32_MAX then None
    else Some(DigitsOf(digits))
  }

  function DigitsOf(s: string): nat
    requires forall i :: 0 <= i < |s| ==> IsDigit(s[i])
  {
    if s == "" then 0 else 10 * DigitsOf(s[..|s| - 1]) + DigitValue(s[|s| - 1])
  }

  lemma {:induction false} DigitsOfText(n: nat)
    ensures DigitsOf(NatText(n)) == n
  {
    if n >= 10 {
      var s := NatText(n);
      assert s[..|s| - 1] == NatText(n / 10);
      DigitsOfText(n / 10);
    }
  }

  datatype Spec = Spec(width: nat, height: nat, tilePx: nat, source: Source)

  /** `<width>x<height>@<tile>+<source>`. */
  function SpecText(c: Spec): string {
    NatText(c.width) + ['x'] + NatText(c.height) + ['@'] + NatText(c.tilePx) + ['+'] + SourceText(c.source)
  }

  /** Split at the plus, the at and the x, in that order; every part must read. */
  function ParseSpec(s: string): Option<Spec> {
    var a := SplitOnce(s, '+');
    if a.None? then None
    else
      var (canvas, source) := (ParseCanvas(a.value.0), ParseSource(a.value.1));
      if canvas.Some? && source.Some?
      then Some(Spec(canvas.value.0, canvas.value.1, canvas.value.2, source.value))
      else None
  }

  function ParseCanvas(s: string): Option<(nat, nat, nat)> {
    var b := SplitOnce(s, '@');
    if b.None? then None
    else
      var (dims, t) := (ParseDims(b.value.0), ParseU32(b.value.1));
      if dims.Some? && t.Some? then Some((dims.value.0, dims.value.1, t.value)) else None
  }

  function ParseDims(s: string): Option<(nat, nat)> {
    var c := SplitOnce(s, 'x');
    if c.None? then None
    else
      var (w, h) := (ParseU32(c.value.0), ParseU32(c.value.1));
      if w.Some? && h.Some? then Some((w.value, h.value)) else None
  }

  lemma TextReads(n: nat)
    requires n <= U32_MAX
    ensures ParseU32(NatText(n)) == Some(n)
    ensures forall c :: c in NatText(n) ==> IsDigit(c)
  {
    DigitsOfText(n);
    assert IsDigit(NatText(n)[0]);
  }

  lemma DimsReadBack(w: nat, h: nat, dims: string)
    requires w <= U32_MAX && h <= U32_MAX && dims == NatText(w) + ['x'] + NatText(h)
    ensures ParseDims(dims) == Some((w, h))
    ensures forall c :: c in dims ==> IsDigit(c) || c == 'x'
  {
    TextReads(w);
    TextReads(h);
    SplitAt(NatText(w), 'x', NatText(h));
  }

  lemma CanvasReadsBack(w: nat, h: nat, t: nat, dims: string, canvas: string)
    requires w <= U32_MAX && h <= U32_MAX && t <= U32_MAX
    requires dims == NatText(w) + ['x'] + NatText(h) && canvas == dims + ['@'] + NatText(t)
    ensures ParseCanvas(canvas) == Some((w, h, t))
    ensures forall c :: c in canvas ==> IsDigit(c) || c == 'x' || c == '@'
  {
    DimsReadBack(w, h, dims);
    TextReads(t);
    SplitAt(dims, '@', NatText(t));
  }

  lemma SourceReadsBack(s: Source)
    ensures ParseSource(SourceText(s)) == Some(s)
  {
  }

  /** What a parent writes for its child, the child reads back. */
  lemma SpecReadsBack(c: Spec)
    requires c.width <= U32_MAX && c.height <= U32_MAX && c.tilePx <= U32_MAX
    ensures ParseSpec(SpecText(c)) == Some(c)
  {
    var dims := NatText(c.width) + ['x'] + NatText(c.height);
    var canvas := dims + ['@'] + NatText(c.tilePx);
    CanvasReadsBack(c.width, c.height, c.tilePx, dims, canvas);
    SourceReadsBack(c.source);
    SplitAt(canvas, '+', SourceText(c.source));
  }

  // ---- the coordinates a plan covers --------------------------------------

  datatype PlanLevel = PlanLevel(level: nat, rows: nat, cols: nat)

  datatype Coord = Coord(level: nat, row: nat, col: nat)

  predicate Precedes(a: Coord, b: Coord) {
    a.level < b.level || (a.level == b.level && (a.row < b.row || (a.row == b.row && a.col < b.col)))
  }

  predicate IsAscending(levels: seq<PlanLevel>) {
    forall i, j :: 0 <= i < j < |levels| ==> levels[i].level < levels[j].level
  }

  ghost predicate IsCovered(levels: seq<PlanLevel>, c: Coord) {
    exists i :: 0 <= i < |levels| && levels[i].level == c.level && c.row < levels[i].rows && c.col < levels[i].cols
  }

  /** The list is in level, row, column order, so nothing is in it twice. */
  ghost predicate InOrder(out: seq<Coord>) {
    forall i, j :: 0 <= i < j < |out| ==> Precedes(out[i], out[j])
  }

  /** `coordinates`: exactly the tiles of the plan; when its levels ascend, each
      once, in level, row, column order. */
  method Coordinates(levels: seq<PlanLevel>) returns (out: seq<Coord>)
    ensures forall c :: c in out <==> IsCovered(levels, c)
    ensures IsAscending(levels) ==> InOrder(out)
  {
    out := [];
    var i := 0;
    while i < |levels|
      invariant i <= |levels| && (IsAscending(levels) ==> InOrder(out))
      invariant forall c :: c in out <==> IsCovered(levels[..i], c)
    {
      var before := out;
      forall c | c in before && IsAscending(levels) ensures c.level < levels[i].level {
        assert IsCovered(levels[..i], c);
      }
      out := AddLevel(before, levels[i]);
      forall c ensures c in out <==> IsCovered(levels[..i + 1], c) {
        assert levels[..i + 1] == levels[..i] + [levels[i]];
        assert IsCovered(levels[..i + 1], c) <==>
          IsCovered(levels[..i], c) || (levels[i].level == c.level && c.row < levels[i].rows && c.col < levels[i].cols) by {
          if levels[i].level == c.level && c.row < levels[i].rows && c.col < levels[i].cols {
            assert levels[..i + 1][i] == levels[i];
          }
          if IsCovered(levels[..i], c) {
            var k :| 0 <= k < i && levels[k].level == c.level && c.row < levels[k].rows && c.col < levels[k].cols;
            assert levels[..i + 1][k] == levels[k];
          }
        }
      }
      i := i + 1;
    }
    assert levels[..i] == levels;
  }

  predicate IsBelow(cs: seq<Coord>, level: nat) {
    forall c :: c in cs ==> c.level < level
  }

  method AddLevel(before: seq<Coord>, level: PlanLevel) returns (out: seq<Coord>)
    ensures InOrder(before) && IsBelow(before, level.level) ==> InOrder(out)
    ensures forall c :: c in out <==> c in before || (c.level == level.level && c.row < level.rows && c.col < level.cols)
  {
    out := before;
    var row := 0;
    while row < level.rows
      invariant row <= level.rows && (InOrder(before) && IsBelow(before, level.level) ==> InOrder(out))
      invariant forall c :: c in out <==> c in before || (c.level == level.level && c.row < row && c.col < level.cols)
    {
      var col := 0;
      while col < level.cols
        invariant col <= level.cols && (InOrder(before) && IsBelow(before, level.level) ==> InOrder(out))
        invariant forall c :: c in out <==>
          c in before || (c.level == level.level && c.col < level.cols && (c.row < row || (c.row == row && c.col < col)))
      {
        var next := Coord(level.level, row, col);
        forall i | 0 <= i < |out| && IsBelow(before, level.level) ensures Precedes(out[i], next) { assert out[i] in out; }
        out := out + [next];
        col := col + 1;
      }
      row := row + 1;
    }
  }
}
