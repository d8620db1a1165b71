/** A line between two fractional edges, sampled by area: how much of it each
    pixel holds, what its gradients weigh, and where their centroid is found
    against where the line really is. */
module LineEdges {
  import opened Words
  import opened Grid
  import opened Edge

  /** The share of pixel `i` between `left` and `right`. */
  function Cover(left: real, right: real, i: nat): real {
    MaxR(0.0, MinR(right, i as real + 1.0) - MaxR(left, i as real))
  }

  /** Profiles that start at nothing, rise up to `m` and fall after it, with the
      running totals before each sample. */
  predicate IsHill(v: seq<real>, totals: seq<real>, m: nat) {
    m < |v| == |totals| && v[0] == 0.0 && totals[0] == 0.0 &&
    (forall i :: 0 < i < |v| ==> totals[i] == totals[i - 1] + v[i - 1]) &&
    (forall i :: 0 < i <= m ==> v[i - 1] <= v[i]) &&
    (forall i :: m < i < |v| ==> v[i] <= v[i - 1])
  }

  /** Up to the top. */
  lemma {:induction false} RisingSums(v: seq<real>, totals: seq<real>, m: nat, n: nat)
    requires IsHill(v, totals, m) && 0 < n <= m + 1
    ensures Weight(v, n) == v[n - 1]
    ensures Moment(v, n) == Multiple(n - 1, v[n - 1]) - totals[n - 1]
  {
    if n > 1 {
      RisingSums(v, totals, m, n - 1);
      MultipleOfDifference(n - 1, v[n - 1], v[n - 2]);
    }
  }

  /** And down from it. */
  lemma {:induction false} FallingSums(v: seq<real>, totals: seq<real>, m: nat, n: nat)
    requires IsHill(v, totals, m) && m + 1 <= n <= |v|
    ensures Weight(v, n) == 2.0 * v[m] - v[n - 1]
    ensures Moment(v, n) == 2.0 * Multiple(m, v[m]) + totals[n - 1] - 2.0 * totals[m] - Multiple(n - 1, v[n - 1])
  {
    if n == m + 1 {
      RisingSums(v, totals, m, n);
    } else {
      FallingSums(v, totals, m, n - 1);
      MultipleOfDifference(n - 1, v[n - 2], v[n - 1]);
    }
  }

  /** A hill that comes back down to nothing weighs twice its top. */
  lemma HillSums(v: seq<real>, totals: seq<real>, m: nat)
    requires IsHill(v, totals, m) && v[|v| - 1] == 0.0
    ensures Weight(v, |v|) == 2.0 * v[m]
    ensures Moment(v, |v|) == 2.0 * Multiple(m, v[m]) + totals[|v| - 1] - 2.0 * totals[m]
  {
    FallingSums(v, totals, m, |v|);
    MultipleOfNothing(|v| - 1);
  }

  lemma {:induction false} MultipleOfNothing(n: nat)
    ensures Multiple(n, 0.0) == 0.0
  {
    if n > 0 { MultipleOfNothing(n - 1); }
  }

  function Covers(left: real, right: real, len: nat): (v: seq<real>)
    ensures |v| == len
    ensures forall i: nat :: i < len ==> v[i] == Cover(left, right, i)
  {
    seq(len, i requires 0 <= i < len => Cover(left, right, i))
  }

  /** How much of the line lies before boundary `n`. */
  function Before(left: real, right: real, n: nat): real {
    MaxR(0.0, MinR(right, n as real) - left)
  }

  function Befores(left: real, right: real, len: nat): (v: seq<real>)
    ensures |v| == len
    ensures forall i: nat :: i < len ==> v[i] == Before(left, right, i)
  {
    seq(len, i requires 0 <= i < len => Before(left, right, i))
  }

  /** The pixel the line covers most. */
  function Mode(left: real, right: real): nat
    requires 0.0 <= left < right
  {
    var j := left.Floor;
    if right <= (j + 1) as real then j
    else if right - (j + 1) as real > (j + 1) as real - left then j + 1
    else j
  }

  lemma CoversAreAHill(left: real, right: real, len: nat)
    requires 1.0 <= left < right <= (len - 1) as real && len >= 2
    ensures IsHill(Covers(left, right, len), Befores(left, right, len), Mode(left, right))
    ensures Cover(left, right, len - 1) == 0.0 && Before(left, right, len - 1) == right - left
  {
  }

  predicate IsWhole(x: real) {
    x == x.Floor as real
  }

  lemma WholeBetween(x: real, k: int)
    requires k as real - 1.0 < x < k as real + 1.0
    ensures IsWhole(x) <==> x == k as real
  {
    var f := x.Floor;
    assert f >= k + 1 ==> f as real >= (k + 1) as real;
    assert f <= k - 1 ==> f as real <= (k - 1) as real;
  }

  /** The centroid's numerator is the centre's, in units of the top. */
  predicate Balances(peak: real, s: real, rest: real) {
    peak * s == rest
  }

  lemma TimesSame(p: real, s: real)
    ensures Balances(p, s, s) <==> p == 1.0 || s == 0.0
  {
    assert p * s - s == (p - 1.0) * s;
  }

  lemma TimesOne(p: real, s: real)
    requires p > 0.0
    ensures Balances(p, s, p) <==> s == 1.0
  {
    NoFactor(s - 1.0, p);
    assert (s - 1.0) * p == p * s - p;
  }

  lemma TwoShares(a: real, b: real)
    requires 0.0 < a < 1.0
    ensures Balances(a, 2.0 - a + b, a + b) <==> a == b
  {
    var x, y := a - b, 1.0 - a;
    NoFactor(x, y);
    assert x * y == (a - b) - (a - b) * a;
    assert (a - b) * a == a * a - b * a;
    assert a * (2.0 - a + b) == 2.0 * a - a * a + a * b;
  }

  lemma NoFactor(x: real, y: real)
    requires y > 0.0
    ensures x * y == 0.0 <==> x == 0.0
  {
  }

  lemma FloorIsBelow(x: real) returns (j: int)
    ensures j == x.Floor && j as real <= x < j as real + 1.0
  {
    j := x.Floor;
  }

  /** Where the line lies in the pixels around its left edge. */
  lemma CoverByCase(left: real, right: real, j: nat, i: nat)
    requires 0.0 <= left < right && j == left.Floor && j as real <= left < j as real + 1.0
    ensures i < j ==> Cover(left, right, i) == 0.0
    ensures right <= j as real + 1.0 ==> Cover(left, right, i) == if i == j then right - left else 0.0
    ensures right > j as real + 1.0 && i == j ==> Cover(left, right, i) == j as real + 1.0 - left
    ensures right > j as real + 1.0 && i == j + 1 ==> Cover(left, right, i) == MinR(right - j as real - 1.0, 1.0)
    ensures i > j + 1 && right <= j as real + 2.0 ==> Cover(left, right, i) == 0.0
    ensures 0.0 <= Cover(left, right, i) <= 1.0
  {
    if i < j { assert i as real + 1.0 <= j as real; }
    if i > j { assert i as real >= j as real + 1.0; }
    if i > j + 1 { assert i as real >= j as real + 2.0; }
  }

  /** The top is the largest cover. */
  lemma ModeIsTop(left: real, right: real, i: nat)
    requires 0.0 <= left < right
    ensures var peak := Cover(left, right, Mode(left, right)); 0.0 < peak <= 1.0 && Cover(left, right, i) <= peak
  {
    var j := FloorIsBelow(left);
    CoverByCase(left, right, j, i);
    CoverByCase(left, right, j, Mode(left, right));
  }

  /** How far the centroid's numerator lies from the centre's, in units of the
      top: nothing exactly when a pixel is covered or the centre lies on a
      boundary or in the middle of a pixel. */
  lemma PeakDecides(left: real, right: real)
    requires 0.0 <= left < right
    ensures var m := Mode(left, right); var peak := Cover(left, right, m);
      Balances(peak, left + right - 2.0 * m as real, (right - left) - 2.0 * Before(left, right, m)) <==>
      (peak == 1.0 || IsWhole(left + right))
  {
    var j := FloorIsBelow(left);
    var m := Mode(left, right);
    CoverByCase(left, right, j, m);
    var peak := Cover(left, right, m);
    if left <= m as real {
      AtOrPastLeft(left, right, m, peak);
    } else if right <= j as real + 1.0 {
      OnePixel(left, right, j);
    } else {
      TwoPixels(left, right, j);
    }
  }

  lemma AtOrPastLeft(left: real, right: real, m: nat, peak: real)
    requires 0.0 <= left < right && m == Mode(left, right) && left <= m as real && peak == Cover(left, right, m)
    ensures Balances(peak, left + right - 2.0 * m as real, (right - left) - 2.0 * Before(left, right, m)) <==>
            (peak == 1.0 || IsWhole(left + right))
  {
    var j := FloorIsBelow(left);
    CoverByCase(left, right, j, m);
    var s := left + right - 2.0 * m as real;
    assert (right - left) - 2.0 * Before(left, right, m) == s;
    TimesSame(peak, s);
    if peak < 1.0 {
      assert 0.0 < s < 1.0;
      assert (2 * m) as real == 2.0 * m as real;
      WholeBetween(left + right, 2 * m);
    }
  }

  lemma OnePixel(left: real, right: real, j: nat)
    requires 0.0 <= left < right && j == Mode(left, right) && j as real < left < right <= j as real + 1.0
    ensures var peak := Cover(left, right, j);
      Balances(peak, left + right - 2.0 * j as real, (right - left) - 2.0 * Before(left, right, j)) <==>
      (peak == 1.0 || IsWhole(left + right))
  {
    var peak := Cover(left, right, j);
    assert peak == right - left && (right - left) - 2.0 * Before(left, right, j) == peak;
    TimesOne(peak, left + right - 2.0 * j as real);
    assert (2 * j + 1) as real == 2.0 * j as real + 1.0;
    WholeBetween(left + right, 2 * j + 1);
  }

  lemma TwoPixels(left: real, right: real, j: nat)
    requires 0.0 <= left < right && j == Mode(left, right) && j as real < left < j as real + 1.0 < right
    ensures var peak := Cover(left, right, j);
      Balances(peak, left + right - 2.0 * j as real, (right - left) - 2.0 * Before(left, right, j)) <==>
      (peak == 1.0 || IsWhole(left + right))
  {
    var a, b := j as real + 1.0 - left, right - j as real - 1.0;
    TwoShares(a, b);
    assert left + right - 2.0 * j as real == 2.0 - a + b;
    assert (right - left) - 2.0 * Before(left, right, j) == a + b;
    assert (2 * j + 2) as real == 2.0 * j as real + 2.0;
    WholeBetween(left + right, 2 * j + 2);
  }

  // ---- the measured line --------------------------------------------------

  predicate ScaledAt(v: seq<real>, d: real, u: seq<real>, i: nat)
    requires i < |v| == |u|
  {
    v[i] == d * u[i]
  }

  predicate IsScaled(v: seq<real>, d: real, u: seq<real>) {
    |v| == |u| && forall i: nat :: i < |u| ==> ScaledAt(v, d, u, i)
  }

  function Scale(d: real, u: seq<real>): (v: seq<real>)
    ensures IsScaled(v, d, u)
  {
    var v := seq(|u|, i requires 0 <= i < |u| => d * u[i]);
    assert forall i: nat :: i < |u| ==> ScaledAt(v, d, u, i);
    v
  }

  lemma ScaledSum(d: real, x: real, y: real)
    ensures d * (x + y) == d * x + d * y
  {
  }

  lemma ScaledHill(d: real, u: seq<real>, totals: seq<real>, m: nat, v: seq<real>, t: seq<real>)
    requires d > 0.0 && IsHill(u, totals, m) && IsScaled(v, d, u) && IsScaled(t, d, totals)
    ensures IsHill(v, t, m)
  {
    assert d * 0.0 == 0.0;
    assert ScaledAt(v, d, u, 0) && ScaledAt(t, d, totals, 0);
    forall i | 0 < i < |v| ensures t[i] == t[i - 1] + v[i - 1] {
      assert ScaledAt(t, d, totals, i) && ScaledAt(t, d, totals, i - 1) && ScaledAt(v, d, u, i - 1);
      ScaledSum(d, totals[i - 1], u[i - 1]);
    }
    forall i | 0 < i < |v| ensures (u[i - 1] <= u[i] ==> v[i - 1] <= v[i]) && (u[i] <= u[i - 1] ==> v[i] <= v[i - 1]) {
      assert ScaledAt(v, d, u, i) && ScaledAt(v, d, u, i - 1);
      ScaledOrder(d, u[i], u[i - 1]);
      ScaledOrder(d, u[i - 1], u[i]);
    }
  }

  predicate BlendAt(p: seq<real>, from: real, to: real, u: seq<real>, i: nat)
    requires i < |p| == |u|
  {
    p[i] == from + (to - from) * u[i]
  }

  predicate IsBlend(p: seq<real>, from: real, to: real, u: seq<real>) {
    |p| == |u| && forall i: nat :: i < |p| ==> BlendAt(p, from, to, u, i)
  }

  /** A line of one value on a field of another, sampled by area. */
  predicate IsLine(p: seq<real>, from: real, to: real, left: real, right: real) {
    IsBlend(p, from, to, Covers(left, right, |p|))
  }

  lemma BlendStepIsScaled(p: seq<real>, from: real, to: real, u: seq<real>, v: seq<real>, i: nat)
    requires 0 < i < |p| && IsBlend(p, from, to, u) && IsScaled(v, Abs(to - from), u)
    ensures Step(p, i) == Step(v, i)
  {
    assert BlendAt(p, from, to, u, i) && BlendAt(p, from, to, u, i - 1);
    assert ScaledAt(v, Abs(to - from), u, i) && ScaledAt(v, Abs(to - from), u, i - 1);
    StepOfBlend(from, to, u[i], u[i - 1], Abs(to - from), v[i], v[i - 1]);
  }

  lemma BlendSumsAreScaled(p: seq<real>, from: real, to: real, u: seq<real>, v: seq<real>)
    requires IsBlend(p, from, to, u) && IsScaled(v, Abs(to - from), u)
    ensures Weight(p, |p|) == Weight(v, |p|) && Moment(p, |p|) == Moment(v, |p|)
  {
    forall i: nat | 0 < i < |p| ensures Step(p, i) == Step(v, i) {
      BlendStepIsScaled(p, from, to, u, v, i);
    }
    SameStepsSameSums(p, v, |p|);
  }

  lemma HillWeighs(p: seq<real>, from: real, to: real, d: real, u: seq<real>, totals: seq<real>, m: nat,
                   v: seq<real>, t: seq<real>)
    requires IsBlend(p, from, to, u) && d == Abs(to - from) && d > 0.0 && IsHill(u, totals, m) && u[|u| - 1] == 0.0
    requires IsScaled(v, d, u) && IsScaled(t, d, totals)
    ensures Weight(p, |p|) == 2.0 * v[m] && Moment(p, |p|) == 2.0 * Multiple(m, v[m]) + t[|t| - 1] - 2.0 * t[m]
  {
    BlendSumsAreScaled(p, from, to, u, v);
    ScaledHill(d, u, totals, m, v, t);
    ScaledEnd(d, u, v);
    HillSums(v, t, m);
  }

  lemma ScaledEnd(d: real, u: seq<real>, v: seq<real>)
    requires |u| > 0 && u[|u| - 1] == 0.0 && IsScaled(v, d, u)
    ensures v[|u| - 1] == 0.0
  {
    assert d * 0.0 == 0.0;
    assert ScaledAt(v, d, u, |u| - 1);
  }

  /** A line weighs twice the contrast of its darkest pixel. */
  lemma LineWeighs(p: seq<real>, from: real, to: real, d: real, left: real, right: real, m: nat)
    returns (v: seq<real>, t: seq<real>)
    requires IsLine(p, from, to, left, right) && d == Abs(to - from) && d > 0.0
    requires |p| >= 2 && 1.0 <= left < right <= (|p| - 1) as real && m == Mode(left, right)
    ensures IsScaled(v, d, Covers(left, right, |p|)) && IsScaled(t, d, Befores(left, right, |p|))
    ensures m < |p| && Before(left, right, |p| - 1) == right - left
    ensures Weight(p, |p|) == 2.0 * v[m] && Moment(p, |p|) == 2.0 * Multiple(m, v[m]) + t[|t| - 1] - 2.0 * t[m]
  {
    CoversAreAHill(left, right, |p|);
    var u, totals := Covers(left, right, |p|), Befores(left, right, |p|);
    v, t := Scale(d, u), Scale(d, totals);
    HillWeighs(p, from, to, d, u, totals, m, v, t);
  }

  lemma Associate(d: real, x: real, y: real)
    ensures (d * x) * y == d * (x * y)
  {
  }

  lemma CancelFactor(d: real, x: real, y: real)
    requires d > 0.0
    ensures d * x == d * y <==> x == y
  {
    Distribute(d, x, y);
    NoFactor(x - y, d);
    assert (x - y) * d == d * (x - y);
  }

  lemma QuotientIs(n: real, w: real, q: real)
    requires w > 0.0
    ensures n / w == q <==> n == w * q
  {
    var r := n / w;
    assert n == w * r;
    CancelFactor(w, r, q);
  }

  /** Comparing the centroid with the centre comes down to the top. */
  lemma CentreOrNot(d: real, peak: real, m: nat, left: real, right: real, before: real, top: real, span: real, low: real)
    requires d > 0.0 && peak > 0.0
    requires top == d * peak && span == d * (right - left) && low == d * before
    ensures top > 0.0
    ensures (2.0 * Multiple(m, top) + span - 2.0 * low) / (2.0 * top) == (left + right) / 2.0 <==>
            Balances(peak, left + right - 2.0 * m as real, (right - left) - 2.0 * before)
  {
    var s, rest := left + right - 2.0 * m as real, (right - left) - 2.0 * before;
    var moment := 2.0 * Multiple(m, top) + span - 2.0 * low;
    Positive(d, peak);
    MultipleIsProduct(m, top);
    QuotientIs(moment, 2.0 * top, (left + right) / 2.0);
    assert (2.0 * top) * ((left + right) / 2.0) == top * (left + right);
    Distribute(top, left + right, 2.0 * m as real);
    assert top * (2.0 * m as real) == 2.0 * (top * m as real);
    Distribute(d, right - left, 2.0 * before);
    assert d * (2.0 * before) == 2.0 * (d * before);
    assert moment == top * (left + right) <==> d * rest == top * s;
    Associate(d, peak, s);
    CancelFactor(d, rest, peak * s);
  }

  lemma Positive(x: real, y: real)
    requires x > 0.0 && y > 0.0
    ensures x * y > 0.0
  {
  }

  /** A line sampled by area, found at all, is found at its centre exactly when
      it covers some pixel whole or its centre lies on a pixel's boundary or in
      the middle of a pixel. */
  lemma LineIsFoundAtItsCentre(p: seq<real>, from: real, to: real, left: real, right: real)
    requires IsLine(p, from, to, left, right) && |p| >= 2 && 1.0 <= left < right <= (|p| - 1) as real
    requires IsFound(p)
    ensures Centroid(p) == (left + right) / 2.0 <==>
            (exists i: nat :: Cover(left, right, i) == 1.0) || IsWhole(left + right)
  {
    if from == to {
      FlatLine(p, from, left, right);
    } else {
      LineBalances(p, from, to, Abs(to - from), left, right, Mode(left, right));
      PeakDecides(left, right);
      FullPixelIsTop(left, right);
    }
  }

  lemma FullPixelIsTop(left: real, right: real)
    requires 0.0 <= left < right
    ensures Cover(left, right, Mode(left, right)) == 1.0 <==> exists i: nat :: Cover(left, right, i) == 1.0
  {
    if i: nat :| Cover(left, right, i) == 1.0 { ModeIsTop(left, right, i); }
  }

  lemma LineBalances(p: seq<real>, from: real, to: real, d: real, left: real, right: real, m: nat)
    requires IsLine(p, from, to, left, right) && d == Abs(to - from) && d > 0.0
    requires |p| >= 2 && 1.0 <= left < right <= (|p| - 1) as real && m == Mode(left, right) && IsFound(p)
    ensures Centroid(p) == (left + right) / 2.0 <==>
            Balances(Cover(left, right, m), left + right - 2.0 * m as real, (right - left) - 2.0 * Before(left, right, m))
  {
    ModeIsTop(left, right, m);
    var peak, before := Cover(left, right, m), Before(left, right, m);
    var top, span, low := LineMeasures(p, from, to, d, left, right, m, peak, right - left, before);
    CentreOrNot(d, peak, m, left, right, before, top, span, low);
  }

  lemma LineMeasures(p: seq<real>, from: real, to: real, d: real, left: real, right: real, m: nat,
                     peak: real, width: real, before: real)
    returns (top: real, span: real, low: real)
    requires IsLine(p, from, to, left, right) && d == Abs(to - from) && d > 0.0
    requires |p| >= 2 && 1.0 <= left < right <= (|p| - 1) as real && m == Mode(left, right)
    requires peak == Cover(left, right, m) && width == right - left && before == Before(left, right, m)
    ensures top == d * peak && span == d * width && low == d * before
    ensures Weight(p, |p|) == 2.0 * top && Moment(p, |p|) == 2.0 * Multiple(m, top) + span - 2.0 * low
  {
    var v, t := LineWeighs(p, from, to, d, left, right, m);
    var covers, befores := Covers(left, right, |p|), Befores(left, right, |p|);
    top := ScaledValue(v, d, covers, m, peak);
    low := ScaledValue(t, d, befores, m, before);
    span := ScaledValue(t, d, befores, |p| - 1, width);
  }

  lemma ScaledValue(v: seq<real>, d: real, u: seq<real>, i: nat, x: real) returns (y: real)
    requires IsScaled(v, d, u) && i < |u| && u[i] == x
    ensures y == v[i] && y == d * x
  {
    y := v[i];
    assert ScaledAt(v, d, u, i);
  }

  lemma FlatLine(p: seq<real>, level: real, left: real, right: real)
    requires IsLine(p, level, level, left, right)
    ensures !IsFound(p)
  {
    forall i: nat | i < |p| ensures p[i] == level {
      assert BlendAt(p, level, level, Covers(left, right, |p|), i);
    }
    FlatWeighsNothing(p, level, |p|);
  }

  lemma {:induction false} FlatWeighsNothing(p: seq<real>, level: real, n: nat)
    requires n <= |p| && forall i: nat :: i < |p| ==> p[i] == level
    ensures Weight(p, n) == 0.0
  {
    if n > 1 { FlatWeighsNothing(p, level, n - 1); }
  }
}
