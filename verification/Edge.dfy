/** Where an edge is found, as the gradient-weighted centroid of the samples
    along a line, in exact arithmetic. */
module Edge {
  import opened Words
  import opened Grid

  function Abs(x: real): real {
    if x < 0.0 then -x else x
  }

  function MaxR(a: real, b: real): real {
    if a < b then b else a
  }

  function MinR(a: real, b: real): real {
    if a < b then a else b
  }

  /** `n` times `x`, by adding. */
  function Multiple(n: nat, x: real): real {
    if n == 0 then 0.0 else Multiple(n - 1, x) + x
  }

  lemma {:induction false} MultipleIsProduct(n: nat, x: real)
    ensures Multiple(n, x) == x * n as real
  {
    if n > 0 {
      MultipleIsProduct(n - 1, x);
      LessOne(n as real, x);
    }
  }

  lemma LessOne(k: real, a: real)
    ensures a * (k - 1.0) == a * k - a
  {
  }

  lemma {:induction false} MultipleOfDifference(n: nat, x: real, y: real)
    ensures Multiple(n, x - y) == Multiple(n, x) - Multiple(n, y)
  {
    if n > 0 { MultipleOfDifference(n - 1, x, y); }
  }

  // ---- the measurement ----------------------------------------------------

  datatype Axis = X | Y

  function Lines(w: nat, h: nat, axis: Axis): nat {
    if axis == X then h else w
  }

  function Length(w: nat, h: nat, axis: Axis): nat {
    if axis == X then w else h
  }

  /** The samples along one line across the edge. */
  function Profile(luma: seq<real>, w: nat, h: nat, axis: Axis, line: nat): (p: seq<real>)
    requires |luma| == w * h && line < Lines(w, h, axis)
    ensures |p| == Length(w, h, axis)
  {
    if axis == X then seq(w, i requires 0 <= i < w => Sample(luma, w, h, i, line))
    else seq(h, i requires 0 <= i < h => Sample(luma, w, h, line, i))
  }

  /** The step at boundary `i`, between samples `i - 1` and `i`. */
  function Step(p: seq<real>, i: nat): real
    requires 0 < i < |p|
  {
    Abs(p[i] - p[i - 1])
  }

  /** The steps at the boundaries before `n`, and each times its position. */
  function Weight(p: seq<real>, n: nat): real
    requires n <= |p|
  {
    if n <= 1 then 0.0 else Weight(p, n - 1) + Step(p, n - 1)
  }

  function Moment(p: seq<real>, n: nat): real
    requires n <= |p|
  {
    if n <= 1 then 0.0 else Moment(p, n - 1) + Multiple(n - 1, Step(p, n - 1))
  }

  predicate IsFound(p: seq<real>) {
    Weight(p, |p|) >= 1.0
  }

  function Centroid(p: seq<real>): real
    requires IsFound(p)
  {
    Moment(p, |p|) / Weight(p, |p|)
  }

  /** Of the first `n` lines, how many have an edge. */
  function FoundCount(luma: seq<real>, w: nat, h: nat, axis: Axis, n: nat): nat
    requires |luma| == w * h && n <= Lines(w, h, axis)
  {
    if n == 0 then 0
    else FoundCount(luma, w, h, axis, n - 1) + (if IsFound(Profile(luma, w, h, axis, n - 1)) then 1 else 0)
  }

  /** And the sum of where they have it. */
  function FoundSum(luma: seq<real>, w: nat, h: nat, axis: Axis, n: nat): real
    requires |luma| == w * h && n <= Lines(w, h, axis)
  {
    if n == 0 then 0.0
    else
      var p := Profile(luma, w, h, axis, n - 1);
      FoundSum(luma, w, h, axis, n - 1) + (if IsFound(p) then Centroid(p) else 0.0)
  }

  function Position(luma: seq<real>, w: nat, h: nat, axis: Axis): Option<real> {
    if |luma| != w * h || w < 2 || h < 2 then None
    else Average(FoundCount(luma, w, h, axis, Lines(w, h, axis)), FoundSum(luma, w, h, axis, Lines(w, h, axis)))
  }

  function Average(count: nat, sum: real): Option<real> {
    if count == 0 then None else Some(sum / count as real)
  }

  function Displacement(luma: seq<real>, w: nat, h: nat, axis: Axis, truth: real): Option<real> {
    var at := Position(luma, w, h, axis);
    if at.None? then None else Some(Abs(at.value - truth))
  }

  /** `edge_position`, line by line and boundary by boundary. */
  method EdgePosition(luma: seq<real>, w: nat, h: nat, axis: Axis) returns (at: Option<real>)
    ensures at == Position(luma, w, h, axis)
  {
    if |luma| != w * h || w < 2 || h < 2 { return None; }
    var found, sum := FindOnLines(luma, w, h, axis);
    at := Average(found, sum);
  }

  method FindOnLines(luma: seq<real>, w: nat, h: nat, axis: Axis) returns (found: nat, sum: real)
    requires |luma| == w * h && w >= 2 && h >= 2
    ensures found == FoundCount(luma, w, h, axis, Lines(w, h, axis)) && sum == FoundSum(luma, w, h, axis, Lines(w, h, axis))
  {
    var lines := if axis == X then h else w;
    sum, found := 0.0, 0;
    var line := 0;
    while line < lines
      invariant line <= lines
      invariant found == FoundCount(luma, w, h, axis, line) && sum == FoundSum(luma, w, h, axis, line)
    {
      var edge := FindOnLine(luma, w, h, axis, line);
      WithOneLine(luma, w, h, axis, line, edge);
      if edge.Some? {
        sum := sum + edge.value;
        found := found + 1;
      }
      line := line + 1;
    }
  }

  function EdgeOf(p: seq<real>): Option<real> {
    if IsFound(p) then Some(Centroid(p)) else None
  }

  lemma WithOneLine(luma: seq<real>, w: nat, h: nat, axis: Axis, line: nat, edge: Option<real>)
    requires |luma| == w * h && line < Lines(w, h, axis) && edge == EdgeOf(Profile(luma, w, h, axis, line))
    ensures FoundCount(luma, w, h, axis, line + 1) == FoundCount(luma, w, h, axis, line) + if edge.Some? then 1 else 0
    ensures FoundSum(luma, w, h, axis, line + 1) == FoundSum(luma, w, h, axis, line) + if edge.Some? then edge.value else 0.0
  {
  }

  method FindOnLine(luma: seq<real>, w: nat, h: nat, axis: Axis, line: nat) returns (edge: Option<real>)
    requires |luma| == w * h && w >= 2 && h >= 2 && line < Lines(w, h, axis)
    ensures edge == EdgeOf(Profile(luma, w, h, axis, line))
  {
    var weight, moment := WeighLine(luma, w, h, axis, line);
    edge := if weight >= 1.0 then Some(moment / weight) else None;
  }

  method WeighLine(luma: seq<real>, w: nat, h: nat, axis: Axis, line: nat) returns (weight: real, moment: real)
    requires |luma| == w * h && w >= 2 && h >= 2 && line < Lines(w, h, axis)
    ensures var p := Profile(luma, w, h, axis, line); weight == Weight(p, |p|) && moment == Moment(p, |p|)
  {
    var p := Profile(luma, w, h, axis, line);
    weight, moment := 0.0, 0.0;
    var i := 1;
    while i < |p|
      invariant 1 <= i <= |p|
      invariant weight == Weight(p, i) && moment == Moment(p, i)
    {
      var g := Abs(p[i] - p[i - 1]);
      MultipleIsProduct(i, g);
      weight := weight + g;
      moment := moment + g * i as real;
      i := i + 1;
    }
  }

  // ---- all lines alike ----------------------------------------------------

  ghost predicate LineFinds(luma: seq<real>, w: nat, h: nat, axis: Axis, line: nat, at: real)
    requires |luma| == w * h && line < Lines(w, h, axis)
  {
    var p := Profile(luma, w, h, axis, line);
    IsFound(p) && Centroid(p) == at
  }

  lemma {:induction false} CountAlike(luma: seq<real>, w: nat, h: nat, axis: Axis, at: real, n: nat)
    requires |luma| == w * h && n <= Lines(w, h, axis)
    requires forall line: nat :: line < n ==> LineAdds(luma, w, h, axis, line, at)
    ensures FoundCount(luma, w, h, axis, n) == n
  {
    if n > 0 {
      CountAlike(luma, w, h, axis, at, n - 1);
      assert LineAdds(luma, w, h, axis, n - 1, at);
    }
  }

  lemma {:induction false} SumAlike(luma: seq<real>, w: nat, h: nat, axis: Axis, at: real, n: nat)
    requires |luma| == w * h && n <= Lines(w, h, axis)
    requires forall line: nat :: line < n ==> LineAdds(luma, w, h, axis, line, at)
    ensures FoundSum(luma, w, h, axis, n) == Multiple(n, at)
  {
    if n > 0 {
      SumAlike(luma, w, h, axis, at, n - 1);
      assert LineAdds(luma, w, h, axis, n - 1, at);
    }
  }

  ghost predicate LineAdds(luma: seq<real>, w: nat, h: nat, axis: Axis, line: nat, at: real)
    requires |luma| == w * h && line < Lines(w, h, axis)
  {
    FoundCount(luma, w, h, axis, line + 1) == FoundCount(luma, w, h, axis, line) + 1 &&
    FoundSum(luma, w, h, axis, line + 1) == FoundSum(luma, w, h, axis, line) + at
  }

  lemma OneMoreLine(luma: seq<real>, w: nat, h: nat, axis: Axis, at: real, line: nat)
    requires |luma| == w * h && line < Lines(w, h, axis) && LineFinds(luma, w, h, axis, line, at)
    ensures LineAdds(luma, w, h, axis, line, at)
  {
  }

  /** When every line finds the edge at the same place, that is the position. */
  lemma PositionOfAlike(luma: seq<real>, w: nat, h: nat, axis: Axis, at: real)
    requires |luma| == w * h && w >= 2 && h >= 2
    requires forall line: nat :: line < Lines(w, h, axis) ==> LineFinds(luma, w, h, axis, line, at)
    ensures Position(luma, w, h, axis) == Some(at)
  {
    var n := Lines(w, h, axis);
    forall line: nat | line < n ensures LineAdds(luma, w, h, axis, line, at) {
      OneMoreLine(luma, w, h, axis, at, line);
    }
    CountAlike(luma, w, h, axis, at, n);
    SumAlike(luma, w, h, axis, at, n);
    AverageOfAlike(n, at);
  }

  lemma AverageOfAlike(n: nat, at: real)
    requires n > 0
    ensures Average(n, Multiple(n, at)) == Some(at)
  {
    MultipleIsProduct(n, at);
    Undivide(n as real, at);
  }

  lemma Undivide(n: real, at: real)
    requires n > 0.0
    ensures (n * at) / n == at
  {
  }

  // ---- an area-sampled step -----------------------------------------------

  /** Profiles with the same steps weigh the same. */
  lemma {:induction false} SameStepsSameSums(p: seq<real>, v: seq<real>, n: nat)
    requires |p| == |v| && n <= |p| && forall i: nat :: 0 < i < |p| ==> Step(p, i) == Step(v, i)
    ensures Weight(p, n) == Weight(v, n) && Moment(p, n) == Moment(v, n)
  {
    if n > 1 { SameStepsSameSums(p, v, n - 1); }
  }

  /** The share of pixel `i` that lies beyond `t`. */
  function Beyond(t: real, i: nat): real {
    MaxR(0.0, MinR(1.0, i as real + 1.0 - t))
  }

  /** The same with pixels `d` wide and the step at `at`. */
  function Ramp(d: real, at: real, i: nat): real {
    MaxR(0.0, MinR(d, Multiple(i + 1, d) - at))
  }

  lemma RampIsBeyond(d: real, t: real, i: nat)
    requires d > 0.0
    ensures d * Beyond(t, i) == Ramp(d, d * t, i)
  {
    MultipleIsProduct(i + 1, d);
    Distribute(d, i as real + 1.0, t);
    ScaledOrder(d, 0.0, i as real + 1.0 - t);
    ScaledOrder(d, 1.0, i as real + 1.0 - t);
  }

  lemma Distribute(d: real, x: real, y: real)
    ensures d * (x - y) == d * x - d * y
  {
  }

  lemma ScaledOrder(d: real, x: real, y: real)
    requires d > 0.0
    ensures x < y <==> d * x < d * y
  {
    Distribute(d, y, x);
    assert y - x > 0.0 ==> d * (y - x) > 0.0;
    assert y - x <= 0.0 ==> d * (y - x) <= 0.0;
  }

  function Ramps(d: real, at: real, len: nat): (v: seq<real>)
    ensures |v| == len
    ensures forall i: nat :: i < len ==> v[i] == Ramp(d, at, i)
  {
    seq(len, i requires 0 <= i < len => Ramp(d, at, i))
  }

  lemma {:induction false} RampSums(d: real, at: real, len: nat, n: nat)
    requires d > 0.0 && at >= d && 0 < n <= len
    ensures Weight(Ramps(d, at, len), n) == Ramp(d, at, n - 1)
    ensures Moment(Ramps(d, at, len), n) == Multiple(n - 1, Ramp(d, at, n - 1)) - MaxR(0.0, Multiple(n - 1, d) - at)
  {
    if n == 1 {
      assert Multiple(1, d) == d && Multiple(0, d) == 0.0;
    } else {
      RampSums(d, at, len, n - 1);
      MultipleOfDifference(n - 1, Ramp(d, at, n - 1), Ramp(d, at, n - 2));
    }
  }

  predicate IsSampled(x: real, from: real, to: real, t: real, i: nat) {
    x == from + (to - from) * Beyond(t, i)
  }

  ghost predicate IsStep(p: seq<real>, from: real, to: real, t: real) {
    forall i: nat :: i < |p| ==> IsSampled(p[i], from, to, t, i)
  }

  /** The share of a step at `t` that boundaries between `n` pixels see: all of it
      unless it is inside the first pixel or the last, or outside them. */
  function Seen(t: real, n: nat): real {
    MaxR(0.0, MinR(1.0, MinR(t, n as real - t)))
  }

  /** `t`, or the nearest boundary between two pixels. */
  function Inner(t: real, n: nat): real {
    MaxR(1.0, MinR(n as real - 1.0, t))
  }

  /** A step at `t` is found exactly when the boundaries see a whole unit of it. It
      is then found at `t` exactly when both pixels it touches have a neighbour,
      and otherwise at the boundary nearest to it. */
  ghost predicate FindsStep(p: seq<real>, contrast: real, t: real) {
    (IsFound(p) <==> contrast * Seen(t, |p|) >= 1.0) &&
    (IsFound(p) ==> Centroid(p) == Inner(t, |p|) && (Centroid(p) == t <==> 1.0 <= t <= (|p| - 1) as real))
  }

  /** A step sampled by area, wherever it falls and whatever its contrast. */
  lemma StepIsFoundExactly(p: seq<real>, from: real, to: real, t: real)
    requires IsStep(p, from, to, t) && |p| >= 2
    ensures FindsStep(p, Abs(to - from), t)
  {
    if 1.0 <= t <= (|p| - 1) as real {
      InnerStepIsFound(p, from, to, t);
      FindsInner(p, Abs(to - from), t);
    } else {
      var m, step := StepAtEnd(p, from, to, t);
      FindsAtEnd(p, m, step, Abs(to - from), t);
    }
  }

  /** Inside the first pixel or the last, or outside them. */
  lemma StepAtEnd(p: seq<real>, from: real, to: real, t: real) returns (m: nat, step: real)
    requires IsStep(p, from, to, t) && |p| >= 2 && !(1.0 <= t <= (|p| - 1) as real)
    ensures OnlyAt(p, m, step) && step == Abs(to - from) * Seen(t, |p|) && m as real == Inner(t, |p|)
  {
    step := Abs(to - from) * Seen(t, |p|);
    if t < 1.0 {
      m := 1;
      StepInFirst(p, from, to, t);
    } else {
      m := |p| - 1;
      StepInLast(p, from, to, t);
    }
  }

  lemma FindsInner(p: seq<real>, contrast: real, t: real)
    requires |p| >= 2 && 1.0 <= t <= (|p| - 1) as real
    requires (IsFound(p) <==> contrast >= 1.0) && (IsFound(p) ==> Centroid(p) == t)
    ensures FindsStep(p, contrast, t)
  {
    assert Seen(t, |p|) == 1.0;
  }

  lemma FindsAtEnd(p: seq<real>, m: nat, step: real, contrast: real, t: real)
    requires |p| >= 2 && OnlyAt(p, m, step) && step == contrast * Seen(t, |p|)
    requires m as real == Inner(t, |p|) && !(1.0 <= t <= (|p| - 1) as real)
    ensures FindsStep(p, contrast, t)
  {
    OneBoundary(p, m, step);
  }

  /** All the step there is, is at boundary `m`. */
  ghost predicate OnlyAt(p: seq<real>, m: nat, step: real) {
    0 < m < |p| && Step(p, m) == step && forall i: nat :: 0 < i < |p| && i != m ==> Step(p, i) == 0.0
  }

  lemma StepInFirst(p: seq<real>, from: real, to: real, t: real)
    requires IsStep(p, from, to, t) && |p| >= 2 && t < 1.0
    ensures OnlyAt(p, 1, Abs(to - from) * Seen(t, |p|))
  {
    forall i: nat | 0 < i < |p| && i != 1 ensures Step(p, i) == 0.0 {
      SharesInFirst(t, i, |p|);
      NoStepWithoutShare(p, from, to, t, i);
    }
    SharesInFirst(t, 1, |p|);
    StepOfShares(p, from, to, t, 1);
  }

  lemma SharesInFirst(t: real, i: nat, n: nat)
    requires t < 1.0 && 0 < i < n
    ensures Share(t, i) == if i == 1 then Seen(t, n) else 0.0
  {
  }

  lemma StepInLast(p: seq<real>, from: real, to: real, t: real)
    requires IsStep(p, from, to, t) && |p| >= 2 && t > (|p| - 1) as real
    ensures OnlyAt(p, |p| - 1, Abs(to - from) * Seen(t, |p|))
  {
    var m: nat := |p| - 1;
    forall i: nat | 0 < i < |p| && i != m ensures Step(p, i) == 0.0 {
      SharesInLast(t, i, |p|);
      NoStepWithoutShare(p, from, to, t, i);
    }
    SharesInLast(t, m, |p|);
    StepOfShares(p, from, to, t, m);
  }

  lemma SharesInLast(t: real, i: nat, n: nat)
    requires t > (n - 1) as real && 0 < i < n
    ensures Share(t, i) == if i == n - 1 then Seen(t, n) else 0.0
  {
  }

  /** The share of the step that boundary `i` sees. */
  function Share(t: real, i: nat): real
    requires i > 0
  {
    Beyond(t, i) - Beyond(t, i - 1)
  }

  lemma NoShare(d: real, share: real)
    requires share == 0.0
    ensures d * share == 0.0
  {
  }

  lemma NoStepWithoutShare(p: seq<real>, from: real, to: real, t: real, i: nat)
    requires IsStep(p, from, to, t) && 0 < i < |p| && Share(t, i) == 0.0
    ensures Step(p, i) == 0.0
  {
    StepOfShares(p, from, to, t, i);
    NoShare(Abs(to - from), Share(t, i));
  }

  lemma StepOfShares(p: seq<real>, from: real, to: real, t: real, i: nat)
    requires IsStep(p, from, to, t) && 0 < i < |p|
    ensures Step(p, i) == Abs(to - from) * Share(t, i)
  {
    assert IsSampled(p[i], from, to, t, i) && IsSampled(p[i - 1], from, to, t, i - 1);
    BlendedStep(p[i], p[i - 1], from, to, Beyond(t, i), Beyond(t, i - 1));
  }

  lemma BlendedStep(a: real, b: real, from: real, to: real, x: real, y: real)
    requires x >= y && a == from + (to - from) * x && b == from + (to - from) * y
    ensures Abs(a - b) == Abs(to - from) * (x - y)
  {
    var d := Abs(to - from);
    StepOfBlend(from, to, x, y, d, d * x, d * y);
    Distribute(d, x, y);
    NotNegative(d, x - y);
  }

  lemma NotNegative(a: real, b: real)
    requires a >= 0.0 && b >= 0.0
    ensures a * b >= 0.0
  {
  }

  /** A profile with one step has its centroid there. */
  lemma OneBoundary(p: seq<real>, m: nat, step: real)
    requires OnlyAt(p, m, step)
    ensures IsFound(p) <==> step >= 1.0
    ensures IsFound(p) ==> Centroid(p) == m as real
  {
    OneStepSums(p, m, |p|);
    MultipleIsProduct(m, step);
    if IsFound(p) { Undivide(step, m as real); }
  }

  lemma {:induction false} OneStepSums(p: seq<real>, m: nat, n: nat)
    requires 0 < m < |p| && n <= |p| && forall i: nat :: 0 < i < |p| && i != m ==> Step(p, i) == 0.0
    ensures Weight(p, n) == if m < n then Step(p, m) else 0.0
    ensures Moment(p, n) == if m < n then Multiple(m, Step(p, m)) else 0.0
  {
    if n > 1 {
      OneStepSums(p, m, n - 1);
      MultipleIsProduct(n - 1, 0.0);
    }
  }

  lemma NoContrast(p: seq<real>, from: real, to: real, t: real)
    requires IsStep(p, from, to, t) && |p| >= 2 && from == to
    ensures OnlyAt(p, 1, 0.0)
  {
    forall i: nat | 0 < i < |p| ensures Step(p, i) == 0.0 {
      StepOfShares(p, from, to, t, i);
      NoShare(Share(t, i), Abs(to - from));
    }
  }

  lemma InnerStepIsFound(p: seq<real>, from: real, to: real, t: real)
    requires IsStep(p, from, to, t) && |p| >= 2 && 1.0 <= t <= (|p| - 1) as real
    ensures IsFound(p) <==> Abs(to - from) >= 1.0
    ensures IsFound(p) ==> Centroid(p) == t
  {
    var d := Abs(to - from);
    if d > 0.0 {
      WholeRamp(d, t, d * t, |p|);
      StepsAreRamps(p, from, to, t, d, d * t);
      RampIsFound(p, d, d * t);
      Quotient(d * t, d, t);
    } else {
      NoContrast(p, from, to, t);
      OneBoundary(p, 1, 0.0);
    }
  }

  lemma Quotient(at: real, d: real, t: real)
    requires d > 0.0 && at == d * t
    ensures at / d == t
  {
  }

  /** Every step of the blend is a step of the ramp. */
  ghost predicate HasRampSteps(p: seq<real>, d: real, at: real) {
    forall i: nat :: 0 < i < |p| ==> Step(p, i) == Abs(Ramp(d, at, i) - Ramp(d, at, i - 1))
  }

  lemma StepsAreRamps(p: seq<real>, from: real, to: real, t: real, d: real, at: real)
    requires IsStep(p, from, to, t) && from != to && d == Abs(to - from) && at == d * t
    ensures HasRampSteps(p, d, at)
  {
    forall i: nat | 0 < i < |p| ensures Step(p, i) == Abs(Ramp(d, at, i) - Ramp(d, at, i - 1)) {
      StepIsRamp(p, from, to, t, d, at, i);
    }
  }

  lemma StepIsRamp(p: seq<real>, from: real, to: real, t: real, d: real, at: real, i: nat)
    requires 0 < i < |p| && from != to && d == Abs(to - from) && at == d * t
    requires IsSampled(p[i], from, to, t, i) && IsSampled(p[i - 1], from, to, t, i - 1)
    ensures Step(p, i) == Abs(Ramp(d, at, i) - Ramp(d, at, i - 1))
  {
    RampIsBeyond(d, t, i);
    RampIsBeyond(d, t, i - 1);
    StepOfBlend(from, to, Beyond(t, i), Beyond(t, i - 1), d, Ramp(d, at, i), Ramp(d, at, i - 1));
  }

  lemma StepOfBlend(from: real, to: real, x: real, y: real, d: real, u: real, v: real)
    requires d == Abs(to - from) && u == d * x && v == d * y
    ensures Abs((from + (to - from) * x) - (from + (to - from) * y)) == Abs(u - v)
  {
    Blend(from, to, x);
    Blend(from, to, y);
  }

  lemma RampIsFound(p: seq<real>, d: real, at: real)
    requires |p| >= 2 && d > 0.0 && at >= d && Multiple(|p| - 1, d) >= at && Ramp(d, at, |p| - 1) == d
    requires HasRampSteps(p, d, at)
    ensures (IsFound(p) <==> d >= 1.0) && (IsFound(p) ==> Centroid(p) == at / d)
  {
    RampTotals(p, d, at);
  }

  lemma RampTotals(p: seq<real>, d: real, at: real)
    requires |p| >= 2 && d > 0.0 && at >= d && Multiple(|p| - 1, d) >= at && Ramp(d, at, |p| - 1) == d
    requires HasRampSteps(p, d, at)
    ensures Weight(p, |p|) == d && Moment(p, |p|) == at
  {
    var v := Ramps(d, at, |p|);
    forall i: nat | 0 < i < |p| ensures Step(p, i) == Step(v, i) { SameStep(p, v, d, at, i); }
    SameStepsSameSums(p, v, |p|);
    RampSums(d, at, |p|, |p|);
  }

  lemma SameStep(p: seq<real>, v: seq<real>, d: real, at: real, i: nat)
    requires HasRampSteps(p, d, at) && v == Ramps(d, at, |p|) && 0 < i < |p|
    ensures Step(p, i) == Step(v, i)
  {
  }

  /** The last pixel lies beyond the step altogether. */
  lemma WholeRamp(d: real, t: real, at: real, n: nat)
    requires d > 0.0 && at == d * t && n >= 2 && 1.0 <= t <= (n - 1) as real
    ensures at >= d && Multiple(n - 1, d) >= at && Ramp(d, at, n - 1) == d
  {
    MultipleIsProduct(n - 1, d);
    ScaledOrder(d, (n - 1) as real, t);
    ScaledOrder(d, t, 1.0);
  }

  lemma Blend(from: real, to: real, x: real)
    ensures (to - from) * x == if to >= from then Abs(to - from) * x else -(Abs(to - from) * x)
  {
    assert (-(to - from)) * x == -((to - from) * x);
  }
}
