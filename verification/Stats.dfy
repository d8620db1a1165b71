/** Percentiles of repeated samples, in exact arithmetic: how they move with the
    rank and with the samples, the summary made of them, and the repetition that
    stands for them all. */
module Stats {
  import opened Words

  function Abs(x: real): real {
    if x < 0.0 then -x else x
  }

  // ---- sorting ------------------------------------------------------------

  ghost predicate Ascending(xs: seq<real>) {
    forall i, j :: 0 <= i < j < |xs| ==> xs[i] <= xs[j]
  }

  function Place(x: real, xs: seq<real>): (r: seq<real>)
    ensures multiset(r) == multiset(xs) + multiset{x} && |r| == |xs| + 1
  {
    if xs == [] then [x]
    else
      var init, last := xs[..|xs| - 1], xs[|xs| - 1];
      assert xs == init + [last];
      if x < last then Place(x, init) + [last] else xs + [x]
  }

  function Sorted(xs: seq<real>): (r: seq<real>)
    ensures multiset(r) == multiset(xs) && |r| == |xs|
  {
    if xs == [] then []
    else
      assert xs == xs[..|xs| - 1] + [xs[|xs| - 1]];
      Place(xs[|xs| - 1], Sorted(xs[..|xs| - 1]))
  }

  lemma {:induction false} PlaceAscends(x: real, xs: seq<real>)
    requires Ascending(xs)
    ensures Ascending(Place(x, xs))
  {
    if xs != [] && x < xs[|xs| - 1] {
      var init, last := xs[..|xs| - 1], xs[|xs| - 1];
      PlaceAscends(x, init);
      var r := Place(x, init);
      forall i | 0 <= i < |r| ensures r[i] <= last {
        assert r[i] in multiset(r);
        assert r[i] == x || r[i] in multiset(init);
      }
    }
  }

  lemma {:induction false} SortedAscends(xs: seq<real>)
    ensures Ascending(Sorted(xs))
  {
    if xs != [] {
      SortedAscends(xs[..|xs| - 1]);
      PlaceAscends(xs[|xs| - 1], Sorted(xs[..|xs| - 1]));
    }
  }

  lemma LastOfMultiset(xs: seq<real>)
    requires xs != []
    ensures multiset(xs[..|xs| - 1]) == multiset(xs) - multiset{xs[|xs| - 1]}
    ensures xs[|xs| - 1] in multiset(xs)
  {
    assert xs == xs[..|xs| - 1] + [xs[|xs| - 1]];
  }

  lemma LargestAgree(a: seq<real>, b: seq<real>)
    requires Ascending(a) && Ascending(b) && multiset(a) == multiset(b) && a != [] && b != []
    ensures a[|a| - 1] == b[|b| - 1]
  {
    LastOfMultiset(a);
    LastOfMultiset(b);
    var i :| 0 <= i < |b| && b[i] == a[|a| - 1];
    var j :| 0 <= j < |a| && a[j] == b[|b| - 1];
  }

  /** There is one ascending order to a multiset of samples. */
  lemma {:induction false} AscendingIsUnique(a: seq<real>, b: seq<real>)
    requires Ascending(a) && Ascending(b) && multiset(a) == multiset(b)
    ensures a == b
  {
    assert |a| == |multiset(a)| == |multiset(b)| == |b|;
    if a != [] {
      var n := |a| - 1;
      LargestAgree(a, b);
      PrefixesAgree(a, b);
      AscendingIsUnique(a[..n], b[..n]);
      LastRestored(a);
      LastRestored(b);
    }
  }

  lemma PrefixesAgree(a: seq<real>, b: seq<real>)
    requires multiset(a) == multiset(b) && a != [] && b != [] && a[|a| - 1] == b[|b| - 1]
    ensures multiset(a[..|a| - 1]) == multiset(b[..|b| - 1])
  {
    LastOfMultiset(a);
    LastOfMultiset(b);
  }

  lemma LastRestored(a: seq<real>)
    requires a != []
    ensures a == a[..|a| - 1] + [a[|a| - 1]]
  {
  }

  // ---- percentiles --------------------------------------------------------

  function Between(a: real, b: real, t: real): real {
    a * (1.0 - t) + b * t
  }

  lemma BetweenIsBetween(a: real, b: real, t: real)
    requires a <= b && 0.0 <= t <= 1.0
    ensures a <= Between(a, b, t) <= b
  {
    NonNegative(b - a, t);
    NonNegative(b - a, 1.0 - t);
    assert Between(a, b, t) - a == (b - a) * t;
    assert b - Between(a, b, t) == (b - a) * (1.0 - t);
  }

  lemma NonNegative(x: real, y: real)
    requires x >= 0.0 && y >= 0.0
    ensures x * y >= 0.0
  {
  }

  lemma BetweenRises(a: real, b: real, t: real, u: real)
    requires a <= b && 0.0 <= t <= u <= 1.0
    ensures Between(a, b, t) <= Between(a, b, u)
  {
    NonNegative(b - a, u - t);
    assert Between(a, b, u) - Between(a, b, t) == (b - a) * (u - t);
  }

  /** The value at a fractional rank: the two neighbours, weighed. */
  function AtRank(sorted: seq<real>, rank: real): real
    requires 0.0 <= rank <= (|sorted| - 1) as real
  {
    var lo := rank.Floor;
    var frac := rank - lo as real;
    var hi := if frac == 0.0 then lo else lo + 1;
    Between(sorted[lo], sorted[hi], frac)
  }

  lemma RankFits(rank: real, n: nat) returns (lo: nat)
    requires 0.0 <= rank <= (n - 1) as real
    ensures lo == rank.Floor && lo < n && lo as real <= rank < lo as real + 1.0
    ensures rank != lo as real ==> lo + 1 < n
  {
    lo := rank.Floor;
    assert lo <= n - 1;
    assert lo + 1 >= n ==> lo as real == (n - 1) as real;
  }

  lemma AtRankIsBetween(sorted: seq<real>, rank: real) returns (lo: nat)
    requires Ascending(sorted) && 0.0 <= rank <= (|sorted| - 1) as real
    ensures lo == rank.Floor && lo < |sorted| && sorted[lo] <= AtRank(sorted, rank)
    ensures AtRank(sorted, rank) <= if lo + 1 < |sorted| then sorted[lo + 1] else sorted[lo]
  {
    lo := RankFits(rank, |sorted|);
    var frac := rank - lo as real;
    if frac == 0.0 {
      BetweenIsBetween(sorted[lo], sorted[lo], frac);
    } else {
      BetweenIsBetween(sorted[lo], sorted[lo + 1], frac);
    }
  }

  lemma AtRankRises(sorted: seq<real>, r: real, s: real)
    requires Ascending(sorted) && 0.0 <= r <= s <= (|sorted| - 1) as real
    ensures AtRank(sorted, r) <= AtRank(sorted, s)
  {
    var i := AtRankIsBetween(sorted, r);
    var j := AtRankIsBetween(sorted, s);
    var i' := RankFits(r, |sorted|);
    var j' := RankFits(s, |sorted|);
    if i == j {
      SameCell(sorted, r, s, i);
    } else {
      assert i < j;
    }
  }

  lemma SameCell(sorted: seq<real>, r: real, s: real, i: nat)
    requires Ascending(sorted) && 0.0 <= r <= s <= (|sorted| - 1) as real
    requires i == r.Floor == s.Floor && i < |sorted| && i as real <= r && s < i as real + 1.0
    requires s != i as real ==> i + 1 < |sorted|
    ensures AtRank(sorted, r) <= AtRank(sorted, s)
  {
    var t, u := r - i as real, s - i as real;
    if u != 0.0 {
      BetweenRises(sorted[i], sorted[i + 1], t, u);
      if t == 0.0 { assert Between(sorted[i], sorted[i], t) == Between(sorted[i], sorted[i + 1], t); }
    }
  }

  /** `p` of the way from the first sample to the last. */
  function Rank(p: real, n: nat): (r: real)
    requires 0.0 <= p <= 1.0 && n > 0
    ensures 0.0 <= r <= (n - 1) as real
  {
    RankInRange(p, (n - 1) as real);
    p * (n - 1) as real
  }

  lemma RankInRange(p: real, m: real)
    requires 0.0 <= p <= 1.0 && m >= 0.0
    ensures 0.0 <= p * m <= m
  {
    NonNegative(p, m);
    NonNegative(1.0 - p, m);
    assert (1.0 - p) * m == m - p * m;
  }

  lemma RanksRise(p: real, q: real, n: nat)
    requires 0.0 <= p <= q <= 1.0 && n > 0
    ensures Rank(p, n) <= Rank(q, n)
  {
    NonNegative(q - p, (n - 1) as real);
  }

  /** The interpolated percentile of samples in ascending order. */
  function Percentile(sorted: seq<real>, p: real): real
    requires sorted != [] && 0.0 <= p <= 1.0
  {
    if |sorted| == 1 then sorted[0] else AtRank(sorted, Rank(p, |sorted|))
  }

  lemma PercentileIsAtRank(sorted: seq<real>, p: real) returns (r: real)
    requires |sorted| > 1 && 0.0 <= p <= 1.0
    ensures r == Rank(p, |sorted|) && 0.0 <= r <= (|sorted| - 1) as real
    ensures Percentile(sorted, p) == AtRank(sorted, r)
  {
    r := Rank(p, |sorted|);
  }

  lemma RanksRiseBetweenEnds(s: seq<real>, r: real, q: real)
    requires Ascending(s) && 0.0 <= r <= q <= (|s| - 1) as real
    ensures s[0] <= AtRank(s, r) <= AtRank(s, q) <= s[|s| - 1]
  {
    AtRankRises(s, r, q);
    var i := AtRankIsBetween(s, r);
    var j := AtRankIsBetween(s, q);
  }

  /** The percentile rises with `p`, from the least sample to the greatest. */
  lemma PercentileRises(xs: seq<real>, p: real, q: real)
    requires xs != [] && 0.0 <= p <= q <= 1.0
    ensures var s := Sorted(xs);
      s[0] <= Percentile(s, p) <= Percentile(s, q) <= s[|s| - 1]
  {
    var s := Sorted(xs);
    SortedAscends(xs);
    if |s| > 1 {
      var r := PercentileIsAtRank(s, p);
      var t := PercentileIsAtRank(s, q);
      RanksRise(p, q, |s|);
      RanksRiseBetweenEnds(s, r, t);
    }
  }

  /** The order of the samples does not matter. */
  lemma PercentileForgetsOrder(xs: seq<real>, ys: seq<real>)
    requires multiset(xs) == multiset(ys)
    ensures Sorted(xs) == Sorted(ys)
  {
    SortedAscends(xs);
    SortedAscends(ys);
    AscendingIsUnique(Sorted(xs), Sorted(ys));
  }

  // ---- change of unit -----------------------------------------------------

  ghost predicate KeepsOrder(f: real -> real) {
    forall x, y :: f(x) < f(y) <==> x < y
  }

  ghost predicate KeepsShares(f: real -> real) {
    forall x, y, t :: Between(f(x), f(y), t) == f(Between(x, y, t))
  }

  function Map(f: real -> real, xs: seq<real>): (r: seq<real>)
    ensures |r| == |xs| && forall i :: 0 <= i < |xs| ==> r[i] == f(xs[i])
  {
    seq(|xs|, i requires 0 <= i < |xs| => f(xs[i]))
  }

  lemma {:induction false} PlaceMaps(f: real -> real, x: real, xs: seq<real>)
    requires KeepsOrder(f)
    ensures Map(f, Place(x, xs)) == Place(f(x), Map(f, xs))
  {
    if xs == [] {
      assert Map(f, [x]) == [f(x)] && Map(f, xs) == [];
    } else {
      var n := |xs| - 1;
      OrderIsKept(f, x, xs[n]);
      if x < xs[n] {
        PlaceMaps(f, x, xs[..n]);
        PlaceInside(f, x, xs);
      } else {
        PlaceAfter(f, x, xs);
      }
    }
  }

  lemma OrderIsKept(f: real -> real, x: real, y: real)
    requires KeepsOrder(f)
    ensures f(x) < f(y) <==> x < y
  {
  }

  lemma MapOfSum(f: real -> real, xs: seq<real>, x: real)
    ensures Map(f, xs + [x]) == Map(f, xs) + [f(x)]
  {
  }

  lemma PlaceInside(f: real -> real, x: real, xs: seq<real>)
    requires xs != [] && x < xs[|xs| - 1] && f(x) < f(xs[|xs| - 1])
    requires Map(f, Place(x, xs[..|xs| - 1])) == Place(f(x), Map(f, xs[..|xs| - 1]))
    ensures Map(f, Place(x, xs)) == Place(f(x), Map(f, xs))
  {
    var n := |xs| - 1;
    assert Map(f, xs)[..n] == Map(f, xs[..n]);
    MapOfSum(f, Place(x, xs[..n]), xs[n]);
  }

  lemma PlaceAfter(f: real -> real, x: real, xs: seq<real>)
    requires xs != [] && x >= xs[|xs| - 1] && f(x) >= f(xs[|xs| - 1])
    ensures Map(f, Place(x, xs)) == Place(f(x), Map(f, xs))
  {
    MapOfSum(f, xs, x);
  }

  lemma {:induction false} SortedMaps(f: real -> real, xs: seq<real>)
    requires KeepsOrder(f)
    ensures Sorted(Map(f, xs)) == Map(f, Sorted(xs))
  {
    if xs != [] {
      var n := |xs| - 1;
      assert Map(f, xs)[..n] == Map(f, xs[..n]);
      SortedMaps(f, xs[..n]);
      PlaceMaps(f, xs[n], Sorted(xs[..n]));
    }
  }

  lemma PercentileMaps(f: real -> real, xs: seq<real>, p: real)
    requires KeepsOrder(f) && KeepsShares(f) && xs != [] && 0.0 <= p <= 1.0
    ensures Percentile(Sorted(Map(f, xs)), p) == f(Percentile(Sorted(xs), p))
  {
    SortedMaps(f, xs);
    var s := Sorted(xs);
    if |s| > 1 {
      var r := PercentileIsAtRank(s, p);
      var t := PercentileIsAtRank(Map(f, s), p);
      RankMaps(f, s, r);
    }
  }

  lemma RankMaps(f: real -> real, s: seq<real>, rank: real)
    requires KeepsShares(f) && 0.0 <= rank <= (|s| - 1) as real
    ensures AtRank(Map(f, s), rank) == f(AtRank(s, rank))
  {
    var lo := RankFits(rank, |s|);
    var frac := rank - lo as real;
    var hi := if frac == 0.0 then lo else lo + 1;
    assert Between(f(s[lo]), f(s[hi]), frac) == f(Between(s[lo], s[hi], frac));
  }

  function Rescaled(a: real, b: real, x: real): real {
    a * x + b
  }

  lemma ScaleKeepsOrder(a: real, b: real, x: real, y: real)
    requires a > 0.0
    ensures Rescaled(a, b, x) < Rescaled(a, b, y) <==> x < y
  {
    assert a * y - a * x == a * (y - x);
    assert y - x > 0.0 ==> a * (y - x) > 0.0;
    assert y - x <= 0.0 ==> a * (y - x) <= 0.0;
  }

  lemma ScaleKeepsShares(a: real, b: real, x: real, y: real, t: real)
    ensures Between(Rescaled(a, b, x), Rescaled(a, b, y), t) == Rescaled(a, b, Between(x, y, t))
  {
    assert (a * x + b) * (1.0 - t) == (a * x) * (1.0 - t) + b * (1.0 - t);
    assert (a * y + b) * t == (a * y) * t + b * t;
    assert b * (1.0 - t) + b * t == b;
    assert (a * x) * (1.0 - t) == a * (x * (1.0 - t)) && (a * y) * t == a * (y * t);
  }

  /** In another unit with another zero, every percentile is the old one in that
      unit. */
  lemma PercentileScales(a: real, b: real, xs: seq<real>, p: real)
    requires a > 0.0 && xs != [] && 0.0 <= p <= 1.0
    ensures Percentile(Sorted(Map(x => Rescaled(a, b, x), xs)), p) == Rescaled(a, b, Percentile(Sorted(xs), p))
  {
    var f: real -> real := x => Rescaled(a, b, x);
    ScaleIsFit(a, b, f);
    PercentileMaps(f, xs, p);
  }

  lemma ScaleIsFit(a: real, b: real, f: real -> real)
    requires a > 0.0 && forall x :: f(x) == Rescaled(a, b, x)
    ensures KeepsOrder(f) && KeepsShares(f)
  {
    forall x, y ensures f(x) < f(y) <==> x < y { ScaleKeepsOrder(a, b, x, y); }
    forall x, y, t ensures Between(f(x), f(y), t) == f(Between(x, y, t)) { ScaleKeepsShares(a, b, x, y, t); }
  }

  // ---- the summary --------------------------------------------------------

  /** What is kept of the repetitions of one cell, for one quantity. */
  datatype Summary = Summary(median: real, least: real, iqr: real)

  /** The median, the least and the spread of values already sorted; all zero
      when there are none. */
  function SummaryOf(sorted: seq<real>): Summary {
    if sorted == [] then Summary(0.0, 0.0, 0.0)
    else Summary(Percentile(sorted, 0.5), sorted[0], Percentile(sorted, 0.75) - Percentile(sorted, 0.25))
  }

  /** What is kept of all the repetitions of one cell. */
  datatype RunStats = RunStats(n: nat, wall: Summary, rss: Summary)

  /** The summary of these values in whatever order they came: the one that any
      ascending arrangement of them gives, whose least is the least of them. */
  ghost predicate Summarises(s: Summary, xs: seq<real>) {
    if xs == [] then s == Summary(0.0, 0.0, 0.0)
    else
      s.least in xs && (forall x :: x in xs ==> s.least <= x) && s.least <= s.median && s.iqr >= 0.0 &&
      forall o :: Ascending(o) && multiset(o) == multiset(xs) ==> s == SummaryOf(o)
  }

  /** `from_samples`: how many there are, and both quantities summed up apart. */
  method FromSamples(samples: seq<Sample>) returns (stats: RunStats)
    ensures stats.n == |samples|
    ensures Summarises(stats.wall, Walls(samples)) && Summarises(stats.rss, Peaks(samples))
  {
    var walls, peaks := Sorted(Walls(samples)), Sorted(Peaks(samples));
    stats := RunStats(|samples|, SummaryOf(walls), SummaryOf(peaks));
    SortedSummarises(Walls(samples));
    SortedSummarises(Peaks(samples));
  }

  lemma SortedSummarises(xs: seq<real>)
    ensures Summarises(SummaryOf(Sorted(xs)), xs)
  {
    if xs != [] { SummaryIsSensible(xs); }
    SortedAscends(xs);
    forall o | Ascending(o) && multiset(o) == multiset(xs) ensures o == Sorted(xs) {
      AscendingIsUnique(o, Sorted(xs));
    }
  }

  /** The summary lies within the values: the median between the ends, the least
      below all of them, the spread no negative and no wider than the range. */
  lemma SummaryIsSensible(xs: seq<real>)
    requires xs != []
    ensures var s, r := Sorted(xs), SummaryOf(Sorted(xs));
      r.least == s[0] <= r.median <= s[|s| - 1] && 0.0 <= r.iqr <= s[|s| - 1] - s[0]
    ensures SummaryOf(Sorted(xs)).least in xs && forall x :: x in xs ==> SummaryOf(Sorted(xs)).least <= x
  {
    PercentileRises(xs, 0.25, 0.75);
    PercentileRises(xs, 0.5, 0.5);
    var s := Sorted(xs);
    SortedAscends(xs);
    assert s[0] in multiset(s);
    forall x | x in xs ensures s[0] <= x {
      assert x in multiset(s);
      var i :| 0 <= i < |s| && s[i] == x;
    }
  }

  datatype Sample = Sample(wall: real, rss: real, id: nat)

  function Walls(samples: seq<Sample>): (r: seq<real>)
    ensures |r| == |samples| && forall i :: 0 <= i < |samples| ==> r[i] == samples[i].wall
  {
    seq(|samples|, i requires 0 <= i < |samples| => samples[i].wall)
  }

  function Peaks(samples: seq<Sample>): (r: seq<real>)
    ensures |r| == |samples| && forall i :: 0 <= i < |samples| ==> r[i] == samples[i].rss
  {
    seq(|samples|, i requires 0 <= i < |samples| => samples[i].rss)
  }

  function Distance(s: Sample, target: real): real {
    Abs(s.wall - target)
  }

  function PlaceSample(e: Sample, ss: seq<Sample>, target: real): (r: seq<Sample>)
    ensures |r| == |ss| + 1
  {
    if ss == [] then [e]
    else if Distance(e, target) < Distance(ss[|ss| - 1], target) then PlaceSample(e, ss[..|ss| - 1], target) + [ss[|ss| - 1]]
    else ss + [e]
  }

  function SortedByDistance(ss: seq<Sample>, target: real): (r: seq<Sample>)
    ensures |r| == |ss|
  {
    if ss == [] then [] else PlaceSample(ss[|ss| - 1], SortedByDistance(ss[..|ss| - 1], target), target)
  }

  /** The earliest of the samples nearest to the target. */
  ghost predicate IsEarliestNearest(ss: seq<Sample>, target: real, i: nat) {
    i < |ss| &&
    (forall j :: 0 <= j < |ss| ==> Distance(ss[i], target) <= Distance(ss[j], target)) &&
    (forall j :: 0 <= j < i ==> Distance(ss[i], target) < Distance(ss[j], target))
  }

  ghost predicate Nearer(ss: seq<Sample>, target: real) {
    forall i, j :: 0 <= i < j < |ss| ==> Distance(ss[i], target) <= Distance(ss[j], target)
  }

  lemma {:induction false} PlaceKeepsHead(e: Sample, ss: seq<Sample>, target: real)
    requires Nearer(ss, target)
    ensures Nearer(PlaceSample(e, ss, target), target)
    ensures ss != [] ==> PlaceSample(e, ss, target)[0] == if Distance(e, target) < Distance(ss[0], target) then e else ss[0]
    ensures forall x :: x in PlaceSample(e, ss, target) ==> x == e || x in ss
  {
    if ss != [] && Distance(e, target) < Distance(ss[|ss| - 1], target) {
      PlaceKeepsHead(e, ss[..|ss| - 1], target);
      var r := PlaceSample(e, ss[..|ss| - 1], target);
      forall i | 0 <= i < |r| ensures Distance(r[i], target) <= Distance(ss[|ss| - 1], target) {
        assert r[i] in r;
      }
    }
  }

  lemma {:induction false} HeadIsEarliestNearest(ss: seq<Sample>, target: real) returns (i: nat)
    requires ss != []
    ensures IsEarliestNearest(ss, target, i) && SortedByDistance(ss, target)[0] == ss[i]
    ensures Nearer(SortedByDistance(ss, target), target)
  {
    var n := |ss| - 1;
    if n == 0 {
      i := 0;
      assert SortedByDistance(ss[..0], target) == [];
    } else {
      i := HeadIsEarliestNearest(ss[..n], target);
      PlaceKeepsHead(ss[n], SortedByDistance(ss[..n], target), target);
      OneMoreSample(ss, target, i);
      if Distance(ss[n], target) < Distance(ss[i], target) { i := n; }
    }
  }

  lemma OneMoreSample(ss: seq<Sample>, target: real, i: nat)
    requires |ss| > 0 && IsEarliestNearest(ss[..|ss| - 1], target, i)
    ensures var n := |ss| - 1;
      IsEarliestNearest(ss, target, if Distance(ss[n], target) < Distance(ss[i], target) then n else i)
  {
    var n := |ss| - 1;
    forall j | 0 <= j < n ensures Distance(ss[i], target) <= Distance(ss[j], target) {
      assert ss[..n][j] == ss[j];
    }
    forall j | 0 <= j < i ensures Distance(ss[i], target) < Distance(ss[j], target) {
      assert ss[..n][j] == ss[j];
    }
  }

  /** `aggregate`: the earliest sample whose wall time is nearest the median, with
      the statistics of them all; nothing when there are none. */
  method Aggregate(samples: seq<Sample>) returns (rep: Option<(Sample, RunStats)>)
    ensures rep.None? <==> samples == []
    ensures rep.Some? ==> exists i: nat :: IsEarliestNearest(samples, rep.value.1.wall.median, i) && rep.value.0 == samples[i]
    ensures rep.Some? ==>
      rep.value.1.n == |samples| &&
      Summarises(rep.value.1.wall, Walls(samples)) && Summarises(rep.value.1.rss, Peaks(samples))
  {
    if samples == [] { return None; }
    var stats := FromSamples(samples);
    var near := SortedByDistance(samples, stats.wall.median);
    var i := HeadIsEarliestNearest(samples, stats.wall.median);
    rep := Some((near[0], stats));
  }

  /** With an odd number of repetitions the one chosen took exactly the median. */
  lemma OddCountHasItsMedian(samples: seq<Sample>, wall: Summary, i: nat)
    requires |samples| % 2 == 1 && Summarises(wall, Walls(samples))
    requires IsEarliestNearest(samples, wall.median, i)
    ensures samples[i].wall == wall.median
  {
    var o := Sorted(Walls(samples));
    SortedAscends(Walls(samples));
    assert wall == SummaryOf(o);
    var m := MedianIsASample(o);
    NearestToASample(samples, o[m], i);
  }

  lemma MedianIsASample(s: seq<real>) returns (m: nat)
    requires |s| % 2 == 1
    ensures m < |s| && Percentile(s, 0.5) == s[m] && s[m] in multiset(s)
  {
    m := (|s| - 1) / 2;
    MiddleIsMedian(s, m);
  }

  lemma NearestToASample(samples: seq<Sample>, target: real, i: nat)
    requires IsEarliestNearest(samples, target, i) && target in multiset(Walls(samples))
    ensures samples[i].wall == target
  {
    var walls := Walls(samples);
    var j :| 0 <= j < |walls| && walls[j] == target;
    assert Distance(samples[j], target) == 0.0;
  }

  lemma MiddleIsMedian(s: seq<real>, m: nat)
    requires |s| == 2 * m + 1
    ensures Percentile(s, 0.5) == s[m]
  {
    if m > 0 {
      var r := PercentileIsAtRank(s, 0.5);
      assert r == m as real && r.Floor == m;
    }
  }
}
