/** Row-major buffers: positions, and what one write changes. */
module Grid {

  /** `y * w + x`, by counting whole rows. */
  function At(x: nat, y: nat, w: nat): nat {
    if y == 0 then x else w + At(x, y - 1, w)
  }

  lemma AtIsProduct(x: nat, y: nat, w: nat)
    ensures At(x, y, w) == y * w + x
  {
  }

  lemma AtShifts(x: nat, d: nat, y: nat, w: nat)
    ensures At(x + d, y, w) == At(x, y, w) + d
  {
    AtIsProduct(x + d, y, w);
    AtIsProduct(x, y, w);
  }

  lemma AtBounded(x: nat, y: nat, w: nat, h: nat)
    requires x < w && y < h
    ensures At(x, y, w) < w * h
  {
    AtIsProduct(x, y, w);
    Rows(y + 1, h, w);
  }

  lemma Rows(a: nat, b: nat, w: nat)
    requires a <= b
    ensures a * w <= b * w
  {
  }

  lemma AtInjective(x: nat, y: nat, x2: nat, y2: nat, w: nat)
    requires x < w && x2 < w && At(x, y, w) == At(x2, y2, w)
    ensures x == x2 && y == y2
  {
    AtIsProduct(x, y, w);
    AtIsProduct(x2, y2, w);
    assert y < y2 ==> (y + 1) * w <= y2 * w;
    assert y2 < y ==> (y2 + 1) * w <= y * w;
  }

  /** Every index of the buffer is one position. */
  lemma AtCovers(i: nat, w: nat, h: nat) returns (x: nat, y: nat)
    requires i < w * h
    ensures x < w && y < h && At(x, y, w) == i
  {
    x, y := i % w, i / w;
    assert y >= h ==> y * w >= h * w;
    AtIsProduct(x, y, w);
  }

  /** The sample of a `w` by `h` buffer at column `x` of row `y`. */
  function Sample<T>(buffer: seq<T>, w: nat, h: nat, x: nat, y: nat): T
    requires |buffer| == w * h && x < w && y < h
  {
    AtBounded(x, y, w, h);
    buffer[At(x, y, w)]
  }

  /** A write at one position changes that sample and no other. */
  lemma OneWrite<T>(buffer: seq<T>, after: seq<T>, w: nat, h: nat, x: nat, y: nat, v: T)
    requires |buffer| == |after| == w * h && x < w && y < h
    requires At(x, y, w) < |buffer| && after == buffer[At(x, y, w) := v]
    ensures forall u: nat, t: nat :: u < w && t < h ==>
      Sample(after, w, h, u, t) == if u == x && t == y then v else Sample(buffer, w, h, u, t)
  {
    forall u: nat, t: nat | u < w && t < h
      ensures Sample(after, w, h, u, t) == if u == x && t == y then v else Sample(buffer, w, h, u, t)
    {
      AtBounded(u, t, w, h);
      if At(u, t, w) == At(x, y, w) { AtInjective(u, t, x, y, w); }
    }
  }

  /** Buffers with the same samples are the same buffer. */
  lemma SameSamples<T>(a: seq<T>, b: seq<T>, w: nat, h: nat)
    requires |a| == |b| == w * h
    requires forall x: nat, y: nat :: x < w && y < h ==> Sample(a, w, h, x, y) == Sample(b, w, h, x, y)
    ensures a == b
  {
    forall i | 0 <= i < |a| ensures a[i] == b[i] {
      var x, y := AtCovers(i, w, h);
      assert Sample(a, w, h, x, y) == Sample(b, w, h, x, y);
    }
  }
}
