/** The game's only source of randomness is Math.random
    (src/FourLeafCloverGame.jsx, lines 19, 23, 195–199 and 201). Here it is an
    explicit stream of draws, each in [0, 1), consumed in the order the
    program calls Math.random. */
module Random {

  /** Every draw is a value Math.random can return. */
  predicate ValidDraws(draws: seq<real>) {
    forall k :: 0 <= k < |draws| ==> 0.0 <= draws[k] < 1.0
  }

  /** `Math.floor(d * n)`: the draw picks one of n equal buckets of [0, 1),
      so every index below n is reachable and none at or above it is. */
  function UniformIndex(d: real, n: nat): (k: nat)
    requires 0.0 <= d < 1.0
    requires n >= 1
    ensures k < n
    ensures (k as real) / (n as real) <= d < ((k + 1) as real) / (n as real)
  {
    var x := d * (n as real);
    ScaleBelow(d, n as real);
    var f := x.Floor;
    assert (f as real) * 1.0 <= d * (n as real) < ((f + 1) as real) * 1.0;
    BucketOf(d, f, n);
    f
  }

  /** Dividing the floor inequalities by n. */
  lemma BucketOf(d: real, f: int, n: nat)
    requires n >= 1
    requires (f as real) <= d * (n as real) < ((f + 1) as real)
    ensures (f as real) / (n as real) <= d < ((f + 1) as real) / (n as real)
  {
    var m := n as real;
    assert ((f + 1) as real) / m - d == ((f + 1) as real - d * m) / m;
    assert d - (f as real) / m == (d * m - f as real) / m;
  }

  /** `rand(min, max)`: scales a draw into [lo, hi). When the range is empty
      (lo == hi) the result is lo itself. */
  function Rand(d: real, lo: real, hi: real): (r: real)
    requires 0.0 <= d < 1.0
    requires lo <= hi
    ensures lo <= r <= hi
    ensures lo < hi ==> r < hi
  {
    var w := hi - lo;
    ScaleBelow(d, w);
    d * w + lo
  }

  /** Scaling by a draw never reaches the scale: 0 <= d*w <= w, strictly below w when w > 0. */
  lemma ScaleBelow(d: real, w: real)
    requires 0.0 <= d < 1.0
    requires w >= 0.0
    ensures 0.0 <= d * w <= w
    ensures w > 0.0 ==> d * w < w
  {
    assert w - d * w == (1.0 - d) * w;
    if w > 0.0 {
      assert (1.0 - d) * w > 0.0;
    }
  }

  /** A larger draw gives a larger value, so distinct draws land on distinct
      points of [lo, hi). */
  lemma RandMonotone(d1: real, d2: real, lo: real, hi: real)
    requires 0.0 <= d1 < d2 < 1.0
    requires lo < hi
    ensures Rand(d1, lo, hi) < Rand(d2, lo, hi)
  {
    var r1 := Rand(d1, lo, hi);
    var r2 := Rand(d2, lo, hi);
    var w := hi - lo;
    assert r2 - r1 == (d2 - d1) * w;
    assert (d2 - d1) * w > 0.0 by {
      PositiveProduct(d2 - d1, w);
    }
  }

  /** The product of two positive reals is positive. */
  lemma PositiveProduct(a: real, b: real)
    requires a > 0.0 && b > 0.0
    ensures a * b > 0.0
  {
  }
}
