/** Percentiles with numpy's default linear interpolation: the virtual index
    `(n - 1) * q / 100` into the ascending sample, interpolated between its
    two neighbouring order statistics. */
module Percentiles {
  import opened RealSeqs

  /** Virtual index of the q-th percentile among `n` order statistics:
      `(n - 1)` times the quantile `q / 100`. */
  function Rank(n: nat, q: real): (h: real)
    requires n > 0 && 0.0 <= q <= 100.0
    ensures 0.0 <= h <= (n - 1) as real
    ensures q == 0.0 ==> h == 0.0
    ensures q == 100.0 ==> h == (n - 1) as real
  {
    var m := (n - 1) as real;
    var f := q / 100.0;
    assert 0.0 <= f <= 1.0;
    assert q == 100.0 ==> f == 1.0;
    FractionOf(m, f);
    m * f
  }

  /** A fraction of a non-negative `m` lies between 0 and `m`, and reaches
      the ends at the fractions 0 and 1. */
  lemma FractionOf(m: real, f: real)
    requires 0.0 <= m && 0.0 <= f <= 1.0
    ensures 0.0 <= m * f <= m
    ensures f == 0.0 ==> m * f == 0.0
    ensures f == 1.0 ==> m * f == m
  {
    assert m * f + m * (1.0 - f) == m;
    NonNegativeProduct(m, f);
    NonNegativeProduct(m, 1.0 - f);
  }

  lemma ScaleMonotone(m: real, f: real, g: real)
    requires 0.0 <= m && f <= g
    ensures m * f <= m * g
  {
    assert m * g == m * f + m * (g - f);
    NonNegativeProduct(m, g - f);
  }

  /** The virtual index grows with q. */
  lemma RankMonotone(n: nat, q1: real, q2: real)
    requires n > 0 && 0.0 <= q1 <= q2 <= 100.0
    ensures Rank(n, q1) <= Rank(n, q2)
  {
    ScaleMonotone((n - 1) as real, q1 / 100.0, q2 / 100.0);
  }

  /** Value at virtual index `h` of an ascending sequence: the order
      statistic below `h` plus the fractional part of `h` times the step to
      the next one (the last one has no successor). */
  function Interpolate(x: seq<real>, h: real): (r: real)
    requires Sorted(x) && 0.0 <= h <= (|x| - 1) as real
    ensures x[h.Floor] <= r <= x[if h.Floor + 1 < |x| then h.Floor + 1 else |x| - 1]
    ensures h == h.Floor as real ==> r == x[h.Floor]
  {
    var lo := h.Floor;
    var hi := if lo + 1 < |x| then lo + 1 else |x| - 1;
    var gamma := h - lo as real;
    LerpBetween(x[lo], x[hi], gamma);
    x[lo] + gamma * (x[hi] - x[lo])
  }

  lemma LerpBetween(a: real, b: real, g: real)
    requires a <= b && 0.0 <= g <= 1.0
    ensures a <= a + g * (b - a) <= b
    ensures g == 0.0 ==> a + g * (b - a) == a
  {
    var d := b - a;
    assert (1.0 - g) * d >= 0.0;
  }

  lemma LerpMonotone(a: real, b: real, g1: real, g2: real)
    requires a <= b && g1 <= g2
    ensures a + g1 * (b - a) <= a + g2 * (b - a)
  {
    var d := b - a;
    assert (g2 - g1) * d >= 0.0;
  }

  /** `np.percentile(samples, q)`: a value between the smallest and the
      largest sample, attained exactly at q = 0 and q = 100. */
  function Percentile(samples: seq<real>, q: real): (r: real)
    requires |samples| > 0 && 0.0 <= q <= 100.0
    ensures Sort(samples)[0] <= r <= Sort(samples)[|samples| - 1]
    ensures q == 0.0 ==> r == Sort(samples)[0]
    ensures q == 100.0 ==> r == Sort(samples)[|samples| - 1]
  {
    var x := Sort(samples);
    var h := Rank(|x|, q);
    InterpolateWithinRange(x, h);
    Interpolate(x, h)
  }

  lemma InterpolateWithinRange(x: seq<real>, h: real)
    requires Sorted(x) && 0.0 <= h <= (|x| - 1) as real
    ensures x[0] <= Interpolate(x, h) <= x[|x| - 1]
    ensures h == 0.0 ==> Interpolate(x, h) == x[0]
    ensures h == (|x| - 1) as real ==> Interpolate(x, h) == x[|x| - 1]
  {
    var lo := h.Floor;
    assert x[0] <= x[lo];
  }

  /** Interpolation never decreases along the virtual index. */
  lemma InterpolateMonotone(x: seq<real>, h1: real, h2: real)
    requires Sorted(x) && 0.0 <= h1 <= h2 <= (|x| - 1) as real
    ensures Interpolate(x, h1) <= Interpolate(x, h2)
  {
    var lo1, lo2 := h1.Floor, h2.Floor;
    var hi1 := if lo1 + 1 < |x| then lo1 + 1 else |x| - 1;
    if lo1 == lo2 {
      LerpMonotone(x[lo1], x[hi1], h1 - lo1 as real, h2 - lo1 as real);
    } else {
      assert lo1 < lo2;
      assert x[hi1] <= x[lo2];
    }
  }

  /** The percentile never decreases as q grows. */
  lemma PercentileMonotone(samples: seq<real>, q1: real, q2: real)
    requires |samples| > 0 && 0.0 <= q1 <= q2 <= 100.0
    ensures Percentile(samples, q1) <= Percentile(samples, q2)
  {
    var x := Sort(samples);
    RankMonotone(|x|, q1, q2);
    InterpolateMonotone(x, Rank(|x|, q1), Rank(|x|, q2));
  }

  /** The percentile depends only on the multiset of samples. */
  lemma PercentilePermutationInvariant(a: seq<real>, b: seq<real>, q: real)
    requires multiset(a) == multiset(b) && |a| > 0 && 0.0 <= q <= 100.0
    ensures |b| > 0 && Percentile(a, q) == Percentile(b, q)
  {
    SortPermutationInvariant(a, b);
  }
}
