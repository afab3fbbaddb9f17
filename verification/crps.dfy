/** The closed-form continuous ranked probability score of an empirical
    sample (`SprintForecaster._crps`), and its meaning: half the mean
    absolute difference between two independent draws from the sample. */
module Crps {
  import opened Wrappers
  import opened RealSeqs

  /** The weight `2i - n - 1` of the i-th smallest of n samples (1-based). */
  function Coefficient(i: int, n: int): int
  {
    2 * i - n - 1
  }

  /** `sum_{i=1..k} (2i - n - 1) * x[i-1]`. */
  function RankWeighted(x: seq<real>, n: int, k: nat): real
    requires k <= |x|
  {
    if k == 0 then 0.0
    else RankWeighted(x, n, k - 1) + (Coefficient(k, n) as real) * x[k - 1]
  }

  /** `sum_j |y - s[j]|`. */
  function GapTo(y: real, s: seq<real>): real
  {
    SumOf(z => Abs(y - z), s)
  }

  /** `sum_i sum_j |a[i] - b[j]|`. */
  function PairGaps(a: seq<real>, b: seq<real>): real
  {
    SumOf(y => GapTo(y, b), a)
  }

  /** Half the mean absolute difference between two independent draws from
      the sample: `sum_i sum_j |s_i - s_j| / (2 n^2)`. */
  function HalfMeanGap(s: seq<real>): real
    requires |s| > 0
  {
    PerPair(PairGaps(s, s), |s|)
  }

  /** A total over the `n * n` ordered pairs, halved and averaged. */
  function PerPair(total: real, n: nat): real
    requires n > 0
  {
    total / (2.0 * (n as real) * (n as real))
  }

  /** The closed form of `_crps` on an already sorted sample:
      `0.5 * (2 / n^2) * sum_i (2i - n - 1) x_(i)`. */
  function RankForm(x: seq<real>): real
    requires |x| > 0
  {
    var n := |x|;
    0.5 * ((2.0 / ((n as real) * (n as real))) * RankWeighted(x, n, n))
  }

  /** `_crps` divides by `n * n`, which raises `ZeroDivisionError` for an
      empty sample. */
  datatype ScoreError = EmptySample

  /** The score of `samples`: computed from the ascending sort with the rank
      weights, it equals half the mean pairwise gap, so it is never negative;
      only an empty sample is refused. */
  function Score(samples: seq<real>): (r: Result<real, ScoreError>)
    ensures r.Err? <==> |samples| == 0
    ensures r.Ok? ==> r.value >= 0.0
    ensures r.Ok? ==> r.value == HalfMeanGap(samples)
  {
    if |samples| == 0 then Err(EmptySample)
    else
      ScoreIsHalfMeanGap(samples);
      HalfMeanGapNonNegative(samples);
      Ok(RankForm(Sort(samples)))
  }

  lemma ScoreIsHalfMeanGap(samples: seq<real>)
    requires |samples| > 0
    ensures RankForm(Sort(samples)) == HalfMeanGap(samples)
  {
    PairGapsOfSorted(samples);
    var x := Sort(samples);
    assert |x| == |samples|;
    RankFormFromTotal(x, PairGaps(samples, samples));
  }

  lemma HalfMeanGapNonNegative(samples: seq<real>)
    requires |samples| > 0
    ensures HalfMeanGap(samples) >= 0.0
  {
    PairGapsNonNegative(samples);
    PerPairNonNegative(PairGaps(samples, samples), |samples|);
  }

  lemma PerPairNonNegative(total: real, n: nat)
    requires n > 0 && total >= 0.0
    ensures PerPair(total, n) >= 0.0
  {
    var m := n as real;
    assert 2.0 * m * m > 0.0;
  }

  /** The pair total of a sample is twice the rank-weighted sum of its sort. */
  lemma PairGapsOfSorted(samples: seq<real>)
    ensures PairGaps(samples, samples) == 2.0 * RankWeighted(Sort(samples), |samples|, |samples|)
  {
    var x := Sort(samples);
    SortedPairGaps(x);
    PairGapsPermutation(samples, x);
  }

  /** The closed form rewritten around a pairwise gap total `g` that is
      twice the rank-weighted sum. */
  lemma RankFormFromTotal(x: seq<real>, g: real)
    requires |x| > 0
    requires g == 2.0 * RankWeighted(x, |x|, |x|)
    ensures RankForm(x) == PerPair(g, |x|)
  {
    var n := |x|;
    HalveScale(RankWeighted(x, n, n), g, n as real);
  }

  lemma HalveScale(w: real, g: real, n: real)
    requires n > 0.0 && g == 2.0 * w
    ensures 0.5 * ((2.0 / (n * n)) * w) == g / (2.0 * n * n)
    ensures g >= 0.0 ==> g / (2.0 * n * n) >= 0.0
  {
    var nn := n * n;
    assert nn > 0.0;
    assert 2.0 * n * n == 2.0 * nn;
    assert 0.5 * ((2.0 / nn) * w) == w / nn;
  }

  lemma PairGapsNonNegative(a: seq<real>)
    ensures PairGaps(a, a) >= 0.0
  {
    forall i | 0 <= i < |a|
      ensures GapTo(a[i], a) >= 0.0
    {
      SumOfNonNegative(z => Abs(a[i] - z), a);
    }
    SumOfNonNegative(y => GapTo(y, a), a);
  }

  /** The pairwise gap total depends only on the multiset of samples. */
  lemma PairGapsPermutation(a: seq<real>, b: seq<real>)
    requires multiset(a) == multiset(b)
    ensures PairGaps(a, a) == PairGaps(b, b)
  {
    forall i | 0 <= i < |b|
      ensures GapTo(b[i], a) == GapTo(b[i], b)
    {
      SumOfPermutation(z => Abs(b[i] - z), a, b);
    }
    SumOfPermutation(y => GapTo(y, a), a, b);
    SumOfPointwise(y => GapTo(y, a), y => GapTo(y, b), b);
  }

  /** Adding `y` to the right-hand sample adds the gaps from `y` to `a`. */
  lemma {:induction false} PairGapsAppendRight(a: seq<real>, t: seq<real>, y: real)
    ensures PairGaps(a, t + [y]) == PairGaps(a, t) + GapTo(y, a)
  {
    if |a| > 0 {
      var p := a[..|a| - 1];
      var last := a[|a| - 1];
      PairGapsAppendRight(p, t, y);
      SumOfAppend(z => Abs(last - z), t, y);
      SumOfAppend(z => Abs(y - z), p, last);
      assert Abs(last - y) == Abs(y - last);
    }
  }

  /** The gaps from a sample's maximum to the sample: `n * y - sum`. */
  lemma {:induction false} GapToFromAbove(y: real, t: seq<real>)
    requires forall i :: 0 <= i < |t| ==> t[i] <= y
    ensures GapTo(y, t) == (|t| as real) * y - Sum(t)
  {
    if |t| > 0 {
      var p := t[..|t| - 1];
      GapToFromAbove(y, p);
    }
  }

  /** Rank weights only read the first `k` entries. */
  lemma {:induction false} RankWeightedPrefix(x: seq<real>, y: real, n: int, k: nat)
    requires k <= |x|
    ensures RankWeighted(x + [y], n, k) == RankWeighted(x, n, k)
  {
    if k > 0 {
      RankWeightedPrefix(x, y, n, k - 1);
    }
  }

  /** One more sample lowers every earlier weight by one. */
  lemma {:induction false} RankWeightedShift(x: seq<real>, n: int, k: nat)
    requires k <= |x|
    ensures RankWeighted(x, n + 1, k) == RankWeighted(x, n, k) - Sum(x[..k])
  {
    if k > 0 {
      RankWeightedShift(x, n, k - 1);
      assert x[..k] == x[..k - 1] + [x[k - 1]];
      SumAppend(x[..k - 1], x[k - 1]);
    }
  }

  /** Appending `y` to a sample adds its gaps to the others twice, once in
      each order. */
  lemma PairGapsAppend(t: seq<real>, y: real)
    ensures PairGaps(t + [y], t + [y]) == PairGaps(t, t) + 2.0 * GapTo(y, t)
  {
    var x := t + [y];
    PairGapsAppendRight(x, t, y);
    SumOfAppend(z => GapTo(z, t), t, y);
    SumOfAppend(z => Abs(y - z), t, y);
  }

  /** Appending `y` as the largest rank: the earlier weights drop by one and
      `y` gets weight `n`. */
  lemma RankWeightedAppend(t: seq<real>, y: real)
    ensures RankWeighted(t + [y], |t| + 1, |t| + 1)
      == RankWeighted(t, |t|, |t|) - Sum(t) + (|t| as real) * y
  {
    var n := |t|;
    RankWeightedPrefix(t, y, n + 1, n);
    RankWeightedShift(t, n, n);
    assert t[..n] == t;
    assert Coefficient(n + 1, n + 1) == n;
  }

  /** For an ascending sample the rank-weighted sum is half the pairwise
      gap total: `sum_i sum_j |x_i - x_j| = 2 * sum_i (2i - n - 1) x_(i)`. */
  lemma {:induction false} SortedPairGaps(x: seq<real>)
    requires Sorted(x)
    ensures PairGaps(x, x) == 2.0 * RankWeighted(x, |x|, |x|)
  {
    if |x| > 0 {
      var n := |x| - 1;
      var t := x[..n];
      var y := x[n];
      assert x == t + [y];
      assert Sorted(t);
      SortedPairGaps(t);
      PairGapsAppend(t, y);
      RankWeightedAppend(t, y);
      GapToFromAbove(y, t);
    }
  }

  /** The weights `2i - n - 1` for `i = 1..k` add up to `k * (k - n)`. */
  lemma {:induction false} CoefficientPartialSum(c: real, n: int, k: nat)
    requires k <= n
    ensures RankWeighted(seq(n, _ => c), n, k) == ((k * (k - n)) as real) * c
  {
    if k > 0 {
      CoefficientPartialSum(c, n, k - 1);
      assert (k - 1) * (k - 1 - n) + (2 * k - n - 1) == k * (k - n);
    }
  }

  /** The weights sum to zero, so a constant sample scores zero. */
  lemma ConstantSampleScoresZero(c: real, n: nat)
    requires n > 0
    ensures Score(seq(n, _ => c)) == Ok(0.0)
  {
    var s := seq(n, _ => c);
    SortedUnique(Sort(s), s);
    CoefficientPartialSum(c, n, n);
  }

  /** Reordering the sample does not change its score. */
  lemma ScorePermutationInvariant(a: seq<real>, b: seq<real>)
    requires multiset(a) == multiset(b)
    ensures Score(a) == Score(b)
  {
    SortPermutationInvariant(a, b);
    assert |a| == |multiset(a)| == |multiset(b)| == |b|;
  }
}
