/** `RealSprintForecastEngine`: the empirical forecast from a pool of
    observed durations. The bootstrap draw `rng.choice(..., replace=True)`
    is an input: a `draws x n` matrix of positions into the pool. */
module RealEngine {
  import opened Wrappers
  import opened RealSeqs

  datatype EngineError =
    | NoDurations  // `ValueError("no empirical duration data")`
    | NoDraws      // fewer than one draw: the source yields NaN or a numpy error

  datatype ForecastResult = ForecastResult(probability: real, expectedCarry: real)

  /** Resampling positions: one row per draw, one valid position per entry. */
  predicate Picks(picks: seq<seq<int>>, draws: nat, n: nat)
  {
    && |picks| == draws
    && forall i :: 0 <= i < draws ==>
         |picks[i]| == n && forall j :: 0 <= j < n ==> 0 <= picks[i][j] < n
  }

  /** `_sample`: one draw is the pool itself; more draws resample the pool
      with replacement, so every entry is one of the observed durations. */
  function Sample(durations: seq<real>, draws: nat, picks: seq<seq<int>>): (m: seq<seq<real>>)
    requires draws != 1 ==> Picks(picks, draws, |durations|)
    ensures |m| == draws
    ensures forall i :: 0 <= i < draws ==> |m[i]| == |durations|
    ensures draws == 1 ==> m == [durations]
    ensures draws != 1 ==> forall i, j :: 0 <= i < draws && 0 <= j < |durations| ==>
      m[i][j] == durations[picks[i][j]] && m[i][j] in durations
  {
    if draws == 1 then [durations]
    else
      seq(draws, i requires 0 <= i < draws =>
        seq(|durations|, j requires 0 <= j < |durations| => durations[picks[i][j]]))
  }

  predicate NonEmptyRows(m: seq<seq<real>>)
  {
    forall i :: 0 <= i < |m| ==> |m[i]| > 0
  }

  /** Number of rows whose largest entry is within `bound`. */
  function RowsWithin(m: seq<seq<real>>, bound: real): (k: nat)
    requires NonEmptyRows(m)
    ensures k <= |m|
  {
    if |m| == 0 then 0
    else RowsWithin(m[..|m| - 1], bound) + (if Max(m[|m| - 1]) <= bound then 1 else 0)
  }

  /** Total number of entries above `bound`, over all rows. */
  function CarryCount(m: seq<seq<real>>, bound: real): nat
  {
    if |m| == 0 then 0
    else CarryCount(m[..|m| - 1], bound) + CountAbove(m[|m| - 1], bound)
  }

  /** Every row finishes in time exactly when no entry overruns: a row's
      maximum is within the bound iff its carry-over count is zero. */
  lemma {:induction false} AllWithinIffNoCarry(m: seq<seq<real>>, bound: real)
    requires NonEmptyRows(m)
    ensures RowsWithin(m, bound) == |m| <==> CarryCount(m, bound) == 0
  {
    if |m| > 0 {
      var p := m[..|m| - 1];
      assert NonEmptyRows(p);
      AllWithinIffNoCarry(p, bound);
      MaxWithinIffNoneAbove(m[|m| - 1], bound);
    }
  }

  lemma {:induction false} CarryCountBound(m: seq<seq<real>>, bound: real, n: nat)
    requires forall i :: 0 <= i < |m| ==> |m[i]| == n
    ensures CarryCount(m, bound) as real <= (|m| as real) * (n as real)
  {
    if |m| > 0 {
      CarryCountBound(m[..|m| - 1], bound, n);
      assert ((|m| - 1) as real) * (n as real) + n as real == (|m| as real) * (n as real);
    }
  }

  /** `count / total` as a mean over `total` draws. */
  function PerDraw(count: real, total: nat): (r: real)
    requires total > 0
    ensures r * (total as real) == count
  {
    count / total as real
  }

  /** The two statistics of a sample matrix: the share of rows whose
      slowest entry is within `bound`, in [0, 1], and the mean number of
      entries per row above it, in [0, n]. The share is 1 exactly when the
      mean carry is 0. */
  function Rates(m: seq<seq<real>>, bound: real, n: nat): (r: ForecastResult)
    requires |m| > 0 && n > 0
    requires forall i :: 0 <= i < |m| ==> |m[i]| == n
    ensures NonEmptyRows(m)
    ensures r.probability == PerDraw(RowsWithin(m, bound) as real, |m|)
    ensures r.expectedCarry == PerDraw(CarryCount(m, bound) as real, |m|)
    ensures 0.0 <= r.probability <= 1.0
    ensures 0.0 <= r.expectedCarry <= n as real
    ensures r.probability == 1.0 <==> r.expectedCarry == 0.0
  {
    CountFacts(m, bound, n);
    PerDrawFacts(RowsWithin(m, bound), CarryCount(m, bound), |m|, n);
    ForecastResult(PerDraw(RowsWithin(m, bound) as real, |m|), PerDraw(CarryCount(m, bound) as real, |m|))
  }

  /** `forecast`: the statistics of the sampled matrix. An empty pool is
      refused before anything is sampled. */
  function Forecast(durations: seq<real>, remainingHours: real, draws: int, picks: seq<seq<int>>)
    : (r: Result<ForecastResult, EngineError>)
    requires draws > 1 ==> Picks(picks, draws, |durations|)
    ensures r == Err(NoDurations) <==> |durations| == 0
    ensures r == Err(NoDraws) <==> |durations| > 0 && draws < 1
    ensures r.Ok? ==>
      && 0.0 <= r.value.probability <= 1.0
      && 0.0 <= r.value.expectedCarry <= |durations| as real
      && (r.value.probability == 1.0 <==> r.value.expectedCarry == 0.0)
    ensures r.Ok? ==> draws >= 1 && r.value == Rates(Sample(durations, draws, picks), remainingHours, |durations|)
  {
    if |durations| == 0 then Err(NoDurations)
    else if draws < 1 then Err(NoDraws)
    else Ok(Rates(Sample(durations, draws, picks), remainingHours, |durations|))
  }

  /** The two means of `forecast`, from the facts about the counts. */
  lemma PerDrawFacts(within: nat, carry: nat, draws: nat, n: nat)
    requires draws > 0
    requires within as real <= draws as real
    requires carry as real <= (draws as real) * (n as real)
    requires within as real == draws as real <==> carry as real == 0.0
    ensures 0.0 <= PerDraw(within as real, draws) <= 1.0
    ensures 0.0 <= PerDraw(carry as real, draws) <= n as real
    ensures PerDraw(within as real, draws) == 1.0 <==> PerDraw(carry as real, draws) == 0.0
  {
    RatioFacts(PerDraw(within as real, draws), PerDraw(carry as real, draws),
               within as real, carry as real, draws as real, n as real);
  }

  /** The two counts, as reals, against the number of draws. */
  lemma CountFacts(m: seq<seq<real>>, bound: real, n: nat)
    requires |m| > 0 && n > 0
    requires forall i :: 0 <= i < |m| ==> |m[i]| == n
    ensures NonEmptyRows(m)
    ensures RowsWithin(m, bound) as real <= |m| as real
    ensures CarryCount(m, bound) as real <= (|m| as real) * (n as real)
    ensures RowsWithin(m, bound) as real == |m| as real <==> CarryCount(m, bound) as real == 0.0
  {
    AllWithinIffNoCarry(m, bound);
    CarryCountBound(m, bound, n);
  }

  lemma RatioFacts(pw: real, pc: real, within: real, carry: real, d: real, n: real)
    requires d >= 1.0 && 0.0 <= within <= d && 0.0 <= carry <= d * n
    requires within == d <==> carry == 0.0
    requires pw * d == within && pc * d == carry
    ensures 0.0 <= pw <= 1.0 && 0.0 <= pc <= n
    ensures pw == 1.0 <==> pc == 0.0
  {
    assert pw == within / d;
    assert pc == carry / d;
  }

  /** The single-draw example: one ticket of 5 hours with 10 hours left is
      certainly on time with nothing carried over. */
  lemma SingleDrawExample()
    ensures Forecast([5.0], 10.0, 1, []) == Ok(ForecastResult(1.0, 0.0))
  {
    var m := Sample([5.0], 1, []);
    assert Max(m[0]) == 5.0;
    assert m[..0] == [];
    assert RowsWithin(m, 10.0) == 1;
    assert CarryCount(m, 10.0) == 0 by {
      assert m[0][..0] == [];
    }
  }
}
