/** `SprintForecaster`: completion times from already-drawn Monte Carlo
    matrices, and the summary scores of those times. The random draws are
    inputs: `perTicket[j]` holds the PERT samples of ticket j (one per path),
    `growth[i][j]` the factor `exp(err)` of path i and ticket j, and
    `capacity[i]` the capacity draw of path i. */
module Forecast {
  import opened Wrappers
  import opened RealSeqs
  import Crps
  import Percentiles

  datatype ForecastError =
    | NoTickets    // `np.vstack` of an empty list of ticket samples
    | NoPaths      // fewer than one path: a negative sample size, or a
                   // zero-row `reshape(0, -1)` that cannot infer its width
    | EmptySample  // `_crps` divides by zero on an empty sample

  datatype ForecastSummary = ForecastSummary(
    p50: real, p80: real, p95: real,
    pGoal: real, brier: real, crps: real)

  /** Shapes of the drawn matrices for `paths` paths. */
  predicate Shaped(paths: nat, perTicket: seq<seq<real>>, growth: seq<seq<real>>, capacity: seq<real>)
  {
    && |growth| == paths
    && |capacity| == paths
    && (forall j :: 0 <= j < |perTicket| ==> |perTicket[j]| == paths)
    && (forall i :: 0 <= i < paths ==> |growth[i]| == |perTicket|)
  }

  /** Capacity draws come from a lognormal posterior, so they are positive. */
  predicate PositiveDraws(capacity: seq<real>)
  {
    forall i :: 0 <= i < |capacity| ==> capacity[i] > 0.0
  }

  /** Effort of path `i` over the first `k` tickets:
      `sum_{j<k} growth[i][j] * perTicket[j][i]`. */
  function PathEffort(perTicket: seq<seq<real>>, growth: seq<seq<real>>, i: nat, k: nat): real
    requires k <= |perTicket| && i < |growth| && |growth[i]| == |perTicket|
    requires forall j :: 0 <= j < |perTicket| ==> i < |perTicket[j]|
  {
    if k == 0 then 0.0
    else PathEffort(perTicket, growth, i, k - 1) + growth[i][k - 1] * perTicket[k - 1][i]
  }

  function TotalEffort(perTicket: seq<seq<real>>, growth: seq<seq<real>>, i: nat): real
    requires i < |growth| && |growth[i]| == |perTicket|
    requires forall j :: 0 <= j < |perTicket| ==> i < |perTicket[j]|
  {
    PathEffort(perTicket, growth, i, |perTicket|)
  }

  /** `_simulate`: completion time of path i is the nominal sprint length
      scaled by total effort over realised capacity, so completion time
      times capacity is the sprint length times the work. Without tickets
      the sample stack fails first; with tickets but fewer than one path
      the sampling fails. The matrices are only drawn for at least one
      path. */
  function Simulate(sprintHours: real, paths: int, perTicket: seq<seq<real>>,
                    growth: seq<seq<real>>, capacity: seq<real>): (r: Result<seq<real>, ForecastError>)
    requires paths >= 1 ==> Shaped(paths, perTicket, growth, capacity)
    requires PositiveDraws(capacity)
    ensures r.Err? <==> |perTicket| == 0 || paths < 1
    ensures r == Err(NoTickets) <==> |perTicket| == 0
    ensures r == Err(NoPaths) <==> |perTicket| > 0 && paths < 1
    ensures r.Ok? ==> |r.value| == paths
    ensures r.Ok? ==> forall i :: 0 <= i < paths ==>
      r.value[i] * capacity[i] == sprintHours * TotalEffort(perTicket, growth, i)
  {
    if |perTicket| == 0 then Err(NoTickets)
    else if paths < 1 then Err(NoPaths)
    else
      Ok(seq(paths, i requires 0 <= i < paths =>
        sprintHours * TotalEffort(perTicket, growth, i) / capacity[i]))
  }

  /** The PERT samples of every ticket for path `i`. */
  function Column(perTicket: seq<seq<real>>, i: nat): (c: seq<real>)
    requires forall j :: 0 <= j < |perTicket| ==> i < |perTicket[j]|
    ensures |c| == |perTicket|
    ensures forall j :: 0 <= j < |c| ==> c[j] == perTicket[j][i]
  {
    seq(|perTicket|, j requires 0 <= j < |perTicket| => perTicket[j][i])
  }

  lemma {:induction false} UnitGrowthEffort(perTicket: seq<seq<real>>, growth: seq<seq<real>>, i: nat, k: nat)
    requires k <= |perTicket| && i < |growth| && |growth[i]| == |perTicket|
    requires forall j :: 0 <= j < |perTicket| ==> i < |perTicket[j]|
    requires forall j :: 0 <= j < |perTicket| ==> growth[i][j] == 1.0
    ensures PathEffort(perTicket, growth, i, k) == Sum(Column(perTicket, i)[..k])
  {
    if k > 0 {
      UnitGrowthEffort(perTicket, growth, i, k - 1);
      var c := Column(perTicket, i);
      assert c[..k] == c[..k - 1] + [c[k - 1]];
      SumAppend(c[..k - 1], c[k - 1]);
    }
  }

  /** The degenerate case of the tests (error and capacity both
      lognormal(0, 0), so every factor and every capacity draw is 1): each
      path takes the sprint length times the plain sum of its PERT samples. */
  lemma DegenerateSimulation(sprintHours: real, paths: nat, perTicket: seq<seq<real>>,
                             growth: seq<seq<real>>, capacity: seq<real>)
    requires Shaped(paths, perTicket, growth, capacity) && |perTicket| > 0 && paths >= 1
    requires forall i :: 0 <= i < paths ==> capacity[i] == 1.0
    requires forall i, j :: 0 <= i < paths && 0 <= j < |perTicket| ==> growth[i][j] == 1.0
    ensures PositiveDraws(capacity)
    ensures var r := Simulate(sprintHours, paths, perTicket, growth, capacity);
      r.Ok? && forall i :: 0 <= i < paths ==> r.value[i] == sprintHours * Sum(Column(perTicket, i))
  {
    var r := Simulate(sprintHours, paths, perTicket, growth, capacity);
    forall i | 0 <= i < paths
      ensures r.value[i] == sprintHours * Sum(Column(perTicket, i))
    {
      UnitGrowthEffort(perTicket, growth, i, |perTicket|);
      assert Column(perTicket, i)[..|perTicket|] == Column(perTicket, i);
    }
  }

  lemma {:induction false} EffortNonNegative(perTicket: seq<seq<real>>, growth: seq<seq<real>>, i: nat, k: nat)
    requires k <= |perTicket| && i < |growth| && |growth[i]| == |perTicket|
    requires forall j :: 0 <= j < |perTicket| ==> i < |perTicket[j]| && perTicket[j][i] >= 0.0
    requires forall j :: 0 <= j < |perTicket| ==> growth[i][j] > 0.0
    ensures PathEffort(perTicket, growth, i, k) >= 0.0
  {
    if k > 0 {
      EffortNonNegative(perTicket, growth, i, k - 1);
      assert growth[i][k - 1] * perTicket[k - 1][i] >= 0.0;
    }
  }

  lemma ShareShrinks(work: real, c1: real, c2: real)
    requires work >= 0.0 && 0.0 < c1 <= c2
    ensures work / c2 <= work / c1
  {
    assert work / c2 * c2 == work;
    assert work / c1 * c1 == work;
    assert (work / c1) * c2 >= (work / c1) * c1;
  }

  /** More capacity never lengthens a path: with non-negative samples,
      positive error factors and a non-negative sprint length, raising the
      capacity draws lowers (or keeps) every completion time. */
  lemma MoreCapacityFinishesSooner(sprintHours: real, paths: nat, perTicket: seq<seq<real>>,
                                   growth: seq<seq<real>>, c1: seq<real>, c2: seq<real>)
    requires Shaped(paths, perTicket, growth, c1) && PositiveDraws(c1)
    requires |c2| == paths && forall i :: 0 <= i < paths ==> c1[i] <= c2[i]
    requires |perTicket| > 0 && sprintHours >= 0.0
    requires forall j, i :: 0 <= j < |perTicket| && 0 <= i < paths ==> perTicket[j][i] >= 0.0
    requires forall i, j :: 0 <= i < paths && 0 <= j < |perTicket| ==> growth[i][j] > 0.0
    ensures Shaped(paths, perTicket, growth, c2) && PositiveDraws(c2)
    ensures forall i :: 0 <= i < paths ==>
      Simulate(sprintHours, paths, perTicket, growth, c2).value[i]
        <= Simulate(sprintHours, paths, perTicket, growth, c1).value[i]
  {
    assert PositiveDraws(c2);
    forall i | 0 <= i < paths
      ensures Simulate(sprintHours, paths, perTicket, growth, c2).value[i]
        <= Simulate(sprintHours, paths, perTicket, growth, c1).value[i]
    {
      var e := TotalEffort(perTicket, growth, i);
      EffortNonNegative(perTicket, growth, i, |perTicket|);
      assert sprintHours * e >= 0.0;
      ShareShrinks(sprintHours * e, c1[i], c2[i]);
    }
  }

  /** The fraction of paths finishing within the sprint. */
  function OnTimeFraction(times: seq<real>, sprintHours: real): (p: real)
    requires |times| > 0
    ensures 0.0 <= p <= 1.0
    ensures p * (|times| as real) == CountAtMost(times, sprintHours) as real
  {
    var n := |times| as real;
    var k := CountAtMost(times, sprintHours) as real;
    assert k <= n;
    assert k / n * n == k;
    k / n
  }

  /** The Brier proxy `p (1 - p)` of an on-time probability lies in
      [0, 1/4] and vanishes only for a certain outcome. */
  function Brier(p: real): (b: real)
    requires 0.0 <= p <= 1.0
    ensures 0.0 <= b <= 0.25
    ensures b == 0.0 <==> (p == 0.0 || p == 1.0)
  {
    BrierFacts(p);
    p * (1.0 - p)
  }

  lemma BrierFacts(p: real)
    requires 0.0 <= p <= 1.0
    ensures 0.0 <= p * (1.0 - p) <= 0.25
    ensures p * (1.0 - p) == 0.0 <==> (p == 0.0 || p == 1.0)
  {
    var d := p - 0.5;
    assert 0.25 - p * (1.0 - p) == d * d;
    NonNegativeSquare(d);
    if 0.0 < p < 1.0 {
      PositiveProduct(p, 1.0 - p);
    } else {
      assert p == 0.0 || p == 1.0;
    }
  }

  /** The summary of a sample of completion times. */
  function Summarize(times: seq<real>, sprintHours: real): (r: Result<ForecastSummary, ForecastError>)
    ensures r.Err? <==> |times| == 0
    ensures r.Err? ==> r.error == EmptySample
    ensures r.Ok? ==>
      && r.value.pGoal == OnTimeFraction(times, sprintHours)
      && 0.0 <= r.value.pGoal <= 1.0
      && r.value.brier == Brier(r.value.pGoal)
      && 0.0 <= r.value.brier <= 0.25
      && r.value.crps == Crps.HalfMeanGap(times)
      && r.value.crps >= 0.0
      && r.value.p50 == Percentiles.Percentile(times, 50.0)
      && r.value.p80 == Percentiles.Percentile(times, 80.0)
      && r.value.p95 == Percentiles.Percentile(times, 95.0)
      && Sort(times)[0] <= r.value.p50 <= r.value.p80 <= r.value.p95 <= Sort(times)[|times| - 1]
  {
    if |times| == 0 then Err(EmptySample)
    else
      var prob := OnTimeFraction(times, sprintHours);
      var brier := Brier(prob);
      var crps := Crps.Score(times).value;
      Percentiles.PercentileMonotone(times, 50.0, 80.0);
      Percentiles.PercentileMonotone(times, 80.0, 95.0);
      Ok(ForecastSummary(
        Percentiles.Percentile(times, 50.0),
        Percentiles.Percentile(times, 80.0),
        Percentiles.Percentile(times, 95.0),
        prob, brier, crps))
  }

  /** `summary`: simulate, then summarise. It fails exactly when the
      simulation does; a successful summary scores the simulated completion
      times, with an on-time probability in [0, 1], ordered percentiles and
      a non-negative CRPS. */
  function Summary(sprintHours: real, paths: int, perTicket: seq<seq<real>>,
                   growth: seq<seq<real>>, capacity: seq<real>): (r: Result<ForecastSummary, ForecastError>)
    requires paths >= 1 ==> Shaped(paths, perTicket, growth, capacity)
    requires PositiveDraws(capacity)
    ensures r == Err(NoTickets) <==> |perTicket| == 0
    ensures r == Err(NoPaths) <==> |perTicket| > 0 && paths < 1
    ensures r.Err? ==> r.error != EmptySample
    ensures r.Ok? ==>
      var times := Simulate(sprintHours, paths, perTicket, growth, capacity).value;
      && |times| == paths
      && r.value.pGoal == OnTimeFraction(times, sprintHours)
      && r.value.brier == Brier(r.value.pGoal)
      && r.value.crps == Crps.HalfMeanGap(times)
      && r.value.p50 == Percentiles.Percentile(times, 50.0)
      && r.value.p80 == Percentiles.Percentile(times, 80.0)
      && r.value.p95 == Percentiles.Percentile(times, 95.0)
      && 0.0 <= r.value.pGoal <= 1.0
      && r.value.p50 <= r.value.p80 <= r.value.p95
      && r.value.crps >= 0.0
  {
    match Simulate(sprintHours, paths, perTicket, growth, capacity)
    case Err(e) => Err(e)
    case Ok(times) => Summarize(times, sprintHours)
  }
}
