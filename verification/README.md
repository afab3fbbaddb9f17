# sprintforecast, modelled in Dafny

This project models the deterministic core of `sprintforecast`, a sprint
planning and forecasting tool for GitHub projects. Every ticket carries a
three-point estimate (optimistic, most likely, pessimistic). From these
estimates the tool forecasts whether a sprint finishes on time, and it
proposes which tickets to take in. The model covers seven parts:

- **Beta-PERT parameterisation** of a ticket (`Tickets`). The triad is
  validated and turned into Beta shapes `a`, `b` and the support
  `[optimistic, pessimistic]`.
- **Monte Carlo scoring** of `SprintForecaster` (`Forecast`, `Crps`,
  `Percentiles`). Completion times are computed from already-drawn sample
  matrices. From those times come:
  - the on-time probability `P_goal`;
  - the Brier proxy `P_goal (1 - P_goal)`;
  - the closed-form CRPS;
  - the p50/p80/p95 percentiles, using numpy's default linear interpolation.
- **The empirical engine** `RealSprintForecastEngine` (`RealEngine`). Over
  a draws × tickets matrix resampled from observed durations, it computes
  the share of draws that finish within the remaining hours and the mean
  number of tickets carried over.
- **The `plan` command body** (`Intake`). Tickets are sorted by PERT mean
  and packed greedily into size buckets under a cap of
  `team * length * 6` hours, skipping XXL tickets.
- **The label-event duration extractor** (`LabelDurations`) and **the
  column-move duration extractor** (`ColumnDurations`). Each is a
  last-write-wins scan of an issue's timeline that yields hours spent in
  "dev" and in "review". The part they share lives in `Timeline`.
- **Triad extraction** from project-item field values (`TriadFetch`).

Inputs stand in for randomness and I/O:

- random draws are input matrices;
- `exp(err)` factors are positive reals;
- the GitHub timeline of an issue is a function from issue number to its
  event sequence;
- the GraphQL pages are a sequence of issue lists;
- timestamps are seconds on a common clock;
- `Size.classify` is a function parameter.

Raised exceptions become `Err` values of a `Result`.

Each operation is paired with a reference reading of it or with a
property it preserves (bounds, monotonicity, invariance under
reordering), and lemmas connect the two. The reference readings are:

- The CRPS closed form equals half the mean absolute pairwise difference.
- Each extractor's forward overwriting scan equals "the time of the last
  qualifying event", which is defined by searching backwards and
  characterised by quantifiers.
- `_num` returns the first answering node.
- The greedy plan has the shape "every non-XXL ticket before a stopping
  point". Every take but the last leaves the hours below the cap. A stop
  before the end of the list happens only when a take brought the hours
  up to the cap or the ticket there does not fit.

Modules: `Wrappers` (Option, Result), `RealSeqs` (sums, sorting, counting),
`Text` (ASCII lower-casing), `Tickets`, `Crps`, `Percentiles`, `Forecast`,
`RealEngine`, `Intake`, `Timeline`, `LabelDurations`, `ColumnDurations`,
`TriadFetch`.

## Model

| member | source | states |
|---|---|---|
| Tickets.BetaParams | src/sprintforecast/ticket.py:17-22 | Fails exactly when `optimistic < mode < pessimistic` does not hold strictly, so equal neighbours fail too. For every valid triad, `a + b = 6` and `1 < a, b < 5`. The Beta mode `o + (p - o)(a - 1)/4` lands exactly on the ticket's mode, which fixes `a = 1 + 4(m - o)/(p - o)` and then `b`. |
| Tickets.BaseDistribution | src/sprintforecast/ticket.py:24-26 | Fails under the same condition as `beta_params`. Otherwise the support is exactly `[optimistic, pessimistic]` with the same shapes, and the distribution's mode is the ticket's mode. |
| Tickets.BetaMeanIsPertMean | src/sprintforecast/ticket.py:20-26 | The mean of the rescaled Beta is the PERT mean `(o + 4m + p)/6`. |
| Tickets.SymmetricTriad | src/sprintforecast/ticket.py:20-21 | `a = b` exactly when the mode sits midway between the bounds; then `a = b = 3`. |
| Tickets.OrderingExamples | src/sprintforecast/ticket.py:18-22 | (1,2,3) gives shapes (3,3). (3,2,1) and the non-strict (2,2,3) are rejected. |
| Crps.Score | src/sprintforecast/forecast.py:25-30 | Fails exactly on an empty sample. Otherwise it is non-negative and equals half the mean absolute pairwise difference `Σ_i Σ_j \|x_i - x_j\| / (2n²)`. |
| Crps.RankForm | src/sprintforecast/forecast.py:26-30 | The closed form `0.5 · (2 / n²) · Σ_i (2i - n - 1) x_(i)` on a sample already in ascending order. Crps.ScoreIsHalfMeanGap equates it, on the sorted sample, with the pairwise form. |
| Crps.ScoreIsHalfMeanGap | src/sprintforecast/forecast.py:25-30 | The rank-weighted closed form over the sorted sample equals the pairwise-difference form on the original sample. |
| Crps.SortedPairGaps | src/sprintforecast/forecast.py:26-29 | For a sorted sample, `Σ_i Σ_j \|x_i - x_j\| = 2 Σ_i (2i - n - 1) x_(i)`. |
| Crps.CoefficientPartialSum | src/sprintforecast/forecast.py:28 | The coefficients `2i - n - 1` over i = 1..k sum to `k(k - n)`, so over all n they sum to 0. |
| Crps.ConstantSampleScoresZero | src/sprintforecast/forecast.py:28-30 | A constant sample has CRPS 0. |
| Crps.HalfMeanGapNonNegative | src/sprintforecast/forecast.py:29-30 | The CRPS is non-negative for every non-empty sample. |
| Crps.ScorePermutationInvariant | src/sprintforecast/forecast.py:26-30 | Permuting the sample does not change the CRPS. |
| Percentiles.Rank | src/sprintforecast/forecast.py:36 | The virtual index `(n - 1) q / 100` lies in `[0, n - 1]`. It is 0 at q = 0 and `n - 1` at q = 100. |
| Percentiles.RankMonotone | src/sprintforecast/forecast.py:36 | The virtual index does not decrease as q grows. |
| Percentiles.Interpolate | src/sprintforecast/forecast.py:36 | Linear interpolation lies between the two neighbouring order statistics. It equals the lower one at an integral index. |
| Percentiles.InterpolateMonotone | src/sprintforecast/forecast.py:36 | Interpolation does not decrease along the virtual index. |
| Percentiles.Percentile | src/sprintforecast/forecast.py:36 | A percentile lies between the smallest and largest sample. It attains them at q = 0 and q = 100. |
| Percentiles.PercentileMonotone | src/sprintforecast/forecast.py:36 | `q1 ≤ q2` implies percentile(q1) ≤ percentile(q2); hence `p50 ≤ p80 ≤ p95`. |
| Percentiles.PercentilePermutationInvariant | src/sprintforecast/forecast.py:36 | Percentiles depend only on the multiset of samples. |
| Forecast.Simulate | src/sprintforecast/forecast.py:16-23 | Gives one completion time per path. Completion time × capacity = sprint hours × `Σ_j growth[i][j] · sample[j][i]`. It fails with `NoTickets` exactly when there are no tickets, where `np.vstack` of an empty list raises. With tickets, it fails with `NoPaths` exactly when there are fewer than one path: a negative sample size is refused, and `reshape(0, -1)` cannot infer the width of a zero-row matrix. |
| Forecast.DegenerateSimulation | src/sprintforecast/forecast.py:18-23 | When every error factor and every capacity draw is 1 (the lognormal(0,0) case), each path takes sprint hours × the plain sum of its PERT samples. |
| Forecast.MoreCapacityFinishesSooner | src/sprintforecast/forecast.py:20-23 | Take non-negative samples, positive factors and non-negative sprint hours. Raising any path's capacity then never raises its completion time. |
| Forecast.OnTimeFraction | src/sprintforecast/forecast.py:33 | `P_goal` × number of paths = number of completion times ≤ sprint hours. Hence `P_goal` lies in [0, 1]. |
| Forecast.Brier | src/sprintforecast/forecast.py:34 | `P_goal (1 - P_goal)` lies in [0, 1/4]. It is 0 exactly when `P_goal` is 0 or 1. |
| Forecast.Summarize | src/sprintforecast/forecast.py:32-44 | Fails exactly on an empty sample. Otherwise: `P_goal` is the on-time fraction; Brier is `P_goal (1 - P_goal)` and lies in [0, 1/4]; CRPS is half the mean pairwise gap and ≥ 0; p50, p80 and p95 are the linear-interpolation percentiles of the times; and `min ≤ p50 ≤ p80 ≤ p95 ≤ max`. |
| Forecast.Summary | src/sprintforecast/forecast.py:31-44 | Fails exactly as the simulation does: `NoTickets` without tickets, and `NoPaths` with tickets but fewer than one path. On success, it scores the simulated completion times. `P_goal` is their on-time fraction and lies in [0, 1]. Brier is `P_goal (1 - P_goal)`. CRPS is half their mean pairwise gap and ≥ 0. p50, p80 and p95 are their percentiles, in order. |
| RealEngine.Sample | src/sprintforecast/real_engine.py:15-19 | One draw yields exactly the single row `durations`. More draws give a draws × n matrix, and every entry is some element of `durations`. |
| RealEngine.AllWithinIffNoCarry | src/sprintforecast/real_engine.py:25-27 | Every row's maximum is within the horizon exactly when no entry exceeds it. |
| RealEngine.CarryCountBound | src/sprintforecast/real_engine.py:27 | The total number of entries over the horizon is at most draws × n. |
| RealEngine.Rates | src/sprintforecast/real_engine.py:24-27 | The probability is the share of rows whose maximum is ≤ the horizon, in [0, 1]. The carry is the mean count per row of entries > the horizon, in [0, n]. The probability is 1 exactly when the carry is 0. |
| RealEngine.Forecast | src/sprintforecast/real_engine.py:21-28 | Fails before any sampling when `durations` is empty. Otherwise it returns the two statistics of the sampled matrix, with their bounds and the "probability 1 iff carry 0" link. |
| RealEngine.SingleDrawExample | src/sprintforecast/real_engine.py:17-18 | `durations = [5.0]`, 10 hours left and one draw give probability 1.0 and carry 0.0. |
| Intake.Mean | src/sprintforecast/cli.py:59-60 | The PERT mean `(o + 4m + p) / 6` of a ticket. Intake.MeanWithinTriad bounds it by the triad. |
| Intake.MeanWithinTriad | src/sprintforecast/cli.py:59-60 | The PERT mean lies in `[o, p]` whenever `o ≤ m ≤ p`. |
| Intake.SortByMean | src/sprintforecast/cli.py:62 | The result is ordered by mean and is a permutation of the input. |
| Intake.SortByMeanStable | src/sprintforecast/cli.py:62 | Tickets with equal means keep their input order, as Python's sort does. |
| Intake.SkipOverflow | src/sprintforecast/cli.py:68-69 | A ticket that would push `used` over the cap is skipped. The first such position is remembered. |
| Intake.SkipOversized | src/sprintforecast/cli.py:70-72 | A fitting XXL ticket is skipped. Since the list is sorted, no earlier ticket can have overflowed at that point. |
| Intake.Take | src/sprintforecast/cli.py:70-76 | A fitting ticket of another size goes to the end of its bucket, and `used` grows by its mean. The scan is marked full once `used ≥ cap`. |
| Intake.TakeKeepsTally | src/sprintforecast/cli.py:73-74 | Taking a ticket keeps `used` equal to the sum of the taken means. It keeps each bucket equal to the taken tickets of that size, in order. |
| Intake.ZeroCapTakesFreeTicket | src/sprintforecast/cli.py:66-76 | With a cap of 0, a single zero-mean ticket that is not XXL must be taken: the empty plan does not have the greedy shape, because the cap test at line 75 runs only after a take. |
| Intake.ZeroCapStopsAfterFirstTake | src/sprintforecast/cli.py:66-76 | With a cap of 0 and two zero-mean tickets that are not XXL, only the first is taken: the cap test at line 75 ends the scan after the first take. |
| Intake.ScanDone | src/sprintforecast/cli.py:66-76 | A finished scan leaves the XXL bucket empty and has the greedy shape. |
| Intake.Fill | src/sprintforecast/cli.py:64-76 | The loop ends with four guarantees. `used` is the sum of the taken means. Each bucket holds, in order, exactly the taken tickets that `classify` sends to it. No XXL ticket is taken, and `used ≤ cap` when anything is taken. The taken positions are all non-XXL positions before a stopping point, Every take but the last left `used` below the cap. A stop before the end of the list happens only when a take has brought `used` up to the cap, or when the ticket there, and so every later one, no longer fits. A cap of 0 therefore neither stops the scan before the first take nor lets it go on after one. |
| Intake.Plan | src/sprintforecast/cli.py:57-76 | The cap is `team · length · 6`. Tickets are considered in non-decreasing order of mean. The loop's guarantees hold for the sorted list. |
| Text.LowerMatches | src/sprintforecast/label_durations.py:21 | Lower-casing a name and comparing it with a lower-case word is a case-insensitive match, in both directions. |
| Text.LowerExamples | src/sprintforecast/label_durations.py:21 | "DEV" and "Dev" lower-case to "dev", and "Review" to "review". "devs" does not lower-case to "dev". |
| Timeline.LastTimeIsLast | src/sprintforecast/label_durations.py:23-32 | A stamp is absent exactly when no event qualifies. Otherwise it is the time of the last qualifying event. |
| Timeline.LastTimeSkip | src/sprintforecast/duration_extractor.py:25-32 | An event that does not qualify for a stamp can be dropped from anywhere without changing that stamp. |
| Timeline.Hours | src/sprintforecast/label_durations.py:33-48 | A stage length exists exactly when both stamps do. Length × 3600 = end − start, with no sign check. |
| Timeline.AddIssue | src/sprintforecast/label_durations.py:33-48 | The tail of an issue's loop: each stage's output gains `(end - start) / 3600` exactly when both of its stamps are present, and is otherwise unchanged. The column extractor's tail at duration_extractor.py:33-44 is the same. |
| Timeline.CollectOne | src/sprintforecast/duration_extractor.py:33-44 | An issue adds a value to a stage exactly when both of that stage's stamps are present. |
| Timeline.CollectAppend | src/sprintforecast/label_durations.py:18-49 | The outputs follow issue order across any split of the issue list. |
| LabelDurations.Scan | src/sprintforecast/label_durations.py:19-32 | The forward, overwriting event loop yields, for each stamp, the time of the last event that sets it. |
| LabelDurations.Extract | src/sprintforecast/label_durations.py:16-49 | Each issue contributes at most one dev value and one review value, in issue order, each present exactly when both of its stamps are. Hence each output is no longer than the issue list. |
| LabelDurations.ExpectedIsLast | src/sprintforecast/label_durations.py:23-32 | The last "labeled dev" event sets the dev start and the last other "dev" event sets the dev end; review works the same way. Each stamp is absent when no such event exists. |
| LabelDurations.DevEventKeepsReview | src/sprintforecast/label_durations.py:23-32 | A "dev" event never changes the review stamps. |
| LabelDurations.ReviewEventKeepsDev | src/sprintforecast/label_durations.py:23-32 | A "review" event never changes the dev stamps. |
| LabelDurations.AnyCaseSetsDevEnd | src/sprintforecast/label_durations.py:21-27 | An unlabel event whose name spells "dev" in any letter case sets the dev end. It leaves the dev start alone. |
| LabelDurations.TwoHourExample | src/sprintforecast/label_durations.py:21-48 | "Dev" labeled at 0 s and "dev" unlabeled at 7200 s give 2.0 dev hours and no review hours. |
| ColumnDurations.Scan | src/sprintforecast/duration_extractor.py:19-32 | The forward, overwriting event loop yields, for each stamp, the time of the last move that sets it. |
| ColumnDurations.Extract | src/sprintforecast/duration_extractor.py:16-45 | Each issue contributes at most one value per stage, in issue order, each present exactly when both of its stamps are. Hence each output is no longer than the issue list. |
| ColumnDurations.ExpectedIsLast | src/sprintforecast/duration_extractor.py:25-32 | Entering "dev" sets the dev start and leaving it sets the dev end; review works the same way. The last such move wins, and a stamp is absent when no such move exists. |
| ColumnDurations.DevToReview | src/sprintforecast/duration_extractor.py:25-32 | One move from "dev" to "review" sets the dev end and the review start to the same time. It changes nothing else. |
| ColumnDurations.CardlessEventIgnored | src/sprintforecast/duration_extractor.py:21-23 | An event without a project card changes no stamp, wherever it appears. |
| ColumnDurations.CaseSensitive | src/sprintforecast/duration_extractor.py:25-26 | A move into "Dev" does not count as a move into "dev". |
| TriadFetch.Num | src/sprintforecast/triad_fetcher.py:67-73 | Absent exactly when no node has a lower-cased name equal to the key and a non-null number. Otherwise it is the number of the first such node. |
| TriadFetch.NamelessNeverMatches | src/sprintforecast/triad_fetcher.py:70-71 | A node with a missing field or name never answers a non-empty key. |
| TriadFetch.NumExample | src/sprintforecast/triad_fetcher.py:67-73 | Names match in any case, and a null number is passed over. The first answering node wins. |
| TriadFetch.ItemEstimates | src/sprintforecast/triad_fetcher.py:82-87 | An item of another project yields nothing. An item of the project yields its o, m and p exactly when all three are present. TriadFetch.FirstEstimates builds on it. |
| TriadFetch.FirstEstimates | src/sprintforecast/triad_fetcher.py:81-89 | Absent exactly when no item of the project has all three of o, m and p. Otherwise it holds the estimates of the first such item. |
| TriadFetch.OtherProjectIgnored | src/sprintforecast/triad_fetcher.py:82-83 | An item of another project can be inserted anywhere without changing what the issue yields. |
| TriadFetch.Select | src/sprintforecast/triad_fetcher.py:81-89 | The item loop with its `continue` and `break` yields the issue's row, carrying that issue's number and title. |
| TriadFetch.FetchPage | src/sprintforecast/triad_fetcher.py:80-89 | A page yields at most one row per issue, in issue order. |
| TriadFetch.Fetch | src/sprintforecast/triad_fetcher.py:75-93 | The output is the rows of all issues of all pages in page order. It is no longer than the number of issues. |
| TriadFetch.RowsAppend | src/sprintforecast/triad_fetcher.py:76-93 | Output order follows issue order within and across pages. |
| TriadFetch.RowsFromIssues | src/sprintforecast/triad_fetcher.py:80-89 | Every output row is the row of some input issue. |

## Left out

- Random sampling is not modelled: the PERT, error and capacity
  distributions, `rng.choice` and the RNG singleton. Samples and
  resampling positions are inputs, so nothing is claimed about their
  distribution.
- `np.exp`, `log` and floating-point rounding: the model uses exact real
  arithmetic, and the error factors `exp(err)` are given as positive reals.
- GitHub I/O is not modelled: the GraphQL POST, `raise_for_status`, the
  `errors` check and missing-repository fallback of `_run`, cursor
  pagination and `TimelineFetcher`. Pages and per-issue event sequences
  are given, already filtered to the requested event types.
- ISO-8601 parsing: timestamps are given as seconds. An empty
  `created_at` string, which is falsy in the source's `if di and do`,
  cannot be represented.
- JSON `null` where the source expects a dictionary or string is not
  modelled. This covers a `null` label, project card or field name, and
  the source would raise on these. A missing key is modelled as an absent
  value.
- Lower-casing covers ASCII letters only; Python's `str.lower` also maps
  other Unicode letters.
- The rest of `cli.py` (the `forecast` and `post-note` commands, token
  lookup, printing) is not modelled. Neither is the early exit when no
  triads were fetched, which comes before line 57.
- `demo.py` (plotting) and `build_strategies.py` (wrappers over strategy
  classes) are not part of this model. QueueSimulator, IntakePlanner,
  `Size.classify` and the other unseen components are not part of it
  either; `classify` is a parameter.
- `triad_fetcher.py` builds `Ticket(o, m, p)` from another module than
  `ticket.py`'s `Ticket`, and `cli.py` reads `tr.ticket` from those rows.
  Each file is modelled on its own terms. The planner takes candidates
  that carry a `Tickets.Ticket`.
- RealEngine.Forecast: fewer than one draw is an error (`NoDraws`). In the
  source, zero draws give NaN statistics and a negative count makes numpy
  raise.
- Percentiles.Percentile: defined for q in [0, 100] only, the range numpy
  accepts; the summary uses 50, 80 and 95.
- Intake.Plan: the ghost stopping point is stated as an existential over
  positions, not as an executable index.
