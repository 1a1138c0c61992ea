# A/B test calculator core in Dafny

This project models the statistical solver of a browser-based A/B test
calculator, together with the traffic-allocation and duration logic around it.
It covers:

- the inverse normal CDF `normSInv` (Acklam's rational approximation);
- the forward solver `calculateSampleSize`: multiple-comparison correction,
  z-scores by test type, variance model and buffer;
- the two versions of `calculateMDE`;
- the inverse solver `calculateMDEFromSampleSize` with its quadratic root
  finder `solveQuadratic`;
- the equal traffic split and the slider rebalancing `distributeAdjustment`;
- `getVariantDistributions`, `calculateTestDuration`, `calculateMDEFromDuration`
  and the text formatter `formatTimeEstimate`.

Numbers are Dafny `real`s, so arithmetic is exact. JavaScript's `Infinity` and
`NaN` are `Extended.NonFinite`. The thrown "Argument p must be a probability"
error is `Result.InvalidProbability`. `Math.sqrt`, `Math.log` and the
fractional `Math.pow` are not computed: they are fields of a `MathLib` value
passed in. The proofs rely only on `Lawful(m)`, which says that `sqrt` is the
non-negative square root and `log` is negative on (0, 1).

Modules, in dependency order:

| file | module | what |
|---|---|---|
| numerics.dfy | `Numerics` | `MathLib`, `Extended`, `Option`, `Result`; `Math.ceil`, `Math.round`, clipping |
| normal_quantile.dfy | `NormalQuantile` | `normSInv` |
| test_types.dfy | `TestTypes` | the test-type and correction strings, read by strict equality |
| sample_size.dfy | `SampleSize` | `calculateSampleSize` |
| effect_model.dfy | `EffectModel` | `calculateMDE` of both modules |
| mde_inverse.dfy | `MdeInverse` | `solveQuadratic`, `calculateMDEFromSampleSize` |
| round_trip.dfy | `RoundTrip` | MDE → sample size → MDE |
| traffic_split.dfy | `TrafficSplit` | equal split, `distributeAdjustment` |
| distributions.dfy | `Distributions` | `getVariantDistributions` |
| duration.dfy | `Duration` | `calculateTestDuration`, `calculateMDEFromDuration` |
| time_estimate.dfy | `TimeEstimate` | `formatTimeEstimate` |
| label_aliases.dfy | `LabelAliases` | the "superiority"/"two-tailed" labels (see Findings) |

Notes on the code's behaviour:

- `solveQuadratic` returns `root1` when it is positive. For `a > 0` this is the
  largest root of the equation (`MdeInverse.SolveQuadraticLargest`).
- The test-type dispatch recognises only the exact strings "one-sided",
  "two-sided", "non-inferiority" and "equivalence". Every other string,
  including "superiority" and "two-tailed", falls into each function's default
  branch (`TestTypes.ParseTestType`).
- The sample size is computed for equal allocation. Uneven traffic only
  changes the daily visitors of the limiting arm (`Duration.DailyVisitors`).

## Model

| member | source | states |
|---|---|---|
| Numerics.Ceil | app/statistics.js:136 | `Math.ceil`: the least integer not below x |
| Numerics.Round | app/app.js:519 | `Math.round`: the nearest integer, with halves rounded up |
| NormalQuantile.NormSInv | app/statistics.js:20-68 | throws exactly outside the open interval (0, 1), carrying p. On the central region it is positive exactly above 1/2 and zero exactly at 1/2 |
| NormalQuantile.CentralDenominatorPositive | app/statistics.js:56-59 | the central region's denominator never vanishes on the whole region [p_low, p_high] |
| NormalQuantile.TailDenominator | app/statistics.js:48-51 | the tail denominator is at least 1 for q >= 0, so the tail formulas never divide by zero |
| NormalQuantile.NormSInvOdd | app/statistics.js:46-66 | on (0, 1) the approximation is odd about 1/2, region by region: normSInv(1 - p) = -normSInv(p) |
| NormalQuantile.NormSInvHalf | app/statistics.js:52-59 | normSInv(0.5) is exactly 0 |
| TestTypes.ParseTestType | app/statistics.js:99-110 | strict string equality: the four names map to their types and anything else is kept as `Other`, so the name always reads back |
| TestTypes.ParseNameRoundTrip | app/statistics.js:99-110 | parsing inverts naming on every canonical test type |
| TestTypes.FixtureLabelsAreOther | app/tests.js:131 | the fixture labels "superiority" and "two-tailed" are not recognised |
| TestTypes.ParseCorrection | app/statistics.js:86-96 | "none", "bonferroni" and "sidak" are recognised; anything else is an unknown correction carrying its name |
| SampleSize.AdjustAlpha | app/statistics.js:82-97 | alpha is unchanged for at most two variants or for no/unknown correction; Bonferroni gives alpha / (k - 1) and never exceeds alpha; Šidák gives 1 - (1 - alpha)^(1/(k-1)) |
| SampleSize.ForwardQuantileArgs | app/statistics.js:99-110 | the quantile arguments per test type: equivalence uses (1 - a, (1 + power)/2); one-sided and non-inferiority use (1 - a, power); everything else is two-sided, (1 - a/2, power) |
| SampleSize.ZScores | app/statistics.js:99-110 | succeeds exactly when both arguments are probabilities; otherwise fails with the first bad argument, as the throw order dictates |
| SampleSize.ClipRate | app/statistics.js:112-116 | the clipped rate lies in [1e-12, 1 - 1e-12] and equals the rate when the rate is already inside |
| SampleSize.Variances | app/statistics.js:117-130 | both variances lie in (0, 1/4]; the margin tests use the baseline variance twice; the others use the treatment variance for the treatment arm |
| SampleSize.SizeForZ | app/statistics.js:131-135 | the size is non-finite exactly for a zero effect. A finite size times effect² equals the buffer factor times (zα + zβ)² (varC + varT), the equation the inverse solver solves; it is non-negative for a non-negative buffer factor and positive for a positive one and a non-zero z sum |
| SampleSize.UnroundedSampleSize | app/statistics.js:70-135 | throws exactly when the quantiles throw; non-finite exactly for a zero absolute effect (baseline rate × relative effect); otherwise the size times the squared absolute effect is the buffered (zα + zβ)² (varC + varT), and it is non-negative for a non-negative buffer factor |
| SampleSize.CalculateSampleSize | app/statistics.js:70-137 | throws exactly when the quantiles throw; non-finite exactly for a zero absolute effect; otherwise the ceiling of the unrounded size, within 1 of it |
| SampleSize.SampleSizeBufferMonotone | app/statistics.js:135-136 | a larger buffer never gives a smaller rounded sample size |
| SampleSize.MarginSizeDependsOnMagnitude | app/statistics.js:118-134 | for the margin tests, effects of equal magnitude need the same size |
| SampleSize.MarginSizeAntitoneInEffect | app/statistics.js:118-134 | for the margin tests, a larger effect never needs more visitors, before or after rounding |
| EffectModel.Direction | app/statistics.js:143 | -1 exactly for non-inferiority |
| EffectModel.CalculateMDE | app/statistics.js:139-159 | the target moves from the baseline by the absolute effect, downwards exactly for non-inferiority. relMDE times the baseline is the move, Infinity for a zero baseline below a positive target, and 0 otherwise |
| EffectModel.RelativeEffectRecoversInput | app/statistics.js:139-159 | for a positive baseline, relMDE is the entered percentage / 100 in relative mode, or the entered points over the baseline in absolute mode, signed by the direction |
| EffectModel.TargetSide | app/statistics.js:143-147 | for positive inputs the target lies below the baseline exactly for non-inferiority |
| EffectModel.LegacyMDE | app/app.js:1093-1112 | the older version: target = baseline × (1 + relMDE). In absolute mode the target is exactly the entered points above the baseline, and relMDE is non-finite exactly for a zero baseline |
| EffectModel.LegacyAgreesWithCurrent | app/app.js:1093-1112 | for a positive baseline the older version equals the current one on every test type except non-inferiority |
| EffectModel.LegacyDiffersOnNonInferiority | app/app.js:1093-1112 | for non-inferiority with a non-zero effect the older version's target differs from the current one |
| MdeInverse.SolveQuadratic | app/statistics.js:222-232 | `null` for a negative discriminant. A finite result is a positive root. Infinity arises exactly for a = 0 and b < 0. With a > 0 and c < 0 a finite root is always found |
| MdeInverse.SolveQuadraticLargest | app/statistics.js:227-230 | for a > 0 the returned root is the largest root of the equation |
| MdeInverse.SolveQuadraticComplete | app/statistics.js:222-232 | with a ≠ 0, `null` is returned only when the equation has no positive root |
| MdeInverse.InverseQuantileArgs | app/statistics.js:178-203 | the inverse solver's quantile arguments: two-sided takes (1 - a/2, power); equivalence takes (1 - a, (1 + power)/2); every other type, recognised or not, takes (1 - a, power) |
| MdeInverse.QuantileArgsAgree | app/statistics.js:178-203 | the inverse and forward solvers take the same quantiles for the four recognised types, and different ones for every unrecognised type when the adjusted alpha is non-zero (at alpha 0 both take (1, power)) |
| MdeInverse.QuadraticMDE | app/statistics.js:187-194 | a finite result is a positive root of (n + Z²) x² + Z² (2p - 1) x - 2 Z² p (1 - p) |
| MdeInverse.MarginMDE | app/statistics.js:205-208 | NaN/Infinity exactly for a negative variance or a non-positive n; otherwise non-negative for a non-negative z |
| MdeInverse.ToPercent | app/statistics.js:210-219 | relative mode gives proportion / rate × 100 (non-finite for a zero rate); absolute mode gives proportion × 100; positive proportions give positive percentages |
| MdeInverse.Proportion | app/statistics.js:162-211 | `mde_proportion`: with a -100 % buffer it is finite, and then 0, exactly on the margin branch with a non-zero sample and a baseline variance that is not negative (sqrt(2 / Infinity) is 0). Otherwise a finite quadratic-branch result is positive, and a finite margin-branch result needs a positive unbuffered size |
| MdeInverse.MDEFromSampleSize | app/statistics.js:160-220 | throws exactly when its quantiles throw. With a buffer of -100 % the unbuffered size is infinite: the result is finite, and then 0, exactly on the margin branch with a non-zero sample, a baseline in [0, 100] and (in relative mode) a non-zero baseline. Otherwise a finite quadratic-branch result is a positive MDE (in relative mode, for a positive baseline), and a finite margin-branch result needs a positive unbuffered size |
| MdeInverse.FullBufferMarginIsZero | app/statistics.js:161-219 | non-inferiority with a -100 % buffer, baseline 5 % and 1000 visitors per arm: `Math.sqrt(2 / Infinity)` is 0, so the MDE is 0 |
| MdeInverse.QuadraticInverts | app/statistics.js:187-194 | applied to the forward requirement of a positive effect x (0 < p, p + x < 1), the quadratic branch returns x |
| MdeInverse.MarginInverts | app/statistics.js:205-208 | applied to the margin tests' forward requirement of a positive effect x, the margin branch returns x |
| RoundTrip.RoundTripQuadratic | app/statistics.js:160-220 | for one-sided and two-sided tests, the inverse solver applied to the forward solver's unrounded size gives back the entered MDE |
| RoundTrip.RoundTripMargin | app/statistics.js:160-220 | the same round trip for non-inferiority (the magnitude of the negated margin) and equivalence |
| TrafficSplit.EqualSplit | app/app.js:601-608 | k shares summing to 100; every arm but A gets the same share, and A's surplus is in [0, k) |
| TrafficSplit.EqualSplitUnique | app/app.js:432-437 | any k shares with those properties are exactly the equal split, so both copies of the split compute the same thing |
| TrafficSplit.PriorityOrder | app/app.js:530-537 | a permutation of the slider indices, sorted by value (descending when reducing, ascending otherwise), with ties kept in index order as a stable sort keeps them |
| TrafficSplit.SortedOrderUnique | app/app.js:530-537 | any two index orders sorted that way are equal, so the order does not depend on the sorting algorithm |
| TrafficSplit.ClampShare | app/app.js:521 | the result lies in 1..99 and is the input when the input is already in range |
| TrafficSplit.FirstPass | app/app.js:513-526 | each slot gets its rounded, clamped proportional part; `left` is exactly what the clamping left undone |
| TrafficSplit.SecondPass | app/app.js:527-561 | values stay in 1..99 and move one way only. Points moved plus points left equal the points asked for. Points are left only after the full 100 rounds |
| TrafficSplit.Fallback | app/app.js:562-580 | nothing changes with points still to add; with points still to remove, every slot becomes 1 plus its share of the rest, capped at 98 each, which totals 100 when 2 <= n <= 99 |
| TrafficSplit.DistributeAdjustment | app/app.js:507-593 | no sliders leaves everything unchanged. Results stay in 1..99. Total moved plus total left equals the adjustment, unless points to remove are left, in which case the fallback shares are set |
| Distributions.VariantDistributions | app/app.js:660-684 | fractions in arm order, but only when every slider exists. The lowest share is in (0, 1], at most every share read, and 1 or one of them. The split is unequal exactly when a later slider differs from the first one read |
| Distributions.PresentLength | app/app.js:679-680 | as many fractions as arms exactly when every slider exists |
| Duration.DailyVisitorsPositive | app/app.js:695-703 | positive visitors and a positive lowest share give the limiting arm positive daily visitors |
| Duration.TestDuration | app/app.js:686-707 | 0 days without visitors; non-finite exactly when the limiting arm gets no visitors. Otherwise d days with (d - 1) × daily < n <= d × daily |
| Duration.DurationIsLeast | app/app.js:698-703 | the duration is the least whole number of days whose visitors reach the sample size |
| Duration.MDEFromDuration | app/app.js:1114-1131 | throws exactly when the inverse solver's quantiles throw; with a -100 % buffer a finite result is 0; otherwise a finite quadratic-branch result is positive (in relative mode, for a positive baseline) and a finite margin-branch result needs a positive unbuffered sample |
| Duration.DurationOfDaysSample | app/app.js:1114-1131 | the sample credited to d whole days needs exactly d days, so duration and MDE-from-duration use the same daily visitors |
| TimeEstimate.NumeralRoundTrip | app/app.js:796 | the decimal numeral a template literal prints reads back as the number |
| TimeEstimate.FormatIsRendered | app/app.js:792-822 | `FormatTimeEstimate(days)`, the branch-by-branch translation of `formatTimeEstimate`, is the breakdown's terms ("N unit", with a plural "s" unless N is 1) joined by " and " |
| TimeEstimate.BreakdownValue | app/app.js:797-821 | the terms are exact below 30 days, and also from 30 days when no weeks are shown; otherwise they fall short by fewer than 7 days. Every term but "0 days" has a positive count, and a second term is under one unit of the first |
| TimeEstimate.PluralUnlessOne | app/app.js:796 | the plural "s" is written exactly when the count is not 1 |
| TimeEstimate.FormatDeterminesBreakdown | app/app.js:792-822 | reading the text back gives the breakdown, so different breakdowns never print alike |
| LabelAliases.TwoTailedRoundTripFails | app/statistics.js:106-110 | as written: under the label "two-tailed" (baseline 5 %, relative MDE 10 %, alpha .05, power .8, two arms), the inverse solver does not return 10 % from the forward solver's size |
| LabelAliases.ParseTestTypeWithAliases | app/statistics.js:99-110 | corrected reading: "superiority" is one-sided, "two-tailed" is two-sided, and any other string reads as before |
| LabelAliases.AliasesAgree | app/statistics.js:99-110 | the alias-aware reading gives each type from both its name and its alias |
| LabelAliases.TwoTailedRoundTripWithAliases | app/statistics.js:160-220 | with the alias read, the same fixture's round trip returns 10 % |
| LabelAliases.AliasRoundTrip | app/statistics.js:160-220 | for "superiority" and "two-tailed" read as aliases, the round trip holds under the same conditions as for the canonical names |

## Left out

- I/O and the DOM are not modelled: sliders, inputs, tables, charts, CSV export, URL state and `console.warn`. Slider reads become a sequence of optional values, and the writes back to sliders become the returned sequence.
- The service worker files and the Python fixture generator are not part of this model.
- app/tests.js is not modelled. Only its fixture labels and one symmetry fixture appear, in `LabelAliases`.
- app/app.js repeats `calculateSampleSize`, `normSInv` and `calculateMDEFromSampleSize` (app/app.js:25-152 and 1133-1205). Each is modelled once. Its default test type is "two-sided" (app/app.js:86), while app/statistics.js:77 uses "one-sided". The model passes the test type explicitly, so neither default appears.
- Floating point is not modelled: rounding error, overflow, NaN propagation and `-0`. Reals are exact.
- NormalQuantile.NormSInv: states the domain check, the region structure, the sign and the odd symmetry. It does not state the approximation's accuracy (about 1.15e-9 relative error), because the true quantile function is not defined here.
- SampleSize.AdjustAlpha: the Šidák power is an uninterpreted `Pow`, so no law of `Math.pow` (for example that Šidák lies between Bonferroni and alpha) is stated.
- RoundTrip.RoundTripQuadratic: the round trip is proved for the unrounded size. The source rounds the size up first, so its round trip holds only approximately. It also needs the baseline and target inside the clipping bounds and a non-zero z sum.
- RoundTrip.RoundTripMargin: also proved for the unrounded size and a positive z sum.
- Duration.TestDuration: needs a positive variant count, which is all the variant selector offers. Sample sizes and durations are taken as finite.
- Duration.MDEFromDuration: the parameters are passed in rather than read from the page. Its contract states the error, buffer and sign conditions, not the value; the link to the duration is `Duration.DurationOfDaysSample`.
- TimeEstimate.FormatIsRendered: days are natural numbers. The source receives the output of `Math.ceil`, so it never sees fractions. It can see negative numbers: the `bf` URL parameter sets the buffer unchecked (app/app.js:1579-1581), a buffer below -100 % makes the sample size and the duration negative, and the page prints such a duration as "-N days" (app/app.js:795-796). Those negative durations are not modelled. It can also see Infinity: an empty MDE field reads as 0 (app/app.js:1081), the sample size and the duration are then Infinity, and app/app.js:729 formats that duration as "Infinity months". That case is not modelled.
- TrafficSplit.DistributeAdjustment: the model returns `left`, the points the passes could not place. The source discards that value after the warning.

## Findings

| source | as written | input that shows it | evidently intended | confidence | as-written member | corrected member |
|---|---|---|---|---|---|---|
| app/statistics.js:100-110, 178-209 | Only the exact strings "one-sided", "two-sided", "non-inferiority" and "equivalence" are recognised. The forward solver treats any other label as two-sided with the treatment variance; the inverse solver treats it as one-tailed with the margin formula. The regression and symmetry fixtures use "superiority" and "two-tailed". | baseline 5 %, relative MDE 10 %, alpha 0.05, power 0.8, 2 variants, no buffer, no correction, label "two-tailed" (fixture at app/tests.js:752-761): the inverse solver does not return 10 % | "superiority" means one-sided and "two-tailed" means two-sided, in both solvers, so that MDE → sample size → MDE returns the entered MDE | medium, not executed | LabelAliases.TwoTailedRoundTripFails | LabelAliases.ParseTestTypeWithAliases |
