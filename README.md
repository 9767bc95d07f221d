# Resource optimiser core: task-duration estimate and search primitives

This project models, in Dafny, the two pieces at the heart of the deadline-driven
resource optimiser:

- **The task-duration estimate of a work unit** (`schemas/works.py`).
  - The workers assigned to a task are grouped into pools by name.
  - Each requirement with a positive minimum turns its pool into a time:
    - the pool's total headcount must reach the minimum, otherwise the task can never finish;
    - the sum of the records' productivities, divided by the pool's headcount (the sum of the records' counts), is scaled by the communication coefficient;
    - zero productivity is again infeasible;
    - otherwise the time is `volume // productivity`.
  - The task takes the largest of zero and these times. The list of times is seeded with `Time(0)`, so the result is zero when no requirement binds, and a negative time never wins.
  - `estimate_static` first asks an external estimator and falls back to this computation with static productivity. `estimate_stochastic` uses sampled productivities.
- **The generic search primitives** (`utils/base_opt.py`):
  - the integer bracket search `dichotomy_int`;
  - the real bracket search `dichotomy_float`;
  - the single left-to-right sweep `coordinate_descent`, which runs a scalar search on one coordinate at a time.

Files:

- `times.dfy` (module `Times`): durations are `Finite(units)` or `Inf`. They have a total order, `Max`, and `MaxOf` (Python's `max` over a list). The module also holds `Option`.
- `works.dfy` (module `Works`): the estimate.
  - `AbstractEstimate` is the source's imperative loop, proved equal to the recursive specification `Estimate`.
  - The rest are the properties of `Estimate`.
- `base_opt.dfy` (module `BaseOpt`): the three searches.
  - Each is a method with the source's loop, proved equal to a recursive specification function.
  - The properties are proved about those functions.

Modelling choices:

- **Productivity** is a parameter `prod: (Worker, nat) -> real`. `prod(w, k)` is the productivity reported for record `w` at the k-th productivity draw of one estimate.
  - The static getter ignores `k`.
  - A stochastic getter reads the k-th sample of its random stream. A pool's draws are numbered in pool order, and the pools in requirement order, as the source consumes them.
- **Floats are `real`.** `a // b` on floats is `(a / b).Floor`, and `x >> 1` is `x / 2` (both floor).
- **The `Time` class** is not part of this model. `Time(x)` is taken as `Finite(x)` of the floored quotient, and `Time.inf()` as `Inf`.
- **The external estimator** is an optional function `(name, volume, counts) -> Time`.

## Model

| member | source | states |
|---|---|---|
| Times.Max | schemas/works.py:70 | the larger of two durations bounds both and is one of them; Inf absorbs |
| Times.MaxOf | schemas/works.py:70 | `max(times)` is an element of the list and bounds every element |
| Works.CommunicationCoefficient | schemas/works.py:85-88 | the closed-form cubic, defined only for max_count != 0 (the source divides by zero there); its meaning is stated by the lemmas below |
| Works.CoefficientOfOneCrew | schemas/works.py:85-88 | a single crew has coefficient exactly 1, for every m != 0 |
| Works.CoefficientStep | schemas/works.py:84-88 | one more crew adds exactly 1 - n²/m² to the coefficient |
| Works.CoefficientIsPenaltySum | schemas/works.py:84-88 | the closed-form cubic equals the sum over x = 1..n of 1 - (x-1)²/m² given in the comment above it |
| Works.CoefficientGrowsIff | schemas/works.py:81-88 | coeff(n+1, m) >= coeff(n, m) if and only if n <= abs(m) |
| Works.CoefficientCanBeNegative | schemas/works.py:85-88 | three crews with max_count 1 give coefficient -2: nothing keeps it positive |
| Works.ScaledProductivity | schemas/works.py:65-66 | the productivity sum over the headcount, times the communication coefficient; it is zero exactly when the sum is zero or the coefficient is zero, the cases that make the requirement's time `Inf` |
| Works.EstimateFrom | schemas/works.py:56-70 | the estimate over the remaining requirements after k draws; never below `Time(0)`, the seed of the source's list of times (proved through the recursive calls' contracts) |
| Works.Estimate | schemas/works.py:56-70 | what `_abstract_estimate` returns, from the first draw; never below `Time(0)` |
| Works.GroupByName | schemas/works.py:53-55 | after the grouping loop, `groups[name]` is exactly the records named `name`, in list order, for every name |
| Works.AbstractEstimate | schemas/works.py:50-70 | the loop (skipping, early `Time.inf()` returns, collected times, final max) returns `Estimate` of the requirements, workers and productivity |
| Works.EstimateStochastic | schemas/works.py:47-48 | the stochastic estimate is the abstract estimate over the random draws |
| Works.EstimateStatic | schemas/works.py:36-45 | with an estimator whose time on (stage-less name, volume, counts by resource name) is positive, that time, without any requirement on max_count; otherwise the abstract estimate with static productivity |
| Works.BeforeFirst | schemas/works.py:41 | `name.split("_stage_")[0]` is a prefix of the name, ends at the first occurrence of the separator or is the whole name, and holds no occurrence |
| Works.RemoveAll | schemas/works.py:40 | `replace("_res_fact", "")` never lengthens a name and leaves a name without the pattern unchanged |
| Works.RemoveAllDropsLeftmost | schemas/works.py:40 | `replace` works from the left: the text before the first occurrence is kept, that occurrence is dropped, and the rest is processed in the same way; with the no-occurrence clause of `RemoveAll` this determines the result |
| Works.AgentCounts | schemas/works.py:40 | the keys of the counts given to the estimator are exactly the workers' resource names |
| Works.LastRecordWins | schemas/works.py:40 | for a repeated resource name, the count of its last record is the one passed on |
| Works.StaticProductivity | schemas/works.py:73-74 | the static getter: a record's static productivity, whatever the draw |
| Works.StaticIsDrawIndependent | schemas/works.py:73-74 | the static getter gives the same productivity at every draw |
| Works.NoBindingRequirementsTakeNoTime | schemas/works.py:56-59 | with no requirement, or only min_count = 0 ones, the estimate is `Time(0)` for any workers and productivity |
| Works.EstimateFromBoundsRequirement | schemas/works.py:69-70 | each binding requirement's time, at its draw offset, is at most the estimate |
| Works.EstimateFromAttained | schemas/works.py:56-70 | the estimate is `Time(0)` (result `None`) or the time of the binding requirement whose index it returns |
| Works.EstimateIsMax | schemas/works.py:56-70 | the estimate is the max of `Time(0)` and the binding requirements' times: at least each of them, and equal to zero or to one of them |
| Works.ShortPoolIsInfeasible | schemas/works.py:60-64 | a binding requirement whose pooled headcount is below min_count makes the estimate `Inf` |
| Works.ZeroProductivityIsInfeasible | schemas/works.py:65-68 | a binding requirement whose scaled productivity is exactly 0 makes the estimate `Inf` |
| Works.InfeasibleHasCause | schemas/works.py:60-68 | conversely, an `Inf` estimate has a binding requirement with a short pool or zero scaled productivity |
| Works.OvercrowdedUnitTakesNoTime | schemas/works.py:65-70 | three masons on a task allowing one get negative productivity, which is not infeasible: the negative time is masked and the estimate is 0 |
| Works.EstimateFromDependsOnPools | schemas/works.py:53-62 | two worker lists with the same pools for every requirement type give the same estimate |
| Works.UnmatchedWorkerIsIgnored | schemas/works.py:53-62 | inserting a record whose name matches no requirement type, anywhere, leaves the estimate unchanged |
| Works.DrawnPermutation | schemas/works.py:65 | with draw-independent productivity, the pool's productivity sum does not depend on the order of the pool |
| Works.CommandsPermuted | schemas/works.py:53-55 | permuting the worker list permutes every pool |
| Works.ReqTimePermuted | schemas/works.py:60-69 | with draw-independent productivity, a requirement's time depends only on the pool as a multiset |
| Works.EstimateFromIgnoresOrder | schemas/works.py:53-70 | with draw-independent productivity, reordering the worker list does not change the estimate |
| Works.StaticEstimateIgnoresOrder | schemas/works.py:50-70 | the estimate with static productivity does not depend on the order of the worker list |
| BaseOpt.DichotomyIntOf | utils/base_opt.py:19-32 | when lo <= hi the result lies in [lo, hi] |
| BaseOpt.DichotomyInt | utils/base_opt.py:19-32 | the `while` loop terminates for all integers and returns the search result, which lies in the bracket when lo <= hi |
| BaseOpt.MiddlePointsAdjacent | utils/base_opt.py:21-24 | x2 == x1 + 1, so the `x1 == x2` early return is unreachable; both lie strictly inside a bracket wider than 2, and either new bracket is at most (hi - lo + 2) / 2 wide, so the bracket about halves each round |
| BaseOpt.ShortBracketIgnoresFunction | utils/base_opt.py:20-32 | a bracket of width at most 2 yields (lo + hi) >> 1 whatever the function |
| BaseOpt.DichotomyIntNearMinimum | utils/base_opt.py:20-32 | for f strictly falling up to p and strictly rising after it on [lo, hi], the result is within 1 of p |
| BaseOpt.DichotomyIntMayMissMinimum | utils/base_opt.py:19-32 | on [0, 2] with f(x) = x (unimodal, minimum 0) the result is 1: it is not always the minimiser |
| BaseOpt.RoundShrinks | utils/base_opt.py:7-13 | while the bracket is wider than eps, both probes lie strictly inside it, either new bracket is exactly (hi - lo + eps/5) / 2 wide, and the round-count measure drops |
| BaseOpt.FinalBracket | utils/base_opt.py:5-15 | the final bracket is at most eps wide, lies inside [lo, hi] when lo <= hi, and is the input bracket when that is already narrow enough |
| BaseOpt.DichotomyFloat | utils/base_opt.py:5-15 | the `while` loop terminates for eps > 0 and returns the final bracket's lower end, inside [lo, hi] when lo <= hi |
| BaseOpt.FinalBracketHoldsMinimum | utils/base_opt.py:5-15 | for f strictly unimodal on [lo, hi] with minimum p, the result r satisfies r <= p <= r + eps |
| BaseOpt.Part | utils/base_opt.py:38-40 | `part`: the objective with only coordinate i replaced, on a snapshot of `cur`; at the current value of coordinate i it gives the objective at `cur` |
| BaseOpt.SweepFrom | utils/base_opt.py:37-41 | the sweep keeps the vector's length |
| BaseOpt.CoordinateDescent | utils/base_opt.py:35-42 | returns a fresh array (the input `lo` is not written) whose contents are the single sweep |
| BaseOpt.SweepSetsEachCoordinate | utils/base_opt.py:37-41 | from coordinate i on, each coordinate j is set once, to the search over [lo[j], hi[j]] of `part`, where coordinates before j hold their chosen values and those after still hold lo's; earlier ones are untouched |
| BaseOpt.CoordinateDescentSetsEachCoordinate | utils/base_opt.py:35-42 | the result has lo's length and its j-th coordinate is the search of `part` over the already-chosen prefix and the rest of lo |
| BaseOpt.CoordinateDescentWithinBounds | utils/base_opt.py:41 | for integer vectors: if the scalar search answers within its bounds, the result lies elementwise in [lo, hi] |
| BaseOpt.DichotomyDescentWithinBounds | utils/base_opt.py:41 | with `dichotomy_int` as the scalar search, the result lies elementwise in [lo, hi] |
| BaseOpt.FloatDescentWithinBounds | utils/base_opt.py:5-15 | for real vectors with `dichotomy_float` (default eps) as the scalar search, the result lies elementwise in [lo, hi] |
| BaseOpt.CoordinateDescentNeverWorsens | utils/base_opt.py:35-42 | if the scalar search never answers worse than its lower bound, the sweep never ends worse than lo |

## Behaviour worth knowing

These follow from the code as written. The model reproduces them rather than smoothing them over.

- **The coefficient.** The comment at schemas/works.py:81-84 describes a total that grows with a falling marginal gain and starts to fall once the crew count passes max_count. The cubic does exactly that:
  - each extra crew adds 1 - n²/m² (`CoefficientStep`);
  - the total grows exactly while n <= abs(m) (`CoefficientGrowsIff`).
  Nothing bounds it below, so far enough past max_count it becomes negative (`CoefficientCanBeNegative`).
- **Negative productivity.** Only `productivity == 0` counts as infeasible (schemas/works.py:67). A negative coefficient gives a negative productivity and a negative time, which the `Time(0)` seed then hides (`OvercrowdedUnitTakesNoTime`).
- **The integer search.** `dichotomy_int` stops at a bracket of width at most 2 and returns its midpoint (utils/base_opt.py:20, 32). On a unimodal function that is within 1 of the minimiser but not always the minimiser itself (`DichotomyIntNearMinimum`, `DichotomyIntMayMissMinimum`).
- **The `x1 == x2` test.** The early return at utils/base_opt.py:23-24 never fires (`MiddlePointsAdjacent`), so the method asserts the adjacency in its place.

## Left out

- Works.AbstractEstimate: requires max_count != 0 for every binding requirement. The source divides by zero only when it reaches such a requirement, so a unit that returns `Time.inf()` earlier does not raise.
- Works.EstimateStatic: requires max_count != 0 on every binding requirement only when it falls back to the abstract estimate. That is still more than the source needs, for the same reason as `AbstractEstimate`. When the external estimator answers positively, nothing is required.
- Works.EstimateStochastic: same max_count precondition as `AbstractEstimate`.
- BaseOpt.DichotomyFloat: requires eps > 0. This excludes some inputs on which the source returns at once, such as eps = 0 with lo = hi (any bracket with hi - lo <= eps <= 0), where it returns lo. It also excludes inputs on which the source loops forever:
  - eps = 0 with lo < hi, since in exact arithmetic the width never reaches 0;
  - eps < 0 even with lo == hi, since the width then tends to eps/5 > eps and the loop condition stays true.
- IEEE-754 floating point: rounding, overflow and NaN are not modelled; all float arithmetic is over `real`.
- Randomness: the `Random` stream is replaced by a productivity function indexed by draw number. `get_stochastic_productivity` and `get_static_productivity` are parameters. The `Worker` class is not part of this model.
- The `Time` class is not part of this model; only its use as a number with an infinite sentinel is modelled.
- `WorkTimeEstimator.estimate_time` is a function parameter, not an implementation.
- The `defaultdict` lookup `groups[name]` also inserts an empty list for a missing name. That insertion is not modelled, since nothing reads it later.
- The in-place write `cur[i] = x` inside `part` is modelled as `f(cur[i := x])` on a snapshot. The result agrees because `cur[i]` is overwritten right after the search. The aliasing itself is not modelled.
- `coordinate_descent` is modelled for one-dimensional arrays only (`lo.size` as the length).
- BaseOpt.CoordinateDescent: requires `hi` to be at least as long as `lo`. The source raises IndexError at `hi[i]` otherwise; that error path is not modelled.
- BaseOpt.CoordinateDescent: one element type `T` is used for `lo`, `hi`, the search's answer and `cur`. numpy's dtype coercion is not modelled: with an integer `lo` and `dichotomy_float` as the search, each write to `cur` truncates the value in the source.
- The JSON (de)serialisers of `WorkUnit` (schemas/works.py:26-33) depend on serialisation machinery that is not part of this model.
- The equipment, material and object requirements of a work unit are not used by the estimate and are not modelled.
- The optimiser service, the synthetic block-graph generator and the validation tests are outside this core.
