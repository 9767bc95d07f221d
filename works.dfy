/** The duration estimator of a work unit: workers assigned to a task are
    pooled by name, each binding requirement turns its pool into a time, and
    the task takes the longest of those times (or forever, when a pool is too
    small or has no productivity). */
module Works {
  import opened Times

  /** One requirement of a work unit: between minCount and maxCount workers
      of type `kind`, who together must perform `volume`. */
  datatype WorkerReq = WorkerReq(kind: string, minCount: nat, maxCount: int, volume: real)

  /** A record of `count` workers named `name`; `staticProductivity` is what
      `get_static_productivity` reports for it. */
  datatype Worker = Worker(name: string, count: nat, staticProductivity: real)

  datatype WorkUnit = WorkUnit(name: string, workerReqs: seq<WorkerReq>, volume: real)

  /** The productivity of one worker record at the k-th productivity draw of
      an estimate. The static getter ignores k; a stochastic one reads the
      k-th sample of the random stream it was given. */
  type Productivity = (Worker, nat) -> real

  /** The external work-time estimator, applied to the stage-less work name,
      the unit's volume and the worker counts keyed by resource name. */
  type TimeEstimator = (string, real, map<string, nat>) -> Time

  // ---------------------------------------------------------------------
  // Communication coefficient

  /** `communication_coefficient(n, m)`: the closed-form cubic. */
  function CommunicationCoefficient(n: int, m: int): real
    requires m != 0
  {
    var nr, mr := n as real, m as real;
    1.0 / (6.0 * (mr * mr)) * (-2.0 * (nr * nr * nr) + 3.0 * (nr * nr) + (6.0 * (mr * mr) - 1.0) * nr)
  }

  /** The sum the comment above `communication_coefficient` gives:
      the sum over x = 1..n of 1 - (x-1)^2 / m^2. */
  function PenaltySum(n: nat, m: int): real
    requires m != 0
  {
    if n == 0 then 0.0
    else
      var x, mr := (n - 1) as real, m as real;
      PenaltySum(n - 1, m) + (1.0 - (x * x) / (mr * mr))
  }

  lemma CoefficientOfOneCrew(m: int)
    requires m != 0
    ensures CommunicationCoefficient(1, m) == 1.0
  {
    var mr := m as real;
    assert -2.0 + 3.0 + (6.0 * (mr * mr) - 1.0) == 6.0 * (mr * mr);
  }

  /** Adding the (n+1)-th crew adds 1 - n^2/m^2 to the coefficient. */
  lemma CoefficientStep(n: int, m: int)
    requires m != 0
    ensures CommunicationCoefficient(n + 1, m) - CommunicationCoefficient(n, m)
            == 1.0 - ((n as real) * (n as real)) / ((m as real) * (m as real))
  {
    var nr, mr := n as real, m as real;
    var m2 := mr * mr;
    var c := 1.0 / (6.0 * m2);
    var p0 := -2.0 * (nr * nr * nr) + 3.0 * (nr * nr) + (6.0 * m2 - 1.0) * nr;
    var n1 := nr + 1.0;
    var p1 := -2.0 * (n1 * n1 * n1) + 3.0 * (n1 * n1) + (6.0 * m2 - 1.0) * n1;
    assert n1 * n1 == nr * nr + 2.0 * nr + 1.0;
    assert n1 * n1 * n1 == nr * nr * nr + 3.0 * (nr * nr) + 3.0 * nr + 1.0;
    assert p1 - p0 == 6.0 * m2 - 6.0 * (nr * nr);
    assert (n + 1) as real == n1;
    assert CommunicationCoefficient(n + 1, m) == c * p1;
    assert CommunicationCoefficient(n, m) == c * p0;
    assert c * p1 - c * p0 == c * (p1 - p0);
    assert c * (6.0 * m2) == 1.0;
    assert c * (6.0 * (nr * nr)) == (nr * nr) / m2;
  }

  lemma {:induction false} CoefficientIsPenaltySum(n: nat, m: int)
    requires m != 0
    ensures CommunicationCoefficient(n, m) == PenaltySum(n, m)
  {
    if n == 0 {
    } else {
      CoefficientIsPenaltySum(n - 1, m);
      CoefficientStep(n - 1, m);
    }
  }

  /** The coefficient grows with one more crew exactly while the crew count
      has not passed max_count (in absolute value). */
  lemma CoefficientGrowsIff(n: nat, m: int)
    requires m != 0
    ensures CommunicationCoefficient(n, m) <= CommunicationCoefficient(n + 1, m)
            <==> n <= (if m < 0 then -m else m)
  {
    CoefficientStep(n, m);
    var nr, mr := n as real, m as real;
    var a := if m < 0 then -m else m;
    var ar := a as real;
    var m2 := mr * mr;
    assert m2 == ar * ar && m2 > 0.0;
    var ratio := (nr * nr) / m2;
    RatioAtMostOne(nr * nr, m2);
    SquaresOrdered(nr, ar);
  }

  lemma SquaresOrdered(x: real, y: real)
    requires x >= 0.0 && y >= 0.0
    ensures x <= y <==> x * x <= y * y
  {
    if x <= y {
      assert x * x <= x * y;
      assert x * y <= y * y;
    } else {
      MulPositive(x - y, x + y);
      assert (x - y) * (x + y) == x * x - y * y;
    }
  }

  lemma MulPositive(a: real, b: real)
    requires a > 0.0 && b > 0.0
    ensures a * b > 0.0
  {
  }

  lemma RatioAtMostOne(x: real, y: real)
    requires y > 0.0
    ensures x / y <= 1.0 <==> x <= y
  {
    assert (x / y) * y == x;
    if x / y <= 1.0 {
      assert (x / y) * y <= 1.0 * y;
    } else {
      assert (x / y) * y > 1.0 * y;
    }
  }

  /** Nothing in the source keeps the coefficient positive: three crews on a
      task tolerating one make it negative. */
  lemma CoefficientCanBeNegative()
    ensures CommunicationCoefficient(3, 1) == -2.0
  {
  }

  // ---------------------------------------------------------------------
  // Pools of workers

  /** `groups[name]`: the records named `name`, in worker-list order. */
  function Command(workers: seq<Worker>, name: string): seq<Worker> {
    if workers == [] then []
    else
      var last := workers[|workers| - 1];
      Command(workers[..|workers| - 1], name) + (if last.name == name then [last] else [])
  }

  /** The lookup `groups[name]` of a defaultdict(list). */
  function Group(groups: map<string, seq<Worker>>, name: string): seq<Worker> {
    if name in groups then groups[name] else []
  }

  /** `sum([worker.count for worker in command], 0)`. */
  function PooledCount(command: seq<Worker>): nat {
    if command == [] then 0
    else PooledCount(command[..|command| - 1]) + command[|command| - 1].count
  }

  /** `sum([get_productivity(c, rand) for c in command], 0)` when the first
      of these draws is the k-th of the estimate. */
  function Drawn(command: seq<Worker>, prod: Productivity, k: nat): real {
    if command == [] then 0.0
    else Drawn(command[..|command| - 1], prod, k) + prod(command[|command| - 1], k + |command| - 1)
  }

  /** A record contributes its headcount, at any draw. */
  function CountOf(w: Worker, k: nat): real {
    w.count as real
  }

  ghost predicate DrawIndependent(prod: Productivity) {
    forall w, k: nat :: prod(w, k) == prod(w, 0)
  }

  // ---------------------------------------------------------------------
  // Productivity getters

  /** `get_static_by_worker`. */
  function StaticProductivity(w: Worker, k: nat): real {
    w.staticProductivity
  }

  lemma StaticIsDrawIndependent()
    ensures DrawIndependent(StaticProductivity)
  {
  }

  // ---------------------------------------------------------------------
  // The estimate as a function

  /** Requirements that take part in the estimate. */
  predicate Binding(req: WorkerReq) {
    req.minCount > 0
  }

  /** `communication_coefficient` is only defined for a non-zero max_count. */
  predicate CoefficientDefined(reqs: seq<WorkerReq>) {
    forall req :: req in reqs && Binding(req) ==> req.maxCount != 0
  }

  /** The `productivity` of a pool that meets its requirement's minimum:
      the sum of its records' productivities divided by its headcount n,
      scaled by the communication coefficient. */
  function ScaledProductivity(req: WorkerReq, n: nat, total: real): (r: real)
    requires req.maxCount != 0 && n > 0
    ensures r == 0.0 <==> total == 0.0 || CommunicationCoefficient(n, req.maxCount) == 0.0
  {
    total / (n as real) * CommunicationCoefficient(n, req.maxCount)
  }

  /** Python's `a // b` on floats: the floor of the exact quotient. */
  function FloorDiv(a: real, b: real): int
    requires b != 0.0
  {
    (a / b).Floor
  }

  /** The time one binding requirement takes with a pool of n workers
      whose productivity draws add up to `total`. */
  function PoolTime(req: WorkerReq, n: nat, total: real): Time
    requires Binding(req) && req.maxCount != 0
  {
    if n < req.minCount then Inf
    else
      var p := ScaledProductivity(req, n, total);
      if p == 0.0 then Inf else Finite(FloorDiv(req.volume, p))
  }

  /** The time one binding requirement takes with the given pool, its
      first productivity draw being the k-th. */
  function ReqTime(req: WorkerReq, command: seq<Worker>, prod: Productivity, k: nat): Time
    requires Binding(req) && req.maxCount != 0
  {
    PoolTime(req, PooledCount(command), Drawn(command, prod, k))
  }

  /** The productivity draws made for the binding requirements of `reqs`. */
  function Draws(reqs: seq<WorkerReq>, workers: seq<Worker>): nat {
    if reqs == [] then 0
    else (if Binding(reqs[0]) then |Command(workers, reqs[0].kind)| else 0) + Draws(reqs[1..], workers)
  }

  /** The estimate over `reqs` when k productivity draws have been made;
      never below `Time(0)`, the seed of the source's list of times. */
  function EstimateFrom(reqs: seq<WorkerReq>, workers: seq<Worker>, prod: Productivity, k: nat): (r: Time)
    requires CoefficientDefined(reqs)
    ensures LessEq(Finite(0), r)
  {
    if reqs == [] then Finite(0)
    else if !Binding(reqs[0]) then EstimateFrom(reqs[1..], workers, prod, k)
    else
      var command := Command(workers, reqs[0].kind);
      Max(ReqTime(reqs[0], command, prod, k), EstimateFrom(reqs[1..], workers, prod, k + |command|))
  }

  /** What `_abstract_estimate` returns. */
  function Estimate(reqs: seq<WorkerReq>, workers: seq<Worker>, prod: Productivity): (r: Time)
    requires CoefficientDefined(reqs)
    ensures LessEq(Finite(0), r)
  {
    EstimateFrom(reqs, workers, prod, 0)
  }

  /** The contribution of the j-th requirement, drawn where the source draws it. */
  function RequirementTime(reqs: seq<WorkerReq>, workers: seq<Worker>, prod: Productivity, j: nat): Time
    requires CoefficientDefined(reqs)
    requires j < |reqs| && Binding(reqs[j])
  {
    ReqTime(reqs[j], Command(workers, reqs[j].kind), prod, Draws(reqs[..j], workers))
  }

  // ---------------------------------------------------------------------
  // The estimate, as the source computes it

  /** The first loop of `_abstract_estimate`: `groups[w.name].append(w)`
      for every worker, in list order. */
  method GroupByName(workers: seq<Worker>) returns (groups: map<string, seq<Worker>>)
    ensures forall name :: Group(groups, name) == Command(workers, name)
  {
    groups := map[];
    var i := 0;
    while i < |workers|
      invariant 0 <= i <= |workers|
      invariant forall name :: Group(groups, name) == Command(workers[..i], name)
    {
      var w := workers[i];
      var next := groups[w.name := Group(groups, w.name) + [w]];
      forall name ensures Group(next, name) == Command(workers[..i + 1], name) {
        assert workers[..i + 1][..i] == workers[..i];
      }
      groups := next;
      i := i + 1;
    }
    assert workers[..|workers|] == workers;
  }

  /** `_abstract_estimate`: group the workers by name, then walk the
      requirements collecting times, giving up at the first infeasible one. */
  method AbstractEstimate(unit: WorkUnit, workers: seq<Worker>, prod: Productivity) returns (t: Time)
    requires CoefficientDefined(unit.workerReqs)
    ensures t == Estimate(unit.workerReqs, workers, prod)
  {
    var groups := GroupByName(workers);
    var reqs := unit.workerReqs;
    var times := [Finite(0)];
    var draws: nat := 0;
    WalkStart(reqs, workers, prod);
    var j := 0;
    while j < |reqs|
      invariant Walked(reqs, j, workers, prod, times, draws)
      decreases |reqs| - j
    {
      var req := reqs[j];
      if req.minCount == 0 {
        WalkSkip(reqs, j, workers, prod, times, draws);
        j := j + 1;
        continue;
      }
      var command := Group(groups, req.kind);
      WalkBinding(reqs, j, workers, prod, times, draws);
      var workerCount := PooledCount(command);
      if workerCount < req.minCount {
        WalkStop(reqs, j, workers, prod, times, draws);
        return Inf;
      }
      // the pool's productivity sum over its headcount, times the coefficient
      var productivity := ScaledProductivity(req, workerCount, Drawn(command, prod, draws));
      if productivity == 0.0 {
        WalkStop(reqs, j, workers, prod, times, draws);
        return Inf;
      }
      var time := Finite(FloorDiv(req.volume, productivity));
      WalkStep(reqs, j, workers, prod, times, draws, time);
      times := times + [time];
      draws := draws + |command|;
      j := j + 1;
    }
    WalkEnd(reqs, workers, prod, times, draws);
    t := MaxOf(times);
  }

  /** The state of `_abstract_estimate` after the first j requirements:
      the times collected so far and what the remaining requirements add
      make up the estimate. */
  ghost predicate Walked(reqs: seq<WorkerReq>, j: nat, workers: seq<Worker>, prod: Productivity, times: seq<Time>, draws: nat) {
    CoefficientDefined(reqs) && j <= |reqs| && CoefficientDefined(reqs[j..]) &&
    |times| > 0 && times[0] == Finite(0) &&
    Max(MaxOf(times), EstimateFrom(reqs[j..], workers, prod, draws)) == Estimate(reqs, workers, prod)
  }

  lemma WalkStart(reqs: seq<WorkerReq>, workers: seq<Worker>, prod: Productivity)
    requires CoefficientDefined(reqs)
    ensures Walked(reqs, 0, workers, prod, [Finite(0)], 0)
  {
    MaxAbsorbs(Estimate(reqs, workers, prod), Finite(0));
    assert reqs[0..] == reqs;
  }

  lemma WalkSkip(reqs: seq<WorkerReq>, j: nat, workers: seq<Worker>, prod: Productivity, times: seq<Time>, draws: nat)
    requires Walked(reqs, j, workers, prod, times, draws) && j < |reqs| && !Binding(reqs[j])
    ensures Walked(reqs, j + 1, workers, prod, times, draws)
  {
    EstimateFromUnfold(reqs, j, workers, prod, draws);
  }

  lemma WalkBinding(reqs: seq<WorkerReq>, j: nat, workers: seq<Worker>, prod: Productivity, times: seq<Time>, draws: nat)
    requires Walked(reqs, j, workers, prod, times, draws) && j < |reqs| && Binding(reqs[j])
    ensures reqs[j].maxCount != 0
  {
    assert reqs[j] in reqs;
  }

  lemma WalkStop(reqs: seq<WorkerReq>, j: nat, workers: seq<Worker>, prod: Productivity, times: seq<Time>, draws: nat)
    requires Walked(reqs, j, workers, prod, times, draws) && j < |reqs| && Binding(reqs[j])
    requires reqs[j].maxCount != 0
    requires ReqTime(reqs[j], Command(workers, reqs[j].kind), prod, draws) == Inf
    ensures Estimate(reqs, workers, prod) == Inf
  {
    EstimateFromUnfold(reqs, j, workers, prod, draws);
    MaxOfInf(EstimateFrom(reqs[j + 1..], workers, prod, draws + |Command(workers, reqs[j].kind)|));
    MaxOfInf(MaxOf(times));
  }

  lemma WalkStep(reqs: seq<WorkerReq>, j: nat, workers: seq<Worker>, prod: Productivity, times: seq<Time>, draws: nat, time: Time)
    requires Walked(reqs, j, workers, prod, times, draws) && j < |reqs| && Binding(reqs[j])
    requires reqs[j].maxCount != 0
    requires time == ReqTime(reqs[j], Command(workers, reqs[j].kind), prod, draws)
    ensures Walked(reqs, j + 1, workers, prod, times + [time], draws + |Command(workers, reqs[j].kind)|)
  {
    EstimateFromUnfold(reqs, j, workers, prod, draws);
    MaxAssociative(MaxOf(times), time, EstimateFrom(reqs[j + 1..], workers, prod, draws + |Command(workers, reqs[j].kind)|));
    assert (times + [time])[..|times|] == times;
  }

  lemma WalkEnd(reqs: seq<WorkerReq>, workers: seq<Worker>, prod: Productivity, times: seq<Time>, draws: nat)
    requires Walked(reqs, |reqs|, workers, prod, times, draws)
    ensures MaxOf(times) == Estimate(reqs, workers, prod)
  {
    assert reqs[|reqs|..] == [];
    MaxAbsorbs(MaxOf(times), Finite(0));
  }

  /** One step of the walk over the requirements. */
  lemma EstimateFromUnfold(reqs: seq<WorkerReq>, j: nat, workers: seq<Worker>, prod: Productivity, k: nat)
    requires CoefficientDefined(reqs) && j < |reqs|
    ensures CoefficientDefined(reqs[j..]) && CoefficientDefined(reqs[j + 1..])
    ensures !Binding(reqs[j]) ==> EstimateFrom(reqs[j..], workers, prod, k) == EstimateFrom(reqs[j + 1..], workers, prod, k)
    ensures Binding(reqs[j]) ==>
              (reqs[j].maxCount != 0 &&
               EstimateFrom(reqs[j..], workers, prod, k) ==
               Max(ReqTime(reqs[j], Command(workers, reqs[j].kind), prod, k),
                   EstimateFrom(reqs[j + 1..], workers, prod, k + |Command(workers, reqs[j].kind)|)))
  {
    assert forall req :: req in reqs[j..] ==> req in reqs;
    assert reqs[j..][1..] == reqs[j + 1..];
    assert reqs[j] in reqs;
  }

  /** `estimate_stochastic`: the abstract estimate over the samples of `rand`. */
  method EstimateStochastic(unit: WorkUnit, workers: seq<Worker>, rand: Productivity) returns (t: Time)
    requires CoefficientDefined(unit.workerReqs)
    ensures t == Estimate(unit.workerReqs, workers, rand)
  {
    t := AbstractEstimate(unit, workers, rand);
  }

  // ---------------------------------------------------------------------
  // The external estimator's inputs

  /** `pat` occurs in `s` starting at index i. */
  predicate OccursAt(s: string, pat: string, i: nat) {
    i <= |s| && pat <= s[i..]
  }

  /** `s.split(pat)[0]`: the text before the first occurrence of `pat`. */
  function BeforeFirst(s: string, pat: string): (r: string)
    requires |pat| > 0
    ensures r <= s
    ensures r == s || OccursAt(s, pat, |r|)
    ensures forall i :: 0 <= i < |r| ==> !OccursAt(s, pat, i)
  {
    if pat <= s then
      assert s[0..] == s;
      []
    else if |s| == 0 then s
    else
      var r' := BeforeFirst(s[1..], pat);
      var r := [s[0]] + r';
      assert forall i :: 0 <= i < |r| ==> !OccursAt(s, pat, i) by {
        forall i | 0 <= i < |r| ensures !OccursAt(s, pat, i) {
          if i == 0 {
            assert s[0..] == s;
          } else {
            assert s[1..][i - 1..] == s[i..];
            assert !OccursAt(s[1..], pat, i - 1);
          }
        }
      }
      assert s[1..][|r'|..] == s[|r|..];
      r
  }

  /** `s.replace(pat, "")`: drop the non-overlapping occurrences of `pat`,
      scanning from the left. */
  function RemoveAll(s: string, pat: string): (r: string)
    requires |pat| > 0
    ensures |r| <= |s|
    ensures (forall i :: 0 <= i < |s| ==> !OccursAt(s, pat, i)) ==> r == s
    decreases |s|
  {
    if |s| == 0 then s
    else if pat <= s then
      assert s[0..] == s && OccursAt(s, pat, 0);
      RemoveAll(s[|pat|..], pat)
    else
      assert (forall i :: 0 <= i < |s| ==> !OccursAt(s, pat, i)) ==>
             (forall i :: 0 <= i < |s| - 1 ==> !OccursAt(s[1..], pat, i)) by {
        forall i | 0 <= i < |s| - 1
          ensures OccursAt(s[1..], pat, i) == OccursAt(s, pat, i + 1)
        {
          assert s[1..][i..] == s[i + 1..];
        }
      }
      assert [s[0]] + s[1..] == s;
      [s[0]] + RemoveAll(s[1..], pat)
  }

  lemma RemoveAllKeeps(s: string, pat: string)
    requires |pat| > 0 && |s| > 0 && !(pat <= s)
    ensures RemoveAll(s, pat) == [s[0]] + RemoveAll(s[1..], pat)
  {
  }

  /** `replace` scans from the left: the first occurrence of `pat` goes, and
      the text before it is kept. */
  lemma {:induction false} RemoveAllDropsLeftmost(a: string, pat: string, b: string)
    requires |pat| > 0
    requires forall i :: 0 <= i < |a| ==> !OccursAt(a + pat + b, pat, i)
    ensures RemoveAll(a + pat + b, pat) == a + RemoveAll(b, pat)
    decreases |a|
  {
    var s := a + pat + b;
    if a == [] {
      assert s == pat + b;
      assert pat <= s && s[|pat|..] == b;
    } else {
      assert s[0..] == s && !OccursAt(s, pat, 0);
      var s' := a[1..] + pat + b;
      assert s[1..] == s';
      forall i | 0 <= i < |a| - 1 ensures !OccursAt(s', pat, i) {
        assert s[1..][i..] == s[i + 1..];
        assert !OccursAt(s, pat, i + 1);
      }
      RemoveAllDropsLeftmost(a[1..], pat, b);
      DropsLeftmostStep(s, pat, a, RemoveAll(b, pat));
    }
  }

  /** A text that does not start with `pat` keeps its first character. */
  lemma DropsLeftmostStep(s: string, pat: string, a: string, r: string)
    requires |pat| > 0 && |s| > 0 && !(pat <= s)
    requires a != [] && s[0] == a[0]
    requires RemoveAll(s[1..], pat) == a[1..] + r
    ensures RemoveAll(s, pat) == a + r
  {
    RemoveAllKeeps(s, pat);
    HeadConcat(a, r);
  }

  lemma HeadConcat(a: string, r: string)
    requires a != []
    ensures [a[0]] + (a[1..] + r) == a + r
  {
    assert [a[0]] + a[1..] == a;
    assert [a[0]] + (a[1..] + r) == ([a[0]] + a[1..]) + r;
  }

  /** The resource name the external estimator knows a worker by. */
  function ResourceName(w: Worker): string {
    RemoveAll(w.name, "_res_fact")
  }

  /** `{w.name.replace("_res_fact", ""): w.count for w in worker_list}`:
      a later record overwrites an earlier one with the same resource name. */
  function AgentCounts(workers: seq<Worker>): (r: map<string, nat>)
    ensures r.Keys == set w | w in workers :: ResourceName(w)
  {
    if workers == [] then map[]
    else
      var last := workers[|workers| - 1];
      var init := workers[..|workers| - 1];
      assert forall w :: w in workers <==> w in init || w == last;
      AgentCounts(init)[ResourceName(last) := last.count]
  }

  /** The count recorded for a resource name is that of the last record
      carrying it. */
  lemma {:induction false} LastRecordWins(workers: seq<Worker>, i: nat)
    requires i < |workers|
    requires forall j :: i < j < |workers| ==> ResourceName(workers[j]) != ResourceName(workers[i])
    ensures AgentCounts(workers)[ResourceName(workers[i])] == workers[i].count
    decreases |workers|
  {
    if i < |workers| - 1 {
      var init := workers[..|workers| - 1];
      LastRecordWins(init, i);
    }
  }

  /** `estimate_static`: the external estimator's time when there is one
      and it is positive, the abstract estimate with static productivity
      otherwise. */
  method EstimateStatic(unit: WorkUnit, workers: seq<Worker>, estimator: Option<TimeEstimator>) returns (t: Time)
    requires (estimator.None? ||
              !Positive(estimator.value(BeforeFirst(unit.name, "_stage_"), unit.volume, AgentCounts(workers))))
             ==> CoefficientDefined(unit.workerReqs)
    ensures estimator.Some? &&
            Positive(estimator.value(BeforeFirst(unit.name, "_stage_"), unit.volume, AgentCounts(workers)))
            ==> t == estimator.value(BeforeFirst(unit.name, "_stage_"), unit.volume, AgentCounts(workers))
    ensures (estimator.None? ||
             !Positive(estimator.value(BeforeFirst(unit.name, "_stage_"), unit.volume, AgentCounts(workers))))
            ==> t == Estimate(unit.workerReqs, workers, StaticProductivity)
  {
    if estimator.Some? {
      var agents := AgentCounts(workers);
      var workTime := estimator.value(BeforeFirst(unit.name, "_stage_"), unit.volume, agents);
      if Positive(workTime) {
        return workTime;
      }
    }
    t := AbstractEstimate(unit, workers, StaticProductivity);
  }

  // ---------------------------------------------------------------------
  // Properties of the estimate

  /** A unit without binding requirements is done instantly, whoever works on it. */
  lemma {:induction false} NoBindingRequirementsTakeNoTime(reqs: seq<WorkerReq>, workers: seq<Worker>, prod: Productivity, k: nat)
    requires forall req :: req in reqs ==> req.minCount == 0
    ensures CoefficientDefined(reqs) && EstimateFrom(reqs, workers, prod, k) == Finite(0)
  {
    if reqs != [] {
      assert forall req :: req in reqs[1..] ==> req in reqs;
      NoBindingRequirementsTakeNoTime(reqs[1..], workers, prod, k);
    }
  }

  /** The draws one requirement makes. */
  function Step(req: WorkerReq, workers: seq<Worker>): nat {
    if Binding(req) then |Command(workers, req.kind)| else 0
  }

  /** The draws made before the j-th requirement, counted from the second. */
  lemma DrawsStep(reqs: seq<WorkerReq>, workers: seq<Worker>, j: nat)
    requires 0 < j <= |reqs|
    ensures Draws(reqs[..j], workers) == Step(reqs[0], workers) + Draws(reqs[1..][..j - 1], workers)
  {
    assert reqs[..j][1..] == reqs[1..][..j - 1];
  }

  /** The estimate over `reqs` bounds the estimate over all but the first. */
  lemma EstimateFromBoundsRest(reqs: seq<WorkerReq>, workers: seq<Worker>, prod: Productivity, k: nat)
    requires CoefficientDefined(reqs) && reqs != []
    ensures CoefficientDefined(reqs[1..])
    ensures LessEq(EstimateFrom(reqs[1..], workers, prod, k + Step(reqs[0], workers)), EstimateFrom(reqs, workers, prod, k))
  {
    EstimateFromUnfold(reqs, 0, workers, prod, k);
    assert reqs[0..] == reqs;
  }

  /** Every binding requirement's time is at most the estimate. */
  lemma {:induction false} EstimateFromBoundsRequirement(reqs: seq<WorkerReq>, workers: seq<Worker>, prod: Productivity, k: nat, j: nat)
    requires CoefficientDefined(reqs)
    requires j < |reqs| && Binding(reqs[j])
    ensures reqs[j].maxCount != 0
    ensures LessEq(ReqTime(reqs[j], Command(workers, reqs[j].kind), prod, k + Draws(reqs[..j], workers)),
                   EstimateFrom(reqs, workers, prod, k))
    decreases j
  {
    assert reqs[j] in reqs;
    if j == 0 {
      EstimateFromUnfold(reqs, 0, workers, prod, k);
      assert reqs[0..] == reqs;
      assert reqs[..0] == [];
    } else {
      DrawsStep(reqs, workers, j);
      assert reqs[1..][j - 1] == reqs[j];
      EstimateFromBoundsRest(reqs, workers, prod, k);
      EstimateFromBoundsRequirement(reqs[1..], workers, prod, k + Step(reqs[0], workers), j - 1);
    }
  }

  /** The estimate is zero or the time of some binding requirement. */
  lemma {:induction false} EstimateFromAttained(reqs: seq<WorkerReq>, workers: seq<Worker>, prod: Productivity, k: nat)
    returns (j: Option<nat>)
    requires CoefficientDefined(reqs)
    ensures j.None? ==> EstimateFrom(reqs, workers, prod, k) == Finite(0)
    ensures j.Some? ==>
              (j.value < |reqs| && Binding(reqs[j.value]) && reqs[j.value].maxCount != 0 &&
               EstimateFrom(reqs, workers, prod, k) ==
               ReqTime(reqs[j.value], Command(workers, reqs[j.value].kind), prod, k + Draws(reqs[..j.value], workers)))
  {
    if reqs == [] {
      return None;
    }
    var step := Step(reqs[0], workers);
    EstimateFromBoundsRest(reqs, workers, prod, k);
    var j' := EstimateFromAttained(reqs[1..], workers, prod, k + step);
    if Binding(reqs[0]) && EstimateFrom(reqs, workers, prod, k) != EstimateFrom(reqs[1..], workers, prod, k + step) {
      HeadIsAttained(reqs, workers, prod, k);
      return Some(0);
    }
    RestIsAttained(reqs, workers, prod, k);
    if j'.None? {
      return None;
    }
    var i := j'.value;
    DrawsStep(reqs, workers, i + 1);
    assert reqs[1..][i] == reqs[i + 1];
    j := Some(i + 1);
  }

  /** When the estimate differs from that of the rest, the first requirement
      binds and attains it. */
  lemma HeadIsAttained(reqs: seq<WorkerReq>, workers: seq<Worker>, prod: Productivity, k: nat)
    requires CoefficientDefined(reqs) && reqs != [] && Binding(reqs[0])
    requires CoefficientDefined(reqs[1..])
    requires EstimateFrom(reqs, workers, prod, k) != EstimateFrom(reqs[1..], workers, prod, k + Step(reqs[0], workers))
    ensures reqs[0].maxCount != 0
    ensures EstimateFrom(reqs, workers, prod, k) ==
            ReqTime(reqs[0], Command(workers, reqs[0].kind), prod, k + Draws(reqs[..0], workers))
  {
    EstimateFromUnfold(reqs, 0, workers, prod, k);
    assert reqs[0..] == reqs;
    assert reqs[..0] == [];
  }

  /** Otherwise the estimate is that of the rest. */
  lemma RestIsAttained(reqs: seq<WorkerReq>, workers: seq<Worker>, prod: Productivity, k: nat)
    requires CoefficientDefined(reqs) && reqs != [] && CoefficientDefined(reqs[1..])
    requires Binding(reqs[0]) ==>
               EstimateFrom(reqs, workers, prod, k) == EstimateFrom(reqs[1..], workers, prod, k + Step(reqs[0], workers))
    ensures EstimateFrom(reqs, workers, prod, k) == EstimateFrom(reqs[1..], workers, prod, k + Step(reqs[0], workers))
  {
    EstimateFromUnfold(reqs, 0, workers, prod, k);
    assert reqs[0..] == reqs;
  }

  /** The estimate is the max of zero and the binding requirements' times. */
  lemma EstimateIsMax(reqs: seq<WorkerReq>, workers: seq<Worker>, prod: Productivity)
    requires CoefficientDefined(reqs)
    ensures LessEq(Finite(0), Estimate(reqs, workers, prod))
    ensures forall j :: 0 <= j < |reqs| && Binding(reqs[j]) ==>
              LessEq(RequirementTime(reqs, workers, prod, j), Estimate(reqs, workers, prod))
    ensures Estimate(reqs, workers, prod) == Finite(0) ||
            exists j :: 0 <= j < |reqs| && Binding(reqs[j]) &&
              Estimate(reqs, workers, prod) == RequirementTime(reqs, workers, prod, j)
  {
    forall j | 0 <= j < |reqs| && Binding(reqs[j])
      ensures LessEq(RequirementTime(reqs, workers, prod, j), Estimate(reqs, workers, prod))
    {
      EstimateFromBoundsRequirement(reqs, workers, prod, 0, j);
    }
    var j := EstimateFromAttained(reqs, workers, prod, 0);
    if j.Some? {
      assert Estimate(reqs, workers, prod) == RequirementTime(reqs, workers, prod, j.value);
    }
  }

  /** A binding requirement whose pool is smaller than its minimum makes the
      whole unit infeasible. */
  lemma ShortPoolIsInfeasible(reqs: seq<WorkerReq>, workers: seq<Worker>, prod: Productivity, j: nat)
    requires CoefficientDefined(reqs)
    requires j < |reqs| && Binding(reqs[j])
    requires PooledCount(Command(workers, reqs[j].kind)) < reqs[j].minCount
    ensures Estimate(reqs, workers, prod) == Inf
  {
    EstimateIsMax(reqs, workers, prod);
  }

  /** A pool that is large enough but whose scaled productivity is zero makes
      the whole unit infeasible. */
  lemma ZeroProductivityIsInfeasible(reqs: seq<WorkerReq>, workers: seq<Worker>, prod: Productivity, j: nat)
    requires CoefficientDefined(reqs)
    requires j < |reqs| && Binding(reqs[j])
    requires PooledCount(Command(workers, reqs[j].kind)) >= reqs[j].minCount
    requires ScaledProductivity(reqs[j], PooledCount(Command(workers, reqs[j].kind)),
                                 Drawn(Command(workers, reqs[j].kind), prod, Draws(reqs[..j], workers))) == 0.0
    ensures Estimate(reqs, workers, prod) == Inf
  {
    assert reqs[j] in reqs;
    EstimateIsMax(reqs, workers, prod);
  }

  /** Infinity comes from nowhere else: an infeasible unit has a binding
      requirement with a short pool or with zero scaled productivity. */
  lemma InfeasibleHasCause(reqs: seq<WorkerReq>, workers: seq<Worker>, prod: Productivity)
    requires CoefficientDefined(reqs)
    requires Estimate(reqs, workers, prod) == Inf
    ensures exists j :: 0 <= j < |reqs| && Binding(reqs[j]) &&
              (PooledCount(Command(workers, reqs[j].kind)) < reqs[j].minCount ||
               ScaledProductivity(reqs[j], PooledCount(Command(workers, reqs[j].kind)),
                                 Drawn(Command(workers, reqs[j].kind), prod, Draws(reqs[..j], workers))) == 0.0)
  {
    EstimateIsMax(reqs, workers, prod);
    var j :| 0 <= j < |reqs| && Binding(reqs[j]) &&
      Estimate(reqs, workers, prod) == RequirementTime(reqs, workers, prod, j);
    assert reqs[j] in reqs;
  }

  /** With a negative coefficient the scaled productivity is negative; the
      source does not treat that as infeasible, and the negative time it
      yields is hidden by the zero seed. */
  lemma OvercrowdedUnitTakesNoTime()
    ensures Estimate([WorkerReq("mason", 1, 1, 10.0)], [Worker("mason", 3, 1.0)], StaticProductivity) == Finite(0)
  {
    var req := WorkerReq("mason", 1, 1, 10.0);
    var w := Worker("mason", 3, 1.0);
    assert Command([w], "mason") == [w];
    assert PooledCount([w]) == 3;
    assert Drawn([w], StaticProductivity, 0) == 1.0;
    assert CommunicationCoefficient(3, 1) == -2.0;
    assert ScaledProductivity(req, 3, 1.0) == 1.0 / 3.0 * -2.0;
    assert (10.0 / (1.0 / 3.0 * -2.0)).Floor == -15;
  }

  // ---------------------------------------------------------------------
  // Which workers matter

  /** Only the pools of the requirement types matter. */
  lemma {:induction false} EstimateFromDependsOnPools(reqs: seq<WorkerReq>, ws1: seq<Worker>, ws2: seq<Worker>, prod: Productivity, k: nat)
    requires CoefficientDefined(reqs)
    requires forall req :: req in reqs ==> Command(ws1, req.kind) == Command(ws2, req.kind)
    ensures EstimateFrom(reqs, ws1, prod, k) == EstimateFrom(reqs, ws2, prod, k)
  {
    if reqs != [] {
      assert reqs[0] in reqs;
      assert forall req :: req in reqs[1..] ==> req in reqs;
      EstimateFromDependsOnPools(reqs[1..], ws1, ws2, prod, k);
      EstimateFromDependsOnPools(reqs[1..], ws1, ws2, prod, k + |Command(ws1, reqs[0].kind)|);
    }
  }

  lemma {:induction false} CommandConcat(a: seq<Worker>, b: seq<Worker>, name: string)
    ensures Command(a + b, name) == Command(a, name) + Command(b, name)
    decreases |b|
  {
    if b == [] {
      assert a + b == a;
    } else {
      var b' := b[..|b| - 1];
      assert (a + b)[..|a + b| - 1] == a + b';
      CommandConcat(a, b', name);
    }
  }

  /** A worker record whose name matches no requirement type changes
      nothing, wherever it stands in the list. */
  lemma UnmatchedWorkerIsIgnored(reqs: seq<WorkerReq>, a: seq<Worker>, w: Worker, b: seq<Worker>, prod: Productivity)
    requires CoefficientDefined(reqs)
    requires forall req :: req in reqs ==> req.kind != w.name
    ensures Estimate(reqs, a + [w] + b, prod) == Estimate(reqs, a + b, prod)
  {
    forall req | req in reqs
      ensures Command(a + [w] + b, req.kind) == Command(a + b, req.kind)
    {
      CommandConcat(a + [w], b, req.kind);
      CommandConcat(a, [w], req.kind);
      CommandConcat(a, b, req.kind);
      assert Command([w], req.kind) == [];
    }
    EstimateFromDependsOnPools(reqs, a + [w] + b, a + b, prod, 0);
  }

  lemma {:induction false} DrawnConcat(a: seq<Worker>, b: seq<Worker>, prod: Productivity, k: nat)
    ensures Drawn(a + b, prod, k) == Drawn(a, prod, k) + Drawn(b, prod, k + |a|)
    decreases |b|
  {
    if b == [] {
      assert a + b == a;
    } else {
      var b' := b[..|b| - 1];
      assert (a + b)[..|a + b| - 1] == a + b';
      DrawnConcat(a, b', prod, k);
    }
  }

  lemma {:induction false} DrawnShift(c: seq<Worker>, prod: Productivity, k1: nat, k2: nat)
    requires DrawIndependent(prod)
    ensures Drawn(c, prod, k1) == Drawn(c, prod, k2)
    decreases |c|
  {
    if c != [] {
      DrawnShift(c[..|c| - 1], prod, k1, k2);
      var last := c[|c| - 1];
      assert prod(last, k1 + |c| - 1) == prod(last, 0) == prod(last, k2 + |c| - 1);
    }
  }

  /** A pool of one record draws once. */
  lemma DrawnSingle(x: Worker, prod: Productivity, k: nat)
    ensures Drawn([x], prod, k) == prod(x, k)
  {
    assert [x][..0] == [];
  }

  /** Taking one record out of a pool takes its draw out of the sum. */
  lemma DrawnRemoveMiddle(p: seq<Worker>, x: Worker, q: seq<Worker>, prod: Productivity, k: nat)
    requires DrawIndependent(prod)
    ensures Drawn(p + [x] + q, prod, k) == Drawn(p + q, prod, k) + prod(x, 0)
  {
    var i := |p|;
    DrawnConcat(p + [x], q, prod, k);
    DrawnConcat(p, [x], prod, k);
    DrawnSingle(x, prod, k + i);
    DrawnShift(q, prod, k + i + 1, k + i);
    DrawnConcat(p, q, prod, k);
    assert prod(x, k + i) == prod(x, 0);
  }

  lemma DrawnRemove(b: seq<Worker>, i: nat, prod: Productivity, k: nat)
    requires DrawIndependent(prod) && i < |b|
    ensures Drawn(b, prod, k) == Drawn(b[..i] + b[i + 1..], prod, k) + prod(b[i], 0)
  {
    assert b == b[..i] + [b[i]] + b[i + 1..];
    DrawnRemoveMiddle(b[..i], b[i], b[i + 1..], prod, k);
  }

  lemma MultisetRemove(a: seq<Worker>, b: seq<Worker>, i: nat)
    requires multiset(a) == multiset(b) && |a| > 0 && i < |b| && b[i] == a[|a| - 1]
    ensures multiset(a[..|a| - 1]) == multiset(b[..i] + b[i + 1..])
  {
    var x, a' := a[|a| - 1], a[..|a| - 1];
    assert a == a' + [x];
    assert b == b[..i] + [x] + b[i + 1..];
    var rest := b[..i] + b[i + 1..];
    assert multiset(b) == multiset(b[..i]) + multiset{x} + multiset(b[i + 1..]);
    assert multiset(a') + multiset{x} == multiset(rest) + multiset{x};
    forall w ensures multiset(a')[w] == multiset(rest)[w] {
      assert (multiset(a') + multiset{x})[w] == (multiset(rest) + multiset{x})[w];
    }
  }

  /** Sums over a pool do not depend on the order of its records. */
  lemma {:induction false} DrawnPermutation(a: seq<Worker>, b: seq<Worker>, prod: Productivity, k: nat)
    requires DrawIndependent(prod)
    requires multiset(a) == multiset(b)
    ensures Drawn(a, prod, k) == Drawn(b, prod, k)
    decreases |a|
  {
    if a == [] {
      assert |b| == |multiset(b)| == 0;
    } else {
      var x := a[|a| - 1];
      assert x in multiset(b);
      var i :| 0 <= i < |b| && b[i] == x;
      MultisetRemove(a, b, i);
      DrawnPermutation(a[..|a| - 1], b[..i] + b[i + 1..], prod, k);
      DrawnRemove(b, i, prod, k);
      assert prod(x, k + |a| - 1) == prod(x, 0);
    }
  }

  lemma {:induction false} PooledCountIsDrawn(c: seq<Worker>)
    ensures PooledCount(c) as real == Drawn(c, CountOf, 0)
    decreases |c|
  {
    if c != [] {
      PooledCountIsDrawn(c[..|c| - 1]);
    }
  }

  lemma {:induction false} CommandMultiset(ws: seq<Worker>, name: string, w: Worker)
    ensures multiset(Command(ws, name))[w] == if w.name == name then multiset(ws)[w] else 0
    decreases |ws|
  {
    if ws != [] {
      var init := ws[..|ws| - 1];
      assert ws == init + [ws[|ws| - 1]];
      CommandMultiset(init, name, w);
    }
  }

  lemma CountOfIsDrawIndependent()
    ensures DrawIndependent(CountOf)
  {
  }

  lemma CommandsPermuted(ws1: seq<Worker>, ws2: seq<Worker>, name: string)
    requires multiset(ws1) == multiset(ws2)
    ensures multiset(Command(ws1, name)) == multiset(Command(ws2, name))
    ensures |Command(ws1, name)| == |Command(ws2, name)|
  {
    var m1, m2 := multiset(Command(ws1, name)), multiset(Command(ws2, name));
    forall w ensures m1[w] == m2[w] {
      CommandMultiset(ws1, name, w);
      CommandMultiset(ws2, name, w);
    }
    assert m1 == m2;
    assert |m1| == |m2|;
  }

  /** A requirement's time does not depend on the order of its pool. */
  lemma ReqTimePermuted(req: WorkerReq, c1: seq<Worker>, c2: seq<Worker>, prod: Productivity, k: nat)
    requires Binding(req) && req.maxCount != 0 && DrawIndependent(prod)
    requires multiset(c1) == multiset(c2)
    ensures ReqTime(req, c1, prod, k) == ReqTime(req, c2, prod, k)
  {
    PooledCountIsDrawn(c1);
    PooledCountIsDrawn(c2);
    CountOfIsDrawIndependent();
    DrawnPermutation(c1, c2, CountOf, 0);
    DrawnPermutation(c1, c2, prod, k);
    assert PooledCount(c1) == PooledCount(c2);
  }

  /** One requirement further: if the rest of the estimate ignores the order
      of the workers, so does the whole. */
  lemma IgnoresOrderStep(reqs: seq<WorkerReq>, ws1: seq<Worker>, ws2: seq<Worker>, prod: Productivity, k: nat)
    requires CoefficientDefined(reqs) && reqs != [] && DrawIndependent(prod)
    requires multiset(ws1) == multiset(ws2)
    requires CoefficientDefined(reqs[1..])
    requires forall k': nat :: EstimateFrom(reqs[1..], ws1, prod, k') == EstimateFrom(reqs[1..], ws2, prod, k')
    ensures EstimateFrom(reqs, ws1, prod, k) == EstimateFrom(reqs, ws2, prod, k)
  {
    var req := reqs[0];
    CommandsPermuted(ws1, ws2, req.kind);
    if Binding(req) {
      assert req in reqs;
      ReqTimePermuted(req, Command(ws1, req.kind), Command(ws2, req.kind), prod, k);
    }
  }

  /** With a productivity that does not depend on the draw (the static one),
      the order of the worker list does not matter. */
  lemma {:induction false} EstimateFromIgnoresOrder(reqs: seq<WorkerReq>, ws1: seq<Worker>, ws2: seq<Worker>, prod: Productivity, k: nat)
    requires CoefficientDefined(reqs) && DrawIndependent(prod)
    requires multiset(ws1) == multiset(ws2)
    ensures EstimateFrom(reqs, ws1, prod, k) == EstimateFrom(reqs, ws2, prod, k)
    decreases |reqs|
  {
    if reqs != [] {
      assert forall req :: req in reqs[1..] ==> req in reqs;
      forall k': nat ensures EstimateFrom(reqs[1..], ws1, prod, k') == EstimateFrom(reqs[1..], ws2, prod, k') {
        EstimateFromIgnoresOrder(reqs[1..], ws1, ws2, prod, k');
      }
      IgnoresOrderStep(reqs, ws1, ws2, prod, k);
    }
  }

  lemma StaticEstimateIgnoresOrder(reqs: seq<WorkerReq>, ws1: seq<Worker>, ws2: seq<Worker>)
    requires CoefficientDefined(reqs)
    requires multiset(ws1) == multiset(ws2)
    ensures Estimate(reqs, ws1, StaticProductivity) == Estimate(reqs, ws2, StaticProductivity)
  {
    StaticIsDrawIndependent();
    EstimateFromIgnoresOrder(reqs, ws1, ws2, StaticProductivity, 0);
  }
}
