/** The exact solver: which start minute to search from, under every start and
    visit policy. */
module ExactSolve {
  import opened Domain
  import opened Masks
  import opened Simulation
  import opened Objective
  import opened ExactSearch
  import opened ExactRun
  import opened ExactFeasible

  const EXACT_MAX_LOCATIONS := 15

  /** Visited optional locations, by number and then by priority. */
  datatype Coverage = Coverage(count: nat, priority: nat) {
    predicate AtLeast(other: Coverage) {
      count > other.count || (count == other.count && priority >= other.priority)
    }
  }

  function CoverageOf(metrics: Metrics): Coverage {
    Coverage(metrics.optionalCount, metrics.optionalPriority)
  }

  function OrderCoverage(input: Input, q: seq<nat>): Coverage
    requires FromStart(input, q)
  {
    Coverage(SumAlong(OptionalWeights(input.problem), q), SumAlong(PriorityWeights(input.problem), q))
  }

  /** Some valid order with at least the target coverage can be walked from `start`. */
  ghost predicate Keeps(input: Input, start: nat, target: Coverage) {
    exists q :: WalksFrom(input, start, q) && OrderCoverage(input, q).AtLeast(target)
  }

  lemma KeepsDownwardClosed(input: Input, early: nat, late: nat, target: Coverage)
    requires early <= late && Keeps(input, late, target)
    ensures Keeps(input, early, target)
  {
    var q :| WalksFrom(input, late, q) && OrderCoverage(input, q).AtLeast(target);
    WalkDownwardClosed(input, early, late, q);
    assert WalksFrom(input, early, q);
  }

  /** The best order from a start minute keeps a target whenever any order does. */
  lemma BestKeeps(input: Input, start: nat, q: seq<nat>, target: Coverage)
    requires BestFrom(input, start, q)
    ensures Keeps(input, start, target) <==> OrderCoverage(input, q).AtLeast(target)
  {
    if Keeps(input, start, target) {
      var q' :| WalksFrom(input, start, q') && OrderCoverage(input, q').AtLeast(target);
      assert NoWorse(Evaluate(input, start, q).value, Evaluate(input, start, q').value);
    }
  }

  /** The latest start that keeps the best coverage is, with its best order, the
      optimum over all valid orders and all allowed starts. */
  lemma LatestKeepingIsOptimal(input: Input, start: nat, q: seq<nat>, target: Coverage)
    requires input.problem.startPolicy == Latest && input.problem.startTime <= start < MINUTES_PER_DAY
    requires BestFrom(input, start, q) && Keeps(input, start, target)
    requires forall later | start < later < MINUTES_PER_DAY :: !Keeps(input, later, target)
    requires forall q' | WalksFrom(input, input.problem.startTime, q') :: target.AtLeast(OrderCoverage(input, q'))
    ensures Optimal(input, q, start)
  {
    BestKeeps(input, start, q, target);
    forall q', start': nat | Feasible(input, q', start')
      ensures NoWorse(Evaluate(input, start, q).value, Evaluate(input, start', q').value)
    {
      WalkDownwardClosed(input, input.problem.startTime, start', q');
      assert WalksFrom(input, input.problem.startTime, q') && WalksFrom(input, start', q');
      if OrderCoverage(input, q').AtLeast(target) && start' >= start {
        assert Keeps(input, start', target);
        assert NoWorse(Evaluate(input, start, q).value, Evaluate(input, start', q').value);
      }
    }
  }

  /** Under a policy with a single start minute, the best order from it is optimal. */
  lemma OnlyStartIsOptimal(input: Input, q: seq<nat>)
    requires input.problem.startPolicy != Latest && BestFrom(input, input.problem.startTime, q)
    ensures Optimal(input, q, input.problem.startTime)
  {
    forall q', start': nat | Feasible(input, q', start')
      ensures NoWorse(Evaluate(input, input.problem.startTime, q).value, Evaluate(input, start', q').value)
    {
      assert WalksFrom(input, start', q');
    }
  }

  /** Whatever can be walked from an allowed start can be walked from the requested one. */
  lemma RequestedStartDecides(input: Input)
    requires forall q :: !WalksFrom(input, input.problem.startTime, q)
    ensures forall q, start :: !Feasible(input, q, start)
  {
    forall q, start ensures !Feasible(input, q, start) {
      if Feasible(input, q, start) {
        WalkDownwardClosed(input, input.problem.startTime, start, q);
        assert WalksFrom(input, input.problem.startTime, q);
      }
    }
  }

  /** With every location required there is nothing optional to cover. */
  lemma {:induction false} RequiredCoverNothing(problem: Problem, q: seq<nat>)
    requires problem.Valid() && problem.visitPolicy == AllRequired
    requires forall i | 0 <= i < |q| :: q[i] < |problem.locations|
    ensures SumAlong(OptionalWeights(problem), q) == 0 && SumAlong(PriorityWeights(problem), q) == 0
  {
    if |q| > 0 {
      RequiredCoverNothing(problem, q[..|q| - 1]);
    }
  }

  /** What an uncancelled run must deliver. */
  ghost predicate Solved(input: Input, r: Result<ExactResult, SolverError>) {
    if input.Count() > EXACT_MAX_LOCATIONS then
      r == Err(UnsupportedLocationCount(EXACT_MAX_LOCATIONS, input.Count()))
    else if !input.Matched() then
      r == Err(MatrixSizeMismatch(|input.matrix.rows|, input.Count()))
    else match r
      case Ok(best) =>
        Optimal(input, best.order, best.metrics.start) &&
        Evaluate(input, best.metrics.start, best.order) == Some(best.metrics) && Accounts(input, best.order, best.metrics)
      case Err(error) =>
        error == NoFeasibleRoute && forall q, start :: !Feasible(input, q, start)
  }

  /** Finding the latest start at which every location can still be visited. */
  method LatestFeasibleStart(input: Input, token: Token) returns (r: Result<nat, SolverError>)
    requires Ready(input) && input.problem.visitPolicy == AllRequired
    ensures r == Err(Cancelled) ==> !Quiet(token)
    ensures r.Err? && r.error != Cancelled ==>
      r.error == NoFeasibleRoute && forall q :: !WalksFrom(input, input.problem.startTime, q)
    ensures r.Ok? ==> input.problem.startTime <= r.value < MINUTES_PER_DAY && Keeps(input, r.value, Coverage(0, 0))
    ensures r.Ok? ==> forall later | r.value < later < MINUTES_PER_DAY :: !Keeps(input, later, Coverage(0, 0))
  {
    var low, high := input.problem.startTime, MINUTES_PER_DAY - 1;
    var feasible :- IsFeasibleAtStart(input, low, token);
    if !feasible {
      return Err(NoFeasibleRoute);
    }
    ghost var target := Coverage(0, 0);
    assert Keeps(input, low, target);
    while low < high
      invariant input.problem.startTime <= low <= high < MINUTES_PER_DAY
      invariant Keeps(input, low, target)
      invariant forall later | high < later < MINUTES_PER_DAY :: !Keeps(input, later, target)
    {
      var middle := low + (high - low + 1) / 2;
      feasible :- IsFeasibleAtStart(input, middle, token);
      if feasible {
        assert Keeps(input, middle, target);
        low := middle;
      } else {
        forall later | middle <= later < MINUTES_PER_DAY ensures !Keeps(input, later, target) {
          if Keeps(input, later, target) { KeepsDownwardClosed(input, middle, later, target); }
        }
        high := middle - 1;
      }
    }
    r := Ok(low);
  }

  /** Finding the latest start that keeps the coverage of the requested one. */
  method LatestKeepingStart(input: Input, policy: FrontierPolicy, target: Coverage, token: Token)
    returns (r: Result<nat, SolverError>)
    requires Conservative(policy) && Ready(input) && Keeps(input, input.problem.startTime, target)
    ensures r.Err? ==> r.error == Cancelled && !Quiet(token)
    ensures r.Ok? ==> input.problem.startTime <= r.value < MINUTES_PER_DAY && Keeps(input, r.value, target)
    ensures r.Ok? ==> forall later | r.value < later < MINUTES_PER_DAY :: !Keeps(input, later, target)
  {
    var low, high := input.problem.startTime, MINUTES_PER_DAY - 1;
    while low < high
      invariant input.problem.startTime <= low <= high < MINUTES_PER_DAY
      invariant Keeps(input, low, target)
      invariant forall later | high < later < MINUTES_PER_DAY :: !Keeps(input, later, target)
    {
      var middle := low + (high - low + 1) / 2;
      var found :- SearchAtStart(input, policy, middle, token);
      if found.Some? { BestKeeps(input, middle, found.value.order, target); }
      if found.Some? && CoverageOf(found.value.metrics).AtLeast(target) {
        low := middle;
      } else {
        assert !Keeps(input, middle, target);
        forall later | middle <= later < MINUTES_PER_DAY ensures !Keeps(input, later, target) {
          if Keeps(input, later, target) { KeepsDownwardClosed(input, middle, later, target); }
        }
        high := middle - 1;
      }
    }
    r := Ok(low);
  }

  /** The exact solver. Unless cancelled it returns an order and a start minute
      that no valid order and allowed start beats, with their exact metrics, and
      reports that no route is feasible exactly when none is. */
  method SolveDetailed(input: Input, policy: FrontierPolicy, token: Token) returns (r: Result<ExactResult, SolverError>)
    requires input.Valid() && Conservative(policy)
    ensures if r == Err(Cancelled) then !Quiet(token) else Solved(input, r)
  {
    var stop := Poll(token);
    if stop {
      return Err(Cancelled);
    }
    if input.Count() > EXACT_MAX_LOCATIONS {
      return Err(UnsupportedLocationCount(EXACT_MAX_LOCATIONS, input.Count()));
    }
    if !input.Matched() {
      return Err(MatrixSizeMismatch(|input.matrix.rows|, input.Count()));
    }
    var low := input.problem.startTime;
    ghost var target := Coverage(0, 0);
    if input.problem.startPolicy != Latest {
      var found :- SearchAtStart(input, policy, low, token);
      if found.None? {
        RequestedStartDecides(input);
        return Err(NoFeasibleRoute);
      }
      OnlyStartIsOptimal(input, found.value.order);
      return Ok(found.value);
    }
    if input.problem.visitPolicy == BestEffortOnFailure {
      var first :- SearchAtStart(input, policy, low, token);
      if first.None? {
        RequestedStartDecides(input);
        return Err(NoFeasibleRoute);
      }
      var coverage := CoverageOf(first.value.metrics);
      target := coverage;
      assert OrderCoverage(input, first.value.order).AtLeast(target);
      forall q | WalksFrom(input, low, q) ensures target.AtLeast(OrderCoverage(input, q)) {
        assert NoWorse(first.value.metrics, Evaluate(input, low, q).value);
      }
      low :- LatestKeepingStart(input, policy, coverage, token);
    } else {
      forall q | WalksFrom(input, low, q) ensures target.AtLeast(OrderCoverage(input, q)) {
        RequiredCoverNothing(input.problem, q);
      }
      var latest := LatestFeasibleStart(input, token);
      if latest.Err? {
        if latest.error == NoFeasibleRoute { RequestedStartDecides(input); }
        return Err(latest.error);
      }
      low := latest.value;
    }
    var best :- SearchAtStart(input, policy, low, token);
    assert best.Some?;
    LatestKeepingIsOptimal(input, low, best.value.order, target);
    r := Ok(best.value);
  }
}
