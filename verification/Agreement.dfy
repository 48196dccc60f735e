/** The solvers, the evaluator and the scheduler answer one question: their
    results for one problem agree. */
module Agreement {
  import opened Domain
  import opened Simulation
  import opened Objective
  import opened ExactRun
  import opened ExactSolve
  import opened Schedule
  import MipRoute
  import MipSolve

  /** Two optima may be different orders, but their metrics are equal field by field. */
  lemma OptimaAgree(input: Input, q: seq<nat>, start: nat, q': seq<nat>, start': nat)
    requires Optimal(input, q, start) && Optimal(input, q', start')
    ensures Evaluate(input, start, q) == Evaluate(input, start', q')
  {
    var m, m' := Evaluate(input, start, q).value, Evaluate(input, start', q').value;
    assert NoWorse(m, m') && NoWorse(m', m);
  }

  /** What a conservative frontier policy drops does not matter: with any two of them,
      no pruning included, the exact solver ends alike and reports the same metrics. */
  lemma PruningChangesNothing(input: Input, a: Result<ExactResult, SolverError>, b: Result<ExactResult, SolverError>)
    requires Solved(input, a) && Solved(input, b)
    ensures a.Ok? <==> b.Ok?
    ensures a.Ok? ==> a.value.metrics == b.value.metrics
    ensures a.Err? ==> a == b
  {
    if a.Ok? && b.Ok? {
      OptimaAgree(input, a.value.order, a.value.metrics.start, b.value.order, b.value.metrics.start);
    }
  }

  /** The exact solver and a mixed-integer run: a proven route has the exact
      solver's metrics, a feasible one is never better, and proven infeasibility
      means that the exact solver finds nothing. */
  lemma ExactAndMipAgree(input: Input, exact: Result<ExactResult, SolverError>,
                         mip: Result<MipSolve.Execution, SolverError>, selected: nat)
    requires MipRoute.Ready(input) && input.Count() <= EXACT_MAX_LOCATIONS && Solved(input, exact)
    requires mip.Ok? ==> Feasible(input, mip.value.route, selected)
    requires mip.Ok? && mip.value.proven ==> Optimal(input, mip.value.route, selected)
    requires mip.Err? ==> MipSolve.HonestError(input, mip.error)
    ensures mip.Ok? ==> exact.Ok? && NoWorse(exact.value.metrics, Evaluate(input, selected, mip.value.route).value)
    ensures mip.Ok? && mip.value.proven ==> Evaluate(input, selected, mip.value.route) == Some(exact.value.metrics)
    ensures mip == Err(ProvenInfeasible) ==> exact == Err(NoFeasibleRoute)
  {
    if mip.Ok? && mip.value.proven {
      OptimaAgree(input, exact.value.order, exact.value.metrics.start, mip.value.route, selected);
    }
  }

  /** Scheduling the exact solver's order from its start always succeeds, and the
      plan's last departure, travel and waits are the solver's metrics. */
  lemma PlanOfOptimum(input: Input, best: ExactResult, plan: Result<RoutePlan, ScheduleError>)
    requires input.Valid() && input.Matched() && input.Count() <= EXACT_MAX_LOCATIONS
    requires Solved(input, Ok(best)) && best.metrics.start < MINUTES_PER_DAY
    requires Scheduled(input, best.order, best.metrics.start, plan)
    ensures plan.Ok? && |plan.value.stops| == |best.order|
    ensures PlanClock(plan.value) == Clock(best.metrics.finish, best.metrics.travel, best.metrics.wait)
  {
    ScheduleAgreesWithEvaluation(input, best.order, best.metrics.start, plan);
  }
}
