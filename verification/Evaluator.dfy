/** Evaluating one assembled route: validation, simulation with checked sums, and
    the binary search for its latest start. */
module Evaluator {
  import opened Domain
  import opened Sequences
  import opened Simulation
  import opened Objective
  import opened Transition
  import opened ExactRun

  /** Validation with a `seen` table accepts exactly the valid orders. */
  method ValidateVisitOrder(problem: Problem, order: seq<nat>) returns (ok: bool)
    requires problem.Valid()
    ensures ok <==> ValidOrder(problem, order)
  {
    var n := |problem.locations|;
    if n == 1 {
      if order == [0] { return true; }
      SingleLocationOrders(problem, order);
      return false;
    }
    if (problem.visitPolicy == AllRequired && |order| != n) || |order| < 2 || order[0] != 0
      || order[|order| - 1] != problem.End()
    {
      return false;
    }
    var seen := seq(n, _ => false);
    for k := 0 to |order|
      invariant |seen| == n
      invariant forall i | 0 <= i < k :: order[i] < n
      invariant Distinct(order[..k])
      invariant forall x: nat | x < n :: seen[x] <==> x in order[..k]
    {
      if order[k] >= n || seen[order[k]] {
        if order[k] < n {
          var i :| 0 <= i < k && order[..k][i] == order[k];
          assert order[i] == order[k];
        }
        return false;
      }
      assert order[..k + 1] == order[..k] + [order[k]];
      seen := seen[order[k] := true];
    }
    assert order[..|order|] == order;
    ok := forall i | 0 <= i < n :: problem.locations[i].required ==> seen[i];
  }

  lemma SingleLocationOrders(problem: Problem, order: seq<nat>)
    requires problem.Valid() && |problem.locations| == 1
    ensures ValidOrder(problem, order) <==> order == [0]
  {
    if ValidOrder(problem, order) {
      DistinctInRange(order, 1);
    }
  }

  /** One leg of the simulation, every sum checked against 32 bits. */
  function CheckedLeg(location: Location, time: nat, travel: nat, wait: nat, minutes: nat): Option<Clock> {
    var travelled :- CheckedAdd(travel, minutes);
    var arrival :- CheckedAdd(time, minutes);
    var begin := Max(arrival, location.window.open);
    var waited :- CheckedAdd(wait, begin - arrival);
    var finish :- CheckedAdd(begin, location.stay);
    if finish > location.window.close || finish >= MINUTES_PER_DAY then None
    else Some(Clock(finish, travelled, waited))
  }

  /** Overflow can only hide legs that closing time forbids anyway. */
  lemma CheckedLegIsServe(location: Location, time: nat, travel: nat, wait: nat, minutes: nat)
    requires travel + wait <= time
    ensures CheckedLeg(location, time, travel, wait, minutes) == Serve(location, time + minutes, travel + minutes, wait)
  {
  }

  /** The walk over the first `k` stops. */
  function WalkTo(input: Input, start: nat, order: seq<nat>, k: nat): Option<Clock>
    requires FromStart(input, order) && 1 <= k <= |order|
  {
    Walk(input, start, order[..k])
  }

  lemma WalkToNext(input: Input, start: nat, order: seq<nat>, k: nat)
    requires FromStart(input, order) && 1 <= k < |order|
    ensures WalkTo(input, start, order, k + 1) ==
      match WalkTo(input, start, order, k)
      case None => None
      case Some(clock) => Move(input, clock, order[k - 1], order[k])
    ensures WalkTo(input, start, order, k).Some? ==>
      WalkTo(input, start, order, k).value.travel + WalkTo(input, start, order, k).value.wait
        <= WalkTo(input, start, order, k).value.time
  {
    var p := order[..k + 1];
    assert p[..k] == order[..k] && p[|p| - 1] == order[k] && p[|p| - 2] == order[k - 1];
    if Walk(input, start, order[..k]).Some? { Conservation(input, start, order[..k]); }
  }

  /** The checked leg into stop `k` is the walk's next step; without it there is no walk. */
  lemma LegIsNext(input: Input, start: nat, order: seq<nat>, k: nat, clock: Clock)
    requires FromStart(input, order) && 1 <= k < |order| && WalkTo(input, start, order, k) == Some(clock)
    ensures var minutes := input.matrix.Travel(order[k - 1], order[k]);
      WalkTo(input, start, order, k + 1) ==
        if minutes.None? then None
        else CheckedLeg(input.problem.locations[order[k]], clock.time, clock.travel, clock.wait, minutes.value)
    ensures WalkTo(input, start, order, k + 1).None? ==> Walk(input, start, order).None?
  {
    WalkToNext(input, start, order, k);
    var minutes := input.matrix.Travel(order[k - 1], order[k]);
    if minutes.Some? {
      CheckedLegIsServe(input.problem.locations[order[k]], clock.time, clock.travel, clock.wait, minutes.value);
    }
    if WalkTo(input, start, order, k + 1).None? { BrokenPrefix(input, start, order, k + 1); }
  }

  lemma WalkToEnd(input: Input, start: nat, order: seq<nat>)
    requires FromStart(input, order)
    ensures WalkTo(input, start, order, 1) == Depart(input.problem, start)
    ensures WalkTo(input, start, order, |order|) == Walk(input, start, order)
  {
    assert order[..|order|] == order;
  }

  predicate BetweenEndpoints(problem: Problem, order: seq<nat>) {
    |order| > 0 && order[0] == 0 && order[|order| - 1] == problem.End()
  }

  /** The leg-by-leg simulation computes exactly the reference evaluation. */
  method SimulateSolution(input: Input, order: seq<nat>, start: nat) returns (r: Option<Metrics>)
    requires input.Valid() && input.Matched()
    requires forall i | 0 <= i < |order| :: order[i] < input.Count()
    ensures r == if BetweenEndpoints(input.problem, order) then Evaluate(input, start, order) else None
    ensures r.Some? ==> Accounts(input, order, r.value)
  {
    if !BetweenEndpoints(input.problem, order) {
      return None;
    }
    InitialServiceIsDepart(input.problem, start);
    WalkToEnd(input, start, order);
    var initial := InitialServiceAt(input.problem, start);
    if initial.None? {
      if Walk(input, start, order).Some? { WalkNeedsDeparture(input, start, order); }
      return None;
    }
    var time: nat, travel: nat, wait: nat := initial.value.departure, 0, initial.value.wait;
    for k := 1 to |order|
      invariant WalkTo(input, start, order, k) == Some(Clock(time, travel, wait))
    {
      LegIsNext(input, start, order, k, Clock(time, travel, wait));
      var minutes := input.matrix.Travel(order[k - 1], order[k]);
      if minutes.None? {
        return None;
      }
      var served := CheckedLeg(input.problem.locations[order[k]], time, travel, wait, minutes.value);
      if served.None? {
        return None;
      }
      time, travel, wait := served.value.time, served.value.travel, served.value.wait;
    }
    ScoreAccounts(input, start, order);
    r := Some(MetricsOf(input, start, order, Clock(time, travel, wait)));
  }

  /** An order with an impossible beginning cannot be walked. */
  lemma {:induction false} BrokenPrefix(input: Input, start: nat, order: seq<nat>, k: nat)
    requires FromStart(input, order) && 1 <= k <= |order|
    requires WalkTo(input, start, order, k).None?
    ensures Walk(input, start, order).None?
  {
    if k == |order| {
      assert order[..k] == order;
    } else {
      assert order[..|order| - 1][..k] == order[..k];
      BrokenPrefix(input, start, order[..|order| - 1], k);
    }
  }

  /** The start minute the policy selects for one order: the requested one, or the
      largest minute of the day from which the order can still be walked. */
  ghost predicate SelectedStart(input: Input, order: seq<nat>, start: nat)
    requires FromStart(input, order)
  {
    && AllowedStart(input.problem, start)
    && Walk(input, start, order).Some?
    && forall later: nat | AllowedStart(input.problem, later) && Walk(input, later, order).Some? :: later <= start
  }

  /** What evaluating an order must deliver. */
  ghost predicate Evaluated(input: Input, order: seq<nat>, r: Result<Metrics, SolverError>) {
    if !ValidOrder(input.problem, order) then r == Err(InvalidVisitOrder)
    else if !input.Matched() then r == Err(MatrixSizeMismatch(|input.matrix.rows|, input.Count()))
    else match r
      case Ok(metrics) =>
        && SelectedStart(input, order, metrics.start) && Evaluate(input, metrics.start, order) == Some(metrics)
        && Accounts(input, order, metrics)
      case Err(error) =>
        error == NoFeasibleRoute && forall start :: !Feasible(input, order, start)
  }

  method EvaluateSolution(input: Input, order: seq<nat>, token: Token) returns (r: Result<Metrics, SolverError>)
    requires input.Valid()
    ensures if r == Err(Cancelled) then !Quiet(token) else Evaluated(input, order, r)
  {
    var valid := ValidateVisitOrder(input.problem, order);
    if !valid {
      return Err(InvalidVisitOrder);
    }
    if !input.Matched() {
      return Err(MatrixSizeMismatch(|input.matrix.rows|, input.Count()));
    }
    var stop := Poll(token);
    if stop {
      return Err(Cancelled);
    }
    var low := input.problem.startTime;
    var metrics := SimulateSolution(input, order, low);
    if metrics.None? {
      forall start ensures !Feasible(input, order, start) {
        if Feasible(input, order, start) { WalkDownwardClosed(input, low, start, order); }
      }
      return Err(NoFeasibleRoute);
    }
    if input.problem.startPolicy != Latest {
      return Ok(metrics.value);
    }
    var high := MINUTES_PER_DAY - 1;
    while low < high
      invariant input.problem.startTime <= low <= high < MINUTES_PER_DAY
      invariant Walk(input, low, order).Some?
      invariant forall later | high < later < MINUTES_PER_DAY :: Walk(input, later, order).None?
    {
      var middle := low + (high - low + 1) / 2;
      var probe := SimulateSolution(input, order, middle);
      if probe.Some? {
        low := middle;
      } else {
        forall later | middle <= later < MINUTES_PER_DAY ensures Walk(input, later, order).None? {
          if Walk(input, later, order).Some? { WalkDownwardClosed(input, middle, later, order); }
        }
        high := middle - 1;
      }
    }
    metrics := SimulateSolution(input, order, low);
    r := Ok(metrics.value);
  }

  /** The selected start in closed form: the requested minute, or the latest
      departure that the order's profile allows. */
  lemma SelectedStartClosedForm(input: Input, order: seq<nat>, start: nat)
    requires input.Valid() && FromStart(input, order) && SelectedStart(input, order, start)
    ensures start == if input.problem.startPolicy == Latest then ProfileOf(input, order).latest else input.problem.startTime
  {
    WalkClosedForm(input, start, order);
    LatestInDay(input, order);
    if input.problem.startPolicy == Latest {
      WalkClosedForm(input, ProfileOf(input, order).latest, order);
    }
  }

  lemma {:induction false} LatestInDay(input: Input, q: seq<nat>)
    requires FromStart(input, q)
    ensures ProfileOf(input, q).latest < MINUTES_PER_DAY
  {
    if |q| > 1 {
      LatestInDay(input, q[..|q| - 1]);
    }
  }

  /** Evaluating an optimal order again, whichever solver found it, selects the
      optimal start, hence returns the solver's own metrics, in both visit policies. */
  lemma OptimumIsReproduced(input: Input, q: seq<nat>, start: nat, again: Result<Metrics, SolverError>)
    requires input.Valid() && input.Matched() && Optimal(input, q, start) && Evaluated(input, q, again)
    ensures again.Ok? && again.value.start == start && Evaluate(input, start, q) == Some(again.value)
  {
    assert Feasible(input, q, start);
    if input.problem.startPolicy == Latest {
      assert Feasible(input, q, again.value.start);
      assert NoWorse(Evaluate(input, start, q).value, again.value);
    }
  }

  /** The start time exposed for evaluated metrics: the requested minute unless
      the policy searched for a later one. */
  function ExposedStart(problem: Problem, metrics: Metrics): nat {
    if problem.startPolicy != Latest then problem.startTime else metrics.start
  }

  lemma ExposedStartIsSelected(input: Input, order: seq<nat>, metrics: Metrics)
    requires FromStart(input, order) && SelectedStart(input, order, metrics.start)
    ensures ExposedStart(input.problem, metrics) == metrics.start && metrics.start < MINUTES_PER_DAY
  {
  }
}
