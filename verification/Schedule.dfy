/** The scheduler that expands an order into stops. It walks wall-clock times of
    one day and reports where and why an order fails. */
module Schedule {
  import opened Domain
  import opened Sequences
  import opened Simulation
  import opened Objective
  import opened ExactRun
  import opened Evaluator

  datatype ScheduledStop = ScheduledStop(
    location: nat, arrival: Minute, serviceStart: Minute, departure: Minute, wait: nat, stay: nat)

  datatype RoutePlan = RoutePlan(stops: seq<ScheduledStop>, totalTravel: nat)

  datatype Violation = Violation(
    location: nat,
    arrival: Minute,
    serviceStart: Minute,
    requiredDeparture: Minute,
    close: Minute,
    selectedStart: Minute,
    totalWait: nat,
    isStart: bool,
    isDestination: bool,
    stay: nat,
    suggestedMaxStay: nat)

  datatype ScheduleError =
    | SizeMismatch(matrix: nat, locations: nat)
    | InvalidOrder
    | OutsideSingleDay
    | TravelTimeOverflow
    | UnreachableArc(from: nat, to: nat)
    | TimeWindowViolation(violation: Violation)

  /** `TimeOfDay::checked_add`. */
  function AddMinutes(time: Minute, minutes: nat): Option<Minute> {
    if time + minutes < MINUTES_PER_DAY then Some(time + minutes) else None
  }

  function SaturatingSub(a: nat, b: nat): nat { if a >= b then a - b else 0 }

  /** Validation with the endpoints marked beforehand accepts exactly the valid orders. */
  method ValidateSolution(problem: Problem, order: seq<nat>) returns (ok: bool)
    requires problem.Valid()
    ensures ok <==> ValidOrder(problem, order)
  {
    var n, end := |problem.locations|, problem.End();
    if n == 1 {
      SingleLocationOrders(problem, order);
      return order == [0];
    }
    if (problem.visitPolicy == AllRequired && |order| != n) || |order| < 2 || order[0] != 0 || order[|order| - 1] != end {
      return false;
    }
    var seen := seq(n, _ => false)[0 := true][end := true];
    for k := 1 to |order| - 1
      invariant |seen| == n
      invariant forall i | 0 <= i < k :: order[i] < n && (i > 0 ==> order[i] != end)
      invariant Distinct(order[..k])
      invariant forall x: nat | x < n :: seen[x] <==> x == end || x in order[..k]
    {
      if order[k] >= n || seen[order[k]] {
        RepeatedStop(problem, order, k);
        return false;
      }
      assert order[..k + 1] == order[..k] + [order[k]];
      seen := seen[order[k] := true];
    }
    AllMarked(problem, order, seen);
    ok := (forall i | 0 <= i < n :: problem.locations[i].required ==> seen[i]) &&
          (problem.visitPolicy == AllRequired ==> forall i | 0 <= i < n :: seen[i]);
  }

  /** With every stop marked, the two final tests ask for exactly the rest of a valid order. */
  lemma AllMarked(problem: Problem, order: seq<nat>, seen: seq<bool>)
    requires problem.Valid() && |order| >= 2 && order[0] == 0 && order[|order| - 1] == problem.End()
    requires |seen| == |problem.locations| >= 2
    requires problem.visitPolicy == AllRequired ==> |order| == |problem.locations|
    requires forall i | 0 <= i < |order| - 1 :: order[i] < |problem.locations| && (i > 0 ==> order[i] != problem.End())
    requires Distinct(order[..|order| - 1])
    requires forall x: nat | x < |seen| :: seen[x] <==> x == problem.End() || x in order[..|order| - 1]
    ensures ValidOrder(problem, order) <==>
      (forall i | 0 <= i < |seen| :: problem.locations[i].required ==> seen[i]) &&
      (problem.visitPolicy == AllRequired ==> forall i | 0 <= i < |seen| :: seen[i])
  {
    var before := order[..|order| - 1];
    assert order == before + [problem.End()];
    assert forall i | 0 <= i < |before| :: before[i] == order[i];
    DistinctInRange(order, |problem.locations|);
    assert forall x: nat | x < |seen| :: seen[x] <==> x in order;
  }

  lemma RepeatedStop(problem: Problem, order: seq<nat>, k: nat)
    requires 1 <= k < |order| - 1 && order[|order| - 1] == problem.End()
    requires order[k] >= |problem.locations| || order[k] == problem.End() || order[k] in order[..k]
    ensures !ValidOrder(problem, order)
  {
    if order[k] in order[..k] {
      var i :| 0 <= i < k && order[..k][i] == order[k];
      assert order[i] == order[k];
    }
  }

  /** Stop `k` repeats the reference walk: where it is, when service starts and ends,
      and how long the traveller waits. */
  ghost predicate StopMatches(input: Input, start: nat, order: seq<nat>, stop: ScheduledStop, k: nat)
    requires FromStart(input, order) && k < |order|
  {
    var reached := WalkTo(input, start, order, k + 1);
    && reached.Some?
    && stop.location == order[k]
    && stop.departure == reached.value.time
    && stop.stay == input.problem.locations[order[k]].stay
    && stop.serviceStart + stop.stay == stop.departure
    && stop.arrival + stop.wait == stop.serviceStart
    && stop.wait == reached.value.wait - (if k == 0 then 0 else
         match WalkTo(input, start, order, k) case Some(before) => before.wait case None => 0)
  }

  ghost predicate AllMatch(input: Input, start: nat, order: seq<nat>, stops: seq<ScheduledStop>)
    requires FromStart(input, order)
  {
    |stops| <= |order| && forall k | 0 <= k < |stops| :: StopMatches(input, start, order, stops[k], k)
  }

  lemma NextMatches(input: Input, start: nat, order: seq<nat>, stops: seq<ScheduledStop>, stop: ScheduledStop)
    requires FromStart(input, order) && AllMatch(input, start, order, stops) && |stops| < |order|
    requires StopMatches(input, start, order, stop, |stops|)
    ensures AllMatch(input, start, order, stops + [stop])
  {
    var more := stops + [stop];
    forall k | 0 <= k < |more| ensures StopMatches(input, start, order, more[k], k) {
      if k < |stops| { assert more[k] == stops[k] && StopMatches(input, start, order, stops[k], k); }
    }
  }

  lemma TotalWaitNext(stops: seq<ScheduledStop>, stop: ScheduledStop)
    ensures TotalWait(stops + [stop]) == TotalWait(stops) + stop.wait
  {
    assert (stops + [stop])[..|stops|] == stops;
  }

  function TotalWait(stops: seq<ScheduledStop>): nat {
    if |stops| == 0 then 0 else TotalWait(stops[..|stops| - 1]) + stops[|stops| - 1].wait
  }

  /** The reference walk breaks at the leg into stop `k`, for the reported reason. */
  ghost predicate FailsAt(input: Input, start: Minute, order: seq<nat>, k: nat, error: ScheduleError)
    requires FromStart(input, order) && 1 <= k < |order|
  {
    var before := WalkTo(input, start, order, k);
    var location := input.problem.locations[order[k]];
    && before.Some? && WalkTo(input, start, order, k + 1).None?
    && match input.matrix.Travel(order[k - 1], order[k])
       case None => error == UnreachableArc(order[k - 1], order[k])
       case Some(minutes) =>
         var arrival := before.value.time + minutes;
         var begin := Max(arrival, location.window.open);
         if before.value.travel + minutes >= U32_LIMIT then error == TravelTimeOverflow
         else if arrival >= MINUTES_PER_DAY || begin + location.stay >= MINUTES_PER_DAY then error == OutsideSingleDay
         else error == TimeWindowViolation(Violation(
           order[k], arrival, begin, begin + location.stay, location.window.close, start,
           before.value.wait + (begin - arrival), false, order[k] == input.problem.End(), location.stay,
           SaturatingSub(location.window.close, begin)))
  }

  ghost predicate FailsAtStart(input: Input, start: Minute, error: ScheduleError)
    requires input.Valid()
  {
    var location := input.problem.locations[0];
    var begin := Max(start, location.window.open);
    && Depart(input.problem, start).None?
    && if begin + location.stay >= MINUTES_PER_DAY then error == OutsideSingleDay
       else error == TimeWindowViolation(Violation(
         0, start, begin, begin + location.stay, location.window.close, start, begin - start,
         true, 0 == input.problem.End(), location.stay, SaturatingSub(location.window.close, begin)))
  }

  /** The last departure, the total travel and the summed waits of a plan. */
  function PlanClock(plan: RoutePlan): Clock
    requires |plan.stops| > 0
  {
    Clock(plan.stops[|plan.stops| - 1].departure, plan.totalTravel, TotalWait(plan.stops))
  }

  /** The plan repeats the reference walk stop by stop and in total. */
  ghost predicate Expands(input: Input, order: seq<nat>, start: Minute, plan: RoutePlan)
    requires FromStart(input, order)
  {
    && |plan.stops| == |order| && AllMatch(input, start, order, plan.stops)
    && Walk(input, start, order) == Some(PlanClock(plan))
  }

  /** The error reports the first stop at which the reference walk breaks. */
  ghost predicate Fails(input: Input, start: Minute, order: seq<nat>, error: ScheduleError)
    requires input.Valid() && FromStart(input, order)
  {
    FailsAtStart(input, start, error) || exists k: nat :: 1 <= k < |order| && FailsAt(input, start, order, k, error)
  }

  /** What scheduling an order must deliver. */
  ghost predicate Scheduled(input: Input, order: seq<nat>, start: Minute, r: Result<RoutePlan, ScheduleError>)
    requires input.Valid()
  {
    if !input.Matched() then r == Err(SizeMismatch(|input.matrix.rows|, input.Count()))
    else if !ValidOrder(input.problem, order) then r == Err(InvalidOrder)
    else
      && FromStart(input, order)
      && (r.Ok? ==> Expands(input, order, start, r.value))
      && (r.Err? ==> Walk(input, start, order).None? && Fails(input, start, order, r.error))
  }

  /** Service at the start location. */
  function ScheduleStart(input: Input, start: Minute): Result<ScheduledStop, ScheduleError>
    requires input.Count() > 0
  {
    var location := input.problem.locations[0];
    var begin: Minute := Max(start, location.window.open);
    if AddMinutes(begin, location.stay).None? then Err(OutsideSingleDay)
    else
      var departure := AddMinutes(begin, location.stay).value;
      if departure > location.window.close then
        Err(TimeWindowViolation(Violation(
          0, start, begin, departure, location.window.close, start, begin - start,
          true, 0 == input.problem.End(), location.stay, SaturatingSub(location.window.close, begin))))
      else Ok(ScheduledStop(0, start, begin, departure, begin - start, location.stay))
  }

  lemma ScheduleStartIsDepart(input: Input, start: Minute, order: seq<nat>)
    requires input.Valid() && FromStart(input, order)
    ensures var first := ScheduleStart(input, start);
      && (first.Ok? ==> WalkTo(input, start, order, 1) == Some(Clock(first.value.departure, 0, first.value.wait)))
      && (first.Ok? ==> StopMatches(input, start, order, first.value, 0))
      && (first.Err? ==> FailsAtStart(input, start, first.error) && Walk(input, start, order).None?)
  {
    WalkToEnd(input, start, order);
    if Walk(input, start, order).Some? { WalkNeedsDeparture(input, start, order); }
  }

  /** One leg of the schedule. */
  function ScheduleLeg(input: Input, from: nat, to: nat, time: Minute, travel: nat, wait: nat, start: Minute)
    : Result<(ScheduledStop, nat), ScheduleError>
    requires to < input.Count()
  {
    match input.matrix.Travel(from, to)
    case None => Err(UnreachableArc(from, to))
    case Some(minutes) =>
      if CheckedAdd(travel, minutes).None? then Err(TravelTimeOverflow)
      else if AddMinutes(time, minutes).None? then Err(OutsideSingleDay)
      else
        var location, arrival := input.problem.locations[to], AddMinutes(time, minutes).value;
        var begin: Minute := Max(arrival, location.window.open);
        if AddMinutes(begin, location.stay).None? then Err(OutsideSingleDay)
        else
          var departure := AddMinutes(begin, location.stay).value;
          if departure > location.window.close then
            Err(TimeWindowViolation(Violation(
              to, arrival, begin, departure, location.window.close, start, wait + (begin - arrival),
              false, to == input.problem.End(), location.stay, SaturatingSub(location.window.close, begin))))
          else Ok((ScheduledStop(to, arrival, begin, departure, begin - arrival, location.stay), travel + minutes))
  }

  /** The clock after a scheduled leg: its departure, the new travel total and its wait. */
  function LegClock(before: Clock, leg: (ScheduledStop, nat)): Clock {
    Clock(leg.0.departure, leg.1, before.wait + leg.0.wait)
  }

  /** The leg is the walk's next step, or reports where and why the walk breaks. */
  ghost predicate LegAgrees(input: Input, start: Minute, order: seq<nat>, k: nat, clock: Clock,
                            leg: Result<(ScheduledStop, nat), ScheduleError>)
    requires FromStart(input, order) && 1 <= k < |order|
  {
    && (leg.Ok? ==> WalkTo(input, start, order, k + 1) == Some(LegClock(clock, leg.value)))
    && (leg.Ok? ==> StopMatches(input, start, order, leg.value.0, k))
    && (leg.Err? ==> FailsAt(input, start, order, k, leg.error))
  }

  /** A scheduled leg is the walk's move, and a failed one reports the walk's failure. */
  lemma ScheduleLegIsMove(input: Input, start: Minute, order: seq<nat>, k: nat)
    requires input.Valid() && FromStart(input, order) && 1 <= k < |order|
    requires WalkTo(input, start, order, k).Some? && WalkTo(input, start, order, k).value.time < MINUTES_PER_DAY
    ensures var clock := WalkTo(input, start, order, k).value;
      LegAgrees(input, start, order, k, clock,
                ScheduleLeg(input, order[k - 1], order[k], clock.time, clock.travel, clock.wait, start))
  {
    WalkToNext(input, start, order, k);
    var clock := WalkTo(input, start, order, k).value;
    LegIsMove(input, start, order[k - 1], order[k], clock);
  }

  /** One leg in terms of the reference move. */
  lemma LegIsMove(input: Input, start: Minute, from: nat, to: nat, clock: Clock)
    requires from < input.Count() && to < input.Count() && clock.time < MINUTES_PER_DAY && clock.travel + clock.wait <= clock.time
    ensures var leg := ScheduleLeg(input, from, to, clock.time, clock.travel, clock.wait, start);
      && (leg.Err? <==> Move(input, clock, from, to).None?)
      && (leg.Ok? ==> Move(input, clock, from, to) == Some(LegClock(clock, leg.value)))
  {
  }

  method CalculateScheduleFrom(input: Input, order: seq<nat>, start: Minute) returns (r: Result<RoutePlan, ScheduleError>)
    requires input.Valid()
    ensures Scheduled(input, order, start, r)
  {
    if !input.Matched() {
      return Err(SizeMismatch(|input.matrix.rows|, input.Count()));
    }
    var valid := ValidateSolution(input.problem, order);
    if !valid {
      return Err(InvalidOrder);
    }
    ScheduleStartIsDepart(input, start, order);
    var first := ScheduleStart(input, start);
    if first.Err? {
      return Err(first.error);
    }
    r := ScheduleLegs(input, order, start, first.value);
  }

  /** The schedule after the start service, leg by leg. */
  method ScheduleLegs(input: Input, order: seq<nat>, start: Minute, first: ScheduledStop)
    returns (r: Result<RoutePlan, ScheduleError>)
    requires input.Valid() && FromStart(input, order)
    requires WalkTo(input, start, order, 1) == Some(Clock(first.departure, 0, first.wait))
    requires StopMatches(input, start, order, first, 0)
    ensures r.Ok? ==> Expands(input, order, start, r.value)
    ensures r.Err? ==> Walk(input, start, order).None? && Fails(input, start, order, r.error)
  {
    var current, travel: nat, wait: nat := first.departure, 0, first.wait;
    var stops := [first];
    FirstReached(input, start, order, first);
    for k := 1 to |order|
      invariant |stops| == k && Reached(input, start, order, stops, Clock(current, travel, wait))
    {
      ghost var clock := Clock(current, travel, wait);
      ScheduleLegIsMove(input, start, order, k);
      var leg := ScheduleLeg(input, order[k - 1], order[k], current, travel, wait, start);
      if leg.Err? {
        FailedLeg(input, start, order, k, leg.error);
        return Err(leg.error);
      }
      StopReaches(input, start, order, stops, clock, leg.value);
      var stop := leg.value.0;
      current, travel, wait, stops := stop.departure, leg.value.1, wait + stop.wait, stops + [stop];
    }
    LastReached(input, start, order, stops, Clock(current, travel, wait));
    r := Ok(RoutePlan(stops, travel));
  }

  /** The stops so far repeat the reference walk, which has reached `clock`. */
  ghost predicate Reached(input: Input, start: Minute, order: seq<nat>, stops: seq<ScheduledStop>, clock: Clock)
    requires FromStart(input, order)
  {
    && 1 <= |stops| <= |order| && stops[|stops| - 1].departure == clock.time
    && WalkTo(input, start, order, |stops|) == Some(clock)
    && clock.wait == TotalWait(stops) && AllMatch(input, start, order, stops)
  }

  lemma FirstReached(input: Input, start: Minute, order: seq<nat>, first: ScheduledStop)
    requires FromStart(input, order) && StopMatches(input, start, order, first, 0)
    requires WalkTo(input, start, order, 1) == Some(Clock(first.departure, 0, first.wait))
    ensures Reached(input, start, order, [first], Clock(first.departure, 0, first.wait))
  {
    assert TotalWait([first]) == TotalWait([]) + first.wait by { TotalWaitNext([], first); assert [] + [first] == [first]; }
  }

  lemma LastReached(input: Input, start: Minute, order: seq<nat>, stops: seq<ScheduledStop>, clock: Clock)
    requires FromStart(input, order) && |stops| == |order| && Reached(input, start, order, stops, clock)
    ensures Expands(input, order, start, RoutePlan(stops, clock.travel))
  {
    WalkToEnd(input, start, order);
  }

  /** One more leg reaches the next stop. */
  lemma StopReaches(input: Input, start: Minute, order: seq<nat>, stops: seq<ScheduledStop>, clock: Clock, leg: (ScheduledStop, nat))
    requires FromStart(input, order) && |stops| < |order| && Reached(input, start, order, stops, clock)
    requires 1 <= |stops| && LegAgrees(input, start, order, |stops|, clock, Ok(leg))
    ensures Reached(input, start, order, stops + [leg.0], LegClock(clock, leg))
  {
    NextMatches(input, start, order, stops, leg.0);
    TotalWaitNext(stops, leg.0);
  }

  lemma FailedLeg(input: Input, start: Minute, order: seq<nat>, k: nat, error: ScheduleError)
    requires input.Valid() && FromStart(input, order) && 1 <= k < |order|
    requires exists clock :: LegAgrees(input, start, order, k, clock, Err(error))
    ensures Walk(input, start, order).None? && Fails(input, start, order, error)
  {
    assert FailsAt(input, start, order, k, error);
    BrokenPrefix(input, start, order, k + 1);
  }

  /** Scheduling succeeds exactly when simulation does, and then the last
      departure, the total travel and the summed waits are the metrics. */
  lemma ScheduleAgreesWithEvaluation(input: Input, order: seq<nat>, start: Minute, r: Result<RoutePlan, ScheduleError>)
    requires input.Valid() && Scheduled(input, order, start, r)
    ensures r.Ok? <==> input.Matched() && WalksFrom(input, start, order)
    ensures r.Ok? ==> |r.value.stops| > 0
    ensures r.Ok? ==>
      Evaluate(input, start, order) == Some(MetricsOf(input, start, order, PlanClock(r.value)))
  {
  }
}
