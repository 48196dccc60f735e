/** Solving the mixed-integer model in phases, each fixing one objective before
    the next: with every phase optimal the final route is a minimum of the
    lexicographic comparison. */
module MipSolve {
  import opened Domain
  import opened Masks
  import opened Sequences
  import opened Simulation
  import opened Objective
  import opened Evaluator
  import opened MipModel
  import opened MipRoute

  /** The total weight of the members of a sequence among the locations below `k`. */
  function MemberSum(w: seq<nat>, q: seq<nat>, k: nat): nat
    requires k <= |w|
  {
    if k == 0 then 0 else MemberSum(w, q, k - 1) + (if k - 1 in q then w[k - 1] else 0)
  }

  lemma {:induction false} MemberSumExtend(w: seq<nat>, p: seq<nat>, x: nat, k: nat)
    requires k <= |w| && x < |w| && x !in p
    ensures MemberSum(w, p + [x], k) == MemberSum(w, p, k) + (if x < k then w[x] else 0)
  {
    if k > 0 {
      MemberSumExtend(w, p, x, k - 1);
      assert k - 1 in p + [x] <==> k - 1 in p || k - 1 == x;
    }
  }

  lemma {:induction false} MemberSumEmpty(w: seq<nat>, k: nat)
    requires k <= |w|
    ensures MemberSum(w, [], k) == 0
  {
    if k > 0 { MemberSumEmpty(w, k - 1); }
  }

  /** Summing over the members in any order gives the same total. */
  lemma {:induction false} MemberSumIsSumAlong(w: seq<nat>, q: seq<nat>)
    requires Distinct(q) && forall i | 0 <= i < |q| :: q[i] < |w|
    ensures MemberSum(w, q, |w|) == SumAlong(w, q)
  {
    if |q| == 0 {
      MemberSumEmpty(w, |w|);
    } else {
      var p, x := q[..|q| - 1], q[|q| - 1];
      assert q == p + [x];
      MemberSumIsSumAlong(w, p);
      MemberSumExtend(w, p, x, |w|);
    }
  }

  /** The visited flags are those of the order. */
  ghost predicate Flagged(input: Input, a: Assignment, q: seq<nat>) {
    |a.y| == input.Count() && forall i | 0 <= i < |a.y| :: a.y[i] == if i in q then 1 else 0
  }

  lemma {:induction false} OptionalSumIsMemberSum(input: Input, a: Assignment, q: seq<nat>, w: seq<nat>, weigh: bool, k: nat)
    requires Flagged(input, a, q) && k <= input.Count()
    requires w == if weigh then PriorityWeights(input.problem) else OptionalWeights(input.problem)
    ensures OptionalSum(input.problem.locations[..k], weigh, a) == MemberSum(w, q, k)
  {
    if k > 0 {
      assert input.problem.locations[..k][..k - 1] == input.problem.locations[..k - 1];
      OptionalSumIsMemberSum(input, a, q, w, weigh, k - 1);
    }
  }

  lemma {:induction false} StaySumIsMemberSum(input: Input, a: Assignment, q: seq<nat>, k: nat)
    requires Flagged(input, a, q) && k <= input.Count()
    ensures StaySum(input.problem.locations[..k], a) == MemberSum(Stays(input.problem), q, k)
  {
    if k > 0 {
      assert input.problem.locations[..k][..k - 1] == input.problem.locations[..k - 1];
      StaySumIsMemberSum(input, a, q, k - 1);
    }
  }

  /** The travel minutes of the arc that leaves location `i` on the order. */
  function LegOut(input: Input, q: seq<nat>, i: nat): nat {
    if NextOn(q, i, input.Count()) < input.Count() then
      match input.matrix.Travel(i, NextOn(q, i, input.Count()))
      case None => 0
      case Some(minutes) => minutes
    else 0
  }

  function LegsOut(input: Input, q: seq<nat>): (w: seq<nat>)
    ensures |w| == input.Count()
    ensures forall i | 0 <= i < |w| :: w[i] == LegOut(input, q, i)
  {
    seq(input.Count(), i requires 0 <= i < input.Count() => LegOut(input, q, i))
  }

  /** The used arcs of a satisfying assignment are exactly the steps of its route. */
  lemma UsedAreRouteSteps(input: Input, a: Assignment, q: seq<nat>, i: nat, j: nat)
    requires MipRoute.Ready(input) && Model(input, a) && RouteOf(input, a, q)
    requires i < input.Count() && j < input.Count()
    ensures Used(input, a, i, j) <==> Follows(q, i, j)
  {
    if Follows(q, i, j) {
      assert Link(input, a, q, Position(q, i));
    }
    if Used(input, a, i, j) {
      assert FlowAt(input, a, i) && FlowAt(input, a, j);
      OneArcEnters(input, a, i, i, j);
      UsedArcLeaves(input, a, i, j, input.Count());
      if i == 0 { assert a.y[i] == 1; }
      assert i in q;
      var k := Position(q, i);
      assert k + 1 < |q|;
      assert Link(input, a, q, k);
      OneArcLeaves(input, a, i, j, q[k + 1]);
      PositionInDistinct(q, k + 1);
    }
  }

  lemma {:induction false} RowTravelIsLeg(input: Input, a: Assignment, q: seq<nat>, i: nat, k: nat)
    requires MipRoute.Ready(input) && Model(input, a) && RouteOf(input, a, q) && i < input.Count() && k <= input.Count()
    ensures RowTravel(input, a, i, k) == if NextOn(q, i, input.Count()) < k then LegOut(input, q, i) else 0
  {
    if k > 0 {
      RowTravelIsLeg(input, a, q, i, k - 1);
      UsedAreRouteSteps(input, a, q, i, k - 1);
      NeighboursFollow(q, input.Count(), i, k - 1);
      if HasArc(input, i, k - 1) { assert 0 <= a.arcs[i][k - 1] <= 1; }
    }
  }

  lemma {:induction false} TotalTravelIsMemberSum(input: Input, a: Assignment, q: seq<nat>, k: nat)
    requires MipRoute.Ready(input) && Model(input, a) && RouteOf(input, a, q) && k <= input.Count()
    ensures TotalTravel(input, a, k) == MemberSum(LegsOut(input, q), q, k)
  {
    if k > 0 {
      TotalTravelIsMemberSum(input, a, q, k - 1);
      RowTravelIsLeg(input, a, q, k - 1, input.Count());
    }
  }

  lemma {:induction false} WalkTravelIsLegs(input: Input, start: nat, q: seq<nat>, k: nat)
    requires FromStart(input, q) && Distinct(q) && 1 <= k <= |q| && WalkTo(input, start, q, k).Some?
    ensures WalkTo(input, start, q, k).value.travel == SumAlong(LegsOut(input, q), q[..k - 1])
  {
    WalkToEnd(input, start, q);
    if k > 1 {
      WalkToNext(input, start, q, k - 1);
      WalkTravelIsLegs(input, start, q, k - 1);
      assert q[..k - 1][..k - 2] == q[..k - 2];
      PositionInDistinct(q, k - 2);
    }
  }

  lemma CoverageMatches(input: Input, a: Assignment, q: seq<nat>)
    requires MipRoute.Ready(input) && RouteOf(input, a, q)
    ensures PhaseValue(input, Coverage, a) == SumAlong(OptionalWeights(input.problem), q)
    ensures PhaseValue(input, Priority, a) == SumAlong(PriorityWeights(input.problem), q)
  {
    var n := input.Count();
    assert input.problem.locations[..n] == input.problem.locations;
    OptionalSumIsMemberSum(input, a, q, OptionalWeights(input.problem), false, n);
    OptionalSumIsMemberSum(input, a, q, PriorityWeights(input.problem), true, n);
    MemberSumIsSumAlong(OptionalWeights(input.problem), q);
    MemberSumIsSumAlong(PriorityWeights(input.problem), q);
  }

  lemma StaysMatch(input: Input, a: Assignment, q: seq<nat>)
    requires MipRoute.Ready(input) && RouteOf(input, a, q)
    ensures StaySum(input.problem.locations, a) == SumAlong(Stays(input.problem), q)
  {
    assert input.problem.locations[..input.Count()] == input.problem.locations;
    StaySumIsMemberSum(input, a, q, input.Count());
    MemberSumIsSumAlong(Stays(input.problem), q);
  }

  lemma TravelMatches(input: Input, a: Assignment, q: seq<nat>, start: nat)
    requires MipRoute.Ready(input) && Model(input, a) && RouteOf(input, a, q)
    requires Walk(input, start, q).Some?
    ensures TotalTravel(input, a, input.Count()) == Walk(input, start, q).value.travel
  {
    TotalTravelIsMemberSum(input, a, q, input.Count());
    MemberSumIsSumAlong(LegsOut(input, q), q);
    WalkToEnd(input, start, q);
    WalkTravelIsLegs(input, start, q, |q|);
    PositionInDistinct(q, |q| - 1);
  }

  /** The values the phases report for a satisfying assignment are the metrics of
      its route from the selected start, except that the assigned finish may be
      late and the wait then grows by the same minutes. */
  lemma PhaseValuesAreMetrics(input: Input, a: Assignment, q: seq<nat>)
    requires MipRoute.Ready(input) && Model(input, a) && RouteOf(input, a, q)
    ensures Feasible(input, q, a.selected)
    ensures ReportsDelayed(input, a, Evaluate(input, a.selected, q).value)
  {
    AssignmentWalks(input, a, q);
    CoverageMatches(input, a, q);
    StaysMatch(input, a, q);
    TravelMatches(input, a, q, a.selected);
    Conservation(input, a.selected, q);
  }

  /** The phase values are the metrics, up to a common delay of finish and wait. */
  ghost predicate ReportsDelayed(input: Input, a: Assignment, m: Metrics)
    requires 2 <= input.Count()
  {
    && PhaseValue(input, Coverage, a) == m.optionalCount
    && PhaseValue(input, Priority, a) == m.optionalPriority
    && PhaseValue(input, LatestStart, a) == m.start
    && PhaseValue(input, Finish, a) >= m.finish
    && PhaseValue(input, Travel, a) == m.travel
    && PhaseValue(input, Wait, a) == m.wait + (PhaseValue(input, Finish, a) - m.finish)
    && m.score == Score(m.travel, m.wait)
  }

  /** In a phase, `a` is strictly better than `b`, or at least as good. */
  predicate Better(input: Input, phase: Phase, a: Assignment, b: Assignment)
    requires 2 <= input.Count()
  {
    if phase.Maximize() then PhaseValue(input, phase, a) > PhaseValue(input, phase, b)
    else PhaseValue(input, phase, a) < PhaseValue(input, phase, b)
  }

  /** `a` is no worse than `b` when the phases are compared in order. */
  predicate LexNoWorse(input: Input, phases: seq<Phase>, a: Assignment, b: Assignment)
    requires 2 <= input.Count()
  {
    |phases| == 0 ||
    Better(input, phases[0], a, b) ||
    (PhaseValue(input, phases[0], a) == PhaseValue(input, phases[0], b) && LexNoWorse(input, phases[1..], a, b))
  }

  ghost predicate SameValues(input: Input, phases: seq<Phase>, a: Assignment, b: Assignment)
    requires 2 <= input.Count()
  {
    forall i | 0 <= i < |phases| :: PhaseValue(input, phases[i], a) == PhaseValue(input, phases[i], b)
  }

  /** Nothing that satisfies the routing model is better on the phases. */
  ghost predicate LexOptimal(input: Input, phases: seq<Phase>, a: Assignment)
    requires 2 <= input.Count()
  {
    Model(input, a) && forall b | Model(input, b) :: LexNoWorse(input, phases, a, b)
  }

  /** Keeping the earlier values while optimizing one more phase stays lexicographic. */
  lemma {:induction false} OneMorePhase(input: Input, phases: seq<Phase>, phase: Phase, a: Assignment, a': Assignment, b: Assignment)
    requires 2 <= input.Count()
    requires SameValues(input, phases, a, a') && LexNoWorse(input, phases, a, b)
    requires SameValues(input, phases, a, b) ==> !Better(input, phase, b, a')
    ensures LexNoWorse(input, phases + [phase], a', b)
  {
    if |phases| == 0 {
      assert (phases + [phase])[1..] == [];
    } else {
      assert PhaseValue(input, phases[0], a) == PhaseValue(input, phases[0], a');
      if PhaseValue(input, phases[0], a) == PhaseValue(input, phases[0], b) {
        assert (phases + [phase])[1..] == phases[1..] + [phase];
        forall i | 0 <= i < |phases[1..]|
          ensures PhaseValue(input, phases[1..][i], a) == PhaseValue(input, phases[1..][i], a')
        {
          assert phases[1..][i] == phases[i + 1];
        }
        if SameValues(input, phases[1..], a, b) {
          forall i | 0 <= i < |phases| ensures PhaseValue(input, phases[i], a) == PhaseValue(input, phases[i], b) {
            if i > 0 { assert phases[1..][i - 1] == phases[i]; }
          }
        }
        OneMorePhase(input, phases[1..], phase, a, a', b);
      }
    }
  }

  /** The phases of a start policy. A fixed start leaves nothing to choose. */
  function Phases(policy: StartPolicy): seq<Phase> {
    match policy
    case Latest => [Coverage, Priority, LatestStart, Finish, Travel, Wait]
    case Fixed => [Coverage, Priority, Finish, Travel, Wait]
    case Earliest => [Coverage, Priority, Finish, Travel, Wait]
  }

  function Fix(fixed: FixedObjectives, phase: Phase, value: int): FixedObjectives {
    match phase
    case Coverage => fixed.(coverage := Some(value))
    case Priority => fixed.(priority := Some(value))
    case LatestStart => fixed.(start := Some(value))
    case Finish => fixed.(finish := Some(value))
    case Travel => fixed.(travel := Some(value))
    case Wait => fixed
  }

  lemma LexCons(input: Input, phase: Phase, rest: seq<Phase>, a: Assignment, b: Assignment)
    requires 2 <= input.Count()
    ensures LexNoWorse(input, [phase] + rest, a, b) <==>
      (Better(input, phase, a, b) ||
       (PhaseValue(input, phase, a) == PhaseValue(input, phase, b) && LexNoWorse(input, rest, a, b)))
  {
    assert ([phase] + rest)[1..] == rest;
  }

  /** The phase comparison, written out on the values. */
  lemma LexLatest(input: Input, a: Assignment, b: Assignment)
    requires 2 <= input.Count()
    ensures LexNoWorse(input, Phases(Latest), a, b) <==>
      var f := (phase: Phase) => PhaseValue(input, phase, a);
      var g := (phase: Phase) => PhaseValue(input, phase, b);
      f(Coverage) > g(Coverage) || (f(Coverage) == g(Coverage) &&
      (f(Priority) > g(Priority) || (f(Priority) == g(Priority) &&
      (f(LatestStart) > g(LatestStart) || (f(LatestStart) == g(LatestStart) &&
      (f(Finish) < g(Finish) || (f(Finish) == g(Finish) &&
      (f(Travel) < g(Travel) || (f(Travel) == g(Travel) && f(Wait) <= g(Wait))))))))))
  {
    LexCons(input, Coverage, [Priority, LatestStart, Finish, Travel, Wait], a, b);
    LexCons(input, Priority, [LatestStart, Finish, Travel, Wait], a, b);
    LexCons(input, LatestStart, [Finish, Travel, Wait], a, b);
    LexTail(input, a, b);
  }

  lemma LexFixed(input: Input, a: Assignment, b: Assignment)
    requires 2 <= input.Count()
    ensures LexNoWorse(input, Phases(Fixed), a, b) <==>
      var f := (phase: Phase) => PhaseValue(input, phase, a);
      var g := (phase: Phase) => PhaseValue(input, phase, b);
      f(Coverage) > g(Coverage) || (f(Coverage) == g(Coverage) &&
      (f(Priority) > g(Priority) || (f(Priority) == g(Priority) &&
      (f(Finish) < g(Finish) || (f(Finish) == g(Finish) &&
      (f(Travel) < g(Travel) || (f(Travel) == g(Travel) && f(Wait) <= g(Wait))))))))
  {
    LexCons(input, Coverage, [Priority, Finish, Travel, Wait], a, b);
    LexCons(input, Priority, [Finish, Travel, Wait], a, b);
    LexTail(input, a, b);
  }

  lemma LexTail(input: Input, a: Assignment, b: Assignment)
    requires 2 <= input.Count()
    ensures LexNoWorse(input, [Finish, Travel, Wait], a, b) <==>
      PhaseValue(input, Finish, a) < PhaseValue(input, Finish, b) ||
      (PhaseValue(input, Finish, a) == PhaseValue(input, Finish, b) &&
       (PhaseValue(input, Travel, a) < PhaseValue(input, Travel, b) ||
        (PhaseValue(input, Travel, a) == PhaseValue(input, Travel, b) &&
         PhaseValue(input, Wait, a) <= PhaseValue(input, Wait, b))))
  {
    LexCons(input, Finish, [Travel, Wait], a, b);
    LexCons(input, Travel, [Wait], a, b);
    LexCons(input, Wait, [], a, b);
  }

  /** The phase values of `a` are the metrics `m`. */
  ghost predicate Reports(input: Input, a: Assignment, m: Metrics)
    requires 2 <= input.Count()
  {
    && PhaseValue(input, Coverage, a) == m.optionalCount
    && PhaseValue(input, Priority, a) == m.optionalPriority
    && PhaseValue(input, LatestStart, a) == m.start
    && PhaseValue(input, Finish, a) == m.finish
    && PhaseValue(input, Travel, a) == m.travel
    && PhaseValue(input, Wait, a) == m.wait
    && m.score == Score(m.travel, m.wait)
  }

  /** On reported metrics the phase comparison is the objective comparison. */
  lemma LexIsCompare(input: Input, a: Assignment, b: Assignment, m: Metrics, m': Metrics)
    requires 2 <= input.Count() && Reports(input, a, m) && Reports(input, b, m')
    requires m.startPolicy == m'.startPolicy && (m.startPolicy != Latest ==> m.start == m'.start)
    ensures LexNoWorse(input, Phases(m.startPolicy), a, b) <==> NoWorse(m, m')
  {
    if m.startPolicy == Latest {
      LexLatest(input, a, b);
    } else {
      LexFixed(input, a, b);
    }
  }

  lemma DescribedReports(input: Input, start: nat, q: seq<nat>, b: Assignment)
    requires Described(input, start, q, b)
    ensures Model(input, b) && Reports(input, b, Evaluate(input, start, q).value)
  {
    DescriptionSatisfies(input, start, q, b);
    DescriptionCarriesRoute(input, start, q, b);
    PhaseValuesAreMetrics(input, b, q);
  }

  /** An optimal assignment cannot delay the finish of its own route. */
  lemma LexOptimalReports(input: Input, a: Assignment, q: seq<nat>)
    requires MipRoute.Ready(input) && LexOptimal(input, Phases(input.problem.startPolicy), a) && RouteOf(input, a, q)
    ensures Feasible(input, q, a.selected) && Reports(input, a, Evaluate(input, a.selected, q).value)
  {
    PhaseValuesAreMetrics(input, a, q);
    var own := Describe(input, a.selected, q);
    DescribedReports(input, a.selected, q, own);
    NotDelayed(input, a, own, Evaluate(input, a.selected, q).value);
  }

  /** Beside an assignment that reports the metrics exactly, an optimal one cannot
      report a later finish. */
  lemma NotDelayed(input: Input, a: Assignment, own: Assignment, m: Metrics)
    requires 2 <= input.Count() && ReportsDelayed(input, a, m) && Reports(input, own, m)
    requires LexNoWorse(input, Phases(m.startPolicy), a, own)
    ensures Reports(input, a, m)
  {
    if m.startPolicy == Latest {
      LexLatest(input, a, own);
    } else {
      LexFixed(input, a, own);
    }
  }

  /** A lexicographically optimal assignment carries an optimal route. */
  lemma LexOptimalIsOptimal(input: Input, a: Assignment, q: seq<nat>)
    requires MipRoute.Ready(input) && LexOptimal(input, Phases(input.problem.startPolicy), a) && RouteOf(input, a, q)
    ensures Optimal(input, q, a.selected)
  {
    LexOptimalReports(input, a, q);
    forall q', start': nat | Feasible(input, q', start')
      ensures NoWorse(Evaluate(input, a.selected, q).value, Evaluate(input, start', q').value)
    {
      var b := Describe(input, start', q');
      DescribedReports(input, start', q', b);
      LexIsCompare(input, a, b, Evaluate(input, a.selected, q).value, Evaluate(input, start', q').value);
    }
  }

  /** What the external solver reports for one phase. */
  datatype Outcome =
    | Proven(assignment: Assignment)
    | Incumbent(assignment: Assignment)
    | Infeasible
    | NoIncumbent(timedOut: bool)
    | Interrupted

  type Solver = (seq<Constraint>, seq<Term>, bool) -> Outcome

  /** The solver is trusted for its own statuses only: what it returns satisfies the
      model, what it calls optimal is, and what it calls infeasible has no solution. */
  ghost predicate Sound(input: Input, solver: Solver) {
    forall model, objective, maximize :: SoundOutcome(input, model, objective, maximize, solver(model, objective, maximize))
  }

  ghost predicate SoundOutcome(input: Input, model: seq<Constraint>, objective: seq<Term>, maximize: bool, outcome: Outcome) {
    match outcome
    case Proven(a) =>
      Bounded(input, a) && Satisfies(model, a) && forall b | Bounded(input, b) && Satisfies(model, b) ::
        if maximize then Dot(objective, b) <= Dot(objective, a) else Dot(objective, a) <= Dot(objective, b)
    case Incumbent(a) => Bounded(input, a) && Satisfies(model, a)
    case Infeasible => forall b | Bounded(input, b) :: !Satisfies(model, b)
    case NoIncumbent(_) => true
    case Interrupted => true
  }

  /** Every answer settles the question: an optimum, or that there is no solution. */
  ghost predicate Decisive(solver: Solver) {
    forall model, objective, maximize :: Settles(solver(model, objective, maximize))
  }

  predicate Settles(outcome: Outcome) { outcome.Proven? || outcome.Infeasible? }

  datatype PhaseResult = PhaseResult(route: seq<nat>, value: int, proven: bool)

  const BECAME_INFEASIBLE := "model became infeasible after fixing a prior objective phase"

  /** How a phase passes on the solver's answer: only an optimum counts as proven. */
  ghost predicate PassesOn(phase: Phase, outcome: Outcome, r: Result<PhaseResult, SolverError>, a: Assignment) {
    && (outcome.Proven? <==> r.Ok? && r.value.proven)
    && (outcome.Incumbent? <==> r.Ok? && !r.value.proven)
    && (r.Ok? ==> a == outcome.assignment)
    && (outcome.Infeasible? ==> r == Err(if phase == Coverage then ProvenInfeasible else Failed(BECAME_INFEASIBLE)))
    && (outcome.NoIncumbent? ==> r == Err(if outcome.timedOut then TimedOut else Failed(NO_INCUMBENT)))
  }

  const NO_INCUMBENT := "ended with no incumbent"

  /** The solver gave this answer in the phase's direction. */
  ghost predicate Answered(solver: Solver, phase: Phase, outcome: Outcome) {
    exists model, objective :: outcome == solver(model, objective, phase.Maximize())
  }

  /** One phase: build, solve, read the route and the value back. */
  method SolvePhase(input: Input, solver: Solver, phase: Phase, fixed: FixedObjectives, token: Token)
    returns (r: Result<PhaseResult, SolverError>, ghost a: Assignment, ghost outcome: Outcome)
    requires MipRoute.Ready(input) && Sound(input, solver)
    ensures Answered(solver, phase, outcome)
    ensures r == Err(Cancelled) ==> !Quiet(token) || outcome.Interrupted?
    ensures r != Err(Cancelled) ==> PassesOn(phase, outcome, r, a)
    ensures r.Ok? ==>
      && Model(input, a) && KeepsFixed(input, fixed, a) && RouteOf(input, a, r.value.route)
      && r.value.value == PhaseValue(input, phase, a)
      && (r.value.proven ==> forall b | Model(input, b) && KeepsFixed(input, fixed, b) :: !Better(input, phase, b, a))
    ensures r == Err(ProvenInfeasible) ==> phase == Coverage && forall b | Model(input, b) :: !KeepsFixed(input, fixed, b)
    ensures r == Err(Failed(BECAME_INFEASIBLE)) ==> phase != Coverage && forall b | Model(input, b) :: !KeepsFixed(input, fixed, b)
  {
    var model := BuildModel(input, fixed);
    var objective := ObjectiveTerms(input, phase);
    var answer := solver(model, objective, phase.Maximize());
    outcome := answer;
    assert SoundOutcome(input, model, objective, phase.Maximize(), outcome);
    a := Assignment([], [], 0, [], []);
    var cancelled := Poll(token);
    if cancelled || answer.Interrupted? {
      return Err(Cancelled), a, outcome;
    }
    if answer.Infeasible? {
      return Err(if phase == Coverage then ProvenInfeasible else Failed(BECAME_INFEASIBLE)), a, outcome;
    }
    if answer.NoIncumbent? {
      return Err(if answer.timedOut then TimedOut else Failed(NO_INCUMBENT)), a, outcome;
    }
    a := answer.assignment;
    var route := ExtractRoute(input, answer.assignment);
    forall b ensures PhaseValue(input, phase, b) - PhaseValue(input, phase, a) == Dot(objective, b) - Dot(objective, a) {
      ObjectiveIsPhaseValue(input, phase, a);
      ObjectiveIsPhaseValue(input, phase, b);
    }
    r := Ok(PhaseResult(route.value, PhaseValue(input, phase, answer.assignment), answer.Proven?));
  }

  function FieldOf(fixed: FixedObjectives, phase: Phase): Option<int> {
    match phase
    case Coverage => fixed.coverage
    case Priority => fixed.priority
    case LatestStart => fixed.start
    case Finish => fixed.finish
    case Travel => fixed.travel
    case Wait => None
  }

  lemma FixSays(input: Input, fixed: FixedObjectives, phase: Phase, value: int, b: Assignment)
    requires 2 <= input.Count() && phase != Wait && FieldOf(fixed, phase).None?
    ensures KeepsFixed(input, Fix(fixed, phase, value), b) <==>
      KeepsFixed(input, fixed, b) && PhaseValue(input, phase, b) == value
  {
  }

  /** What a run reports: its route, whether it is proven, and the phase and value the
      route was found with. */
  datatype Execution = Execution(route: seq<nat>, proven: bool, phase: Phase, value: int)

  /** Infeasibility is reported only when no route is feasible, and fixing a proved
      objective never makes a later phase infeasible. */
  ghost predicate HonestError(input: Input, error: SolverError) {
    error != Failed(BECAME_INFEASIBLE) &&
    (error == ProvenInfeasible ==> forall q, start: nat :: !Feasible(input, q, start))
  }

  /** One phase on top of `i` proved ones. A solver that settles its questions proves
      an optimum or infeasibility here. */
  method RunPhase(input: Input, solver: Solver, phases: seq<Phase>, i: nat, fixed: FixedObjectives, ghost a: Assignment, token: Token)
    returns (r: Result<PhaseResult, SolverError>, ghost a': Assignment)
    requires MipRoute.Ready(input) && Sound(input, solver)
    requires i < |phases| && phases == Phases(input.problem.startPolicy) && Progress(input, phases, i, fixed, a)
    ensures r.Err? ==> HonestError(input, r.error)
    ensures Decisive(solver) ==> SettledPhase(r, token)
    ensures r.Ok? ==> RouteOf(input, a', r.value.route) && Feasible(input, r.value.route, a'.selected)
    ensures r.Ok? ==> OptimalBefore(input, r.value.route, phases[i], r.value.value, a'.selected)
    ensures r.Ok? && r.value.proven ==> Progress(input, phases, i + 1, Fix(fixed, phases[i], r.value.value), a')
  {
    ghost var outcome;
    r, a', outcome := SolvePhase(input, solver, phases[i], fixed, token);
    assert Decisive(solver) ==> Settles(outcome);
    if r.Err? {
      PhaseFailure(input, phases, i, fixed, a, r.error);
    } else {
      AssignmentWalks(input, a', r.value.route);
      KeepingStaysOptimal(input, phases, i, fixed, a, a');
      assert FoundAt(input, i, a', r.value.route, phases[i], r.value.value);
      if r.value.proven { PhaseAdvances(input, phases, i, fixed, a, a', r.value.value); }
    }
  }

  /** A settled phase is proven, infeasible or cancelled. */
  ghost predicate SettledPhase(r: Result<PhaseResult, SolverError>, token: Token) {
    && (r.Ok? ==> r.value.proven)
    && (r.Err? ==> r.error == ProvenInfeasible || (r.error == Cancelled && !Quiet(token)))
  }

  /** A settled run is proven or infeasible, unless it was cancelled or time ran out. */
  ghost predicate SettledRun(r: Result<Execution, SolverError>, token: Token, clock: Token) {
    && (r.Ok? ==> r.value.proven || !Quiet(clock))
    && (r.Err? ==>
         r.error == ProvenInfeasible || (r.error == Cancelled && !Quiet(token)) || (r.error == TimedOut && !Quiet(clock)))
  }

  /** The result was read in the `i`th phase, `phase`, from an assignment that is
      optimal on all earlier phases. */
  ghost predicate FoundAt(input: Input, i: nat, a: Assignment, route: seq<nat>, phase: Phase, value: int)
    requires 2 <= input.Count()
  {
    var phases := Phases(input.problem.startPolicy);
    && i < |phases| && phase == phases[i]
    && RouteOf(input, a, route) && value == PhaseValue(input, phase, a) && LexOptimal(input, phases[..i], a)
  }

  /** The route was found in that phase, with that value and from that start, and no
      assignment is better on the phases before. */
  ghost predicate OptimalBefore(input: Input, route: seq<nat>, phase: Phase, value: int, selected: int)
    requires 2 <= input.Count()
  {
    exists i: nat, a: Assignment :: FoundAt(input, i, a, route, phase, value) && a.selected == selected
  }

  lemma KeepingStaysOptimal(input: Input, phases: seq<Phase>, i: nat, fixed: FixedObjectives, a: Assignment, a': Assignment)
    requires 2 <= input.Count() && i < |phases| && Progress(input, phases, i, fixed, a)
    requires Model(input, a') && KeepsFixed(input, fixed, a')
    ensures LexOptimal(input, phases[..i], a')
  {
    if i > 0 {
      forall b | Model(input, b) ensures LexNoWorse(input, phases[..i], a', b) {
        SameValuesNoWorse(input, phases[..i], a, a', b);
      }
    }
  }

  lemma {:induction false} SameValuesNoWorse(input: Input, phases: seq<Phase>, a: Assignment, a': Assignment, b: Assignment)
    requires 2 <= input.Count() && SameValues(input, phases, a, a') && LexNoWorse(input, phases, a, b)
    ensures LexNoWorse(input, phases, a', b)
  {
    if |phases| > 0 {
      assert PhaseValue(input, phases[0], a) == PhaseValue(input, phases[0], a');
      if PhaseValue(input, phases[0], a) == PhaseValue(input, phases[0], b) {
        forall i | 0 <= i < |phases[1..]| ensures PhaseValue(input, phases[1..][i], a) == PhaseValue(input, phases[1..][i], a') {
          assert phases[1..][i] == phases[i + 1];
        }
        SameValuesNoWorse(input, phases[1..], a, a', b);
      }
    }
  }

  /** After a proved phase there is its result, feasible from the selected start. */
  ghost predicate Holds(input: Input, i: nat, a: Assignment, final: Option<PhaseResult>, selected: nat) {
    && (final.Some? <==> i > 0)
    && (i > 0 ==>
         && 2 <= input.Count() && i <= |Phases(input.problem.startPolicy)| && selected == a.selected
         && RouteOf(input, a, final.value.route) && Feasible(input, final.value.route, selected)
         && OptimalBefore(input, final.value.route, Phases(input.problem.startPolicy)[i - 1], final.value.value, selected))
  }

  /** What a run may end with. A proven result is an optimal route; an unproven one is
      still feasible, and unbeaten on the phases before the one it was found in; errors
      are honest; and a solver that settles every question settles the run. */
  ghost predicate Ends(input: Input, solver: Solver, token: Token, clock: Token, r: Result<Execution, SolverError>, selected: nat)
    requires 2 <= input.Count()
  {
    && (r.Ok? ==> Feasible(input, r.value.route, selected))
    && (r.Ok? ==> OptimalBefore(input, r.value.route, r.value.phase, r.value.value, selected))
    && (r.Ok? && r.value.proven ==> Optimal(input, r.value.route, selected))
    && (r.Err? ==> HonestError(input, r.error))
    && (Decisive(solver) ==> SettledRun(r, token, clock))
  }

  /** One turn of the run: stop for a poll, an error or an unproven phase, or go on. */
  method Turn(input: Input, solver: Solver, i: nat, fixed: FixedObjectives, final: Option<PhaseResult>, token: Token, clock: Token,
              ghost a: Assignment, ghost selected: nat)
    returns (stopped: Option<Result<Execution, SolverError>>, fixed': FixedObjectives, result: Option<PhaseResult>,
             ghost a': Assignment, ghost selected': nat)
    requires MipRoute.Ready(input) && Sound(input, solver) && i < |Phases(input.problem.startPolicy)|
    requires Underway(input, i, fixed, a, final, selected)
    ensures stopped.Some? ==> Ends(input, solver, token, clock, stopped.value, selected')
    ensures stopped.None? ==> Underway(input, i + 1, fixed', a', result, selected')
  {
    var phases := Phases(input.problem.startPolicy);
    fixed', result, a', selected' := fixed, None, a, selected;
    var cancelled := Poll(token);
    if cancelled {
      stopped := Some(Err(Cancelled));
      return;
    }
    var expired := Poll(clock);
    if expired {
      stopped := Some(if final.Some? then Ok(Report(final.value, phases[i - 1], false)) else Err(TimedOut));
      return;
    }
    var found, assignment := RunPhase(input, solver, phases, i, fixed, a, token);
    if found.Err? {
      stopped := Some(Err(found.error));
      return;
    }
    a', selected', result := assignment, assignment.selected, Some(found.value);
    if !found.value.proven {
      stopped := Some(Ok(Report(found.value, phases[i], false)));
      return;
    }
    stopped, fixed' := None, Fix(fixed, phases[i], found.value.value);
  }

  /** `i` phases are proved, their values fixed, and the last one's result kept. */
  ghost predicate Underway(input: Input, i: nat, fixed: FixedObjectives, a: Assignment, final: Option<PhaseResult>, selected: nat)
    requires 2 <= input.Count()
  {
    i <= |Phases(input.problem.startPolicy)| &&
    Progress(input, Phases(input.problem.startPolicy), i, fixed, a) && Holds(input, i, a, final, selected)
  }

  /** The whole run. Without cancellation or expiry, a solver that settles every
      question is taken through all phases: the run proves an optimum or infeasibility. */
  method SolveLexicographic(input: Input, solver: Solver, token: Token, clock: Token)
    returns (r: Result<Execution, SolverError>, ghost selected: nat)
    requires MipRoute.Ready(input) && Sound(input, solver)
    ensures Ends(input, solver, token, clock, r, selected)
  {
    var phases := Phases(input.problem.startPolicy);
    var fixed := FixedObjectives(None, None, None, None, None);
    var final: Option<PhaseResult> := None;
    ghost var a := Assignment([], [], 0, [], []);
    selected := 0;
    for i := 0 to |phases|
      invariant Underway(input, i, fixed, a, final, selected)
    {
      var stopped;
      stopped, fixed, final, a, selected := Turn(input, solver, i, fixed, final, token, clock, a, selected);
      if stopped.Some? {
        return stopped.value, selected;
      }
    }
    LastTurn(input, solver, token, clock, fixed, a, final, selected);
    r := Ok(Report(final.value, phases[|phases| - 1], true));
  }

  lemma LastTurn(input: Input, solver: Solver, token: Token, clock: Token, fixed: FixedObjectives, a: Assignment,
                 final: Option<PhaseResult>, selected: nat)
    requires MipRoute.Ready(input) && |Phases(input.problem.startPolicy)| > 0
    requires Progress(input, Phases(input.problem.startPolicy), |Phases(input.problem.startPolicy)|, fixed, a)
    requires Holds(input, |Phases(input.problem.startPolicy)|, a, final, selected)
    ensures var phases := Phases(input.problem.startPolicy);
      Ends(input, solver, token, clock, Ok(Report(final.value, phases[|phases| - 1], true)), selected)
  {
    AllPhasesProved(input, fixed, a, final.value.route);
  }

  /** Without cancellation or expiry, a solver that settles every question proves an
      optimum, or that there is none. */
  lemma QuietRunIsProven(input: Input, solver: Solver, token: Token, clock: Token, r: Result<Execution, SolverError>, selected: nat)
    requires MipRoute.Ready(input) && Ends(input, solver, token, clock, r, selected)
    requires Quiet(token) && Quiet(clock) && Decisive(solver)
    ensures r.Ok? ==> r.value.proven && Optimal(input, r.value.route, selected)
    ensures r.Err? ==> r.error == ProvenInfeasible && forall q, start: nat :: !Feasible(input, q, start)
  {
  }

  function Report(result: PhaseResult, phase: Phase, proven: bool): Execution {
    Execution(result.route, proven, phase, result.value)
  }

  lemma AllPhasesProved(input: Input, fixed: FixedObjectives, a: Assignment, route: seq<nat>)
    requires MipRoute.Ready(input)
    requires Progress(input, Phases(input.problem.startPolicy), |Phases(input.problem.startPolicy)|, fixed, a)
    requires RouteOf(input, a, route)
    ensures Optimal(input, route, a.selected)
  {
    var phases := Phases(input.problem.startPolicy);
    assert phases[..|phases|] == phases;
    LexOptimalIsOptimal(input, a, route);
  }

  /** When nothing satisfies the model, no route is feasible. */
  lemma NothingFeasible(input: Input)
    requires MipRoute.Ready(input) && forall b :: !Model(input, b)
    ensures forall q, start: nat :: !Feasible(input, q, start)
  {
    forall q, start: nat ensures !Feasible(input, q, start) {
      if Feasible(input, q, start) {
        DescriptionSatisfies(input, start, q, Describe(input, start, q));
      }
    }
  }

  /** A phase can only prove infeasibility before anything is fixed. */
  lemma PhaseFailure(input: Input, phases: seq<Phase>, i: nat, fixed: FixedObjectives, a: Assignment, error: SolverError)
    requires MipRoute.Ready(input) && i < |phases| && Progress(input, phases, i, fixed, a)
    requires phases == Phases(input.problem.startPolicy)
    requires error == ProvenInfeasible || error == Failed(BECAME_INFEASIBLE) ==>
      forall b | Model(input, b) :: !KeepsFixed(input, fixed, b)
    requires error == Failed(BECAME_INFEASIBLE) ==> phases[i] != Coverage
    ensures error != Failed(BECAME_INFEASIBLE)
    ensures error == ProvenInfeasible ==> forall q, start: nat :: !Feasible(input, q, start)
  {
    if i > 0 { assert SameValues(input, phases[..i], a, a) && KeepsFixed(input, fixed, a); }
    if error == ProvenInfeasible {
      forall b ensures !Model(input, b) { assert KeepsFixed(input, fixed, b); }
      NothingFeasible(input);
    }
  }

  /** After `i` proved phases `a` is optimal on them, and the fixed values ask
      exactly for agreement with it. */
  ghost predicate Progress(input: Input, phases: seq<Phase>, i: nat, fixed: FixedObjectives, a: Assignment)
    requires 2 <= input.Count() && i <= |phases|
  {
    && (forall j | i <= j < |phases| :: FieldOf(fixed, phases[j]).None?)
    && (i == 0 ==> forall b :: KeepsFixed(input, fixed, b))
    && (i > 0 ==> LexOptimal(input, phases[..i], a))
    && (0 < i < |phases| ==> forall b :: KeepsFixed(input, fixed, b) <==> SameValues(input, phases[..i], a, b))
  }

  /** A proved phase extends the lexicographic optimum by one objective. */
  lemma PhaseAdvances(input: Input, phases: seq<Phase>, i: nat, fixed: FixedObjectives, a: Assignment, a': Assignment, value: int)
    requires 2 <= input.Count() && i < |phases| && phases == Phases(input.problem.startPolicy)
    requires Progress(input, phases, i, fixed, a)
    requires Model(input, a') && KeepsFixed(input, fixed, a') && value == PhaseValue(input, phases[i], a')
    requires forall b | Model(input, b) && KeepsFixed(input, fixed, b) :: !Better(input, phases[i], b, a')
    ensures Progress(input, phases, i + 1, Fix(fixed, phases[i], value), a')
  {
    PhaseStaysOptimal(input, phases, i, fixed, a, a');
    if i + 1 < |phases| {
      forall b ensures KeepsFixed(input, Fix(fixed, phases[i], value), b) <==> SameValues(input, phases[..i + 1], a', b) {
        PhaseFixes(input, phases, i, fixed, a, a', value, b);
      }
    }
  }

  lemma PhaseStaysOptimal(input: Input, phases: seq<Phase>, i: nat, fixed: FixedObjectives, a: Assignment, a': Assignment)
    requires 2 <= input.Count() && i < |phases| && phases == Phases(input.problem.startPolicy)
    requires Progress(input, phases, i, fixed, a)
    requires Model(input, a') && KeepsFixed(input, fixed, a')
    requires forall b | Model(input, b) && KeepsFixed(input, fixed, b) :: !Better(input, phases[i], b, a')
    ensures LexOptimal(input, phases[..i + 1], a')
  {
    var before := phases[..i];
    assert phases[..i + 1] == before + [phases[i]];
    forall b | Model(input, b) ensures LexNoWorse(input, phases[..i + 1], a', b) {
      OneMorePhase(input, before, phases[i], if i == 0 then a' else a, a', b);
    }
  }

  lemma PhaseFixes(input: Input, phases: seq<Phase>, i: nat, fixed: FixedObjectives, a: Assignment, a': Assignment,
                   value: int, b: Assignment)
    requires 2 <= input.Count() && i + 1 < |phases| && phases == Phases(input.problem.startPolicy)
    requires Progress(input, phases, i, fixed, a)
    requires KeepsFixed(input, fixed, a') && value == PhaseValue(input, phases[i], a')
    ensures KeepsFixed(input, Fix(fixed, phases[i], value), b) <==> SameValues(input, phases[..i + 1], a', b)
  {
    assert phases[..i + 1] == phases[..i] + [phases[i]];
    FixSays(input, fixed, phases[i], value, b);
    SameValuesStep(input, phases[..i], phases[i], a', b);
  }

  lemma SameValuesStep(input: Input, before: seq<Phase>, phase: Phase, a: Assignment, b: Assignment)
    requires 2 <= input.Count()
    ensures SameValues(input, before + [phase], a, b) <==>
      SameValues(input, before, a, b) && PhaseValue(input, phase, a) == PhaseValue(input, phase, b)
  {
    assert (before + [phase])[|before|] == phase;
    assert forall i | 0 <= i < |before| :: (before + [phase])[i] == before[i];
  }
}
