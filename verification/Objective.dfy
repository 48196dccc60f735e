/** Metrics of a complete route, their lexicographic comparison and the packed
    cost the Pareto frontier compares. */
module Objective {
  import opened Domain
  import opened Masks
  import opened Sequences
  import opened Simulation

  datatype Ordering = Less | Equal | Greater {
    /** `self.then(other)`. */
    function Then(other: Ordering): Ordering { if Equal? then other else this }
  }

  function Cmp(a: int, b: int): Ordering {
    if a < b then Less else if a == b then Equal else Greater
  }

  datatype Metrics = Metrics(
    startPolicy: StartPolicy,
    optionalCount: nat,
    optionalPriority: nat,
    start: nat,
    finish: nat,
    travel: nat,
    wait: nat,
    score: nat)

  function Score(travel: nat, wait: nat): nat { travel + wait }

  /** Travel in the upper half, wait in the lower half. */
  function FrontierCost(travel: nat, wait: nat): nat { travel * U32_LIMIT + wait }

  /** `Less` means that `left` is preferred. */
  function Compare(left: Metrics, right: Metrics): Ordering {
    var startOrder := match left.startPolicy
      case Fixed => Equal
      case Earliest => Cmp(left.start, right.start)
      case Latest => Cmp(right.start, left.start);
    Cmp(right.optionalCount, left.optionalCount)
    .Then(Cmp(right.optionalPriority, left.optionalPriority))
    .Then(startOrder)
    .Then(Cmp(left.finish, right.finish))
    .Then(Cmp(left.travel, right.travel))
    .Then(Cmp(left.wait, right.wait))
    .Then(Cmp(left.score, right.score))
  }

  ghost predicate NoWorse(left: Metrics, right: Metrics) {
    !Compare(left, right).Greater?
  }

  /** More optional stops, then more priority, then the start the policy prefers, if it
      prefers any, then an earlier finish, less travel, less wait and a lower score. */
  predicate Preferred(left: Metrics, right: Metrics) {
    var sooner := left.startPolicy.Earliest? && left.start < right.start;
    var later := left.startPolicy.Latest? && left.start > right.start;
    var sameStart := left.startPolicy.Fixed? || left.start == right.start;
    || left.optionalCount > right.optionalCount
    || (left.optionalCount == right.optionalCount && left.optionalPriority > right.optionalPriority)
    || (left.optionalCount == right.optionalCount && left.optionalPriority == right.optionalPriority &&
        (sooner || later || (sameStart && Cheaper(left, right))))
  }

  predicate Cheaper(left: Metrics, right: Metrics) {
    || left.finish < right.finish
    || (left.finish == right.finish && left.travel < right.travel)
    || (left.finish == right.finish && left.travel == right.travel && left.wait < right.wait)
    || (left.finish == right.finish && left.travel == right.travel && left.wait == right.wait && left.score < right.score)
  }

  /** `Less` means exactly that. */
  lemma CompareSays(left: Metrics, right: Metrics)
    requires left.startPolicy == right.startPolicy
    ensures Compare(left, right).Less? <==> Preferred(left, right)
    ensures Compare(left, right).Greater? <==> Preferred(right, left)
  {
  }

  /** Among metrics of one start policy the comparison is a total preorder. */
  lemma CompareIsTotalPreorder(a: Metrics, b: Metrics, c: Metrics)
    requires a.startPolicy == b.startPolicy == c.startPolicy
    ensures NoWorse(a, b) || NoWorse(b, a)
    ensures NoWorse(a, b) && NoWorse(b, c) ==> NoWorse(a, c)
    ensures Compare(a, b).Less? <==> Compare(b, a).Greater?
    ensures Compare(a, b).Equal? <==> Compare(b, a).Equal?
    ensures Compare(a, b).Less? && NoWorse(b, c) ==> Compare(a, c).Less?
  {
  }

  datatype FrontierPoint = FrontierPoint(time: nat, cost: nat)

  /** `left` idles until `right` finishes; it dominates when its cost, with the
      idle minutes added as wait, is still no larger. The addition is checked. */
  predicate Dominates(left: FrontierPoint, right: FrontierPoint) {
    left.time <= right.time &&
    left.cost + (right.time - left.time) < U32_LIMIT * U32_LIMIT &&
    left.cost + (right.time - left.time) <= right.cost
  }

  /** Decides whether the first of two states of one cell makes the second superfluous. */
  type FrontierPolicy = (FrontierPoint, FrontierPoint) -> bool

  /** The policy drops no more than the built-in test does. */
  ghost predicate Conservative(policy: FrontierPolicy) {
    forall a, b | policy(a, b) :: Dominates(a, b)
  }

  /** The built-in policy. */
  function TimeCost(): FrontierPolicy { (left, right) => Dominates(left, right) }

  /** The policy of the validation tool's second solver, which keeps everything. */
  function NoPruning(): FrontierPolicy { (left, right) => false }

  function PointOf(clock: Clock): FrontierPoint {
    FrontierPoint(clock.time, FrontierCost(clock.travel, clock.wait))
  }

  /** Between two clocks that spent the same minutes on stays, the packed test
      never carries from wait into travel: it holds exactly when both the time
      and the travel are no larger. */
  lemma DominatesIff(left: Clock, right: Clock, base: nat)
    requires left.time == base + left.travel + left.wait < MINUTES_PER_DAY
    requires right.time == base + right.travel + right.wait < MINUTES_PER_DAY
    ensures Dominates(PointOf(left), PointOf(right)) <==>
            left.time <= right.time && left.travel <= right.travel
  {
  }

  function OptionalWeights(problem: Problem): (w: seq<nat>)
    ensures |w| == |problem.locations|
    ensures forall i | 0 <= i < |w| :: w[i] == if problem.locations[i].required then 0 else 1
  {
    seq(|problem.locations|, i requires 0 <= i < |problem.locations| =>
      if problem.locations[i].required then 0 else 1)
  }

  function PriorityWeights(problem: Problem): (w: seq<nat>)
    ensures |w| == |problem.locations|
    ensures forall i | 0 <= i < |w| ::
      w[i] == if problem.locations[i].required then 0 else problem.locations[i].priority
  {
    seq(|problem.locations|, i requires 0 <= i < |problem.locations| =>
      if problem.locations[i].required then 0 else problem.locations[i].priority)
  }

  /** The metrics of a route that starts at `start` and whose walk ends in `clock`. */
  function MetricsOf(input: Input, start: nat, q: seq<nat>, clock: Clock): Metrics
    requires FromStart(input, q)
  {
    Metrics(
      input.problem.startPolicy,
      SumAlong(OptionalWeights(input.problem), q),
      SumAlong(PriorityWeights(input.problem), q),
      start, clock.time, clock.travel, clock.wait,
      Score(clock.travel, clock.wait))
  }

  /** A complete visit order: fixed endpoints, no repetition, every required
      location, and every location at all when all are required. */
  ghost predicate ValidOrder(problem: Problem, q: seq<nat>) {
    && |q| > 0 && q[0] == 0 && q[|q| - 1] == problem.End()
    && (forall i | 0 <= i < |q| :: q[i] < |problem.locations|)
    && Distinct(q)
    && (forall x: nat | x < |problem.locations| && problem.locations[x].required :: x in q)
    && (problem.visitPolicy == AllRequired ==> |q| == |problem.locations|)
  }

  /** The specification of evaluating a route from a start minute. */
  function Evaluate(input: Input, start: nat, q: seq<nat>): Option<Metrics>
    requires FromStart(input, q)
  {
    var clock :- Walk(input, start, q);
    Some(MetricsOf(input, start, q, clock))
  }

  /** The score is every minute between start and finish that is not spent staying. */
  ghost predicate Accounts(input: Input, q: seq<nat>, m: Metrics) {
    FromStart(input, q) && m.finish == m.start + SumAlong(Stays(input.problem), q) + m.score
  }

  lemma ScoreAccounts(input: Input, start: nat, q: seq<nat>)
    requires FromStart(input, q) && Evaluate(input, start, q).Some?
    ensures Accounts(input, q, Evaluate(input, start, q).value)
  {
    Conservation(input, start, q);
  }

  /** The start minutes the policy lets a solver choose from. */
  ghost predicate AllowedStart(problem: Problem, start: nat) {
    match problem.startPolicy
    case Fixed => start == problem.startTime
    case Earliest => start == problem.startTime
    case Latest => problem.startTime <= start < MINUTES_PER_DAY
  }

  ghost predicate Feasible(input: Input, q: seq<nat>, start: nat) {
    ValidOrder(input.problem, q) && FromStart(input, q) && AllowedStart(input.problem, start)
    && Walk(input, start, q).Some?
  }

  /** The route and start minute that no other valid order and allowed start beats. */
  ghost predicate Optimal(input: Input, q: seq<nat>, start: nat) {
    Feasible(input, q, start) &&
    forall q', start' | Feasible(input, q', start') ::
      NoWorse(Evaluate(input, start, q).value, Evaluate(input, start', q').value)
  }
}
