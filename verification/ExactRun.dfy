/** The exact solver's search loop, from the empty table to the best terminal
    state and its visit order. */
module ExactRun {
  import opened Domain
  import opened Masks
  import opened Sequences
  import opened Simulation
  import opened Objective
  import opened Routes
  import opened Transition
  import opened ExactSearch

  /** Extend one state by every location it may visit next. */
  method ExpandState(input: Input, policy: FrontierPolicy, start: nat, t: Table, ghost routes: seq<seq<nat>>,
                     mask: nat, last: nat, id: nat)
    returns (t': Table, ghost routes': seq<seq<nat>>)
    requires Conservative(policy) && WellFormed(input, start, t, routes) && Pareto(input, policy, t)
    requires mask < Pow2(input.Count()) && last < input.Count() && Filed(input, t, routes, mask, last, id)
    ensures WellFormed(input, start, t', routes') && routes <= routes' && Pareto(input, policy, t')
    ensures Advances(input, t, t', mask) && Expanded(input, t', mask, last, id, input.Count())
  {
    t', routes' := t, routes;
    if last == input.problem.End() {
      return;
    }
    var next := 1;
    while next < input.Count()
      invariant 1 <= next
      invariant WellFormed(input, start, t', routes') && routes <= routes' && Pareto(input, policy, t')
      invariant Advances(input, t, t', mask) && Expanded(input, t', mask, last, id, next)
    {
      if Extendable(input.problem, mask, last, next) {
        ghost var before := t';
        t', routes' := Relax(input, policy, start, t', routes', mask, last, id, next);
        AdvancesTransitive(input, t, before, t', mask, mask);
        ExpandedSurvives(input, before, t', mask, mask, last, id, next);
      }
      next := next + 1;
    }
  }

  /** Extend every state of one cell; the cell itself cannot change meanwhile. */
  method ExpandCell(input: Input, policy: FrontierPolicy, start: nat, t: Table, ghost routes: seq<seq<nat>>,
                    mask: nat, last: nat)
    returns (t': Table, ghost routes': seq<seq<nat>>)
    requires Conservative(policy) && WellFormed(input, start, t, routes) && Pareto(input, policy, t)
    requires mask < Pow2(input.Count()) && last < input.Count()
    ensures WellFormed(input, start, t', routes') && routes <= routes' && Pareto(input, policy, t')
    ensures Advances(input, t, t', mask) && Settled(input, t', mask, last)
  {
    t', routes' := t, routes;
    var ids := Cell(input, t, mask, last);
    for k := 0 to |ids|
      invariant WellFormed(input, start, t', routes') && routes <= routes' && Pareto(input, policy, t')
      invariant Advances(input, t, t', mask)
      invariant forall j | 0 <= j < k :: Expanded(input, t', mask, last, ids[j], input.Count())
    {
      ghost var before := t';
      assert ids[k] in Cell(input, t, mask, last);
      assert Filed(input, t, routes, mask, last, ids[k]);
      t', routes' := ExpandState(input, policy, start, t', routes', mask, last, ids[k]);
      AdvancesTransitive(input, t, before, t', mask, mask);
      forall j | 0 <= j < k ensures Expanded(input, t', mask, last, ids[j], input.Count()) {
        ExpandedSurvives(input, before, t', mask, mask, last, ids[j], input.Count());
      }
    }
  }

  /** All cells of masks below `bound`, and those of mask `bound` with a last
      location below `lasts`, are settled. */
  ghost predicate SettledBelow(input: Input, t: Table, bound: nat, lasts: nat)
    requires |t.frontiers| == Pow2(input.Count()) * input.Count()
  {
    forall mask: nat, last: nat |
      mask < Pow2(input.Count()) && last < input.Count() && (1 <= mask < bound || (mask == bound && last < lasts)) ::
      Settled(input, t, mask, last)
  }

  lemma SettledBelowSurvives(input: Input, a: Table, b: Table, working: nat, lasts: nat)
    requires Advances(input, a, b, working) && SettledBelow(input, a, working, lasts)
    ensures SettledBelow(input, b, working, lasts)
  {
    forall mask: nat, last: nat |
      mask < Pow2(input.Count()) && last < input.Count() && (1 <= mask < working || (mask == working && last < lasts))
      ensures Settled(input, b, mask, last)
    {
      SettledSurvives(input, a, b, working, mask, last);
    }
  }

  /** Settle the cells of one mask, for every last location in it. */
  method ExpandMask(input: Input, policy: FrontierPolicy, start: nat, t: Table, ghost routes: seq<seq<nat>>, mask: nat)
    returns (t': Table, ghost routes': seq<seq<nat>>)
    requires Conservative(policy) && WellFormed(input, start, t, routes) && Pareto(input, policy, t)
    requires 1 <= mask < Pow2(input.Count()) && SettledBelow(input, t, mask, 0)
    ensures WellFormed(input, start, t', routes') && routes <= routes' && Pareto(input, policy, t')
    ensures Advances(input, t, t', mask) && SettledBelow(input, t', mask + 1, 0)
  {
    t', routes' := t, routes;
    for last := 0 to input.Count()
      invariant WellFormed(input, start, t', routes') && routes <= routes' && Pareto(input, policy, t')
      invariant Advances(input, t, t', mask) && SettledBelow(input, t', mask, last)
    {
      ghost var before := t';
      if Bit(mask, last) {
        t', routes' := ExpandCell(input, policy, start, t', routes', mask, last);
        AdvancesTransitive(input, t, before, t', mask, mask);
        SettledBelowSurvives(input, before, t', mask, last);
      } else {
        OnlyVisitedLasts(input, start, t', routes', mask, last);
      }
    }
  }

  /** A cell whose last location is not in its mask is empty. */
  lemma OnlyVisitedLasts(input: Input, start: nat, t: Table, routes: seq<seq<nat>>, mask: nat, last: nat)
    requires WellFormed(input, start, t, routes)
    requires mask < Pow2(input.Count()) && last < input.Count() && !Bit(mask, last)
    ensures Cell(input, t, mask, last) == []
  {
    if Cell(input, t, mask, last) != [] {
      var id := Cell(input, t, mask, last)[0];
      assert Filed(input, t, routes, mask, last, id);
      assert Records(input, start, t.arena, routes, id);
      BitOfMaskOf(routes[id], last);
      assert false;
    }
  }

  /** In a settled cell, extending a covered clock gives a covered clock. */
  lemma CoverStep(input: Input, t: Table, mask: nat, last: nat, next: nat, clock: Clock)
    requires |t.frontiers| == Pow2(input.Count()) * input.Count()
    requires mask < Pow2(input.Count()) && last < input.Count() && Settled(input, t, mask, last)
    requires Covered(input, t, mask, last, clock.time, clock.travel)
    requires Extendable(input.problem, mask, last, next)
    requires Move(input, clock, last, next).Some?
    ensures SetBit(mask, next) < Pow2(input.Count())
    ensures var moved := Move(input, clock, last, next).value;
      Covered(input, t, SetBit(mask, next), next, moved.time, moved.travel)
  {
    SetBitGrows(mask, next, input.Count());
    var id :| id in Cell(input, t, mask, last) && id < |t.arena| &&
      t.arena[id].time <= clock.time && t.arena[id].travel <= clock.travel;
    assert Expanded(input, t, mask, last, id, input.Count());
    assert Extended(input, t, mask, last, id, next);
    MoveMonotone(input, t.arena[id].ToClock(), clock, last, next);
  }

  /** Every mask has been processed, and the start itself is in the table. */
  ghost predicate Finished(input: Input, start: nat, t: Table) {
    && input.problem.Valid()
    && |t.frontiers| == Pow2(input.Count()) * input.Count()
    && SettledBelow(input, t, Pow2(input.Count()), 0)
    && 1 < Pow2(input.Count())
    && (Depart(input.problem, start).Some? ==> Covered(input, t, 1, 0, Depart(input.problem, start).value.time, 0))
  }

  /** Once every mask is settled, every partial route that can be walked is
      covered in its own cell. */
  lemma {:induction false} EveryRouteIsCovered(input: Input, start: nat, t: Table, q: seq<nat>)
    requires Finished(input, start, t)
    requires PartialRoute(input, q) && Walk(input, start, q).Some?
    requires q[|q| - 1] == input.problem.End() ==> ValidOrder(input.problem, q)
    ensures MaskOf(q) < Pow2(input.Count())
    ensures Covered(input, t, MaskOf(q), q[|q| - 1], Walk(input, start, q).value.time, Walk(input, start, q).value.travel)
  {
    MaskOfBound(q, input.Count());
    if |q| == 1 {
      assert q == [0] && MaskOf(q) == 1;
    } else {
      var p, last, next := q[..|q| - 1], q[|q| - 2], q[|q| - 1];
      PartialRouteInit(input, q);
      EveryRouteIsCovered(input, start, t, p);
      MaskOfBound(p, input.Count());
      if next == input.problem.End() { MayEndIsValidOrder(input, q); }
      CoverStep(input, t, MaskOf(p), last, next, Walk(input, start, p).value);
    }
  }

  datatype ExactResult = ExactResult(order: seq<nat>, metrics: Metrics)

  /** `q` is a valid order that can be walked from `start`. */
  ghost predicate WalksFrom(input: Input, start: nat, q: seq<nat>) {
    ValidOrder(input.problem, q) && FromStart(input, q) && Walk(input, start, q).Some?
  }

  /** No valid order does better from `start` than `q` does. */
  ghost predicate BestFrom(input: Input, start: nat, q: seq<nat>) {
    WalksFrom(input, start, q) &&
    forall q' | WalksFrom(input, start, q') ::
      NoWorse(Evaluate(input, start, q).value, Evaluate(input, start, q').value)
  }

  /** The table before any expansion: the served start location alone. */
  function InitialTable(input: Input, initial: InitialService): Table
    requires input.Count() > 0
  {
    var n := input.Count();
    CellIndexBound(1, 0, n, Pow2(n));
    var empty := seq(Pow2(n) * n, _ => []);
    Table(
      empty[CellIndex(1, 0, n) := [0]],
      [ParetoState(initial.departure, 0, initial.wait, 0, 0, Score(0, initial.wait),
                   FrontierCost(0, initial.wait), None, 0)])
  }

  lemma InitialTableIsReady(input: Input, policy: FrontierPolicy, start: nat)
    requires Ready(input) && InitialServiceAt(input.problem, start).Some?
    ensures var t := InitialTable(input, InitialServiceAt(input.problem, start).value);
      && 1 < Pow2(input.Count())
      && WellFormed(input, start, t, [[0]]) && Pareto(input, policy, t)
      && Covered(input, t, 1, 0, Depart(input.problem, start).value.time, 0)
  {
    var n, t := input.Count(), InitialTable(input, InitialServiceAt(input.problem, start).value);
    InitialServiceIsDepart(input.problem, start);
    CellIndexBound(1, 0, n, Pow2(n));
    assert MaskOf([0]) == 1;
    assert SumAlong(OptionalWeights(input.problem), [0]) == 0;
    assert SumAlong(PriorityWeights(input.problem), [0]) == 0;
    assert Records(input, start, t.arena, [[0]], 0);
    assert 0 in Cell(input, t, 1, 0);
    forall mask: nat, last: nat, id | mask < Pow2(n) && last < n && id in Cell(input, t, mask, last)
      ensures Filed(input, t, [[0]], mask, last, id)
    {
      CellIndexBound(mask, last, n, Pow2(n));
      if CellIndex(mask, last, n) == CellIndex(1, 0, n) { CellIndexInjective(mask, last, 1, 0, n); }
    }
  }

  lemma FullMaskMayEnd(problem: Problem, mask: nat)
    requires problem.Valid() && problem.visitPolicy == AllRequired
    ensures MayEnd(problem, mask) <==> mask == FullMask(|problem.locations|)
  {
    var full, required := FullMask(|problem.locations|), RequiredMask(problem.locations);
    if And(full, required) != required {
      var i := AndLoses(full, required);
      BitOfRequiredMask(problem.locations, i);
      BitOfFull(|problem.locations|, i);
    }
  }

  /** State `id` stands at the destination with a mask that may end. */
  ghost predicate Terminal(input: Input, t: Table, id: nat)
    requires input.problem.Valid()
    requires |t.frontiers| == Pow2(input.Count()) * input.Count()
  {
    exists mask: nat ::
      mask < Pow2(input.Count()) && MayEnd(input.problem, mask) && id in Cell(input, t, mask, input.problem.End())
  }

  /** The states that close a complete route. */
  method CollectTerminals(input: Input, t: Table) returns (ids: seq<nat>)
    requires input.problem.Valid()
    requires |t.frontiers| == Pow2(input.Count()) * input.Count()
    ensures forall mask: nat, id | mask < Pow2(input.Count()) && MayEnd(input.problem, mask) &&
      Bit(mask, input.problem.End()) && id in Cell(input, t, mask, input.problem.End()) :: id in ids
    ensures forall id | id in ids :: Terminal(input, t, id)
  {
    var end, full := input.problem.End(), FullMask(input.Count());
    if input.problem.visitPolicy == AllRequired {
      FullMaskMayEnd(input.problem, full);
      forall mask: nat | MayEnd(input.problem, mask) ensures mask == full { FullMaskMayEnd(input.problem, mask); }
      return Cell(input, t, full, end);
    }
    ids := [];
    var mask := 1;
    BitOfZero(end);
    while mask <= full
      invariant 1 <= mask <= full + 1
      invariant forall m: nat, id | m < mask && MayEnd(input.problem, m) && Bit(m, end) &&
        id in Cell(input, t, m, end) :: id in ids
      invariant forall id | id in ids :: Terminal(input, t, id)
    {
      if Bit(mask, end) && And(mask, RequiredMask(input.problem.locations)) == RequiredMask(input.problem.locations) {
        ids := ids + Cell(input, t, mask, end);
      }
      mask := mask + 1;
    }
  }

  /** The first of the minimal states. */
  method PickBest(policy: StartPolicy, start: nat, arena: seq<ParetoState>, ids: seq<nat>) returns (best: Option<nat>)
    requires forall j | 0 <= j < |ids| :: ids[j] < |arena|
    ensures best.None? <==> ids == []
    ensures best.Some? ==> best.value < |arena|
    ensures best.Some? ==> best.value in ids && forall id | id in ids ::
      NoWorse(arena[best.value].ToMetrics(policy, start), arena[id].ToMetrics(policy, start))
    ensures best.Some? ==> exists k | 0 <= k < |ids| :: ids[k] == best.value && forall j | 0 <= j < k ::
      Compare(arena[best.value].ToMetrics(policy, start), arena[ids[j]].ToMetrics(policy, start)).Less?
  {
    if ids == [] {
      return None;
    }
    var k := 0;
    for j := 1 to |ids|
      invariant 0 <= k < j
      invariant forall i | 0 <= i < j ::
        NoWorse(arena[ids[k]].ToMetrics(policy, start), arena[ids[i]].ToMetrics(policy, start))
      invariant forall i | 0 <= i < k ::
        Compare(arena[ids[k]].ToMetrics(policy, start), arena[ids[i]].ToMetrics(policy, start)).Less?
    {
      var challenger, holder := arena[ids[j]].ToMetrics(policy, start), arena[ids[k]].ToMetrics(policy, start);
      if Compare(challenger, holder).Less? {
        forall i | 0 <= i < j
          ensures Compare(challenger, arena[ids[i]].ToMetrics(policy, start)).Less?
        {
          CompareIsTotalPreorder(challenger, holder, arena[ids[i]].ToMetrics(policy, start));
        }
        k := j;
      } else {
        CompareIsTotalPreorder(holder, challenger, challenger);
      }
    }
    best := Some(ids[k]);
  }

  lemma PredecessorLink(input: Input, start: nat, t: Table, routes: seq<seq<nat>>, id: nat)
    requires WellFormed(input, start, t, routes) && id < |t.arena|
    ensures match t.arena[id].predecessor
      case None => routes[id] == [t.arena[id].location]
      case Some(p) => p < id && routes[id] == routes[p] + [t.arena[id].location]
  {
    assert Records(input, start, t.arena, routes, id);
  }

  /** Follow the predecessors of a state back to the start. */
  method Backtrack(input: Input, start: nat, t: Table, ghost routes: seq<seq<nat>>, id: nat) returns (order: seq<nat>)
    requires WellFormed(input, start, t, routes) && id < |t.arena|
    ensures order == routes[id]
  {
    var visited: seq<nat> := [];
    var cursor: Option<nat> := Some(id);
    while cursor.Some?
      invariant cursor.Some? ==> cursor.value < |t.arena|
      invariant routes[id] == (if cursor.Some? then routes[cursor.value] else []) + Reversed(visited)
      decreases if cursor.Some? then cursor.value + 1 else 0
    {
      PredecessorLink(input, start, t, routes, cursor.value);
      var state := t.arena[cursor.value];
      assert Reversed(visited + [state.location]) == [state.location] + Reversed(visited);
      visited := visited + [state.location];
      cursor := state.predecessor;
    }
    order := Reversed(visited);
  }

  /** A terminal state is recorded with a valid order and its exact metrics. */
  lemma TerminalIsValidOrder(input: Input, start: nat, t: Table, routes: seq<seq<nat>>, mask: nat, id: nat)
    requires WellFormed(input, start, t, routes)
    requires mask < Pow2(input.Count()) && MayEnd(input.problem, mask)
    requires id in Cell(input, t, mask, input.problem.End())
    ensures id < |t.arena| && WalksFrom(input, start, routes[id])
    ensures Walk(input, start, routes[id]) == Some(t.arena[id].ToClock())
    ensures Evaluate(input, start, routes[id]) == Some(t.arena[id].ToMetrics(input.problem.startPolicy, start))
  {
    assert Filed(input, t, routes, mask, input.problem.End(), id);
    assert Records(input, start, t.arena, routes, id);
    MayEndIsValidOrder(input, routes[id]);
  }

  lemma SameMaskSameSum(w: seq<nat>, q: seq<nat>, q': seq<nat>)
    requires forall i | 0 <= i < |q| :: q[i] < |w|
    requires forall i | 0 <= i < |q'| :: q'[i] < |w|
    requires Distinct(q) && Distinct(q') && MaskOf(q) == MaskOf(q')
    ensures SumAlong(w, q) == SumAlong(w, q')
  {
    SumAlongIsMaskSum(w, q);
    SumAlongIsMaskSum(w, q');
  }

  lemma EarlierWithLessTravelIsNoWorse(left: Metrics, right: Metrics, base: nat)
    requires left.startPolicy == right.startPolicy && left.start == right.start
    requires left.optionalCount == right.optionalCount && left.optionalPriority == right.optionalPriority
    requires left.finish == base + left.travel + left.wait && left.score == Score(left.travel, left.wait)
    requires right.finish == base + right.travel + right.wait && right.score == Score(right.travel, right.wait)
    requires left.finish <= right.finish && left.travel <= right.travel
    ensures NoWorse(left, right)
  {
  }

  /** A covering terminal state is no worse than the route it covers: in one cell
      the visited locations, hence the optional counts and the stays, agree. */
  lemma CoveringIsNoWorse(input: Input, start: nat, r: seq<nat>, q: seq<nat>)
    requires WalksFrom(input, start, q) && WalksFrom(input, start, r)
    requires MaskOf(r) == MaskOf(q)
    requires Walk(input, start, r).value.time <= Walk(input, start, q).value.time
    requires Walk(input, start, r).value.travel <= Walk(input, start, q).value.travel
    ensures NoWorse(Evaluate(input, start, r).value, Evaluate(input, start, q).value)
  {
    SameMaskSameSum(Stays(input.problem), r, q);
    SameMaskSameSum(OptionalWeights(input.problem), r, q);
    SameMaskSameSum(PriorityWeights(input.problem), r, q);
    Conservation(input, start, r);
    Conservation(input, start, q);
    EarlierWithLessTravelIsNoWorse(Evaluate(input, start, r).value, Evaluate(input, start, q).value,
                                   start + SumAlong(Stays(input.problem), q));
  }

  /** Process every mask in increasing order. Unless cancelled, the table ends
      well formed, settled everywhere and with undominated cells. */
  method FillFrontiers(input: Input, policy: FrontierPolicy, start: nat, token: Token)
    returns (r: Result<Table, SolverError>, ghost routes: seq<seq<nat>>)
    requires Conservative(policy) && Ready(input) && InitialServiceAt(input.problem, start).Some?
    ensures r.Err? ==> r.error == Cancelled && !Quiet(token)
    ensures r.Ok? ==> Finished(input, start, r.value)
    ensures r.Ok? ==> WellFormed(input, start, r.value, routes) && Pareto(input, policy, r.value)
  {
    var initial := InitialServiceAt(input.problem, start).value;
    InitialTableIsReady(input, policy, start);
    var t := InitialTable(input, initial);
    ghost var first := t;
    routes := [[0]];
    var mask := 1;
    while mask <= FullMask(input.Count())
      invariant 1 <= mask <= Pow2(input.Count())
      invariant WellFormed(input, start, t, routes) && Pareto(input, policy, t)
      invariant Advances(input, first, t, 0) && SettledBelow(input, t, mask, 0)
    {
      var stop := Poll(token);
      if stop {
        r := Err(Cancelled);
        return;
      }
      ghost var before := t;
      t, routes := ExpandMask(input, policy, start, t, routes, mask);
      AdvancesTransitive(input, first, before, t, 0, mask);
      mask := mask + 1;
    }
    r := Ok(t);
  }

  /** The Pareto search from one start minute. It may be cancelled at any mask;
      otherwise it returns the best valid order from that minute with its exact
      metrics, and `None` exactly when no valid order can be walked from it. */
  method SearchAtStart(input: Input, policy: FrontierPolicy, start: nat, token: Token)
    returns (r: Result<Option<ExactResult>, SolverError>)
    requires Conservative(policy) && Ready(input)
    ensures r.Err? ==> r.error == Cancelled && !Quiet(token)
    ensures r.Ok? && r.value.None? ==> forall q :: !WalksFrom(input, start, q)
    ensures r.Ok? && r.value.Some? ==>
      && BestFrom(input, start, r.value.value.order)
      && Evaluate(input, start, r.value.value.order) == Some(r.value.value.metrics)
      && Accounts(input, r.value.value.order, r.value.value.metrics)
  {
    InitialServiceIsDepart(input.problem, start);
    var initial := InitialServiceAt(input.problem, start);
    if initial.None? {
      forall q ensures !WalksFrom(input, start, q) { NoDepartureNoWalk(input, start, q); }
      return Ok(None);
    }
    var filled, routes := FillFrontiers(input, policy, start, token);
    if filled.Err? {
      return Err(filled.error);
    }
    var t := filled.value;
    var ids := CollectTerminals(input, t);
    forall id | id in ids ensures id < |t.arena| && WalksFrom(input, start, routes[id]) &&
      Evaluate(input, start, routes[id]) == Some(t.arena[id].ToMetrics(input.problem.startPolicy, start))
    {
      assert Terminal(input, t, id);
      var m: nat :| m < Pow2(input.Count()) && MayEnd(input.problem, m) && id in Cell(input, t, m, input.problem.End());
      TerminalIsValidOrder(input, start, t, routes, m, id);
    }
    forall j | 0 <= j < |ids| ensures ids[j] < |t.arena| { assert ids[j] in ids; }
    var best := PickBest(input.problem.startPolicy, start, t.arena, ids);
    forall q | WalksFrom(input, start, q)
      ensures best.Some? && NoWorse(t.arena[best.value].ToMetrics(input.problem.startPolicy, start), Evaluate(input, start, q).value)
    {
      TerminalsBeatEveryOrder(input, start, t, routes, ids, best, q);
    }
    if best.None? {
      return Ok(None);
    }
    var order := Backtrack(input, start, t, routes, best.value);
    ScoreAccounts(input, start, order);
    r := Ok(Some(ExactResult(order, t.arena[best.value].ToMetrics(input.problem.startPolicy, start))));
  }

  lemma {:induction false} NoDepartureNoWalk(input: Input, start: nat, q: seq<nat>)
    requires input.Count() > 0 && Depart(input.problem, start).None?
    ensures !WalksFrom(input, start, q)
  {
    if WalksFrom(input, start, q) {
      WalkNeedsDeparture(input, start, q);
    }
  }

  lemma {:induction false} WalkNeedsDeparture(input: Input, start: nat, q: seq<nat>)
    requires FromStart(input, q) && Walk(input, start, q).Some?
    ensures Depart(input.problem, start).Some?
  {
    if |q| > 1 {
      WalkNeedsDeparture(input, start, q[..|q| - 1]);
    }
  }

  lemma TerminalsBeatEveryOrder(input: Input, start: nat, t: Table, routes: seq<seq<nat>>, ids: seq<nat>,
                                best: Option<nat>, q: seq<nat>)
    requires WellFormed(input, start, t, routes) && Finished(input, start, t)
    requires forall mask: nat, id | mask < Pow2(input.Count()) && MayEnd(input.problem, mask) &&
      Bit(mask, input.problem.End()) && id in Cell(input, t, mask, input.problem.End()) :: id in ids
    requires forall id | id in ids :: id < |t.arena|
    requires best.None? <==> ids == []
    requires best.Some? ==> best.value in ids && forall id | id in ids ::
      NoWorse(t.arena[best.value].ToMetrics(input.problem.startPolicy, start), t.arena[id].ToMetrics(input.problem.startPolicy, start))
    requires WalksFrom(input, start, q)
    ensures best.Some?
    ensures NoWorse(t.arena[best.value].ToMetrics(input.problem.startPolicy, start), Evaluate(input, start, q).value)
  {
    var end, policy := input.problem.End(), input.problem.startPolicy;
    EveryRouteIsCovered(input, start, t, q);
    MayEndIsValidOrder(input, q);
    BitOfMaskOf(q, end);
    var clock := Walk(input, start, q).value;
    var id :| id in Cell(input, t, MaskOf(q), end) && id < |t.arena| &&
      t.arena[id].time <= clock.time && t.arena[id].travel <= clock.travel;
    assert id in ids;
    assert Filed(input, t, routes, MaskOf(q), end, id);
    TerminalIsValidOrder(input, start, t, routes, MaskOf(q), id);
    CoveringIsNoWorse(input, start, routes[id], q);
    CompareIsTotalPreorder(t.arena[best.value].ToMetrics(policy, start), t.arena[id].ToMetrics(policy, start),
                           Evaluate(input, start, q).value);
  }
}
