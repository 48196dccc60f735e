/** The exact solver's Pareto search from one start minute: a table over
    (visited mask, last location) whose cells hold undominated states. */
module ExactSearch {
  import opened Domain
  import opened Masks
  import opened Simulation
  import opened Objective
  import opened Routes

  datatype ParetoState = ParetoState(
    time: nat,
    travel: nat,
    wait: nat,
    optionalCount: nat,
    optionalPriority: nat,
    score: nat,
    cost: nat,
    predecessor: Option<nat>,
    location: nat)
  {
    function Point(): FrontierPoint { FrontierPoint(time, cost) }

    function ToClock(): Clock { Clock(time, travel, wait) }

    function ToMetrics(policy: StartPolicy, start: nat): Metrics {
      Metrics(policy, optionalCount, optionalPriority, start, time, travel, wait, score)
    }
  }

  /** Extend a state by one location, with every sum checked. */
  function Transit(input: Input, state: ParetoState, predecessor: nat, next: nat): Option<ParetoState>
    requires next < input.Count()
  {
    var minutes :- input.matrix.Travel(state.location, next);
    var arrival :- CheckedAdd(state.time, minutes);
    var location := input.problem.locations[next];
    var begin := Max(arrival, location.window.open);
    var finish :- CheckedAdd(begin, location.stay);
    if finish > location.window.close || finish >= MINUTES_PER_DAY then None
    else
      var travel :- CheckedAdd(state.travel, minutes);
      var wait :- CheckedAdd(state.wait, begin - arrival);
      var priority :- CheckedAdd(state.optionalPriority, if location.required then 0 else location.priority);
      Some(ParetoState(
        finish, travel, wait,
        state.optionalCount + (if location.required then 0 else 1),
        priority,
        Score(travel, wait), FrontierCost(travel, wait),
        Some(predecessor), next))
  }

  /** `frontiers` is row-major over masks and last locations; its cells hold
      positions in `arena`, which only grows. */
  datatype Table = Table(frontiers: seq<seq<nat>>, arena: seq<ParetoState>)

  /** Priorities of all locations together fit 32 bits (15 locations of at most 100 do). */
  predicate Sized(input: Input) {
    100 * input.Count() < U32_LIMIT
  }

  ghost predicate Ready(input: Input) {
    input.Valid() && input.Matched() && Sized(input)
  }

  function Cell(input: Input, t: Table, mask: nat, last: nat): seq<nat>
    requires |t.frontiers| == Pow2(input.Count()) * input.Count()
    requires mask < Pow2(input.Count()) && last < input.Count()
  {
    CellIndexBound(mask, last, input.Count(), Pow2(input.Count()));
    t.frontiers[CellIndex(mask, last, input.Count())]
  }

  /** State `k` records exactly the walk of the route `routes[k]`, and its
      predecessor records that route without its last stop. */
  ghost predicate Records(input: Input, start: nat, arena: seq<ParetoState>, routes: seq<seq<nat>>, k: nat)
    requires k < |arena| == |routes|
  {
    var q, state := routes[k], arena[k];
    && PartialRoute(input, q) && q[|q| - 1] == state.location
    && Walk(input, start, q) == Some(state.ToClock())
    && state.ToMetrics(input.problem.startPolicy, start) == MetricsOf(input, start, q, state.ToClock())
    && state.cost == FrontierCost(state.travel, state.wait)
    && match state.predecessor
       case None => q == [state.location]
       case Some(p) => p < k && q == routes[p] + [state.location]
  }

  ghost predicate Filed(input: Input, t: Table, routes: seq<seq<nat>>, mask: nat, last: nat, id: nat) {
    id < |t.arena| == |routes| && MaskOf(routes[id]) == mask && t.arena[id].location == last
  }

  ghost predicate WellFormed(input: Input, start: nat, t: Table, routes: seq<seq<nat>>) {
    && Ready(input)
    && |t.frontiers| == Pow2(input.Count()) * input.Count()
    && |t.arena| == |routes|
    && (forall k | 0 <= k < |t.arena| :: Records(input, start, t.arena, routes, k))
    && (forall mask: nat, last: nat, id | mask < Pow2(input.Count()) && last < input.Count() &&
          id in Cell(input, t, mask, last) :: Filed(input, t, routes, mask, last, id))
  }

  /** Some state of the cell is no later and has travelled no more. */
  ghost predicate Covered(input: Input, t: Table, mask: nat, last: nat, time: nat, travel: nat)
    requires |t.frontiers| == Pow2(input.Count()) * input.Count()
    requires mask < Pow2(input.Count()) && last < input.Count()
  {
    exists id :: id in Cell(input, t, mask, last) && id < |t.arena| &&
      t.arena[id].time <= time && t.arena[id].travel <= travel
  }

  /** A step of the search that works on `mask`: the arena grows, cells up to
      `mask` stay as they are, and whatever was covered stays covered. */
  ghost predicate Advances(input: Input, t: Table, t': Table, mask: nat) {
    && |t.frontiers| == |t'.frontiers| == Pow2(input.Count()) * input.Count()
    && t.arena <= t'.arena
    && (forall m: nat, l: nat | m <= mask && m < Pow2(input.Count()) && l < input.Count() ::
          Cell(input, t', m, l) == Cell(input, t, m, l))
    && (forall m: nat, l: nat, time, travel | m < Pow2(input.Count()) && l < input.Count() &&
          Covered(input, t, m, l, time, travel) :: Covered(input, t', m, l, time, travel))
  }

  /** The search may extend a state of (mask, last) by `next`. */
  predicate Extendable(problem: Problem, mask: nat, last: nat, next: nat) {
    && last != problem.End()
    && 1 <= next < |problem.locations|
    && !Bit(mask, next)
    && (next == problem.End() ==> MayEnd(problem, SetBit(mask, next)))
  }

  /** The extension of state `id` by `next`, if possible, is covered in its own cell. */
  ghost predicate Extended(input: Input, t: Table, mask: nat, last: nat, id: nat, next: nat)
    requires |t.frontiers| == Pow2(input.Count()) * input.Count()
    requires mask < Pow2(input.Count()) && id < |t.arena| && next < input.Count() && !Bit(mask, next)
  {
    SetBitGrows(mask, next, input.Count());
    var moved := Move(input, t.arena[id].ToClock(), last, next);
    moved.Some? ==> Covered(input, t, SetBit(mask, next), next, moved.value.time, moved.value.travel)
  }

  /** All extensions of state `id` by locations below `bound` are covered. */
  ghost predicate Expanded(input: Input, t: Table, mask: nat, last: nat, id: nat, bound: nat)
    requires |t.frontiers| == Pow2(input.Count()) * input.Count()
    requires mask < Pow2(input.Count())
  {
    id < |t.arena| &&
    forall next: nat | next < bound && Extendable(input.problem, mask, last, next) ::
      Extended(input, t, mask, last, id, next)
  }

  /** Every state of the cell has been extended in every way. */
  ghost predicate Settled(input: Input, t: Table, mask: nat, last: nat)
    requires |t.frontiers| == Pow2(input.Count()) * input.Count()
    requires mask < Pow2(input.Count()) && last < input.Count()
  {
    forall id | id in Cell(input, t, mask, last) :: Expanded(input, t, mask, last, id, input.Count())
  }

  lemma AdvancesTransitive(input: Input, a: Table, b: Table, c: Table, mask: nat, mask': nat)
    requires Advances(input, a, b, mask) && Advances(input, b, c, mask') && mask <= mask'
    ensures Advances(input, a, c, mask)
  {
  }

  lemma ExpandedSurvives(input: Input, a: Table, b: Table, working: nat, mask: nat, last: nat, id: nat, bound: nat)
    requires Advances(input, a, b, working)
    requires mask < Pow2(input.Count()) && Expanded(input, a, mask, last, id, bound)
    ensures Expanded(input, b, mask, last, id, bound)
  {
    forall next: nat | next < bound && Extendable(input.problem, mask, last, next)
      ensures Extended(input, b, mask, last, id, next)
    {
      SetBitGrows(mask, next, input.Count());
      assert Extended(input, a, mask, last, id, next);
    }
  }

  lemma SettledSurvives(input: Input, a: Table, b: Table, working: nat, mask: nat, last: nat)
    requires Advances(input, a, b, working) && mask <= working
    requires mask < Pow2(input.Count()) && last < input.Count() && Settled(input, a, mask, last)
    ensures Settled(input, b, mask, last)
  {
    forall id | id in Cell(input, b, mask, last)
      ensures Expanded(input, b, mask, last, id, input.Count())
    {
      ExpandedSurvives(input, a, b, working, mask, last, id, input.Count());
    }
  }

  /** Within a cell, all clocks have spent the same minutes on stays. */
  lemma CellConservation(input: Input, start: nat, t: Table, routes: seq<seq<nat>>, id: nat)
    requires WellFormed(input, start, t, routes) && id < |t.arena|
    ensures var state := t.arena[id];
      state.time == start + MaskSum(Stays(input.problem), MaskOf(routes[id])) + state.travel + state.wait
        < MINUTES_PER_DAY
  {
    var q := routes[id];
    assert Records(input, start, t.arena, routes, id);
    Conservation(input, start, q);
    SumAlongIsMaskSum(Stays(input.problem), q);
  }

  lemma {:induction false} MaskSumBound(w: seq<nat>, mask: nat, bound: nat)
    requires forall i | 0 <= i < |w| :: w[i] <= bound
    ensures MaskSum(w, mask) <= bound * |w|
  {
    if |w| > 0 {
      MaskSumBound(w[1..], mask / 2, bound);
    }
  }

  /** The checked transition of a recorded state is the walk's move, metrics included. */
  lemma TransitIsMove(input: Input, start: nat, t: Table, routes: seq<seq<nat>>, id: nat, next: nat)
    requires WellFormed(input, start, t, routes) && id < |t.arena|
    requires 1 <= next < input.Count() && !Bit(MaskOf(routes[id]), next)
    requires t.arena[id].location != input.problem.End()
    ensures var candidate := Transit(input, t.arena[id], id, next);
      && (candidate.Some? <==> Move(input, t.arena[id].ToClock(), t.arena[id].location, next).Some?)
      && (candidate.Some? ==>
            && candidate.value.ToClock() == Move(input, t.arena[id].ToClock(), t.arena[id].location, next).value
            && Records(input, start, t.arena + [candidate.value], routes + [routes[id] + [next]], |t.arena|))
  {
    var q := routes[id];
    assert Records(input, start, t.arena, routes, id);
    PartialRouteExtend(input, q, next);
    CellConservation(input, start, t, routes, id);
    var priorities := PriorityWeights(input.problem);
    SumAlongIsMaskSum(priorities, q);
    MaskSumBound(priorities, MaskOf(q), 100);
    SumAlongIsMaskSum(priorities, q + [next]);
    MaskSumBound(priorities, MaskOf(q + [next]), 100);
  }

  /** The states of a cell that the new point does not dominate. */
  function Retain(policy: FrontierPolicy, cell: seq<nat>, arena: seq<ParetoState>, point: FrontierPoint): (kept: seq<nat>)
    requires forall id | id in cell :: id < |arena|
    ensures forall id :: id in kept <==> id in cell && !policy(point, arena[id].Point())
  {
    if |cell| == 0 then []
    else
      assert cell[0] in cell && forall id | id in cell[1..] :: id in cell;
      (if policy(point, arena[cell[0]].Point()) then [] else [cell[0]]) + Retain(policy, cell[1..], arena, point)
  }

  /** No state of a cell dominates another of the same cell. */
  ghost predicate Pareto(input: Input, policy: FrontierPolicy, t: Table)
    requires |t.frontiers| == Pow2(input.Count()) * input.Count()
  {
    forall mask: nat, last: nat | mask < Pow2(input.Count()) && last < input.Count() ::
      Undominated(policy, Cell(input, t, mask, last), t.arena)
  }

  ghost predicate Undominated(policy: FrontierPolicy, cell: seq<nat>, arena: seq<ParetoState>) {
    forall a, b | a in cell && b in cell && a != b && a < |arena| && b < |arena| ::
      !policy(arena[a].Point(), arena[b].Point())
  }

  /** `t'` is `t` with a new state filed in the cell (mask', next) behind the states kept
      there; the candidate dominates every state that was dropped. */
  ghost predicate Files(input: Input, t: Table, t': Table, mask': nat, next: nat, candidate: ParetoState, kept: seq<nat>)
    requires |t.frontiers| == Pow2(input.Count()) * input.Count()
    requires mask' < Pow2(input.Count()) && next < input.Count()
  {
    CellIndexBound(mask', next, input.Count(), Pow2(input.Count()));
    var cell := Cell(input, t, mask', next);
    && (forall id | id in cell :: id < |t.arena|)
    && t'.arena == t.arena + [candidate]
    && (forall id | id in kept :: id in cell)
    && (forall id | id in cell && id !in kept :: Dominates(candidate.Point(), t.arena[id].Point()))
    && t'.frontiers == t.frontiers[CellIndex(mask', next, input.Count()) := kept + [|t.arena|]]
  }

  lemma FilingFrame(input: Input, t: Table, t': Table, mask': nat, next: nat, candidate: ParetoState, kept: seq<nat>)
    requires |t.frontiers| == Pow2(input.Count()) * input.Count()
    requires mask' < Pow2(input.Count()) && next < input.Count()
    requires Files(input, t, t', mask', next, candidate, kept)
    ensures |t'.frontiers| == |t.frontiers|
    ensures Cell(input, t', mask', next) == kept + [|t.arena|]
    ensures forall m: nat, l: nat | m < Pow2(input.Count()) && l < input.Count() && (m != mask' || l != next) ::
      Cell(input, t', m, l) == Cell(input, t, m, l)
  {
    var n := input.Count();
    CellIndexBound(mask', next, n, Pow2(n));
    forall m: nat, l: nat | m < Pow2(n) && l < n && (m != mask' || l != next)
      ensures Cell(input, t', m, l) == Cell(input, t, m, l)
    {
      CellIndexBound(m, l, n, Pow2(n));
      if CellIndex(m, l, n) == CellIndex(mask', next, n) { CellIndexInjective(m, l, mask', next, n); }
    }
  }

  lemma FilingWellFormed(input: Input, start: nat, t: Table, routes: seq<seq<nat>>, t': Table,
                         mask': nat, next: nat, candidate: ParetoState, kept: seq<nat>, q: seq<nat>)
    requires WellFormed(input, start, t, routes)
    requires mask' < Pow2(input.Count()) && next < input.Count()
    requires Files(input, t, t', mask', next, candidate, kept)
    requires Records(input, start, t'.arena, routes + [q], |t.arena|)
    requires MaskOf(q) == mask' && candidate.location == next
    ensures WellFormed(input, start, t', routes + [q])
  {
    var n, routes' := input.Count(), routes + [q];
    FilingFrame(input, t, t', mask', next, candidate, kept);
    forall k | 0 <= k < |t'.arena| ensures Records(input, start, t'.arena, routes', k) {
      if k < |t.arena| { assert Records(input, start, t.arena, routes, k); }
    }
    forall m: nat, l: nat, id | m < Pow2(n) && l < n && id in Cell(input, t', m, l)
      ensures Filed(input, t', routes', m, l, id)
    {
      if id != |t.arena| || m != mask' || l != next {
        assert id in Cell(input, t, m, l);
        assert Filed(input, t, routes, m, l, id);
      }
    }
  }

  /** Filing a candidate over the states it dominates keeps every covered point covered. */
  lemma FilingCovers(input: Input, start: nat, t: Table, routes: seq<seq<nat>>, t': Table,
                     mask': nat, next: nat, candidate: ParetoState, kept: seq<nat>, q: seq<nat>)
    requires WellFormed(input, start, t, routes)
    requires mask' < Pow2(input.Count()) && next < input.Count()
    requires Files(input, t, t', mask', next, candidate, kept) && |t'.frontiers| == |t.frontiers|
    requires Records(input, start, t'.arena, routes + [q], |t.arena|)
    requires MaskOf(q) == mask' && candidate.location == next
    ensures Covered(input, t', mask', next, candidate.time, candidate.travel)
    ensures forall m: nat, l: nat, time, travel | m < Pow2(input.Count()) && l < input.Count() &&
      Covered(input, t, m, l, time, travel) :: Covered(input, t', m, l, time, travel)
  {
    var n := input.Count();
    FilingFrame(input, t, t', mask', next, candidate, kept);
    assert |t.arena| in Cell(input, t', mask', next) && t'.arena[|t.arena|] == candidate;
    forall m: nat, l: nat, time, travel | m < Pow2(n) && l < n && Covered(input, t, m, l, time, travel)
      ensures Covered(input, t', m, l, time, travel)
    {
      var id :| id in Cell(input, t, m, l) && id < |t.arena| &&
        t.arena[id].time <= time && t.arena[id].travel <= travel;
      assert Filed(input, t, routes, m, l, id);
      if id in Cell(input, t', m, l) {
        assert t'.arena[id] == t.arena[id];
      } else {
        DroppedIsCovered(input, start, t, routes, t', q, id);
        assert t'.arena[|t.arena|].time <= time && t'.arena[|t.arena|].travel <= travel;
      }
    }
  }

  /** A dropped state is no earlier and has travelled no less than the candidate. */
  lemma DroppedIsCovered(input: Input, start: nat, t: Table, routes: seq<seq<nat>>, t': Table, q: seq<nat>, id: nat)
    requires WellFormed(input, start, t, routes) && id < |t.arena|
    requires |t'.arena| == |t.arena| + 1 && t'.arena[..|t.arena|] == t.arena
    requires Records(input, start, t'.arena, routes + [q], |t.arena|) && MaskOf(q) == MaskOf(routes[id])
    requires Dominates(t'.arena[|t.arena|].Point(), t.arena[id].Point())
    ensures t'.arena[|t.arena|].time <= t.arena[id].time && t'.arena[|t.arena|].travel <= t.arena[id].travel
  {
    CandidateDominates(input, start, t, routes, t', q, id);
  }

  /** Filing a candidate that no state dominates leaves every cell undominated. */
  lemma FilingStaysPareto(input: Input, policy: FrontierPolicy, start: nat, t: Table, routes: seq<seq<nat>>, t': Table,
                          mask': nat, next: nat, candidate: ParetoState, kept: seq<nat>)
    requires WellFormed(input, start, t, routes) && Pareto(input, policy, t)
    requires mask' < Pow2(input.Count()) && next < input.Count()
    requires Files(input, t, t', mask', next, candidate, kept) && |t'.frontiers| == |t.frontiers|
    requires forall e | e in Cell(input, t, mask', next) && e < |t.arena| :: !policy(t.arena[e].Point(), candidate.Point())
    requires forall id | id in kept && id < |t.arena| :: !policy(candidate.Point(), t.arena[id].Point())
    ensures Pareto(input, policy, t')
  {
    FilingFrame(input, t, t', mask', next, candidate, kept);
    forall mask: nat, last: nat | mask < Pow2(input.Count()) && last < input.Count()
      ensures Undominated(policy, Cell(input, t', mask, last), t'.arena)
    {
      var cell := Cell(input, t, mask, last);
      assert Undominated(policy, cell, t.arena);
      forall id | id in cell ensures id < |t.arena| { assert Filed(input, t, routes, mask, last, id); }
    }
  }

  /** Inside one cell the packed dominance test means no later and no more travel. */
  lemma CandidateDominates(input: Input, start: nat, t: Table, routes: seq<seq<nat>>, t': Table, q: seq<nat>, id: nat)
    requires WellFormed(input, start, t, routes) && id < |t.arena|
    requires |t'.arena| == |t.arena| + 1 && t'.arena[..|t.arena|] == t.arena
    requires Records(input, start, t'.arena, routes + [q], |t.arena|)
    requires MaskOf(q) == MaskOf(routes[id])
    ensures var old', new' := t.arena[id], t'.arena[|t.arena|];
      && (Dominates(new'.Point(), old'.Point()) <==> new'.time <= old'.time && new'.travel <= old'.travel)
      && (Dominates(old'.Point(), new'.Point()) <==> old'.time <= new'.time && old'.travel <= new'.travel)
  {
    CellConservation(input, start, t, routes, id);
    assert Records(input, start, t.arena, routes, id);
    var candidate := t'.arena[|t.arena|];
    Conservation(input, start, q);
    SumAlongIsMaskSum(Stays(input.problem), q);
    var base := start + MaskSum(Stays(input.problem), MaskOf(q));
    DominatesIff(t.arena[id].ToClock(), candidate.ToClock(), base);
    DominatesIff(candidate.ToClock(), t.arena[id].ToClock(), base);
  }

  lemma FilingExtends(input: Input, start: nat, t: Table, routes: seq<seq<nat>>, t': Table,
                      mask: nat, last: nat, id: nat, next: nat, candidate: ParetoState, kept: seq<nat>)
    requires WellFormed(input, start, t, routes)
    requires mask < Pow2(input.Count()) && last < input.Count()
    requires Filed(input, t, routes, mask, last, id) && Extendable(input.problem, mask, last, next)
    requires Transit(input, t.arena[id], id, next) == Some(candidate)
    requires SetBit(mask, next) < Pow2(input.Count())
    requires Files(input, t, t', SetBit(mask, next), next, candidate, kept)
    ensures WellFormed(input, start, t', routes + [routes[id] + [next]])
    ensures Advances(input, t, t', mask) && Extended(input, t', mask, last, id, next)
  {
    var mask', q := SetBit(mask, next), routes[id] + [next];
    SetBitGrows(mask, next, input.Count());
    TransitIsMove(input, start, t, routes, id, next);
    assert Records(input, start, t.arena, routes, id);
    PartialRouteExtend(input, routes[id], next);
    FilingFrame(input, t, t', mask', next, candidate, kept);
    FilingWellFormed(input, start, t, routes, t', mask', next, candidate, kept, q);
    FilingCovers(input, start, t, routes, t', mask', next, candidate, kept, q);
  }

  /** A dominated candidate is already covered by the state that dominates it. */
  lemma DominatedIsExtended(input: Input, start: nat, t: Table, routes: seq<seq<nat>>,
                            mask: nat, last: nat, id: nat, next: nat, candidate: ParetoState, e: nat)
    requires WellFormed(input, start, t, routes)
    requires mask < Pow2(input.Count()) && last < input.Count()
    requires Filed(input, t, routes, mask, last, id) && Extendable(input.problem, mask, last, next)
    requires Transit(input, t.arena[id], id, next) == Some(candidate)
    requires SetBit(mask, next) < Pow2(input.Count())
    requires e in Cell(input, t, SetBit(mask, next), next) && e < |t.arena|
    requires Dominates(t.arena[e].Point(), candidate.Point())
    ensures Extended(input, t, mask, last, id, next)
  {
    TransitIsMove(input, start, t, routes, id, next);
    assert Records(input, start, t.arena, routes, id);
    PartialRouteExtend(input, routes[id], next);
    assert Filed(input, t, routes, SetBit(mask, next), next, e);
    var q, t' := routes[id] + [next], Table([], t.arena + [candidate]);
    CandidateDominates(input, start, t, routes, t', q, e);
  }

  /** Try one extension of one state: skip it if infeasible or dominated,
      otherwise drop what it dominates and file it. */
  method Relax(input: Input, policy: FrontierPolicy, start: nat, t: Table, ghost routes: seq<seq<nat>>,
               mask: nat, last: nat, id: nat, next: nat)
    returns (t': Table, ghost routes': seq<seq<nat>>)
    requires WellFormed(input, start, t, routes) && Pareto(input, policy, t)
    requires Conservative(policy)
    requires mask < Pow2(input.Count()) && last < input.Count()
    requires Filed(input, t, routes, mask, last, id) && Extendable(input.problem, mask, last, next)
    ensures WellFormed(input, start, t', routes') && routes <= routes' && Pareto(input, policy, t')
    ensures Advances(input, t, t', mask) && Extended(input, t', mask, last, id, next)
  {
    t', routes' := t, routes;
    SetBitGrows(mask, next, input.Count());
    var candidate := Transit(input, t.arena[id], id, next);
    if candidate.None? {
      TransitIsMove(input, start, t, routes, id, next);
      return;
    }
    var mask' := SetBit(mask, next);
    var cell := Cell(input, t, mask', next);
    assert forall e | e in cell :: Filed(input, t, routes, mask', next, e);
    if exists e | e in cell :: policy(t.arena[e].Point(), candidate.value.Point()) {
      ghost var e :| e in cell && policy(t.arena[e].Point(), candidate.value.Point());
      DominatedIsExtended(input, start, t, routes, mask, last, id, next, candidate.value, e);
      return;
    }
    CellIndexBound(mask', next, input.Count(), Pow2(input.Count()));
    var kept := Retain(policy, cell, t.arena, candidate.value.Point());
    t' := Table(
      t.frontiers[CellIndex(mask', next, input.Count()) := kept + [|t.arena|]],
      t.arena + [candidate.value]);
    routes' := routes + [routes[id] + [next]];
    FilingStaysPareto(input, policy, start, t, routes, t', mask', next, candidate.value, kept);
    FilingExtends(input, start, t, routes, t', mask, last, id, next, candidate.value, kept);
  }
}
