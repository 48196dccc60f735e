/** The exact solver's cheap feasibility table: one earliest finish time per
    (visited mask, last location), without a Pareto frontier. */
module ExactFeasible {
  import opened Domain
  import opened Masks
  import opened Sequences
  import opened Simulation
  import opened Objective
  import opened Routes
  import opened Transition
  import opened ExactSearch
  import opened ExactRun

  type EarliestTable = seq<Option<nat>>

  function At(input: Input, e: EarliestTable, mask: nat, last: nat): Option<nat>
    requires |e| == Pow2(input.Count()) * input.Count()
    requires mask < Pow2(input.Count()) && last < input.Count()
  {
    CellIndexBound(mask, last, input.Count(), Pow2(input.Count()));
    e[CellIndex(mask, last, input.Count())]
  }

  /** A walkable partial route that ends at the destination only after every location. */
  ghost predicate Prefix(input: Input, start: nat, q: seq<nat>) {
    PartialRoute(input, q) && Walk(input, start, q).Some? &&
    (q[|q| - 1] == input.problem.End() ==> |q| == input.Count())
  }

  /** `q` reaches the cell (mask, last) at minute `time`. */
  ghost predicate Reaches(input: Input, start: nat, q: seq<nat>, mask: nat, last: nat, time: nat) {
    Prefix(input, start, q) && MaskOf(q) == mask && q[|q| - 1] == last && Walk(input, start, q).value.time == time
  }

  /** Every entry is the finish time of the partial route that witnesses it. */
  ghost predicate Attained(input: Input, start: nat, e: EarliestTable, routes: seq<seq<nat>>) {
    && |e| == |routes| == Pow2(input.Count()) * input.Count()
    && forall mask: nat, last: nat | mask < Pow2(input.Count()) && last < input.Count() && At(input, e, mask, last).Some? ::
         AttainedAt(input, start, e, routes, mask, last)
  }

  ghost predicate AttainedAt(input: Input, start: nat, e: EarliestTable, routes: seq<seq<nat>>, mask: nat, last: nat)
    requires |e| == |routes| == Pow2(input.Count()) * input.Count()
    requires mask < Pow2(input.Count()) && last < input.Count()
  {
    CellIndexBound(mask, last, input.Count(), Pow2(input.Count()));
    At(input, e, mask, last).Some? &&
    Reaches(input, start, routes[CellIndex(mask, last, input.Count())], mask, last, At(input, e, mask, last).value)
  }

  /** The cell holds a finish time of at most `time`. */
  ghost predicate NoLater(input: Input, e: EarliestTable, mask: nat, last: nat, time: nat)
    requires |e| == Pow2(input.Count()) * input.Count()
    requires mask < Pow2(input.Count()) && last < input.Count()
  {
    At(input, e, mask, last).Some? && At(input, e, mask, last).value <= time
  }

  /** A step that works on `mask`: cells up to `mask` stay, and no entry gets later. */
  ghost predicate Tightens(input: Input, e: EarliestTable, e': EarliestTable, mask: nat) {
    && |e| == |e'| == Pow2(input.Count()) * input.Count()
    && (forall m: nat, l: nat | m <= mask && m < Pow2(input.Count()) && l < input.Count() ::
          At(input, e', m, l) == At(input, e, m, l))
    && (forall m: nat, l: nat, time | m < Pow2(input.Count()) && l < input.Count() && NoLater(input, e, m, l, time) ::
          NoLater(input, e', m, l, time))
  }

  predicate MayStep(input: Input, mask: nat, next: nat) {
    1 <= next < input.Count() && !Bit(mask, next) &&
    (next == input.problem.End() ==> SetBit(mask, next) == FullMask(input.Count()))
  }

  ghost predicate Stepped(input: Input, e: EarliestTable, mask: nat, last: nat, next: nat)
    requires |e| == Pow2(input.Count()) * input.Count()
    requires mask < Pow2(input.Count()) && last < input.Count() && next < input.Count() && !Bit(mask, next)
  {
    SetBitGrows(mask, next, input.Count());
    At(input, e, mask, last).Some? && TransitionTime(input, last, next, At(input, e, mask, last).value).Some? ==>
      NoLater(input, e, SetBit(mask, next), next, TransitionTime(input, last, next, At(input, e, mask, last).value).value)
  }

  /** Every possible step out of the cell to a location below `bound` has been recorded. */
  ghost predicate Closed(input: Input, e: EarliestTable, mask: nat, last: nat, bound: nat)
    requires |e| == Pow2(input.Count()) * input.Count()
    requires mask < Pow2(input.Count()) && last < input.Count()
  {
    forall next: nat | next < bound && MayStep(input, mask, next) :: Stepped(input, e, mask, last, next)
  }

  ghost predicate ClosedBelow(input: Input, e: EarliestTable, bound: nat, lasts: nat)
    requires |e| == Pow2(input.Count()) * input.Count()
  {
    forall mask: nat, last: nat |
      mask < Pow2(input.Count()) && last < input.Count() && (1 <= mask < bound || (mask == bound && last < lasts)) ::
      Closed(input, e, mask, last, input.Count())
  }

  lemma ClosedSurvives(input: Input, e: EarliestTable, e': EarliestTable, working: nat, mask: nat, last: nat, bound: nat)
    requires Tightens(input, e, e', working) && mask <= working
    requires mask < Pow2(input.Count()) && last < input.Count() && Closed(input, e, mask, last, bound)
    ensures Closed(input, e', mask, last, bound)
  {
    forall next: nat | next < bound && MayStep(input, mask, next) ensures Stepped(input, e', mask, last, next) {
      SetBitGrows(mask, next, input.Count());
      assert Stepped(input, e, mask, last, next);
    }
  }

  lemma ClosedBelowSurvives(input: Input, e: EarliestTable, e': EarliestTable, working: nat, lasts: nat)
    requires Tightens(input, e, e', working) && ClosedBelow(input, e, working, lasts)
    ensures ClosedBelow(input, e', working, lasts)
  {
    forall mask: nat, last: nat |
      mask < Pow2(input.Count()) && last < input.Count() && (1 <= mask < working || (mask == working && last < lasts))
      ensures Closed(input, e', mask, last, input.Count())
    {
      ClosedSurvives(input, e, e', working, mask, last, input.Count());
    }
  }

  /** A mask without the destination's bit cannot be reached at the destination. */
  lemma StepReaches(input: Input, start: nat, q: seq<nat>, mask: nat, last: nat, time: nat, next: nat)
    requires Ready(input) && Reaches(input, start, q, mask, last, time)
    requires MayStep(input, mask, next) && TransitionTime(input, last, next, time).Some?
    ensures Reaches(input, start, q + [next], SetBit(mask, next), next, TransitionTime(input, last, next, time).value)
  {
    var n := input.Count();
    if last == input.problem.End() {
      DistinctInRange(q, n);
      BitOfMaskOf(q, next);
      assert false;
    }
    PartialRouteExtend(input, q, next);
    TransitionTimeIsMove(input, Walk(input, start, q).value, last, next);
    if next == input.problem.End() {
      DistinctInRange(q + [next], n);
      forall x: nat | x < n ensures x in q + [next] {
        BitOfFull(n, x);
        BitOfMaskOf(q + [next], x);
      }
    }
  }

  /** Record one improved finish time. */
  lemma Improve(input: Input, start: nat, e: EarliestTable, routes: seq<seq<nat>>, mask: nat, next: nat,
                q: seq<nat>, time: nat, e': EarliestTable, routes': seq<seq<nat>>)
    requires Attained(input, start, e, routes)
    requires mask < Pow2(input.Count()) && next < input.Count()
    requires Reaches(input, start, q, mask, next, time)
    requires At(input, e, mask, next).Some? ==> time < At(input, e, mask, next).value
    requires CellIndex(mask, next, input.Count()) < |e|
    requires e' == e[CellIndex(mask, next, input.Count()) := Some(time)]
    requires routes' == routes[CellIndex(mask, next, input.Count()) := q]
    ensures Attained(input, start, e', routes') && NoLater(input, e', mask, next, time)
    ensures forall m: nat | m < mask :: Tightens(input, e, e', m)
  {
    var n := input.Count();
    CellIndexBound(mask, next, n, Pow2(n));
    forall m: nat, l: nat | m < Pow2(n) && l < n && (m != mask || l != next)
      ensures At(input, e', m, l) == At(input, e, m, l)
      ensures At(input, e', m, l).Some? ==> AttainedAt(input, start, e', routes', m, l)
    {
      CellIndexBound(m, l, n, Pow2(n));
      if CellIndex(m, l, n) == CellIndex(mask, next, n) { CellIndexInjective(m, l, mask, next, n); }
      if At(input, e, m, l).Some? { assert AttainedAt(input, start, e, routes, m, l); }
    }
    assert AttainedAt(input, start, e', routes', mask, next);
  }

  /** Step out of one cell in every possible way. */
  method ExtendCell(input: Input, start: nat, e: EarliestTable, ghost routes: seq<seq<nat>>, mask: nat, last: nat)
    returns (e': EarliestTable, ghost routes': seq<seq<nat>>)
    requires Ready(input) && Attained(input, start, e, routes)
    requires mask < Pow2(input.Count()) && last < input.Count()
    ensures Attained(input, start, e', routes')
    ensures Tightens(input, e, e', mask) && Closed(input, e', mask, last, input.Count())
  {
    e', routes' := e, routes;
    var time := At(input, e, mask, last);
    if time.None? {
      return;
    }
    var next := 1;
    while next < input.Count()
      invariant 1 <= next
      invariant Attained(input, start, e', routes')
      invariant Tightens(input, e, e', mask) && Closed(input, e', mask, last, next)
    {
      ghost var before := e';
      if MayStep(input, mask, next) {
        e', routes' := ExtendBy(input, start, e', routes', mask, last, time.value, next);
        ClosedSurvives(input, before, e', mask, mask, last, next);
        TightensTransitive(input, e, before, e', mask);
      }
      next := next + 1;
    }
  }

  lemma TightensTransitive(input: Input, a: EarliestTable, b: EarliestTable, c: EarliestTable, mask: nat)
    requires Tightens(input, a, b, mask) && Tightens(input, b, c, mask)
    ensures Tightens(input, a, c, mask)
  {
  }

  /** One step out of a cell: keep the smaller finish time of the two. */
  method ExtendBy(input: Input, start: nat, e: EarliestTable, ghost routes: seq<seq<nat>>, mask: nat, last: nat,
                  time: nat, next: nat)
    returns (e': EarliestTable, ghost routes': seq<seq<nat>>)
    requires Ready(input) && Attained(input, start, e, routes)
    requires mask < Pow2(input.Count()) && last < input.Count() && At(input, e, mask, last) == Some(time)
    requires MayStep(input, mask, next)
    ensures Attained(input, start, e', routes')
    ensures Tightens(input, e, e', mask) && Stepped(input, e', mask, last, next)
  {
    e', routes' := e, routes;
    SetBitGrows(mask, next, input.Count());
    var mask' := SetBit(mask, next);
    var finish := TransitionTime(input, last, next, time);
    CellIndexBound(mask', next, input.Count(), Pow2(input.Count()));
    if finish.Some? && (At(input, e, mask', next).None? || finish.value < At(input, e, mask', next).value) {
      assert AttainedAt(input, start, e, routes, mask, last);
      CellIndexBound(mask, last, input.Count(), Pow2(input.Count()));
      ghost var q := routes[CellIndex(mask, last, input.Count())];
      StepReaches(input, start, q, mask, last, time, next);
      e' := e[CellIndex(mask', next, input.Count()) := finish];
      routes' := routes[CellIndex(mask', next, input.Count()) := q + [next]];
      Improve(input, start, e, routes, mask', next, q + [next], finish.value, e', routes');
      assert Tightens(input, e, e', mask);
    }
  }

  /** Every entry is attained, and no walkable prefix reaches its cell earlier:
      the table holds exactly the minimum finish times. */
  ghost predicate ExactlyEarliest(input: Input, start: nat, e: EarliestTable, routes: seq<seq<nat>>) {
    && Attained(input, start, e, routes)
    && forall q | Prefix(input, start, q) :: MinimalAt(input, start, e, q)
  }

  ghost predicate MinimalAt(input: Input, start: nat, e: EarliestTable, q: seq<nat>)
    requires |e| == Pow2(input.Count()) * input.Count() && Prefix(input, start, q)
  {
    MaskOfBound(q, input.Count());
    NoLater(input, e, MaskOf(q), q[|q| - 1], Walk(input, start, q).value.time)
  }

  lemma {:induction false} PrefixIsNoLater(input: Input, start: nat, e: EarliestTable, q: seq<nat>)
    requires Ready(input) && |e| == Pow2(input.Count()) * input.Count() && 1 < Pow2(input.Count())
    requires ClosedBelow(input, e, Pow2(input.Count()), 0)
    requires Depart(input.problem, start).Some? ==> NoLater(input, e, 1, 0, Depart(input.problem, start).value.time)
    requires Prefix(input, start, q)
    ensures MinimalAt(input, start, e, q)
  {
    var n := input.Count();
    MaskOfBound(q, n);
    if |q| == 1 {
      assert q == [0] && MaskOf(q) == 1;
    } else {
      var p, last, next := q[..|q| - 1], q[|q| - 2], q[|q| - 1];
      PartialRouteInit(input, q);
      PrefixIsNoLater(input, start, e, p);
      MaskOfBound(p, n);
      if next == input.problem.End() { FullRouteFullMask(q, n); }
      assert MayStep(input, MaskOf(p), next);
      assert Closed(input, e, MaskOf(p), last, n);
      assert Stepped(input, e, MaskOf(p), last, next);
      var early, clock := At(input, e, MaskOf(p), last).value, Walk(input, start, p).value;
      TransitionTimeIsMove(input, clock, last, next);
      StepsAreMonotone(input, last, next, early, clock.time);
    }
  }

  lemma FullRouteFullMask(q: seq<nat>, n: nat)
    requires Distinct(q) && |q| == n
    requires forall i | 0 <= i < |q| :: q[i] < n
    ensures MaskOf(q) == FullMask(n)
  {
    DistinctInRange(q, n);
    MaskOfBound(q, n);
    forall i: nat | i < n ensures Bit(MaskOf(q), i) <==> Bit(FullMask(n), i) {
      BitOfMaskOf(q, i);
      BitOfFull(n, i);
    }
    SameBits(MaskOf(q), FullMask(n), n);
  }

  /** Step out of every cell of one mask. */
  method ExtendMask(input: Input, start: nat, e: EarliestTable, ghost routes: seq<seq<nat>>, mask: nat)
    returns (e': EarliestTable, ghost routes': seq<seq<nat>>)
    requires Ready(input) && Attained(input, start, e, routes)
    requires 1 <= mask < Pow2(input.Count()) && ClosedBelow(input, e, mask, 0)
    ensures Attained(input, start, e', routes')
    ensures Tightens(input, e, e', mask) && ClosedBelow(input, e', mask + 1, 0)
  {
    e', routes' := e, routes;
    for last := 0 to input.Count()
      invariant Attained(input, start, e', routes')
      invariant Tightens(input, e, e', mask) && ClosedBelow(input, e', mask, last)
    {
      ghost var before := e';
      e', routes' := ExtendCell(input, start, e', routes', mask, last);
      TightensTransitive(input, e, before, e', mask);
      ClosedBelowSurvives(input, before, e', mask, last);
    }
  }

  /** The table before any step: the served start location alone. */
  function InitialEarliest(n: nat, departure: nat): EarliestTable
    requires n > 0 && CellIndex(1, 0, n) < Pow2(n) * n
  {
    seq(Pow2(n) * n, _ => None)[CellIndex(1, 0, n) := Some(departure)]
  }

  lemma InitialIsAttained(input: Input, start: nat, initial: InitialService, routes: seq<seq<nat>>)
    requires Ready(input) && 1 < input.Count() && InitialServiceAt(input.problem, start) == Some(initial)
    requires CellIndex(1, 0, input.Count()) < Pow2(input.Count()) * input.Count()
    requires routes == seq(Pow2(input.Count()) * input.Count(), _ => [0])
    ensures Attained(input, start, InitialEarliest(input.Count(), initial.departure), routes)
    ensures NoLater(input, InitialEarliest(input.Count(), initial.departure), 1, 0, initial.departure)
  {
    var n, e := input.Count(), InitialEarliest(input.Count(), initial.departure);
    InitialServiceIsDepart(input.problem, start);
    assert MaskOf([0]) == 1;
    assert Reaches(input, start, [0], 1, 0, initial.departure);
    forall mask: nat, last: nat | mask < Pow2(n) && last < n && At(input, e, mask, last).Some?
      ensures AttainedAt(input, start, e, routes, mask, last)
    {
      CellIndexBound(mask, last, n, Pow2(n));
      CellIndexInjective(mask, last, 1, 0, n);
    }
  }

  /** Fill the whole table from one start minute; it may be cancelled at any mask. */
  method FillEarliest(input: Input, start: nat, initial: InitialService, token: Token)
    returns (r: Result<EarliestTable, SolverError>, ghost routes: seq<seq<nat>>)
    requires Ready(input) && 1 < input.Count() && InitialServiceAt(input.problem, start) == Some(initial)
    ensures r.Err? ==> r.error == Cancelled && !Quiet(token)
    ensures r.Ok? ==> ExactlyEarliest(input, start, r.value, routes)
  {
    var n := input.Count();
    InitialServiceIsDepart(input.problem, start);
    CellIndexBound(1, 0, n, Pow2(n));
    var e := InitialEarliest(n, initial.departure);
    routes := seq(Pow2(n) * n, _ => [0]);
    InitialIsAttained(input, start, initial, routes);
    var mask := 1;
    while mask <= FullMask(n)
      invariant 1 <= mask <= Pow2(n)
      invariant Attained(input, start, e, routes) && ClosedBelow(input, e, mask, 0)
      invariant NoLater(input, e, 1, 0, initial.departure)
    {
      var stop := Poll(token);
      if stop {
        return Err(Cancelled), routes;
      }
      e, routes := ExtendMask(input, start, e, routes, mask);
      mask := mask + 1;
    }
    forall q | Prefix(input, start, q) ensures MinimalAt(input, start, e, q) {
      PrefixIsNoLater(input, start, e, q);
    }
    r := Ok(e);
  }

  /** A full-mask arrival at the destination is a valid order and the other way round. */
  lemma FullRouteIsValidOrder(input: Input, q: seq<nat>)
    requires PartialRoute(input, q) && q[|q| - 1] == input.problem.End() && |q| == input.Count()
    ensures ValidOrder(input.problem, q)
  {
    DistinctInRange(q, input.Count());
  }

  /** Whether some order of all locations can be walked from the start minute. */
  method IsFeasibleAtStart(input: Input, start: nat, token: Token) returns (r: Result<bool, SolverError>)
    requires Ready(input)
    ensures r.Err? ==> r.error == Cancelled && !Quiet(token)
    ensures r.Ok? && r.value ==> exists q :: WalksFrom(input, start, q) && |q| == input.Count()
    ensures r.Ok? && !r.value ==> forall q | WalksFrom(input, start, q) :: |q| < input.Count()
  {
    InitialServiceIsDepart(input.problem, start);
    var initial := InitialServiceAt(input.problem, start);
    if initial.None? {
      forall q ensures !WalksFrom(input, start, q) { NoDepartureNoWalk(input, start, q); }
      return Ok(false);
    }
    if input.Count() == 1 {
      assert Distinct([0]) && WalksFrom(input, start, [0]);
      return Ok(true);
    }
    var filled, routes := FillEarliest(input, start, initial.value, token);
    if filled.Err? {
      return Err(filled.error);
    }
    var n, end := input.Count(), input.problem.End();
    var arrival := At(input, filled.value, FullMask(n), end);
    if arrival.Some? {
      assert AttainedAt(input, start, filled.value, routes, FullMask(n), end);
      CellIndexBound(FullMask(n), end, n, Pow2(n));
      ghost var q := routes[CellIndex(FullMask(n), end, n)];
      FullRouteIsValidOrder(input, q);
      assert WalksFrom(input, start, q);
    }
    forall q | WalksFrom(input, start, q) && arrival.None? ensures |q| < n {
      ValidOrderIsPartialRoute(input, q);
      DistinctInRange(q, n);
      if |q| == n {
        assert Prefix(input, start, q);
        assert MinimalAt(input, start, filled.value, q);
        FullRouteFullMask(q, n);
      }
    }
    r := Ok(arrival.Some?);
  }
}
