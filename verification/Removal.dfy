/** The removal probe: would the trip work without one of its intermediate stops? */
module Removal {
  import opened Domain
  import opened Sequences
  import opened Simulation
  import opened Objective
  import opened ExactSolve
  import opened Evaluator

  const PROBE_EXACT_LOCATIONS := 10

  /** A list filtered to every index but one. */
  function Without<T>(s: seq<T>, removed: nat): (r: seq<T>)
    ensures r == if removed < |s| then s[..removed] + s[removed + 1..] else s
  {
    if |s| == 0 then []
    else
      var k := |s| - 1;
      var before := Without(s[..k], removed);
      if k == removed then before else before + [s[k]]
  }

  /** The original index of a location of the reduced problem. */
  function Shift(i: nat, removed: nat): nat { if i < removed then i else i + 1 }

  function SubsetMatrix(rows: seq<seq<Option<U32>>>, removed: nat): (r: seq<seq<Option<U32>>>)
    requires removed < |rows| && forall i | 0 <= i < |rows| :: |rows[i]| == |rows|
    ensures |r| == |rows| - 1 && forall i | 0 <= i < |r| :: |r[i]| == |r|
    ensures forall i, j | 0 <= i < |r| && 0 <= j < |r| :: r[i][j] == rows[Shift(i, removed)][Shift(j, removed)]
  {
    var kept := Without(rows, removed);
    assert forall i | 0 <= i < |kept| :: kept[i] == rows[Shift(i, removed)];
    seq(|kept|, i requires 0 <= i < |kept| => Without(kept[i], removed))
  }

  /** The probe's problem and matrix. */
  function Reduced(input: Input, removed: nat): (r: Input)
    requires input.Valid() && input.Matched() && 1 <= removed < input.Count() - 1
  {
    Input(input.problem.(locations := Without(input.problem.locations, removed)),
          Matrix(SubsetMatrix(input.matrix.rows, removed)))
  }

  lemma WithoutShifts<T>(s: seq<T>, removed: nat, i: nat)
    requires removed < |s| && i < |s| - 1
    ensures Without(s, removed)[i] == s[Shift(i, removed)]
  {
  }

  lemma WithoutIsValid(problem: Problem, removed: nat)
    requires problem.Valid() && 1 <= removed < |problem.locations| - 1
    ensures problem.(locations := Without(problem.locations, removed)).Valid()
  {
    var before, after := problem.locations, Without(problem.locations, removed);
    forall i: nat | i < |after| ensures after[i] == before[Shift(i, removed)] { WithoutShifts(before, removed, i); }
  }

  lemma SubsetIsValid(matrix: Matrix, removed: nat)
    requires matrix.Valid() && removed < |matrix.rows|
    ensures Matrix(SubsetMatrix(matrix.rows, removed)).Valid()
  {
  }

  lemma ReducedIsValid(input: Input, removed: nat)
    requires input.Valid() && input.Matched() && 1 <= removed < input.Count() - 1
    ensures Reduced(input, removed).Valid() && Reduced(input, removed).Matched()
  {
    WithoutIsValid(input.problem, removed);
    SubsetIsValid(input.matrix, removed);
  }

  lemma ReducedReduces(input: Input, removed: nat)
    requires input.Valid() && input.Matched() && 1 <= removed < input.Count() - 1
    ensures Reduces(input, removed, Reduced(input, removed))
  {
    var small := Reduced(input, removed);
    forall i: nat | i < small.Count() ensures SameLocation(input, removed, small, i) {
      WithoutShifts(input.problem.locations, removed, i);
    }
  }

  /** `small` is the input without one location, the others shifted down. */
  ghost predicate Reduces(input: Input, removed: nat, small: Input) {
    && 1 <= removed < input.Count() - 1 && small.Count() == input.Count() - 1
    && small.problem.startTime == input.problem.startTime
    && small.problem.startPolicy == input.problem.startPolicy
    && small.problem.visitPolicy == input.problem.visitPolicy
    && (forall i: nat | i < small.Count() :: SameLocation(input, removed, small, i))
    && (forall i: nat, j: nat | i < small.Count() && j < small.Count() :: SameArc(input, removed, small, i, j))
  }

  ghost predicate SameLocation(input: Input, removed: nat, small: Input, i: nat)
    requires small.Count() < input.Count() && i < small.Count()
  {
    small.problem.locations[i] == input.problem.locations[Shift(i, removed)]
  }

  ghost predicate SameArc(input: Input, removed: nat, small: Input, i: nat, j: nat) {
    small.matrix.Travel(i, j) == input.matrix.Travel(Shift(i, removed), Shift(j, removed))
  }

  function Shifted(p: seq<nat>, removed: nat): (q: seq<nat>)
    ensures |q| == |p| && forall i | 0 <= i < |q| :: q[i] == Shift(p[i], removed)
  {
    seq(|p|, i requires 0 <= i < |p| => Shift(p[i], removed))
  }

  /** A route of the reduced problem is, index by index, the same route of the
      original: identical times, travel and waits. */
  lemma {:induction false} ShiftWalk(input: Input, removed: nat, small: Input, start: nat, p: seq<nat>)
    requires Reduces(input, removed, small) && FromStart(small, p) && FromStart(input, Shifted(p, removed))
    ensures Walk(small, start, p) == Walk(input, start, Shifted(p, removed))
  {
    if |p| == 1 {
      assert SameLocation(input, removed, small, 0);
    } else {
      var before := p[..|p| - 1];
      ShiftWalk(input, removed, small, start, before);
      assert Shifted(p, removed)[..|p| - 1] == Shifted(before, removed);
      if Walk(small, start, before).Some? {
        ShiftMove(input, removed, small, Walk(small, start, before).value, p[|p| - 2], p[|p| - 1]);
      }
    }
  }

  lemma ShiftFromStart(input: Input, removed: nat, small: Input, p: seq<nat>)
    requires Reduces(input, removed, small) && forall i | 0 <= i < |p| :: p[i] < small.Count()
    ensures FromStart(small, p) <==> FromStart(input, Shifted(p, removed))
  {
  }

  lemma ShiftMove(input: Input, removed: nat, small: Input, clock: Clock, i: nat, j: nat)
    requires Reduces(input, removed, small) && i < small.Count() && j < small.Count()
    ensures Move(small, clock, i, j) == Move(input, clock, Shift(i, removed), Shift(j, removed))
  {
    assert SameLocation(input, removed, small, j) && SameArc(input, removed, small, i, j);
  }

  /** A valid order in every respect but that it leaves out one location. */
  ghost predicate Skips(problem: Problem, removed: nat, q: seq<nat>) {
    && |q| > 0 && q[0] == 0 && q[|q| - 1] == problem.End()
    && (forall i | 0 <= i < |q| :: q[i] < |problem.locations|)
    && Distinct(q) && removed !in q
    && CoversBut(problem, removed, q)
    && (problem.visitPolicy == AllRequired ==> |q| == |problem.locations| - 1)
  }

  ghost predicate CoversBut(problem: Problem, removed: nat, q: seq<nat>) {
    forall x: nat | x < |problem.locations| && x != removed && problem.locations[x].required :: x in q
  }

  ghost predicate Covers(problem: Problem, q: seq<nat>) {
    forall x: nat | x < |problem.locations| && problem.locations[x].required :: x in q
  }

  /** Some order that leaves out the location can be walked from an allowed start. */
  ghost predicate RemovalWorks(input: Input, removed: nat) {
    exists q, start: nat :: WorksSkipping(input, removed, q, start)
  }

  ghost predicate WorksSkipping(input: Input, removed: nat, q: seq<nat>, start: nat) {
    Skips(input.problem, removed, q) && FromStart(input, q) && AllowedStart(input.problem, start) && Walk(input, start, q).Some?
  }

  lemma ShiftCovers(input: Input, removed: nat, small: Input, p: seq<nat>)
    requires Reduces(input, removed, small)
    ensures Covers(small.problem, p) ==> CoversBut(input.problem, removed, Shifted(p, removed))
    ensures CoversBut(input.problem, removed, Shifted(p, removed)) ==> Covers(small.problem, p)
  {
    var q := Shifted(p, removed);
    if Covers(small.problem, p) {
      forall x: nat | x < input.Count() && x != removed && input.problem.locations[x].required ensures x in q {
        var y: nat := if x < removed then x else x - 1;
        assert SameLocation(input, removed, small, y);
        var i :| 0 <= i < |p| && p[i] == y;
        assert q[i] == x;
      }
    }
    if CoversBut(input.problem, removed, q) {
      forall x: nat | x < small.Count() && small.problem.locations[x].required ensures x in p {
        assert SameLocation(input, removed, small, x);
        var i :| 0 <= i < |q| && q[i] == Shift(x, removed);
        assert p[i] == x;
      }
    }
  }

  /** Shifting is a correspondence between the orders of the reduced problem and
      the orders of the original that leave out the location. */
  lemma ShiftedSkipsIff(input: Input, removed: nat, small: Input, p: seq<nat>)
    requires Reduces(input, removed, small)
    requires forall i | 0 <= i < |p| :: p[i] < small.Count()
    ensures ValidOrder(small.problem, p) <==> Skips(input.problem, removed, Shifted(p, removed))
  {
    var q := Shifted(p, removed);
    ShiftCovers(input, removed, small, p);
    assert Distinct(p) <==> Distinct(q) by {
      assert forall i, j | 0 <= i < j < |p| :: p[i] == p[j] <==> q[i] == q[j];
    }
    assert |p| > 0 ==> (p[0] == 0 <==> q[0] == 0) && (p[|p| - 1] == small.problem.End() <==> q[|q| - 1] == input.problem.End());
  }

  /** Every sequence that leaves out the location is a shifted one. */
  lemma Unshift(input: Input, removed: nat, small: Input, q: seq<nat>) returns (p: seq<nat>)
    requires Reduces(input, removed, small) && Skips(input.problem, removed, q)
    ensures q == Shifted(p, removed) && forall i | 0 <= i < |p| :: p[i] < small.Count()
  {
    p := seq(|q|, i requires 0 <= i < |q| => if q[i] <= removed then q[i] else q[i] - 1);
    assert forall i | 0 <= i < |q| :: q[i] in q;
  }

  /** The reduced problem is feasible exactly when leaving out the location works. */
  lemma ReducedFeasibleIff(input: Input, removed: nat, small: Input)
    requires Reduces(input, removed, small)
    ensures (exists p, start: nat :: Feasible(small, p, start)) <==> RemovalWorks(input, removed)
  {
    if p, start: nat :| Feasible(small, p, start) {
      ShiftedSkipsIff(input, removed, small, p);
      ShiftFromStart(input, removed, small, p);
      ShiftWalk(input, removed, small, start, p);
      assert WorksSkipping(input, removed, Shifted(p, removed), start);
    }
    if q, start: nat :| WorksSkipping(input, removed, q, start) {
      var p := Unshift(input, removed, small, q);
      ShiftedSkipsIff(input, removed, small, p);
      ShiftFromStart(input, removed, small, p);
      ShiftWalk(input, removed, small, start, p);
      assert Feasible(small, p, start);
    }
  }

  /** The lightweight probe: exact up to ten locations, otherwise one greedy route,
      when there is one, evaluated. */
  method FeasibilityProbe(input: Input, greedy: Option<seq<nat>>, token: Token) returns (feasible: bool)
    requires input.Valid() && input.Matched()
    ensures feasible ==> exists q, start: nat :: Feasible(input, q, start)
    ensures Quiet(token) && input.Count() <= PROBE_EXACT_LOCATIONS && !feasible ==>
      forall q, start: nat :: !Feasible(input, q, start)
    ensures Quiet(token) && input.Count() > PROBE_EXACT_LOCATIONS && greedy.Some? && !feasible ==>
      forall start: nat :: !Feasible(input, greedy.value, start)
  {
    if input.Count() <= PROBE_EXACT_LOCATIONS {
      var solved := SolveDetailed(input, TimeCost(), token);
      if solved.Ok? { assert Feasible(input, solved.value.order, solved.value.metrics.start); }
      return solved.Ok?;
    }
    if greedy.None? {
      return false;
    }
    var evaluated := EvaluateSolution(input, greedy.value, token);
    if evaluated.Ok? { assert Feasible(input, greedy.value, evaluated.value.start); }
    feasible := evaluated.Ok?;
  }

  method ProbeOne(input: Input, removed: nat, greedy: Option<seq<nat>>, token: Token) returns (feasible: bool)
    requires input.Valid() && input.Matched() && 1 <= removed < input.Count() - 1
    ensures feasible ==> RemovalWorks(input, removed)
    ensures Quiet(token) && input.Count() <= PROBE_EXACT_LOCATIONS + 1 && !feasible ==> !RemovalWorks(input, removed)
  {
    var small := Reduced(input, removed);
    ReducedIsValid(input, removed);
    ReducedReduces(input, removed);
    ReducedFeasibleIff(input, removed, small);
    feasible := FeasibilityProbe(small, greedy, token);
  }

  ghost predicate Increasing(s: seq<nat>) { forall i, j | 0 <= i < j < |s| :: s[i] < s[j] }

  /** The candidates below `bound` that work are reported, in order. */
  ghost predicate Probed(input: Input, bound: nat, removable: seq<nat>, exact: bool) {
    && Increasing(removable)
    && (forall x | x in removable :: 1 <= x < bound && RemovalWorks(input, x))
    && (exact ==> forall x: nat | 1 <= x < bound && RemovalWorks(input, x) :: x in removable)
  }

  lemma ReportNext(input: Input, index: nat, removable: seq<nat>, exact: bool, feasible: bool, sure: bool)
    requires Probed(input, index, removable, exact) && 1 <= index
    requires feasible ==> RemovalWorks(input, index)
    requires !feasible && sure ==> !RemovalWorks(input, index)
    ensures Probed(input, index + 1, if feasible then removable + [index] else removable, exact && sure)
  {
    if feasible {
      IncreasingNext(removable, index);
      assert forall x :: x in removable + [index] <==> x in removable || x == index;
    }
  }

  lemma IncreasingNext(s: seq<nat>, x: nat)
    requires Increasing(s) && forall y | y in s :: y < x
    ensures Increasing(s + [x])
  {
    assert forall i | 0 <= i < |s| :: s[i] in s;
  }

  /** Probe each intermediate location in turn, up to a number of probes and until the
      run is over, cancelled or out of time. The split-day suggestion names the first
      that works. */
  method ProbeRemovedLocations(input: Input, maxProbes: nat, greedy: seq<Option<seq<nat>>>, token: Token, over: Token)
    returns (removable: seq<nat>, splitAround: Option<nat>, probed: nat)
    requires input.Valid() && input.Matched() && |greedy| >= input.Count()
    ensures probed <= maxProbes && probed <= Max(input.Count(), 2) - 2
    ensures Quiet(over) ==> probed == maxProbes || probed == Max(input.Count(), 2) - 2
    ensures Probed(input, probed + 1, removable, Quiet(token) && input.Count() <= PROBE_EXACT_LOCATIONS + 1)
    ensures splitAround == if removable == [] then None else Some(removable[0])
  {
    removable, splitAround, probed := [], None, 0;
    if input.Count() <= 2 || maxProbes == 0 {
      return;
    }
    ghost var exact := Quiet(token) && input.Count() <= PROBE_EXACT_LOCATIONS + 1;
    while probed < maxProbes && probed < input.Count() - 2
      invariant probed <= maxProbes && probed <= input.Count() - 2
      invariant Probed(input, probed + 1, removable, exact)
      invariant splitAround == if removable == [] then None else Some(removable[0])
    {
      var stop := Poll(over);
      if stop {
        break;
      }
      var index := probed + 1;
      var feasible := ProbeOne(input, index, greedy[index], token);
      ReportNext(input, index, removable, exact, feasible, exact);
      if feasible {
        removable := removable + [index];
        if splitAround.None? { splitAround := Some(index); }
      }
      probed := index;
    }
  }
}
