/** The mixed-integer encoding: variables, the linear constraints the model is
    built from, and what those constraints say about an assignment. */
module MipModel {
  import opened Domain

  datatype Variable = Y(i: nat) | Service(i: nat) | SelectedStart | Order(i: nat) | Arc(from: nat, to: nat)

  datatype Sense = Eq | Le | Ge

  datatype Term = Term(coefficient: int, variable: Variable)

  datatype Constraint = Constraint(sense: Sense, bound: int, terms: seq<Term>)

  /** Integral variable values: visited flags, service starts, the selected start,
      positions and arc flags. */
  datatype Assignment = Assignment(y: seq<int>, service: seq<int>, selected: int, order: seq<int>, arcs: seq<seq<int>>)

  function Val(a: Assignment, v: Variable): int {
    match v
    case Y(i) => if i < |a.y| then a.y[i] else 0
    case Service(i) => if i < |a.service| then a.service[i] else 0
    case SelectedStart => a.selected
    case Order(i) => if i < |a.order| then a.order[i] else 0
    case Arc(from, to) => if from < |a.arcs| && to < |a.arcs[from]| then a.arcs[from][to] else 0
  }

  function Dot(terms: seq<Term>, a: Assignment): int {
    if |terms| == 0 then 0
    else Dot(terms[..|terms| - 1], a) + terms[|terms| - 1].coefficient * Val(a, terms[|terms| - 1].variable)
  }

  predicate Holds(c: Constraint, a: Assignment) {
    match c.sense
    case Eq => Dot(c.terms, a) == c.bound
    case Le => Dot(c.terms, a) <= c.bound
    case Ge => Dot(c.terms, a) >= c.bound
  }

  ghost predicate Satisfies(model: seq<Constraint>, a: Assignment) {
    forall i | 0 <= i < |model| :: Holds(model[i], a)
  }

  lemma SatisfiesAppend(model: seq<Constraint>, c: Constraint, a: Assignment)
    ensures Satisfies(model + [c], a) <==> Satisfies(model, a) && Holds(c, a)
  {
    assert (model + [c])[|model|] == c;
    assert forall i | 0 <= i < |model| :: (model + [c])[i] == model[i];
  }

  lemma {:induction false} DotConcat(s: seq<Term>, t: seq<Term>, a: Assignment)
    ensures Dot(s + t, a) == Dot(s, a) + Dot(t, a)
  {
    if |t| == 0 {
      assert s + t == s;
    } else {
      assert (s + t)[..|s + t| - 1] == s + t[..|t| - 1];
      DotConcat(s, t[..|t| - 1], a);
    }
  }

  lemma DotOne(p: Term, a: Assignment)
    ensures Dot([p], a) == p.coefficient * Val(a, p.variable)
  {
    assert [p][..0] == [];
  }

  lemma DotTwo(p: Term, q: Term, a: Assignment)
    ensures Dot([p, q], a) == p.coefficient * Val(a, p.variable) + q.coefficient * Val(a, q.variable)
  {
    assert [p, q][..1] == [p];
    DotOne(p, a);
  }

  lemma DotThree(p: Term, q: Term, r: Term, a: Assignment)
    ensures Dot([p, q, r], a) == p.coefficient * Val(a, p.variable) + q.coefficient * Val(a, q.variable) +
                                 r.coefficient * Val(a, r.variable)
  {
    assert [p, q, r][..2] == [p, q];
    DotTwo(p, q, a);
  }

  function ArcValue(input: Input, a: Assignment, from: nat, to: nat): int {
    if HasArc(input, from, to) then Val(a, Arc(from, to)) else 0
  }

  /** The declared bounds: required locations are visited, flags are binary, times
      are minutes of the day, positions fit and start at zero. */
  ghost predicate Bounded(input: Input, a: Assignment) {
    var n := input.Count();
    && |a.y| == |a.service| == |a.order| == |a.arcs| == n
    && (forall i | 0 <= i < n :: |a.arcs[i]| == n)
    && (forall i | 0 <= i < n :: 0 <= a.y[i] <= 1 && (input.problem.locations[i].required ==> a.y[i] == 1))
    && (forall i | 0 <= i < n :: 0 <= a.service[i] < MINUTES_PER_DAY)
    && 0 <= a.selected < MINUTES_PER_DAY
    && (forall i | 0 <= i < n :: 0 <= a.order[i] <= n - 1 && (i == 0 ==> a.order[i] == 0))
    && (forall i: nat, j: nat | HasArc(input, i, j) :: 0 <= a.arcs[i][j] <= 1)
  }

  function InSum(input: Input, a: Assignment, to: nat, k: nat): int {
    if k == 0 then 0 else InSum(input, a, to, k - 1) + ArcValue(input, a, k - 1, to)
  }

  function OutSum(input: Input, a: Assignment, from: nat, k: nat): int {
    if k == 0 then 0 else OutSum(input, a, from, k - 1) + ArcValue(input, a, from, k - 1)
  }

  /** One arc leaves the start, one enters the end, and every other location is
      entered and left as often as it is visited. */
  ghost predicate FlowAt(input: Input, a: Assignment, i: nat) {
    if i == 0 then OutSum(input, a, i, input.Count()) == 1
    else if i == input.problem.End() then InSum(input, a, i, input.Count()) == 1
    else InSum(input, a, i, input.Count()) == Val(a, Y(i)) && OutSum(input, a, i, input.Count()) == Val(a, Y(i))
  }

  ghost predicate Flow(input: Input, a: Assignment) {
    forall i: nat | i < input.Count() :: FlowAt(input, a, i)
  }

  function InTerms(input: Input, to: nat, k: nat): seq<Term> {
    if k == 0 then []
    else InTerms(input, to, k - 1) + (if HasArc(input, k - 1, to) then [Term(1, Arc(k - 1, to))] else [])
  }

  function OutTerms(input: Input, from: nat, k: nat): seq<Term> {
    if k == 0 then []
    else OutTerms(input, from, k - 1) + (if HasArc(input, from, k - 1) then [Term(1, Arc(from, k - 1))] else [])
  }

  lemma {:induction false} InTermsSum(input: Input, a: Assignment, to: nat, k: nat)
    ensures Dot(InTerms(input, to, k), a) == InSum(input, a, to, k)
  {
    if k > 0 {
      InTermsSum(input, a, to, k - 1);
      if HasArc(input, k - 1, to) {
        DotConcat(InTerms(input, to, k - 1), [Term(1, Arc(k - 1, to))], a);
        DotOne(Term(1, Arc(k - 1, to)), a);
      } else {
        assert InTerms(input, to, k) == InTerms(input, to, k - 1);
      }
    }
  }

  lemma {:induction false} OutTermsSum(input: Input, a: Assignment, from: nat, k: nat)
    ensures Dot(OutTerms(input, from, k), a) == OutSum(input, a, from, k)
  {
    if k > 0 {
      OutTermsSum(input, a, from, k - 1);
      if HasArc(input, from, k - 1) {
        DotConcat(OutTerms(input, from, k - 1), [Term(1, Arc(from, k - 1))], a);
        DotOne(Term(1, Arc(from, k - 1)), a);
      } else {
        assert OutTerms(input, from, k) == OutTerms(input, from, k - 1);
      }
    }
  }

  /** The balance constraints of one location say exactly `FlowAt`. */
  lemma FlowConstraintsSay(input: Input, i: nat, a: Assignment)
    ensures var n := input.Count();
      && (Holds(Constraint(Eq, 1, OutTerms(input, i, n)), a) <==> OutSum(input, a, i, n) == 1)
      && (Holds(Constraint(Eq, 1, InTerms(input, i, n)), a) <==> InSum(input, a, i, n) == 1)
      && (Holds(Constraint(Eq, 0, [Term(-1, Y(i))] + InTerms(input, i, n)), a) <==> InSum(input, a, i, n) == Val(a, Y(i)))
      && (Holds(Constraint(Eq, 0, [Term(-1, Y(i))] + OutTerms(input, i, n)), a) <==> OutSum(input, a, i, n) == Val(a, Y(i)))
  {
    var n := input.Count();
    InTermsSum(input, a, i, n);
    OutTermsSum(input, a, i, n);
    DotOne(Term(-1, Y(i)), a);
    DotConcat([Term(-1, Y(i))], InTerms(input, i, n), a);
    DotConcat([Term(-1, Y(i))], OutTerms(input, i, n), a);
  }

  ghost predicate FlowBelow(input: Input, a: Assignment, k: nat) {
    forall i: nat | i < k :: FlowAt(input, a, i)
  }

  method AddFlowConstraints(input: Input, model: seq<Constraint>) returns (model': seq<Constraint>)
    requires 2 <= input.Count()
    ensures forall a :: Satisfies(model', a) <==> Satisfies(model, a) && Flow(input, a)
  {
    var n := input.Count();
    model' := model;
    for i := 0 to n
      invariant forall a :: Satisfies(model', a) <==> Satisfies(model, a) && FlowBelow(input, a, i)
    {
      ghost var before := model';
      if i == 0 || i == input.problem.End() {
        var only := Constraint(Eq, 1, if i == 0 then OutTerms(input, i, n) else InTerms(input, i, n));
        model' := model' + [only];
        forall a ensures Satisfies(model', a) <==> Satisfies(before, a) && FlowAt(input, a, i) {
          SatisfiesAppend(before, only, a);
          FlowConstraintsSay(input, i, a);
        }
      } else {
        var entering := Constraint(Eq, 0, [Term(-1, Y(i))] + InTerms(input, i, n));
        var leaving := Constraint(Eq, 0, [Term(-1, Y(i))] + OutTerms(input, i, n));
        model' := model' + [entering];
        ghost var middle := model';
        model' := model' + [leaving];
        forall a ensures Satisfies(model', a) <==> Satisfies(before, a) && FlowAt(input, a, i) {
          SatisfiesAppend(before, entering, a);
          SatisfiesAppend(middle, leaving, a);
          FlowConstraintsSay(input, i, a);
        }
      }
      forall a ensures FlowBelow(input, a, i + 1) <==> FlowBelow(input, a, i) && FlowAt(input, a, i) {}
    }
  }

  /** A used arc increases the position. */
  ghost predicate MtzAt(input: Input, a: Assignment, from: nat, to: nat) {
    HasArc(input, from, to) ==>
      Val(a, Order(from)) - Val(a, Order(to)) + input.Count() * Val(a, Arc(from, to)) <= input.Count() - 1
  }

  ghost predicate Mtz(input: Input, a: Assignment) {
    forall i: nat, j: nat | i < input.Count() && j < input.Count() :: MtzAt(input, a, i, j)
  }

  function MtzConstraint(input: Input, from: nat, to: nat): Constraint {
    Constraint(Le, input.Count() - 1, [Term(1, Order(from)), Term(-1, Order(to)), Term(input.Count(), Arc(from, to))])
  }

  lemma MtzConstraintSays(input: Input, a: Assignment, from: nat, to: nat)
    requires HasArc(input, from, to)
    ensures Holds(MtzConstraint(input, from, to), a) <==> MtzAt(input, a, from, to)
  {
    DotThree(Term(1, Order(from)), Term(-1, Order(to)), Term(input.Count(), Arc(from, to)), a);
  }

  /** The pairs before (from, to) in row-major order. */
  predicate Before(i: nat, j: nat, from: nat, to: nat) { i < from || (i == from && j < to) }

  ghost predicate MtzBefore(input: Input, a: Assignment, from: nat, to: nat) {
    forall i: nat, j: nat | i < input.Count() && j < input.Count() && Before(i, j, from, to) :: MtzAt(input, a, i, j)
  }

  method AddSubtourConstraints(input: Input, model: seq<Constraint>) returns (model': seq<Constraint>)
    ensures forall a :: Satisfies(model', a) <==> Satisfies(model, a) && Mtz(input, a)
  {
    var n := input.Count();
    model' := model;
    for from := 0 to n
      invariant forall a :: Satisfies(model', a) <==> Satisfies(model, a) && MtzBefore(input, a, from, 0)
    {
      for to := 0 to n
        invariant forall a :: Satisfies(model', a) <==> Satisfies(model, a) && MtzBefore(input, a, from, to)
      {
        if HasArc(input, from, to) {
          ghost var before := model';
          model' := model' + [MtzConstraint(input, from, to)];
          forall a ensures Satisfies(model', a) <==> Satisfies(before, a) && MtzAt(input, a, from, to) {
            SatisfiesAppend(before, MtzConstraint(input, from, to), a);
            MtzConstraintSays(input, a, from, to);
          }
        }
      }
    }
  }

  function WindowM(location: Location): int { MINUTES_PER_DAY + location.stay }

  /** A visited location is served inside its window. */
  ghost predicate WindowAt(input: Input, a: Assignment, i: nat)
    requires i < input.Count()
  {
    var location := input.problem.locations[i];
    && Val(a, Service(i)) - WindowM(location) * Val(a, Y(i)) >= location.window.open - WindowM(location)
    && Val(a, Service(i)) + WindowM(location) * Val(a, Y(i)) <= location.window.close + WindowM(location) - location.stay
  }

  ghost predicate StartChosen(input: Input, a: Assignment) {
    && (if input.problem.startPolicy == Latest then a.selected >= input.problem.startTime
        else a.selected == input.problem.startTime)
    && Val(a, Service(0)) - a.selected >= 0
  }

  /** A used arc leaves time for the stay and the travel. */
  ghost predicate LegAt(input: Input, a: Assignment, from: nat, to: nat) {
    HasArc(input, from, to) ==>
      var gap := input.problem.locations[from].stay + input.matrix.Travel(from, to).value;
      Val(a, Service(to)) - Val(a, Service(from)) - (MINUTES_PER_DAY + gap) * Val(a, Arc(from, to))
        >= gap - (MINUTES_PER_DAY + gap)
  }

  ghost predicate Legs(input: Input, a: Assignment) {
    forall i: nat, j: nat | i < input.Count() && j < input.Count() :: LegAt(input, a, i, j)
  }

  ghost predicate LegBefore(input: Input, a: Assignment, from: nat, to: nat) {
    forall i: nat, j: nat | i < input.Count() && j < input.Count() && Before(i, j, from, to) :: LegAt(input, a, i, j)
  }

  ghost predicate Timed(input: Input, a: Assignment) {
    && (forall i: nat | i < input.Count() :: WindowAt(input, a, i))
    && StartChosen(input, a)
    && Legs(input, a)
  }

  function LegConstraint(input: Input, from: nat, to: nat): Constraint
    requires HasArc(input, from, to)
  {
    var gap := input.problem.locations[from].stay + input.matrix.Travel(from, to).value;
    Constraint(Ge, gap - (MINUTES_PER_DAY + gap),
      [Term(1, Service(to)), Term(-1, Service(from)), Term(-(MINUTES_PER_DAY + gap), Arc(from, to))])
  }

  lemma LegConstraintSays(input: Input, a: Assignment, from: nat, to: nat)
    requires HasArc(input, from, to)
    ensures Holds(LegConstraint(input, from, to), a) <==> LegAt(input, a, from, to)
  {
    var gap := input.problem.locations[from].stay + input.matrix.Travel(from, to).value;
    DotThree(Term(1, Service(to)), Term(-1, Service(from)), Term(-(MINUTES_PER_DAY + gap), Arc(from, to)), a);
  }

  function OpenConstraint(location: Location, i: nat): Constraint {
    Constraint(Ge, location.window.open - WindowM(location), [Term(1, Service(i)), Term(-WindowM(location), Y(i))])
  }

  function CloseConstraint(location: Location, i: nat): Constraint {
    Constraint(Le, location.window.close + WindowM(location) - location.stay,
      [Term(1, Service(i)), Term(WindowM(location), Y(i))])
  }

  lemma WindowConstraintsSay(input: Input, a: Assignment, i: nat)
    requires i < input.Count()
    ensures var location := input.problem.locations[i];
      Holds(OpenConstraint(location, i), a) && Holds(CloseConstraint(location, i), a) <==> WindowAt(input, a, i)
  {
    var location := input.problem.locations[i];
    DotTwo(Term(1, Service(i)), Term(-WindowM(location), Y(i)), a);
    DotTwo(Term(1, Service(i)), Term(WindowM(location), Y(i)), a);
  }

  method AddWindowConstraints(input: Input, model: seq<Constraint>) returns (model': seq<Constraint>)
    ensures forall a :: Satisfies(model', a) <==>
      Satisfies(model, a) && forall i: nat | i < input.Count() :: WindowAt(input, a, i)
  {
    model' := model;
    for i := 0 to input.Count()
      invariant forall a :: Satisfies(model', a) <==> Satisfies(model, a) && forall k: nat | k < i :: WindowAt(input, a, k)
    {
      var location := input.problem.locations[i];
      ghost var before := model';
      model' := model' + [OpenConstraint(location, i)];
      ghost var middle := model';
      model' := model' + [CloseConstraint(location, i)];
      forall a ensures Satisfies(model', a) <==> Satisfies(before, a) && WindowAt(input, a, i) {
        SatisfiesAppend(before, OpenConstraint(location, i), a);
        SatisfiesAppend(middle, CloseConstraint(location, i), a);
        WindowConstraintsSay(input, a, i);
      }
    }
  }

  method AddLegConstraints(input: Input, model: seq<Constraint>) returns (model': seq<Constraint>)
    ensures forall a :: Satisfies(model', a) <==> Satisfies(model, a) && Legs(input, a)
  {
    var n := input.Count();
    model' := model;
    for from := 0 to n
      invariant forall a :: Satisfies(model', a) <==> Satisfies(model, a) && LegBefore(input, a, from, 0)
    {
      for to := 0 to n
        invariant forall a :: Satisfies(model', a) <==> Satisfies(model, a) && LegBefore(input, a, from, to)
      {
        if HasArc(input, from, to) {
          ghost var before := model';
          model' := model' + [LegConstraint(input, from, to)];
          forall a ensures Satisfies(model', a) <==> Satisfies(before, a) && LegAt(input, a, from, to) {
            SatisfiesAppend(before, LegConstraint(input, from, to), a);
            LegConstraintSays(input, a, from, to);
          }
        }
      }
    }
  }

  method AddTimeConstraints(input: Input, model: seq<Constraint>) returns (model': seq<Constraint>)
    ensures forall a :: Satisfies(model', a) <==> Satisfies(model, a) && Timed(input, a)
  {
    model' := AddWindowConstraints(input, model);
    ghost var windows := model';
    var requested := Constraint(if input.problem.startPolicy == Latest then Ge else Eq, input.problem.startTime,
                                [Term(1, SelectedStart)]);
    var served := Constraint(Ge, 0, [Term(1, Service(0)), Term(-1, SelectedStart)]);
    model' := model' + [requested];
    ghost var middle := model';
    model' := model' + [served];
    forall a ensures Satisfies(model', a) <==> Satisfies(windows, a) && StartChosen(input, a) {
      SatisfiesAppend(windows, requested, a);
      SatisfiesAppend(middle, served, a);
      DotOne(Term(1, SelectedStart), a);
      DotTwo(Term(1, Service(0)), Term(-1, SelectedStart), a);
    }
    model' := AddLegConstraints(input, model');
  }

  datatype Phase = Coverage | Priority | LatestStart | Finish | Travel | Wait {
    predicate Maximize() { Coverage? || Priority? || LatestStart? }
  }

  /** The objective values already proved, to be kept by later phases. */
  datatype FixedObjectives = FixedObjectives(
    coverage: Option<int>, priority: Option<int>, start: Option<int>, finish: Option<int>, travel: Option<int>)

  function OptionalTerms(locations: seq<Location>, weigh: bool): seq<Term> {
    if |locations| == 0 then []
    else
      var k, location := |locations| - 1, locations[|locations| - 1];
      OptionalTerms(locations[..k], weigh) +
      (if location.required then [] else [Term(if weigh then location.priority else 1, Y(k))])
  }

  /** All arcs out of locations below `k`, weighted by travel minutes times `sign`. */
  function RowTravelTerms(input: Input, from: nat, k: nat, sign: int): seq<Term> {
    if k == 0 then []
    else
      RowTravelTerms(input, from, k - 1, sign) +
      (if HasArc(input, from, k - 1) then [Term(sign * input.matrix.Travel(from, k - 1).value, Arc(from, k - 1))] else [])
  }

  function TravelTerms(input: Input, k: nat, sign: int): seq<Term> {
    if k == 0 then [] else TravelTerms(input, k - 1, sign) + RowTravelTerms(input, k - 1, input.Count(), sign)
  }

  function StayTerms(locations: seq<Location>): seq<Term> {
    if |locations| == 0 then []
    else StayTerms(locations[..|locations| - 1]) + [Term(0 - locations[|locations| - 1].stay, Y(|locations| - 1))]
  }

  function OptionalSum(locations: seq<Location>, weigh: bool, a: Assignment): int {
    if |locations| == 0 then 0
    else
      var k, location := |locations| - 1, locations[|locations| - 1];
      OptionalSum(locations[..k], weigh, a) +
      (if location.required then 0 else (if weigh then location.priority else 1) * Val(a, Y(k)))
  }

  function StaySum(locations: seq<Location>, a: Assignment): int {
    if |locations| == 0 then 0
    else StaySum(locations[..|locations| - 1], a) + Val(a, Y(|locations| - 1)) * locations[|locations| - 1].stay
  }

  function RowTravel(input: Input, a: Assignment, from: nat, k: nat): int {
    if k == 0 then 0
    else
      RowTravel(input, a, from, k - 1) +
      (if HasArc(input, from, k - 1) then Val(a, Arc(from, k - 1)) * input.matrix.Travel(from, k - 1).value else 0)
  }

  function TotalTravel(input: Input, a: Assignment, k: nat): int {
    if k == 0 then 0 else TotalTravel(input, a, k - 1) + RowTravel(input, a, k - 1, input.Count())
  }

  /** The value a phase reports for an assignment. */
  function PhaseValue(input: Input, phase: Phase, a: Assignment): int
    requires 2 <= input.Count()
  {
    var end := input.problem.End();
    var finish := Val(a, Service(end)) + input.problem.locations[end].stay;
    match phase
    case Coverage => OptionalSum(input.problem.locations, false, a)
    case Priority => OptionalSum(input.problem.locations, true, a)
    case LatestStart => a.selected
    case Finish => finish
    case Travel => TotalTravel(input, a, input.Count())
    case Wait => finish - a.selected - StaySum(input.problem.locations, a) - TotalTravel(input, a, input.Count())
  }

  /** The objective coefficients attached to the variables in a phase. */
  function ObjectiveTerms(input: Input, phase: Phase): seq<Term>
    requires 2 <= input.Count()
  {
    match phase
    case Coverage => OptionalTerms(input.problem.locations, false)
    case Priority => OptionalTerms(input.problem.locations, true)
    case LatestStart => [Term(1, SelectedStart)]
    case Finish => [Term(1, Service(input.problem.End()))]
    case Travel => TravelTerms(input, input.Count(), 1)
    case Wait =>
      StayTerms(input.problem.locations) + [Term(1, Service(input.problem.End())), Term(-1, SelectedStart)]
      + TravelTerms(input, input.Count(), -1)
  }

  lemma {:induction false} OptionalTermsSum(locations: seq<Location>, weigh: bool, a: Assignment)
    ensures Dot(OptionalTerms(locations, weigh), a) == OptionalSum(locations, weigh, a)
  {
    if |locations| > 0 {
      var k, location := |locations| - 1, locations[|locations| - 1];
      OptionalTermsSum(locations[..k], weigh, a);
      if location.required {
        assert OptionalTerms(locations, weigh) == OptionalTerms(locations[..k], weigh);
      } else {
        var last := Term(if weigh then location.priority else 1, Y(k));
        DotConcat(OptionalTerms(locations[..k], weigh), [last], a);
        DotOne(last, a);
      }
    }
  }

  lemma {:induction false} StayTermsSum(locations: seq<Location>, a: Assignment)
    ensures Dot(StayTerms(locations), a) == -StaySum(locations, a)
  {
    if |locations| > 0 {
      var k := |locations| - 1;
      StayTermsSum(locations[..k], a);
      DotConcat(StayTerms(locations[..k]), [Term(0 - locations[k].stay, Y(k))], a);
      DotOne(Term(0 - locations[k].stay, Y(k)), a);
    }
  }

  lemma Signed(sign: int, minutes: int, flag: int, rest: int)
    requires sign == 1 || sign == -1
    ensures (sign * minutes) * flag + sign * rest == sign * (rest + flag * minutes)
  {
  }

  lemma {:induction false} RowTravelTermsSum(input: Input, a: Assignment, from: nat, k: nat, sign: int)
    requires sign == 1 || sign == -1
    ensures Dot(RowTravelTerms(input, from, k, sign), a) == sign * RowTravel(input, a, from, k)
  {
    if k > 0 {
      RowTravelTermsSum(input, a, from, k - 1, sign);
      if HasArc(input, from, k - 1) {
        var last := Term(sign * input.matrix.Travel(from, k - 1).value, Arc(from, k - 1));
        DotConcat(RowTravelTerms(input, from, k - 1, sign), [last], a);
        DotOne(last, a);
        Signed(sign, input.matrix.Travel(from, k - 1).value, Val(a, Arc(from, k - 1)), RowTravel(input, a, from, k - 1));
      } else {
        assert RowTravelTerms(input, from, k, sign) == RowTravelTerms(input, from, k - 1, sign);
      }
    }
  }

  lemma Spread(sign: int, x: int, y: int)
    ensures sign * (x + y) == sign * x + sign * y
  {
  }

  lemma {:induction false} TravelTermsSum(input: Input, a: Assignment, k: nat, sign: int)
    requires sign == 1 || sign == -1
    ensures Dot(TravelTerms(input, k, sign), a) == sign * TotalTravel(input, a, k)
  {
    if k > 0 {
      TravelTermsSum(input, a, k - 1, sign);
      RowTravelTermsSum(input, a, k - 1, input.Count(), sign);
      DotConcat(TravelTerms(input, k - 1, sign), RowTravelTerms(input, k - 1, input.Count(), sign), a);
      Spread(sign, TotalTravel(input, a, k - 1), RowTravel(input, a, k - 1, input.Count()));
    }
  }

  /** The optimized objective differs from the reported value by a constant. */
  lemma ObjectiveIsPhaseValue(input: Input, phase: Phase, a: Assignment)
    requires 2 <= input.Count()
    ensures PhaseValue(input, phase, a) == Dot(ObjectiveTerms(input, phase), a) +
      (if phase.Finish? || phase.Wait? then input.problem.locations[input.problem.End()].stay else 0)
  {
    var locations, n, end := input.problem.locations, input.Count(), input.problem.End();
    match phase
    case Coverage => OptionalTermsSum(locations, false, a);
    case Priority => OptionalTermsSum(locations, true, a);
    case LatestStart => DotOne(Term(1, SelectedStart), a);
    case Finish => DotOne(Term(1, Service(end)), a);
    case Travel => TravelTermsSum(input, a, n, 1);
    case Wait =>
      var pair := [Term(1, Service(end)), Term(-1, SelectedStart)];
      StayTermsSum(locations, a);
      TravelTermsSum(input, a, n, -1);
      DotTwo(pair[0], pair[1], a);
      DotConcat(StayTerms(locations), pair, a);
      DotConcat(StayTerms(locations) + pair, TravelTerms(input, n, -1), a);
  }

  ghost predicate Agrees(fixed: Option<int>, value: int) {
    fixed.Some? ==> fixed.value == value
  }

  /** The assignment keeps every fixed objective value. */
  ghost predicate KeepsFixed(input: Input, fixed: FixedObjectives, a: Assignment)
    requires 2 <= input.Count()
  {
    && Agrees(fixed.coverage, PhaseValue(input, Coverage, a))
    && Agrees(fixed.priority, PhaseValue(input, Priority, a))
    && Agrees(fixed.start, PhaseValue(input, LatestStart, a))
    && Agrees(fixed.finish, PhaseValue(input, Finish, a))
    && Agrees(fixed.travel, PhaseValue(input, Travel, a))
  }

  /** One more fixed objective, as a constraint on its own terms. */
  method AddFixed(model: seq<Constraint>, fixed: Option<int>, shift: int, terms: seq<Term>) returns (model': seq<Constraint>)
    ensures forall a :: Satisfies(model', a) <==> Satisfies(model, a) && Agrees(fixed, Dot(terms, a) + shift)
  {
    model' := model;
    if fixed.Some? {
      var c := Constraint(Eq, fixed.value - shift, terms);
      model' := model + [c];
      forall a ensures Satisfies(model', a) <==> Satisfies(model, a) && Holds(c, a) { SatisfiesAppend(model, c, a); }
    }
  }

  method AddFixedObjectiveConstraints(input: Input, model: seq<Constraint>, fixed: FixedObjectives) returns (model': seq<Constraint>)
    requires 2 <= input.Count()
    ensures forall a :: Satisfies(model', a) <==> Satisfies(model, a) && KeepsFixed(input, fixed, a)
  {
    var stay := input.problem.locations[input.problem.End()].stay;
    model' := AddFixed(model, fixed.coverage, 0, ObjectiveTerms(input, Coverage));
    model' := AddFixed(model', fixed.priority, 0, ObjectiveTerms(input, Priority));
    model' := AddFixed(model', fixed.start, 0, ObjectiveTerms(input, LatestStart));
    model' := AddFixed(model', fixed.finish, stay, ObjectiveTerms(input, Finish));
    model' := AddFixed(model', fixed.travel, 0, ObjectiveTerms(input, Travel));
    forall a, phase: Phase ensures PhaseValue(input, phase, a) == Dot(ObjectiveTerms(input, phase), a) +
      (if phase.Finish? || phase.Wait? then stay else 0)
    {
      ObjectiveIsPhaseValue(input, phase, a);
    }
  }

  /** What the constraints of the routing model say, objectives aside. */
  ghost predicate Model(input: Input, a: Assignment) {
    Bounded(input, a) && Flow(input, a) && Mtz(input, a) && Timed(input, a)
  }

  /** The constraints of one phase: a bounded assignment satisfies them exactly when
      it balances the flow, orders the arcs, keeps the times and the fixed values. */
  method BuildModel(input: Input, fixed: FixedObjectives) returns (model: seq<Constraint>)
    requires 2 <= input.Count()
    ensures forall a | Bounded(input, a) :: Satisfies(model, a) <==> Model(input, a) && KeepsFixed(input, fixed, a)
  {
    model := AddFlowConstraints(input, []);
    model := AddSubtourConstraints(input, model);
    model := AddTimeConstraints(input, model);
    model := AddFixedObjectiveConstraints(input, model, fixed);
  }
}
