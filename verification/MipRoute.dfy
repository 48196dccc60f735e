/** The routes behind an assignment of the mixed-integer model: every satisfying
    assignment carries one walkable valid order, and every walkable valid order
    has a satisfying assignment. */
module MipRoute {
  import opened Domain
  import opened Sequences
  import opened Simulation
  import opened Objective
  import opened Evaluator
  import opened MipModel

  ghost predicate Ready(input: Input) {
    input.Valid() && input.Matched() && 2 <= input.Count()
  }

  predicate Used(input: Input, a: Assignment, i: nat, j: nat) {
    HasArc(input, i, j) && Val(a, Arc(i, j)) >= 1
  }

  /** A used arc moves to a later position and leaves time for stay and travel. */
  lemma UsedArcSays(input: Input, a: Assignment, i: nat, j: nat)
    requires Model(input, a) && Used(input, a, i, j)
    ensures a.arcs[i][j] == 1 && a.order[i] + 1 <= a.order[j]
    ensures a.service[i] + input.problem.locations[i].stay + input.matrix.Travel(i, j).value <= a.service[j]
  {
    assert MtzAt(input, a, i, j) && LegAt(input, a, i, j);
  }

  lemma VisitedSays(input: Input, a: Assignment, i: nat)
    requires Model(input, a) && i < input.Count() && a.y[i] == 1
    ensures input.problem.locations[i].window.open <= a.service[i]
    ensures a.service[i] + input.problem.locations[i].stay <= input.problem.locations[i].window.close
  {
    assert WindowAt(input, a, i);
  }

  lemma {:induction false} OutWitness(input: Input, a: Assignment, i: nat, k: nat) returns (j: nat)
    requires OutSum(input, a, i, k) >= 1
    ensures j < k && Used(input, a, i, j)
  {
    if ArcValue(input, a, i, k - 1) >= 1 {
      j := k - 1;
    } else {
      j := OutWitness(input, a, i, k - 1);
    }
  }

  lemma {:induction false} SumsAreNonNegative(input: Input, a: Assignment, i: nat, k: nat)
    requires Bounded(input, a)
    ensures 0 <= OutSum(input, a, i, k) && 0 <= InSum(input, a, i, k)
  {
    if k > 0 {
      SumsAreNonNegative(input, a, i, k - 1);
    }
  }

  lemma {:induction false} UsedArcEnters(input: Input, a: Assignment, i: nat, j: nat, k: nat)
    requires Bounded(input, a) && Used(input, a, i, j) && i < k
    ensures InSum(input, a, j, k) >= 1
  {
    SumsAreNonNegative(input, a, j, k - 1);
    if i < k - 1 {
      UsedArcEnters(input, a, i, j, k - 1);
    }
  }

  lemma {:induction false} TwoArcsEnter(input: Input, a: Assignment, i: nat, i': nat, j: nat, k: nat)
    requires Bounded(input, a) && Used(input, a, i, j) && Used(input, a, i', j) && i < i' < k
    ensures InSum(input, a, j, k) >= 2
  {
    SumsAreNonNegative(input, a, j, k - 1);
    if i' < k - 1 {
      TwoArcsEnter(input, a, i, i', j, k - 1);
    } else {
      UsedArcEnters(input, a, i, j, k - 1);
    }
  }

  lemma {:induction false} UsedArcLeaves(input: Input, a: Assignment, i: nat, j: nat, k: nat)
    requires Bounded(input, a) && Used(input, a, i, j) && j < k
    ensures OutSum(input, a, i, k) >= 1
  {
    SumsAreNonNegative(input, a, i, k - 1);
    if j < k - 1 {
      UsedArcLeaves(input, a, i, j, k - 1);
    }
  }

  lemma {:induction false} TwoArcsLeave(input: Input, a: Assignment, i: nat, j: nat, j': nat, k: nat)
    requires Bounded(input, a) && Used(input, a, i, j) && Used(input, a, i, j') && j < j' < k
    ensures OutSum(input, a, i, k) >= 2
  {
    SumsAreNonNegative(input, a, i, k - 1);
    if j' < k - 1 {
      TwoArcsLeave(input, a, i, j, j', k - 1);
    } else {
      UsedArcLeaves(input, a, i, j, k - 1);
    }
  }

  /** At most one used arc enters, and at most one leaves, each location; what is
      entered or left is visited. */
  lemma OneArcEnters(input: Input, a: Assignment, i: nat, i': nat, j: nat)
    requires Ready(input) && Model(input, a) && Used(input, a, i, j)
    ensures a.y[j] == 1
    ensures Used(input, a, i', j) ==> i == i'
  {
    assert FlowAt(input, a, j);
    UsedArcEnters(input, a, i, j, input.Count());
    if Used(input, a, i', j) && i != i' {
      TwoArcsEnter(input, a, if i < i' then i else i', if i < i' then i' else i, j, input.Count());
    }
  }

  lemma OneArcLeaves(input: Input, a: Assignment, i: nat, j: nat, j': nat)
    requires Ready(input) && Model(input, a) && Used(input, a, i, j) && Used(input, a, i, j')
    ensures j == j'
  {
    assert FlowAt(input, a, i);
    if j != j' {
      TwoArcsLeave(input, a, i, if j < j' then j else j', if j < j' then j' else j, input.Count());
    }
  }

  lemma VisitedIsLeft(input: Input, a: Assignment, i: nat) returns (j: nat)
    requires Ready(input) && Model(input, a)
    requires i < input.Count() && i != input.problem.End() && (i == 0 || a.y[i] == 1)
    ensures Used(input, a, i, j)
  {
    assert FlowAt(input, a, i);
    j := OutWitness(input, a, i, input.Count());
  }

  /** The arc out of position `k` of a chain is used. */
  predicate Link(input: Input, a: Assignment, q: seq<nat>, k: nat)
    requires k + 1 < |q|
  {
    Used(input, a, q[k], q[k + 1])
  }

  /** A sequence of used arcs out of the start that has not passed the end. */
  ghost predicate Chain(input: Input, a: Assignment, q: seq<nat>) {
    FromStart(input, q) && (forall k: nat | k + 1 < |q| :: Link(input, a, q, k))
  }

  lemma {:induction false} ChainClimbs(input: Input, a: Assignment, q: seq<nat>, i: nat, k: nat)
    requires Model(input, a) && Chain(input, a, q) && i <= k < |q|
    ensures a.order[q[i]] + (k - i) <= a.order[q[k]]
  {
    if i < k {
      ChainClimbs(input, a, q, i, k - 1);
      assert Link(input, a, q, k - 1);
      UsedArcSays(input, a, q[k - 1], q[k]);
    }
  }

  /** Positions only grow along a chain, so it never returns. */
  lemma ChainNeverReturns(input: Input, a: Assignment, q: seq<nat>)
    requires Model(input, a) && Chain(input, a, q)
    ensures Distinct(q) && |q| <= input.Count()
  {
    forall i, k | 0 <= i < k < |q| ensures q[i] != q[k] { ChainClimbs(input, a, q, i, k); }
    DistinctInRange(q, input.Count());
  }

  lemma ChainIsVisited(input: Input, a: Assignment, q: seq<nat>, k: nat)
    requires Ready(input) && Model(input, a) && Chain(input, a, q) && k < |q|
    ensures a.y[q[k]] == 1
  {
    if k > 0 {
      assert Link(input, a, q, k - 1);
      OneArcEnters(input, a, q[k - 1], q[k - 1], q[k]);
    }
  }

  /** No stray subtour: a visited location off the chain would be followed by
      another one off the chain at a later position, forever. */
  lemma {:induction false} NoStray(input: Input, a: Assignment, q: seq<nat>, v: nat)
    requires Ready(input) && Model(input, a) && Chain(input, a, q) && q[|q| - 1] == input.problem.End()
    requires v < input.Count() && a.y[v] == 1
    ensures v in q
    decreases input.Count() - a.order[v]
  {
    if v !in q {
      var w := VisitedIsLeft(input, a, v);
      UsedArcSays(input, a, v, w);
      OneArcEnters(input, a, v, v, w);
      NoStray(input, a, q, w);
      var k :| 0 <= k < |q| && q[k] == w;
      assert Link(input, a, q, k - 1);
      OneArcEnters(input, a, v, q[k - 1], w);
      assert false;
    }
  }

  /** The route carried by an assignment: its used arcs from start to end, through
      exactly the visited locations. */
  ghost predicate RouteOf(input: Input, a: Assignment, q: seq<nat>) {
    && Bounded(input, a) && Chain(input, a, q) && Distinct(q) && q[|q| - 1] == input.problem.End()
    && (forall v: nat | v < input.Count() :: v in q <==> a.y[v] == 1)
  }

  lemma CompleteChainIsRoute(input: Input, a: Assignment, q: seq<nat>)
    requires Ready(input) && Model(input, a) && Chain(input, a, q) && q[|q| - 1] == input.problem.End()
    ensures RouteOf(input, a, q)
  {
    ChainNeverReturns(input, a, q);
    forall v: nat | v < input.Count() ensures v in q <==> a.y[v] == 1 {
      if a.y[v] == 1 { NoStray(input, a, q, v); }
      if v in q {
        var k :| 0 <= k < |q| && q[k] == v;
        ChainIsVisited(input, a, q, k);
      }
    }
  }

  /** The first used arc out of a location. */
  method FirstUsed(input: Input, a: Assignment, i: nat) returns (r: Option<nat>)
    ensures r.Some? ==> Used(input, a, i, r.value)
    ensures r.None? ==> forall j: nat :: !Used(input, a, i, j)
  {
    for j := 0 to input.Count()
      invariant forall k: nat | k < j :: !Used(input, a, i, k)
    {
      if Used(input, a, i, j) {
        return Some(j);
      }
    }
    r := None;
  }

  /** Follow the used arcs from the start. On a satisfying assignment this always
      reaches the end and visits exactly the locations flagged as visited. */
  method ExtractRoute(input: Input, a: Assignment) returns (r: Result<seq<nat>, SolverError>)
    requires Ready(input)
    ensures Model(input, a) ==> r.Ok? && RouteOf(input, a, r.value)
    ensures r.Ok? ==> Chain(input, a, r.value) && Distinct(r.value) && r.value[|r.value| - 1] == input.problem.End()
    ensures r.Err? ==> r.error.Failed?
  {
    var route, current: nat := [0], 0;
    while current != input.problem.End()
      invariant |route| > 0 && current == route[|route| - 1]
      invariant Chain(input, a, route) && Distinct(route)
      decreases input.Count() + 2 - |route|
    {
      var next := FirstUsed(input, a, current);
      if Model(input, a) { StepContinues(input, a, route, current); }
      if next.None? {
        return Err(Failed("incumbent has no outgoing route arc"));
      }
      if next.value in route || |route| > input.Count() {
        return Err(Failed("incumbent contains a cycle after MTZ validation"));
      }
      forall k: nat | k + 1 < |route + [next.value]| ensures Link(input, a, route + [next.value], k) {
        if k + 1 < |route| { assert Link(input, a, route, k); }
      }
      route := route + [next.value];
      current := next.value;
    }
    if Model(input, a) { CompleteChainIsRoute(input, a, route); }
    r := Ok(route);
  }

  lemma StepContinues(input: Input, a: Assignment, q: seq<nat>, last: nat)
    requires Ready(input) && Model(input, a) && Chain(input, a, q)
    requires last == q[|q| - 1] && last != input.problem.End()
    ensures exists j: nat :: Used(input, a, last, j)
    ensures forall j: nat | Used(input, a, last, j) :: j !in q
    ensures |q| <= input.Count()
  {
    ChainNeverReturns(input, a, q);
    ChainIsVisited(input, a, q, |q| - 1);
    var next := VisitedIsLeft(input, a, last);
    forall j: nat | Used(input, a, last, j) ensures j !in q {
      UsedArcSays(input, a, last, j);
      if j in q {
        var k :| 0 <= k < |q| && q[k] == j;
        ChainClimbs(input, a, q, k, |q| - 1);
      }
    }
  }

  /** The extracted route is a valid order. */
  lemma RouteIsValidOrder(input: Input, a: Assignment, q: seq<nat>)
    requires Ready(input) && RouteOf(input, a, q)
    ensures ValidOrder(input.problem, q)
  {
    DistinctInRange(q, input.Count());
  }

  /** Walking the route from the selected start never runs behind the assigned times. */
  lemma {:induction false} WalkKeepsPace(input: Input, a: Assignment, q: seq<nat>, k: nat)
    requires Ready(input) && Model(input, a) && Chain(input, a, q) && 1 <= k <= |q|
    ensures WalkTo(input, a.selected, q, k).Some?
    ensures WalkTo(input, a.selected, q, k).value.time <= a.service[q[k - 1]] + input.problem.locations[q[k - 1]].stay
  {
    ChainIsVisited(input, a, q, k - 1);
    VisitedSays(input, a, q[k - 1]);
    if k == 1 {
      WalkToEnd(input, a.selected, q);
    } else {
      WalkKeepsPace(input, a, q, k - 1);
      WalkToNext(input, a.selected, q, k - 1);
      assert Link(input, a, q, k - 2);
      UsedArcSays(input, a, q[k - 2], q[k - 1]);
    }
  }

  /** Soundness: the route of a satisfying assignment is feasible from the selected
      start and finishes no later than the assigned finish. */
  lemma AssignmentWalks(input: Input, a: Assignment, q: seq<nat>)
    requires Ready(input) && Model(input, a) && RouteOf(input, a, q)
    ensures Feasible(input, q, a.selected)
    ensures Walk(input, a.selected, q).value.time <= PhaseValue(input, Finish, a)
  {
    RouteIsValidOrder(input, a, q);
    WalkKeepsPace(input, a, q, |q|);
    WalkToEnd(input, a.selected, q);
  }

  function Position(q: seq<nat>, x: nat): (k: nat)
    requires x in q
    ensures k < |q| && q[k] == x
  {
    if q[0] == x then 0 else 1 + Position(q[1..], x)
  }

  /** When service at stop `k` of a walkable order begins. */
  function Begin(input: Input, start: nat, q: seq<nat>, k: nat): int
    requires FromStart(input, q) && k < |q|
  {
    match WalkTo(input, start, q, k + 1)
    case None => 0
    case Some(clock) => clock.time - input.problem.locations[q[k]].stay
  }

  predicate Follows(q: seq<nat>, i: nat, j: nat) {
    i in q && j in q && Position(q, j) == Position(q, i) + 1
  }

  function Flags(q: seq<nat>, n: nat): (r: seq<int>)
    ensures |r| == n && forall i | 0 <= i < n :: r[i] == if i in q then 1 else 0
  {
    seq(n, i requires 0 <= i < n => if i in q then 1 else 0)
  }

  function Positions(q: seq<nat>, n: nat): (r: seq<int>)
    ensures |r| == n && forall i | 0 <= i < n :: r[i] == if i in q then Position(q, i) else 0
  {
    seq(n, i requires 0 <= i < n => if i in q then Position(q, i) else 0)
  }

  function Begins(input: Input, start: nat, q: seq<nat>): (r: seq<int>)
    requires FromStart(input, q)
    ensures |r| == input.Count()
    ensures forall i | 0 <= i < |r| :: r[i] == if i in q then Begin(input, start, q, Position(q, i)) else 0
  {
    seq(input.Count(), i requires 0 <= i < input.Count() =>
      if i in q then Begin(input, start, q, Position(q, i)) else 0)
  }

  function ArcRow(q: seq<nat>, i: nat, n: nat): (r: seq<int>)
    ensures |r| == n && forall j | 0 <= j < n :: r[j] == if Follows(q, i, j) then 1 else 0
  {
    seq(n, j requires 0 <= j < n => if Follows(q, i, j) then 1 else 0)
  }

  /** The assignment that describes an order walked from a start minute. */
  function Describe(input: Input, start: nat, q: seq<nat>): (a: Assignment)
    requires FromStart(input, q)
    ensures Describes(input, start, q, a)
  {
    var n := input.Count();
    Assignment(Flags(q, n), Begins(input, start, q), start, Positions(q, n),
               seq(n, i requires 0 <= i < n => ArcRow(q, i, n)))
  }

  /** `a` describes the walk: flags, positions, service begins and arcs of the order. */
  ghost predicate Describes(input: Input, start: nat, q: seq<nat>, a: Assignment)
    requires FromStart(input, q)
  {
    var n := input.Count();
    && |a.y| == |a.service| == |a.order| == |a.arcs| == n && a.selected == start
    && (forall i | 0 <= i < n :: |a.arcs[i]| == n)
    && (forall i | 0 <= i < n :: a.y[i] == if i in q then 1 else 0)
    && (forall i | 0 <= i < n :: a.service[i] == if i in q then Begin(input, start, q, Position(q, i)) else 0)
    && (forall i | 0 <= i < n :: a.order[i] == if i in q then Position(q, i) else 0)
    && (forall i, j | 0 <= i < n && 0 <= j < n :: a.arcs[i][j] == if Follows(q, i, j) then 1 else 0)
  }

  /** A feasible order together with an assignment that describes it. */
  ghost predicate Described(input: Input, start: nat, q: seq<nat>, a: Assignment) {
    Ready(input) && Feasible(input, q, start) && Describes(input, start, q, a)
  }

  lemma PositionInDistinct(q: seq<nat>, k: nat)
    requires Distinct(q) && k < |q|
    ensures q[k] in q && Position(q, q[k]) == k
  {
  }

  lemma {:induction false} PrefixWalks(input: Input, start: nat, q: seq<nat>, k: nat)
    requires FromStart(input, q) && 1 <= k <= |q| && Walk(input, start, q).Some?
    ensures WalkTo(input, start, q, k).Some?
  {
    if WalkTo(input, start, q, k).None? {
      BrokenPrefix(input, start, q, k);
    }
  }

  /** Service begins inside the window and after the start minute. */
  lemma BeginSays(input: Input, start: nat, q: seq<nat>, k: nat)
    requires FromStart(input, q) && k < |q| && Walk(input, start, q).Some?
    ensures var location := input.problem.locations[q[k]];
      location.window.open <= Begin(input, start, q, k) && Begin(input, start, q, k) + location.stay <= location.window.close
    ensures k == 0 ==> start <= Begin(input, start, q, k)
  {
    PrefixWalks(input, start, q, k + 1);
    WalkToEnd(input, start, q);
    if k > 0 {
      PrefixWalks(input, start, q, k);
      WalkToNext(input, start, q, k);
    }
  }

  /** Service begins after the previous stop's stay and travel. */
  lemma BeginAfterPrevious(input: Input, start: nat, q: seq<nat>, k: nat)
    requires FromStart(input, q) && 1 <= k < |q| && Walk(input, start, q).Some?
    ensures input.matrix.Travel(q[k - 1], q[k]).Some?
    ensures Begin(input, start, q, k - 1) + input.problem.locations[q[k - 1]].stay
      + input.matrix.Travel(q[k - 1], q[k]).value <= Begin(input, start, q, k)
  {
    PrefixWalks(input, start, q, k + 1);
    PrefixWalks(input, start, q, k);
    WalkToNext(input, start, q, k);
  }

  lemma FollowersHaveArcs(input: Input, start: nat, q: seq<nat>, i: nat, j: nat)
    requires Feasible(input, q, start) && Follows(q, i, j)
    ensures HasArc(input, i, j)
  {
    BeginAfterPrevious(input, start, q, Position(q, j));
  }

  lemma DescribedArcs(input: Input, start: nat, q: seq<nat>, a: Assignment, i: nat, j: nat)
    requires Described(input, start, q, a)
    requires i < input.Count() && j < input.Count()
    ensures ArcValue(input, a, i, j) == if Follows(q, i, j) then 1 else 0
    ensures Used(input, a, i, j) <==> Follows(q, i, j)
  {
    if Follows(q, i, j) { FollowersHaveArcs(input, start, q, i, j); }
  }

  lemma {:induction false} OutSumSingle(input: Input, a: Assignment, i: nat, j: nat, k: nat)
    requires forall x: nat | x < k :: ArcValue(input, a, i, x) == if x == j then 1 else 0
    ensures OutSum(input, a, i, k) == if j < k then 1 else 0
  {
    if k > 0 { OutSumSingle(input, a, i, j, k - 1); }
  }

  lemma {:induction false} InSumSingle(input: Input, a: Assignment, i: nat, j: nat, k: nat)
    requires forall x: nat | x < k :: ArcValue(input, a, x, i) == if x == j then 1 else 0
    ensures InSum(input, a, i, k) == if j < k then 1 else 0
  {
    if k > 0 { InSumSingle(input, a, i, j, k - 1); }
  }

  /** The neighbours of a location on an order, or `n` where there is none. */
  function NextOn(q: seq<nat>, i: nat, n: nat): nat {
    if i in q && Position(q, i) + 1 < |q| then q[Position(q, i) + 1] else n
  }

  function PreviousOn(q: seq<nat>, i: nat, n: nat): nat {
    if i in q && Position(q, i) > 0 then q[Position(q, i) - 1] else n
  }

  lemma NeighboursFollow(q: seq<nat>, n: nat, i: nat, x: nat)
    requires Distinct(q) && x < n && forall k | 0 <= k < |q| :: q[k] < n
    ensures Follows(q, i, x) <==> x == NextOn(q, i, n)
    ensures Follows(q, x, i) <==> x == PreviousOn(q, i, n)
  {
    if i in q {
      var k := Position(q, i);
      if k + 1 < |q| { PositionInDistinct(q, k + 1); }
      if k > 0 { PositionInDistinct(q, k - 1); }
    }
  }

  lemma DescribedNeighbours(input: Input, start: nat, q: seq<nat>, a: Assignment, i: nat, x: nat)
    requires Described(input, start, q, a) && i < input.Count() && x < input.Count()
    ensures ArcValue(input, a, i, x) == if x == NextOn(q, i, input.Count()) then 1 else 0
    ensures ArcValue(input, a, x, i) == if x == PreviousOn(q, i, input.Count()) then 1 else 0
  {
    DescribedArcs(input, start, q, a, i, x);
    DescribedArcs(input, start, q, a, x, i);
    NeighboursFollow(q, input.Count(), i, x);
  }

  lemma DescribedFlow(input: Input, start: nat, q: seq<nat>, a: Assignment, i: nat)
    requires Described(input, start, q, a) && i < input.Count()
    ensures FlowAt(input, a, i)
  {
    var n := input.Count();
    forall x: nat | x < n
      ensures ArcValue(input, a, i, x) == if x == NextOn(q, i, n) then 1 else 0
      ensures ArcValue(input, a, x, i) == if x == PreviousOn(q, i, n) then 1 else 0
    {
      DescribedNeighbours(input, start, q, a, i, x);
    }
    OutSumSingle(input, a, i, NextOn(q, i, n), n);
    InSumSingle(input, a, i, PreviousOn(q, i, n), n);
    PositionInDistinct(q, 0);
    PositionInDistinct(q, |q| - 1);
  }

  lemma DescribedBounds(input: Input, start: nat, q: seq<nat>, a: Assignment)
    requires Described(input, start, q, a)
    ensures Bounded(input, a)
  {
    DistinctInRange(q, input.Count());
    PositionInDistinct(q, 0);
    forall i: nat | i < input.Count() ensures 0 <= a.service[i] < MINUTES_PER_DAY {
      if i in q { BeginSays(input, start, q, Position(q, i)); }
    }
  }

  lemma DescribedWindow(input: Input, start: nat, q: seq<nat>, a: Assignment, i: nat)
    requires Described(input, start, q, a) && i < input.Count()
    ensures WindowAt(input, a, i)
  {
    if i in q { BeginSays(input, start, q, Position(q, i)); }
    var window := input.problem.locations[i].window;
    WindowSwitch(a.service[i], a.y[i], WindowM(input.problem.locations[i]), window.open, window.close,
                 input.problem.locations[i].stay);
  }

  /** The window constraint binds visited locations only. */
  lemma WindowSwitch(service: int, flag: int, m: int, open: int, close: int, stay: int)
    requires flag == 0 || (flag == 1 && open <= service && service + stay <= close)
    requires flag == 0 ==> service == 0 && open <= m && stay <= close + m
    ensures service - m * flag >= open - m
    ensures service + m * flag <= close + m - stay
  {
  }

  lemma DescribedMtz(input: Input, start: nat, q: seq<nat>, a: Assignment, i: nat, j: nat)
    requires Described(input, start, q, a) && Bounded(input, a) && i < input.Count() && j < input.Count()
    ensures MtzAt(input, a, i, j)
  {
    var from, to, flag := Val(a, Order(i)), Val(a, Order(j)), Val(a, Arc(i, j));
    assert flag == if Follows(q, i, j) then 1 else 0;
    MtzSwitch(from, to, flag, input.Count());
  }

  /** A position step satisfies the ordering constraint whether or not the arc is used. */
  lemma MtzSwitch(from: int, to: int, flag: int, n: int)
    requires 0 <= from <= n - 1 && 0 <= to <= n - 1
    requires flag == 0 || (flag == 1 && to == from + 1)
    ensures from - to + n * flag <= n - 1
  {
  }

  lemma FollowerWaits(input: Input, start: nat, q: seq<nat>, a: Assignment, i: nat, j: nat)
    requires Described(input, start, q, a) && i < input.Count() && j < input.Count() && Follows(q, i, j)
    ensures input.matrix.Travel(i, j).Some?
    ensures a.service[i] + input.problem.locations[i].stay + input.matrix.Travel(i, j).value <= a.service[j]
  {
    BeginAfterPrevious(input, start, q, Position(q, j));
  }

  lemma DescribedLeg(input: Input, start: nat, q: seq<nat>, a: Assignment, i: nat, j: nat)
    requires Described(input, start, q, a) && Bounded(input, a) && i < input.Count() && j < input.Count()
    ensures LegAt(input, a, i, j)
  {
    var from, to, flag := Val(a, Service(i)), Val(a, Service(j)), Val(a, Arc(i, j));
    assert flag == if Follows(q, i, j) then 1 else 0;
    if Follows(q, i, j) { FollowerWaits(input, start, q, a, i, j); }
    if HasArc(input, i, j) {
      var gap := input.problem.locations[i].stay + input.matrix.Travel(i, j).value;
      BigM(from, to, flag, gap);
    }
  }

  /** The big constant switches the leg constraint off exactly when the arc is unused. */
  lemma BigM(from: int, to: int, flag: int, gap: int)
    requires 0 <= from < MINUTES_PER_DAY && 0 <= to < MINUTES_PER_DAY
    requires flag == 0 || flag == 1
    ensures to - from - (MINUTES_PER_DAY + gap) * flag >= gap - (MINUTES_PER_DAY + gap) <==>
            (flag == 1 ==> from + gap <= to)
  {
  }

  lemma DescribedTimes(input: Input, start: nat, q: seq<nat>, a: Assignment)
    requires Described(input, start, q, a) && Bounded(input, a)
    ensures Mtz(input, a) && Timed(input, a)
  {
    forall i: nat | i < input.Count() ensures WindowAt(input, a, i) { DescribedWindow(input, start, q, a, i); }
    forall i: nat, j: nat | i < input.Count() && j < input.Count() ensures MtzAt(input, a, i, j) && LegAt(input, a, i, j) {
      DescribedMtz(input, start, q, a, i, j);
      DescribedLeg(input, start, q, a, i, j);
    }
    PositionInDistinct(q, 0);
    BeginSays(input, start, q, 0);
  }

  /** Completeness: the description of a feasible order satisfies the model. */
  lemma DescriptionSatisfies(input: Input, start: nat, q: seq<nat>, a: Assignment)
    requires Described(input, start, q, a)
    ensures Model(input, a)
  {
    DescribedBounds(input, start, q, a);
    DescribedTimes(input, start, q, a);
    forall i: nat | i < input.Count() ensures FlowAt(input, a, i) { DescribedFlow(input, start, q, a, i); }
  }

  lemma DescriptionCarriesRoute(input: Input, start: nat, q: seq<nat>, a: Assignment)
    requires Described(input, start, q, a)
    ensures RouteOf(input, a, q)
    ensures PhaseValue(input, Finish, a) == Walk(input, start, q).value.time
  {
    DescribedBounds(input, start, q, a);
    forall k: nat | k + 1 < |q| ensures Link(input, a, q, k) { DescribedLink(input, start, q, a, k); }
    DescribedFinish(input, start, q, a);
  }

  lemma DescribedLink(input: Input, start: nat, q: seq<nat>, a: Assignment, k: nat)
    requires Described(input, start, q, a) && k + 1 < |q|
    ensures Link(input, a, q, k)
  {
    PositionInDistinct(q, k);
    PositionInDistinct(q, k + 1);
    DescribedArcs(input, start, q, a, q[k], q[k + 1]);
  }

  lemma DescribedFinish(input: Input, start: nat, q: seq<nat>, a: Assignment)
    requires Described(input, start, q, a)
    ensures PhaseValue(input, Finish, a) == Walk(input, start, q).value.time
  {
    LastBegin(input, start, q, a);
    FinishValue(input, a);
  }

  /** Service at the last stop begins its stay before the walk ends. */
  lemma LastBegin(input: Input, start: nat, q: seq<nat>, a: Assignment)
    requires FromStart(input, q) && Distinct(q) && Walk(input, start, q).Some? && Describes(input, start, q, a)
    ensures a.service[q[|q| - 1]] + input.problem.locations[q[|q| - 1]].stay == Walk(input, start, q).value.time
  {
    PositionInDistinct(q, |q| - 1);
    WalkToEnd(input, start, q);
  }

  lemma FinishValue(input: Input, a: Assignment)
    requires 2 <= input.Count() == |a.service|
    ensures PhaseValue(input, Finish, a) ==
      a.service[input.problem.End()] + input.problem.locations[input.problem.End()].stay
  {
  }

  /** The encoding is exact: some satisfying assignment carries an order and a start
      exactly when the simulator can walk that valid order from that start. */
  lemma EncodingIsExact(input: Input, q: seq<nat>, start: nat)
    requires Ready(input)
    ensures (exists a :: Model(input, a) && RouteOf(input, a, q) && a.selected == start) <==> Feasible(input, q, start)
  {
    if a :| Model(input, a) && RouteOf(input, a, q) && a.selected == start {
      AssignmentWalks(input, a, q);
    }
    if Feasible(input, q, start) {
      var a := Describe(input, start, q);
      DescriptionSatisfies(input, start, q, a);
      DescriptionCarriesRoute(input, start, q, a);
    }
  }
}
