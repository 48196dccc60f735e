/** The validation tool's cross-check: every ordering of the intermediate
    locations is evaluated independently and the best one is kept. */
module BruteForce {
  import opened Domain
  import opened Sequences
  import opened Simulation
  import opened Objective
  import opened ExactRun
  import opened ExactSolve
  import opened Evaluator
  import opened Permutation
  import opened Agreement

  datatype Trial = Trial(order: seq<nat>, metrics: Metrics)

  /** The problem as the tool evaluates it: nothing is served at the start location. */
  function Bare(input: Input): Input
    requires input.Count() > 0
  {
    var first := input.problem.locations[0].(window := TimeWindow(0, MINUTES_PER_DAY - 1), stay := 0);
    input.(problem := input.problem.(locations := input.problem.locations[0 := first]))
  }

  /** An arrangement of the intermediate locations between the fixed endpoints. */
  function Framed(input: Input, middle: seq<nat>): seq<nat>
    requires input.Count() > 0
  {
    [0] + middle + [input.Count() - 1]
  }

  /** `compare_metrics`: the latest start, then finish, travel, wait and score. */
  function CompareTrials(left: Metrics, right: Metrics): Ordering {
    Cmp(right.start, left.start)
    .Then(Cmp(left.finish, right.finish))
    .Then(Cmp(left.travel, right.travel))
    .Then(Cmp(left.wait, right.wait))
    .Then(Cmp(left.score, right.score))
  }

  /** One leg: it may give up the order, rule out this start, or be served. */
  datatype Leg = Hopeless | TooLate | Served(clock: Clock)

  function TryLeg(input: Input, clock: Clock, from: nat, to: nat): Leg
    requires to < input.Count()
  {
    var minutes := input.matrix.Travel(from, to);
    if minutes.None? || CheckedAdd(clock.travel, minutes.value).None? || CheckedAdd(clock.time, minutes.value).None? then
      Hopeless
    else
      var location, arrival := input.problem.locations[to], clock.time + minutes.value;
      var begin := Max(arrival, location.window.open);
      if CheckedAdd(clock.wait, begin - arrival).None? || CheckedAdd(begin, location.stay).None? then Hopeless
      else if begin + location.stay > location.window.close || begin + location.stay >= MINUTES_PER_DAY then TooLate
      else Served(Clock(begin + location.stay, clock.travel + minutes.value, clock.wait + (begin - arrival)))
  }

  ghost predicate NeverMoves(input: Input, from: nat, to: nat)
    requires to < input.Count()
  {
    forall other :: Move(input, other, from, to).None?
  }

  /** A leg is served exactly when the walk moves, and a hopeless leg is
      impossible at any clock: overflow means more than a day of travel or stay. */
  lemma TryLegIsMove(input: Input, clock: Clock, from: nat, to: nat)
    requires to < input.Count() && clock.travel + clock.wait <= clock.time < MINUTES_PER_DAY
    ensures var leg := TryLeg(input, clock, from, to);
      && (leg.Served? <==> Move(input, clock, from, to).Some?)
      && (leg.Served? ==> Move(input, clock, from, to) == Some(leg.clock))
      && (leg.Hopeless? ==> NeverMoves(input, from, to))
  {
  }

  /** A serviceless start begins every walk at the start minute itself. */
  lemma BareStart(input: Input, start: Minute, order: seq<nat>)
    requires input.Count() > 0 && FromStart(Bare(input), order)
    ensures WalkTo(Bare(input), start, order, 1) == Some(Clock(start, 0, 0))
  {
    assert order[..1] == [0];
  }

  /** What an independent evaluation delivers: the latest start not before the
      requested one from which the order can be walked, with its totals. */
  ghost predicate Independent(input: Input, order: seq<nat>, r: Option<Metrics>)
    requires input.Count() > 0 && FromStart(Bare(input), order)
  {
    var from := input.problem.startTime;
    && (r.None? ==> forall start | from <= start < MINUTES_PER_DAY :: Walk(Bare(input), start, order).None?)
    && (r.Some? ==>
         && from <= r.value.start < MINUTES_PER_DAY
         && (forall later | r.value.start < later < MINUTES_PER_DAY :: Walk(Bare(input), later, order).None?)
         && Totals(input, order, r.value))
  }

  ghost predicate Totals(input: Input, order: seq<nat>, m: Metrics)
    requires input.Count() > 0 && FromStart(Bare(input), order)
  {
    Walk(Bare(input), m.start, order) == Some(Clock(m.finish, m.travel, m.wait)) &&
    m == Metrics(input.problem.startPolicy, 0, 0, m.start, m.finish, m.travel, m.wait, Score(m.travel, m.wait))
  }

  /** One start: the whole order is served, this start is too late, or all are. */
  method TryStart(input: Input, order: seq<nat>, start: Minute) returns (r: Leg)
    requires input.Valid() && FromStart(Bare(input), order) && 0 !in order[1..]
    ensures r.Served? ==> Walk(Bare(input), start, order) == Some(r.clock)
    ensures !r.Served? ==> Walk(Bare(input), start, order).None?
    ensures r.Hopeless? ==> forall other :: Walk(Bare(input), other, order).None?
  {
    ghost var bare := Bare(input);
    var clock := Clock(start, 0, 0);
    BareStart(input, start, order);
    for k := 1 to |order|
      invariant WalkTo(bare, start, order, k) == Some(clock) && clock.time < MINUTES_PER_DAY
      invariant clock.travel + clock.wait <= clock.time
    {
      WalkToNext(bare, start, order, k);
      assert order[k] == order[1..][k - 1];
      BareLeg(input, clock, order[k - 1], order[k]);
      TryLegIsMove(bare, clock, order[k - 1], order[k]);
      r := TryLeg(input, clock, order[k - 1], order[k]);
      if !r.Served? {
        BrokenPrefix(bare, start, order, k + 1);
        if r.Hopeless? { HopelessEverywhere(bare, order, k); }
        return;
      }
      clock := r.clock;
      Conservation(bare, start, order[..k + 1]);
    }
    WalkToEnd(bare, start, order);
    r := Served(clock);
  }

  /** Only the start location is different in the bare problem. */
  lemma BareLeg(input: Input, clock: Clock, from: nat, to: nat)
    requires 1 <= to < input.Count()
    ensures TryLeg(Bare(input), clock, from, to) == TryLeg(input, clock, from, to)
  {
  }

  lemma HopelessEverywhere(input: Input, order: seq<nat>, k: nat)
    requires FromStart(input, order) && 1 <= k < |order|
    requires NeverMoves(input, order[k - 1], order[k])
    ensures forall start :: Walk(input, start, order).None?
  {
    forall start: nat ensures Walk(input, start, order).None? {
      WalkToNext(input, start, order, k);
      BrokenPrefix(input, start, order, k + 1);
    }
  }

  /** Starts are tried from the last minute of the day downwards. */
  method IndependentEvaluate(input: Input, order: seq<nat>) returns (r: Option<Metrics>)
    requires input.Valid() && FromStart(Bare(input), order) && 0 !in order[1..]
    ensures Independent(input, order, r)
  {
    var start: nat := MINUTES_PER_DAY;
    while start > input.problem.startTime
      invariant input.problem.startTime <= start <= MINUTES_PER_DAY
      invariant forall later | start <= later < MINUTES_PER_DAY :: Walk(Bare(input), later, order).None?
    {
      start := start - 1;
      var tried := TryStart(input, order, start);
      match tried
      case Served(clock) =>
        return Some(Metrics(input.problem.startPolicy, 0, 0, start, clock.time, clock.travel, clock.wait,
                            Score(clock.travel, clock.wait)));
      case Hopeless => return None;
      case TooLate =>
    }
    r := None;
  }

  /** The intermediate locations in increasing order. */
  function Intermediates(n: nat): (s: seq<nat>)
    requires n >= 2
    ensures |s| == n - 2 && forall i | 0 <= i < |s| :: s[i] == i + 1
  {
    seq(n - 2, i => i + 1)
  }

  ghost predicate Arrangement(n: nat, c: seq<nat>)
    requires n >= 2
  {
    Rearranges(Intermediates(n), c)
  }

  lemma {:induction false} DistinctCounts(s: seq<nat>)
    requires Distinct(s)
    ensures forall x :: multiset(s)[x] == if x in s then 1 else 0
  {
    if |s| > 0 {
      var p, y := s[..|s| - 1], s[|s| - 1];
      DistinctCounts(p);
      assert s == p + [y];
    }
  }

  lemma RepeatCounts(s: seq<nat>, i: nat, j: nat)
    requires i < j < |s| && s[i] == s[j]
    ensures multiset(s)[s[i]] >= 2
  {
    assert s == s[..j] + s[j..];
    assert s[..j][i] in multiset(s[..j]) && s[j..][0] in multiset(s[j..]);
  }

  /** The arrangements of the intermediates are the repetition-free sequences of all of them. */
  lemma ArrangementIff(n: nat, c: seq<nat>)
    requires n >= 2
    ensures Arrangement(n, c) <==> Distinct(c) && forall x :: x in c <==> 1 <= x < n - 1
  {
    var first := Intermediates(n);
    DistinctCounts(first);
    forall x ensures x in first <==> 1 <= x < n - 1 {
      if 1 <= x < n - 1 { assert first[x - 1] == x; }
    }
    assert forall x :: x in multiset(c) <==> x in c;
    assert forall x :: x in multiset(first) <==> x in first;
    if Arrangement(n, c) {
      forall i: nat, j: nat | i < j < |c| ensures c[i] != c[j] {
        if c[i] == c[j] { RepeatCounts(c, i, j); }
      }
    }
    if Distinct(c) && forall x :: x in c <==> 1 <= x < n - 1 {
      DistinctCounts(c);
      assert forall x :: multiset(c)[x] == multiset(first)[x];
      assert multiset(c) == multiset(first);
      assert |multiset(c)| == |c| && |multiset(first)| == |first|;
    }
  }

  lemma FramedWalks(input: Input, c: seq<nat>)
    requires input.Count() >= 2 && Arrangement(input.Count(), c)
    ensures FromStart(Bare(input), Framed(input, c)) && 0 !in Framed(input, c)[1..]
    ensures Digits(c, input.Count())
  {
    ArrangementIff(input.Count(), c);
    assert forall i | 0 <= i < |c| :: c[i] in c;
    assert Framed(input, c)[1..] == c + [input.Count() - 1];
  }

  /** With every location required, the framed arrangements are the valid orders. */
  lemma FramedAreValidOrders(input: Input, q: seq<nat>)
    requires input.Count() >= 2 && input.problem.Valid() && input.problem.visitPolicy == AllRequired
    requires ValidOrder(input.problem, q)
    ensures |q| >= 2 && Arrangement(input.Count(), q[1..|q| - 1]) && q == Framed(input, q[1..|q| - 1])
  {
    var n, c := input.Count(), q[1..|q| - 1];
    assert q == Framed(input, c);
    assert forall i | 0 <= i < |c| :: c[i] == q[i + 1];
    forall x: nat ensures x in c <==> 1 <= x < n - 1 {
      if x < n {
        assert x in q;
        var i :| 0 <= i < |q| && q[i] == x;
        assert 1 <= i < |q| - 1 ==> c[i - 1] == x;
      }
    }
    ArrangementIff(n, c);
  }

  /** The best of all arrangements: one of them, exactly measured, that no other beats,
      and nothing only when no arrangement can be walked. */
  ghost predicate BestOfAll(input: Input, best: Option<Trial>)
    requires input.Count() >= 2
  {
    && (best.Some? ==> exists c | Arrangement(input.Count(), c) :: TrialOf(input, c, best.value))
    && forall c, m | Arrangement(input.Count(), c) && Delivers(input, c, m) ::
         best.Some? && !CompareTrials(best.value.metrics, m).Greater?
  }

  /** Every arrangement in `tried` that can be evaluated is no better than `best`. */
  ghost predicate BestOf(input: Input, tried: seq<seq<nat>>, best: Option<Trial>)
    requires input.Count() >= 2 && forall c | c in tried :: Arrangement(input.Count(), c)
  {
    && (best.Some? ==> exists c | c in tried :: TrialOf(input, c, best.value))
    && forall c, m | c in tried && Delivers(input, c, m) ::
         best.Some? && !CompareTrials(best.value.metrics, m).Greater?
  }

  ghost predicate Delivers(input: Input, c: seq<nat>, m: Metrics)
    requires input.Count() >= 2 && Arrangement(input.Count(), c)
  {
    FromStart(Bare(input), Framed(input, c)) && Independent(input, Framed(input, c), Some(m))
  }

  ghost predicate TrialOf(input: Input, c: seq<nat>, best: Trial)
    requires input.Count() >= 2 && Arrangement(input.Count(), c)
  {
    best.order == Framed(input, c) && Delivers(input, c, best.metrics)
  }

  /** Exactly the arrangements before `current` have been tried, each once. */
  ghost predicate TriedBefore(n: nat, tried: seq<seq<nat>>, current: seq<nat>)
    requires n >= 2
  {
    && (forall i, j | 0 <= i < j < |tried| :: Precedes(tried[i], tried[j]))
    && (forall c :: c in tried <==> Arrangement(n, c) && Precedes(c, current))
  }

  ghost predicate TriedAll(n: nat, tried: seq<seq<nat>>)
    requires n >= 2
  {
    && (forall i, j | 0 <= i < j < |tried| :: Precedes(tried[i], tried[j]))
    && (forall c :: c in tried <==> Arrangement(n, c))
  }

  lemma NothingBeforeTheFirst(n: nat)
    requires n >= 2
    ensures TriedBefore(n, [], Intermediates(n))
  {
    forall c | Arrangement(n, c) ensures !Precedes(c, Intermediates(n)) {
      RisingTailIsFirst(Intermediates(n), c, 0);
      PrecedesIsTotal(Intermediates(n), c);
    }
  }

  lemma TryNext(n: nat, tried: seq<seq<nat>>, current: seq<nat>, next: seq<nat>)
    requires n >= 2 && Arrangement(n, current) && TriedBefore(n, tried, current) && Successor(current, next)
    ensures TriedBefore(n, tried + [current], next)
  {
    forall c ensures c in tried + [current] <==> Arrangement(n, c) && Precedes(c, next) {
      if Arrangement(n, c) { BeforeSuccessor(current, next, c); }
    }
  }

  lemma TryLast(n: nat, tried: seq<seq<nat>>, current: seq<nat>)
    requires n >= 2 && Arrangement(n, current) && TriedBefore(n, tried, current) && IsLast(current)
    ensures TriedAll(n, tried + [current])
  {
    forall c ensures c in tried + [current] <==> Arrangement(n, c) {
      if Arrangement(n, c) { PrecedesIsTotal(c, current); }
    }
  }

  /** Keeping the first of equals by strict improvement keeps a minimum. */
  function Keep(best: Option<Trial>, order: seq<nat>, evaluated: Option<Metrics>): Option<Trial> {
    if evaluated.Some? && (best.None? || CompareTrials(evaluated.value, best.value.metrics).Less?)
    then Some(Trial(order, evaluated.value)) else best
  }

  lemma DeliversOnce(input: Input, c: seq<nat>, m: Metrics, r: Option<Metrics>)
    requires input.Count() >= 2 && Arrangement(input.Count(), c) && Delivers(input, c, m)
    requires Independent(input, Framed(input, c), r)
    ensures r == Some(m)
  {
    var order, bare := Framed(input, c), Bare(input);
    assert Walk(bare, m.start, order).Some?;
    assert r.Some?;
    assert Walk(bare, r.value.start, order).Some?;
    assert r.value.start == m.start;
  }

  lemma CompareTrialsIsTotal(a: Metrics, b: Metrics, c: Metrics)
    ensures !CompareTrials(a, a).Greater?
    ensures CompareTrials(a, b).Less? ==> !CompareTrials(a, b).Greater?
    ensures CompareTrials(a, b).Less? && !CompareTrials(b, c).Greater? ==> !CompareTrials(a, c).Greater?
    ensures !CompareTrials(a, b).Less? ==> !CompareTrials(b, a).Greater?
  {
  }

  lemma KeepIsBest(input: Input, tried: seq<seq<nat>>, best: Option<Trial>, c: seq<nat>, r: Option<Metrics>)
    requires input.Count() >= 2 && Arrangement(input.Count(), c)
    requires forall d | d in tried :: Arrangement(input.Count(), d)
    requires BestOf(input, tried, best)
    requires FromStart(Bare(input), Framed(input, c)) && Independent(input, Framed(input, c), r)
    ensures BestOf(input, tried + [c], Keep(best, Framed(input, c), r))
  {
    var kept := Keep(best, Framed(input, c), r);
    forall d, m | d in tried + [c] && Delivers(input, d, m)
      ensures kept.Some? && !CompareTrials(kept.value.metrics, m).Greater?
    {
      if d in tried {
        CompareTrialsIsTotal(kept.value.metrics, best.value.metrics, m);
      } else {
        DeliversOnce(input, c, m, r);
        if best.Some? { CompareTrialsIsTotal(m, best.value.metrics, m); }
      }
    }
    if kept != best {
      assert TrialOf(input, c, kept.value);
    } else if best.Some? {
      var d :| d in tried && TrialOf(input, d, best.value);
      assert d in tried + [c];
    }
  }

  /** Readings bound the steps that are left. */
  lemma StepsLeft(input: Input, current: seq<nat>, next: seq<nat>)
    requires input.Count() >= 2 && Arrangement(input.Count(), current) && Successor(current, next)
    ensures Reading(current, input.Count()) < Reading(next, input.Count()) < Power(input.Count(), input.Count() - 2)
  {
    FramedWalks(input, current);
    FramedWalks(input, next);
    ReadingBound(next, input.Count());
    PrecedesReadsLess(current, next, input.Count());
  }

  /** The brute-force search: it ends, evaluates every arrangement exactly once and
      returns a minimum of `CompareTrials`, or nothing when no arrangement can be walked. */
  method Search(input: Input) returns (best: Option<Trial>, ghost tried: seq<seq<nat>>)
    requires input.Valid() && input.Count() >= 2
    ensures TriedAll(input.Count(), tried)
    ensures BestOfAll(input, best)
  {
    var n := input.Count();
    var middle := new nat[n - 2](i => i + 1);
    assert middle[..] == Intermediates(n);
    NothingBeforeTheFirst(n);
    best, tried := None, [];
    var more := true;
    while more
      invariant more ==> Arrangement(n, middle[..]) && TriedBefore(n, tried, middle[..])
      invariant !more ==> TriedAll(n, tried)
      invariant BestOf(input, tried, best)
      decreases if more then 1 + Power(n, n - 2) - Reading(middle[..], n) else 0
    {
      ghost var current := middle[..];
      var order := [0] + middle[..] + [n - 1];
      FramedWalks(input, current);
      ReadingBound(current, n);
      var evaluated := IndependentEvaluate(input, order);
      KeepIsBest(input, tried, best, current, evaluated);
      if evaluated.Some? && (best.None? || CompareTrials(evaluated.value, best.value.metrics).Less?) {
        best := Some(Trial(order, evaluated.value));
      }
      more := NextPermutation(middle);
      if more {
        TryNext(n, tried, current, middle[..]);
        StepsLeft(input, current, middle[..]);
      } else {
        TryLast(n, tried, current);
      }
      tried := tried + [current];
    }
  }

  /** A start location that costs nothing and never binds, as in the generated cases. */
  ghost predicate QuietStart(problem: Problem)
    requires |problem.locations| > 0
  {
    var first, last := problem.locations[0], problem.locations[problem.End()];
    first.stay == 0 && first.window.open <= problem.startTime && last.window.close <= first.window.close
  }

  lemma {:induction false} QuietWalk(input: Input, start: nat, q: seq<nat>)
    requires FromStart(input, q) && (forall i | 1 <= i < |q| :: q[i] != 0)
    requires QuietStart(input.problem) && input.problem.startTime <= start <= input.problem.locations[0].window.close
    ensures FromStart(Bare(input), q) && Walk(Bare(input), start, q) == Walk(input, start, q)
  {
    if |q| > 1 {
      QuietWalk(input, start, q[..|q| - 1]);
    }
  }

  lemma {:induction false} WalkEndsOpen(input: Input, start: nat, q: seq<nat>)
    requires FromStart(input, q) && Walk(input, start, q).Some?
    ensures start <= input.problem.locations[q[|q| - 1]].window.close
  {
    Conservation(input, start, q);
  }

  /** With a quiet start, an order is feasible exactly when the independent
      evaluation can walk it, and the clocks agree. */
  lemma QuietFeasible(input: Input, q: seq<nat>, start: nat)
    requires input.Valid() && input.Count() >= 2 && QuietStart(input.problem)
    requires input.problem.startPolicy == Latest && ValidOrder(input.problem, q)
    requires input.problem.startTime <= start < MINUTES_PER_DAY
    ensures FromStart(Bare(input), q) && FromStart(input, q)
    ensures Feasible(input, q, start) <==> Walk(Bare(input), start, q).Some?
    ensures Feasible(input, q, start) ==> Walk(Bare(input), start, q) == Walk(input, start, q)
  {
    assert forall i | 1 <= i < |q| :: q[i] != 0 by { assert q[0] == 0; }
    if Walk(Bare(input), start, q).Some? { WalkEndsOpen(Bare(input), start, q); }
    if Walk(input, start, q).Some? { WalkEndsOpen(input, start, q); }
    if start <= input.problem.locations[0].window.close { QuietWalk(input, start, q); }
  }

  lemma FramedIsValid(input: Input, c: seq<nat>)
    requires input.Count() >= 2 && Arrangement(input.Count(), c)
    ensures ValidOrder(input.problem, Framed(input, c))
  {
    var n, q := input.Count(), Framed(input, c);
    ArrangementIff(n, c);
    forall x: nat | x < n ensures x in q {
      assert x == 0 || x == n - 1 || x in c;
    }
    assert forall i | 0 <= i < |c| :: c[i] in c;
    DistinctInRange(q, n);
  }

  /** What the tool measures for an order is what the solver optimizes. */
  lemma DeliversEvaluates(input: Input, c: seq<nat>, m: Metrics)
    requires input.Valid() && input.Count() >= 2 && QuietStart(input.problem)
    requires input.problem.startPolicy == Latest && input.problem.visitPolicy == AllRequired
    requires Arrangement(input.Count(), c) && Delivers(input, c, m)
    ensures Feasible(input, Framed(input, c), m.start)
    ensures Evaluate(input, m.start, Framed(input, c)) == Some(m)
  {
    FramedIsValid(input, c);
    QuietFeasible(input, Framed(input, c), m.start);
    RequiredCoverNothing(input.problem, Framed(input, c));
  }

  lemma LaterStartIsBetter(input: Input, best: ExactResult, later: nat)
    requires input.problem.startPolicy == Latest
    requires Optimal(input, best.order, best.metrics.start)
    requires Evaluate(input, best.metrics.start, best.order) == Some(best.metrics)
    requires best.metrics.start < later
    ensures !Feasible(input, best.order, later)
  {
    var q := best.order;
    assert forall start: nat | Feasible(input, q, start) :: NoWorse(best.metrics, Evaluate(input, start, q).value);
  }

  /** The optimal start of the optimal order is the one the tool finds for it. */
  lemma OptimumIsDelivered(input: Input, best: ExactResult) returns (c: seq<nat>)
    requires input.Valid() && input.Count() >= 2 && QuietStart(input.problem)
    requires input.problem.startPolicy == Latest && input.problem.visitPolicy == AllRequired
    requires Optimal(input, best.order, best.metrics.start)
    requires Evaluate(input, best.metrics.start, best.order) == Some(best.metrics)
    ensures Arrangement(input.Count(), c) && Delivers(input, c, best.metrics)
  {
    var q := best.order;
    FramedAreValidOrders(input, q);
    c := q[1..|q| - 1];
    QuietFeasible(input, q, best.metrics.start);
    RequiredCoverNothing(input.problem, q);
    forall later: nat | best.metrics.start < later < MINUTES_PER_DAY ensures Walk(Bare(input), later, q).None? {
      QuietFeasible(input, q, later);
      LaterStartIsBetter(input, best, later);
    }
  }

  /** The kept trial is a feasible route with exactly its metrics. */
  lemma KeptIsFeasible(input: Input, best: Trial)
    requires input.Valid() && input.Count() >= 2 && QuietStart(input.problem)
    requires input.problem.startPolicy == Latest && input.problem.visitPolicy == AllRequired
    requires BestOfAll(input, Some(best))
    ensures Feasible(input, best.order, best.metrics.start)
    ensures Evaluate(input, best.metrics.start, best.order) == Some(best.metrics)
    ensures best.metrics.optionalCount == 0 && best.metrics.optionalPriority == 0
  {
    var c :| Arrangement(input.Count(), c) && TrialOf(input, c, best);
    DeliversEvaluates(input, c, best.metrics);
  }

  lemma KeptIsNoLater(input: Input, optimum: ExactResult, best: Option<Trial>)
    requires input.Valid() && input.Count() >= 2 && QuietStart(input.problem)
    requires input.problem.startPolicy == Latest && input.problem.visitPolicy == AllRequired
    requires Optimal(input, optimum.order, optimum.metrics.start)
    requires Evaluate(input, optimum.metrics.start, optimum.order) == Some(optimum.metrics)
    requires BestOfAll(input, best)
    ensures best.Some? && !CompareTrials(best.value.metrics, optimum.metrics).Greater?
    ensures optimum.metrics.optionalCount == 0 && optimum.metrics.optionalPriority == 0
  {
    var c := OptimumIsDelivered(input, optimum);
    DeliversEvaluates(input, c, optimum.metrics);
  }

  /** The tool's check always passes: the exact solver, the same solver without pruning
      and the brute-force search find a route in the same cases, and their metrics are
      equal field by field. */
  lemma CrossCheckPasses(input: Input, exact: Result<ExactResult, SolverError>, unpruned: Result<ExactResult, SolverError>,
                         best: Option<Trial>)
    requires input.Valid() && input.Matched() && 2 <= input.Count() <= EXACT_MAX_LOCATIONS
    requires QuietStart(input.problem)
    requires input.problem.startPolicy == Latest && input.problem.visitPolicy == AllRequired
    requires Solved(input, exact) && Solved(input, unpruned) && BestOfAll(input, best)
    ensures exact.Ok? <==> best.Some?
    ensures exact.Ok? ==> exact.value.metrics == best.value.metrics
    ensures exact.Ok? <==> unpruned.Ok?
    ensures exact.Ok? ==> exact.value.metrics == unpruned.value.metrics
  {
    PruningChangesNothing(input, exact, unpruned);
    if best.Some? { KeptIsFeasible(input, best.value); }
    if exact.Ok? {
      KeptIsNoLater(input, exact.value, best);
      assert NoWorse(exact.value.metrics, best.value.metrics);
      MutuallyBest(exact.value.metrics, best.value.metrics);
    }
  }

  lemma MutuallyBest(a: Metrics, b: Metrics)
    requires a.startPolicy == b.startPolicy == Latest
    requires a.optionalCount == b.optionalCount && a.optionalPriority == b.optionalPriority
    requires NoWorse(a, b) && !CompareTrials(b, a).Greater?
    ensures a == b
  {
  }
}
