/** Advice given after a failure: the route-duration lower bound behind the
    split-day and latest-start thresholds, and the start shift offered when the
    destination is reached too late. */
module LowerBound {
  import opened Domain
  import opened Masks
  import opened Sequences
  import opened Simulation
  import opened Objective
  import opened ExactRun
  import opened Evaluator
  import opened Schedule

  function SaturatingAdd(a: nat, b: nat): (r: nat)
    ensures r <= a + b && r < U32_LIMIT
    ensures a + b < U32_LIMIT ==> r == a + b
    ensures a + b >= U32_LIMIT ==> r == U32_LIMIT - 1
  {
    if a + b < U32_LIMIT then a + b else U32_LIMIT - 1
  }

  function Total(w: seq<nat>): nat {
    if |w| == 0 then 0 else Total(w[..|w| - 1]) + w[|w| - 1]
  }

  /** What 32 bits can hold of a total. */
  function Capped(minutes: nat): nat { if minutes < U32_LIMIT then minutes else U32_LIMIT - 1 }

  /** A fold of saturating additions ends at the true total, capped. */
  function SaturatingTotal(w: seq<nat>): (r: nat)
    ensures r == Capped(Total(w))
  {
    if |w| == 0 then 0 else SaturatingAdd(SaturatingTotal(w[..|w| - 1]), w[|w| - 1])
  }

  /** `r` is the cheapest reachable arc apart from `skip`, or zero when there is none. */
  predicate IsLeast(arcs: seq<Option<U32>>, skip: nat, r: nat) {
    && (forall i | 0 <= i < |arcs| && i != skip && arcs[i].Some? :: r <= arcs[i].value)
    && ((exists i | 0 <= i < |arcs| && i != skip :: arcs[i] == Some(r)) ||
        (r == 0 && forall i | 0 <= i < |arcs| && i != skip :: arcs[i].None?))
  }

  /** The cheapest reachable arc of a row or column, leaving out the diagonal. */
  function Least(arcs: seq<Option<U32>>, skip: nat): (r: nat)
    ensures IsLeast(arcs, skip, r)
  {
    var least := LeastOf(arcs, skip);
    if least.Some? then least.value else 0
  }

  function LeastOf(arcs: seq<Option<U32>>, skip: nat): (r: Option<nat>)
    ensures r.None? <==> forall i | 0 <= i < |arcs| && i != skip :: arcs[i].None?
    ensures r.Some? ==> exists i | 0 <= i < |arcs| && i != skip :: arcs[i] == Some(r.value)
    ensures r.Some? ==> forall i | 0 <= i < |arcs| && i != skip && arcs[i].Some? :: r.value <= arcs[i].value
  {
    if |arcs| == 0 then None
    else
      var k := |arcs| - 1;
      var before := LeastOf(arcs[..k], skip);
      if k == skip || arcs[k].None? then before
      else if before.Some? && before.value <= arcs[k].value then before
      else Some(arcs[k].value)
  }

  predicate Square(rows: seq<seq<Option<U32>>>) {
    forall i | 0 <= i < |rows| :: |rows[i]| == |rows|
  }

  function Column(rows: seq<seq<Option<U32>>>, to: nat): (c: seq<Option<U32>>)
    requires Square(rows) && to < |rows|
    ensures |c| == |rows| && forall i | 0 <= i < |c| :: c[i] == rows[i][to]
  {
    seq(|rows|, i requires 0 <= i < |rows| => rows[i][to])
  }

  /** Every location but the destination is left once. */
  function Outgoing(rows: seq<seq<Option<U32>>>): (w: seq<nat>)
    requires Square(rows) && |rows| >= 2
    ensures |w| == |rows| - 1
    ensures forall from, to | 0 <= from < |w| && 0 <= to < |rows| && to != from && rows[from][to].Some? ::
      w[from] <= rows[from][to].value
  {
    seq(|rows| - 1, from requires 0 <= from < |rows| - 1 => Least(rows[from], from))
  }

  /** Every location but the start is entered once. */
  function Incoming(rows: seq<seq<Option<U32>>>): (w: seq<nat>)
    requires Square(rows) && |rows| >= 2
    ensures |w| == |rows| - 1
    ensures forall from, to | 0 <= from < |rows| && 1 <= to < |rows| && from != to && rows[from][to].Some? ::
      w[to - 1] <= rows[from][to].value
  {
    seq(|rows| - 1, k requires 0 <= k < |rows| - 1 => LeastInto(rows, k + 1))
  }

  function LeastInto(rows: seq<seq<Option<U32>>>, to: nat): (r: nat)
    requires Square(rows) && to < |rows|
    ensures forall from | 0 <= from < |rows| && from != to && rows[from][to].Some? :: r <= rows[from][to].value
    ensures IsLeast(Column(rows, to), to, r)
  {
    var column := Column(rows, to);
    assert forall from | 0 <= from < |rows| :: column[from] == rows[from][to];
    Least(column, to)
  }

  function DurationFrom(stay: nat, leaving: seq<nat>, entering: seq<nat>): nat {
    SaturatingAdd(stay, Max(SaturatingTotal(leaving), SaturatingTotal(entering)))
  }

  /** The bound computed from a request: all stays, plus the larger of the two
      arc bounds when a square matrix was supplied. */
  function MinimumDuration(stays: seq<nat>, matrix: Option<Matrix>): nat {
    var stay := SaturatingTotal(stays);
    match matrix
    case None => stay
    case Some(m) =>
      if |m.rows| < 2 || !Square(m.rows) then stay
      else DurationFrom(stay, Outgoing(m.rows), Incoming(m.rows))
  }

  lemma LeastIsUnique(arcs: seq<Option<U32>>, skip: nat, a: nat, b: nat)
    requires IsLeast(arcs, skip, a) && IsLeast(arcs, skip, b)
    ensures a == b
  {
  }

  lemma OutgoingIsUnique(rows: seq<seq<Option<U32>>>, leaving: seq<nat>)
    requires Square(rows) && |rows| >= 2 && LeavesCheapest(rows, leaving)
    ensures leaving == Outgoing(rows)
  {
    forall from | 0 <= from < |leaving| ensures leaving[from] == Outgoing(rows)[from] {
      LeastIsUnique(rows[from], from, leaving[from], Outgoing(rows)[from]);
    }
  }

  lemma IncomingIsUnique(rows: seq<seq<Option<U32>>>, entering: seq<nat>)
    requires Square(rows) && |rows| >= 2 && EntersCheapest(rows, entering)
    ensures entering == Incoming(rows)
  {
    forall k | 0 <= k < |entering| ensures entering[k] == Incoming(rows)[k] {
      LeastIsUnique(Column(rows, k + 1), k + 1, entering[k], Incoming(rows)[k]);
    }
  }

  /** Saturating late or early makes no difference. */
  lemma CappedSum(a: nat, b: nat, c: nat)
    ensures SaturatingAdd(Capped(a), Max(Capped(b), Capped(c))) == Capped(a + Max(b, c))
  {
  }

  lemma DurationFromIs(stays: seq<nat>, leaving: seq<nat>, entering: seq<nat>, x: nat, y: nat, z: nat)
    requires x == Total(stays) && y == Total(leaving) && z == Total(entering)
    ensures DurationFrom(SaturatingTotal(stays), leaving, entering) == Capped(x + Max(y, z))
  {
    var p, q, r := SaturatingTotal(stays), SaturatingTotal(leaving), SaturatingTotal(entering);
    assert p == Capped(x) && q == Capped(y) && r == Capped(z);
    CappedSum(x, y, z);
  }

  /** Each entry is the least cost of leaving a location other than the last. */
  predicate LeavesCheapest(rows: seq<seq<Option<U32>>>, leaving: seq<nat>) {
    |rows| == |leaving| + 1 && forall from | 0 <= from < |leaving| :: IsLeast(rows[from], from, leaving[from])
  }

  /** Each entry is the least cost of entering a location other than the first. */
  predicate EntersCheapest(rows: seq<seq<Option<U32>>>, entering: seq<nat>)
    requires Square(rows)
  {
    |rows| == |entering| + 1 && forall k | 0 <= k < |entering| :: IsLeast(Column(rows, k + 1), k + 1, entering[k])
  }

  /** The bound, saturation included, is all stays and the larger of what leaving each
      location but the last and entering each but the first costs at least. */
  lemma DurationCounts(stays: seq<nat>, rows: seq<seq<Option<U32>>>, leaving: seq<nat>, entering: seq<nat>,
                       stay: nat, left: nat, entered: nat)
    requires Square(rows) && |rows| >= 2 && LeavesCheapest(rows, leaving) && EntersCheapest(rows, entering)
    requires stay == Total(stays) && left == Total(leaving) && entered == Total(entering)
    ensures MinimumDuration(stays, Some(Matrix(rows))) == Capped(stay + Max(left, entered))
  {
    OutgoingIsUnique(rows, leaving);
    IncomingIsUnique(rows, entering);
    DurationFromIs(stays, leaving, entering, stay, left, entered);
  }

  /** Without a usable matrix the bound is the stays alone. */
  lemma DurationWithoutMatrix(stays: seq<nat>, matrix: Option<Matrix>)
    requires matrix.None? || |matrix.value.rows| < 2 || !Square(matrix.value.rows)
    ensures MinimumDuration(stays, matrix) == Capped(Total(stays))
  {
  }

  function Upto(n: nat): (q: seq<nat>)
    ensures |q| == n && forall i | 0 <= i < n :: q[i] == i
  {
    seq(n, i => i)
  }

  lemma {:induction false} TotalAlongUpto(w: seq<nat>, k: nat)
    requires k <= |w|
    ensures SumAlong(w, Upto(k)) == Total(w[..k])
  {
    if k > 0 {
      TotalAlongUpto(w, k - 1);
      assert Upto(k)[..k - 1] == Upto(k - 1);
      assert w[..k][..k - 1] == w[..k - 1];
    }
  }

  /** Along an order that visits everything once, the sum is the total. */
  lemma TotalAlong(w: seq<nat>, q: seq<nat>)
    requires Distinct(q) && |q| == |w| && forall i | 0 <= i < |q| :: q[i] < |w|
    ensures SumAlong(w, q) == Total(w)
  {
    var n := |w|;
    DistinctInRange(q, n);
    MaskOfBound(q, n);
    MaskOfBound(Upto(n), n);
    forall i: nat | i < n ensures Bit(MaskOf(q), i) <==> Bit(MaskOf(Upto(n)), i) {
      BitOfMaskOf(q, i);
      BitOfMaskOf(Upto(n), i);
      assert Upto(n)[i] == i;
    }
    SameBits(MaskOf(q), MaskOf(Upto(n)), n);
    SameMaskSameSum(w, q, Upto(n));
    TotalAlongUpto(w, n);
    assert w[..n] == w;
  }

  /** Each weight is at most every reachable arc out of its location. */
  ghost predicate BelowOutgoing(input: Input, w: seq<nat>) {
    |w| == input.Count() && forall from: nat, to: nat | from < |w| && from != to && input.matrix.Travel(from, to).Some? ::
      w[from] <= input.matrix.Travel(from, to).value
  }

  ghost predicate BelowIncoming(input: Input, w: seq<nat>) {
    |w| == input.Count() && forall from: nat, to: nat | to < |w| && from != to && input.matrix.Travel(from, to).Some? ::
      w[to] <= input.matrix.Travel(from, to).value
  }

  /** What a route travels covers one weight for each location it leaves. */
  lemma {:induction false} TravelCoversOutgoing(input: Input, start: nat, q: seq<nat>, w: seq<nat>)
    requires FromStart(input, q) && Distinct(q) && Walk(input, start, q).Some?
    requires BelowOutgoing(input, w)
    ensures SumAlong(w, q[..|q| - 1]) <= Walk(input, start, q).value.travel
  {
    if |q| > 1 {
      var p := q[..|q| - 1];
      TravelCoversOutgoing(input, start, p, w);
      assert p[|p| - 1] == q[|q| - 2];
      assert input.matrix.Travel(q[|q| - 2], q[|q| - 1]).Some?;
    }
  }

  /** What a route travels covers one weight for each location it enters. */
  lemma {:induction false} TravelCoversIncoming(input: Input, start: nat, q: seq<nat>, w: seq<nat>)
    requires FromStart(input, q) && Distinct(q) && Walk(input, start, q).Some?
    requires BelowIncoming(input, w) && w[0] == 0
    ensures SumAlong(w, q) <= Walk(input, start, q).value.travel
  {
    if |q| > 1 {
      var p := q[..|q| - 1];
      TravelCoversIncoming(input, start, p, w);
      assert input.matrix.Travel(q[|q| - 2], q[|q| - 1]).Some?;
    }
  }

  lemma {:induction false} TotalOfShifted(w: seq<nat>)
    ensures Total([0] + w) == Total(w)
  {
    if |w| > 0 {
      assert ([0] + w)[..|w|] == [0] + w[..|w| - 1];
      TotalOfShifted(w[..|w| - 1]);
    }
  }

  lemma OutgoingBound(input: Input, start: nat, q: seq<nat>)
    requires input.Valid() && input.Matched() && input.Count() >= 2
    requires WalksFrom(input, start, q) && |q| == input.Count()
    ensures Total(Outgoing(input.matrix.rows)) <= Walk(input, start, q).value.travel
  {
    var outgoing := Outgoing(input.matrix.rows);
    var w := outgoing + [0];
    assert BelowOutgoing(input, w);
    TravelCoversOutgoing(input, start, q, w);
    TotalAlong(w, q);
    assert w[..|w| - 1] == outgoing;
  }

  lemma IncomingBound(input: Input, start: nat, q: seq<nat>)
    requires input.Valid() && input.Matched() && input.Count() >= 2
    requires WalksFrom(input, start, q) && |q| == input.Count()
    ensures Total(Incoming(input.matrix.rows)) <= Walk(input, start, q).value.travel
  {
    var incoming := Incoming(input.matrix.rows);
    var w := [0] + incoming;
    assert BelowIncoming(input, w);
    TravelCoversIncoming(input, start, q, w);
    TotalAlong(w, q);
    TotalOfShifted(incoming);
  }

  /** The matrix is the one supplied with the request, or none was supplied. */
  ghost predicate Supplied(input: Input, matrix: Option<Matrix>) {
    matrix.Some? ==> matrix.value == input.matrix
  }

  /** The bound never exceeds the stays plus any travel that covers both arc bounds. */
  lemma DurationIsCovered(stays: seq<nat>, matrix: Option<Matrix>, travel: nat)
    requires matrix.Some? && |matrix.value.rows| >= 2 && Square(matrix.value.rows) ==>
      Total(Outgoing(matrix.value.rows)) <= travel && Total(Incoming(matrix.value.rows)) <= travel
    ensures MinimumDuration(stays, matrix) <= Total(stays) + travel
  {
  }

  lemma ClosesInTime(input: Input, start: nat, q: seq<nat>)
    requires FromStart(input, q) && Walk(input, start, q).Some?
    ensures Walk(input, start, q).value.time <= input.problem.locations[q[|q| - 1]].window.close
  {
  }

  lemma StaysAndTravel(input: Input, start: nat, q: seq<nat>)
    requires input.Valid() && input.problem.visitPolicy == AllRequired && WalksFrom(input, start, q)
    ensures start + Total(Stays(input.problem)) + Walk(input, start, q).value.travel <= Walk(input, start, q).value.time
  {
    Conservation(input, start, q);
    TotalAlong(Stays(input.problem), q);
  }

  /** Any order that can be walked spends at least the bound, saturation included,
      and still closes in time. */
  lemma BoundIsNecessary(input: Input, start: nat, q: seq<nat>, matrix: Option<Matrix>)
    requires input.Valid() && input.Matched() && input.problem.visitPolicy == AllRequired
    requires Supplied(input, matrix) && WalksFrom(input, start, q)
    ensures start + MinimumDuration(Stays(input.problem), matrix) <= Walk(input, start, q).value.time
    ensures start + MinimumDuration(Stays(input.problem), matrix) <= input.problem.locations[input.problem.End()].window.close
  {
    StaysAndTravel(input, start, q);
    ClosesInTime(input, start, q);
    if input.Count() >= 2 {
      OutgoingBound(input, start, q);
      IncomingBound(input, start, q);
    }
    DurationIsCovered(Stays(input.problem), matrix, Walk(input, start, q).value.travel);
  }

  /** The two thresholds offered when no route was found: split over this many
      days, or start no later than this minute. */
  datatype Advice = Advice(splitDays: Option<nat>, startEarlier: Option<Minute>)

  function DaysFor(minutes: nat): (days: nat)
    ensures days >= 2 && minutes <= days * MINUTES_PER_DAY
    ensures days > 2 ==> (days - 1) * MINUTES_PER_DAY < minutes
  {
    Max((minutes + MINUTES_PER_DAY - 1) / MINUTES_PER_DAY, 2)
  }

  function NoFeasibleAdvice(problem: Problem, matrix: Option<Matrix>): Advice
    requires |problem.locations| > 0
  {
    var bound := MinimumDuration(Stays(problem), matrix);
    var close := problem.locations[problem.End()].window.close;
    var latest: Minute := SaturatingSub(close, bound);
    Advice(
      if bound > close then Some(DaysFor(bound)) else None,
      if problem.startTime > latest then Some(latest) else None)
  }

  lemma AdviceFromBound(problem: Problem, matrix: Option<Matrix>, start: nat)
    requires |problem.locations| > 0
    requires start + MinimumDuration(Stays(problem), matrix) <= problem.locations[problem.End()].window.close
    ensures var advice := NoFeasibleAdvice(problem, matrix);
      advice.splitDays.None? && (advice.startEarlier.Some? ==> start <= advice.startEarlier.value < problem.startTime)
  {
  }

  /** The advice follows the bound in both directions: a split exactly when the bound
      alone closes too late, an earlier start exactly when it does from the requested
      one, and then the latest start that still fits, or midnight. */
  lemma AdviceIff(problem: Problem, matrix: Option<Matrix>)
    requires |problem.locations| > 0
    ensures var advice, bound := NoFeasibleAdvice(problem, matrix), MinimumDuration(Stays(problem), matrix);
      var close := problem.locations[problem.End()].window.close;
      && (advice.splitDays.Some? <==> bound > close)
      && (advice.splitDays.Some? ==> advice.splitDays.value >= 2 && bound <= advice.splitDays.value * MINUTES_PER_DAY)
      && (advice.splitDays.Some? && advice.splitDays.value > 2 ==> (advice.splitDays.value - 1) * MINUTES_PER_DAY < bound)
      && (advice.startEarlier.Some? <==> problem.startTime > 0 && problem.startTime + bound > close)
      && (advice.startEarlier.Some? ==>
           if bound <= close then advice.startEarlier.value + bound == close else advice.startEarlier.value == 0)
  {
  }

  /** Both thresholds are genuine necessary conditions: a split is only proposed
      when no order fits any start, and no order fits a start after the proposed
      one, which is earlier than the requested start. */
  lemma AdviceIsNecessary(input: Input, matrix: Option<Matrix>, start: nat, q: seq<nat>)
    requires input.Valid() && input.Matched() && input.problem.visitPolicy == AllRequired
    requires Supplied(input, matrix) && WalksFrom(input, start, q)
    ensures var advice := NoFeasibleAdvice(input.problem, matrix);
      advice.splitDays.None? && (advice.startEarlier.Some? ==> start <= advice.startEarlier.value < input.problem.startTime)
  {
    BoundIsNecessary(input, start, q, matrix);
    AdviceFromBound(input.problem, matrix, start);
  }

  /** The order is late at the destination, which is the first place it fails. */
  ghost predicate LateAtDestination(input: Input, start: Minute, order: seq<nat>, v: Violation)
    requires input.Valid()
  {
    && ValidOrder(input.problem, order) && FromStart(input, order) && |order| >= 2
    && FailsAt(input, start, order, |order| - 1, TimeWindowViolation(v))
  }

  /** The shifted start offered for that violation, when it stays within the day. */
  function ShiftedStart(v: Violation): Option<Minute> {
    var shift := SaturatingSub(v.requiredDeparture, v.close) + v.totalWait;
    if v.selectedStart >= shift then Some(v.selectedStart - shift) else None
  }

  /** The shift removes the lateness and every wait, and is offered exactly when the
      day is long enough for it. */
  lemma ShiftIff(v: Violation)
    requires v.requiredDeparture > v.close
    ensures ShiftedStart(v).Some? <==> v.selectedStart + v.close >= v.requiredDeparture + v.totalWait
    ensures ShiftedStart(v).Some? ==>
      ShiftedStart(v).value + v.requiredDeparture + v.totalWait == v.selectedStart + v.close
  {
  }

  /** The reported violation, in terms of the clock before the last leg. */
  ghost predicate LateBy(location: Location, before: Clock, minutes: nat, v: Violation) {
    var begin := Max(before.time + minutes, location.window.open);
    && v.close == location.window.close
    && v.requiredDeparture == begin + location.stay
    && v.totalWait == before.wait + (begin - (before.time + minutes))
  }

  lemma LateLeg(input: Input, start: Minute, order: seq<nat>, v: Violation) returns (minutes: nat)
    requires input.Valid() && LateAtDestination(input, start, order, v)
    ensures v.selectedStart == start && v.requiredDeparture > v.close
    ensures input.matrix.Travel(order[|order| - 2], order[|order| - 1]) == Some(minutes)
    ensures Walk(input, start, order[..|order| - 1]).Some?
    ensures LateBy(input.problem.locations[order[|order| - 1]], Walk(input, start, order[..|order| - 1]).value, minutes, v)
  {
    minutes := input.matrix.Travel(order[|order| - 2], order[|order| - 1]).value;
    WalkToNext(input, start, order, |order| - 1);
  }

  /** The last leg's requirement in closed form. */
  lemma LateInClosedForm(input: Input, start: Minute, order: seq<nat>, v: Violation, minutes: nat)
    requires FromStart(input, order) && |order| >= 2 && Walk(input, start, order[..|order| - 1]).Some?
    requires input.matrix.Travel(order[|order| - 2], order[|order| - 1]) == Some(minutes)
    requires LateBy(input.problem.locations[order[|order| - 1]], Walk(input, start, order[..|order| - 1]).value, minutes, v)
    ensures LateProfile(ProfileOf(input, order[..|order| - 1]), ProfileOf(input, order), start, v)
  {
    var p := order[..|order| - 1];
    PrefixInClosedForm(input, start, p);
    ProfileNext(input, order, minutes);
    AlongLate(ProfileOf(input, p), minutes, input.problem.locations[order[|order| - 1]], start, Walk(input, start, p).value, v);
  }

  ghost predicate LateProfile(before: Profile, all: Profile, start: nat, v: Violation) {
    && v.requiredDeparture == Max(start + all.span, all.floor) == start + all.span + v.totalWait
    && before.open && start <= before.latest
    && (all.open <==> all.floor <= v.close)
    && all.latest == if v.close - all.span < before.latest then v.close - all.span else before.latest
  }

  lemma PrefixInClosedForm(input: Input, start: nat, p: seq<nat>)
    requires FromStart(input, p) && Walk(input, start, p).Some?
    ensures var before, clock := ProfileOf(input, p), Walk(input, start, p).value;
      && clock.time == Max(start + before.span, before.floor) == start + before.span + clock.wait
      && before.open && start <= before.latest
  {
    WalkClosedForm(input, start, p);
    SpentAlong(input, start, p);
  }

  lemma ProfileNext(input: Input, order: seq<nat>, minutes: nat)
    requires FromStart(input, order) && |order| >= 2
    requires input.matrix.Travel(order[|order| - 2], order[|order| - 1]) == Some(minutes)
    ensures ProfileOf(input, order) ==
      Along(ProfileOf(input, order[..|order| - 1]), minutes, input.problem.locations[order[|order| - 1]])
  {
  }

  lemma AlongLate(before: Profile, minutes: nat, location: Location, start: nat, clock: Clock, v: Violation)
    requires clock.time == Max(start + before.span, before.floor) == start + before.span + clock.wait
    requires before.open && start <= before.latest && LateBy(location, clock, minutes, v)
    ensures LateProfile(before, Along(before, minutes, location), start, v)
  {
  }

  /** Without its waits a walk takes exactly its span. */
  lemma {:induction false} SpentAlong(input: Input, start: nat, q: seq<nat>)
    requires FromStart(input, q) && Walk(input, start, q).Some?
    ensures Walk(input, start, q).value.time == start + ProfileOf(input, q).span + Walk(input, start, q).value.wait
  {
    if |q| > 1 {
      SpentAlong(input, start, q[..|q| - 1]);
    }
  }

  /** Shifting the start as offered works exactly when the order's waiting floor
      is within the destination's closing time, that is, when the order can be
      walked from any start at all. */
  lemma ShiftWorksIff(input: Input, start: Minute, order: seq<nat>, v: Violation)
    requires input.Valid() && LateAtDestination(input, start, order, v) && ShiftedStart(v).Some?
    ensures Walk(input, ShiftedStart(v).value, order).Some? <==> ProfileOf(input, order).floor <= v.close
    ensures ProfileOf(input, order).floor <= v.close <==> exists earlier: nat :: Walk(input, earlier, order).Some?
  {
    var offered := ShiftedStart(v).value;
    var minutes := LateLeg(input, start, order, v);
    LateInClosedForm(input, start, order, v, minutes);
    WalkClosedForm(input, offered, order);
    forall earlier: nat | Walk(input, earlier, order).Some? ensures ProfileOf(input, order).floor <= v.close {
      WalkClosedForm(input, earlier, order);
    }
  }

  /** Three stops: a museum that opens at 10:00 and a destination that closes at 10:20. */
  function MuseumTrip(): Input {
    Input(
      Problem([Location("home", TimeWindow(0, 1430), 0, true, 1),
               Location("museum", TimeWindow(600, 1200), 10, true, 1),
               Location("cafe", TimeWindow(0, 620), 0, true, 1)], 480, Fixed, AllRequired),
      Matrix([[Some(0), Some(20), Some(20)], [Some(20), Some(0), Some(20)], [Some(20), Some(20), Some(0)]]))
  }

  /** Requests give windows and stays in tens of minutes. */
  predicate TenMinuteAligned(problem: Problem) {
    forall i | 0 <= i < |problem.locations| ::
      var location := problem.locations[i];
      location.window.open % 10 == 0 && location.window.close % 10 == 0 && location.stay % 10 == 0
  }

  lemma MuseumTripIsValid()
    ensures TenMinuteAligned(MuseumTrip().problem)
    ensures MuseumTrip().Valid() && ValidOrder(MuseumTrip().problem, [0, 1, 2]) && FromStart(MuseumTrip(), [0, 1, 2])
  {
    assert [0, 1, 2][0] == 0 && [0, 1, 2][1] == 1 && [0, 1, 2][2] == 2;
  }

  /** Whenever the trip starts, it leaves the museum at 10:10 and reaches the cafe too late. */
  lemma MuseumWaits(start: nat)
    requires start <= 580 && FromStart(MuseumTrip(), [0, 1, 2])
    ensures WalkTo(MuseumTrip(), start, [0, 1, 2], 2) == Some(Clock(610, 20, 580 - start))
    ensures WalkTo(MuseumTrip(), start, [0, 1, 2], 3).None?
  {
    var input, order := MuseumTrip(), [0, 1, 2];
    WalkToEnd(input, start, order);
    WalkToNext(input, start, order, 1);
    WalkToNext(input, start, order, 2);
  }

  /** The shift can be offered and not help: while the trip waits for the museum,
      an earlier start does not move its finish. */
  lemma ShiftMayNotHelp() returns (v: Violation)
    ensures TenMinuteAligned(MuseumTrip().problem) && MuseumTrip().Valid()
    ensures LateAtDestination(MuseumTrip(), 480, [0, 1, 2], v)
    ensures ShiftedStart(v) == Some(370) && Walk(MuseumTrip(), 370, [0, 1, 2]).None?
  {
    MuseumTripIsValid();
    v := Violation(2, 630, 630, 630, 620, 480, 100, false, true, 0, 0);
    MuseumWaits(480);
    MuseumWaits(370);
    WalkToEnd(MuseumTrip(), 370, [0, 1, 2]);
    var input := MuseumTrip();
    assert input.matrix.Travel(1, 2) == Some(20);
    assert FailsAt(input, 480, [0, 1, 2], 2, TimeWindowViolation(v));
  }
}
