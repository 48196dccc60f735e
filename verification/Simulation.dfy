/** The reference meaning of a visit order: a clock that walks the order from a
    start minute. Every solver, evaluator and scheduler is compared with it. */
module Simulation {
  import opened Domain
  import opened Masks

  /** What a traveller knows after finishing a service. */
  datatype Clock = Clock(time: nat, travel: nat, wait: nat)

  /** Serve a location reached at `arrival`: wait for opening, stay, leave by closing. */
  function Serve(location: Location, arrival: nat, travel: nat, wait: nat): Option<Clock> {
    var begin := Max(arrival, location.window.open);
    if begin + location.stay <= location.window.close
    then Some(Clock(begin + location.stay, travel, wait + (begin - arrival)))
    else None
  }

  function Depart(problem: Problem, start: nat): Option<Clock>
    requires |problem.locations| > 0
  {
    Serve(problem.locations[0], start, 0, 0)
  }

  function Move(input: Input, clock: Clock, from: nat, to: nat): Option<Clock>
    requires to < input.Count()
  {
    var minutes :- input.matrix.Travel(from, to);
    Serve(input.problem.locations[to], clock.time + minutes, clock.travel + minutes, clock.wait)
  }

  /** A nonempty sequence of location indices that begins at the start location. */
  ghost predicate FromStart(input: Input, q: seq<nat>) {
    |q| > 0 && q[0] == 0 && forall i | 0 <= i < |q| :: q[i] < input.Count()
  }

  function Walk(input: Input, start: nat, q: seq<nat>): Option<Clock>
    requires FromStart(input, q)
  {
    if |q| == 1 then Depart(input.problem, start)
    else
      var clock :- Walk(input, start, q[..|q| - 1]);
      Move(input, clock, q[|q| - 2], q[|q| - 1])
  }

  function Stays(problem: Problem): (w: seq<nat>)
    ensures |w| == |problem.locations|
    ensures forall i | 0 <= i < |w| :: w[i] == problem.locations[i].stay
  {
    seq(|problem.locations|, i requires 0 <= i < |problem.locations| => problem.locations[i].stay)
  }

  /** Every minute between the start and the finish is spent staying, travelling
      or waiting, so no counter can leave the day. */
  lemma {:induction false} Conservation(input: Input, start: nat, q: seq<nat>)
    requires FromStart(input, q)
    requires Walk(input, start, q).Some?
    ensures var clock := Walk(input, start, q).value;
      && clock.time == start + SumAlong(Stays(input.problem), q) + clock.travel + clock.wait
      && clock.time < MINUTES_PER_DAY
  {
    if |q| == 1 {
      assert q[..0] == [];
      assert SumAlong(Stays(input.problem), q) == Stays(input.problem)[0];
    } else {
      Conservation(input, start, q[..|q| - 1]);
    }
  }

  /** Leaving no later, with no more travel, keeps every move possible and its result no later. */
  lemma MoveMonotone(input: Input, early: Clock, late: Clock, from: nat, to: nat)
    requires to < input.Count()
    requires early.time <= late.time && early.travel <= late.travel
    requires Move(input, late, from, to).Some?
    ensures Move(input, early, from, to).Some?
    ensures Move(input, early, from, to).value.time <= Move(input, late, from, to).value.time
    ensures Move(input, early, from, to).value.travel <= Move(input, late, from, to).value.travel
  {
  }

  /** An order that can be walked from some start can be walked from every earlier
      one, by waiting, and never finishes later for it. */
  lemma {:induction false} WalkDownwardClosed(input: Input, early: nat, late: nat, q: seq<nat>)
    requires FromStart(input, q) && early <= late
    requires Walk(input, late, q).Some?
    ensures Walk(input, early, q).Some?
    ensures Walk(input, early, q).value.time <= Walk(input, late, q).value.time
    ensures Walk(input, early, q).value.travel == Walk(input, late, q).value.travel
  {
    if |q| > 1 {
      WalkDownwardClosed(input, early, late, q[..|q| - 1]);
    }
  }

  /** The finish time of an order as a function of its start `t` is
      `max(t + span, floor)`, defined exactly when `open` holds and `t <= latest`. */
  datatype Profile = Profile(open: bool, span: nat, floor: nat, latest: int)

  function Along(profile: Profile, minutes: nat, location: Location): Profile {
    var span := profile.span + minutes + location.stay;
    var floor := Max(profile.floor + minutes, location.window.open) + location.stay;
    var close := location.window.close;
    Profile(
      profile.open && floor <= close,
      span,
      floor,
      if close - span < profile.latest then close - span else profile.latest)
  }

  function ProfileOf(input: Input, q: seq<nat>): Profile
    requires FromStart(input, q)
  {
    if |q| == 1 then Along(Profile(true, 0, 0, MINUTES_PER_DAY), 0, input.problem.locations[0])
    else
      var before := ProfileOf(input, q[..|q| - 1]);
      match input.matrix.Travel(q[|q| - 2], q[|q| - 1])
      case None => before.(open := false)
      case Some(minutes) => Along(before, minutes, input.problem.locations[q[|q| - 1]])
  }

  /** The closed form of a walk over all start minutes. */
  lemma {:induction false} WalkClosedForm(input: Input, start: nat, q: seq<nat>)
    requires FromStart(input, q)
    ensures var p := ProfileOf(input, q);
      && (Walk(input, start, q).Some? <==> p.open && start <= p.latest)
      && (Walk(input, start, q).Some? ==>
        Walk(input, start, q).value.time == Max(start + p.span, p.floor))
  {
    if |q| > 1 {
      WalkClosedForm(input, start, q[..|q| - 1]);
    }
  }

  /** Starting earlier moves the finish only while the order never waits: the
      finish follows the start exactly when `start + span` is above the floor. */
  lemma EarlierStartMovesFinish(input: Input, early: nat, late: nat, q: seq<nat>)
    requires FromStart(input, q) && early < late
    requires Walk(input, late, q).Some?
    ensures var p := ProfileOf(input, q);
      Walk(input, early, q).Some? &&
      (Walk(input, early, q).value.time < Walk(input, late, q).value.time <==> late + p.span > p.floor)
  {
    WalkDownwardClosed(input, early, late, q);
    WalkClosedForm(input, early, q);
    WalkClosedForm(input, late, q);
    LaterIsLater(early, late, ProfileOf(input, q));
  }

  lemma LaterIsLater(early: nat, late: nat, p: Profile)
    requires early < late
    ensures Max(early + p.span, p.floor) < Max(late + p.span, p.floor) <==> late + p.span > p.floor
  {
  }
}
