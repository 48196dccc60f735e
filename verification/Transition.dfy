/** The 32-bit time arithmetic of the exact solver. */
module Transition {
  import opened Domain
  import opened Simulation

  datatype InitialService = InitialService(departure: nat, wait: nat)

  /** Service at the start location for a candidate start minute. */
  function InitialServiceAt(problem: Problem, start: nat): Option<InitialService>
    requires |problem.locations| > 0
  {
    var location := problem.locations[0];
    var begin := Max(start, location.window.open);
    var departure :- CheckedAdd(begin, location.stay);
    if departure > location.window.close || departure >= MINUTES_PER_DAY then None
    else Some(InitialService(departure, begin - start))
  }

  function TransitionTime(input: Input, from: nat, to: nat, time: nat): Option<nat>
    requires to < input.Count()
  {
    var minutes :- input.matrix.Travel(from, to);
    var location := input.problem.locations[to];
    var arrival :- CheckedAdd(time, minutes);
    var begin := Max(arrival, location.window.open);
    var finish :- CheckedAdd(begin, location.stay);
    if finish <= location.window.close && finish < MINUTES_PER_DAY then Some(finish) else None
  }

  /** The checked start service is the first step of the walk: overflow can only
      hide services that closing time forbids anyway. */
  lemma InitialServiceIsDepart(problem: Problem, start: nat)
    requires |problem.locations| > 0
    ensures InitialServiceAt(problem, start).Some? <==> Depart(problem, start).Some?
    ensures Depart(problem, start).Some? ==>
      Depart(problem, start).value ==
        Clock(InitialServiceAt(problem, start).value.departure, 0, InitialServiceAt(problem, start).value.wait)
  {
  }

  /** The checked transition finishes exactly when the walk's move does, at the same minute. */
  lemma TransitionTimeIsMove(input: Input, clock: Clock, from: nat, to: nat)
    requires to < input.Count()
    ensures TransitionTime(input, from, to, clock.time).Some? <==> Move(input, clock, from, to).Some?
    ensures Move(input, clock, from, to).Some? ==>
      Move(input, clock, from, to).value.time == TransitionTime(input, from, to, clock.time).value
  {
  }

  /** Both time steps are monotone: a later input never finishes earlier, and a
      step that is possible late is possible early. */
  lemma StepsAreMonotone(input: Input, from: nat, to: nat, early: nat, late: nat)
    requires input.Count() > 0 && to < input.Count() && early <= late
    ensures InitialServiceAt(input.problem, late).Some? ==>
      InitialServiceAt(input.problem, early).Some? &&
      InitialServiceAt(input.problem, early).value.departure <= InitialServiceAt(input.problem, late).value.departure
    ensures TransitionTime(input, from, to, late).Some? ==>
      TransitionTime(input, from, to, early).Some? &&
      TransitionTime(input, from, to, early).value <= TransitionTime(input, from, to, late).value
  {
  }
}
