/** The parallel matrix build cannot run for ever or get stuck: the workers' steps are
    bounded, and until all are done some worker can take one. */
module MatrixProgress {
  import opened MatrixBuild

  const STEPS_PER_PAIR := 8
  const STEPS_TO_STOP := 2

  /** The steps of a worker, provider calls included, not those of caller, clock or watchdog. */
  predicate ByWorker(step: Step) {
    step.Claim? || step.Complete? || step.Fail? || step.Query?
  }

  function WorkerSteps(steps: seq<Step>): nat {
    if |steps| == 0 then 0
    else WorkerSteps(steps[..|steps| - 1]) + (if ByWorker(steps[|steps| - 1]) then 1 else 0)
  }

  /** How many steps a worker can take before it claims again. */
  function Remaining(worker: Worker): nat {
    match worker
    case Looping => 2
    case Claiming => 1
    case Claimed(_) => 8
    case Querying(_) => 7
    case Storing(_) => 6
    case Stored(_) => 5
    case Counting(_) => 4
    case Reporting(_) => 3
    case Failing(_, _) => 3
    case Recording(_) => 2
    case Cancelling => 1
    case Done => 0
  }

  function RemainingOfAll(workers: seq<Worker>): nat {
    if |workers| == 0 then 0
    else RemainingOfAll(workers[..|workers| - 1]) + Remaining(workers[|workers| - 1])
  }

  function Unclaimed(c: Config, s: Build): nat {
    if s.next < c.Pairs() then c.Pairs() - s.next else 0
  }

  /** What the workers can still do at most. */
  function Potential(c: Config, s: Build): nat {
    STEPS_PER_PAIR * Unclaimed(c, s) + RemainingOfAll(s.workers)
  }

  lemma {:induction false} RemainingUpdate(workers: seq<Worker>, w: nat, to: Worker)
    requires w < |workers|
    ensures RemainingOfAll(workers[w := to]) == RemainingOfAll(workers) - Remaining(workers[w]) + Remaining(to)
  {
    var k := |workers| - 1;
    if w < k {
      assert workers[w := to][..k] == workers[..k][w := to];
      RemainingUpdate(workers[..k], w, to);
    } else {
      assert workers[w := to][..k] == workers[..k];
    }
  }

  /** Every worker step uses up potential; the other actors leave it alone. */
  lemma StepUsesPotential(c: Config, s: Build, step: Step)
    requires Apply(c, s, step).Some?
    ensures Potential(c, Apply(c, s, step).value) + (if ByWorker(step) then 1 else 0) <= Potential(c, s)
  {
    var s' := Apply(c, s, step).value;
    match step
    case Claim(w) => ClaimMoves(c, s, w); MoveUsesPotential(c, s, s', w);
    case Complete(w) => CompleteMoves(c, s, w); MoveUsesPotential(c, s, s', w);
    case Fail(w) => FailMoves(c, s, w); MoveUsesPotential(c, s, s', w);
    case Query(w, answers) => QueryMoves(c, s, w, answers); MoveUsesPotential(c, s, s', w);
    case _ =>
  }

  lemma MoveUsesPotential(c: Config, s: Build, s': Build, w: nat)
    requires Moves(c, s, s', w)
    ensures Potential(c, s') + 1 <= Potential(c, s)
  {
    RemainingUpdate(s.workers, w, s'.workers[w]);
  }

  lemma {:induction false} RemainingAtStart(workers: nat)
    ensures RemainingOfAll(seq(workers, _ => Looping)) == STEPS_TO_STOP * workers
  {
    if workers > 0 {
      assert seq(workers, _ => Looping)[..workers - 1] == seq(workers - 1, _ => Looping);
      RemainingAtStart(workers - 1);
    }
  }

  /** In every interleaving the workers together take at most eight steps for each pair
      and two for each worker, so they end once their provider calls return. */
  lemma {:induction false} WorkerStepsAreBounded(c: Config, steps: seq<Step>)
    requires Run(c, steps).Some?
    ensures WorkerSteps(steps) + Potential(c, Run(c, steps).value) <= STEPS_PER_PAIR * c.Pairs() + STEPS_TO_STOP * c.workers
  {
    if |steps| == 0 {
      RemainingAtStart(c.workers);
    } else {
      WorkerStepsAreBounded(c, steps[..|steps| - 1]);
      StepUsesPotential(c, Run(c, steps[..|steps| - 1]).value, steps[|steps| - 1]);
    }
  }

  /** Workers hold pairs that have a slot and an answer. */
  predicate HoldsRealPair(c: Config, s: Build, w: nat)
    requires w < |s.workers|
  {
    |s.results| == c.Pairs() && (Held(s.workers[w]).Some? ==> Held(s.workers[w]).value < c.Pairs())
  }

  lemma WorkersHoldRealPairs(c: Config, s: Build, w: nat)
    requires Sound(c, s) && w < |s.workers|
    ensures HoldsRealPair(c, s, w)
  {
  }

  /** The step a worker takes next. */
  function NextStep(s: Build, w: nat): Step
    requires w < |s.workers|
  {
    match s.workers[w]
    case Looping => Claim(w)
    case Claiming => Claim(w)
    case Claimed(_) => Claim(w)
    case Failing(_, _) => Fail(w)
    case Recording(_) => Fail(w)
    case Cancelling => Fail(w)
    case Querying(_) => Query(w, true)
    case _ => Complete(w)
  }

  /** A worker that is not done can act, unless it waits for the progress lock. */
  lemma WorkerCanAct(c: Config, s: Build, w: nat)
    requires w < |s.workers| && HoldsRealPair(c, s, w)
    requires !s.workers[w].Done? && (s.workers[w].Stored? ==> s.lock.None?)
    ensures ByWorker(NextStep(s, w)) && Apply(c, s, NextStep(s, w)).Some?
  {
  }

  /** No deadlock: until all workers are done some worker can act. */
  lemma SomeWorkerCanAct(c: Config, s: Build) returns (step: Step)
    requires Sound(c, s) && !AllDone(s)
    ensures ByWorker(step) && Apply(c, s, step).Some?
  {
    var w: nat :| w < |s.workers| && !s.workers[w].Done?;
    if s.lock.Some? { w := s.lock.value; }
    WorkersHoldRealPairs(c, s, w);
    WorkerCanAct(c, s, w);
    step := NextStep(s, w);
  }

  /** A run in which the workers have used up their steps has ended. */
  lemma SpentRunIsDone(c: Config, steps: seq<Step>)
    requires Run(c, steps).Some? && WorkerSteps(steps) == STEPS_PER_PAIR * c.Pairs() + STEPS_TO_STOP * c.workers
    ensures AllDone(Run(c, steps).value)
  {
    RunIsSound(c, steps);
    WorkerStepsAreBounded(c, steps);
    if !AllDone(Run(c, steps).value) {
      var step := SomeWorkerCanAct(c, Run(c, steps).value);
      StepUsesPotential(c, Run(c, steps).value, step);
      assert false;
    }
  }
}
