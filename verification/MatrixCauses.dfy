/** What makes a parallel matrix build fail, and that nothing else does: a build
    without a cause succeeds, a late answer is refused, a cancelled build stops asking. */
module MatrixCauses {
  import opened Domain
  import opened MatrixBuild

  /** The deadline does not pass and the provider never fails. */
  predicate Punctual(steps: seq<Step>) {
    forall i | 0 <= i < |steps| :: !steps[i].DeadlinePasses? && (steps[i].Query? ==> steps[i].answers)
  }

  predicate CallerStays(steps: seq<Step>) {
    forall i | 0 <= i < |steps| :: !steps[i].CallerCancels?
  }

  predicate Failed(worker: Worker) { worker.Failing? || worker.Recording? || worker.Cancelling? }

  /** Nothing has failed or run out of time. */
  predicate NothingLate(s: Build) {
    s.failure.None? && !s.timedOut && !s.expired && forall w | 0 <= w < |s.workers| :: !Failed(s.workers[w])
  }

  /** Nobody has asked to stop. */
  predicate NobodyStops(s: Build) {
    !s.callerToken && !s.callerCancelled && !s.token && !s.watchdog.Signalling?
  }

  lemma StepStaysPunctual(c: Config, s: Build, step: Step)
    requires NothingLate(s) && Apply(c, s, step).Some? && Punctual([step])
    ensures NothingLate(Apply(c, s, step).value)
  {
    assert [step][0] == step;
  }

  lemma StepStaysUnasked(c: Config, s: Build, step: Step)
    requires NothingLate(s) && NobodyStops(s) && Apply(c, s, step).Some? && CallerStays([step])
    ensures NobodyStops(Apply(c, s, step).value)
  {
    assert [step][0] == step;
  }

  /** A failure or a timeout has a cause: a deadline that passed or a query that failed. */
  lemma {:induction false} PunctualRunFailsNothing(c: Config, steps: seq<Step>)
    requires Run(c, steps).Some? && Punctual(steps)
    ensures NothingLate(Run(c, steps).value)
  {
    if |steps| > 0 {
      var last := steps[|steps| - 1];
      PunctualRunFailsNothing(c, steps[..|steps| - 1]);
      assert [last][0] == last;
      StepStaysPunctual(c, Run(c, steps[..|steps| - 1]).value, last);
    }
  }

  /** And a build whose caller stays is never told to stop. */
  lemma {:induction false} CalmRunIsNotStopped(c: Config, steps: seq<Step>)
    requires Run(c, steps).Some? && Punctual(steps) && CallerStays(steps)
    ensures NobodyStops(Run(c, steps).value)
  {
    if |steps| > 0 {
      var last := steps[|steps| - 1];
      CalmRunIsNotStopped(c, steps[..|steps| - 1]);
      PunctualRunFailsNothing(c, steps[..|steps| - 1]);
      assert [last][0] == last;
      StepStaysUnasked(c, Run(c, steps[..|steps| - 1]).value, last);
    }
  }

  /** A build without a cause to fail fills every slot with the provider's answer, and
      finishing it returns the matrix. */
  lemma CalmBuildSucceeds(c: Config, steps: seq<Step>)
    requires Run(c, steps).Some? && Punctual(steps) && CallerStays(steps)
    requires AllDone(Run(c, steps).value) && c.workers >= 1
    ensures var s := Run(c, steps).value;
      && (forall pair: nat | pair < c.Pairs() :: Filled(s, pair) && s.results[pair] == Some(c.answers[pair]))
      && Succeeds(c, s)
  {
    var s := Run(c, steps).value;
    RunIsSound(c, steps);
    PunctualRunFailsNothing(c, steps);
    CalmRunIsNotStopped(c, steps);
    DoneIsExact(c, s);
    forall pair: nat | pair < c.Pairs() ensures Filled(s, pair) { assert !Aborted(s); }
  }

  /** A claimed pair that its worker has given up: nobody will fill its slot. */
  ghost predicate Abandoned(s: Build, pair: nat) {
    && pair < s.next && !Filled(s, pair)
    && forall w | 0 <= w < |s.workers| && Held(s.workers[w]) == Some(pair) :: Failed(s.workers[w])
  }

  lemma AbandonedAfterMove(c: Config, s: Build, s': Build, w: nat, pair: nat)
    requires Moves(c, s, s', w) && Abandoned(s, pair)
    ensures Abandoned(s', pair)
  {
    assert Failed(s.workers[w]) ==> Failed(s'.workers[w]) || s'.workers[w].Done?;
  }

  lemma AbandonedStays(c: Config, s: Build, step: Step, pair: nat)
    requires Apply(c, s, step).Some? && Abandoned(s, pair)
    ensures Abandoned(Apply(c, s, step).value, pair)
  {
    var s' := Apply(c, s, step).value;
    match step
    case Claim(w) => ClaimMoves(c, s, w); AbandonedAfterMove(c, s, s', w, pair);
    case Complete(w) => CompleteMoves(c, s, w); AbandonedAfterMove(c, s, s', w, pair);
    case Fail(w) => FailMoves(c, s, w); AbandonedAfterMove(c, s, s', w, pair);
    case Query(w, answers) => QueryMoves(c, s, w, answers); AbandonedAfterMove(c, s, s', w, pair);
    case _ =>
  }

  lemma {:induction false} AbandonedForGood(c: Config, steps: seq<Step>, k: nat, pair: nat)
    requires k <= |steps| && Run(c, steps).Some?
    requires Run(c, steps[..k]).Some? && Abandoned(Run(c, steps[..k]).value, pair)
    ensures Abandoned(Run(c, steps).value, pair)
  {
    if k == |steps| {
      assert steps[..k] == steps;
    } else {
      var init := steps[..|steps| - 1];
      assert init[..k] == steps[..k];
      AbandonedForGood(c, init, k, pair);
      AbandonedStays(c, Run(c, init).value, steps[|steps| - 1], pair);
    }
  }

  /** The answer that worker `w` is waiting for comes too late, or is a failure. */
  predicate Refused(c: Config, s: Build, w: nat, answers: bool) {
    w < |s.workers| && s.workers[w].Querying? && s.workers[w].pair < c.Pairs() &&
    (!answers || (s.expired && c.answers[s.workers[w].pair].Some?))
  }

  lemma RefusalAbandons(c: Config, s: Build, w: nat, answers: bool)
    requires Sound(c, s) && Refused(c, s, w, answers)
    ensures Apply(c, s, Query(w, answers)).Some?
    ensures Abandoned(Apply(c, s, Query(w, answers)).value, s.workers[w].pair)
    ensures Apply(c, s, Query(w, answers)).value.workers == s.workers[w := Failing(s.workers[w].pair, s.expired)]
  {
    var pair, s' := s.workers[w].pair, Apply(c, s, Query(w, answers)).value;
    assert Held(s.workers[w]) == Some(pair);
    forall v | 0 <= v < |s'.workers| && Held(s'.workers[v]) == Some(pair) ensures Failed(s'.workers[v]) {
      assert v == w;
    }
  }

  /** A query that fails, or brings minutes after the deadline, never fills its slot. */
  lemma RefusedAnswerIsNotUsed(c: Config, steps: seq<Step>, k: nat, w: nat, answers: bool)
    requires k < |steps| && steps[k] == Query(w, answers) && Run(c, steps).Some? && Run(c, steps[..k]).Some?
    requires Refused(c, Run(c, steps[..k]).value, w, answers)
    ensures !Filled(Run(c, steps).value, Run(c, steps[..k]).value.workers[w].pair)
  {
    var s := Run(c, steps[..k]).value;
    RunIsSound(c, steps[..k]);
    RefusalAbandons(c, s, w, answers);
    assert steps[..k + 1][..k] == steps[..k];
    AbandonedForGood(c, steps, k + 1, s.workers[w].pair);
  }

  /** An answer that is not refused is on its way into its slot. */
  lemma AcceptedAnswerIsStored(c: Config, s: Build, w: nat)
    requires Sound(c, s) && w < |s.workers| && s.workers[w].Querying? && !Refused(c, s, w, true)
    ensures Apply(c, s, Query(w, true)).Some?
    ensures Apply(c, s, Query(w, true)).value.workers[w] == Storing(s.workers[w].pair)
  {
    assert Held(s.workers[w]).Some?;
  }

  lemma ClaimAsksOnlyInTime(c: Config, s: Build, w: nat)
    requires w < |s.workers| && ClaimStep(c, s, w).Some? && ClaimStep(c, s, w).value.workers[w].Querying?
    ensures !s.token && !s.expired
  {
  }

  /** No query starts once the build has been told to stop or its time is up. */
  lemma StoppedBuildAsksNothing(c: Config, s: Build, step: Step, w: nat)
    requires Apply(c, s, step).Some? && w < |s.workers| && !s.workers[w].Querying?
    requires w < |Apply(c, s, step).value.workers| && Apply(c, s, step).value.workers[w].Querying?
    ensures step == Claim(w) && !s.token && !s.expired
  {
    match step
    case Claim(v) => ClaimMoves(c, s, v); ClaimAsksOnlyInTime(c, s, w);
    case Complete(v) => CompleteMoves(c, s, v);
    case Fail(v) => FailMoves(c, s, v);
    case Query(v, answers) => QueryMoves(c, s, v, answers);
    case _ =>
  }

  /** A worker that looks up after the stop leaves; one that has just claimed a pair
      when time is up fails it as late. */
  lemma StoppedWorkersLeave(c: Config, s: Build, w: nat)
    requires w < |s.workers|
    ensures s.workers[w].Looping? && s.token ==> Apply(c, s, Claim(w)) == Some(s.(workers := s.workers[w := Done]))
    ensures s.workers[w].Claimed? && s.expired ==>
      Apply(c, s, Claim(w)) == Some(s.(workers := s.workers[w := Failing(s.workers[w].pair, true)]))
    ensures s.workers[w].Claimed? && s.token && !s.expired ==> Apply(c, s, Claim(w)) == Some(s.(workers := s.workers[w := Done]))
  {
  }

  /** A watching watchdog notices both causes, records which one, and then stops the workers. */
  lemma WatchdogReacts(c: Config, s: Build)
    requires s.watchdog.Watching? && (s.callerToken || s.expired)
    ensures var step := if s.callerToken then WatchdogSeesCaller else WatchdogSeesDeadline;
      var noticed := Apply(c, s, step);
      && noticed.Some?
      && (if s.callerToken then noticed.value.callerCancelled else noticed.value.timedOut)
      && Apply(c, noticed.value, WatchdogSignals).Some? && Apply(c, noticed.value, WatchdogSignals).value.token
  {
  }

  /** The first failure is the one that is kept. */
  lemma FirstFailureIsKept(c: Config, s: Build, step: Step)
    requires Apply(c, s, step).Some? && s.failure.Some?
    ensures Apply(c, s, step).value.failure == s.failure
  {
  }

  /** A failing worker records its pair as the first failure, or leaves the earlier one;
      whoever was first goes on to stop the others. */
  lemma FailureIsRecorded(c: Config, s: Build, w: nat)
    requires w < |s.workers| && Failed(s.workers[w])
    ensures Apply(c, s, Fail(w)).Some?
    ensures var s' := Apply(c, s, Fail(w)).value;
      && |s'.workers| == |s.workers|
      && (s.workers[w].Failing? ==> s'.workers[w] == Recording(s.workers[w].pair) && (s.workers[w].late ==> s'.timedOut))
      && (s.workers[w].Recording? && s.failure.None? ==>
           s'.failure == Some(s.workers[w].pair) && s'.workers[w].Cancelling?)
      && (s.workers[w].Recording? && s.failure.Some? ==> s'.workers[w].Done?)
      && (s.workers[w].Cancelling? ==> s'.token && s'.workers[w].Done?)
  {
  }
}
