/** What becomes of a job: the executor's outcome is what is saved, announced and
    delivered, updates and cancellations take hold, and no actor gets stuck. */
module JobOutcomes {
  import opened Domain
  import opened JobState
  import opened JobProtocol
  import opened JobSafety
  import opened JobRuns

  /** The completion a runner is saving, announcing or delivering. */
  function Carries(runner: Runner): Option<Completion> {
    match runner
    case SavingResult(text) => Some(Completion.Result(text))
    case SavingError(text) => Some(Completion.Error(text))
    case Announcing(_, after) => after
    case Leaving(completion) => Some(completion)
    case Finished(completion) => Some(completion)
    case _ => None
  }

  /** The executor's answer that calls for a completion. */
  predicate Asks(choice: Choice, completion: Completion) {
    match completion
    case Result(text) => choice == OutcomeResult(text)
    case Error(text) => choice == OutcomeError(text)
    case Withdrawn => choice.OutcomeCancelled?
  }

  /** At step `k` the runner, not cancelled, took that answer from the executor. */
  ghost predicate Took(id: string, now: int, steps: seq<Step>, k: nat, completion: Completion) {
    && k < |steps| && steps[k].RunnerActs? && Asks(steps[k].choice, completion)
    && Run(id, now, steps[..k]).Some?
    && Run(id, now, steps[..k]).value.runner.Joining? && !Run(id, now, steps[..k]).value.token
  }

  lemma CarriedFrom(w: World, choice: Choice, now: int, completion: Completion)
    requires |w.bus.history| > 0 && RunnerStep(w, choice, now).Some? && !completion.Withdrawn?
    requires Carries(RunnerStep(w, choice, now).value.runner) == Some(completion)
    ensures Carries(w.runner) == Some(completion) || (w.runner.Joining? && !w.token && Asks(choice, completion))
  {
  }

  lemma RunnerMovesItself(w: World, step: Step)
    requires Safe(w) && Apply(w, step).Some? && !step.RunnerActs?
    ensures Apply(w, step).value.runner == w.runner
  {
    if step.CancellerActs? { CancellerStepKeeps(w, step.canceller, step.now); }
  }

  /** Every result or error a job ends with is one its executor answered with. */
  lemma {:induction false} OutcomeWasAnswered(id: string, now: int, steps: seq<Step>, completion: Completion) returns (k: nat)
    requires Run(id, now, steps).Some? && !completion.Withdrawn?
    requires Carries(Run(id, now, steps).value.runner) == Some(completion)
    ensures Took(id, now, steps, k, completion)
  {
    k := |steps| - 1;
    var init, last := steps[..k], steps[k];
    var w := Run(id, now, init).value;
    RunIsSafe(id, now, init);
    if last.RunnerActs? { CarriedFrom(w, last.choice, last.now, completion); } else { RunnerMovesItself(w, last); }
    if Carries(w.runner) == Some(completion) {
      k := OutcomeWasAnswered(id, now, init, completion);
      assert init[..k] == steps[..k];
    }
  }

  /** It carries that completion, or found the job cancelled first. */
  predicate Committed(runner: Runner, completion: Completion) {
    Carries(runner) == Some(completion) || Carries(runner) == Some(Withdrawn) || (completion.Withdrawn? && runner.Withdrawing?)
  }

  lemma AnswerCommits(w: World, choice: Choice, now: int, completion: Completion)
    requires |w.bus.history| > 0 && RunnerStep(w, choice, now).Some?
    requires w.runner.Joining? && !w.token && Asks(choice, completion)
    ensures Committed(RunnerStep(w, choice, now).value.runner, completion)
  {
  }

  lemma SettlingStaysCommitted(w: World, now: int, completion: Completion)
    requires Safe(w) && RunnerSettles(w, now).Some? && Committed(w.runner, completion)
    ensures Committed(RunnerSettles(w, now).value.runner, completion)
  {
    if w.runner.Withdrawing? || w.runner.Leaving? { WithdrawingKeeps(w, now); } else { SavingKeeps(w, now); }
  }

  lemma AnnouncingStaysCommitted(w: World, completion: Completion)
    requires Safe(w) && RunnerAnnounces(w).Some? && Committed(w.runner, completion)
    ensures Committed(RunnerAnnounces(w).value.runner, completion)
  {
  }

  lemma CommittedStays(w: World, choice: Choice, now: int, completion: Completion)
    requires Safe(w) && RunnerStep(w, choice, now).Some? && Committed(w.runner, completion)
    ensures Committed(RunnerStep(w, choice, now).value.runner, completion)
  {
    if w.runner.Announcing? { AnnouncingStaysCommitted(w, completion); } else { SettlingStaysCommitted(w, now, completion); }
  }

  lemma StepStaysCommitted(w: World, step: Step, completion: Completion)
    requires Safe(w) && Apply(w, step).Some? && Committed(w.runner, completion)
    ensures Committed(Apply(w, step).value.runner, completion)
  {
    if step.RunnerActs? { CommittedStays(w, step.choice, step.now, completion); } else { RunnerMovesItself(w, step); }
  }

  lemma TookInit(id: string, now: int, steps: seq<Step>, k: nat, completion: Completion)
    requires k + 1 < |steps| && Took(id, now, steps, k, completion)
    ensures Took(id, now, steps[..|steps| - 1], k, completion)
  {
    assert steps[..|steps| - 1][..k] == steps[..k];
  }

  lemma TookLast(id: string, now: int, steps: seq<Step>, completion: Completion)
    requires Run(id, now, steps).Some? && |steps| > 0 && Took(id, now, steps, |steps| - 1, completion)
    ensures Committed(Run(id, now, steps).value.runner, completion)
  {
    var last := steps[|steps| - 1];
    RunIsSafe(id, now, steps[..|steps| - 1]);
    AnswerCommits(Run(id, now, steps[..|steps| - 1]).value, last.choice, last.now, completion);
  }

  lemma {:induction false} AnsweredIsCommitted(id: string, now: int, steps: seq<Step>, k: nat, completion: Completion)
    requires Run(id, now, steps).Some? && Took(id, now, steps, k, completion)
    ensures Committed(Run(id, now, steps).value.runner, completion)
  {
    if k == |steps| - 1 {
      TookLast(id, now, steps, completion);
    } else {
      var init := steps[..|steps| - 1];
      TookInit(id, now, steps, k, completion);
      AnsweredIsCommitted(id, now, init, k, completion);
      RunIsSafe(id, now, init);
      StepStaysCommitted(Run(id, now, init).value, steps[|steps| - 1], completion);
    }
  }

  /** Once the executor has answered, the job can end only with that answer, or
      withdrawn because it was cancelled first. */
  lemma AnswerIsDelivered(id: string, now: int, steps: seq<Step>, k: nat, completion: Completion)
    requires Run(id, now, steps).Some? && Took(id, now, steps, k, completion)
    requires Run(id, now, steps).value.runner.Finished?
    ensures var w := Run(id, now, steps).value;
      && (w.runner.completion == completion || w.runner.completion == Withdrawn)
      && |w.bus.history| > 0 && Delivers(w.bus.Job(), w.runner.completion)
  {
    AnsweredIsCommitted(id, now, steps, k, completion);
    CompletionAgrees(id, now, steps);
  }

  /** Nobody asks to cancel, the executor included. */
  predicate Wanted(steps: seq<Step>) {
    forall i | 0 <= i < |steps| :: !steps[i].CancelArrives? && (steps[i].RunnerActs? ==> !steps[i].choice.OutcomeCancelled?)
  }

  /** No trace of a cancellation. */
  predicate Uncancelled(w: World) {
    && w.cancellers == [] && !w.token && |w.bus.history| > 0 && !w.bus.Job().status.Cancelled?
    && !w.runner.Withdrawing? && Carries(w.runner) != Some(Withdrawn)
  }

  lemma WorkingStaysUncancelled(w: World, choice: Choice, now: int)
    requires Safe(w) && Uncancelled(w) && !choice.OutcomeCancelled?
    ensures RunnerEnters(w, choice, now).Some? ==> Uncancelled(RunnerEnters(w, choice, now).value)
    ensures RunnerConsumes(w, choice, now).Some? ==> Uncancelled(RunnerConsumes(w, choice, now).value)
  {
  }

  lemma SettlingStaysUncancelled(w: World, now: int)
    requires Safe(w) && Uncancelled(w) && RunnerSettles(w, now).Some?
    ensures Uncancelled(RunnerSettles(w, now).value)
  {
  }

  lemma AnnouncingStaysUncancelled(w: World)
    requires Safe(w) && Uncancelled(w) && RunnerAnnounces(w).Some?
    ensures Uncancelled(RunnerAnnounces(w).value)
  {
  }

  lemma RunnerStaysUncancelled(w: World, choice: Choice, now: int)
    requires Safe(w) && Uncancelled(w) && RunnerStep(w, choice, now).Some? && !choice.OutcomeCancelled?
    ensures Uncancelled(RunnerStep(w, choice, now).value)
  {
    WorkingStaysUncancelled(w, choice, now);
    if RunnerSettles(w, now).Some? { SettlingStaysUncancelled(w, now); }
    if RunnerAnnounces(w).Some? { AnnouncingStaysUncancelled(w); }
  }

  /** A job that nobody asks to cancel is not: it ends with its executor's answer. */
  lemma {:induction false} WantedJobIsNotCancelled(id: string, now: int, steps: seq<Step>)
    requires Run(id, now, steps).Some? && Wanted(steps)
    ensures Uncancelled(Run(id, now, steps).value)
  {
    if |steps| > 0 {
      var init, last := steps[..|steps| - 1], steps[|steps| - 1];
      WantedJobIsNotCancelled(id, now, init);
      RunIsSafe(id, now, init);
      if last.RunnerActs? { RunnerStaysUncancelled(Run(id, now, init).value, last.choice, last.now); }
    }
  }

  ghost predicate Announced(log: seq<Message>, kind: Kind) {
    exists k :: 0 <= k < |log| && log[k].kind == kind
  }

  /** A runner on its way out has announced its result or error, and a cancel request
      about to signal has announced the cancellation. */
  ghost predicate AllAnnounced(w: World) {
    && ((w.runner.Leaving? || w.runner.Finished?) && !w.runner.completion.Withdrawn? ==>
         Announced(w.bus.log, KindOf(w.runner.completion)))
    && (forall i | 0 <= i < |w.cancellers| && w.cancellers[i].Signalling? :: Announced(w.bus.log, Kind.WasCancelled))
  }

  lemma AnnouncedGrows(a: seq<Message>, b: seq<Message>, kind: Kind)
    requires a <= b && Announced(a, kind)
    ensures Announced(b, kind)
  {
    var k :| 0 <= k < |a| && a[k].kind == kind;
    assert b[k].kind == kind;
  }

  /** A publication ends by sending its event; only progress of a job that has ended
      meanwhile is dropped. */
  lemma PublicationEnds(bus: Bus, recorded: nat, p: Publication)
    requires |bus.history| > 0 && Publish(bus, recorded, p).2.None?
    ensures
      || (p.Sending? && Publish(bus, recorded, p).0.log == bus.log + [Message(p.kind, p.number, p.version)])
      || (p == Reading(Progressed) && Terminal(bus.Job()))
    ensures p.kind != Progressed ==> Announced(Publish(bus, recorded, p).0.log, p.kind)
  {
    if p.Sending? {
      var log := Publish(bus, recorded, p).0.log;
      assert log[|bus.log|].kind == p.kind;
    }
  }

  lemma LeavingIsAnnounced(w: World, choice: Choice, now: int)
    requires Safe(w) && AllAnnounced(w) && RunnerStep(w, choice, now).Some?
    ensures var r := RunnerStep(w, choice, now).value;
      (r.runner.Leaving? || r.runner.Finished?) && !r.runner.completion.Withdrawn? ==>
        Announced(r.bus.log, KindOf(r.runner.completion))
  {
    if w.runner.Announcing? {
      AnnouncerLeavesAnnounced(w);
    }
  }

  lemma AnnouncerLeavesAnnounced(w: World)
    requires Safe(w) && w.runner.Announcing? && RunnerAnnounces(w).Some?
    ensures var r := RunnerAnnounces(w).value;
      (r.runner.Leaving? || r.runner.Finished?) && !r.runner.completion.Withdrawn? ==>
        Announced(r.bus.log, KindOf(r.runner.completion))
  {
    if Publish(w.bus, w.recorded, w.runner.publication).2.None? { PublicationEnds(w.bus, w.recorded, w.runner.publication); }
  }

  lemma SignallingIsAnnounced(w: World, i: nat, now: int)
    requires Safe(w) && i < |w.cancellers| && CancellerStep(w, i, now).Some?
    ensures CancellerStep(w, i, now).value.cancellers[i].Signalling? ==>
      Announced(CancellerStep(w, i, now).value.bus.log, Kind.WasCancelled)
  {
    if w.cancellers[i].Telling? {
      var p := w.cancellers[i].publication;
      if Publish(w.bus, w.recorded, p).2.None? { PublicationEnds(w.bus, w.recorded, p); }
    }
  }

  lemma StepKeepsAnnounced(w: World, step: Step)
    requires Safe(w) && AllAnnounced(w) && Apply(w, step).Some?
    ensures AllAnnounced(Apply(w, step).value)
  {
    var w' := Apply(w, step).value;
    StepKeepsSafe(w, step);
    if Announced(w.bus.log, Kind.WasCancelled) { AnnouncedGrows(w.bus.log, w'.bus.log, Kind.WasCancelled); }
    if step.RunnerActs? {
      RunnerStepKeeps(w, step.choice, step.now);
      LeavingIsAnnounced(w, step.choice, step.now);
    } else {
      RunnerMovesItself(w, step);
      if (w.runner.Leaving? || w.runner.Finished?) && !w.runner.completion.Withdrawn? {
        AnnouncedGrows(w.bus.log, w'.bus.log, KindOf(w.runner.completion));
      }
    }
    CancellersStayAnnounced(w, step);
  }

  lemma CancellersStayAnnounced(w: World, step: Step)
    requires Safe(w) && AllAnnounced(w) && Apply(w, step).Some?
    requires Announced(w.bus.log, Kind.WasCancelled) ==> Announced(Apply(w, step).value.bus.log, Kind.WasCancelled)
    ensures var w' := Apply(w, step).value;
      forall i | 0 <= i < |w'.cancellers| && w'.cancellers[i].Signalling? :: Announced(w'.bus.log, Kind.WasCancelled)
  {
    match step
    case RunnerActs(choice, now) => RunnerStepKeeps(w, choice, now);
    case CancellerActs(i, now) =>
      CancellerStepKeeps(w, i, now);
      SignallingIsAnnounced(w, i, now);
    case _ =>
  }

  lemma {:induction false} RunIsAnnounced(id: string, now: int, steps: seq<Step>)
    requires Run(id, now, steps).Some?
    ensures AllAnnounced(Run(id, now, steps).value)
  {
    if |steps| > 0 {
      var init := steps[..|steps| - 1];
      RunIsAnnounced(id, now, init);
      RunIsSafe(id, now, init);
      StepKeepsAnnounced(Run(id, now, init).value, steps[|steps| - 1]);
    }
  }

  /** A job that ends with a result or an error has sent exactly one terminal event, of
      that kind and with the final state. */
  lemma ExactlyOneTerminalEvent(id: string, now: int, steps: seq<Step>) returns (k: nat)
    requires Run(id, now, steps).Some? && Run(id, now, steps).value.runner.Finished?
    requires !Run(id, now, steps).value.runner.completion.Withdrawn?
    ensures var w := Run(id, now, steps).value;
      && k < |w.bus.log| && w.bus.log[k].kind == KindOf(w.runner.completion)
      && |w.bus.history| > 0 && w.bus.log[k].version == |w.bus.history| - 1
      && forall j | 0 <= j < |w.bus.log| && w.bus.log[j].kind != Progressed :: j == k
  {
    var w := Run(id, now, steps).value;
    RunIsAnnounced(id, now, steps);
    k :| k < |w.bus.log| && w.bus.log[k].kind == KindOf(w.runner.completion);
    AtMostOneTerminalEvent(id, now, steps, k, k);
    forall j: nat | j < |w.bus.log| && w.bus.log[j].kind != Progressed ensures j == k {
      if j <= k { AtMostOneTerminalEvent(id, now, steps, j, k); } else { AtMostOneTerminalEvent(id, now, steps, k, j); }
    }
  }

  /** An admitted job that is still active becomes running; a cancelled one is withdrawn. */
  lemma AdmissionTakesHold(w: World, choice: Choice, now: int)
    requires Safe(w) && w.runner.Marking?
    ensures RunnerStep(w, choice, now).Some?
    ensures var w' := RunnerStep(w, choice, now).value;
      if w.bus.Job().status.Active() then
        && w'.bus.history == w.bus.history + [w'.bus.Job()]
        && StoresRunning(w.bus.Job(), w'.bus.Job(), now) && w'.runner.Consuming?
      else w'.runner == Leaving(Withdrawn) && w'.bus == w.bus
  {
    ActiveJobsMove(w.bus.Job(), "", now);
  }

  /** A withdrawing runner cancels a job that is still active and announces it; a job
      that was cancelled already it just leaves. */
  lemma WithdrawalTakesHold(w: World, choice: Choice, now: int)
    requires Safe(w) && w.runner.Withdrawing?
    ensures RunnerStep(w, choice, now).Some?
    ensures var w' := RunnerStep(w, choice, now).value;
      if w.bus.Job().status.Active() then
        && w'.bus.history == w.bus.history + [w'.bus.Job()]
        && StoresCancellation(w.bus.Job(), w'.bus.Job(), CANCEL_MESSAGE, now)
        && w'.runner == Announcing(Reading(Kind.WasCancelled), Some(Withdrawn))
      else w'.runner == Leaving(Withdrawn) && w'.bus == w.bus
  {
    ActiveJobsMove(w.bus.Job(), CANCEL_MESSAGE, now);
  }

  /** A progress update of an active job is stored and then announced; on a cancelled
      one the runner raises the token and turns to the executor. */
  lemma UpdateTakesHold(w: World, choice: Choice, now: int)
    requires Safe(w) && w.runner.Updating?
    ensures RunnerStep(w, choice, now).Some?
    ensures var w' := RunnerStep(w, choice, now).value;
      if w.bus.Job().status.Active() then
        && w'.bus.history == w.bus.history + [w'.bus.Job()]
        && StoresProgress(w.bus.Job(), w'.bus.Job(), w.runner.stage, w.runner.progress, w.runner.message, now)
        && w'.runner == Announcing(Reading(Progressed), None)
      else w'.token && w'.runner.Joining? && w'.bus == w.bus
  {
    UpdateStoresProgress(w.bus.Job(), w.runner.stage, w.runner.progress, w.runner.message, now);
  }

  /** An update that the executor sends before the token is raised reaches the runner. */
  lemma UpdateIsTaken(w: World, stage: Stage, progress: nat, message: Option<string>, now: int)
    requires Safe(w) && w.runner.Consuming? && !w.token
    ensures RunnerStep(w, Receive(stage, progress, message), now).Some?
    ensures RunnerStep(w, Receive(stage, progress, message), now).value.runner == Updating(stage, progress, message)
  {
  }

  /** A cancel request cancels an active job for good, announces it when a runner is
      there to be told, and then raises the token. */
  lemma CancelTakesHold(w: World, i: nat, now: int)
    requires Safe(w) && i < |w.cancellers|
    ensures w.cancellers[i].Deciding? ==> CancellerStep(w, i, now).Some?
    ensures w.cancellers[i].Deciding? && w.bus.Job().status.Active() ==>
      var w' := CancellerStep(w, i, now).value;
      && |w'.bus.history| > 0 && StoresCancellation(w.bus.Job(), w'.bus.Job(), CANCEL_MESSAGE, now)
      && w'.cancellers[i] == if w.cancellers[i].active then Telling(Reading(Kind.WasCancelled)) else Gone
    ensures w.cancellers[i].Arriving? ==>
      CancellerStep(w, i, now).Some? && CancellerStep(w, i, now).value.cancellers[i] == Deciding(w.registered)
    ensures w.cancellers[i].Signalling? ==>
      CancellerStep(w, i, now).Some? && CancellerStep(w, i, now).value.token
  {
    if w.cancellers[i].Deciding? { ActiveJobsMove(w.bus.Job(), CANCEL_MESSAGE, now); }
  }

  /** The runner is never stuck: until it is finished some answer of its environment
      lets it act, and only before the executor has answered does that depend on it. */
  lemma RunnerCanAct(w: World, choice: Choice, now: int)
    requires Safe(w) && !w.runner.Finished?
    requires w.runner.Joining? ==> choice.OutcomeResult? || choice.OutcomeError? || choice.OutcomeCancelled? || w.token
    requires w.runner.Queued? ==> w.token || !choice.SeeToken?
    ensures RunnerStep(w, choice, now).Some?
  {
  }

  /** Neither is a cancel request, until it is gone. */
  lemma CancellerCanAct(w: World, i: nat, now: int)
    requires Safe(w) && i < |w.cancellers| && !w.cancellers[i].Gone?
    ensures CancellerStep(w, i, now).Some?
  {
  }
}
