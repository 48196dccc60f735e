/** What the job protocol guarantees over whole runs, and the one run in which a
    reader that came too early is misled. */
module JobRuns {
  import opened Domain
  import opened JobState
  import opened JobProtocol
  import opened JobSafety

  /** The world after a run of steps, if every step was enabled. */
  function Run(id: string, now: int, steps: seq<Step>): Option<World> {
    if |steps| == 0 then Some(Start(id, now))
    else
      var before :- Run(id, now, steps[..|steps| - 1]);
      if |before.bus.history| == 0 then None else Apply(before, steps[|steps| - 1])
  }

  /** Every reachable world is safe. */
  lemma {:induction false} RunIsSafe(id: string, now: int, steps: seq<Step>)
    requires Run(id, now, steps).Some?
    ensures Safe(Run(id, now, steps).value) && OneTerminal(Run(id, now, steps).value)
  {
    if |steps| > 0 {
      var before := steps[..|steps| - 1];
      RunIsSafe(id, now, before);
      StepKeepsSafe(Run(id, now, before).value, steps[|steps| - 1]);
      StepKeepsOneTerminal(Run(id, now, before).value, steps[|steps| - 1]);
    }
  }

  lemma {:induction false} RunGrows(id: string, now: int, steps: seq<Step>, k: nat)
    requires k <= |steps| && Run(id, now, steps).Some?
    ensures Run(id, now, steps[..k]).Some?
    ensures Grows(Run(id, now, steps[..k]).value.bus, Run(id, now, steps).value.bus)
  {
    if k == |steps| {
      assert steps[..k] == steps;
      RunIsSafe(id, now, steps);
      SameGrows(Run(id, now, steps).value.bus);
    } else {
      var before := steps[..|steps| - 1];
      assert before[..k] == steps[..k];
      RunGrows(id, now, before, k);
      RunIsSafe(id, now, before);
      StepKeepsSafe(Run(id, now, before).value, steps[|steps| - 1]);
    }
  }

  /** Over any run the persisted job only moves forward: a terminal status is final,
      and status, stage and progress never go back. */
  lemma JobMovesForward(id: string, now: int, steps: seq<Step>, k: nat)
    requires k <= |steps| && Run(id, now, steps).Some?
    ensures Run(id, now, steps[..k]).Some?
    ensures |Run(id, now, steps[..k]).value.bus.history| > 0 && |Run(id, now, steps).value.bus.history| > 0
    ensures Follows(Run(id, now, steps[..k]).value.bus.Job(), Run(id, now, steps).value.bus.Job())
  {
    RunGrows(id, now, steps, k);
    var a, b := Run(id, now, steps[..k]).value.bus, Run(id, now, steps).value.bus;
    assert b.history[|a.history| - 1] == a.Job();
  }

  /** A cancelled token means a persisted cancellation, the delivered completion is the
      persisted outcome with its payload, and the runner never meets an unexpected transition. */
  lemma CompletionAgrees(id: string, now: int, steps: seq<Step>)
    requires Run(id, now, steps).Some?
    ensures var w := Run(id, now, steps).value;
      && |w.bus.history| > 0
      && !w.runner.Broken?
      && (w.token ==> w.bus.Job().status == Status.Cancelled)
      && (w.runner.Finished? ==> Delivers(w.bus.Job(), w.runner.completion))
  {
    RunIsSafe(id, now, steps);
  }

  lemma {:induction false} SentCounts(log: seq<Message>, i: nat, j: nat)
    requires i < j < |log| && log[i].kind != Progressed && log[j].kind != Progressed
    ensures Sent(log) >= 2
  {
    var k := |log| - 1;
    if j < k {
      SentCounts(log[..k], i, j);
    } else {
      SentAny(log[..k], i);
    }
  }

  lemma {:induction false} SentAny(log: seq<Message>, i: nat)
    requires i < |log| && log[i].kind != Progressed
    ensures Sent(log) >= 1
  {
    if i < |log| - 1 { SentAny(log[..|log| - 1], i); }
  }

  /** At most one terminal event is ever sent, and it carries the final state. */
  lemma AtMostOneTerminalEvent(id: string, now: int, steps: seq<Step>, i: nat, j: nat)
    requires Run(id, now, steps).Some?
    requires i <= j < |Run(id, now, steps).value.bus.log|
    requires Run(id, now, steps).value.bus.log[i].kind != Progressed
    requires Run(id, now, steps).value.bus.log[j].kind != Progressed
    ensures i == j
    ensures var bus := Run(id, now, steps).value.bus;
      |bus.history| > 0 && bus.log[i].version == |bus.history| - 1 && bus.Job().status == StatusOf(bus.log[i].kind)
  {
    RunIsSafe(id, now, steps);
    var bus := Run(id, now, steps).value.bus;
    if i < j { SentCounts(bus.log, i, j); }
    assert EventOk(bus, bus.log[i]);
  }

  /** Every stream: each emission meets its event's contract, sequence numbers never
      decrease, nothing follows a terminal state, and a subscriber's snapshot labelled
      n is at least as recent as the state in every event numbered at most n. */
  lemma StreamsAreOrdered(id: string, now: int, steps: seq<Step>, i: nat, k: nat)
    requires Run(id, now, steps).Some?
    requires i < |Run(id, now, steps).value.readers| && k < |Run(id, now, steps).value.readers[i].emitted|
    ensures var bus, r := Run(id, now, steps).value.bus, Run(id, now, steps).value.readers[i];
      && r.emitted[k].version < |bus.history|
      && IsValidForEvent(r.emitted[k].kind, bus.history[r.emitted[k].version])
      && (forall l | k <= l < |r.emitted| :: r.emitted[k].number <= r.emitted[l].number)
      && (Terminal(bus.history[r.emitted[k].version]) ==> k == |r.emitted| - 1)
      && (r.emitted[k].kind.Snapshot? && (r.live || Terminal(bus.history[r.emitted[k].version])) ==>
            forall m | 0 <= m < |bus.log| && bus.log[m].number <= r.emitted[k].number ::
              bus.log[m].version <= r.emitted[k].version)
  {
    RunIsSafe(id, now, steps);
    var bus, r := Run(id, now, steps).value.bus, Run(id, now, steps).value.readers[i];
    assert ReaderOk(bus, r);
    forall m | r.emitted[k].kind.Snapshot? && (r.live || Terminal(bus.history[r.emitted[k].version])) &&
      0 <= m < |bus.log| && bus.log[m].number <= r.emitted[k].number
      ensures bus.log[m].version <= r.emitted[k].version
    {
      assert EventOk(bus, bus.log[m]);
    }
  }

  /** Where a reader without a subscription can be: it emits at most one snapshot. */
  predicate ColdOk(r: Reader) {
    !r.live ==>
      (r.emitted == [] && (r.phase.Connecting? || r.phase.Cold? || r.phase.Labelling?)) ||
      (|r.emitted| == 1 && r.phase.Closed?)
  }

  /** It has read the job: it is about to label `version`, or has emitted it. */
  predicate HasRead(r: Reader, version: nat) {
    !r.live && (r.phase == Labelling(version) || (r.phase.Closed? && |r.emitted| == 1 && r.emitted[0].version == version))
  }

  lemma ColdStep(bus: Bus, registered: bool, recorded: nat, r: Reader)
    requires |bus.history| > 0 && ColdOk(r) && ReaderStep(bus, registered, recorded, r).Some?
    ensures var r' := ReaderStep(bus, registered, recorded, r).value;
      && ColdOk(r')
      && forall version: nat | HasRead(r', version) ::
           HasRead(r, version) || (r.phase.Cold? && version == |bus.history| - 1)
  {
  }

  /** What one step does to reader `i`: nothing, its own step, or its arrival. */
  lemma ReaderSteps(w: World, step: Step, i: nat)
    requires Safe(w) && Apply(w, step).Some? && i < |Apply(w, step).value.readers|
    ensures var r := Apply(w, step).value.readers[i];
      && (i >= |w.readers| ==> r == Reader(Connecting, false, 0, 0, []))
      && (i < |w.readers| && r != w.readers[i] ==>
            step == ReaderActs(i) && ReaderStep(w.bus, w.registered, w.recorded, w.readers[i]) == Some(r))
  {
    match step
    case RunnerActs(choice, now) => RunnerStepKeeps(w, choice, now);
    case CancellerActs(j, now) => CancellerStepKeeps(w, j, now);
    case _ =>
  }

  lemma {:induction false} ReadersAreColdOk(id: string, now: int, steps: seq<Step>, i: nat)
    requires Run(id, now, steps).Some? && i < |Run(id, now, steps).value.readers|
    ensures ColdOk(Run(id, now, steps).value.readers[i])
  {
    if |steps| > 0 {
      var init := steps[..|steps| - 1];
      var w := Run(id, now, init).value;
      RunIsSafe(id, now, init);
      ReaderSteps(w, steps[|steps| - 1], i);
      if i < |w.readers| {
        ReadersAreColdOk(id, now, init, i);
        if ReaderStep(w.bus, w.registered, w.recorded, w.readers[i]).Some? {
          ColdStep(w.bus, w.registered, w.recorded, w.readers[i]);
        }
      }
    }
  }

  /** The step at which an unsubscribed reader read the job it labels. */
  lemma {:induction false} ReadingStep(id: string, now: int, steps: seq<Step>, i: nat, version: nat) returns (k: nat)
    requires Run(id, now, steps).Some? && i < |Run(id, now, steps).value.readers|
    requires HasRead(Run(id, now, steps).value.readers[i], version)
    ensures k < |steps| && steps[k] == ReaderActs(i) && Run(id, now, steps[..k]).Some?
    ensures var w := Run(id, now, steps[..k]).value;
      i < |w.readers| && w.readers[i].phase.Cold? && version == |w.bus.history| - 1
  {
    k := |steps| - 1;
    var init := steps[..k];
    var w := Run(id, now, init).value;
    RunIsSafe(id, now, init);
    ReaderSteps(w, steps[k], i);
    ReadersAreColdOk(id, now, init, i);
    if HasRead(w.readers[i], version) {
      k := ReadingStep(id, now, init, i, version);
      assert init[..k] == steps[..k];
    } else {
      ColdStep(w.bus, w.registered, w.recorded, w.readers[i]);
    }
  }

  /** A job read after `k` steps and labelled `number` later is as recent as its label
      exactly when no event numbered since, up to the label, carries a newer state. */
  lemma RecencyIff(id: string, now: int, steps: seq<Step>, k: nat, number: nat)
    requires k <= |steps| && Run(id, now, steps).Some?
    requires number <= |Run(id, now, steps).value.bus.numbered|
    ensures Run(id, now, steps[..k]).Some?
    ensures var a, b := Run(id, now, steps[..k]).value.bus, Run(id, now, steps).value.bus;
      && |a.history| > 0 && |a.numbered| <= |b.numbered|
      && (Recent(b, number, |a.history| - 1) <==>
            forall j | |a.numbered| <= j < number :: b.numbered[j] <= |a.history| - 1)
      && (number <= |a.numbered| ==> Recent(b, number, |a.history| - 1))
  {
    RunGrows(id, now, steps, k);
  }

  /** The exact condition for an unsubscribed reader: it read the job at step `k`, and
      its snapshot is as recent as its label exactly when no event numbered since then,
      up to the label, carries a newer state. In particular it is whenever the label
      does not exceed the counter at the time of the read, which is the comparison
      that subscribed readers make and this one does not. */
  lemma UnsubscribedSnapshotIff(id: string, now: int, steps: seq<Step>, i: nat) returns (k: nat)
    requires Run(id, now, steps).Some? && i < |Run(id, now, steps).value.readers|
    requires !Run(id, now, steps).value.readers[i].live && Run(id, now, steps).value.readers[i].phase.Closed?
    ensures |Run(id, now, steps).value.readers[i].emitted| == 1
    ensures k < |steps| && steps[k] == ReaderActs(i) && Run(id, now, steps[..k]).Some?
    ensures i < |Run(id, now, steps[..k]).value.readers| && Run(id, now, steps[..k]).value.readers[i].phase.Cold?
    ensures var a, b := Run(id, now, steps[..k]).value.bus, Run(id, now, steps).value.bus;
      var snapshot := Run(id, now, steps).value.readers[i].emitted[0];
      && snapshot.version == |a.history| - 1 && snapshot.number <= |b.numbered|
      && (Recent(b, snapshot.number, snapshot.version) <==>
            forall j | |a.numbered| <= j < snapshot.number :: b.numbered[j] <= snapshot.version)
      && (snapshot.number <= |a.numbered| ==> Recent(b, snapshot.number, snapshot.version))
  {
    var r := Run(id, now, steps).value.readers[i];
    ReadersAreColdOk(id, now, steps, i);
    k := ReadingStep(id, now, steps, i, r.emitted[0].version);
    RunIsSafe(id, now, steps);
    assert ReaderOk(Run(id, now, steps).value.bus, r);
    RecencyIff(id, now, steps, k, r.emitted[0].number);
  }

  lemma RunOne(id: string, now: int, steps: seq<Step>, step: Step)
    requires Run(id, now, steps).Some? && |Run(id, now, steps).value.bus.history| > 0
    ensures Run(id, now, steps + [step]) == Apply(Run(id, now, steps).value, step)
  {
    assert (steps + [step])[..|steps|] == steps;
  }

  /** The first part of a run in which a reader looks for the job's activity before
      submission has registered it, and reads the pending job without a subscription. */
  lemma EarlyReaderRun(id: string, now: int) returns (steps: seq<Step>)
    ensures Run(id, now, steps) == Some(World(
      Bus([Create(id, now)], [], []), false, true, 0, Queued, [], [Reader(Labelling(0), false, 0, 0, [])]))
  {
    steps := [] + [ReaderArrives];
    RunOne(id, now, [], ReaderArrives);
    assert Run(id, now, steps).value.readers == [Reader(Connecting, false, 0, 0, [])];
    RunOne(id, now, steps, ReaderActs(0));
    steps := steps + [ReaderActs(0)];
    assert Run(id, now, steps).value.readers == [Reader(Cold, false, 0, 0, [])];
    RunOne(id, now, steps, ReaderActs(0));
    steps := steps + [ReaderActs(0)];
    assert Run(id, now, steps).value.readers == [Reader(Labelling(0), false, 0, 0, [])];
    RunOne(id, now, steps, RunnerActs(Proceed, now));
    steps := steps + [RunnerActs(Proceed, now)];
  }

  /** The same run until the job's first progress has been stored. */
  lemma FirstUpdateRun(id: string, now: int) returns (steps: seq<Step>)
    ensures Run(id, now, steps).Some?
    ensures BeforeAnnouncing(Run(id, now, steps).value, 0)
  {
    steps := EarlyReaderRun(id, now);
    var todo := [Proceed, Proceed, Proceed, Receive(0, 0, None), Proceed];
    for k := 0 to 5
      invariant Run(id, now, steps).Some?
      invariant var w := Run(id, now, steps).value;
        && w.readers == [Reader(Labelling(0), false, 0, 0, [])] && !w.token && w.cancellers == []
        && w.recorded == 0 && w.bus.numbered == [] && w.bus.log == []
        && |w.bus.history| == (if k < 3 then 1 else if k < 5 then 2 else 3)
        && w.bus.Job().status == (if k < 3 then Status.Pending else Status.Running)
        && w.runner == (if k == 0 then Queued else if k == 1 then Admitted else if k == 2 then Marking
                        else if k == 3 then Consuming else if k == 4 then Updating(0, 0, None)
                        else Announcing(Reading(Progressed), None))
        && (k < 5 ==> w.bus.Job().stage.None?)
    {
      RunOne(id, now, steps, RunnerActs(todo[k], now));
      steps := steps + [RunnerActs(todo[k], now)];
    }
  }

  /** The waiting reader and the runner `k` steps into its first announcement. */
  ghost predicate BeforeAnnouncing(w: World, k: nat) {
    && w.readers == [Reader(Labelling(0), false, 0, 0, [])] && |w.bus.history| == 3 && w.bus.Job().status == Status.Running
    && w.recorded == (if k < 3 then 0 else 1) && w.bus.numbered == (if k < 2 then [] else [2])
    && w.bus.log == (if k < 4 then [] else [Message(Progressed, 1, 2)])
    && (k < 4 ==> w.runner == Announcing(
          if k == 0 then Reading(Progressed) else if k == 1 then Numbering(Progressed, 2)
          else if k == 2 then Noting(Progressed, 2, 1) else Sending(Progressed, 2, 1), None))
  }

  lemma AnnounceStep(w: World, k: nat, now: int)
    requires k < 4 && BeforeAnnouncing(w, k)
    ensures RunnerAnnounces(w).Some? && BeforeAnnouncing(RunnerAnnounces(w).value, k + 1)
  {
    var p := w.runner.publication;
    var (bus, recorded, rest) := Publish(w.bus, w.recorded, p);
    assert bus.history == w.bus.history;
    assert k < 3 ==> rest.Some?;
  }

  lemma AnnounceOne(id: string, now: int, steps: seq<Step>, k: nat)
    requires Run(id, now, steps).Some? && k < 4 && BeforeAnnouncing(Run(id, now, steps).value, k)
    ensures Run(id, now, steps + [RunnerActs(Proceed, now)]).Some?
    ensures BeforeAnnouncing(Run(id, now, steps + [RunnerActs(Proceed, now)]).value, k + 1)
  {
    RunOne(id, now, steps, RunnerActs(Proceed, now));
    AnnounceStep(Run(id, now, steps).value, k, now);
  }

  /** The same run until the job's first progress event has been sent. */
  lemma FirstProgressRun(id: string, now: int) returns (steps: seq<Step>)
    ensures Run(id, now, steps).Some?
    ensures BeforeAnnouncing(Run(id, now, steps).value, 4)
  {
    steps := FirstUpdateRun(id, now);
    for k := 0 to 4
      invariant Run(id, now, steps).Some? && BeforeAnnouncing(Run(id, now, steps).value, k)
    {
      AnnounceOne(id, now, steps, k);
      steps := steps + [RunnerActs(Proceed, now)];
    }
  }

  /** Without a subscription and with the job still active the label can overtake the
      state: in this run a snapshot labelled 1 carries the pending job although
      event 1 carried the running one. The stream then ends. */
  lemma UnsubscribedSnapshotCanBeStale(id: string, now: int) returns (steps: seq<Step>)
    ensures Run(id, now, steps).Some? && |Run(id, now, steps).value.readers| == 1
    ensures var w := Run(id, now, steps).value; var r := w.readers[0];
      && !r.live && r.phase.Closed? && r.emitted == [Message(Snapshot, 1, 0)]
      && |w.bus.log| == 1 && w.bus.log[0].number == 1 && w.bus.log[0].version == 2
  {
    steps := FirstProgressRun(id, now);
    var w := Run(id, now, steps).value;
    assert w.readers[0] == Reader(Labelling(0), false, 0, 0, []);
    RunOne(id, now, steps, ReaderActs(0));
    steps := steps + [ReaderActs(0)];
  }
}
