/** What an event reader gets: everything it consumes is delivered or overtaken, and
    its stream ends for a reason. */
module JobStreams {
  import opened JobProtocol
  import opened JobSafety
  import opened JobRuns

  /** A reader that arrives while the job is registered subscribes from there on. */
  lemma ReaderSubscribes(bus: Bus, registered: bool, recorded: nat, r: Reader)
    requires |bus.history| > 0 && r.phase.Connecting?
    ensures ReaderStep(bus, registered, recorded, r).Some?
    ensures var r' := ReaderStep(bus, registered, recorded, r).value;
      if registered then r'.live && r'.position == |bus.log| && r'.phase.Probing? else r'.live == r.live && r'.phase.Cold?
  {
  }

  /** The next event of a listening reader. It is emitted when it is numbered above
      the cursor and passed over otherwise; only a reader that fell more than the
      channel's capacity behind skips events, and then takes a new snapshot. */
  lemma ConsumedIsEmitted(bus: Bus, registered: bool, r: Reader, k: nat)
    requires r.phase.Listening? && ReaderListens(bus, registered, r).Some?
    requires r.position <= k < ReaderListens(bus, registered, r).value.position && k < |bus.log|
    ensures var r' := ReaderListens(bus, registered, r).value;
      || bus.log[k].number <= r.cursor
      || (bus.log[k] in r'.emitted && r'.cursor == bus.log[k].number)
      || (r'.phase.Probing? && |bus.log| - r.position > CHANNEL_CAPACITY)
  {
    var r' := ReaderListens(bus, registered, r).value;
    assert r'.emitted == r.emitted || r'.emitted[|r'.emitted| - 1] in r'.emitted;
  }

  /** The cursor is the last emission's number; what a subscriber has consumed is at
      or below it; and a subscriber's stream that has ended has emitted a terminal
      state or outlived its runner. */
  ghost predicate Follows(w: World, r: Reader) {
    && (r.emitted != [] ==> r.emitted[|r.emitted| - 1].number == r.cursor)
    && (r.live ==> r.position <= |w.bus.log| && !w.runner.Unsubmitted?)
    && (r.live && r.phase.Listening? ==> r.emitted != [])
    && (r.live && r.phase.Listening? ==>
         forall k | 0 <= k < r.position && k < |w.bus.log| :: w.bus.log[k].number <= r.cursor)
    && (r.live && r.phase.Closed? ==>
         && r.emitted != []
         && (w.runner.Finished? ||
              (r.emitted[|r.emitted| - 1].version < |w.bus.history| &&
               Terminal(w.bus.history[r.emitted[|r.emitted| - 1].version]))))
    && (r.live ==> !r.phase.Connecting? && !r.phase.Cold? && !r.phase.Labelling?)
  }

  /** The job is registered from submission until its runner has finished. */
  predicate RegisteredWhileRunning(w: World) {
    w.registered <==> !w.runner.Unsubmitted? && !w.runner.Finished?
  }

  ghost predicate AllFollow(w: World) {
    RegisteredWhileRunning(w) && forall i | 0 <= i < |w.readers| :: Follows(w, w.readers[i])
  }

  lemma SnapshotFollows(w: World, r: Reader, number: nat, version: nat, next: Phase)
    requires BusOk(w.bus) && version < |w.bus.history| && number == |w.bus.numbered| && next.Listening?
    requires r.live ==> r.position <= |w.bus.log| && !w.runner.Unsubmitted?
    ensures Follows(w, EmitSnapshot(w.bus, r, number, version, next))
  {
    forall k | 0 <= k < |w.bus.log| ensures w.bus.log[k].number <= number { assert EventOk(w.bus, w.bus.log[k]); }
  }

  lemma ListeningFollows(w: World, r: Reader)
    requires Safe(w) && RegisteredWhileRunning(w) && Follows(w, r) && ReaderOk(w.bus, r) && r.live && r.phase.Listening?
    requires ReaderListens(w.bus, w.registered, r).Some?
    ensures Follows(w, ReaderListens(w.bus, w.registered, r).value)
  {
    if r.position < |w.bus.log| { assert EventOk(w.bus, w.bus.log[r.position]); }
  }

  lemma ReaderStepFollows(w: World, r: Reader)
    requires Safe(w) && RegisteredWhileRunning(w) && Follows(w, r) && ReaderOk(w.bus, r)
    requires ReaderStep(w.bus, w.registered, w.recorded, r).Some?
    ensures Follows(w, ReaderStep(w.bus, w.registered, w.recorded, r).value)
  {
    match r.phase
    case Fetched(before, version) =>
      if |w.bus.numbered| == before { SnapshotFollows(w, r, before, version, Listening); }
    case Listening => ListeningFollows(w, r);
    case _ =>
  }

  /** A step of somebody else leaves a reader following. */
  lemma OthersFollow(w: World, w': World, r: Reader)
    requires Follows(w, r) && Grows(w.bus, w'.bus)
    requires w.runner.Finished? ==> w'.runner.Finished?
    requires !w.runner.Unsubmitted? ==> !w'.runner.Unsubmitted?
    ensures Follows(w', r)
  {
  }

  /** The runner registers the job, withdraws the registration at the end, and stays finished. */
  lemma RunnerKeepsRegistered(w: World, choice: Choice, now: int)
    requires Safe(w) && RegisteredWhileRunning(w) && RunnerStep(w, choice, now).Some?
    ensures var w' := RunnerStep(w, choice, now).value;
      RegisteredWhileRunning(w') && !w'.runner.Unsubmitted? && !w.runner.Finished?
  {
  }

  lemma StepKeepsRegistered(w: World, step: Step)
    requires Safe(w) && RegisteredWhileRunning(w) && Apply(w, step).Some?
    ensures var w' := Apply(w, step).value;
      && RegisteredWhileRunning(w')
      && (w.runner.Finished? ==> w'.runner.Finished?) && (!w.runner.Unsubmitted? ==> !w'.runner.Unsubmitted?)
  {
    match step
    case RunnerActs(choice, now) => RunnerKeepsRegistered(w, choice, now);
    case CancellerActs(i, now) => CancellerKeepsRegistered(w, i, now);
    case _ =>
  }

  lemma CancellerKeepsRegistered(w: World, i: nat, now: int)
    requires |w.bus.history| > 0 && i < |w.cancellers| && CancellerStep(w, i, now).Some?
    ensures CancellerStep(w, i, now).value.registered == w.registered && CancellerStep(w, i, now).value.runner == w.runner
  {
  }

  lemma StepKeepsFollowing(w: World, step: Step)
    requires Safe(w) && AllFollow(w) && Apply(w, step).Some?
    ensures AllFollow(Apply(w, step).value)
  {
    var w' := Apply(w, step).value;
    StepKeepsSafe(w, step);
    StepKeepsRegistered(w, step);
    forall i | 0 <= i < |w'.readers| ensures Follows(w', w'.readers[i]) {
      ReaderSteps(w, step, i);
      if i < |w.readers| {
        assert ReaderOk(w.bus, w.readers[i]);
        if w'.readers[i] == w.readers[i] {
          OthersFollow(w, w', w.readers[i]);
        } else {
          ReaderStepFollows(w, w.readers[i]);
          OthersFollow(w, w', w'.readers[i]);
        }
      }
    }
  }

  /** Every reader of every run follows its job. */
  lemma {:induction false} ReadersFollow(id: string, now: int, steps: seq<Step>)
    requires Run(id, now, steps).Some?
    ensures AllFollow(Run(id, now, steps).value)
  {
    if |steps| > 0 {
      var init := steps[..|steps| - 1];
      ReadersFollow(id, now, init);
      RunIsSafe(id, now, init);
      StepKeepsFollowing(Run(id, now, init).value, steps[|steps| - 1]);
    }
  }
}
