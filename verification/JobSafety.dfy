/** What every interleaving of the job protocol keeps: forward-only persisted states,
    agreement between token, completion and status, one terminal event at most, and
    ordered, valid event streams. */
module JobSafety {
  import opened Domain
  import opened JobState
  import opened JobProtocol

  /** The public contract between an event name and the persisted job it carries. */
  predicate IsValidForEvent(kind: Kind, job: Job) {
    WellFormed(job) &&
    match kind
    case Snapshot => true
    case Progressed => job.status.Active() && job.stage.Some?
    case HasCompleted => job.status == Status.Completed
    case HasFailed => job.status == Status.Failed
    case WasCancelled => job.status == Status.Cancelled
  }

  /** Persisted states only move forward, and only from active jobs. */
  ghost predicate HistoryOk(h: seq<Job>) {
    && |h| > 0
    && (forall i | 0 <= i < |h| :: WellFormed(h[i]))
    && (forall i | 0 <= i < |h| - 1 :: h[i].status.Active())
    && (forall i, j | 0 <= i <= j < |h| :: Follows(h[i], h[j]))
  }

  ghost predicate MessageOk(bus: Bus, m: Message) {
    && m.version < |bus.history| && IsValidForEvent(m.kind, bus.history[m.version])
    && 1 <= m.number <= |bus.numbered|
  }

  /** A sent event carries the version that was published under its number. */
  ghost predicate EventOk(bus: Bus, m: Message) {
    MessageOk(bus, m) && !m.kind.Snapshot? && bus.numbered[m.number - 1] == m.version
  }

  ghost predicate BusOk(bus: Bus) {
    && HistoryOk(bus.history)
    && (forall k | 0 <= k < |bus.numbered| :: bus.numbered[k] < |bus.history|)
    && (forall k | 0 <= k < |bus.log| :: EventOk(bus, bus.log[k]))
  }

  /** The bus only grows, and the history stops at a terminal state. */
  ghost predicate Grows(a: Bus, b: Bus) {
    && BusOk(a) && BusOk(b)
    && a.history <= b.history && a.numbered <= b.numbered && a.log <= b.log
    && (Terminal(a.Job()) ==> b.history == a.history)
  }

  function StatusOf(kind: Kind): Status {
    match kind
    case HasCompleted => Status.Completed
    case HasFailed => Status.Failed
    case _ => Status.Cancelled
  }

  /** A publication in flight: its event will be valid and carry its number's version. */
  ghost predicate PublicationOk(bus: Bus, p: Publication) {
    && BusOk(bus) && !p.kind.Snapshot?
    && match p
       case Reading(kind) => if kind == Progressed then bus.Job().stage.Some? else bus.Job().status == StatusOf(kind)
       case Numbering(kind, version) => version < |bus.history| && IsValidForEvent(kind, bus.history[version])
       case Noting(kind, version, number) => EventOk(bus, Message(kind, number, version))
       case Sending(kind, version, number) => EventOk(bus, Message(kind, number, version))
  }

  function KindOf(completion: Completion): Kind {
    match completion case Result(_) => HasCompleted case Error(_) => HasFailed case Withdrawn => Kind.WasCancelled
  }

  /** The completion is the persisted outcome: its terminal status and its payload. */
  predicate Delivers(job: Job, completion: Completion) {
    match completion
    case Result(text) => job.status == Completed && job.result == Some(text)
    case Error(text) => job.status == Status.Failed && job.error == Some(text)
    case Withdrawn => job.status == Status.Cancelled && job.result.None? && job.error.None?
  }

  predicate Underway(status: Status) { status == Status.Running || status == Status.Cancelled }

  /** Where the runner is decides which statuses the job can have; a completion it
      carries or has delivered is the persisted terminal status. */
  ghost predicate RunnerOk(bus: Bus, runner: Runner)
    requires BusOk(bus)
  {
    var status := bus.Job().status;
    match runner
    case Unsubmitted => status == Status.Pending || status == Status.Cancelled
    case Queued => status == Status.Pending || status == Status.Cancelled
    case Admitted => status == Status.Pending || status == Status.Cancelled
    case Marking => status == Status.Pending || status == Status.Cancelled
    case Announcing(p, after) =>
      PublicationOk(bus, p) &&
      (if after.None? then p.kind == Progressed && Underway(status)
       else p.kind == KindOf(after.value) && Delivers(bus.Job(), after.value))
    case Leaving(completion) => Delivers(bus.Job(), completion)
    case Finished(completion) => Delivers(bus.Job(), completion)
    case Broken => false
    case _ => Underway(status)
  }

  ghost predicate CancellerOk(bus: Bus, canceller: Canceller)
    requires BusOk(bus)
  {
    match canceller
    case Telling(p) => PublicationOk(bus, p) && p.kind == Kind.WasCancelled && bus.Job().status == Status.Cancelled
    case Signalling => bus.Job().status == Status.Cancelled
    case _ => true
  }

  /** At least as recent as everything published under the numbers up to `number`. */
  ghost predicate Recent(bus: Bus, number: nat, version: nat) {
    number <= |bus.numbered| && forall k | 0 <= k < number :: bus.numbered[k] <= version
  }

  /** What a reader has emitted: valid messages in order, recent snapshots, and
      nothing after a terminal one. */
  ghost predicate StreamOk(bus: Bus, r: Reader) {
    && (forall k | 0 <= k < |r.emitted| ::
          r.emitted[k].version < |bus.history| && IsValidForEvent(r.emitted[k].kind, bus.history[r.emitted[k].version]))
    && (forall k, l | 0 <= k <= l < |r.emitted| :: r.emitted[k].number <= r.emitted[l].number)
    && (forall k | 0 <= k < |r.emitted| :: r.emitted[k].number <= r.cursor)
    && (forall k | 0 <= k < |r.emitted| && r.emitted[k].kind.Snapshot? ::
          r.live || Terminal(bus.history[r.emitted[k].version]) ==> Recent(bus, r.emitted[k].number, r.emitted[k].version))
    && (forall k | 0 <= k < |r.emitted| && Terminal(bus.history[r.emitted[k].version]) ::
          k == |r.emitted| - 1 && r.phase.Closed?)
  }

  /** Where a reader is. */
  ghost predicate ReaderOk(bus: Bus, r: Reader) {
    && StreamOk(bus, r)
    && r.cursor <= |bus.numbered|
    && (!r.live ==> r.phase.Closed? || (r.emitted == [] && (r.phase.Connecting? || r.phase.Cold? || r.phase.Labelling?)))
    && match r.phase
       case Peeked(before) => r.cursor <= before <= |bus.numbered|
       case Fetched(before, version) => r.cursor <= before && version < |bus.history| && Recent(bus, before, version)
       case Labelling(version) => !r.live && r.cursor == 0 && version < |bus.history|
       case Connecting => !r.live && r.cursor == 0
       case Cold => !r.live && r.cursor == 0
       case _ => true
  }

  predicate Announces(runner: Runner) { runner.Announcing? && runner.after.Some? }

  function Sent(log: seq<Message>): nat {
    if |log| == 0 then 0 else Sent(log[..|log| - 1]) + (if log[|log| - 1].kind == Progressed then 0 else 1)
  }

  function Promised(cancellers: seq<Canceller>): nat {
    if |cancellers| == 0 then 0
    else Promised(cancellers[..|cancellers| - 1]) + (if cancellers[|cancellers| - 1].Telling? then 1 else 0)
  }

  /** Terminal events sent or about to be sent, over all actors. */
  function TerminalEvents(w: World): nat {
    Sent(w.bus.log) + Promised(w.cancellers) + (if Announces(w.runner) then 1 else 0)
  }

  /** None before the job is terminal, and one at most afterwards. */
  ghost predicate OneTerminal(w: World)
    requires BusOk(w.bus)
  {
    TerminalEvents(w) <= if Terminal(w.bus.Job()) then 1 else 0
  }

  ghost predicate Safe(w: World) {
    && BusOk(w.bus)
    && RunnerOk(w.bus, w.runner)
    && (forall i | 0 <= i < |w.cancellers| :: CancellerOk(w.bus, w.cancellers[i]))
    && (forall i | 0 <= i < |w.readers| :: ReaderOk(w.bus, w.readers[i]))
    && (w.token ==> w.bus.Job().status == Status.Cancelled)
    && w.recorded <= |w.bus.numbered|
  }

  // ----- stability under growth

  lemma PublicationStable(a: Bus, b: Bus, p: Publication)
    requires Grows(a, b) && PublicationOk(a, p)
    ensures PublicationOk(b, p)
  {
    assert Follows(b.history[|a.history| - 1], b.Job());
  }

  lemma CancellerStable(a: Bus, b: Bus, canceller: Canceller)
    requires Grows(a, b) && CancellerOk(a, canceller)
    ensures CancellerOk(b, canceller)
  {
    if canceller.Telling? { PublicationStable(a, b, canceller.publication); }
  }

  lemma ReaderStable(a: Bus, b: Bus, r: Reader)
    requires Grows(a, b) && ReaderOk(a, r)
    ensures ReaderOk(b, r)
  {
  }

  /** Writing a forward state of an active job grows the bus. */
  lemma WriteGrows(bus: Bus, job: Job)
    requires BusOk(bus) && bus.Job().status.Active() && Forward(bus.Job(), job)
    ensures Grows(bus, bus.Write(job)) && bus.Write(job).Job() == job
  {
    var h, h' := bus.history, bus.Write(job).history;
    forall i, j | 0 <= i <= j < |h'| ensures Follows(h'[i], h'[j]) {
      if j == |h| && i < |h| { FollowsTransitive(h[i], bus.Job(), job); }
    }
  }

  lemma SameGrows(bus: Bus)
    requires BusOk(bus)
    ensures Grows(bus, bus)
  {
  }

  // ----- one step of each actor

  lemma PublishKeeps(bus: Bus, recorded: nat, p: Publication)
    requires PublicationOk(bus, p) && recorded <= |bus.numbered|
    ensures var (bus', recorded', rest) := Publish(bus, recorded, p);
      && Grows(bus, bus') && bus'.history == bus.history && recorded' <= |bus'.numbered|
      && (rest.Some? ==> PublicationOk(bus', rest.value) && rest.value.kind == p.kind)
  {
    var (bus', recorded', rest) := Publish(bus, recorded, p);
    assert bus'.history == bus.history;
    if p.Sending? {
      assert EventOk(bus, Message(p.kind, p.number, p.version));
      forall k | 0 <= k < |bus'.log| ensures EventOk(bus', bus'.log[k]) {
        if k < |bus.log| { assert EventOk(bus, bus.log[k]); }
      }
    }
  }

  /** What a runner step may change, and what then holds of the runner. */
  ghost predicate RunnerKeeps(w: World, w': World) {
    && Grows(w.bus, w'.bus) && RunnerOk(w'.bus, w'.runner)
    && w'.cancellers == w.cancellers && w'.readers == w.readers
    && (w'.token ==> w.token || w.bus.Job().status == Status.Cancelled)
    && w'.recorded <= |w'.bus.numbered|
  }

  lemma EnteringKeeps(w: World, choice: Choice, now: int)
    requires Safe(w) && RunnerEnters(w, choice, now).Some?
    ensures RunnerKeeps(w, RunnerEnters(w, choice, now).value)
  {
    SameGrows(w.bus);
    if w.runner.Marking? && MarkRunning(w.bus.Job(), now).Ok? {
      WriteGrows(w.bus, MarkRunning(w.bus.Job(), now).value);
    }
  }

  lemma ConsumingKeeps(w: World, choice: Choice, now: int)
    requires Safe(w) && RunnerConsumes(w, choice, now).Some?
    ensures RunnerKeeps(w, RunnerConsumes(w, choice, now).value)
  {
    SameGrows(w.bus);
    if w.runner.Updating? { UpdatingKeeps(w, choice, now); }
  }

  lemma UpdatingKeeps(w: World, choice: Choice, now: int)
    requires Safe(w) && w.runner.Updating?
    ensures RunnerConsumes(w, choice, now).Some? && RunnerKeeps(w, RunnerConsumes(w, choice, now).value)
  {
    SameGrows(w.bus);
    var updated := UpdateProgress(w.bus.Job(), w.runner.stage, w.runner.progress, w.runner.message, now);
    if updated.Ok? { WriteGrows(w.bus, updated.value); }
  }

  lemma WithdrawingKeeps(w: World, now: int)
    requires Safe(w) && (w.runner.Withdrawing? || w.runner.Leaving?) && RunnerSettles(w, now).Some?
    ensures RunnerKeeps(w, RunnerSettles(w, now).value)
  {
    SameGrows(w.bus);
    var cancelled := Cancel(w.bus.Job(), CANCEL_MESSAGE, now);
    if w.runner.Withdrawing? && cancelled.Ok? { WriteGrows(w.bus, cancelled.value); }
  }

  lemma SavingKeeps(w: World, now: int)
    requires Safe(w) && (w.runner.SavingResult? || w.runner.SavingError?) && RunnerSettles(w, now).Some?
    ensures RunnerKeeps(w, RunnerSettles(w, now).value)
  {
    SameGrows(w.bus);
    var saved := if w.runner.SavingResult? then SaveResult(w.bus.Job(), w.runner.text, now)
                 else SaveError(w.bus.Job(), w.runner.text, now);
    if saved.Ok? && saved.value.0.Applied? { WriteGrows(w.bus, saved.value.1); }
  }

  lemma AnnouncingKeeps(w: World)
    requires Safe(w) && RunnerAnnounces(w).Some?
    ensures RunnerKeeps(w, RunnerAnnounces(w).value)
  {
    PublishKeeps(w.bus, w.recorded, w.runner.publication);
  }

  lemma RunnerStepKeeps(w: World, choice: Choice, now: int)
    requires Safe(w) && RunnerStep(w, choice, now).Some?
    ensures RunnerKeeps(w, RunnerStep(w, choice, now).value)
  {
    if w.runner.Unsubmitted? || w.runner.Queued? || w.runner.Admitted? || w.runner.Marking? {
      EnteringKeeps(w, choice, now);
    } else if w.runner.Consuming? || w.runner.Updating? || w.runner.Joining? {
      ConsumingKeeps(w, choice, now);
    } else if w.runner.Announcing? {
      AnnouncingKeeps(w);
    } else if w.runner.Withdrawing? || w.runner.Leaving? {
      WithdrawingKeeps(w, now);
    } else {
      SavingKeeps(w, now);
    }
  }

  /** What a cancel request's step may change, and what then holds of it. */
  ghost predicate CancellerKeeps(w: World, w': World, i: nat)
    requires i < |w.cancellers| && BusOk(w.bus)
  {
    && Grows(w.bus, w'.bus) && w'.runner == w.runner && w'.readers == w.readers
    && |w'.cancellers| == |w.cancellers| && w'.cancellers == w.cancellers[i := w'.cancellers[i]]
    && CancellerOk(w'.bus, w'.cancellers[i])
    && (w'.bus.history == w.bus.history || w'.bus.Job().status == Status.Cancelled)
    && (w'.token ==> w.token || w.bus.Job().status == Status.Cancelled)
    && w'.recorded <= |w'.bus.numbered|
  }

  lemma CancellerStepKeeps(w: World, i: nat, now: int)
    requires Safe(w) && i < |w.cancellers| && CancellerStep(w, i, now).Some?
    ensures CancellerKeeps(w, CancellerStep(w, i, now).value, i)
  {
    SameGrows(w.bus);
    match w.cancellers[i]
    case Deciding(_) =>
      var cancelled := Cancel(w.bus.Job(), CANCEL_MESSAGE, now);
      if cancelled.Ok? { WriteGrows(w.bus, cancelled.value); }
    case Telling(p) => PublishKeeps(w.bus, w.recorded, p);
    case _ =>
  }

  /** A cancellation can only move the runner's job to a status it copes with. */
  lemma RunnerStable(a: Bus, b: Bus, runner: Runner)
    requires Grows(a, b) && RunnerOk(a, runner)
    requires b.history == a.history || b.Job().status == Status.Cancelled
    ensures RunnerOk(b, runner)
  {
    if runner.Announcing? { PublicationStable(a, b, runner.publication); }
  }

  lemma SnapshotKeeps(bus: Bus, r: Reader, number: nat, version: nat, next: Phase)
    requires BusOk(bus) && StreamOk(bus, r) && version < |bus.history| && !r.phase.Closed?
    requires r.cursor <= number <= |bus.numbered| && (next.Listening? || next.Closed?)
    requires r.live || Terminal(bus.history[version]) ==> Recent(bus, number, version)
    requires !r.live ==> next.Closed?
    ensures ReaderOk(bus, EmitSnapshot(bus, r, number, version, next))
  {
  }

  /** A terminal state is the newest one. */
  lemma TerminalIsLast(bus: Bus, version: nat, number: nat)
    requires BusOk(bus) && version < |bus.history| && Terminal(bus.history[version]) && number <= |bus.numbered|
    ensures Recent(bus, number, version)
  {
  }

  lemma ReaderStepKeeps(bus: Bus, registered: bool, recorded: nat, r: Reader)
    requires BusOk(bus) && ReaderOk(bus, r) && recorded <= |bus.numbered|
    requires ReaderStep(bus, registered, recorded, r).Some?
    ensures ReaderOk(bus, ReaderStep(bus, registered, recorded, r).value)
  {
    match r.phase
    case Labelling(version) =>
      if Terminal(bus.history[version]) { TerminalIsLast(bus, version, recorded); }
      SnapshotKeeps(bus, r, recorded, version, Closed);
    case Fetched(before, version) =>
      if |bus.numbered| == before { SnapshotKeeps(bus, r, before, version, Listening); }
    case Listening => ListeningKeeps(bus, registered, r);
    case _ =>
  }

  lemma ListeningKeeps(bus: Bus, registered: bool, r: Reader)
    requires BusOk(bus) && ReaderOk(bus, r) && r.phase.Listening? && ReaderListens(bus, registered, r).Some?
    ensures ReaderOk(bus, ReaderListens(bus, registered, r).value)
  {
    if r.position < |bus.log| { assert EventOk(bus, bus.log[r.position]); }
  }

  /** Every enabled step of every actor keeps the world safe and its bus growing. */
  lemma StepKeepsSafe(w: World, step: Step)
    requires Safe(w) && Apply(w, step).Some?
    ensures Safe(Apply(w, step).value) && Grows(w.bus, Apply(w, step).value.bus)
  {
    var w' := Apply(w, step).value;
    match step
    case RunnerActs(choice, now) =>
      RunnerStepKeeps(w, choice, now);
      OthersStable(w, w');
    case CancellerActs(i, now) =>
      CancellerStepKeeps(w, i, now);
      RunnerStable(w.bus, w'.bus, w.runner);
      OthersStable(w, w');
    case ReaderActs(i) =>
      SameGrows(w.bus);
      ReaderStepKeeps(w.bus, w.registered, w.recorded, w.readers[i]);
    case CancelArrives => SameGrows(w.bus);
    case ReaderArrives => SameGrows(w.bus);
  }

  lemma OthersStable(w: World, w': World)
    requires Safe(w) && Grows(w.bus, w'.bus)
    ensures forall i | 0 <= i < |w.cancellers| :: CancellerOk(w'.bus, w.cancellers[i])
    ensures forall i | 0 <= i < |w.readers| :: ReaderOk(w'.bus, w.readers[i])
    ensures w.bus.Job().status == Status.Cancelled ==> w'.bus.Job().status == Status.Cancelled
  {
    forall i | 0 <= i < |w.cancellers| ensures CancellerOk(w'.bus, w.cancellers[i]) {
      CancellerStable(w.bus, w'.bus, w.cancellers[i]);
    }
    forall i | 0 <= i < |w.readers| ensures ReaderOk(w'.bus, w.readers[i]) {
      ReaderStable(w.bus, w'.bus, w.readers[i]);
    }
  }

  // ----- one terminal event

  lemma SentAppend(log: seq<Message>, m: Message)
    ensures Sent(log + [m]) == Sent(log) + (if m.kind == Progressed then 0 else 1)
  {
    assert (log + [m])[..|log|] == log;
  }

  lemma {:induction false} PromisedUpdate(cancellers: seq<Canceller>, i: nat, to: Canceller)
    requires i < |cancellers|
    ensures Promised(cancellers[i := to]) ==
      Promised(cancellers) - (if cancellers[i].Telling? then 1 else 0) + (if to.Telling? then 1 else 0)
  {
    var k := |cancellers| - 1;
    if i < k {
      assert cancellers[i := to][..k] == cancellers[..k][i := to];
      PromisedUpdate(cancellers[..k], i, to);
    } else {
      assert cancellers[i := to][..k] == cancellers[..k];
    }
  }

  /** A publication step sends nothing, or its one event and then it is over. */
  lemma PublishSends(bus: Bus, recorded: nat, p: Publication)
    requires |bus.history| > 0
    ensures var (bus', recorded', rest) := Publish(bus, recorded, p);
      Sent(bus'.log) + (if rest.Some? && p.kind != Progressed then 1 else 0)
        <= Sent(bus.log) + (if p.kind != Progressed then 1 else 0)
  {
    if p.Sending? { SentAppend(bus.log, Message(p.kind, p.number, p.version)); }
  }

  lemma NoTerminalWhileWorking(w: World, choice: Choice, now: int)
    requires |w.bus.history| > 0
    ensures RunnerEnters(w, choice, now).Some? ==>
      RunnerEnters(w, choice, now).value.bus.log == w.bus.log && !Announces(RunnerEnters(w, choice, now).value.runner)
    ensures RunnerConsumes(w, choice, now).Some? ==>
      RunnerConsumes(w, choice, now).value.bus.log == w.bus.log && !Announces(RunnerConsumes(w, choice, now).value.runner)
  {
  }

  lemma SettlingEndsActiveJob(w: World, now: int)
    requires |w.bus.history| > 0 && RunnerSettles(w, now).Some?
    ensures var w' := RunnerSettles(w, now).value;
      && w'.bus.log == w.bus.log && |w'.bus.history| > 0
      && (Announces(w'.runner) ==> w.bus.Job().status.Active() && Terminal(w'.bus.Job()))
  {
  }

  /** A runner that starts a terminal announcement has just ended an active job. */
  lemma RunnerStartsAnnouncing(w: World, choice: Choice, now: int)
    requires |w.bus.history| > 0 && RunnerStep(w, choice, now).Some? && !w.runner.Announcing?
    ensures var w' := RunnerStep(w, choice, now).value;
      && w'.bus.log == w.bus.log && (Announces(w'.runner) ==> |w'.bus.history| > 0)
      && (Announces(w'.runner) ==> w.bus.Job().status.Active() && Terminal(w'.bus.Job()))
  {
    NoTerminalWhileWorking(w, choice, now);
    if RunnerSettles(w, now).Some? { SettlingEndsActiveJob(w, now); }
  }

  lemma RunnerKeepsOneTerminal(w: World, choice: Choice, now: int)
    requires Safe(w) && OneTerminal(w) && RunnerStep(w, choice, now).Some?
    requires Grows(w.bus, RunnerStep(w, choice, now).value.bus)
    requires RunnerStep(w, choice, now).value.cancellers == w.cancellers
    ensures OneTerminal(RunnerStep(w, choice, now).value)
  {
    if w.runner.Announcing? {
      PublishSends(w.bus, w.recorded, w.runner.publication);
    } else {
      RunnerStartsAnnouncing(w, choice, now);
    }
  }

  lemma CancellerKeepsOneTerminal(w: World, i: nat, now: int)
    requires Safe(w) && OneTerminal(w) && i < |w.cancellers| && CancellerStep(w, i, now).Some?
    requires Grows(w.bus, CancellerStep(w, i, now).value.bus)
    ensures OneTerminal(CancellerStep(w, i, now).value)
  {
    var w' := CancellerStep(w, i, now).value;
    PromisedUpdate(w.cancellers, i, w'.cancellers[i]);
    if w.cancellers[i].Telling? {
      TellingSends(w, i, now);
    } else {
      DecidingSendsNothing(w, i, now);
    }
  }

  lemma TellingSends(w: World, i: nat, now: int)
    requires Safe(w) && i < |w.cancellers| && w.cancellers[i].Telling?
    ensures var w' := CancellerStep(w, i, now).value;
      && w'.runner == w.runner && w'.bus.history == w.bus.history
      && Sent(w'.bus.log) + (if w'.cancellers[i].Telling? then 1 else 0) <= Sent(w.bus.log) + 1
  {
    PublishSends(w.bus, w.recorded, w.cancellers[i].publication);
  }

  lemma DecidingSendsNothing(w: World, i: nat, now: int)
    requires Safe(w) && i < |w.cancellers| && !w.cancellers[i].Telling? && CancellerStep(w, i, now).Some?
    ensures var w' := CancellerStep(w, i, now).value;
      && w'.runner == w.runner && w'.bus.log == w.bus.log && |w'.bus.history| > 0
      && (w'.cancellers[i].Telling? ==> w.bus.Job().status.Active() && Terminal(w'.bus.Job()))
      && (w'.cancellers[i].Telling? || w'.bus.history == w.bus.history || Terminal(w'.bus.Job()))
  {
  }

  lemma StepKeepsOneTerminal(w: World, step: Step)
    requires Safe(w) && OneTerminal(w) && Apply(w, step).Some?
    ensures BusOk(Apply(w, step).value.bus) && OneTerminal(Apply(w, step).value)
  {
    StepKeepsSafe(w, step);
    match step
    case RunnerActs(choice, now) =>
      RunnerStepKeeps(w, choice, now);
      RunnerKeepsOneTerminal(w, choice, now);
    case CancellerActs(i, now) => CancellerKeepsOneTerminal(w, i, now);
    case CancelArrives => ArrivalKeepsOneTerminal(w, step);
    case ReaderArrives => ArrivalKeepsOneTerminal(w, step);
    case ReaderActs(_) => ArrivalKeepsOneTerminal(w, step);
  }

  /** Readers and new cancel requests neither send nor promise anything. */
  lemma ArrivalKeepsOneTerminal(w: World, step: Step)
    requires Safe(w) && OneTerminal(w) && Apply(w, step).Some?
    requires step.CancelArrives? || step.ReaderArrives? || step.ReaderActs?
    ensures BusOk(Apply(w, step).value.bus) && OneTerminal(Apply(w, step).value)
  {
    assert (w.cancellers + [Arriving])[..|w.cancellers|] == w.cancellers;
  }
}
