/** The protocol around one job: the runner, any number of cancel requests and any
    number of event readers interleave over the locked store, the event channel and
    the cancellation token. Every store call, counter access and channel send is one
    atomic step. */
module JobProtocol {
  import opened Domain
  import opened JobState

  const CHANNEL_CAPACITY := 128

  datatype Kind = Snapshot | Progressed | HasCompleted | HasFailed | WasCancelled

  /** An event or a snapshot: its kind, its sequence number and the persisted state
      it carries, as a position in the job's history. */
  datatype Message = Message(kind: Kind, number: nat, version: nat)

  /** What all actors share: the successive persisted states (a history variable whose
      last element is the stored job), the version published under each sequence
      number (its length is the counter), and the events sent so far. */
  datatype Bus = Bus(history: seq<Job>, numbered: seq<nat>, log: seq<Message>)
  {
    function Job(): Job
      requires |history| > 0
    {
      history[|history| - 1]
    }

    function Write(job: Job): Bus { this.(history := history + [job]) }
  }

  /** Publishing: read the store, take a number, note the number, send. */
  datatype Publication =
    | Reading(kind: Kind)
    | Numbering(kind: Kind, version: nat)
    | Noting(kind: Kind, version: nat, number: nat)
    | Sending(kind: Kind, version: nat, number: nat)

  /** What submission delivers: the saved result or error, or that the job was cancelled. */
  datatype Completion = Result(text: string) | Error(text: string) | Withdrawn

  datatype Runner =
    | Unsubmitted
    | Queued
    | Admitted
    | Marking
    | Consuming
    | Updating(stage: Stage, progress: nat, message: Option<string>)
    | Joining
    | Withdrawing
    | SavingResult(text: string)
    | SavingError(text: string)
    | Announcing(publication: Publication, after: Option<Completion>)
    | Leaving(completion: Completion)
    | Finished(completion: Completion)
    | Broken

  datatype Canceller =
    | Arriving
    | Deciding(active: bool)
    | Telling(publication: Publication)
    | Signalling
    | Gone

  datatype Phase =
    | Connecting
    | Cold
    | Labelling(version: nat)
    | Probing
    | Peeked(before: nat)
    | Fetched(before: nat, version: nat)
    | Listening
    | Closed

  /** An event reader; `live` once it holds a subscription. */
  datatype Reader = Reader(phase: Phase, live: bool, position: nat, cursor: nat, emitted: seq<Message>)

  datatype World = World(
    bus: Bus,
    token: bool,
    registered: bool,
    recorded: nat,
    runner: Runner,
    cancellers: seq<Canceller>,
    readers: seq<Reader>)

  function Start(id: string, now: int): World {
    World(Bus([Create(id, now)], [], []), false, false, 0, Unsubmitted, [], [])
  }

  /** What the runner's environment decides: permits, updates, the executor's outcome. */
  datatype Choice =
    | Proceed
    | SeeToken
    | Receive(stage: Stage, progress: nat, message: Option<string>)
    | OutcomeResult(text: string)
    | OutcomeError(text: string)
    | OutcomeCancelled

  datatype Step =
    | RunnerActs(choice: Choice, now: int)
    | CancelArrives
    | CancellerActs(canceller: nat, now: int)
    | ReaderArrives
    | ReaderActs(reader: nat)

  /** One step of a publication: the new bus and recorded number, and what remains. */
  function Publish(bus: Bus, recorded: nat, publication: Publication): (Bus, nat, Option<Publication>)
    requires |bus.history| > 0
  {
    match publication
    case Reading(kind) =>
      if kind == Progressed && !bus.Job().status.Active() then (bus, recorded, None)
      else (bus, recorded, Some(Numbering(kind, |bus.history| - 1)))
    case Numbering(kind, version) =>
      (bus.(numbered := bus.numbered + [version]), recorded, Some(Noting(kind, version, |bus.numbered| + 1)))
    case Noting(kind, version, number) => (bus, number, Some(Sending(kind, version, number)))
    case Sending(kind, version, number) => (bus.(log := bus.log + [Message(kind, number, version)]), recorded, None)
  }

  const CANCEL_MESSAGE := "Optimization cancelled at the user's request."

  /** The runner before the executor starts. */
  function RunnerEnters(w: World, choice: Choice, now: int): Option<World>
    requires |w.bus.history| > 0
  {
    match w.runner
    case Unsubmitted => Some(w.(registered := true, runner := Queued))
    case Queued =>
      if choice.SeeToken? then (if w.token then Some(w.(runner := Leaving(Withdrawn))) else None)
      else Some(w.(runner := Admitted))
    case Admitted => Some(w.(runner := if w.token then Leaving(Withdrawn) else Marking))
    case Marking =>
      var marked := MarkRunning(w.bus.Job(), now);
      if marked.Ok? then Some(w.(bus := w.bus.Write(marked.value), runner := Consuming))
      else if marked.error == InvalidTransition(Status.Cancelled) then Some(w.(runner := Leaving(Withdrawn)))
      else Some(w.(runner := Broken))
    case _ => None
  }

  /** The runner while the executor works: progress updates until the channel closes. */
  function RunnerConsumes(w: World, choice: Choice, now: int): Option<World>
    requires |w.bus.history| > 0
  {
    match w.runner
    case Consuming =>
      if choice.Receive? && !w.token then Some(w.(runner := Updating(choice.stage, choice.progress, choice.message)))
      else Some(w.(runner := Joining))
    case Updating(stage, progress, message) =>
      var updated := UpdateProgress(w.bus.Job(), stage, progress, message, now);
      if updated.Ok? then Some(w.(bus := w.bus.Write(updated.value), runner := Announcing(Reading(Progressed), None)))
      else if updated.error == InvalidTransition(Status.Cancelled) then Some(w.(token := true, runner := Joining))
      else Some(w.(runner := Consuming))
    case Joining =>
      if choice.OutcomeCancelled? || w.token then Some(w.(runner := Withdrawing))
      else if choice.OutcomeResult? then Some(w.(runner := SavingResult(choice.text)))
      else if choice.OutcomeError? then Some(w.(runner := SavingError(choice.text)))
      else None
    case _ => None
  }

  /** The runner's terminal writes. */
  function RunnerSettles(w: World, now: int): Option<World>
    requires |w.bus.history| > 0
  {
    match w.runner
    case Withdrawing =>
      var cancelled := Cancel(w.bus.Job(), CANCEL_MESSAGE, now);
      if cancelled.Ok? then
        Some(w.(bus := w.bus.Write(cancelled.value), runner := Announcing(Reading(WasCancelled), Some(Withdrawn))))
      else if cancelled.error.JobNotCancellable? then Some(w.(runner := Leaving(Withdrawn)))
      else Some(w.(runner := Broken))
    case SavingResult(text) =>
      var saved := SaveResult(w.bus.Job(), text, now);
      if saved.Err? then Some(w.(runner := Broken))
      else if saved.value.0.Applied? then
        Some(w.(bus := w.bus.Write(saved.value.1), runner := Announcing(Reading(HasCompleted), Some(Completion.Result(text)))))
      else Some(w.(runner := Leaving(Withdrawn)))
    case SavingError(text) =>
      var saved := SaveError(w.bus.Job(), text, now);
      if saved.Err? then Some(w.(runner := Broken))
      else if saved.value.0.Applied? then
        Some(w.(bus := w.bus.Write(saved.value.1), runner := Announcing(Reading(HasFailed), Some(Completion.Error(text)))))
      else Some(w.(runner := Leaving(Withdrawn)))
    case Leaving(completion) => Some(w.(registered := false, runner := Finished(completion)))
    case _ => None
  }

  function RunnerAnnounces(w: World): Option<World>
    requires |w.bus.history| > 0
  {
    match w.runner
    case Announcing(publication, after) =>
      var (bus, recorded, rest) := Publish(w.bus, w.recorded, publication);
      Some(w.(bus := bus, recorded := recorded, runner :=
        if rest.Some? then Announcing(rest.value, after)
        else if after.Some? then Leaving(after.value)
        else Consuming))
    case _ => None
  }

  function RunnerStep(w: World, choice: Choice, now: int): Option<World>
    requires |w.bus.history| > 0
  {
    if w.runner.Unsubmitted? || w.runner.Queued? || w.runner.Admitted? || w.runner.Marking? then RunnerEnters(w, choice, now)
    else if w.runner.Consuming? || w.runner.Updating? || w.runner.Joining? then RunnerConsumes(w, choice, now)
    else if w.runner.Announcing? then RunnerAnnounces(w)
    else RunnerSettles(w, now)
  }

  /** A cancel request: look up the activity, persist, publish, then signal. */
  function CancellerStep(w: World, i: nat, now: int): Option<World>
    requires |w.bus.history| > 0 && i < |w.cancellers|
  {
    match w.cancellers[i]
    case Arriving => Some(w.(cancellers := w.cancellers[i := Deciding(w.registered)]))
    case Deciding(active) =>
      var cancelled := Cancel(w.bus.Job(), CANCEL_MESSAGE, now);
      if cancelled.Ok? then
        Some(w.(bus := w.bus.Write(cancelled.value),
                cancellers := w.cancellers[i := if active then Telling(Reading(WasCancelled)) else Gone]))
      else Some(w.(cancellers := w.cancellers[i := Gone]))
    case Telling(publication) =>
      var (bus, recorded, rest) := Publish(w.bus, w.recorded, publication);
      Some(w.(bus := bus, recorded := recorded,
              cancellers := w.cancellers[i := if rest.Some? then Telling(rest.value) else Signalling]))
    case Signalling => Some(w.(token := true, cancellers := w.cancellers[i := Gone]))
    case Gone => None
  }

  predicate Terminal(job: Job) { !job.status.Active() }

  /** Emit a snapshot of `version` under `number`, and stop when it is terminal. */
  function EmitSnapshot(bus: Bus, r: Reader, number: nat, version: nat, next: Phase): Reader
    requires version < |bus.history|
  {
    r.(emitted := r.emitted + [Message(Snapshot, number, version)], cursor := number,
       phase := if Terminal(bus.history[version]) then Closed else next)
  }

  /** An event reader: subscribe, take a stable snapshot, then follow the channel,
      taking a new snapshot whenever it lagged behind. */
  function ReaderStep(bus: Bus, registered: bool, recorded: nat, r: Reader): Option<Reader>
    requires |bus.history| > 0
  {
    match r.phase
    case Connecting =>
      if registered then Some(r.(phase := Probing, live := true, position := |bus.log|)) else Some(r.(phase := Cold))
    case Cold => Some(r.(phase := Labelling(|bus.history| - 1)))
    case Labelling(version) =>
      if version < |bus.history| then Some(EmitSnapshot(bus, r, recorded, version, Closed)) else None
    case Probing => Some(r.(phase := Peeked(|bus.numbered|)))
    case Peeked(before) => Some(r.(phase := Fetched(before, |bus.history| - 1)))
    case Fetched(before, version) =>
      if |bus.numbered| != before then Some(r.(phase := Probing))
      else if version < |bus.history| then Some(EmitSnapshot(bus, r, before, version, Listening))
      else None
    case Listening => ReaderListens(bus, registered, r)
    case Closed => None
  }

  function ReaderListens(bus: Bus, registered: bool, r: Reader): Option<Reader> {
    if r.position + CHANNEL_CAPACITY < |bus.log| then
      Some(r.(position := |bus.log| - CHANNEL_CAPACITY, phase := Probing))
    else if r.position < |bus.log| then
      var m := bus.log[r.position];
      if m.number <= r.cursor then Some(r.(position := r.position + 1))
      else Some(r.(position := r.position + 1, cursor := m.number, emitted := r.emitted + [m],
                   phase := if m.kind == Progressed then Listening else Closed))
    else if !registered then Some(r.(phase := Closed))
    else None
  }

  function Apply(w: World, step: Step): Option<World>
    requires |w.bus.history| > 0
  {
    match step
    case RunnerActs(choice, now) => RunnerStep(w, choice, now)
    case CancelArrives => Some(w.(cancellers := w.cancellers + [Arriving]))
    case CancellerActs(i, now) => if i < |w.cancellers| then CancellerStep(w, i, now) else None
    case ReaderArrives => Some(w.(readers := w.readers + [Reader(Connecting, false, 0, 0, [])]))
    case ReaderActs(i) =>
      if i < |w.readers| then
        var r :- ReaderStep(w.bus, w.registered, w.recorded, w.readers[i]);
        Some(w.(readers := w.readers[i := r]))
      else None
  }
}
