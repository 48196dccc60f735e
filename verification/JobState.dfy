/** One persisted optimization job and the transitions the store applies to it
    while it holds its lock. */
module JobState {
  import opened Domain

  datatype Status = Pending | Running | Completed | Failed | Cancelled {
    predicate Active() { Pending? || Running? }
  }

  const LAST_STAGE := 11

  /** Pipeline stages in their declared order, from accepted to finalizing. */
  type Stage = s: nat | s <= LAST_STAGE

  datatype Job = Job(
    id: string,
    status: Status,
    stage: Option<Stage>,
    progress: nat,
    message: Option<string>,
    createdAt: int,
    updatedAt: int,
    completedAt: Option<int>,
    result: Option<string>,
    error: Option<string>)

  datatype StoreError =
    | DuplicateJob
    | JobNotFound
    | JobNotCancellable(status: Status)
    | InvalidTransition(status: Status)
    | Io

  datatype TerminalWrite = Applied | CancelledFirst

  function Create(id: string, now: int): Job {
    Job(id, Pending, None, 0, None, now, now, None, None, None)
  }

  function MarkRunning(job: Job, now: int): Result<Job, StoreError> {
    if job.status.Active() then Ok(job.(status := Running, updatedAt := now))
    else Err(InvalidTransition(job.status))
  }

  /** A report for an earlier stage is accepted but changes nothing visible. */
  function UpdateProgress(job: Job, stage: Stage, progress: nat, message: Option<string>, now: int): Result<Job, StoreError> {
    if !job.status.Active() then Err(InvalidTransition(job.status))
    else if job.stage.Some? && stage < job.stage.value then Ok(job.(updatedAt := now))
    else
      var capped := if progress < 100 then progress else 100;
      Ok(job.(status := Running, stage := Some(stage), message := message, updatedAt := now,
              progress := if capped > job.progress then capped else job.progress))
  }

  /** The shared test before a result or an error is written: `None` means that the
      job was cancelled first. */
  function PrepareTerminalWrite(job: Job): Result<Option<Job>, StoreError> {
    if job.status == Status.Cancelled then Ok(None)
    else if job.status != Running then Err(InvalidTransition(job.status))
    else Ok(Some(job))
  }

  function CommitTerminal(job: Job, status: Status, now: int): Job {
    job.(status := status, progress := if status == Completed then 100 else job.progress,
         updatedAt := now, completedAt := Some(now))
  }

  function SaveResult(job: Job, result: string, now: int): Result<(TerminalWrite, Job), StoreError> {
    var prepared :- PrepareTerminalWrite(job);
    if prepared.None? then Ok((CancelledFirst, job))
    else Ok((Applied, CommitTerminal(job.(result := Some(result)), Completed, now)))
  }

  function SaveError(job: Job, error: string, now: int): Result<(TerminalWrite, Job), StoreError> {
    var prepared :- PrepareTerminalWrite(job);
    if prepared.None? then Ok((CancelledFirst, job))
    else Ok((Applied, CommitTerminal(job.(error := Some(error)), Status.Failed, now)))
  }

  function Cancel(job: Job, message: string, now: int): Result<Job, StoreError> {
    if !job.status.Active() then Err(JobNotCancellable(job.status))
    else Ok(job.(status := Status.Cancelled, message := Some(message), updatedAt := now, completedAt := Some(now)))
  }

  /** The payload files agree with the status, and progress is a percentage. */
  predicate WellFormed(job: Job) {
    && job.progress <= 100
    && match job.status
       case Pending => job.result.None? && job.error.None?
       case Running => job.result.None? && job.error.None?
       case Cancelled => job.result.None? && job.error.None?
       case Completed => job.result.Some? && job.error.None?
       case Failed => job.result.None? && job.error.Some?
  }

  /** Identity, creation and payloads are the same. */
  predicate SameRecord(a: Job, b: Job) {
    b.id == a.id && b.createdAt == a.createdAt && b.result == a.result && b.error == a.error
  }

  /** What an accepted report leaves behind. One for an earlier stage shows nothing
      new. Any other makes the job run at that stage with that message, and the
      percentage is the larger of the stored and the reported one, capped at 100. */
  predicate StoresProgress(a: Job, b: Job, stage: Stage, progress: nat, message: Option<string>, now: int) {
    && SameRecord(a, b) && b.completedAt == a.completedAt && b.updatedAt == now
    && if a.stage.Some? && a.stage.value > stage
       then b.status == a.status && b.stage == a.stage && b.progress == a.progress && b.message == a.message
       else
         && b.status.Running? && b.stage == Some(stage) && b.message == message
         && b.progress >= a.progress && (b.progress >= progress || b.progress >= 100)
         && (b.progress == a.progress || (b.progress == progress <= 100) || (b.progress == 100 < progress))
  }

  /** What ending a running job leaves behind: a result completes it at 100 percent, an
      error fails it where it stands. */
  predicate StoresOutcome(a: Job, b: Job, result: Option<string>, error: Option<string>, now: int) {
    && b.id == a.id && b.createdAt == a.createdAt && b.stage == a.stage && b.message == a.message
    && b.updatedAt == now && b.completedAt == Some(now)
    && (result.Some? ==> b.status.Completed? && b.progress == 100 && b.result == result && b.error == a.error)
    && (error.Some? ==> b.status.Failed? && b.progress == a.progress && b.error == error && b.result == a.result)
  }

  /** What a cancellation leaves behind: the job stands still, with the message. */
  predicate StoresCancellation(a: Job, b: Job, message: string, now: int) {
    && SameRecord(a, b) && b.status.Cancelled? && b.message == Some(message)
    && b.stage == a.stage && b.progress == a.progress && b.updatedAt == now && b.completedAt == Some(now)
  }

  predicate StoresRunning(a: Job, b: Job, now: int) {
    && SameRecord(a, b) && b.status.Running? && b.updatedAt == now
    && b.stage == a.stage && b.progress == a.progress && b.message == a.message && b.completedAt == a.completedAt
  }

  /** Progress is taken from active jobs and refused with the status of any other. */
  lemma UpdateStoresProgress(job: Job, stage: Stage, progress: nat, message: Option<string>, now: int)
    ensures var r := UpdateProgress(job, stage, progress, message, now);
      if job.status.Pending? || job.status.Running? then r.Ok? && StoresProgress(job, r.value, stage, progress, message, now)
      else r == Err(InvalidTransition(job.status))
  {
  }

  /** Outcomes are taken from running jobs; a cancelled job wins over them, and any
      other status is refused. */
  lemma SavingStoresOutcome(job: Job, text: string, now: int)
    ensures var r, e := SaveResult(job, text, now), SaveError(job, text, now);
      && (job.status.Running? ==>
           && r.Ok? && r.value.0.Applied? && StoresOutcome(job, r.value.1, Some(text), None, now)
           && e.Ok? && e.value.0.Applied? && StoresOutcome(job, e.value.1, None, Some(text), now))
      && (job.status.Cancelled? ==> r == Ok((CancelledFirst, job)) && e == Ok((CancelledFirst, job)))
      && (!job.status.Running? && !job.status.Cancelled? ==>
           r == Err(InvalidTransition(job.status)) && e == Err(InvalidTransition(job.status)))
  {
  }

  /** Active jobs can be cancelled and marked running, terminal ones cannot. */
  lemma ActiveJobsMove(job: Job, message: string, now: int)
    ensures var c, m := Cancel(job, message, now), MarkRunning(job, now);
      if job.status.Pending? || job.status.Running? then
        c.Ok? && StoresCancellation(job, c.value, message, now) && m.Ok? && StoresRunning(job, m.value, now)
      else c == Err(JobNotCancellable(job.status)) && m == Err(InvalidTransition(job.status))
  {
  }

  function Rank(status: Status): nat {
    match status case Pending => 0 case Running => 1 case _ => 2
  }

  /** `b` may follow `a`: a terminal job never changes, and status, stage and
      progress never go back. */
  predicate Follows(a: Job, b: Job) {
    && (!a.status.Active() ==> b == a)
    && Rank(a.status) <= Rank(b.status)
    && a.progress <= b.progress
    && (a.stage.Some? ==> b.stage.Some? && a.stage.value <= b.stage.value)
    && a.id == b.id && a.createdAt == b.createdAt
  }

  lemma FollowsTransitive(a: Job, b: Job, c: Job)
    requires Follows(a, b) && Follows(b, c)
    ensures Follows(a, c)
  {
  }

  /** Every store transition keeps a job well formed and only moves it forward. */
  lemma TransitionsMoveForward(job: Job, stage: Stage, progress: nat, message: Option<string>, text: string, now: int)
    requires WellFormed(job)
    ensures MarkRunning(job, now).Ok? ==> Forward(job, MarkRunning(job, now).value)
    ensures UpdateProgress(job, stage, progress, message, now).Ok? ==>
      Forward(job, UpdateProgress(job, stage, progress, message, now).value)
      && UpdateProgress(job, stage, progress, message, now).value.stage.Some?
    ensures SaveResult(job, text, now).Ok? ==> Forward(job, SaveResult(job, text, now).value.1)
    ensures SaveError(job, text, now).Ok? ==> Forward(job, SaveError(job, text, now).value.1)
    ensures Cancel(job, text, now).Ok? ==> Forward(job, Cancel(job, text, now).value)
  {
  }

  predicate Forward(a: Job, b: Job) { Follows(a, b) && WellFormed(b) }
}
