/** The parallel travel-matrix build: workers, a deadline watchdog and the caller
    interleave over a shared pair counter, result slots and abort flags. */
module MatrixBuild {
  import opened Domain
  import opened Sequences

  /** What is fixed for one build: what the provider answers for each directed pair
      (minutes, or `None` for an unreachable arc), and how many workers run. */
  datatype Config = Config(answers: seq<Option<U32>>, workers: nat) {
    function Pairs(): nat { |answers| }
  }

  /** Where a worker is. `Stored` has written its slot but not counted it;
      `Counting` and `Reporting` hold the progress lock. */
  datatype Worker =
    | Looping
    | Claiming
    | Claimed(pair: nat)
    | Querying(pair: nat)
    | Storing(pair: nat)
    | Stored(pair: nat)
    | Counting(pair: nat)
    | Reporting(count: nat)
    | Failing(pair: nat, late: bool)
    | Recording(pair: nat)
    | Cancelling
    | Done

  datatype Watchdog = Watching | Signalling | Stopped

  /** The shared state. `counted` is a history variable: the pairs whose completion
      has been added to `completed`. */
  datatype Build = Build(
    next: nat,
    completed: nat,
    timedOut: bool,
    callerCancelled: bool,
    token: bool,
    results: seq<Option<Option<U32>>>,
    failure: Option<nat>,
    lock: Option<nat>,
    callerToken: bool,
    expired: bool,
    workers: seq<Worker>,
    watchdog: Watchdog,
    observed: seq<nat>,
    counted: set<nat>)

  function Start(c: Config): Build {
    Build(0, 0, false, false, false, seq(c.Pairs(), _ => None), None, None, false, false,
          seq(c.workers, _ => Looping), Watching, [], {})
  }

  /** One step of one actor. `Query` carries whether the provider answers or fails. */
  datatype Step =
    | CallerCancels
    | DeadlinePasses
    | WatchdogSeesCaller
    | WatchdogSeesDeadline
    | WatchdogSignals
    | WatchdogFinishes
    | Claim(worker: nat)
    | Complete(worker: nat)
    | Fail(worker: nat)
    | Query(worker: nat, answers: bool)

  predicate AllDone(s: Build) {
    forall w | 0 <= w < |s.workers| :: s.workers[w].Done?
  }

  /** The top of the worker loop: check the token, claim a pair, check again. */
  function ClaimStep(c: Config, s: Build, w: nat): Option<Build>
    requires w < |s.workers|
  {
    match s.workers[w]
    case Looping => Some(s.(workers := s.workers[w := if s.token then Done else Claiming]))
    case Claiming =>
      Some(s.(workers := s.workers[w := if s.next < c.Pairs() then Claimed(s.next) else Done], next := s.next + 1))
    case Claimed(pair) =>
      Some(s.(workers := s.workers[w := if s.expired then Failing(pair, true) else if s.token then Done else Querying(pair)]))
    case _ => None
  }

  /** Completing a pair: write the slot, then count and report under the lock. */
  function CompleteStep(c: Config, s: Build, w: nat): Option<Build>
    requires w < |s.workers|
  {
    match s.workers[w]
    case Storing(pair) =>
      if pair < |s.results| && pair < c.Pairs() then
        Some(s.(workers := s.workers[w := Stored(pair)], results := s.results[pair := Some(c.answers[pair])]))
      else None
    case Stored(pair) =>
      if s.lock.None? then Some(s.(workers := s.workers[w := Counting(pair)], lock := Some(w))) else None
    case Counting(pair) =>
      Some(s.(workers := s.workers[w := Reporting(s.completed + 1)], completed := s.completed + 1, counted := s.counted + {pair}))
    case Reporting(count) =>
      Some(s.(workers := s.workers[w := Looping], observed := s.observed + [count], lock := None))
    case _ => None
  }

  /** Failing a pair: raise the timeout flag, record the first failure, cancel the others. */
  function FailStep(s: Build, w: nat): Option<Build>
    requires w < |s.workers|
  {
    match s.workers[w]
    case Failing(pair, late) => Some(s.(workers := s.workers[w := Recording(pair)], timedOut := s.timedOut || late))
    case Recording(pair) =>
      if s.failure.None? then Some(s.(workers := s.workers[w := Cancelling], failure := Some(pair))) else Some(s.(workers := s.workers[w := Done]))
    case Cancelling => Some(s.(workers := s.workers[w := Done], token := true))
    case _ => None
  }

  /** The provider returns for the pair of worker `w`: late minutes and errors fail
      the build, an unreachable arc is a result at any time. */
  function QueryStep(c: Config, s: Build, w: nat, answers: bool): Option<Build>
    requires w < |s.workers|
  {
    match s.workers[w]
    case Querying(pair) =>
      if pair >= c.Pairs() then None
      else if !answers then Some(s.(workers := s.workers[w := Failing(pair, s.expired)]))
      else if c.answers[pair].Some? && s.expired then Some(s.(workers := s.workers[w := Failing(pair, true)]))
      else Some(s.(workers := s.workers[w := Storing(pair)]))
    case _ => None
  }

  function Apply(c: Config, s: Build, step: Step): Option<Build> {
    match step
    case CallerCancels => Some(s.(callerToken := true))
    case DeadlinePasses => Some(s.(expired := true))
    case WatchdogSeesCaller =>
      if s.watchdog.Watching? && s.callerToken then Some(s.(watchdog := Signalling, callerCancelled := true)) else None
    case WatchdogSeesDeadline =>
      if s.watchdog.Watching? && s.expired then Some(s.(watchdog := Signalling, timedOut := true)) else None
    case WatchdogSignals =>
      if s.watchdog.Signalling? then Some(s.(watchdog := Stopped, token := true)) else None
    case WatchdogFinishes =>
      if s.watchdog.Watching? && AllDone(s) then Some(s.(watchdog := Stopped)) else None
    case Claim(w) => if w < |s.workers| then ClaimStep(c, s, w) else None
    case Complete(w) => if w < |s.workers| then CompleteStep(c, s, w) else None
    case Fail(w) => if w < |s.workers| then FailStep(s, w) else None
    case Query(w, answers) => if w < |s.workers| then QueryStep(c, s, w, answers) else None
  }

  /** The state after a run of steps, if every step was enabled. */
  function Run(c: Config, steps: seq<Step>): Option<Build> {
    if |steps| == 0 then Some(Start(c))
    else
      var before :- Run(c, steps[..|steps| - 1]);
      Apply(c, before, steps[|steps| - 1])
  }

  /** The pair a worker is responsible for. */
  function Held(worker: Worker): Option<nat> {
    match worker
    case Claimed(pair) => Some(pair)
    case Querying(pair) => Some(pair)
    case Storing(pair) => Some(pair)
    case Stored(pair) => Some(pair)
    case Counting(pair) => Some(pair)
    case Failing(pair, _) => Some(pair)
    case Recording(pair) => Some(pair)
    case _ => None
  }

  /** The pair of a worker that has filled its slot without counting it yet. */
  function Uncounted(worker: Worker): Option<nat> {
    match worker
    case Stored(pair) => Some(pair)
    case Counting(pair) => Some(pair)
    case _ => None
  }

  predicate Locked(worker: Worker) { worker.Counting? || worker.Reporting? }

  /** Somebody recorded why the build stops early. */
  predicate Aborted(s: Build) { s.failure.Some? || s.timedOut || s.callerCancelled }

  predicate Filled(s: Build, pair: nat) {
    pair < |s.results| && s.results[pair].Some?
  }

  function UpTo(n: nat): (r: seq<nat>)
    ensures |r| == n && forall i | 0 <= i < n :: r[i] == i + 1
  {
    seq(n, i requires 0 <= i < n => i + 1)
  }

  /** Every worker holds a claimed pair of its own, filled exactly when it says so. */
  ghost predicate Claims(c: Config, s: Build) {
    && |s.results| == c.Pairs() && |s.workers| == c.workers
    && (forall w | 0 <= w < |s.workers| && Held(s.workers[w]).Some? ::
          var pair := Held(s.workers[w]).value;
          pair < c.Pairs() && pair < s.next && (Filled(s, pair) <==> Uncounted(s.workers[w]).Some?))
    && (forall w, v | 0 <= w < v < |s.workers| && Held(s.workers[w]).Some? :: Held(s.workers[w]) != Held(s.workers[v]))
    && (forall pair: nat | Filled(s, pair) :: pair < s.next && s.results[pair] == Some(c.answers[pair]))
  }

  ghost predicate HeldBySomeone(s: Build, pair: nat) {
    exists w :: 0 <= w < |s.workers| && Held(s.workers[w]) == Some(pair)
  }

  ghost predicate UncountedBySomeone(s: Build, pair: nat) {
    exists w :: 0 <= w < |s.workers| && Uncounted(s.workers[w]) == Some(pair)
  }

  /** A claimed pair is filled or still held, unless the build was aborted. */
  ghost predicate Accounted(c: Config, s: Build) {
    && (forall pair: nat | pair < s.next && pair < c.Pairs() :: Filled(s, pair) || HeldBySomeone(s, pair) || Aborted(s))
    && (forall w | 0 <= w < |s.workers| && s.workers[w].Done? :: s.next >= c.Pairs() || Aborted(s))
    && (s.token ==> Aborted(s))
    && (s.watchdog.Signalling? ==> Aborted(s))
    && (forall w | 0 <= w < |s.workers| && s.workers[w].Cancelling? :: s.failure.Some?)
    && (s.failure.Some? ==> s.failure.value < c.Pairs())
  }

  /** The completed count is the number of filled slots already counted. */
  ghost predicate Counted(c: Config, s: Build) {
    && s.completed == |s.counted|
    && (forall pair | pair in s.counted :: Filled(s, pair))
    && (forall pair: nat | Filled(s, pair) && pair !in s.counted :: UncountedBySomeone(s, pair))
    && (forall w | 0 <= w < |s.workers| && Uncounted(s.workers[w]).Some? :: Uncounted(s.workers[w]).value !in s.counted)
  }

  /** The lock serializes counting and reporting, so observers see 1, 2, 3, ... */
  ghost predicate Reported(s: Build) {
    && (forall w | 0 <= w < |s.workers| && Locked(s.workers[w]) :: s.lock == Some(w))
    && (s.lock.Some? ==> s.lock.value < |s.workers| && Locked(s.workers[s.lock.value]))
    && (if s.lock.Some? && s.workers[s.lock.value].Reporting?
        then s.completed >= 1 && s.workers[s.lock.value].count == s.completed && s.observed == UpTo(s.completed - 1)
        else s.observed == UpTo(s.completed))
  }

  ghost predicate Sound(c: Config, s: Build) {
    && Claims(c, s) && Accounted(c, s) && Counted(c, s) && Reported(s)
    && (s.timedOut ==> s.expired) && (s.callerCancelled ==> s.callerToken)
    && (forall w | 0 <= w < |s.workers| && s.workers[w].Failing? && s.workers[w].late :: s.expired)
  }

  /** The control flow of one worker. */
  predicate Successor(x: Worker, y: Worker, upcoming: nat, pairs: nat) {
    match x
    case Looping => y.Done? || y.Claiming?
    case Claiming => y == if upcoming < pairs then Claimed(upcoming) else Done
    case Claimed(pair) => y.Done? || y == Querying(pair) || y == Failing(pair, true)
    case Querying(pair) => y == Storing(pair) || y == Failing(pair, true) || y == Failing(pair, false)
    case Storing(pair) => y == Stored(pair)
    case Stored(pair) => y == Counting(pair)
    case Counting(pair) => y.Reporting?
    case Reporting(_) => y.Looping?
    case Failing(pair, _) => y == Recording(pair)
    case Recording(_) => y.Cancelling? || y.Done?
    case Cancelling => y.Done?
    case Done => false
  }

  /** A step of worker `w` leaves the other workers alone, claims at most the next
      pair, and fills at most the slot of the pair it holds. */
  ghost predicate Moves(c: Config, s: Build, s': Build, w: nat) {
    && w < |s.workers| && |s'.workers| == |s.workers|
    && s'.workers == s.workers[w := s'.workers[w]]
    && Successor(s.workers[w], s'.workers[w], s.next, c.Pairs())
    && s'.next == (if s.workers[w].Claiming? then s.next + 1 else s.next)
    && (if s.workers[w].Storing? then
          s.workers[w].pair < |s.results| && s.workers[w].pair < c.Pairs() &&
          s'.results == s.results[s.workers[w].pair := Some(c.answers[s.workers[w].pair])]
        else s'.results == s.results)
  }

  /** Only the progress section of a worker counts and reports. */
  ghost predicate Progresses(s: Build, s': Build, w: nat)
    requires w < |s.workers| && w < |s'.workers|
  {
    match s.workers[w]
    case Stored(_) => s.lock.None? && s'.lock == Some(w) && SameCount(s, s') && s'.observed == s.observed
    case Counting(pair) =>
      s'.completed == s.completed + 1 && s'.counted == s.counted + {pair} && s'.workers[w] == Reporting(s.completed + 1) &&
      s'.lock == s.lock && s'.observed == s.observed
    case Reporting(count) => s'.lock.None? && s'.observed == s.observed + [count] && SameCount(s, s')
    case _ => s'.lock == s.lock && s'.observed == s.observed && SameCount(s, s')
  }

  ghost predicate SameCount(s: Build, s': Build) {
    s'.completed == s.completed && s'.counted == s.counted
  }

  /** Abort flags only rise, a worker gives up only for a reason, and a recorded
      failure precedes its cancellation. */
  ghost predicate Aborts(s: Build, s': Build, w: nat)
    requires w < |s.workers| && w < |s'.workers|
  {
    && (Aborted(s) ==> Aborted(s')) && (s.failure.Some? ==> s'.failure.Some?)
    && (s'.token ==> s.token || s.workers[w].Cancelling?)
    && ((s.workers[w].Looping? || s.workers[w].Claimed?) && s'.workers[w].Done? ==> s.token)
    && (s.workers[w].Recording? ==> s'.failure.Some?)
    && (s'.failure == s.failure || s'.failure == Held(s.workers[w]))
    && s'.watchdog == s.watchdog
    && s'.expired == s.expired && s'.callerToken == s.callerToken && s'.callerCancelled == s.callerCancelled
    && (s'.timedOut ==> s.timedOut || (s.workers[w].Failing? && s.workers[w].late))
    && (s'.workers[w].Failing? && s'.workers[w].late ==> s.expired)
  }

  ghost predicate Works(c: Config, s: Build, s': Build, w: nat) {
    Moves(c, s, s', w) && Progresses(s, s', w) && Aborts(s, s', w)
  }

  lemma ClaimMoves(c: Config, s: Build, w: nat)
    requires w < |s.workers| && ClaimStep(c, s, w).Some?
    ensures Works(c, s, ClaimStep(c, s, w).value, w)
  {
  }

  lemma CompleteMoves(c: Config, s: Build, w: nat)
    requires w < |s.workers| && CompleteStep(c, s, w).Some?
    ensures Moves(c, s, CompleteStep(c, s, w).value, w)
  {
  }

  lemma CompleteProgresses(c: Config, s: Build, w: nat)
    requires w < |s.workers| && CompleteStep(c, s, w).Some?
    ensures var s' := CompleteStep(c, s, w).value; w < |s'.workers| && Progresses(s, s', w)
  {
  }

  lemma CompleteAborts(c: Config, s: Build, w: nat)
    requires w < |s.workers| && CompleteStep(c, s, w).Some?
    ensures var s' := CompleteStep(c, s, w).value; w < |s'.workers| && Aborts(s, s', w)
  {
    match s.workers[w]
    case Storing(pair) =>
      QuietlyAborts(s, s.(workers := s.workers[w := Stored(pair)], results := s.results[pair := Some(c.answers[pair])]), w);
    case Stored(pair) => QuietlyAborts(s, s.(workers := s.workers[w := Counting(pair)], lock := Some(w)), w);
    case Counting(pair) =>
      QuietlyAborts(s, s.(workers := s.workers[w := Reporting(s.completed + 1)], completed := s.completed + 1,
                          counted := s.counted + {pair}), w);
    case Reporting(count) =>
      QuietlyAborts(s, s.(workers := s.workers[w := Looping], observed := s.observed + [count], lock := None), w);
  }

  /** A step that touches no flag and neither fails nor gives up. */
  lemma QuietlyAborts(s: Build, s': Build, w: nat)
    requires w < |s.workers| && w < |s'.workers|
    requires s'.failure == s.failure && s'.timedOut == s.timedOut && s'.callerCancelled == s.callerCancelled
    requires s'.token == s.token && s'.watchdog == s.watchdog && s'.expired == s.expired && s'.callerToken == s.callerToken
    requires !s'.workers[w].Done? && !s'.workers[w].Failing? && !s.workers[w].Recording?
    ensures Aborts(s, s', w)
  {
  }

  lemma FailMoves(c: Config, s: Build, w: nat)
    requires w < |s.workers| && FailStep(s, w).Some?
    ensures Moves(c, s, FailStep(s, w).value, w)
  {
  }

  lemma FailProgresses(s: Build, w: nat)
    requires w < |s.workers| && FailStep(s, w).Some?
    ensures var s' := FailStep(s, w).value; w < |s'.workers| && Progresses(s, s', w)
  {
  }

  lemma FailAborts(s: Build, w: nat)
    requires w < |s.workers| && FailStep(s, w).Some?
    ensures var s' := FailStep(s, w).value; w < |s'.workers| && Aborts(s, s', w)
  {
  }

  lemma QueryMoves(c: Config, s: Build, w: nat, answers: bool)
    requires w < |s.workers| && QueryStep(c, s, w, answers).Some?
    ensures Works(c, s, QueryStep(c, s, w, answers).value, w)
  {
  }

  lemma ClaimsKept(c: Config, s: Build, s': Build, w: nat)
    requires Claims(c, s) && Moves(c, s, s', w)
    ensures Claims(c, s')
  {
    forall v | 0 <= v < |s'.workers| && Held(s'.workers[v]).Some?
      ensures var pair := Held(s'.workers[v]).value;
        pair < c.Pairs() && pair < s'.next && (Filled(s', pair) <==> Uncounted(s'.workers[v]).Some?)
    {
      if v != w { assert Held(s.workers[v]).Some?; }
    }
    forall v, u | 0 <= v < u < |s'.workers| && Held(s'.workers[v]).Some?
      ensures Held(s'.workers[v]) != Held(s'.workers[u])
    {
    }
  }

  lemma AccountedKept(c: Config, s: Build, s': Build, w: nat)
    requires Claims(c, s) && Accounted(c, s) && Moves(c, s, s', w) && Aborts(s, s', w)
    ensures Accounted(c, s')
  {
    forall pair: nat | pair < s'.next && pair < c.Pairs()
      ensures Filled(s', pair) || HeldBySomeone(s', pair) || Aborted(s')
    {
      if pair == s.next {
        assert Held(s'.workers[w]) == Some(pair);
      } else if !Filled(s, pair) && !Aborted(s) {
        var v :| 0 <= v < |s.workers| && Held(s.workers[v]) == Some(pair);
        assert v != w ==> Held(s'.workers[v]) == Some(pair);
      }
    }
  }

  /** Every filled slot is still counted or held by a worker that will count it. */
  lemma UncountedKept(c: Config, s: Build, s': Build, w: nat, pair: nat)
    requires Claims(c, s) && Counted(c, s) && Moves(c, s, s', w) && Progresses(s, s', w)
    requires Filled(s', pair) && pair !in s'.counted
    ensures UncountedBySomeone(s', pair)
  {
    if Filled(s, pair) {
      assert UncountedBySomeone(s, pair);
      var v :| 0 <= v < |s.workers| && Uncounted(s.workers[v]) == Some(pair);
      assert Uncounted(s'.workers[v]) == Some(pair);
    } else {
      assert Uncounted(s'.workers[w]) == Some(pair);
    }
  }

  lemma CountedKept(c: Config, s: Build, s': Build, w: nat)
    requires Claims(c, s) && Counted(c, s) && Moves(c, s, s', w) && Progresses(s, s', w)
    ensures Counted(c, s')
  {
    forall pair: nat | Filled(s', pair) && pair !in s'.counted ensures UncountedBySomeone(s', pair) {
      UncountedKept(c, s, s', w, pair);
    }
    forall v | 0 <= v < |s'.workers| && Uncounted(s'.workers[v]).Some?
      ensures Uncounted(s'.workers[v]).value !in s'.counted
    {
      NotCountedKept(c, s, s', w, v);
    }
  }

  lemma NotCountedKept(c: Config, s: Build, s': Build, w: nat, v: nat)
    requires Claims(c, s) && Counted(c, s) && Moves(c, s, s', w) && Progresses(s, s', w)
    requires v < |s'.workers| && Uncounted(s'.workers[v]).Some?
    ensures Uncounted(s'.workers[v]).value !in s'.counted
  {
    if v != w && s.workers[w].Counting? { assert Held(s.workers[v]) != Held(s.workers[w]); }
  }

  lemma ReportedKept(c: Config, s: Build, s': Build, w: nat)
    requires Reported(s) && Moves(c, s, s', w) && Progresses(s, s', w)
    ensures Reported(s')
  {
    assert s.completed > 0 ==> UpTo(s.completed - 1) + [s.completed] == UpTo(s.completed);
  }

  /** Steps of the caller, the clock and the watchdog touch the flags only. */
  ghost predicate OnlyFlags(s: Build, s': Build) {
    s' == s.(timedOut := s'.timedOut, callerCancelled := s'.callerCancelled, token := s'.token,
             callerToken := s'.callerToken, expired := s'.expired, watchdog := s'.watchdog)
  }

  lemma FlagsKeepSound(c: Config, s: Build, s': Build)
    requires Sound(c, s) && OnlyFlags(s, s')
    requires (Aborted(s) ==> Aborted(s')) && (s'.token ==> Aborted(s')) && (s'.watchdog.Signalling? ==> Aborted(s'))
    requires (s.expired ==> s'.expired) && (s'.timedOut ==> s'.expired) && (s'.callerCancelled ==> s'.callerToken)
    ensures Sound(c, s')
  {
    forall pair: nat | pair < s'.next && pair < c.Pairs()
      ensures Filled(s', pair) || HeldBySomeone(s', pair) || Aborted(s')
    {
      assert Filled(s, pair) || HeldBySomeone(s, pair) || Aborted(s);
    }
    forall pair: nat | Filled(s', pair) && pair !in s'.counted ensures UncountedBySomeone(s', pair) {
      assert UncountedBySomeone(s, pair);
    }
  }

  lemma WorkKeepsSound(c: Config, s: Build, s': Build, w: nat)
    requires Sound(c, s) && Works(c, s, s', w)
    ensures Sound(c, s')
  {
    ClaimsKept(c, s, s', w);
    AccountedKept(c, s, s', w);
    CountedKept(c, s, s', w);
    ReportedKept(c, s, s', w);
  }

  /** Every enabled step of every actor keeps the invariant. */
  lemma StepKeepsSound(c: Config, s: Build, step: Step)
    requires Sound(c, s) && Apply(c, s, step).Some?
    ensures Sound(c, Apply(c, s, step).value)
  {
    var s' := Apply(c, s, step).value;
    match step
    case Claim(w) => ClaimMoves(c, s, w); WorkKeepsSound(c, s, s', w);
    case Complete(w) => CompleteWorks(c, s, w); WorkKeepsSound(c, s, s', w);
    case Fail(w) => FailWorks(c, s, w); WorkKeepsSound(c, s, s', w);
    case Query(w, answers) => QueryMoves(c, s, w, answers); WorkKeepsSound(c, s, s', w);
    case _ => FlagStepKeepsSound(c, s, step);
  }

  lemma CompleteWorks(c: Config, s: Build, w: nat)
    requires w < |s.workers| && CompleteStep(c, s, w).Some?
    ensures Works(c, s, CompleteStep(c, s, w).value, w)
  {
    CompleteMoves(c, s, w);
    CompleteProgresses(c, s, w);
    CompleteAborts(c, s, w);
  }

  lemma FailWorks(c: Config, s: Build, w: nat)
    requires w < |s.workers| && FailStep(s, w).Some?
    ensures Works(c, s, FailStep(s, w).value, w)
  {
    FailMoves(c, s, w);
    FailProgresses(s, w);
    FailAborts(s, w);
  }

  lemma FlagStepKeepsSound(c: Config, s: Build, step: Step)
    requires Sound(c, s) && Apply(c, s, step).Some?
    requires !step.Claim? && !step.Complete? && !step.Fail? && !step.Query?
    ensures Sound(c, Apply(c, s, step).value)
  {
    FlagsKeepSound(c, s, Apply(c, s, step).value);
  }

  lemma StartIsSound(c: Config)
    ensures Sound(c, Start(c))
  {
  }

  /** Every reachable state is sound. */
  lemma {:induction false} RunIsSound(c: Config, steps: seq<Step>)
    requires Run(c, steps).Some?
    ensures Sound(c, Run(c, steps).value)
  {
    if |steps| == 0 {
      StartIsSound(c);
    } else {
      RunIsSound(c, steps[..|steps| - 1]);
      StepKeepsSound(c, Run(c, steps[..|steps| - 1]).value, steps[|steps| - 1]);
    }
  }

  /** When all workers are done the count is exact, the observers saw 1, 2, 3, ...
      up to it, and a missing slot means that the build was aborted. */
  lemma DoneIsExact(c: Config, s: Build)
    requires Sound(c, s) && AllDone(s)
    ensures s.completed <= c.Pairs() && s.observed == UpTo(s.completed)
    ensures s.completed == c.Pairs() <==> forall pair: nat | pair < c.Pairs() :: Filled(s, pair)
    ensures forall pair: nat | Filled(s, pair) :: s.results[pair] == Some(c.answers[pair])
    ensures c.workers >= 1 ==> forall pair: nat | pair < c.Pairs() && !Filled(s, pair) :: Aborted(s)
  {
    forall pair: nat | pair !in s.counted ensures !Filled(s, pair) {
      assert !UncountedBySomeone(s, pair);
    }
    SubsetCount(s.counted, Below(c.Pairs()));
    assert (forall pair: nat | pair < c.Pairs() :: Filled(s, pair)) ==> s.counted == Below(c.Pairs());
    assert s.lock.None?;
    forall pair: nat | c.workers >= 1 && pair < c.Pairs() && !Filled(s, pair) ensures Aborted(s) {
      if pair < s.next {
        assert !HeldBySomeone(s, pair);
      } else {
        assert s.workers[0].Done?;
      }
    }
  }

  datatype BuildError =
    | CallerCancelled
    | PairFailed(from: nat, to: nat, timedOut: bool, completed: nat, total: nat)

  /** Row-major order. */
  predicate Before(a: (nat, nat), b: (nat, nat)) { a.0 < b.0 || (a.0 == b.0 && a.1 < b.1) }

  /** The directed pairs in row-major order. */
  method DirectedPairs(n: nat) returns (pairs: seq<(nat, nat)>)
    ensures forall k | 0 <= k < |pairs| :: pairs[k].0 < n && pairs[k].1 < n && pairs[k].0 != pairs[k].1
    ensures forall i: nat, j: nat | i < n && j < n && i != j :: (i, j) in pairs
    ensures forall k, l | 0 <= k < l < |pairs| :: Before(pairs[k], pairs[l])
  {
    pairs := [];
    for i := 0 to n
      invariant forall k | 0 <= k < |pairs| :: pairs[k].0 < i && pairs[k].1 < n && pairs[k].0 != pairs[k].1
      invariant forall a: nat, b: nat | a < i && b < n && a != b :: (a, b) in pairs
      invariant forall k, l | 0 <= k < l < |pairs| :: Before(pairs[k], pairs[l])
    {
      for j := 0 to n
        invariant forall k | 0 <= k < |pairs| :: pairs[k].0 < i || (pairs[k].0 == i && pairs[k].1 < j)
        invariant forall k | 0 <= k < |pairs| :: pairs[k].1 < n && pairs[k].0 != pairs[k].1
        invariant forall a: nat, b: nat | (a < i || (a == i && b < j)) && b < n && a != b :: (a, b) in pairs
        invariant forall k, l | 0 <= k < l < |pairs| :: Before(pairs[k], pairs[l])
      {
        if i != j {
          pairs := pairs + [(i, j)];
        }
      }
    }
  }

  /** The first unfilled slot. */
  method FirstMissing(s: Build) returns (missing: nat)
    requires exists pair: nat :: pair < |s.results| && !Filled(s, pair)
    ensures missing < |s.results| && !Filled(s, missing) && forall k: nat | k < missing :: Filled(s, k)
  {
    missing := 0;
    while s.results[missing].Some?
      invariant missing < |s.results| && forall k: nat | k < missing :: Filled(s, k)
      decreases |s.results| - missing
    {
      ghost var pair: nat :| pair < |s.results| && !Filled(s, pair);
      missing := missing + 1;
    }
  }

  /** The matrix that a sequential double loop over the pairs would build. */
  ghost predicate IsSequential(n: nat, classify: (nat, nat) -> Option<U32>, rows: seq<seq<Option<U32>>>) {
    |rows| == n && forall i: nat, j: nat | i < n && j < n ::
      |rows[i]| == n && rows[i][j] == if i == j then Some(0) else classify(i, j)
  }

  /** Everything was answered, nothing failed and nobody cancelled. */
  predicate Succeeds(c: Config, s: Build) {
    s.completed == c.Pairs() && s.failure.None? && !s.callerCancelled && !s.callerToken
  }

  /** The error names the pair that failed first, or else the first missing one, with
      the timeout flag and the counts. */
  ghost predicate Names(s: Build, pairs: seq<(nat, nat)>, error: BuildError)
    requires error.PairFailed?
  {
    && error.timedOut == s.timedOut && error.completed == s.completed && error.total == |pairs|
    && exists k: nat :: k < |pairs| && pairs[k] == (error.from, error.to) &&
         if s.failure.Some? then s.failure == Some(k) else !Filled(s, k) && forall j: nat | j < k :: Filled(s, j)
  }

  /** After the scope has joined: report cancellation, the first failure or the
      timeout, otherwise assemble the rows. Both look-ups that must not fail do not. */
  method Finish(c: Config, s: Build, n: nat, pairs: seq<(nat, nat)>, classify: (nat, nat) -> Option<U32>)
    returns (r: Result<seq<seq<Option<U32>>>, BuildError>)
    requires Sound(c, s) && AllDone(s) && s.watchdog.Stopped? && c.workers >= 1
    requires |pairs| == c.Pairs() && forall k | 0 <= k < |pairs| :: c.answers[k] == classify(pairs[k].0, pairs[k].1)
    requires forall k | 0 <= k < |pairs| :: pairs[k].0 < n && pairs[k].1 < n && pairs[k].0 != pairs[k].1
    requires forall i: nat, j: nat | i < n && j < n && i != j :: (i, j) in pairs
    ensures r.Ok? ==> IsSequential(n, classify, r.value)
    ensures r == Err(CallerCancelled) <==> s.callerCancelled || s.callerToken
    ensures r.Err? && r.error.PairFailed? <==>
      !s.callerToken && (s.failure.Some? || (s.timedOut && s.completed < c.Pairs()))
    ensures r.Err? && r.error.PairFailed? ==> Names(s, pairs, r.error)
    ensures r.Ok? <==> Succeeds(c, s)
  {
    DoneIsExact(c, s);
    if s.callerCancelled || s.callerToken {
      return Err(CallerCancelled);
    }
    var failure := s.failure;
    if failure.None? && s.timedOut && s.completed < c.Pairs() {
      var missing := FirstMissing(s);
      failure := Some(missing);
    }
    if failure.Some? {
      var pair := pairs[failure.value];
      return Err(PairFailed(pair.0, pair.1, s.timedOut, s.completed, |pairs|));
    }
    assert forall pair: nat | pair < c.Pairs() :: Filled(s, pair);
    var rows := seq(n, i => seq(n, j => if i == j then Some(0 as U32) else None));
    for k := 0 to |pairs|
      invariant |rows| == n && forall i: nat | i < n :: |rows[i]| == n && rows[i][i] == Some(0)
      invariant forall l | 0 <= l < k :: rows[pairs[l].0][pairs[l].1] == classify(pairs[l].0, pairs[l].1)
    {
      assert Filled(s, k);
      var (from, to) := pairs[k];
      rows := rows[from := rows[from][to := s.results[k].value]];
    }
    forall i: nat, j: nat | i < n && j < n ensures rows[i][j] == if i == j then Some(0) else classify(i, j) {
      if i != j {
        assert (i, j) in pairs;
        var l :| 0 <= l < |pairs| && pairs[l] == (i, j);
      }
    }
    r := Ok(rows);
  }
}
