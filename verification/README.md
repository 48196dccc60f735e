# Verified model of the trip planner

The repository picks a visit order and a start minute for a day trip with time
windows, then schedules it. The same question is answered by an exact dynamic
program, a mixed-integer encoding, an open-path encoding for an external ATSP
solver, a per-route evaluator, a scheduler and a brute-force cross-check. This
project models all of them over one reference meaning, a clock that walks an
order (`Simulation.Walk`), and proves that they agree with it and hence with
each other, for every problem and every matrix. The walk, the search, the
encodings, the evaluator and the scheduler are treated for any number of
locations; `ExactSolve.SolveDetailed`, and what `Agreement` and `BruteForce`
derive from its results, answer for at most fifteen, as the source does, which
reports more as unsupported. The project then models the two concurrent parts of
the service, the parallel matrix build and the job protocol, as interleavings of
atomic steps and proves what every run keeps.

Verify with `dafny verify dfyconfig.toml` in this directory.

## How it is organised

| files | content |
|---|---|
| `Domain`, `Sequences`, `Masks` | shared values, repetition-free sequences, visited sets as bit masks |
| `Simulation`, `Objective`, `Routes`, `Transition` | the reference walk, its conservation law and closed form, the comparison, partial routes, the 32-bit time steps |
| `ExactSearch`, `ExactRun`, `ExactFrontier`, `ExactFeasible`, `ExactSolve` | the Pareto search, what its frontiers are, the earliest-arrival table, the binary searches over start minutes |
| `Evaluator`, `Schedule` | evaluating one order, expanding it into stops |
| `MipModel`, `MipRoute`, `MipSolve` | the linear constraints, soundness and completeness of the encoding, the lexicographic phases |
| `Lkh`, `LkhTour` | the open-path to ATSP transformation, tour parsing and decoding |
| `MatrixBuild`, `MatrixProgress`, `MatrixCauses` | workers, watchdog and caller of the parallel matrix build |
| `JobState`, `JobProtocol`, `JobSafety`, `JobRuns`, `JobOutcomes`, `JobStreams`, `JobStore` | job transitions, runner/canceller/reader interleavings, safety over whole runs, what becomes of a job and of its streams, the file store and its index |
| `Permutation`, `BruteForce` | the in-place permutation step and the exhaustive cross-check |
| `Agreement` | the solvers, the evaluator and the scheduler agree |
| `LowerBound`, `Removal`, `Selection` | failure advice, removal probes, online best versus stable ranking |

The imperative parts of the source are methods with loops over sequences or
arrays, or classes whose methods state their whole new state; the pure parts are
functions. A member whose loop is the point is proved against a declarative
specification (`Optimal`, `SelectedStart`, `Scheduled`, `ExactlyEarliest`,
`Successor`, `FirstBest`), not against its own text.

Readings that the proofs rely on:

- One slot is one minute (`TIME_SLOT_MINUTES` is 1), so slot conversions are
  identities and are not written. Counters are unbounded integers; every checked
  or saturating 32-bit operation is written out, and lemmas show that overflow
  can only hide steps that closing times forbid anyway.
- `Problem.Valid` follows from request validation (`src/api.rs:440-650`), which
  checks more: required endpoints, priorities of 1 to 100, ordered windows, and no
  optional location when all are required. Validation also wants windows and stays
  in tens of minutes; no proof needs that, and the counterexample trip meets it
  (`LowerBound.TenMinuteAligned`). At least one location is part of it, so the
  "no location" error of the exact solver does not appear.
- A cancellation token or a deadline is a function of the moment (`Domain.Token`),
  and a poll asks it at a moment the program does not choose. An operation may end
  cancelled or out of time only when some moment says so (`Domain.Quiet`). In the
  state machines a deadline passing is a step of its own.
- The external MIP solver is any function that is honest about its own statuses
  (`MipSolve.Sound`); the external ATSP solver is any tour.
- Each store call, counter access, channel send and token access of the job
  protocol is one atomic step. Stages are numbered in their declared order.

Two places where the code does less than its comments say:

- The "start earlier" advice marked exact (`src/failure.rs:472-492`) does not help
  when the order waits: `LowerBound.ShiftMayNotHelp` gives a trip, and
  `LowerBound.ShiftWorksIff` the exact condition.
- A reader that looks for a job's activity before submission has registered it
  reads the job and the sequence number separately, so its only snapshot can carry
  an older state than its number suggests: `JobRuns.UnsubscribedSnapshotCanBeStale`.
  `JobRuns.UnsubscribedSnapshotIff` says exactly when it does, and that the comparison
  of counters that subscribed readers make would exclude it. Such a stream ends after
  that snapshot.

## Model

| member | source | states |
|---|---|---|
| `Simulation.Conservation` | src/solver.rs:177-228 | every minute between start and finish is a stay, a travel minute or a wait, and the finish is within the day |
| `Simulation.WalkDownwardClosed` | src/solver/exact/bit_dp.rs:90-92 | an order that can be walked from a start can be walked from every earlier one and never finishes later |
| `Simulation.WalkClosedForm` | src/solver/exact/bit_dp.rs:315-355 | over all starts t an order is feasible exactly up to a latest start, and its finish is max(t + span, floor) |
| `Simulation.EarlierStartMovesFinish` | src/failure.rs:472-492 | an earlier start moves the finish exactly while the order does not wait |
| `Objective.CompareIsTotalPreorder` | src/solver.rs:56-76 | the comparison is a total preorder among metrics of one start policy |
| `Objective.CompareSays` | src/solver.rs:56-76 | coverage, priority, the start the policy prefers, finish, travel, wait and score decide in that order |
| `Objective.ScoreAccounts` | src/solver.rs:48-50 | the score is every minute between start and finish that is not spent staying |
| `Objective.DominatesIff` | src/solver/exact/frontier.rs:31-42 | among states with the same stays the packed test never carries from wait into travel: it holds exactly when time and travel are both no larger |
| `Transition.InitialServiceIsDepart` | src/solver/exact/transition.rs:12-30 | the checked start service succeeds exactly when the reference does, with the same departure and wait |
| `Transition.TransitionTimeIsMove` | src/solver/exact/transition.rs:32-47 | the checked transition finishes exactly when the reference move does, at the same minute |
| `Transition.StepsAreMonotone` | src/solver/exact/transition.rs:12-47 | both time steps are monotone and downward closed in time |
| `Routes.MayEndIsValidOrder` | src/solver/exact/bit_dp.rs:187-194 | the mask test before the destination accepts exactly the complete valid orders, in both visit policies |
| `ExactSearch.CellConservation` | src/solver/exact/bit_dp.rs:315-355 | every state satisfies time = start + stays of its mask + travel + wait |
| `ExactSearch.TransitIsMove` | src/solver/exact/bit_dp.rs:315-355 | the transition succeeds exactly when the walk's move does and records the extended route's exact metrics |
| `ExactSearch.CandidateDominates` | src/solver/exact/bit_dp.rs:202-215 | between a candidate and a state of its cell the frontier test means no later and no more travel |
| `ExactSearch.Relax` | src/solver/exact/bit_dp.rs:181-219 | one relaxation, under any frontier policy that drops no more than the built-in one, keeps every record exact, every cell undominated and everything covered, leaves cells of smaller masks alone, and covers the extension it tried |
| `ExactRun.ExpandMask` | src/solver/exact/bit_dp.rs:168-222 | after a mask is processed all states of its cells have every extension covered |
| `ExactRun.FillFrontiers` | src/solver/exact/bit_dp.rs:140-222 | the finished table is settled for every mask, its states are real routes with exact metrics, and no state dominates another of its cell |
| `ExactRun.EveryRouteIsCovered` | src/solver/exact/bit_dp.rs:168-222 | every walkable partial route is covered by a state of its own cell |
| `ExactRun.CollectTerminals` | src/solver/exact/bit_dp.rs:224-231 | the collected states are exactly those that close a route the visit policy accepts |
| `ExactRun.PickBest` | src/solver/exact/bit_dp.rs:232-240 | the first of the minimal states, and none exactly when there is no state |
| `ExactRun.Backtrack` | src/solver/exact/bit_dp.rs:241-248 | following predecessors reproduces the route the state stands for |
| `ExactRun.SearchAtStart` | src/solver/exact/bit_dp.rs:132-262 | returns a best valid order from the start with its exact metrics and score, and nothing exactly when no valid order can be walked; it stops only for a positive poll |
| `ExactFrontier.EveryPrefixIsRepresented` | src/solver/exact/bit_dp.rs:168-222 | every feasible prefix is dominated, in the code's own test, by a survivor of its cell that stands for a real prefix |
| `ExactFrontier.SurvivorsAreMinimal` | src/solver/exact/bit_dp.rs:202-218 | no prefix beats a survivor: one that dominates it has the same time, travel and wait, so a cell is exactly the Pareto front |
| `ExactFrontier.PruningLosesNothing` | src/solver/exact/frontier.rs:14-27 | any completion of a pruned prefix can follow its dominator and is no worse there |
| `ExactFeasible.FillEarliest` | src/solver/exact/bit_dp.rs:267-313 | every cell of the earliest-arrival table holds exactly the minimum finish over all feasible prefixes |
| `ExactFeasible.IsFeasibleAtStart` | src/solver/exact/bit_dp.rs:267-313 | with all locations required it is true exactly when some valid order can be walked from the start |
| `ExactSolve.LatestFeasibleStart` | src/solver/exact/bit_dp.rs:90-104 | the binary search returns the largest start from which every location can still be visited |
| `ExactSolve.LatestKeepingStart` | src/solver/exact/bit_dp.rs:61-84 | the binary search returns the largest start that keeps the requested start's optional coverage |
| `ExactSolve.LatestKeepingIsOptimal` | src/solver/exact/bit_dp.rs:61-106 | the best order from that start is optimal over all valid orders and all allowed starts |
| `ExactSolve.KeepsDownwardClosed` | src/solver/exact/bit_dp.rs:90-103 | feasibility with a given coverage is downward closed in the start minute |
| `ExactSolve.SolveDetailed` | src/solver/exact/bit_dp.rs:44-130 | unless a poll finds the run cancelled, and under any such frontier policy, the result minimises the comparison over every valid order and every start of the start policy, in both visit policies, its score is the minutes not spent staying, and NoFeasibleRoute is returned exactly when no pair simulates |
| `Evaluator.ValidateVisitOrder` | src/solver.rs:141-175 | accepts exactly the valid orders |
| `Evaluator.SimulateSolution` | src/solver.rs:177-228 | computes exactly the reference evaluation, with the score as the minutes not spent staying, and nothing when endpoints or windows fail |
| `Evaluator.EvaluateSolution` | src/solver.rs:81-125 | returns the metrics and score from the largest allowed start from which the order simulates, with exact error cases, and stops only for a positive poll |
| `Evaluator.SelectedStartClosedForm` | src/solver.rs:81-125 | that start equals the profile's latest departure in closed form |
| `Evaluator.OptimumIsReproduced` | src/solver.rs:81-125 | evaluating an optimal order again, whichever solver found it, gives back exactly its start and metrics |
| `Evaluator.ExposedStartIsSelected` | src/solver/exact/bit_dp.rs:384-391 | the start time exposed to callers is the start that was selected |
| `Schedule.ValidateSolution` | src/schedule.rs:136-185 | the second validation accepts exactly the same orders |
| `Schedule.CalculateScheduleFrom` | src/schedule.rs:22-134 | succeeds with stops that repeat the reference walk one by one, or reports the first stop where it breaks and why |
| `Schedule.ScheduleAgreesWithEvaluation` | src/schedule.rs:22-134 | scheduling succeeds exactly when simulation does; last departure, total travel and summed waits are the metrics |
| `MipModel.AddFlowConstraints` | src/solver/mip/scip.rs:408-438 | the added rows hold exactly when one arc leaves the start, one enters the end and visited locations are balanced |
| `MipModel.AddSubtourConstraints` | src/solver/mip/scip.rs:440-460 | the added rows hold exactly when positions increase along used arcs |
| `MipModel.AddTimeConstraints` | src/solver/mip/scip.rs:462-526 | the added rows hold exactly when visited locations are served within their windows, starts are chosen by policy and used arcs leave enough time |
| `MipModel.AddFixedObjectiveConstraints` | src/solver/mip/scip.rs:528-596 | the added rows hold exactly when every proved objective value is kept |
| `MipModel.BuildModel` | src/solver/mip/scip.rs:266-406 | a bounded assignment satisfies the built rows exactly when it meets flow, order, time and fixed objectives |
| `MipModel.ObjectiveIsPhaseValue` | src/solver/mip/scip.rs:598-673 | each phase's objective coefficients equal the value it reads back, up to a constant |
| `MipRoute.NoStray` | src/solver/mip/scip.rs:440-460 | no visited location lies off the path: the off-path one with least position would have a predecessor with a smaller one |
| `MipRoute.ExtractRoute` | src/solver/mip/scip.rs:675-705 | on a satisfying assignment following used arcs always reaches the end and visits exactly the flagged locations |
| `MipRoute.AssignmentWalks` | src/solver/mip/scip.rs:462-526 | soundness: the extracted order simulates from the selected start and finishes no later than assigned |
| `MipRoute.DescriptionSatisfies` | src/solver/mip/scip.rs:266-526 | completeness: every feasible order and start is described by a satisfying assignment |
| `MipRoute.EncodingIsExact` | src/solver/mip/scip.rs:266-526 | some satisfying assignment carries an order and a start exactly when that order simulates from that start |
| `MipSolve.PhaseValuesAreMetrics` | src/solver/mip/scip.rs:598-673 | the phase values of a satisfying assignment are the metrics of its route, except that finish and wait may share a delay |
| `MipSolve.LexIsCompare` | src/solver/mip/scip.rs:91-153 | the phases in order prefer one assignment exactly when the objective prefers its metrics, both directions |
| `MipSolve.LexOptimalIsOptimal` | src/solver/mip/scip.rs:91-153 | an assignment optimal on all phases carries a route that no valid order and allowed start beats |
| `MipSolve.SolvePhase` | src/solver/mip/scip.rs:201-264 | a phase passes on the solver's answer: proven exactly when the solver proved it, with an optimal route of the model then and a route of it otherwise, and the matching error for every other answer |
| `MipSolve.SolveLexicographic` | src/solver/mip/scip.rs:91-153 | a proven run returns an optimum of the comparison, an unproven one a feasible route that is unbeaten on the phases before the one it was found in, infeasibility reports are true, and a solver that settles every question leaves a run unproven only for an expiry or a cancellation |
| `MipSolve.QuietRunIsProven` | src/solver/mip/scip.rs:91-153 | without cancellation or expiry a run with such a solver goes through all phases and ends with a proven optimum or with infeasibility |
| `Agreement.OptimaAgree` | src/solver.rs:56-76 | any two optima have the same metrics, field by field, even when their orders differ |
| `Agreement.PruningChangesNothing` | src/bin/algorithm_validation.rs:173-179 | with any two such policies, no pruning included, the exact solver ends alike and reports the same metrics |
| `Agreement.ExactAndMipAgree` | src/solver/mip/scip.rs:91-153 | a proven mixed-integer run has the exact solver's metrics, an unproven one is never better, and its proof of infeasibility implies the exact solver's |
| `Agreement.PlanOfOptimum` | src/schedule.rs:22-134 | scheduling the exact solver's order from its start succeeds, with its finish, travel and waits |
| `Lkh.NewOpenPath` | src/solver/external/lkh3.rs:177-221 | the weights encode the problem with a forbidden weight above every open path; it refuses exactly when that weight exceeds 32-bit precision |
| `Lkh.RotateKeepsWeight` | src/solver/external/lkh3.rs:236-257 | where a cycle is cut does not change its weight |
| `Lkh.PathEncodes` | src/solver/external/lkh3.rs:177-221 | every open path closes to a tour that weighs its travel plus the dimension, below the forbidden weight |
| `Lkh.RotationsDecodeAlike` | src/solver/external/lkh3.rs:236-257 | all rotations of a tour decode to the same path |
| `Lkh.LightTourDecodes` | src/solver/external/lkh3.rs:236-257 | a tour below the forbidden weight decodes to an open path over reachable arcs, and its weight is the travel plus the dimension |
| `Lkh.LightTourIffPath` | src/solver/external/lkh3.rs:177-257 | a tour below the forbidden weight exists exactly when an open path does |
| `Lkh.MinimumTourIsMinimumPath` | src/solver/external/lkh3.rs:177-257 | a minimum tour decodes to a minimum-travel path whenever one exists |
| `LkhTour.ParseTour` | src/solver/external/lkh3.rs:267-301 | accepts exactly the tour sections that list every node once, and returns that tour |
| `MatrixBuild.StepKeepsSound` | src/routing/matrix_builder.rs:164-219 | every step of every actor keeps claims unique, slots accounted for, the count equal to the counted slots and reports in order |
| `MatrixBuild.RunIsSound` | src/routing/matrix_builder.rs:256-408 | in every interleaving the invariant holds: each pair claimed once, observers see 1, 2, 3, ..., an unfilled slot with no holder implies a recorded abort |
| `MatrixBuild.DoneIsExact` | src/routing/matrix_builder.rs:360-408 | when all workers are done without an abort every slot holds the provider's answer for its pair |
| `MatrixBuild.DirectedPairs` | src/routing/matrix_builder.rs:222-256 | every directed pair of different locations is listed exactly once, in row-major order |
| `MatrixBuild.Finish` | src/routing/matrix_builder.rs:360-408 | an Ok matrix equals the sequential pairwise lookup and is returned exactly when everything was answered, nothing failed and nobody cancelled; both unchecked unwraps are safe, and an error names the first failed or else first missing pair with the timeout flag and the counts |
| `MatrixProgress.WorkerStepsAreBounded` | src/routing/matrix_builder.rs:280-352 | in every interleaving the workers together take at most eight steps for each pair and two for each worker |
| `MatrixProgress.SomeWorkerCanAct` | src/routing/matrix_builder.rs:189-218 | no deadlock: until all workers are done some worker can take a step |
| `MatrixProgress.SpentRunIsDone` | src/routing/matrix_builder.rs:280-352 | a run that has used up that bound has ended |
| `MatrixCauses.PunctualRunFailsNothing` | src/routing/matrix_builder.rs:280-352 | without a passed deadline or a failed query no interleaving records a failure or a timeout |
| `MatrixCauses.CalmBuildSucceeds` | src/routing/matrix_builder.rs:256-408 | if moreover the caller stays, the finished build has every answer in its slot and returns the matrix |
| `MatrixCauses.RefusedAnswerIsNotUsed` | src/routing/matrix_builder.rs:311-350 | a query that fails, or brings minutes after the deadline, never fills its slot, whatever happens later |
| `MatrixCauses.AcceptedAnswerIsStored` | src/routing/matrix_builder.rs:319-336 | any other answer goes on into its slot |
| `MatrixCauses.StoppedBuildAsksNothing` | src/routing/matrix_builder.rs:282-305 | no query starts once the build was told to stop or its time is up |
| `MatrixCauses.RefusalAbandons` | src/routing/matrix_builder.rs:311-350 | a refused answer makes its worker fail the pair, as late exactly when time is up, and leaves the slot to nobody |
| `MatrixCauses.StoppedWorkersLeave` | src/routing/matrix_builder.rs:282-305 | workers leave once told to stop, and fail a pair claimed after the deadline as late |
| `MatrixCauses.WatchdogReacts` | src/routing/matrix_builder.rs:259-278 | a watching watchdog notices a cancelled caller or a passed deadline, records which, and stops the workers |
| `MatrixCauses.FailureIsRecorded` | src/routing/matrix_builder.rs:209-218 | a failing worker raises the timeout flag if it was late, records its pair when it is the first, and then stops the others |
| `MatrixCauses.FirstFailureIsKept` | src/routing/matrix_builder.rs:209-218 | a recorded failure is never replaced |
| `JobSafety.StepKeepsSafe` | src/jobs.rs:350-644 | every single step of runner, canceller or reader keeps the safety invariant and only extends what was persisted, numbered and sent |
| `JobRuns.RunIsSafe` | src/jobs.rs:350-568 | every reachable world of runner, cancellers and readers keeps the safety invariant |
| `JobRuns.JobMovesForward` | src/storage.rs:299-475 | over any run a terminal status is final and status, stage and progress never go back |
| `JobRuns.CompletionAgrees` | src/jobs.rs:350-568 | a cancelled token means a persisted cancellation, and the delivered completion is the persisted terminal status with the same result or error |
| `JobOutcomes.OutcomeWasAnswered` | src/jobs.rs:384-400 | a result or error a job ends with is one that its executor answered with while the job was not cancelled |
| `JobOutcomes.AnswerIsDelivered` | src/jobs.rs:487-547 | after such an answer the job can end only with it, persisted and delivered, or withdrawn because it was cancelled first |
| `JobOutcomes.WantedJobIsNotCancelled` | src/jobs.rs:350-568 | a job that nobody asks to cancel is never cancelled or withdrawn |
| `JobOutcomes.ExactlyOneTerminalEvent` | src/jobs.rs:487-547 | a job that ends with a result or error has sent exactly one terminal event, of that kind and with the final state |
| `JobOutcomes.PublicationEnds` | src/jobs.rs:616-644 | a publication ends by sending its event; only progress of a job that has ended meanwhile is dropped |
| `JobOutcomes.AdmissionTakesHold` | src/jobs.rs:367-380 | an admitted job that is still active becomes running, a cancelled one is withdrawn |
| `JobOutcomes.WithdrawalTakesHold` | src/jobs.rs:549-561 | a withdrawing runner cancels and announces a job that is still active, and just leaves one that was cancelled |
| `JobOutcomes.UpdateTakesHold` | src/jobs.rs:449-468 | a progress update of an active job is stored and announced; on a cancelled one the token is raised |
| `JobOutcomes.CancelTakesHold` | src/http/handlers/jobs.rs:185-210 | a cancel request cancels an active job and, when a runner is registered, announces it and then raises the token |
| `JobOutcomes.RunnerCanAct` | src/jobs.rs:350-400 | until it is finished the runner can act, given the executor's answer where it waits for one |
| `JobRuns.AtMostOneTerminalEvent` | src/jobs.rs:549-644 | at most one terminal event is ever sent, and it carries the final state |
| `JobRuns.StreamsAreOrdered` | src/http/handlers/events.rs:108-225 | emissions meet the event contract, cursors never decrease, nothing follows a terminal one, and a subscriber's snapshot labelled n is as recent as every event up to n |
| `JobStreams.ReaderSubscribes` | src/http/handlers/events.rs:89-98 | a reader that arrives while the job is registered subscribes from there on |
| `JobStreams.ConsumedIsEmitted` | src/http/handlers/events.rs:143-165 | every consumed event numbered above the cursor is emitted; events are skipped only beyond the channel's capacity, and then for a new snapshot |
| `JobStreams.ReadersFollow` | src/http/handlers/events.rs:132-194 | in every run the cursor is the last emitted number, everything a listening subscriber has consumed is at or below it, and its stream ends only with a terminal state or after its runner |
| `JobRuns.UnsubscribedSnapshotCanBeStale` | src/http/handlers/events.rs:118-130 | without a subscription the last guarantee fails: a concrete run |
| `JobRuns.RecencyIff` | src/http/handlers/events.rs:108-130 | a job read at one moment and labelled later is as recent as its label exactly when no event numbered in between, up to the label, carries a newer state |
| `JobRuns.UnsubscribedSnapshotIff` | src/http/handlers/events.rs:118-130 | that condition for the one snapshot of a reader without a subscription, at the step it read the job; a label within the counter at that step suffices |
| `JobState.TransitionsMoveForward` | src/storage.rs:299-475 | each store transition keeps the payloads consistent with the status and only moves the job forward |
| `JobState.UpdateStoresProgress` | src/storage.rs:390-413 | what a progress report stores, and when it is refused |
| `JobState.SavingStoresOutcome` | src/storage.rs:299-334 | what saving a result or an error stores, when a cancellation wins over it, and when it is refused |
| `JobState.ActiveJobsMove` | src/storage.rs:376-475 | exactly the active jobs can be marked running or cancelled, and what that stores |
| `JobStore.UpdateMirrors` | src/storage.rs:270-281 | replacing one entry keeps the index a sorted mirror of the jobs |
| `JobStore.MirrorsAgree` | src/storage.rs:270-293 | two mirrors of the same jobs have the same entries |
| `JobStore.FileJobStore.CreateJob` | src/storage.rs:338-374 | adds one pending job without progress or payload, with its index entry, or refuses a duplicate and changes nothing |
| `JobStore.FileJobStore.MarkRunningJob` | src/storage.rs:376-388 | an active job becomes running and is otherwise untouched, any other is refused with its status; never moving back; the index follows |
| `JobStore.FileJobStore.UpdateJobProgress` | src/storage.rs:390-413 | an accepted report makes the job run at that stage with that message and the larger of the two percentages, capped at 100; one for an earlier stage changes only the update time; terminal jobs refuse; nothing goes back |
| `JobStore.FileJobStore.SaveJobResult` | src/storage.rs:415-431 | a running job completes at 100 percent with the result, a cancelled one stays cancelled, any other is refused with its status; never moving back |
| `JobStore.FileJobStore.SaveJobError` | src/storage.rs:433-449 | a running job fails where it stands with the error, a cancelled one stays cancelled, any other is refused with its status; never moving back |
| `JobStore.FileJobStore.CancelJob` | src/storage.rs:451-475 | an active job is cancelled with the message and otherwise stands still, a terminal one is refused with its status; never moving back |
| `JobStore.FileJobStore.ListRecent` | src/storage.rs:494-503 | the newest entries by creation and then update time, none left out is newer, and each shows its job's status, mode and times |
| `JobStore.FileJobStore.RebuildIndex` | src/storage.rs:282-293 | the rebuilt index has the same entries as the one kept call by call |
| `JobStore.FileJobStore.RecoverInterrupted` | src/storage.rs:505-542 | exactly the unfinished jobs become failed with the interruption as error and one more event number, they are counted, and the index mirrors the result |
| `Permutation.PrecedesIsTotal` | src/bin/algorithm_validation.rs:1325-1339 | lexicographic order compares any two different arrangements one way |
| `Permutation.StepIsSuccessor` | src/bin/algorithm_validation.rs:1325-1339 | pivot, exchange and reversal give the immediate successor: nothing lies between |
| `Permutation.NextPermutation` | src/bin/algorithm_validation.rs:1325-1339 | in place, steps to the immediate successor, or changes nothing at the last arrangement |
| `BruteForce.TryLegIsMove` | src/bin/algorithm_validation.rs:1282-1300 | a leg is served exactly when the reference moves, and an overflow or missing arc rules out every start |
| `BruteForce.IndependentEvaluate` | src/bin/algorithm_validation.rs:1272-1313 | finds the latest start from which an order can be walked with its totals, and nothing exactly when there is none |
| `BruteForce.Search` | src/bin/algorithm_validation.rs:1245-1270 | ends, evaluates every ordering of the intermediates exactly once, and returns a minimum |
| `BruteForce.CrossCheckPasses` | src/bin/algorithm_validation.rs:507-545 | the exact solver, the same solver without pruning and the exhaustive search always find the same metrics or all find nothing |
| `LowerBound.LeastOf` | src/failure.rs:676-693 | the least reachable arc apart from the diagonal, and none exactly when there is none |
| `LowerBound.DurationCounts` | src/failure.rs:656-695 | the bound is exactly the capped sum of all stays and the larger of the least cost of leaving all locations but the last and of entering all but the first |
| `LowerBound.DurationWithoutMatrix` | src/failure.rs:656-673 | without a usable matrix it is the capped sum of the stays |
| `LowerBound.BoundIsNecessary` | src/failure.rs:656-695 | start plus lower bound is within the destination's closing time for every order that can be walked, saturation included |
| `LowerBound.AdviceIsNecessary` | src/failure.rs:335-378 | when any order can be walked no split is advised, and its start is no later than the advised one |
| `LowerBound.AdviceIff` | src/failure.rs:347-378 | a split is advised exactly when the bound exceeds the closing time, an earlier start exactly when it does from the requested one, namely the latest that still fits or midnight |
| `LowerBound.ShiftWorksIff` | src/failure.rs:472-492 | the offered earlier start works exactly when the order's waiting floor is within the closing time, that is, when any start works |
| `LowerBound.ShiftIff` | src/failure.rs:472-492 | the offered start removes the lateness and every wait, and is offered exactly when the day is long enough |
| `LowerBound.ShiftMayNotHelp` | src/failure.rs:472-492 | a trip that request validation accepts, for which the offered start still fails |
| `Removal.SubsetMatrix` | src/service/remediation.rs:216-227 | entries are those of the original at shifted indices |
| `Removal.ShiftWalk` | src/service/remediation.rs:162-169 | a route of the reduced problem and its shifted route have identical times, travel and waits |
| `Removal.ReducedFeasibleIff` | src/service/remediation.rs:144-178 | the reduced problem is feasible exactly when an order leaving out the location can be walked |
| `Removal.FeasibilityProbe` | src/service/remediation.rs:229-257 | true only for feasible problems; when no poll is positive, false only for infeasible ones up to ten locations and otherwise only when the greedy route fails from every start |
| `Removal.ProbeRemovedLocations` | src/service/remediation.rs:144-178 | reports only removals that work, in order, and all of them when no poll is positive and the exact probe applies; it stops early only when the run is over; the split suggestion names the first |
| `Selection.BestSolutionTracker.ConsiderValidated` | src/solver/portfolio/objective.rs:60-100 | replaces the tracked best exactly on strict improvement and reports the previous one |
| `Selection.CandidateAccumulator.Consider` | src/solver/orchestrator/candidate_accumulator.rs:30-55 | keeps the first of the best and counts the strict running minima |
| `Selection.CandidateAccumulator.WarmStart` | src/solver/orchestrator/candidate_accumulator.rs:57-64 | the route of the first of the best, and nothing exactly when no candidate is eligible |
| `Selection.RankOrderInOrder` | src/solver/orchestrator/selector.rs:16-42 | the comparison admits a stable order of any candidates |
| `Selection.RankMeans` | src/solver/orchestrator/selector.rs:30-42 | a ranking puts feasible before infeasible, scored before unscored and better before worse candidates, and keeps the order of arrival otherwise |
| `Selection.RankAndSelect` | src/solver/orchestrator/selector.rs:16-28 | ranking and selecting chooses the first of the best, or reports that none is eligible |
| `Selection.OnlineAgreesWithRanking` | src/solver/orchestrator/selector.rs:16-42 | the candidate kept online is the one any stable ranking selects |

## Left out

- MipSolve.SolveLexicographic: the solver's floating-point values, tolerances and node search are not modelled; values are integers and the solver is an oracle that is honest about its statuses.
- Lkh.NewOpenPath: the child process, temporary files, parameter text and timeouts are not modelled; any tour may come back.
- JobRuns.StreamsAreOrdered: its recency clause leaves out readers without a subscription whose job is still active, for which it fails; `JobRuns.UnsubscribedSnapshotIff` gives their exact condition. A live reader may skip a terminal event that arrives late, so no liveness is stated.
- JobRuns.CompletionAgrees: results and errors are opaque texts; telemetry is not part of a persisted state, and no I/O fault or crash between a payload write and its state write occurs.
- JobStore.FileJobStore.RecoverInterrupted: the store's records are a map; files, atomic renames, JSON and the encoding of job names are not modelled.
- LowerBound.AdviceIsNecessary: stated for requests in which every location is required; with optional locations the bound counts stays that may be skipped and is only a heuristic.
- Removal.FeasibilityProbe: the greedy route used above ten locations is a parameter, because how it is generated is not modelled; an unsuccessful greedy probe proves nothing.
- Selection.RankAndSelect: the library's sort is represented by its stable order of positions, not by the slice it rearranges, and strategy names, timings and fingerprints are not modelled.
- MatrixBuild.Finish: provider calls are a fixed answer per pair plus a nondeterministic failure that is assumed to return; the cause and elapsed time of a failure, request pacing, wall clocks and the shortcut for an empty pair list are not modelled.
- BruteForce.CrossCheckPasses: stated for the kind of case the tool generates for it, a latest-start, all-required problem whose start location costs nothing and never closes before the destination.
- ExactSolve.SolveDetailed: search statistics are not modelled; the total of all priorities is assumed to fit 32 bits, which at most fifteen locations guarantee.
- The annealing, clustering, spanning-tree, matching and policy strategies, custom objectives, frontier policies that drop more than the built-in one, and the orchestrator's scheduling of them.
- HTTP routing, JSON and event framing, logging, configuration, provider selection, request field validation and the euclidean distance estimate.
