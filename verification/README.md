# EdgeFleet rollout control plane: a verified model

This project models the parts of the EdgeFleet control plane that decide which device gets which firmware, when, and on whose authority, and proves what they guarantee. Check it with `dafny verify dfyconfig.toml` (Dafny 4.11).

What is modelled, by module:

- `Apportionment`, `LargestRemainder`, `CohortPlanner`, `CohortProperties`, `CohortOrder`, `CohortAgreement`: the cohort planner. Devices are grouped into strata, sorted by a keyed hash, and exposed in cumulative stages by a largest-remainder apportionment that carries each stage's allocation forward. The keyed hash is any function.
- `ReleaseMachine`: the release state machine.
- `GateEvaluator`: threshold arithmetic of the health gates, over exact reals.
- `Fleet`, `FleetProperties`, `ReportConfluence`: devices, assignments, commands and reports, and the operations every transaction is made of.
- `Rollout`: the stored state and one step function per top-level transaction. The gate job and the scheduled starter are split into the snapshots they take outside a transaction and their commit against the captured version, so that operators, devices and other jobs interleave freely. `RolloutFrames` says which tables a step leaves alone; `RolloutInvariants`, `RolloutSteps`, `RolloutHistory` and `RolloutLedger` prove what every step keeps; `RolloutEffects` gives every step's effect on the fleet; `RolloutTheorems`, `RolloutLimits`, `RolloutArtifacts`, `RolloutCoverage`, `RolloutEnrolment`, `RolloutReturns` and `RolloutEndings` state results over all runs; `RolloutGuards` (operators and approvers), `RolloutVerdicts` (gates and scheduled starts), `RolloutReports` and `RolloutUpkeep` (key compromise, maintenance) say of each kind of step exactly when it does anything and what it then does, from the tables alone; and `RolloutWitnesses` and `RolloutSetbacks` have runs from the empty database into the states those results speak of.
- `ReleaseStore`: the storage handle as a class whose tables are fields, with the jobs and routes as loops and single-row writes. Every method is proved to have exactly the effect of the step function the theorems are about.
- `EvidenceChain`, `Idempotency`, `RateLimiter`, `Base64Url`, `Pagination`: the stateful request machinery and the audit chain.
- `Simulator`, `SimulatorProperties`, `SimulatorEvents`: the discrete-event simulator; every random draw comes from an arbitrary oracle.
- `Wrappers`, `Ordering`: option and result values, string order and sorting.

Parameters stand for what lies outside: keyed hashes and digests (injective where a result needs it, and then the result says so), the clock (as timestamps, or as the set of rows that have expired by now), telemetry queries, artifact bytes, generated identifiers, and the handlers behind the idempotency envelope. Statements about runs quantify over every sequence of steps from an empty database; the parameters of each step are arbitrary.

Findings the model makes precise, following the code where it and its documentation disagree:

- A scheduled release can be started if and only if its policy does not ask for a second person: scheduling uses up the start approval and raises the version (`RolloutEndings.ScheduledStartsExactly`).
- An abort settles without a second one if and only if the release had an assignment and none in flight: a cancelling assignment is neither served nor advanced by reports, and a release without assignments never settles (`RolloutEndings.AbortSettlesExactly`). A second abort helps under a one-person policy only; under a two-person policy the release is then stuck for good, because an approved abort is used up by its own decision (`RolloutEndings.AbortEndsExactly`, with a run to such a release in `RolloutWitnesses.DecidedAbortReached`).
- `failed` is never stored: the failure code of a failed rollback is the report's result code (`RolloutTheorems.StageShape`). A release whose rollback has ended tells by its status whether some device failed exactly when none did (`RolloutTheorems.RollbackToldExactly`); a device whose rollback command failed and a release that ends rolled back all the same are reached in `RolloutSetbacks.FailedRollbackReached`.
- A release blocked by a key compromise is never validated again, because keys never become active again (`RolloutTheorems.BlockedForGood`, reached in `RolloutSetbacks.BlockedReached`).
- The repository's README lists abort among the gate evaluator's outcomes; the evaluator never returns it (`RolloutSteps.NeverAborts`).
- Planner stages and activated waves agree for a stage if and only if its allocation fills strata in key order up to exactly the target; one stratum always does, two pairs of devices at half do not (`CohortAgreement.AgreementExactly`, `CohortAgreement.PairsDisagree`).
- An empty list of failed gates means pass exactly when the crash-free pause threshold is at least 97 (`GateEvaluator.EmptyFailedGatesMeansPass`); a threshold of 95 and 96 percent measured give an empty list and a rollback (`GateEvaluator.EmptyListRollsBack`).
- Report order matters exactly when a live report overtakes the newest one in generation (`ReportConfluence.ConfluentExactly`); two such reports on a reachable fleet are in `RolloutSetbacks.OvertakingReached`.
- Evidence verification reports a broken chain as valid exactly when the first broken row's number is a multiple of 2^32 (`EvidenceChain.CleanMeansIntactExactly`).

- The simulator's converged figure takes a device in two troubles off twice (`SimulatorProperties.ConvergedExactly`, with two devices in `SimulatorProperties.DoubleTroubleReached`).
- The cursor decoder accepts texts its encoder never writes (`Base64Url.ReverseTripExactly`, with two such texts in `Base64Url.LooseTexts`).

Lemmas that only serve the proofs of others, such as `GateEvaluator.PassExactly` or `RolloutSteps.NeverAborts`, are helpers and have no row below.

## Model

| member | source | states |
|---|---|---|
| Apportionment.ApportionmentBound | src/domain/safety.cpp:182-207 | For every stage: the total allocated lies between the rounded-up share and the rounded-down share plus one per stratum; no stratum shrinks from stage to stage or exceeds its size |
| Apportionment.TopUpReaches | src/domain/safety.cpp:193-206 | The top-up loop always finds a stratum with room and ends at the larger of the carried total and the stage's target |
| LargestRemainder.StageRowExactly | src/domain/safety.cpp:184-206 | A row is the stage's allocation if and only if it reaches the larger of carried total and target with each stratum at its floor or topped up, and single devices went by remainder of size times percentage, ties to the earlier key, a second device only when no such remainder is left |
| LargestRemainder.RowExactly | src/domain/safety.cpp:183-207 | Every stage's row is the one and only row due after the stage before it |
| Apportionment.RowsAscend | src/domain/safety.cpp:188-190 | Between any two stages a stratum's allocation never falls |
| Apportionment.LastRowComplete | src/domain/safety.cpp:182-207 | The last stage, at 100 percent, takes every device of every stratum |
| Apportionment.SingleStratumExact | src/domain/safety.cpp:182-207 | With one stratum every stage's allocation is exactly the activator's target count |
| Apportionment.TargetCountGrows | src/application/jobs.cpp:31-35 | The activator's prefix grows with the percentage and is everybody at 100 |
| CohortPlanner.Carry | src/domain/safety.cpp:185-192 | One stage's floors are carried forward as the larger of previous allocation and floor, with the remainders of the shares |
| CohortPlanner.Fill | src/domain/safety.cpp:193-206 | Topping up one device at a time by largest remainder, ties by key order, reaches the specified row |
| CohortPlanner.Apportion | src/domain/safety.cpp:182-207 | All stages' cumulative rows, one after the other |
| CohortPlanner.MakePlan | src/domain/safety.cpp:159-228 | Error codes for an empty cohort and for stage plans that are not strictly ascending percentages ending at 100; otherwise the specified members and their digest |
| CohortProperties.InputOrderIndependent | src/domain/safety.cpp:164-226 | With distinct stable keys any permutation of the devices yields the identical member sequence |
| CohortProperties.PlanIsPartition | src/domain/safety.cpp:208-217 | The members are a permutation of the devices and ordinals are exactly 0 to N-1 |
| CohortOrder.PlanIsOrdered | src/domain/safety.cpp:164-173 | Smaller ordinals go to the lower hardware model and architecture, then the lower keyed hash, then the lower stable key; each member carries the keyed hash of release and stable key |
| CohortOrder.StageTakesFirst | src/domain/safety.cpp:208-217 | Devices of one hardware model and architecture hold a run of ordinals, and by any stage exactly the first of the run are taken, as many as that stage's row allots them |
| Ordering.BelowExactly | src/domain/safety.cpp:172-172 | Strings are compared byte by byte: one is below another if and only if at their first difference it is lower or has ended |
| CohortProperties.StageMeansAllocation | src/domain/safety.cpp:208-217 | A seat's stage is at most j exactly when its place in the stratum is below the cumulative allocation of stage j |
| CohortProperties.ExposureBound | src/domain/safety.cpp:182-217 | The number of members with stage at most j is what stage j allocated and obeys the apportionment bound |
| CohortProperties.SingleStratumAgreement | src/domain/safety.cpp:208-217 | With one stratum a member has stage at most j exactly when its ordinal is below the activator's target count |
| CohortAgreement.AgreementExactly | src/application/jobs.cpp:135-135 | For every cohort and stage: the members planned by the stage are the ordinal prefix the activator opens if and only if the stage's row fills strata in key order up to exactly the target; the condition is computed from stratum sizes and percentages |
| CohortAgreement.PairsDisagree | src/application/jobs.cpp:135-135 | Four devices in two strata at 50 percent: whatever the hash, some member is planned for the stage and not opened in it, or the other way round |
| ReleaseMachine.TerminalExactly | src/domain/safety.cpp:248-272 | A state has no legal action exactly when it is completed, aborted, rolled back, failed or cancelled |
| ReleaseMachine.EnteredExactly | src/domain/safety.cpp:248-272 | For every state the moves that enter it, and that no others do |
| ReleaseMachine.CanAlwaysEnd | src/domain/safety.cpp:248-272 | From every state some run of actions reaches a terminal state |
| ReleaseMachine.NoWayBack | src/domain/safety.cpp:248-272 | A started release returns among the unstarted ones only through the security block |
| ReleaseMachine.FailedUnreachable | src/domain/safety.cpp:248-272 | No run of actions reaches failed |
| GateEvaluator.EmptyFailedGatesMeansPass | src/domain/safety.cpp:292-333 | For thresholds of a validated policy an empty list implies pass on all metrics if and only if the crash-free pause threshold is at least 97; a pass always has an empty list |
| GateEvaluator.EmptyListRollsBack | src/domain/safety.cpp:327-333 | A validated policy with a crash-free gate of 95, and a wave of a hundred devices at 96 percent: no failed gate, and the decision is rollback |
| GateEvaluator.SeverityMonotone | src/domain/safety.cpp:327-333 | Worsening any metric never lowers the severity in pass, insufficient, pause, rollback |
| GateEvaluator.DecisionExactly | src/domain/safety.cpp:327-333 | Exactly when the decision is rollback, pause, insufficient evidence or pass, by exact real thresholds on the counts; never abort |
| GateEvaluator.FailedGatesExactly | src/domain/safety.cpp:313-323 | Exactly which gates are listed as failed, each once and in the listed order |
| GateEvaluator.PolicyThresholds | src/domain/safety.cpp:285-311 | Which gate of a policy sets which threshold, in ratios or percent; a rollback rate is five times its pause rate, at most everybody and at least the default |
| GateEvaluator.ScaleInvariant | src/domain/safety.cpp:278-333 | Multiplying all counts by the same factor leaves the decision unchanged |
| FleetProperties.InstallKeeps | src/application/jobs.cpp:137-147 | An assignment with its raised generation and install command keeps every fleet invariant and moves nothing back |
| FleetProperties.RetargetKeeps | src/application/jobs.cpp:163-171 | Re-targeting to the rollback artifact keeps them; its generation is above everything the device was told before |
| FleetProperties.WithdrawKeeps | src/application/control_plane.cpp:1639-1647 | Starting to cancel keeps them; a cancel command at the current generation exists only while cancelling |
| FleetProperties.ExpireKeeps | src/application/jobs.cpp:228-239 | Stranding expired assignments keeps them |
| FleetProperties.ReceiveKeeps | src/application/control_plane.cpp:1823-1844 | Accepting a report keeps them; only a report of exactly the desired generation and digest makes an assignment converged or rolled back |
| FleetProperties.PollServesNewest | src/application/control_plane.cpp:1733-1733 | Whichever commands are within their not-before and expiry times, a desired-state poll can return only one row, the newest install or rollback command ever issued to the device |
| FleetProperties.PollServesExactly | src/application/control_plane.cpp:1733-1733 | A poll returns a row if and only if the device's newest install or rollback command is within its times and its row still waits at that generation, and then that row |
| FleetProperties.CurrentGenerationIsKnown | src/application/control_plane.cpp:1818-1833 | A device reporting what it was told to reach is never ignored as reporting an unknown generation |
| ReportConfluence.ConfluentExactly | src/application/control_plane.cpp:1823-1835 | Every order and repetition of a batch of reports ends in the same device row if and only if no live report outranks the newest one in generation; the row is then the newest report's |
| RolloutSetbacks.OvertakingReached | src/application/control_plane.cpp:1823-1835 | On a reachable fleet, two acceptable live reports whose order changes the device row |
| ReportConfluence.OrderlyAgentsConverge | src/application/control_plane.cpp:1823-1835 | Generations that never fall as sequences rise are enough, whatever the device reported before: the final row is the projection of the highest sequence |
| ReportConfluence.StaleReportsChangeNothing | src/application/control_plane.cpp:1829-1835 | Reports that are behind, or name a generation nobody commanded, never move the row |
| RolloutReports.AnswerExactly | src/application/control_plane.cpp:1788-1850 | Exactly which reports are accepted, accepted before, or refused with which code, wherever a device's report identifiers and sequences are distinct, as they are in every reachable state |
| RolloutReports.ReportExactly | src/application/control_plane.cpp:1823-1850 | What an accepted report does: the projection moves if it is ahead and names a commanded generation; the device's newest row in flight fails if and only if the result code is failed or install_failed, and is superseded, rolled back, converged or acknowledged by exact conditions otherwise; the release then settles if nothing of it is open |
| RolloutReports.DeliveredExactly | src/application/control_plane.cpp:1783-1852 | The same in every reachable state, for the step that delivers a report |
| RolloutReports.ReportsAreDistinct | src/application/control_plane.cpp:1813-1826 | In every reachable state no device has two reports of one identifier or one sequence |
| RolloutSteps.StepFine | src/infrastructure/sqlite_storage.cpp:129-141 | Every transaction moves releases only along the listed edges with rising versions, keeps frozen inputs, enrols only members of the stage it opens, and passes a stage only with recorded evidence |
| RolloutTheorems.StepsMoveLegally | src/domain/safety.cpp:248-272 | In every reachable state whatever a step does to a release's status is a run of legal actions of the transition table |
| RolloutSteps.FrozenIsRoster | src/application/control_plane.cpp:1428-1452 | Freezing a plan enrols exactly the eligible devices, each once, in planner order |
| RolloutSteps.CommitIsCarried | src/application/jobs.cpp:371-394 | A gate commit that changes anything found the release still running the stage it measured, with the metrics still counting every assigned device |
| RolloutVerdicts.CaptureExactly | src/application/jobs.cpp:320-323 | The gate job takes up a stage exactly when it is active and its release running, at the release's version |
| RolloutVerdicts.MeasureExactly | src/application/jobs.cpp:324-364 | A measurement counts exactly the assigned, failed, converged and stranded rows of stages up to its own and decides by the release's thresholds |
| RolloutVerdicts.EvaluateExactly | src/application/control_plane.cpp:1478-1515 | An operator's evaluation is recorded with exact counts and decision and moves nothing |
| RolloutVerdicts.CommitExactly | src/application/jobs.cpp:371-394 | In every state that keeps the invariants a measurement is carried out if and only if the version is still the captured one and, for a rollback, fallback artifact and bytes are good; each decision's whole effect on release and stages; otherwise nothing changes at all |
| RolloutVerdicts.CaptureStartExactly | src/application/jobs.cpp:296-302 | A scheduled release is picked up exactly when scheduled, and counts as authorised if one-person or approved at its version |
| RolloutVerdicts.CommitStartExactly | src/application/jobs.cpp:303-311 | A scheduled start happens if and only if it was authorised and the version still is the captured one, and then opens the first stage |
| RolloutTheorems.EveryRun | src/infrastructure/sqlite_storage.cpp:203-207 | All invariants hold in every reachable state |
| RolloutTheorems.BlastRadius | src/application/jobs.cpp:117-154 | Every assignment of every reachable state is for a frozen member inside the current stage's target prefix; no device is assigned twice in a release |
| RolloutTheorems.ExposureBounded | src/application/jobs.cpp:31-35 | A release never has more assignments than its current stage's target count |
| RolloutCoverage.OpenedStageCovered | src/application/jobs.cpp:135-147 | Whenever a step opens a stage, every eligible member of that stage's target prefix has an assignment of the release afterwards |
| RolloutEnrolment.NewRowsAreTold | src/application/jobs.cpp:135-147 | In every reachable state, whoever a step assigns has an install command for that row at the generation after the last the device was told; only an operator's own start assigns devices no longer eligible |
| RolloutTheorems.StageShape | src/application/jobs.cpp:117-154 | Passed, active and pending stages in every status; validating and failed are never committed |
| RolloutTheorems.RollbackToldExactly | src/application/jobs.cpp:184-185 | In every reachable state a release whose rollback has ended reads rolled back; its status is failed if and only if some of its rows failed, exactly when no row failed |
| RolloutReturns.GateRollbackReaches | src/application/jobs.cpp:156-173 | In every reachable state: when a gate commit takes a release onto its rollback, every row of it commanded, acknowledged, converged, failed or stranded is pending on the rollback artifact at the generation after the device's last, with a rollback command there; all other rows are as they were |
| RolloutReturns.DecisionReaches | src/application/control_plane.cpp:1231-1252 | The same for an approved rollback, which also clears failure codes; an approved abort makes every row in flight cancelling, with a cancel command at its generation, and changes no other |
| RolloutReturns.OperatorReaches | src/application/control_plane.cpp:1626-1647 | The same for the operator's rollback, whose states also include pending and cancelling, and the operator's abort |
| RolloutSetbacks.FailedRollbackReached | src/application/control_plane.cpp:1842-1842 | A run from the empty database in which a device reports result code failed for its rollback command and the release ends rolled back |
| RolloutTheorems.PromotionHistory | src/application/jobs.cpp:318-394 | Every stage behind the current one, and every stage of a completed release, has a recorded pass that was healthy by the frozen thresholds over exactly the devices exposed up to it, at least one |
| RolloutTheorems.FourEyes | src/application/control_plane.cpp:1556-1577 | Every recorded change that needs a second person has an approval by somebody other than its requester, for that action, bound to that version |
| RolloutGuards.OperateExactly | src/application/control_plane.cpp:1539-1656 | For every operator action: exactly when it is ignored, becomes a request for a second person, or is carried out, and what it then moves, uses up, supersedes, asks for and records |
| RolloutGuards.ResumeNeedsEvidence | src/application/control_plane.cpp:1578-1581 | A resume that changes any release's status found a passing evaluation of it with no later one |
| RolloutGuards.ResumesExactly | src/application/control_plane.cpp:1578-1581 | A paused release at its version that lacks no approval is resumed if and only if its last evaluation is a pass |
| RolloutGuards.DecideExactly | src/application/control_plane.cpp:1186-1257 | A decision takes effect if and only if somebody else asked, the request has not lapsed, the version is still the captured one and the release can still move so; what an approval and a rejection then write |
| RolloutGuards.OverrideExactly | src/application/control_plane.cpp:1517-1538 | An override is requested exactly once per evaluation, for a pause or lacking evidence of that release, at its version |
| RolloutGuards.ValidateExactly | src/application/control_plane.cpp:1389-1463 | A validation freezes a draft if and only if its devices, artifacts, keys and stage plan allow it; the frozen row, stages and members in planned order; otherwise nothing changes |
| RolloutGuards.EditExactly | src/application/control_plane.cpp:1379-1382 | A draft is edited at its own version only |
| RolloutTheorems.NoApprovalTwice | src/application/control_plane.cpp:1648-1651 | No approval authorises two changes |
| RolloutTheorems.ReleasesOnlyMoveOn | src/infrastructure/sqlite_storage.cpp:203-207 | Over every run a changed release has a higher version, a terminal one never changes, and frozen members, stages and artifacts stay as frozen |
| RolloutTheorems.BlockedForGood | src/application/control_plane.cpp:869-890 | A release blocked by a key compromise is never validated again |
| RolloutSetbacks.BlockedReached | src/application/control_plane.cpp:869-890 | A run to a release blocked by its key's compromise, after which nothing but cancellation ever happens to it |
| RolloutUpkeep.CompromiseExactly | src/application/control_plane.cpp:869-890 | Exactly what a key's compromise does to keys, artifacts and to each release, running ones pausing and those frozen but not running being blocked |
| RolloutUpkeep.CompromiseStops | src/application/control_plane.cpp:869-890 | Afterwards no release signed by the key is running or waiting to run, and none of its artifacts is trusted |
| RolloutUpkeep.ExpireCommandsExactly | src/application/jobs.cpp:228-239 | A row is stranded exactly when one of its install commands ran out while it was pending or commanded |
| RolloutUpkeep.ExpireApprovalsExactly | src/application/jobs.cpp:214-226 | A request expires exactly when it lapsed, is superseded when its release has moved on, and no other approval changes |
| RolloutTheorems.WayDown | src/application/jobs.cpp:175-193 | A release aborting or rolling back never runs again |
| RolloutTheorems.ConvergenceIsReported | src/application/control_plane.cpp:1833-1842 | A converged or rolled-back assignment has an accepted report of exactly its generation and digest, in every reachable state |
| RolloutTheorems.CommandsRise | src/application/control_plane.cpp:1613-1637 | Install and rollback commands to one device rise strictly in generation across all releases and never exceed the desired generation |
| RolloutTheorems.PollIsNewest | src/application/control_plane.cpp:1733-1733 | In every reachable state, at whatever times, polls serve the newest command and nothing else |
| RolloutTheorems.FleetOnlyAdvances | src/application/control_plane.cpp:1823-1835 | Desired and observed generations and last sequences never move back over any run; no command or report is lost |
| RolloutLimits.ScheduledTwoPersonNeverStarts | src/application/jobs.cpp:294-316 | A scheduled release under a two-person policy is only ever cancelled or blocked |
| RolloutEndings.ScheduledStartsExactly | src/application/jobs.cpp:294-316 | For every reachable scheduled release some run starts it if and only if its policy does not ask for a second person |
| RolloutWitnesses.ScheduledTwoPersonReached | src/application/control_plane.cpp:1556-1577 | A run from the empty database to a scheduled two-person release, which cannot start |
| RolloutWitnesses.ScheduledOnePersonReached | src/application/jobs.cpp:294-316 | A run to a scheduled one-person release, which can |
| RolloutLimits.OperatorMovesRecorded | src/application/control_plane.cpp:1578-1653 | Every operator step or scheduled start that changes a status to scheduled, running or on its way out is recorded with its action and version |
| RolloutLimits.OperatorMovesApproved | src/application/control_plane.cpp:1186-1257 | Under a two-person policy each such move has an approval by somebody else, for that action and that very version |
| RolloutEndings.AbortSettlesExactly | src/application/jobs.cpp:175-193 | For every reachable running or paused release, whether an operator's action or an approved decision aborts it: some continuation without a second operator abort reaches aborted if and only if the release had at least one assignment and none pending, commanded or acknowledged |
| RolloutEndings.AbortNeverSettles | src/application/control_plane.cpp:257-277 | An aborting release without assignments, or with a cancelling one, stays so under every run without a second operator abort |
| RolloutEndings.AbortEndsExactly | src/application/control_plane.cpp:1556-1577 | For every reachable running or paused release that a step makes abort: some continuation at all, second aborts included, reaches aborted if and only if its policy is one-person or it was at rest |
| RolloutEndings.ReportSettles | src/application/control_plane.cpp:257-277 | A fresh accepted report that names an aborting release with assignments at rest ends it |
| RolloutWitnesses.InFlightAbortReached | src/application/control_plane.cpp:1639-1647 | A run from the empty database to an operator's abort with the device in flight, which cannot settle without a second abort and ends with one |
| RolloutWitnesses.UnassignedAbortReached | src/application/jobs.cpp:138-141 | A run to an operator's abort of a release whose only device was quarantined before the scheduled start: no assignment, and it cannot settle |
| RolloutWitnesses.DecidedAbortReached | src/application/control_plane.cpp:1231-1239 | A run to an abort carried out by an approval decision with the device in flight, which no continuation ever ends |
| RolloutWitnesses.RestingAbortReached | src/application/control_plane.cpp:1639-1647 | A run to an operator's abort with the device converged, which can settle |
| RolloutEffects.StepIsRun | src/application/jobs.cpp:117-173 | Every step changes devices, assignments, commands and reports only by a run of operations that fit it: installs for a running release, re-targetings for one rolling back, withdrawals for one aborting, all aimed at the release's own artifacts |
| RolloutArtifacts.OnlyRightfulArtifacts | src/application/control_plane.cpp:1619-1637 | In every reachable state an assignment points at its release's target or that release's own rollback artifact, and a converged one was reported with the digest of one of them |
| ReleaseStore.Store.UpdateRelease | src/infrastructure/sqlite_storage.cpp:203-207 | The compare-and-set succeeds exactly at the expected version and then moves status and version |
| ReleaseStore.Store.ActivateNextStage | src/application/jobs.cpp:117-154 | The activator's loop and writes, with the cases in which it reports failure |
| ReleaseStore.Store.IssueRollbackCommands | src/application/jobs.cpp:156-173 | Nothing is written unless the rollback artifact is trusted and intact; otherwise every listed assignment is re-targeted |
| ReleaseStore.Store.SettleRelease | src/application/jobs.cpp:175-193 | A release on its way out ends once no assignment is open, and the failure on a release without assignments |
| ReleaseStore.Store.ExpireCommands | src/application/jobs.cpp:228-239 | Expired install commands strand pending and commanded assignments |
| ReleaseStore.Store.ExpireRequests | src/application/jobs.cpp:214-226 | Lapsed requests expire, requests bound to an outdated version are superseded |
| ReleaseStore.Store.MeasureStage | src/application/jobs.cpp:324-364 | The gate job's counters are the counts of assigned, converged, failed and stranded rows up to the stage |
| ReleaseStore.Store.CommitEvaluation | src/application/jobs.cpp:371-394 | The gate commit against the captured version, undone as a whole when any part reports failure |
| ReleaseStore.Store.CommitScheduledStart | src/application/jobs.cpp:303-311 | The scheduled start's compare-and-set, activation and use of approvals |
| ReleaseStore.Store.ValidateRelease | src/application/control_plane.cpp:1389-1463 | Validation refuses or freezes the planner's members and pending stages through validating to ready |
| ReleaseStore.Store.Operate | src/application/control_plane.cpp:1539-1656 | The release route: refusals, requests for a second person, side effects, use of approvals and the audit entry |
| ReleaseStore.Store.DecideApproval | src/application/control_plane.cpp:1186-1257 | A decision's conditions and everything an approved or rejected one changes |
| ReleaseStore.Store.AcceptReport | src/application/control_plane.cpp:1783-1852 | A report is answered as accepted, accepted before or refused with its code; an accepted one is stored once, moves projection and assignment only if ahead, and settles its release |
| ReleaseStore.SecondTimeChangesNothing | src/application/control_plane.cpp:1811-1817 | The same bytes under an accepted identifier are accepted again and change nothing |
| ReleaseStore.Store.CompromiseKey | src/application/control_plane.cpp:869-890 | A compromise of any known key, also one no longer active, distrusts its artifacts, pauses running releases and blocks those not yet running |
| EvidenceChain.EvidenceLog.Append | src/infrastructure/sqlite_storage.cpp:209-219 | An append adds one row numbered and linked after the last |
| EvidenceChain.EvidenceLog.Verify | src/infrastructure/sqlite_storage.cpp:241-252 | Verification reports the first row that does not fit, its number narrowed to 32 bits, and how far it got |
| EvidenceChain.AppendedIsIntact | src/infrastructure/sqlite_storage.cpp:209-252 | Every appended chain verifies and is numbered 1 to n |
| EvidenceChain.CleanMeansIntactExactly | src/infrastructure/sqlite_storage.cpp:241-252 | A clean report implies an intact chain if and only if the first broken row, if any, is not numbered by a multiple of 2^32 |
| EvidenceChain.ForgedRowPasses | src/infrastructure/sqlite_storage.cpp:249-251 | A concrete chain that does not fit and is reported valid |
| EvidenceChain.HeadPinsChain | src/infrastructure/sqlite_storage.cpp:209-252 | Two verifying chains with the same head hash are equal row by row |
| EvidenceChain.TamperingShows | src/infrastructure/sqlite_storage.cpp:209-252 | Any other chain of ordinary numbers has another head or is reported broken |
| EvidenceChain.TruncationPasses | src/infrastructure/sqlite_storage.cpp:241-252 | Dropping the newest events of an intact chain is not noticed without the head |
| Idempotency.Envelope.Serve | src/application/control_plane.cpp:713-739 | The envelope looks up, runs, records, audits and rolls back exactly as specified |
| Idempotency.RetriesAreTransparent | src/application/control_plane.cpp:713-739 | Deleting every retry from any log leaves the final store unchanged |
| Idempotency.PrunedIsRetryFree | src/application/control_plane.cpp:713-739 | The log without its retries has none left: between cleanups each key takes effect at most once |
| Idempotency.TakesEffectExactly | src/application/control_plane.cpp:724-739 | A call under a fresh key leaves no trace exactly when its answer is a server error other than 507 or an accepted one cannot be audited; otherwise it takes effect and is recorded under its key alone |
| Idempotency.RetryGetsFirstAnswer | src/application/control_plane.cpp:719-723 | Until its record is cleaned up a retry gets the first status and body, another digest the conflict, and nothing changes |
| RateLimiter.Limiter.Admit | src/application/control_plane.cpp:577-601 | One request: window, verdict with retry time, counter and pruning |
| RateLimiter.PruningIsInvisible | src/application/control_plane.cpp:564-601 | Every verdict of every run is that of a limiter that never forgets a bucket |
| RateLimiter.RejectionIsEarned | src/application/control_plane.cpp:583-592 | In every run, whoever is rejected got the whole limit through in less than one window |
| RateLimiter.RetryAfterExactly | src/application/control_plane.cpp:587-592 | In every run, whoever comes back no sooner than told is admitted whatever other clients do meanwhile, and whoever comes back a second too early is rejected |
| RateLimiter.AtMostTwice | src/application/control_plane.cpp:577-593 | No half-open interval of one window lets more than twice the limit less one through |
| RateLimiter.TwiceIsReached | src/application/control_plane.cpp:564-593 | On every route a run reaches that bound |
| Base64Url.Encode | src/application/control_plane.cpp:69-84 | The wrapping-buffer encoder yields the letters of the standard's bit groups |
| Base64Url.Decode | src/application/control_plane.cpp:86-102 | The wrapping-buffer decoder yields the standard's bytes, or nothing on a foreign character |
| Base64Url.RoundTrip | src/application/control_plane.cpp:69-102 | Decoding an encoding returns every byte string; ceil(4n/3) characters, all of the unpadded alphabet |
| Base64Url.AlphabetIsStandard | src/application/control_plane.cpp:70-70 | The letters are those of the standard's table, and a character is known to the decoder exactly when it is one |
| Base64Url.QuadIsNumber | src/application/control_plane.cpp:74-81 | Three bytes and their four sextets are one number, most significant digits first |
| Base64Url.ReverseTripExactly | src/application/control_plane.cpp:86-102 | Re-encoding a decoded text returns it if and only if it has no lone last character and no stray bits |
| Base64Url.LooseTexts | src/application/control_plane.cpp:86-102 | Concrete texts that do not come back: a lone letter decodes to nothing, stray bits are cleared |
| Pagination.FollowingCursorsIsTheList | src/application/control_plane.cpp:770-782 | Following cursors on a table at rest ends and returns exactly the filtered list, newest first |
| Pagination.PageExactly | src/application/control_plane.cpp:770-782 | A page holds the first rows left, as many as asked for within 1 and 200 or 50 by default, with a cursor at its last row exactly when more are left |
| Pagination.CursorExactly | src/application/control_plane.cpp:116-130 | A cursor is accepted if and only if it is one the server makes for this list, these filters and a row with both keys |
| Pagination.NothingSkippedOrRepeated | src/application/control_plane.cpp:770-782 | Inserts between pages never make a row be skipped or repeated |
| Pagination.WalkEnds | src/application/control_plane.cpp:134-137 | A walk ends once its pages could hold more rows than match, for every page limit from 1 to 200 |
| Simulator.EventQueue.Pop | src/domain/safety.cpp:98-104 | The queue yields the event before all others and loses nothing |
| Simulator.Run | src/domain/safety.cpp:339-493 | Invalid, cancelled and oversized scenarios get their errors, all others the specified trace and metrics |
| SimulatorProperties.TraceIsOrderedAndComplete | src/domain/safety.cpp:458-467 | The trace is the generated events in strict time, priority, sequence order, all within the duration |
| SimulatorProperties.InstallComesFirst | src/domain/safety.cpp:443-455 | Each device starts its install exactly once and before anything else happens to it |
| SimulatorEvents.TraceExactly | src/domain/safety.cpp:396-457 | An event is in the trace if and only if its device's draws, or those of the outages, call for it at that very time and priority |
| SimulatorEvents.VerdictsExactly | src/domain/safety.cpp:468-477 | The rollback and pause verdicts, the rollback target and who recovers, exactly, from how many devices are drawn as failing, unhealthy and offline |
| SimulatorEvents.BreakdownsExactly | src/domain/safety.cpp:431-437 | For every hardware model and region: how many devices are counted there, and how many of them fail or are unhealthy |
| SimulatorProperties.EventCountIsImplied | src/domain/safety.cpp:396-457 | The event count is the exact sum the counters imply |
| SimulatorProperties.BreakdownsAddUp | src/domain/safety.cpp:431-437 | Per-hardware and per-region counts add up to the totals, no group failing more devices than it has |
| SimulatorProperties.OutcomesAddUp | src/domain/safety.cpp:468-489 | Converged and stranded make all devices, recovered and failed make the rollback target, and no rollback is false |
| SimulatorProperties.ConvergedExactly | src/domain/safety.cpp:468-469 | The converged figure never exceeds the trouble-free devices and equals them if and only if no device has two troubles or none is trouble-free |
| SimulatorProperties.DoubleTroubleReached | src/domain/safety.cpp:468-469 | A scenario with one sound device and one both offline and failing, whose converged figure is zero |

## Left out

- HTTP parsing, HTML and JavaScript, sockets, logging, metrics, configuration, adapters, DuckDB and PostgreSQL, OpenSSL: input, output and foreign calls.
- Role checks, required reasons and other request-format checks: they only refuse a request; a refused request is no step.
- Job leases, outbox deliveries, operator notices, credential rotation, CSV import, byte ranges: small or single-branch.
- Edits of a draft policy after a release refers to it: a release carries its policy from creation, since policies that releases can be validated against are no longer editable.
- Floating point: gate rates and percentages are exact reals.
- Integer widths outside the base64 buffer and the evidence report: versions, generations, sequences and simulator times are unbounded.
- Ties among evaluations recorded within the same second: the latest one is the last inserted.
- Simulator strata, probabilities and the generator itself: the oracle's answers stand for them.
- Pagination.FollowingCursorsIsTheList: stated for the fleets list; the artifact and device lists differ only in their filters.
- RateLimiter.AtMostTwice: a bucket's key is the tuple of tenant, client, method and path, not their joined string.
- RolloutTheorems.PromotionHistory: counts of fresh, unhealthy and crash-free telemetry are whatever the tables answered when the gate was measured.
- RolloutSteps.CommitIsCarried: a job of the model may come back to an old measurement whose commit did not succeed; the code measures afresh, so the results hold for more runs than it has.
- ReleaseStore.Store.DecideApproval: evidence digests of evaluations are not compared, since evaluation rows never change.
- ReleaseStore.Store.Restore: the storage does not undo a nested transaction that fails inside one that commits; the transactions that can fail after a write here belong to jobs, which run outermost.
- Tenants, fleet records, integrations, benchmark and replay runs: not part of this model.
