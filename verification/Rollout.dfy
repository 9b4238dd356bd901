/**
 * The stored state of staged releases and the transactions that change it. Each step is one
 * top-level transaction; the gate job and the scheduled starter are split into the snapshots
 * they take outside a transaction and their commit, so that anything may happen in between.
 */
module Rollout {
  import opened Wrappers
  import opened ReleaseMachine
  import opened Apportionment
  import F = Fleet
  import H = FleetProperties
  import G = GateEvaluator
  import P = CohortPlanner

  // ---- tables ----

  datatype StageStatus = Pending | Active | Passed | StageFailed

  /** Stages are numbered from 1; stage k is stages[k - 1]. */
  datatype Stage = Stage(percentage: int, status: StageStatus)

  datatype RollbackRequirement = Required | AllowFirstInstall

  datatype Policy = Policy(twoPerson: bool, percents: seq<int>, gates: G.HealthGates, rollback: RollbackRequirement)

  /** `members` are device rows in cohort order; they and `stages` are empty until validation freezes them. */
  datatype Release = Release(
    status: ReleaseState, version: int, policy: Policy, artifact: F.Artifact, rollback: Option<F.Artifact>,
    stages: seq<Stage>, members: seq<nat>, current: nat)

  datatype Control = StartControl | ResumeControl | AbortControl | RollbackControl | OverrideControl

  datatype ApprovalStatus = Requested | Approved | Rejected | Expired | Superseded

  datatype Approval = Approval(
    release: nat, action: Control, status: ApprovalStatus, captured: int, evaluation: Option<nat>,
    requester: nat, decider: Option<nat>, approvedVersion: Option<int>, consumed: bool)

  datatype Evaluation = Evaluation(release: nat, stage: nat, decision: G.Decision, metrics: G.Metrics, byJob: bool)

  datatype GateJob =
    | Captured(release: nat, stage: nat, version: int)
    | Measured(release: nat, stage: nat, version: int, metrics: G.Metrics, decision: G.Decision)
    | Finished

  datatype StartJob = StartSeen(release: nat, version: int, authorised: bool) | StartDone

  datatype KeyStatus = ActiveKey | RetiredKey | CompromisedKey

  /** The audit entry of an operator's change: at which version, and which approvals it used up. */
  datatype Change = Change(release: nat, action: ReleaseAction, version: int, authority: set<nat>)

  datatype Database = Database(
    releases: seq<Release>, catalog: seq<P.Device>, fleet: F.Fleet,
    approvals: seq<Approval>, evaluations: seq<Evaluation>, gates: seq<GateJob>, starts: seq<StartJob>,
    keys: seq<KeyStatus>, ready: set<F.Artifact>, changes: seq<Change>)

  const EMPTY := Database([], [], H.EMPTY, [], [], [], [], [], {}, [])

  // ---- small reads ----

  predicate Known(db: Database, r: nat) { r < |db.releases| }

  predicate Trusted(db: Database, a: F.Artifact) {
    a in db.ready && a.key < |db.keys| && db.keys[a.key] == ActiveKey
  }

  function Thresholds(r: Release): G.Thresholds { G.ThresholdsFromPolicy(r.policy.gates) }

  /** Assignments of a release in stages up to `stage`. */
  function CountExposed(rows: seq<F.Assignment>, release: nat, stage: nat): (n: nat)
    ensures n <= |rows|
  {
    if rows == [] then 0
    else
      var last := rows[|rows| - 1];
      CountExposed(rows[..|rows| - 1], release, stage) + if last.release == release && last.stage <= stage then 1 else 0
  }

  function CountIn(rows: seq<F.Assignment>, release: nat, stage: nat, state: F.AssignmentState): (n: nat)
    ensures n <= |rows|
  {
    if rows == [] then 0
    else
      var last := rows[|rows| - 1];
      CountIn(rows[..|rows| - 1], release, stage, state)
      + if last.release == release && last.stage <= stage && last.state == state then 1 else 0
  }

  function Move(r: Release, status: ReleaseState): Release {
    r.(status := status, version := r.version + 1)
  }

  function SetRelease(db: Database, r: nat, row: Release): Database
    requires Known(db, r)
  {
    db.(releases := db.releases[r := row])
  }

  // ---- what a transaction does to the fleet ----

  function InstallOps(release: nat, stage: nat, artifact: F.Artifact, members: seq<nat>): (ops: seq<H.Op>)
    ensures |ops| == |members|
  {
    seq(|members|, i requires 0 <= i < |members| => H.DoInstall(release, members[i], stage, artifact))
  }

  /** Members without an assignment whose device is neither quarantined nor decommissioned. */
  function Missing(f: F.Fleet, release: nat, members: seq<nat>): (r: seq<nat>)
    ensures forall m :: m in r ==> m in members
  {
    if members == [] then []
    else
      var last := members[|members| - 1];
      var rest := Missing(f, release, members[..|members| - 1]);
      if F.Find(f.assignments, release, last).None? && last < |f.devices| && f.devices[last].eligible
      then rest + [last] else rest
  }

  function RetargetOps(rows: seq<F.Assignment>, release: nat, artifact: F.Artifact,
                       states: set<F.AssignmentState>, byApproval: bool): (ops: seq<H.Op>)
    ensures forall op :: op in ops ==> op.DoRetarget?
  {
    if rows == [] then []
    else
      var n := |rows| - 1;
      var before := RetargetOps(rows[..n], release, artifact, states, byApproval);
      if rows[n].release == release && rows[n].state in states then before + [H.DoRetarget(n, artifact, byApproval)] else before
  }

  function WithdrawOps(rows: seq<F.Assignment>, release: nat): (ops: seq<H.Op>)
    ensures forall op :: op in ops ==> op.DoWithdraw?
  {
    if rows == [] then []
    else
      var n := |rows| - 1;
      var before := WithdrawOps(rows[..n], release);
      if rows[n].release == release && F.InFlight(rows[n].state) then before + [H.DoWithdraw(n)] else before
  }

  /** Expired install commands, oldest first. */
  function ExpireOps(commands: seq<F.Command>, due: set<nat>): (ops: seq<H.Op>)
    ensures forall op :: op in ops ==> op.DoExpire?
  {
    if commands == [] then []
    else
      var n := |commands| - 1;
      var before := ExpireOps(commands[..n], due);
      if n in due && commands[n].kind == F.InstallCommand then before + [H.DoExpire(commands[n].assignment)] else before
  }

  const RETARGETABLE: set<F.AssignmentState> := {F.Commanded, F.Acknowledged, F.Converged, F.Failed, F.Stranded}

  const STANDING: set<F.AssignmentState> :=
    {F.Pending, F.Commanded, F.Acknowledged, F.Converged, F.Failed, F.Cancelling, F.Stranded}

  // ---- stages ----

  /** Opens the stage after `completed`; None when the release is not there to be advanced. */
  function Activate(db: Database, r: nat, completed: nat): (result: Option<Database>)
    requires Known(db, r)
    ensures result.Some? ==> |result.value.releases| == |db.releases|
  {
    var row := db.releases[r];
    if completed >= |row.stages| || row.stages[completed].status != Pending then Some(db)
    else
      var members := row.members[..TargetCount(|row.members|, row.stages[completed].percentage)];
      var fleet := H.Run(db.fleet, InstallOps(r, completed + 1, row.artifact, Missing(db.fleet, r, members)));
      var begun := row.(stages := row.stages[completed := row.stages[completed].(status := Active)]);
      if row.status != Running then None
      else if row.current == completed
      then Some(SetRelease(db.(fleet := fleet), r, begun.(current := completed + 1, version := row.version + 1)))
      else if row.current == completed + 1 then Some(SetRelease(db.(fleet := fleet), r, begun))
      else None
  }

  /** The operator's start computes the first wave without clamping the percentage. */
  function FirstWave(members: nat, percentage: int): int {
    Min(members, Max(1, (members * percentage + 99) / 100))
  }

  function OpenFirst(db: Database, r: nat): (next: Database)
    requires Known(db, r)
    ensures |next.releases| == |db.releases|
  {
    var row := db.releases[r];
    if row.stages == [] then db
    else
      var count := FirstWave(|row.members|, row.stages[0].percentage);
      var members := if 0 <= count <= |row.members| then row.members[..count] else [];
      var begun := if row.stages[0].status == Pending then row.(stages := row.stages[0 := row.stages[0].(status := Active)]) else row;
      SetRelease(db, r, begun).(fleet := H.Run(db.fleet, InstallOps(r, 1, row.artifact, members)))
  }

  // ---- settling a release that is on its way out ----

  predicate Busy(rows: seq<F.Assignment>, r: nat) {
    exists i :: 0 <= i < |rows| && rows[i].release == r
      && rows[i].state in {F.Pending, F.Commanded, F.Acknowledged, F.Cancelling}
  }

  predicate Touched(rows: seq<F.Assignment>, r: nat) {
    exists i :: 0 <= i < |rows| && rows[i].release == r
  }

  predicate RollbackBroke(rows: seq<F.Assignment>, r: nat) {
    exists i :: 0 <= i < |rows| && rows[i].release == r
      && rows[i].state == F.Failed && rows[i].failureCode == "ROLLBACK_FAILED"
  }

  predicate Settling(db: Database, r: nat)
    requires Known(db, r)
  {
    db.releases[r].status in {Aborting, RollingBack} && !Busy(db.fleet.assignments, r)
  }

  function Settle(db: Database, r: nat): (next: Database)
    requires Known(db, r)
    ensures |next.releases| == |db.releases|
  {
    if !Settling(db, r) || !Touched(db.fleet.assignments, r) then db
    else
      var row := db.releases[r];
      SetRelease(db, r, Move(row,
        if row.status == Aborting then Aborted
        else if RollbackBroke(db.fleet.assignments, r) then ReleaseState.Failed else RolledBack))
  }

  // ---- validation ----

  /** A device row as the planner sees it. */
  function Enlisted(db: Database, device: nat): P.Device
    requires device < |db.catalog| && device < |db.fleet.devices|
  {
    var d := db.fleet.devices[device];
    db.catalog[device].(observedArtifactDigest := d.observedDigest,
                        observedGeneration := if d.observed.None? then 0 else d.observed.value)
  }

  function RowOf(db: Database, roster: seq<nat>, id: string): (i: nat)
    requires forall k :: 0 <= k < |roster| ==> roster[k] < |db.catalog|
  {
    if roster == [] then 0
    else if db.catalog[roster[|roster| - 1]].id == id then roster[|roster| - 1]
    else RowOf(db, roster[..|roster| - 1], id)
  }

  /** The eligible devices that matched the selector. */
  predicate Roster(db: Database, roster: seq<nat>) {
    && roster != []
    && (forall k :: 0 <= k < |roster| ==>
          roster[k] < |db.catalog| && roster[k] < |db.fleet.devices| && db.fleet.devices[roster[k]].eligible)
    && (forall j, k :: 0 <= j < k < |roster| ==> roster[j] != roster[k])
  }

  function RosterDevices(db: Database, roster: seq<nat>): (r: seq<P.Device>)
    requires Roster(db, roster)
    ensures |r| == |roster|
  {
    seq(|roster|, k requires 0 <= k < |roster| => Enlisted(db, roster[k]))
  }

  function FrozenMembers(db: Database, roster: seq<nat>, plan: seq<P.Member>): (r: seq<nat>)
    requires Roster(db, roster)
    ensures |r| == |plan|
  {
    seq(|plan|, i requires 0 <= i < |plan| => RowOf(db, roster, plan[i].device.id))
  }

  predicate Admissible(db: Database, row: Release, roster: seq<nat>)
    requires Roster(db, roster)
  {
    && Trusted(db, row.artifact)
    && (row.rollback.Some? ==> Trusted(db, row.rollback.value) && row.rollback.value.key != row.artifact.key)
    && (row.rollback.None? ==>
          && row.policy.rollback == AllowFirstInstall
          && forall k :: 0 <= k < |roster| ==>
               Enlisted(db, roster[k]).observedArtifactDigest == "" && Enlisted(db, roster[k]).observedGeneration == 0)
  }

  predicate Freezable(db: Database, r: nat, expected: int, roster: seq<nat>) {
    && Known(db, r) && Roster(db, roster)
    && db.releases[r].status in {Draft, Blocked} && expected == db.releases[r].version && Admissible(db, db.releases[r], roster)
  }

  /** Validation passes through `validating` to `ready` in one transaction. */
  function FrozenRow(row: Release, members: seq<nat>): Release {
    row.(status := Ready, version := row.version + 2, current := 1, members := members,
         stages := seq(|row.policy.percents|, k requires 0 <= k < |row.policy.percents| => Stage(row.policy.percents[k], Pending)))
  }

  ghost function Freeze(db: Database, r: nat, expected: int, roster: seq<nat>, hmac: P.Keyed, name: string, salt: string): Database {
    if !Freezable(db, r, expected, roster) || !ValidPercents(db.releases[r].policy.percents) then db
    else
      var plan := P.PlannedMembers(hmac, name, salt, RosterDevices(db, roster), db.releases[r].policy.percents);
      SetRelease(db, r, FrozenRow(db.releases[r], FrozenMembers(db, roster, plan)))
  }

  // ---- approvals ----

  function ControlOf(action: ReleaseAction): Option<Control> {
    match action
    case Schedule => Some(StartControl)
    case Start => Some(StartControl)
    case Resume => Some(ResumeControl)
    case Abort => Some(AbortControl)
    case Rollback => Some(RollbackControl)
    case GateOverride => Some(OverrideControl)
    case _ => None
  }

  function ActionOf(control: Control): ReleaseAction {
    match control
    case StartControl => Approve
    case ResumeControl => Resume
    case AbortControl => Abort
    case RollbackControl => Rollback
    case OverrideControl => GateOverride
  }

  /** An approved request for this action, bound to this version and not used up yet. */
  predicate Usable(a: Approval, r: nat, control: Control, version: int) {
    a.release == r && a.action == control && a.status == Approved && a.approvedVersion == Some(version) && !a.consumed
  }

  function Usables(approvals: seq<Approval>, r: nat, control: Control, version: int): (ids: set<nat>)
    ensures forall i: nat :: i in ids <==> i < |approvals| && Usable(approvals[i], r, control, version)
  {
    set i: nat | i < |approvals| && Usable(approvals[i], r, control, version)
  }

  function Spent(a: Approval, i: nat, ids: set<nat>): Approval {
    if i in ids then a.(consumed := true) else a
  }

  function Consume(approvals: seq<Approval>, ids: set<nat>): (r: seq<Approval>)
    ensures |r| == |approvals|
  {
    seq(|approvals|, i requires 0 <= i < |approvals| => Spent(approvals[i], i, ids))
  }

  predicate Waits(a: Approval, r: nat, control: Control, evaluation: Option<nat>) {
    a.release == r && a.action == control && a.status == Requested && (control == OverrideControl ==> a.evaluation == evaluation)
  }

  predicate Outstanding(db: Database, r: nat, control: Control, evaluation: Option<nat>, lapsed: set<nat>) {
    exists i :: 0 <= i < |db.approvals| && i !in lapsed && Waits(db.approvals[i], r, control, evaluation)
  }

  function Overtaken(a: Approval, r: nat): Approval {
    if a.release == r && a.status == Requested then a.(status := Superseded) else a
  }

  function Supersede(approvals: seq<Approval>, r: nat): (s: seq<Approval>)
    ensures |s| == |approvals|
  {
    seq(|approvals|, i requires 0 <= i < |approvals| => Overtaken(approvals[i], r))
  }

  function Request(db: Database, r: nat, control: Control, captured: int, evaluation: Option<nat>, actor: nat): Database {
    db.(approvals := db.approvals + [Approval(r, control, Requested, captured, evaluation, actor, None, None, false)])
  }

  predicate Overridable(d: G.Decision) { d in {G.Pause, G.InsufficientEvidence} }

  predicate RollbackReady(db: Database, row: Release) {
    row.stages != [] && row.rollback.Some? && Trusted(db, row.rollback.value)
  }

  predicate LatestPasses(evaluations: seq<Evaluation>, r: nat) {
    if evaluations == [] then false
    else if evaluations[|evaluations| - 1].release == r then evaluations[|evaluations| - 1].decision == G.Pass
    else LatestPasses(evaluations[..|evaluations| - 1], r)
  }

  // ---- operator actions ----

  const ROUTED: set<ReleaseAction> := {Submit, Approve, Schedule, Start, Cancel, Pause, Resume, Abort, Rollback}

  predicate NeedsSecondPerson(row: Release, action: ReleaseAction) {
    row.policy.twoPerson && action in {Schedule, Start, Resume, Abort, Rollback}
  }

  /** A two-person action that nobody has approved yet becomes a request. */
  function AskFirst(db: Database, r: nat, action: ReleaseAction, actor: nat, lapsed: set<nat>): Database
    requires Known(db, r) && ControlOf(action).Some?
  {
    var row := db.releases[r];
    var control := ControlOf(action).value;
    if action == Schedule || Outstanding(db, r, control, None, lapsed) then db
    else if action == Start && row.status == Ready
    then SetRelease(Request(db, r, control, row.version + 1, None, actor), r, Move(row, AwaitingApproval))
    else Request(db, r, control, row.version, None, actor)
  }

  /** What an action does besides moving the release. */
  function SideEffects(db: Database, r: nat, action: ReleaseAction, version: int, actor: nat): (next: Database)
    requires Known(db, r)
    ensures |next.releases| == |db.releases|
  {
    var row := db.releases[r];
    match action
    case Submit => Request(db, r, StartControl, version + 1, None, actor)
    case Cancel => db.(approvals := Supersede(db.approvals, r))
    case Start => OpenFirst(db, r)
    case Rollback =>
      if row.rollback.None? then db
      else db.(fleet := H.Run(db.fleet, RetargetOps(db.fleet.assignments, r, row.rollback.value, STANDING, false)))
    case Abort => db.(fleet := H.Run(db.fleet, WithdrawOps(db.fleet.assignments, r)))
    case _ => db
  }

  /** Uses up the approvals the action was entitled to, and records the change. */
  function Record(db: Database, r: nat, action: ReleaseAction, version: int): Database {
    if ControlOf(action).None? then db.(changes := db.changes + [Change(r, action, version, {})])
    else
      var ids := Usables(db.approvals, r, ControlOf(action).value, version);
      db.(approvals := Consume(db.approvals, ids), changes := db.changes + [Change(r, action, version, ids)])
  }

  predicate Entitled(db: Database, r: nat, action: ReleaseAction, lapsed: set<nat>)
    requires Known(db, r) && ControlOf(action).Some?
  {
    exists i :: i in Usables(db.approvals, r, ControlOf(action).value, db.releases[r].version) && i !in lapsed
  }

  /** The action itself, before its approvals are used up and the change is recorded. */
  function Perform(db: Database, r: nat, action: ReleaseAction, actor: nat): (next: Database)
    requires Known(db, r) && Transition(db.releases[r].status, action).Some?
    ensures |next.releases| == |db.releases|
  {
    var row := db.releases[r];
    SideEffects(SetRelease(db, r, Move(row, Transition(row.status, action).value)), r, action, row.version, actor)
  }

  /** What the current state has to say against an action. */
  predicate Refused(db: Database, row: Release, r: nat, action: ReleaseAction) {
    || (action == Resume && !LatestPasses(db.evaluations, r))
    || (action == Rollback && !RollbackReady(db, row))
    || Transition(row.status, action).None?
  }

  function Act(db: Database, r: nat, action: ReleaseAction, actor: nat, expected: int, lapsed: set<nat>): Database {
    if !Known(db, r) || action !in ROUTED || expected != db.releases[r].version then db
    else if NeedsSecondPerson(db.releases[r], action) && !Entitled(db, r, action, lapsed) then AskFirst(db, r, action, actor, lapsed)
    else if Refused(db, db.releases[r], r, action) then db
    else Record(Perform(db, r, action, actor), r, action, db.releases[r].version)
  }

  /** The status an approved decision gives the release. */
  function Outcome(control: Control): ReleaseState {
    match control
    case StartControl => Ready
    case ResumeControl => Running
    case OverrideControl => Running
    case AbortControl => Aborting
    case RollbackControl => RollingBack
  }

  function Effects(db: Database, r: nat, control: Control): (next: Database)
    requires Known(db, r)
    ensures |next.releases| == |db.releases|
  {
    match control
    case AbortControl => db.(fleet := H.Run(db.fleet, WithdrawOps(db.fleet.assignments, r)))
    case RollbackControl =>
      if db.releases[r].rollback.None? then db
      else db.(fleet := H.Run(db.fleet,
        RetargetOps(db.fleet.assignments, r, db.releases[r].rollback.value, RETARGETABLE, true)))
    case _ => db
  }

  predicate Decidable(db: Database, a: nat, actor: nat, approve: bool, lapsed: set<nat>) {
    && a < |db.approvals| && a !in lapsed && db.approvals[a].status == Requested
    && db.approvals[a].requester != actor
    && Known(db, db.approvals[a].release)
    && var (approval, row) := (db.approvals[a], db.releases[db.approvals[a].release]);
    && row.version == approval.captured
    && (approval.action == OverrideControl ==>
          && approval.evaluation.Some? && approval.evaluation.value < |db.evaluations|
          && db.evaluations[approval.evaluation.value].release == approval.release
          && Overridable(db.evaluations[approval.evaluation.value].decision))
    && (approve || approval.action == StartControl ==> Transition(row.status, ActionOf(approval.action)).Some?)
    && (approve && approval.action == RollbackControl ==> RollbackReady(db, row))
  }

  function Decide(db: Database, a: nat, actor: nat, approve: bool, lapsed: set<nat>): Database {
    if !Decidable(db, a, actor, approve, lapsed) then db
    else
      var approval := db.approvals[a];
      var (r, start) := (approval.release, approval.action == StartControl);
      var row := db.releases[r];
      var bound := if !approve then None else if start then Some(approval.captured + 1) else Some(approval.captured);
      var decided := approval.(status := if approve then Approved else Rejected, decider := Some(actor),
                               approvedVersion := bound, consumed := approve && !start);
      var noted := db.(approvals := db.approvals[a := decided]);
      if !approve && !start then noted
      else if start then SetRelease(noted, r, Move(row, Ready))
      else
        var moved := Effects(SetRelease(noted, r, Move(row, Outcome(approval.action))), r, approval.action);
        moved.(changes := moved.changes + [Change(r, ActionOf(approval.action), approval.captured, {a})])
  }

  function AskOverride(db: Database, r: nat, e: nat, actor: nat, expected: int, lapsed: set<nat>): Database {
    if !Known(db, r) || e >= |db.evaluations| || db.evaluations[e].release != r || !Overridable(db.evaluations[e].decision) then db
    else if expected != db.releases[r].version || Outstanding(db, r, OverrideControl, Some(e), lapsed) then db
    else Request(db, r, OverrideControl, expected, Some(e), actor)
  }

  // ---- gates ----

  /** What the telemetry tables answer at the moment of measuring; not modelled further. */
  datatype Telemetry = Telemetry(
    reporting: int, healthFailures: int, crashFreePercent: real, unseen: int, rollbackFailures: int, iotReady: bool)

  function JobMetrics(db: Database, r: nat, stage: nat, t: Telemetry): G.Metrics {
    var rows := db.fleet.assignments;
    G.Metrics(CountExposed(rows, r, stage), if t.iotReady then t.reporting else 0,
              CountIn(rows, r, stage, F.Failed), t.healthFailures, 0,
              CountIn(rows, r, stage, F.Converged), CountIn(rows, r, stage, F.Stranded), t.crashFreePercent)
  }

  /** The operator's evaluation is recorded but changes no stage and no release. */
  function EvaluateByHand(db: Database, r: nat, stage: nat, t: Telemetry): Database {
    if !Known(db, r) || !(1 <= stage <= |db.releases[r].stages|) then db
    else
      var rows := db.fleet.assignments;
      var metrics := G.Metrics(CountExposed(rows, r, stage), t.reporting, CountIn(rows, r, stage, F.Failed), t.healthFailures,
                               t.rollbackFailures, CountIn(rows, r, stage, F.Converged), t.unseen, t.crashFreePercent);
      var decision := if t.iotReady then G.Evaluate(metrics, Thresholds(db.releases[r])) else G.InsufficientEvidence;
      db.(evaluations := db.evaluations + [Evaluation(r, stage, decision, metrics, false)])
  }

  function CaptureGate(db: Database, r: nat, stage: nat): Database {
    if !Known(db, r) || !(1 <= stage <= |db.releases[r].stages|) then db
    else
      var row := db.releases[r];
      if row.status != Running || row.stages[stage - 1].status != Active then db
      else db.(gates := db.gates + [Captured(r, stage, row.version)])
  }

  function MeasureGate(db: Database, g: nat, t: Telemetry): Database {
    if g >= |db.gates| || !db.gates[g].Captured? || !Known(db, db.gates[g].release) then db
    else
      var job := db.gates[g];
      var row := db.releases[job.release];
      var metrics := JobMetrics(db, job.release, job.stage, t);
      var decision := G.Evaluate(metrics, if row.status == Running then Thresholds(row) else G.DEFAULTS);
      db.(gates := db.gates[g := Measured(job.release, job.stage, job.version, metrics, decision)])
  }

  predicate LegalGate(status: ReleaseState, decision: G.Decision, hasNext: bool) {
    match decision
    case InsufficientEvidence => true
    case Pass => Transition(status, if hasNext then GateAdvance else GatePass).Some?
    case Pause => Transition(status, GatePause).Some?
    case Rollback => Transition(status, GateRollback).Some?
    case Abort => Transition(status, ReleaseAction.Abort).Some?
  }

  function Verdict(s: Stage, decision: G.Decision): Stage {
    if s.status != Active then s
    else match decision
      case Pass => s.(status := Passed)
      case Rollback => s.(status := StageFailed)
      case Abort => s.(status := StageFailed)
      case _ => s
  }

  /** The stage verdict and the evaluation row, before the release itself moves. */
  function Judged(db: Database, r: nat, stage: nat, metrics: G.Metrics, decision: G.Decision): (next: Database)
    requires Known(db, r) && 1 <= stage <= |db.releases[r].stages|
    ensures Known(next, r) && next.fleet == db.fleet
  {
    var row := db.releases[r];
    var judged := row.(stages := row.stages[stage - 1 := Verdict(row.stages[stage - 1], decision)]);
    SetRelease(db, r, judged).(evaluations := db.evaluations + [Evaluation(r, stage, decision, metrics, true)])
  }

  predicate HasNext(row: Release, stage: nat) {
    stage < |row.stages| && row.stages[stage].status == Pending
  }

  /** The gate decision carried out on a judged release; None undoes the whole transaction. */
  function CarryOut(db: Database, r: nat, stage: nat, decision: G.Decision, hasNext: bool, bytesMatch: bool): (next: Option<Database>)
    requires Known(db, r)
    ensures next.Some? ==> Known(next.value, r)
  {
    var row := db.releases[r];
    match decision
    case Pass => if hasNext then Activate(db, r, stage) else Some(SetRelease(db, r, Move(row, Completed)))
    case Rollback =>
      if row.rollback.None? || !Trusted(db, row.rollback.value) || !bytesMatch then None
      else
        var fleet := H.Run(db.fleet, RetargetOps(db.fleet.assignments, r, row.rollback.value, RETARGETABLE, false));
        Some(SetRelease(db.(fleet := fleet), r, Move(row, RollingBack)))
    case Abort => Some(SetRelease(db, r, Move(row, Aborting)))
    case Pause => Some(SetRelease(db, r, Move(row, Paused)))
    case InsufficientEvidence => Some(db)
  }

  /** A decision judged, carried out and settled; None undoes the whole transaction. */
  function Attempt(db: Database, r: nat, stage: nat, metrics: G.Metrics, decision: G.Decision, bytesMatch: bool): Option<Database>
    requires Known(db, r) && 1 <= stage <= |db.releases[r].stages|
  {
    var carried := CarryOut(Judged(db, r, stage, metrics, decision), r, stage, decision, HasNext(db.releases[r], stage), bytesMatch);
    if carried.None? || (Settling(carried.value, r) && !Touched(carried.value.fleet.assignments, r)) then None
    else Some(Settle(carried.value, r))
  }

  function CommitGate(db: Database, g: nat, bytesMatch: bool): Database {
    if g >= |db.gates| || !db.gates[g].Measured? || !Known(db, db.gates[g].release) then db
    else
      var Measured(r, stage, version, metrics, decision) := db.gates[g];
      var row := db.releases[r];
      if row.version != version || !(1 <= stage <= |row.stages|) || !LegalGate(row.status, decision, HasNext(row, stage)) then db
      else
        var done := Attempt(db, r, stage, metrics, decision, bytesMatch);
        if done.None? then db else done.value.(gates := db.gates[g := Finished])
  }

  // ---- scheduled starts ----

  function CaptureStart(db: Database, r: nat, lapsed: set<nat>): Database {
    if !Known(db, r) || db.releases[r].status != Scheduled then db
    else
      var authorised := !db.releases[r].policy.twoPerson || Entitled(db, r, Start, lapsed);
      db.(starts := db.starts + [StartSeen(r, db.releases[r].version, authorised)])
  }

  function CommitStart(db: Database, s: nat): Database {
    if s >= |db.starts| || !db.starts[s].StartSeen? || !db.starts[s].authorised || !Known(db, db.starts[s].release) then db
    else
      var StartSeen(r, version, _) := db.starts[s];
      var row := db.releases[r];
      if row.version != version then db
      else
        var started := Activate(SetRelease(db, r, Move(row, Running).(current := 0)), r, 0);
        if started.None? then db
        else
          var ids := if row.policy.twoPerson then Usables(db.approvals, r, StartControl, version) else {};
          started.value.(approvals := Consume(started.value.approvals, ids), starts := db.starts[s := StartDone],
                         changes := started.value.changes + [Change(r, Start, version, ids)])
  }

  // ---- reports, maintenance, keys ----

  /** The release a report is about: its command's, or the one it names. */
  function Subject(db: Database, report: F.Report): Option<nat> {
    if report.command.None? then report.release
    else if report.command.value < |db.fleet.commands| && db.fleet.commands[report.command.value].assignment < |db.fleet.assignments|
    then Some(db.fleet.assignments[db.fleet.commands[report.command.value].assignment].release)
    else None
  }

  datatype ReportAnswer = Accepted | AcceptedBefore | Declined(error: Error)

  /** The stored report with this identifier, if any. */
  function StoredReport(reports: seq<F.Report>, device: nat, id: string): (k: Option<nat>)
    ensures k.Some? ==> k.value < |reports| && reports[k.value].device == device && reports[k.value].reportId == id
    ensures k.None? ==> forall i :: 0 <= i < |reports| ==> reports[i].device != device || reports[i].reportId != id
  {
    if reports == [] then None
    else
      var n := |reports| - 1;
      if reports[n].device == device && reports[n].reportId == id then Some(n) else StoredReport(reports[..n], device, id)
  }

  predicate SequenceTaken(reports: seq<F.Report>, device: nat, sequence: int) {
    exists i :: 0 <= i < |reports| && reports[i].device == device && reports[i].sequence == sequence
  }

  /** What the device is told: the same bytes again are accepted again, other bytes are a conflict. */
  function Answer(db: Database, r: F.Report): ReportAnswer {
    if r.device >= |db.fleet.devices| then Declined(Error("NOT_FOUND", 404))
    else if r.reportId == "" || r.sequence < 1 || r.generation < 0 then Declined(Error("INVALID_REPORT", 422))
    else if r.release.Some? && !Known(db, r.release.value) then Declined(Error("NOT_FOUND", 404))
    else if r.command.Some? && (r.command.value >= |db.fleet.commands| || db.fleet.commands[r.command.value].device != r.device)
    then Declined(Error("NOT_FOUND", 404))
    else if r.release.Some? && r.command.Some? && Subject(db, r) != r.release then Declined(Error("COMMAND_RELEASE_MISMATCH", 409))
    else
      var stored := StoredReport(db.fleet.reports, r.device, r.reportId);
      if stored.Some? then
        if db.fleet.reports[stored.value].payload == r.payload then AcceptedBefore else Declined(Error("REPORT_ID_REUSED", 409))
      else if SequenceTaken(db.fleet.reports, r.device, r.sequence) then Declined(Error("REPORT_SEQUENCE_CONFLICT", 409))
      else Accepted
  }

  /** A report of a known release, about its own command, not stored before. */
  predicate Storable(db: Database, report: F.Report) {
    && F.Acceptable(db.fleet, report)
    && (report.release.Some? ==> Known(db, report.release.value))
    && (report.release.Some? && report.command.Some? ==> Subject(db, report) == report.release)
  }

  function TakeReport(db: Database, report: F.Report): Database {
    var subject := Subject(db, report);
    if !Storable(db, report) then db
    else
      var received := db.(fleet := H.Run(db.fleet, [H.DoReceive(report)]));
      if subject.Some? && Known(received, subject.value) then Settle(received, subject.value) else received
  }

  function ExpireCommands(db: Database, due: set<nat>): Database {
    db.(fleet := H.Run(db.fleet, ExpireOps(db.fleet.commands, due)))
  }

  /** Lapsed requests expire; requests bound to an outdated version are superseded. */
  function Aged(releases: seq<Release>, a: Approval, i: nat, lapsed: set<nat>): Approval {
    if a.status != Requested then a
    else if i in lapsed then a.(status := Expired)
    else if a.release < |releases| && a.captured != releases[a.release].version then a.(status := Superseded)
    else a
  }

  function ExpireApprovals(db: Database, lapsed: set<nat>): Database {
    db.(approvals := seq(|db.approvals|, i requires 0 <= i < |db.approvals| => Aged(db.releases, db.approvals[i], i, lapsed)))
  }

  predicate SignedBy(row: Release, key: nat) {
    row.artifact.key == key || (row.rollback.Some? && row.rollback.value.key == key)
  }

  /** Running releases pause, releases not yet running are blocked for good. */
  function Alarm(row: Release, key: nat): Release {
    if !SignedBy(row, key) then row
    else if row.status == Running then Move(row, Paused)
    else if row.status in {Ready, AwaitingApproval, Scheduled, Paused} then Move(row, Blocked)
    else row
  }

  /** A key that is no longer active keeps its status; its artifacts and releases are hit all the same. */
  function Compromise(db: Database, key: nat): Database {
    if key >= |db.keys| then db
    else db.(keys := if db.keys[key] == ActiveKey then db.keys[key := CompromisedKey] else db.keys,
             ready := (set a | a in db.ready && a.key != key),
             releases := seq(|db.releases|, i requires 0 <= i < |db.releases| => Alarm(db.releases[i], key)))
  }

  function Retire(db: Database, key: nat): Database {
    if key >= |db.keys| || db.keys[key] != ActiveKey then db else db.(keys := db.keys[key := RetiredKey])
  }

  // ---- steps and runs ----

  datatype Step =
    | AddDevice(device: P.Device, eligible: bool)
    | SetLifecycle(row: nat, eligible: bool)
    | AddKey
    | RetireKey(key: nat)
    | CompromiseKey(key: nat)
    | AdmitArtifact(artifact: F.Artifact)
    | WithdrawArtifact(artifact: F.Artifact)
    | CreateRelease(policy: Policy, target: F.Artifact, fallback: Option<F.Artifact>)
    | EditDraft(release: nat, expected: int)
    | ValidateRelease(release: nat, expected: int, roster: seq<nat>, hmac: P.Keyed, name: string, salt: string)
    | Operate(release: nat, action: ReleaseAction, actor: nat, expected: int, lapsed: set<nat>)
    | DecideApproval(approval: nat, actor: nat, approve: bool, lapsed: set<nat>)
    | RequestOverride(release: nat, evaluation: nat, actor: nat, expected: int, lapsed: set<nat>)
    | EvaluateManually(release: nat, stage: nat, telemetry: Telemetry)
    | GateCapture(release: nat, stage: nat)
    | GateMeasure(gate: nat, telemetry: Telemetry)
    | GateCommit(gate: nat, bytesMatch: bool)
    | StartCapture(release: nat, lapsed: set<nat>)
    | StartCommit(job: nat)
    | DeliverReport(report: F.Report)
    | ExpireDueCommands(due: set<nat>)
    | ExpireDueApprovals(lapsed: set<nat>)

  function Edit(db: Database, r: nat, expected: int): Database {
    if !Known(db, r) || db.releases[r].status != Draft || db.releases[r].version != expected then db
    else SetRelease(db, r, db.releases[r].(version := expected + 1))
  }

  function Enlist(db: Database, device: P.Device, eligible: bool): Database {
    if exists i :: 0 <= i < |db.catalog| && db.catalog[i].id == device.id then db
    else db.(catalog := db.catalog + [device], fleet := H.Run(db.fleet, [H.Register(eligible)]))
  }

  ghost function Next(db: Database, step: Step): Database {
    match step
    case AddDevice(d, e) => Enlist(db, d, e)
    case SetLifecycle(i, e) => db.(fleet := H.Run(db.fleet, [H.Enlist(i, e)]))
    case AddKey => db.(keys := db.keys + [ActiveKey])
    case RetireKey(k) => Retire(db, k)
    case CompromiseKey(k) => Compromise(db, k)
    case AdmitArtifact(a) => db.(ready := db.ready + {a})
    case WithdrawArtifact(a) => db.(ready := db.ready - {a})
    case CreateRelease(p, t, f) => db.(releases := db.releases + [Release(Draft, 1, p, t, f, [], [], 0)])
    case EditDraft(r, v) => Edit(db, r, v)
    case ValidateRelease(r, v, roster, hmac, name, salt) => Freeze(db, r, v, roster, hmac, name, salt)
    case Operate(r, a, who, v, lapsed) => Act(db, r, a, who, v, lapsed)
    case DecideApproval(a, who, ok, lapsed) => Decide(db, a, who, ok, lapsed)
    case RequestOverride(r, e, who, v, lapsed) => AskOverride(db, r, e, who, v, lapsed)
    case EvaluateManually(r, s, t) => EvaluateByHand(db, r, s, t)
    case GateCapture(r, s) => CaptureGate(db, r, s)
    case GateMeasure(g, t) => MeasureGate(db, g, t)
    case GateCommit(g, ok) => CommitGate(db, g, ok)
    case StartCapture(r, lapsed) => CaptureStart(db, r, lapsed)
    case StartCommit(s) => CommitStart(db, s)
    case DeliverReport(r) => TakeReport(db, r)
    case ExpireDueCommands(due) => ExpireCommands(db, due)
    case ExpireDueApprovals(lapsed) => ExpireApprovals(db, lapsed)
  }

  // What the steps used most do, for proofs that need nothing else of Next.

  lemma NextOperates(db: Database, r: nat, action: ReleaseAction, actor: nat, version: int, lapsed: set<nat>)
    ensures Next(db, Operate(r, action, actor, version, lapsed)) == Act(db, r, action, actor, version, lapsed)
  {
  }

  lemma NextDecides(db: Database, approval: nat, actor: nat, approve: bool, lapsed: set<nat>)
    ensures Next(db, DecideApproval(approval, actor, approve, lapsed)) == Decide(db, approval, actor, approve, lapsed)
  {
  }

  lemma NextReports(db: Database, report: F.Report)
    ensures Next(db, DeliverReport(report)) == TakeReport(db, report)
  {
  }

  lemma NextCommitsGate(db: Database, g: nat, bytesMatch: bool)
    ensures Next(db, GateCommit(g, bytesMatch)) == CommitGate(db, g, bytesMatch)
  {
  }

  lemma NextCommitsStart(db: Database, s: nat)
    ensures Next(db, StartCommit(s)) == CommitStart(db, s)
  {
  }

  ghost function RunFrom(db: Database, steps: seq<Step>): Database {
    if steps == [] then db else Next(RunFrom(db, steps[..|steps| - 1]), steps[|steps| - 1])
  }

  /** The states reachable from an empty database. */
  ghost function Run(steps: seq<Step>): Database { RunFrom(EMPTY, steps) }
}
