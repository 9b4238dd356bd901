/** Who can move a release, and that every operator's move is recorded and, where it must be, approved. */
module RolloutLimits {
  import opened Wrappers
  import opened ReleaseMachine
  import opened Rollout
  import opened RolloutFrames
  import opened RolloutInvariants
  import opened RolloutSteps
  import opened RolloutLedger
  import opened RolloutTheorems
  import F = Fleet
  import H = FleetProperties
  import G = GateEvaluator

  // ---- only the addressed release moves ----

  ghost predicate OnlyMoves(db: Database, next: Database, r: nat) {
    |next.releases| == |db.releases| && forall i :: 0 <= i < |db.releases| && i != r ==> next.releases[i] == db.releases[i]
  }

  lemma AskFirstOnly(db: Database, r: nat, action: ReleaseAction, actor: nat, lapsed: set<nat>)
    requires Known(db, r) && ControlOf(action).Some?
    ensures OnlyMoves(db, AskFirst(db, r, action, actor, lapsed), r)
  {
  }

  lemma PerformOnly(db: Database, r: nat, action: ReleaseAction, actor: nat)
    requires Known(db, r) && Transition(db.releases[r].status, action).Some?
    ensures OnlyMoves(db, Perform(db, r, action, actor), r)
  {
  }

  lemma ActOnly(db: Database, r: nat, action: ReleaseAction, actor: nat, expected: int, lapsed: set<nat>)
    ensures OnlyMoves(db, Act(db, r, action, actor, expected, lapsed), r)
  {
    if !Admitted(db, r, action, expected) {
      ActIgnored(db, r, action, actor, expected, lapsed);
    } else if MustAsk(db, r, action, lapsed) {
      ActAsks(db, r, action, actor, expected, lapsed);
      AskFirstOnly(db, r, action, actor, lapsed);
    } else if Refused(db, db.releases[r], r, action) {
      ActIgnored(db, r, action, actor, expected, lapsed);
    } else {
      ActExecutes(db, r, action, actor, expected, lapsed);
      PerformOnly(db, r, action, actor);
    }
  }

  lemma DecideOnly(db: Database, a: nat, actor: nat, approve: bool, lapsed: set<nat>)
    requires Decidable(db, a, actor, approve, lapsed)
    ensures OnlyMoves(db, Decide(db, a, actor, approve, lapsed), db.approvals[a].release)
  {
  }

  lemma ActivateOnly(db: Database, r: nat, completed: nat)
    requires Known(db, r)
    ensures Activate(db, r, completed).Some? ==> OnlyMoves(db, Activate(db, r, completed).value, r)
  {
  }

  lemma CarryOutOnly(db: Database, r: nat, stage: nat, decision: G.Decision, hasNext: bool, bytesMatch: bool)
    requires Known(db, r)
    ensures var carried := CarryOut(db, r, stage, decision, hasNext, bytesMatch); carried.Some? ==> OnlyMoves(db, carried.value, r)
  {
    ActivateOnly(db, r, stage);
  }

  lemma CommitGateOnly(db: Database, g: nat, bytesMatch: bool)
    requires GatesCurrent(db) && CommitGate(db, g, bytesMatch) != db
    ensures g < |db.gates| && db.gates[g].Measured? && Known(db, db.gates[g].release)
    ensures db.releases[db.gates[g].release].status == Running && OnlyMoves(db, CommitGate(db, g, bytesMatch), db.gates[g].release)
  {
    CommitIsCarried(db, g, bytesMatch);
    var job := db.gates[g];
    CarryOutOnly(Judged(db, job.release, job.stage, job.metrics, job.decision), job.release, job.stage, job.decision,
                 HasNext(db.releases[job.release], job.stage), bytesMatch);
  }

  lemma CommitStartOnly(db: Database, s: nat)
    requires StartsCurrent(db) && CommitStart(db, s) != db
    ensures s < |db.starts| && db.starts[s].StartSeen? && Known(db, db.starts[s].release)
    ensures !db.releases[db.starts[s].release].policy.twoPerson && OnlyMoves(db, CommitStart(db, s), db.starts[s].release)
    ensures db.releases[db.starts[s].release].status == Scheduled
    ensures CommitStart(db, s).releases[db.starts[s].release].status == Running
  {
    assert StartCurrent(db, db.starts[s]);
    var r := db.starts[s].release;
    ActivateOnly(SetRelease(db, r, Move(db.releases[r], Running).(current := 0)), r, 0);
  }

  lemma TakeReportOnly(db: Database, report: F.Report, r: nat)
    requires Known(db, r) && (db.releases[r].status !in {Aborting, RollingBack} || Busy(TakeReport(db, report).fleet.assignments, r))
    ensures Known(TakeReport(db, report), r) && TakeReport(db, report).releases[r] == db.releases[r]
  {
  }

  /** The steps that address no release row at all. */
  lemma RowsUntouched(db: Database, step: Step, r: nat)
    requires Known(db, r) && !step.Operate? && !step.DecideApproval? && !step.GateCommit? && !step.StartCommit?
      && !step.DeliverReport? && !step.CompromiseKey? && !step.EditDraft? && !step.ValidateRelease?
    ensures Known(Next(db, step), r) && Next(db, step).releases[r] == db.releases[r]
  {
  }

  /** Compromise, draft edits and validation leave a release alone that is scheduled or aborting,
      except that a compromise may block a scheduled one. */
  lemma LateRowsKept(db: Database, step: Step, r: nat)
    requires Known(db, r) && db.releases[r].status in {Scheduled, Aborting}
    requires step.CompromiseKey? || step.EditDraft? || step.ValidateRelease?
    ensures Known(Next(db, step), r)
    ensures Next(db, step).releases[r] == db.releases[r]
      || (db.releases[r].status == Scheduled && Next(db, step).releases[r].status == Blocked)
  {
    match step
    case CompromiseKey(_) =>
    case EditDraft(_, _) =>
    case ValidateRelease(_, _, _, _, _, _) =>
  }

  // ---- a scheduled two-person release ----

  lemma ScheduledRefuses(db: Database, r: nat, action: ReleaseAction, actor: nat, expected: int, lapsed: set<nat>)
    requires ApprovalsSound(db) && Known(db, r) && db.releases[r].status == Scheduled && db.releases[r].policy.twoPerson
    ensures Act(db, r, action, actor, expected, lapsed).releases[r].status in {Scheduled, Cancelled}
  {
    ScheduledHasNoApproval(db, r);
  }

  lemma ScheduledElsewhere(db: Database, step: Step, r: nat)
    requires Known(db, r) && db.releases[r].status == Scheduled
    requires !step.Operate? && !step.DecideApproval? && !step.GateCommit? && !step.StartCommit?
    ensures Known(Next(db, step), r) && Next(db, step).releases[r].status in {Scheduled, Blocked}
  {
    if step.DeliverReport? {
      NextReports(db, step.report);
      TakeReportOnly(db, step.report, r);
    } else if step.CompromiseKey? || step.EditDraft? || step.ValidateRelease? {
      LateRowsKept(db, step, r);
    } else {
      RowsUntouched(db, step, r);
    }
  }

  lemma ScheduledOperators(db: Database, step: Step, r: nat)
    requires ApprovalsSound(db) && Known(db, r) && db.releases[r].status == Scheduled && db.releases[r].policy.twoPerson
    requires step.Operate? || step.DecideApproval?
    ensures Known(Next(db, step), r) && Next(db, step).releases[r].status in {Scheduled, Cancelled}
  {
    if step.Operate? {
      NextOperates(db, step.release, step.action, step.actor, step.expected, step.lapsed);
      ActOnly(db, step.release, step.action, step.actor, step.expected, step.lapsed);
      if step.release == r { ScheduledRefuses(db, r, step.action, step.actor, step.expected, step.lapsed); }
    } else {
      NextDecides(db, step.approval, step.actor, step.approve, step.lapsed);
      ScheduledUndecided(db, step.approval, step.actor, step.approve, step.lapsed, r);
    }
  }

  lemma ScheduledUndecided(db: Database, a: nat, actor: nat, approve: bool, lapsed: set<nat>, r: nat)
    requires Known(db, r) && db.releases[r].status == Scheduled
    ensures Known(Decide(db, a, actor, approve, lapsed), r) && Decide(db, a, actor, approve, lapsed).releases[r].status == Scheduled
  {
    if Decidable(db, a, actor, approve, lapsed) { DecideOnly(db, a, actor, approve, lapsed); }
  }

  lemma ScheduledJobs(db: Database, step: Step, r: nat)
    requires GatesCurrent(db) && StartsCurrent(db) && Known(db, r)
    requires db.releases[r].status == Scheduled && db.releases[r].policy.twoPerson
    requires step.GateCommit? || step.StartCommit?
    ensures Known(Next(db, step), r) && Next(db, step).releases[r].status == Scheduled
  {
    match step
    case GateCommit(g, ok) =>
      NextCommitsGate(db, g, ok);
      if CommitGate(db, g, ok) != db { CommitGateOnly(db, g, ok); }
    case StartCommit(s) =>
      NextCommitsStart(db, s);
      if CommitStart(db, s) != db { CommitStartOnly(db, s); }
  }

  lemma ScheduledStep(db: Database, step: Step, r: nat)
    requires Invariant(db) && Known(db, r) && db.releases[r].status == Scheduled && db.releases[r].policy.twoPerson
    ensures Known(Next(db, step), r) && Next(db, step).releases[r].status in {Scheduled, Blocked, Cancelled}
  {
    if step.Operate? || step.DecideApproval? {
      ScheduledOperators(db, step, r);
    } else if step.GateCommit? || step.StartCommit? {
      ScheduledJobs(db, step, r);
    } else {
      ScheduledElsewhere(db, step, r);
    }
  }

  /** Scheduling uses up the start approval, so a scheduled release under a two-person policy is
      never started, neither by the job nor by an operator: it can only be cancelled or blocked. */
  lemma {:induction false} ScheduledTwoPersonNeverStarts(db: Database, steps: seq<Step>, r: nat)
    requires Invariant(db) && Known(db, r) && db.releases[r].status == Scheduled && db.releases[r].policy.twoPerson
    ensures Known(RunFrom(db, steps), r) && RunFrom(db, steps).releases[r].status in {Scheduled, Blocked, Cancelled}
  {
    if steps != [] {
      var before, last := steps[..|steps| - 1], steps[|steps| - 1];
      ScheduledTwoPersonNeverStarts(db, before, r);
      RunFromKeeps(db, before);
      var mid := RunFrom(db, before);
      ReleasesOnlyMoveOn(db, before, r);
      StepKeeps(mid, last);
      assert Moved(mid.releases[r], Next(mid, last).releases[r]);
      if mid.releases[r].status == Scheduled { ScheduledStep(mid, last, r); }
    }
  }

  // ---- every operator move is recorded and, where it must be, approved ----

  /** The statuses that put a release to work or take it down. */
  predicate Consequential(s: ReleaseState) { s in {Scheduled, Running, Aborting, Aborted, RollingBack, RolledBack} }

  ghost predicate RecordedAs(db: Database, next: Database, r: nat) {
    && |next.changes| == |db.changes| + 1 && Known(db, r) && Known(next, r)
    && var c := next.changes[|db.changes|];
    && c.release == r && c.version == db.releases[r].version
    && Transition(db.releases[r].status, c.action) == Some(next.releases[r].status)
  }

  /** An action that changes a status in earnest got past every refusal and needed nobody else. */
  lemma ActWorks(db: Database, r: nat, action: ReleaseAction, actor: nat, expected: int, lapsed: set<nat>)
    requires Known(db, r)
    requires var next := Act(db, r, action, actor, expected, lapsed);
      next.releases[r].status != db.releases[r].status && Consequential(next.releases[r].status)
    ensures Admitted(db, r, action, expected) && !MustAsk(db, r, action, lapsed) && !Refused(db, db.releases[r], r, action)
  {
    if Admitted(db, r, action, expected) && MustAsk(db, r, action, lapsed) {
      ActAsks(db, r, action, actor, expected, lapsed);
    } else if !Admitted(db, r, action, expected) || Refused(db, db.releases[r], r, action) {
      ActIgnored(db, r, action, actor, expected, lapsed);
    }
  }

  lemma PerformedStatus(db: Database, r: nat, action: ReleaseAction, actor: nat)
    requires Known(db, r) && Transition(db.releases[r].status, action).Some?
    ensures Perform(db, r, action, actor).releases[r].status == Transition(db.releases[r].status, action).value
  {
    var row := db.releases[r];
    EffectsStatus(SetRelease(db, r, Move(row, Transition(row.status, action).value)), r, action, row.version, actor);
  }

  lemma ActRecords(db: Database, r: nat, action: ReleaseAction, actor: nat, expected: int, lapsed: set<nat>)
    requires Known(db, r)
    ensures var next := Act(db, r, action, actor, expected, lapsed);
      next.releases[r].status != db.releases[r].status && Consequential(next.releases[r].status) ==> RecordedAs(db, next, r)
  {
    var next := Act(db, r, action, actor, expected, lapsed);
    if next.releases[r].status != db.releases[r].status && Consequential(next.releases[r].status) {
      ActWorks(db, r, action, actor, expected, lapsed);
      ActExecutes(db, r, action, actor, expected, lapsed);
      PerformFrame(db, r, action, actor);
      PerformedStatus(db, r, action, actor);
    }
  }

  lemma EffectsStatus(db: Database, r: nat, action: ReleaseAction, version: int, actor: nat)
    requires Known(db, r)
    ensures SideEffects(db, r, action, version, actor).releases[r].status == db.releases[r].status
  {
  }

  lemma DecideRecords(db: Database, a: nat, actor: nat, approve: bool, lapsed: set<nat>)
    requires Decidable(db, a, actor, approve, lapsed)
    ensures var (next, r) := (Decide(db, a, actor, approve, lapsed), db.approvals[a].release);
      next.releases[r].status != db.releases[r].status && Consequential(next.releases[r].status) ==> RecordedAs(db, next, r)
  {
    DecideShape(db, a, actor, approve, lapsed);
  }

  lemma OperatorMovesRecorded(db: Database, step: Step, r: nat)
    requires Invariant(db) && Known(db, r) && (step.Operate? || step.DecideApproval? || step.StartCommit?)
    requires Known(Next(db, step), r) && Next(db, step).releases[r].status != db.releases[r].status
    requires Consequential(Next(db, step).releases[r].status)
    ensures RecordedAs(db, Next(db, step), r)
  {
    match step
    case Operate(q, action, who, v, lapsed) =>
      NextOperates(db, q, action, who, v, lapsed);
      ActOnly(db, q, action, who, v, lapsed);
      ActRecords(db, r, action, who, v, lapsed);
    case DecideApproval(a, who, ok, lapsed) =>
      NextDecides(db, a, who, ok, lapsed);
      DecideOnly(db, a, who, ok, lapsed);
      DecideRecords(db, a, who, ok, lapsed);
    case StartCommit(s) =>
      NextCommitsStart(db, s);
      CommitStartOnly(db, s);
      StartRecords(db, s);
    case _ =>
  }

  lemma StartRecords(db: Database, s: nat)
    requires StartsCurrent(db) && CommitStart(db, s) != db
    ensures s < |db.starts| && db.starts[s].StartSeen? && RecordedAs(db, CommitStart(db, s), db.starts[s].release)
  {
    CommitStartOnly(db, s);
  }

  /** The actions an audit entry can carry. */
  const AUDITED: set<ReleaseAction> := {Submit, Approve, Schedule, Start, Cancel, Pause, Resume, Abort, Rollback, GateOverride}

  lemma ConsequentialControls(before: ReleaseState, action: ReleaseAction, row: Release)
    requires row.policy.twoPerson && Transition(before, action).Some? && Consequential(Transition(before, action).value)
    requires action in AUDITED
    ensures NeedsAuthority(row, action)
  {
  }

  /** Under a two-person policy every operator-driven schedule, start, resume, override, abort or
      rollback has an approval given by somebody other than its requester, for that very action and
      bound to the version the release had at that moment. */
  lemma OperatorMovesApproved(db: Database, step: Step, r: nat)
    requires Invariant(db) && Known(db, r) && db.releases[r].policy.twoPerson
    requires step.Operate? || step.DecideApproval? || step.StartCommit?
    requires Known(Next(db, step), r) && Next(db, step).releases[r].status != db.releases[r].status
    requires Consequential(Next(db, step).releases[r].status)
    ensures RecordedAs(db, Next(db, step), r)
    ensures SomebodyElseApproved(Next(db, step), Next(db, step).changes[|db.changes|])
  {
    var next := Next(db, step);
    OperatorMovesRecorded(db, step, r);
    StepKeeps(db, step);
    var c := next.changes[|db.changes|];
    assert Moved(db.releases[r], next.releases[r]);
    RecordedAction(db, step, r);
    ConsequentialControls(db.releases[r].status, c.action, next.releases[r]);
    ChangeHasApproval(next, c);
  }

  ghost predicate ChangeIs(db: Database, next: Database, actions: set<ReleaseAction>) {
    next.changes == db.changes || (|next.changes| == |db.changes| + 1 && next.changes[|db.changes|].action in actions)
  }

  lemma ActChange(db: Database, r: nat, action: ReleaseAction, actor: nat, expected: int, lapsed: set<nat>)
    ensures ChangeIs(db, Act(db, r, action, actor, expected, lapsed), ROUTED)
  {
    if !Admitted(db, r, action, expected) {
      ActIgnored(db, r, action, actor, expected, lapsed);
    } else if MustAsk(db, r, action, lapsed) {
      ActAsks(db, r, action, actor, expected, lapsed);
      AskFirstFrame(db, r, action, actor, lapsed);
    } else if Refused(db, db.releases[r], r, action) {
      ActIgnored(db, r, action, actor, expected, lapsed);
    } else {
      ActExecutes(db, r, action, actor, expected, lapsed);
      PerformFrame(db, r, action, actor);
    }
  }

  lemma DecideChange(db: Database, a: nat, actor: nat, approve: bool, lapsed: set<nat>)
    ensures ChangeIs(db, Decide(db, a, actor, approve, lapsed), {Approve, Resume, Abort, Rollback, GateOverride})
  {
    if Decidable(db, a, actor, approve, lapsed) { DecideShape(db, a, actor, approve, lapsed); }
  }

  lemma StartChange(db: Database, s: nat)
    requires Sound(db) && StartsCurrent(db)
    ensures ChangeIs(db, CommitStart(db, s), {Start})
  {
    if CommitStart(db, s) != db { CommitStartShape(db, s); }
  }

  lemma RecordedAction(db: Database, step: Step, r: nat)
    requires Invariant(db) && (step.Operate? || step.DecideApproval? || step.StartCommit?) && RecordedAs(db, Next(db, step), r)
    ensures Next(db, step).changes[|db.changes|].action in AUDITED
  {
    match step
    case Operate(q, action, who, v, lapsed) =>
      NextOperates(db, q, action, who, v, lapsed);
      ActChange(db, q, action, who, v, lapsed);
    case DecideApproval(a, who, ok, lapsed) =>
      NextDecides(db, a, who, ok, lapsed);
      DecideChange(db, a, who, ok, lapsed);
    case StartCommit(s) =>
      NextCommitsStart(db, s);
      StartChange(db, s);
    case _ =>
  }
}
