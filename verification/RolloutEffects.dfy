/** The effect of every step on devices, assignments, commands and reports, as a run of fleet operations. */
module RolloutEffects {
  import opened Wrappers
  import opened ReleaseMachine
  import opened Apportionment
  import opened Rollout
  import opened RolloutFrames
  import opened RolloutInvariants
  import opened RolloutSteps
  import F = Fleet
  import H = FleetProperties
  import G = GateEvaluator

  /** What an operation may do, given the release rows before and after the step that does it:
      install a running release's target, roll back to a release's own rollback artifact while it is
      rolling back, and withdraw what an aborting release has in flight. */
  predicate Fits(op: H.Op, rows: seq<F.Assignment>, before: seq<Release>, after: seq<Release>) {
    match op
    case DoInstall(r, _, _, artifact) =>
      r < |before| && r < |after| && artifact == before[r].artifact && after[r].status == Running
    case DoRetarget(i, artifact, _) =>
      && i < |rows| && rows[i].release < |before| && rows[i].release < |after|
      && Some(artifact) == before[rows[i].release].rollback
      && after[rows[i].release].status in {RollingBack, RolledBack, ReleaseState.Failed}
    case DoWithdraw(i) =>
      && i < |rows| && rows[i].release < |before| && rows[i].release < |after|
      && after[rows[i].release].status in {Aborting, Aborted}
    case _ => true
  }

  ghost predicate Runs(db: Database, next: Database, ops: seq<H.Op>) {
    next.fleet == H.Run(db.fleet, ops) && forall op :: op in ops ==> Fits(op, db.fleet.assignments, db.releases, next.releases)
  }

  // ---- whose rows the operations touch ----

  lemma {:induction false} RetargetsOwn(rows: seq<F.Assignment>, q: nat, artifact: F.Artifact, states: set<F.AssignmentState>, byApproval: bool)
    ensures forall op :: op in RetargetOps(rows, q, artifact, states, byApproval) ==>
      op.assignment < |rows| && rows[op.assignment].release == q && op.artifact == artifact
  {
    if rows != [] { RetargetsOwn(rows[..|rows| - 1], q, artifact, states, byApproval); }
  }

  lemma {:induction false} WithdrawsOwn(rows: seq<F.Assignment>, q: nat)
    ensures forall op :: op in WithdrawOps(rows, q) ==> op.assignment < |rows| && rows[op.assignment].release == q
  {
    if rows != [] { WithdrawsOwn(rows[..|rows| - 1], q); }
  }

  lemma {:induction false} RetargetFits(db: Database, next: Database, r: nat, states: set<F.AssignmentState>, byApproval: bool)
    requires Known(db, r) && Known(next, r) && db.releases[r].rollback.Some?
    requires next.releases[r].status in {RollingBack, RolledBack, ReleaseState.Failed}
    requires next.fleet == H.Run(db.fleet, RetargetOps(db.fleet.assignments, r, db.releases[r].rollback.value, states, byApproval))
    ensures Runs(db, next, RetargetOps(db.fleet.assignments, r, db.releases[r].rollback.value, states, byApproval))
  {
    RetargetsOwn(db.fleet.assignments, r, db.releases[r].rollback.value, states, byApproval);
  }

  lemma {:induction false} WithdrawFits(db: Database, next: Database, r: nat)
    requires Known(db, r) && Known(next, r) && next.releases[r].status in {Aborting, Aborted}
    requires next.fleet == H.Run(db.fleet, WithdrawOps(db.fleet.assignments, r))
    ensures Runs(db, next, WithdrawOps(db.fleet.assignments, r))
  {
    WithdrawsOwn(db.fleet.assignments, r);
  }

  lemma InstallFits(db: Database, next: Database, r: nat, stage: nat, members: seq<nat>)
    requires Known(db, r) && Known(next, r) && next.releases[r].status == Running
    requires next.fleet == H.Run(db.fleet, InstallOps(r, stage, db.releases[r].artifact, members))
    ensures Runs(db, next, InstallOps(r, stage, db.releases[r].artifact, members))
  {
  }

  // ---- step by step ----

  /** The activator assigns nobody, or assigns members of a running release. */
  lemma ActivateOps(mid: Database, r: nat, completed: nat) returns (stage: nat, members: seq<nat>)
    requires Known(mid, r) && Activate(mid, r, completed).Some?
    ensures var next := Activate(mid, r, completed).value;
      next.fleet == mid.fleet
      || (next.fleet == H.Run(mid.fleet, InstallOps(r, stage, mid.releases[r].artifact, members)) && next.releases[r].status == Running)
  {
    var row := mid.releases[r];
    stage, members := completed + 1, [];
    if completed < |row.stages| && row.stages[completed].status == Pending {
      members := Missing(mid.fleet, r, row.members[..TargetCount(|row.members|, row.stages[completed].percentage)]);
    }
  }

  lemma PerformOps(db: Database, r: nat, action: ReleaseAction, actor: nat) returns (ops: seq<H.Op>)
    requires Known(db, r) && Transition(db.releases[r].status, action).Some?
    ensures Runs(db, Perform(db, r, action, actor), ops)
  {
    var row, next := db.releases[r], Perform(db, r, action, actor);
    if action == Abort {
      ops := WithdrawOps(db.fleet.assignments, r);
      WithdrawFits(db, next, r);
    } else if action == Rollback && row.rollback.Some? {
      ops := RetargetOps(db.fleet.assignments, r, row.rollback.value, STANDING, false);
      RetargetFits(db, next, r, STANDING, false);
    } else if action == Start && row.stages != [] {
      var count := FirstWave(|row.members|, row.stages[0].percentage);
      var members := if 0 <= count <= |row.members| then row.members[..count] else [];
      ops := InstallOps(r, 1, row.artifact, members);
      InstallFits(db, next, r, 1, members);
    } else {
      ops := [];
    }
  }

  lemma ActOps(db: Database, r: nat, action: ReleaseAction, actor: nat, expected: int, lapsed: set<nat>) returns (ops: seq<H.Op>)
    ensures Runs(db, Act(db, r, action, actor, expected, lapsed), ops)
  {
    ops := [];
    if !Admitted(db, r, action, expected) {
      ActIgnored(db, r, action, actor, expected, lapsed);
    } else if MustAsk(db, r, action, lapsed) {
      ActAsks(db, r, action, actor, expected, lapsed);
    } else if Refused(db, db.releases[r], r, action) {
      ActIgnored(db, r, action, actor, expected, lapsed);
    } else {
      ActExecutes(db, r, action, actor, expected, lapsed);
      ops := PerformOps(db, r, action, actor);
    }
  }

  lemma DecideOps(db: Database, a: nat, actor: nat, approve: bool, lapsed: set<nat>) returns (ops: seq<H.Op>)
    ensures Runs(db, Decide(db, a, actor, approve, lapsed), ops)
  {
    ops := [];
    if Decidable(db, a, actor, approve, lapsed) && approve {
      var r, control, next := db.approvals[a].release, db.approvals[a].action, Decide(db, a, actor, approve, lapsed);
      if control == AbortControl {
        ops := WithdrawOps(db.fleet.assignments, r);
        WithdrawFits(db, next, r);
      } else if control == RollbackControl && db.releases[r].rollback.Some? {
        ops := RetargetOps(db.fleet.assignments, r, db.releases[r].rollback.value, RETARGETABLE, true);
        RetargetFits(db, next, r, RETARGETABLE, true);
      }
    }
  }

  lemma CarryOutOps(db: Database, mid: Database, next: Database, r: nat, stage: nat, decision: G.Decision, hasNext: bool, bytesMatch: bool)
    returns (ops: seq<H.Op>)
    requires Known(db, r) && Known(mid, r) && mid.fleet == db.fleet
    requires mid.releases[r].artifact == db.releases[r].artifact && mid.releases[r].rollback == db.releases[r].rollback
    requires var carried := CarryOut(mid, r, stage, decision, hasNext, bytesMatch);
      carried.Some? && Known(next, r) && next.releases == Settle(carried.value, r).releases && next.fleet == carried.value.fleet
    ensures Runs(db, next, ops)
  {
    ops := [];
    if decision == G.Pass && hasNext {
      var opening, members := ActivateOps(mid, r, stage);
      if next.fleet != db.fleet {
        ops := InstallOps(r, opening, db.releases[r].artifact, members);
        InstallFits(db, next, r, opening, members);
      }
    } else if decision == G.Rollback {
      ops := RetargetOps(db.fleet.assignments, r, db.releases[r].rollback.value, RETARGETABLE, false);
      RetargetFits(db, next, r, RETARGETABLE, false);
    }
  }

  lemma CommitGateOps(db: Database, g: nat, bytesMatch: bool) returns (ops: seq<H.Op>)
    requires GatesCurrent(db)
    ensures Runs(db, CommitGate(db, g, bytesMatch), ops)
  {
    if CommitGate(db, g, bytesMatch) == db {
      ops := [];
    } else {
      CommitIsCarried(db, g, bytesMatch);
      var job := db.gates[g];
      ops := CarryOutOps(db, Judged(db, job.release, job.stage, job.metrics, job.decision), CommitGate(db, g, bytesMatch),
                         job.release, job.stage, job.decision, HasNext(db.releases[job.release], job.stage), bytesMatch);
    }
  }

  lemma CommitStartOps(db: Database, s: nat) returns (ops: seq<H.Op>)
    ensures Runs(db, CommitStart(db, s), ops)
  {
    var next := CommitStart(db, s);
    ops := [];
    if next.fleet != db.fleet {
      var r := db.starts[s].release;
      var stage, members := ActivateOps(SetRelease(db, r, Move(db.releases[r], Running).(current := 0)), r, 0);
      ops := InstallOps(r, stage, db.releases[r].artifact, members);
      InstallFits(db, next, r, stage, members);
    }
  }

  lemma ReportOps(db: Database, report: F.Report) returns (ops: seq<H.Op>)
    ensures Runs(db, TakeReport(db, report), ops)
  {
    ops := if Storable(db, report) then [H.DoReceive(report)] else [];
  }

  lemma PlainOps(db: Database, step: Step) returns (ops: seq<H.Op>)
    requires !step.Operate? && !step.DecideApproval? && !step.GateCommit? && !step.StartCommit? && !step.DeliverReport?
    ensures Runs(db, Next(db, step), ops)
  {
    if step.AddDevice? {
      assert Next(db, step) == Enlist(db, step.device, step.eligible);
      ops := if Enlist(db, step.device, step.eligible) == db then [] else [H.Register(step.eligible)];
    } else if step.SetLifecycle? {
      ops := [H.Enlist(step.row, step.eligible)];
    } else if step.ExpireDueCommands? {
      ops := ExpireOps(db.fleet.commands, step.due);
    } else {
      ops := [];
    }
  }

  /** The whole effect of any step on the fleet: operations that fit the release it works for. */
  lemma StepIsRun(db: Database, step: Step) returns (ops: seq<H.Op>)
    requires GatesCurrent(db)
    ensures Runs(db, Next(db, step), ops)
  {
    match step
    case Operate(r, action, who, v, lapsed) =>
      NextOperates(db, r, action, who, v, lapsed);
      ops := ActOps(db, r, action, who, v, lapsed);
    case DecideApproval(a, who, ok, lapsed) =>
      NextDecides(db, a, who, ok, lapsed);
      ops := DecideOps(db, a, who, ok, lapsed);
    case GateCommit(g, ok) =>
      NextCommitsGate(db, g, ok);
      ops := CommitGateOps(db, g, ok);
    case StartCommit(s) =>
      NextCommitsStart(db, s);
      ops := CommitStartOps(db, s);
    case DeliverReport(report) =>
      NextReports(db, report);
      ops := ReportOps(db, report);
    case _ => ops := PlainOps(db, step);
  }
}
