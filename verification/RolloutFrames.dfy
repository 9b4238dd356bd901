/** Which tables a step leaves alone, and the ways an operator's action can end. */
module RolloutFrames {
  import opened Wrappers
  import opened ReleaseMachine
  import opened Rollout
  import F = Fleet
  import H = FleetProperties
  import G = GateEvaluator

  // ---- the ways of an action ----

  predicate Admitted(db: Database, r: nat, action: ReleaseAction, expected: int) {
    Known(db, r) && action in ROUTED && expected == db.releases[r].version
  }

  predicate MustAsk(db: Database, r: nat, action: ReleaseAction, lapsed: set<nat>)
    requires Known(db, r)
  {
    NeedsSecondPerson(db.releases[r], action) && !Entitled(db, r, action, lapsed)
  }

  lemma ActIgnored(db: Database, r: nat, action: ReleaseAction, actor: nat, expected: int, lapsed: set<nat>)
    requires !Admitted(db, r, action, expected) || (!MustAsk(db, r, action, lapsed) && Refused(db, db.releases[r], r, action))
    ensures Act(db, r, action, actor, expected, lapsed) == db
  {
  }

  lemma ActAsks(db: Database, r: nat, action: ReleaseAction, actor: nat, expected: int, lapsed: set<nat>)
    requires Admitted(db, r, action, expected) && MustAsk(db, r, action, lapsed)
    ensures Act(db, r, action, actor, expected, lapsed) == AskFirst(db, r, action, actor, lapsed)
  {
  }

  lemma ActExecutes(db: Database, r: nat, action: ReleaseAction, actor: nat, expected: int, lapsed: set<nat>)
    requires Admitted(db, r, action, expected) && !MustAsk(db, r, action, lapsed) && !Refused(db, db.releases[r], r, action)
    ensures Act(db, r, action, actor, expected, lapsed) == Record(Perform(db, r, action, actor), r, action, db.releases[r].version)
  {
  }

  // ---- tables left alone ----

  /** Nothing changes but releases, approvals, the fleet and the changes. */
  ghost predicate OperatorTables(db: Database, next: Database) {
    next == db.(releases := next.releases, approvals := next.approvals, fleet := next.fleet, changes := next.changes)
  }

  lemma AskFirstFrame(db: Database, r: nat, action: ReleaseAction, actor: nat, lapsed: set<nat>)
    requires Known(db, r) && ControlOf(action).Some?
    ensures OperatorTables(db, AskFirst(db, r, action, actor, lapsed))
    ensures AskFirst(db, r, action, actor, lapsed).changes == db.changes
  {
  }

  lemma PerformFrame(db: Database, r: nat, action: ReleaseAction, actor: nat)
    requires Known(db, r) && Transition(db.releases[r].status, action).Some?
    ensures OperatorTables(db, Perform(db, r, action, actor)) && Perform(db, r, action, actor).changes == db.changes
  {
  }

  lemma ActFrame(db: Database, r: nat, action: ReleaseAction, actor: nat, expected: int, lapsed: set<nat>)
    ensures OperatorTables(db, Act(db, r, action, actor, expected, lapsed))
  {
    if !Admitted(db, r, action, expected) {
      ActIgnored(db, r, action, actor, expected, lapsed);
    } else if MustAsk(db, r, action, lapsed) {
      ActAsks(db, r, action, actor, expected, lapsed);
      AskFirstFrame(db, r, action, actor, lapsed);
    } else if Refused(db, db.releases[r], r, action) {
      ActIgnored(db, r, action, actor, expected, lapsed);
    } else {
      ActExecutes(db, r, action, actor, expected, lapsed);
      PerformFrame(db, r, action, actor);
    }
  }

  lemma DecideFrame(db: Database, a: nat, actor: nat, approve: bool, lapsed: set<nat>)
    ensures OperatorTables(db, Decide(db, a, actor, approve, lapsed))
  {
  }

  lemma ActivateFrame(db: Database, r: nat, completed: nat)
    requires Known(db, r)
    ensures Activate(db, r, completed).Some? ==>
      var next := Activate(db, r, completed).value; next == db.(releases := next.releases, fleet := next.fleet)
  {
  }

  lemma CarryOutFrame(db: Database, r: nat, stage: nat, decision: G.Decision, hasNext: bool, bytesMatch: bool)
    requires Known(db, r)
    ensures CarryOut(db, r, stage, decision, hasNext, bytesMatch).Some? ==>
      var next := CarryOut(db, r, stage, decision, hasNext, bytesMatch).value; next == db.(releases := next.releases, fleet := next.fleet)
  {
    ActivateFrame(db, r, stage);
  }

  lemma AttemptFrame(db: Database, r: nat, stage: nat, metrics: G.Metrics, decision: G.Decision, bytesMatch: bool)
    requires Known(db, r) && 1 <= stage <= |db.releases[r].stages|
    ensures Attempt(db, r, stage, metrics, decision, bytesMatch).Some? ==>
      var next := Attempt(db, r, stage, metrics, decision, bytesMatch).value;
      next == db.(releases := next.releases, fleet := next.fleet, evaluations := next.evaluations)
  {
    CarryOutFrame(Judged(db, r, stage, metrics, decision), r, stage, decision, HasNext(db.releases[r], stage), bytesMatch);
  }

  lemma CommitGateFrame(db: Database, g: nat, bytesMatch: bool)
    ensures var next := CommitGate(db, g, bytesMatch);
      next == db.(releases := next.releases, fleet := next.fleet, evaluations := next.evaluations, gates := next.gates)
  {
    if g < |db.gates| && db.gates[g].Measured? && Known(db, db.gates[g].release) {
      var job := db.gates[g];
      if 1 <= job.stage <= |db.releases[job.release].stages| {
        AttemptFrame(db, job.release, job.stage, job.metrics, job.decision, bytesMatch);
      }
    }
  }

  lemma CommitStartFrame(db: Database, s: nat)
    ensures var next := CommitStart(db, s);
      next == db.(releases := next.releases, fleet := next.fleet, approvals := next.approvals, starts := next.starts, changes := next.changes)
  {
    if s < |db.starts| && db.starts[s].StartSeen? && Known(db, db.starts[s].release) {
      var r := db.starts[s].release;
      ActivateFrame(SetRelease(db, r, Move(db.releases[r], Running).(current := 0)), r, 0);
    }
  }

  lemma TakeReportFrame(db: Database, report: F.Report)
    ensures var next := TakeReport(db, report); next == db.(releases := next.releases, fleet := next.fleet)
  {
  }

  /** The step kinds that write snapshots, start jobs or the approval ledger. */
  predicate WritesGates(step: Step) { step.GateCapture? || step.GateMeasure? || step.GateCommit? }

  predicate WritesStarts(step: Step) { step.StartCapture? || step.StartCommit? }

  predicate WritesLedger(step: Step) {
    step.Operate? || step.DecideApproval? || step.RequestOverride? || step.ExpireDueApprovals? || step.StartCommit?
  }

  ghost predicate Framed(db: Database, step: Step, next: Database) {
    && (!WritesGates(step) ==> next.gates == db.gates)
    && (!WritesStarts(step) ==> next.starts == db.starts)
    && (!WritesLedger(step) ==> next.approvals == db.approvals && next.changes == db.changes)
  }

  /** Every step leaves alone the tables it has no business with. */
  lemma StepFrame(db: Database, step: Step)
    ensures Framed(db, step, Next(db, step))
  {
    match step
    case Operate(r, action, who, v, lapsed) =>
      NextOperates(db, r, action, who, v, lapsed);
      ActFrame(db, r, action, who, v, lapsed);
    case DecideApproval(a, who, ok, lapsed) =>
      NextDecides(db, a, who, ok, lapsed);
      DecideFrame(db, a, who, ok, lapsed);
    case GateCommit(g, ok) =>
      NextCommitsGate(db, g, ok);
      CommitGateFrame(db, g, ok);
    case StartCommit(s) =>
      NextCommitsStart(db, s);
      CommitStartFrame(db, s);
    case DeliverReport(report) =>
      NextReports(db, report);
      TakeReportFrame(db, report);
    case _ => PlainFrame(db, step);
  }

  lemma PlainFrame(db: Database, step: Step)
    requires !step.Operate? && !step.DecideApproval? && !step.GateCommit? && !step.StartCommit? && !step.DeliverReport?
    ensures Framed(db, step, Next(db, step))
  {
    match step
    case RequestOverride(r, e, who, v, lapsed) => assert Next(db, step) == AskOverride(db, r, e, who, v, lapsed);
    case ValidateRelease(r, v, roster, hmac, name, salt) => assert Next(db, step) == Freeze(db, r, v, roster, hmac, name, salt);
    case EvaluateManually(r, s, t) => assert Next(db, step) == EvaluateByHand(db, r, s, t);
    case ExpireDueApprovals(lapsed) => assert Next(db, step) == ExpireApprovals(db, lapsed);
    case CompromiseKey(k) => assert Next(db, step) == Compromise(db, k);
    case _ =>
  }
}
