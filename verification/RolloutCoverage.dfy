/** The other side of the blast radius: a stage that opens reaches every eligible member of its wave. */
module RolloutCoverage {
  import opened Wrappers
  import opened ReleaseMachine
  import opened Apportionment
  import opened Rollout
  import opened RolloutFrames
  import opened RolloutInvariants
  import opened RolloutSteps
  import opened RolloutLedger
  import opened RolloutTheorems
  import opened RolloutLimits
  import F = Fleet
  import H = FleetProperties
  import G = GateEvaluator

  predicate Assigned(rows: seq<F.Assignment>, r: nat, device: nat) {
    exists i :: 0 <= i < |rows| && rows[i].release == r && rows[i].device == device
  }

  /** Every eligible device of these has an assignment of the release. */
  ghost predicate Covers(f: F.Fleet, r: nat, members: seq<nat>) {
    forall m :: m in members && m < |f.devices| && f.devices[m].eligible ==> Assigned(f.assignments, r, m)
  }

  /** The prefix of the frozen members that stage k + 1 exposes. */
  function Prefix(row: Release, k: nat): seq<nat>
    requires k < |row.stages|
  {
    row.members[..TargetCount(|row.members|, row.stages[k].percentage)]
  }

  predicate Opened(a: Release, b: Release, k: nat) {
    k < |a.stages| && k < |b.stages| && a.stages[k].status == Pending && b.stages[k].status != Pending
  }

  // ---- installing ----

  ghost predicate Grown(f: F.Fleet, g: F.Fleet) {
    && f.assignments <= g.assignments && |g.devices| == |f.devices|
    && forall d :: 0 <= d < |f.devices| ==> g.devices[d].eligible == f.devices[d].eligible
  }

  lemma AssignedStays(a: seq<F.Assignment>, b: seq<F.Assignment>, r: nat, device: nat)
    requires a <= b && Assigned(a, r, device)
    ensures Assigned(b, r, device)
  {
    var i :| 0 <= i < |a| && a[i].release == r && a[i].device == device;
    assert b[i] == a[i];
  }

  lemma InstallAssigns(f: F.Fleet, r: nat, device: nat, stage: nat, artifact: F.Artifact)
    ensures var g := H.Apply(f, H.DoInstall(r, device, stage, artifact));
      Grown(f, g) && (device < |f.devices| ==> Assigned(g.assignments, r, device))
  {
    if device < |f.devices| {
      var g := F.Install(f, r, device, stage, artifact);
      var known := F.Find(f.assignments, r, device);
      var i := if known.Some? then known.value else |f.assignments|;
      assert g.assignments[i].release == r && g.assignments[i].device == device;
    }
  }

  lemma {:induction false} InstallRunCovers(f: F.Fleet, r: nat, stage: nat, artifact: F.Artifact, members: seq<nat>)
    ensures var g := H.Run(f, InstallOps(r, stage, artifact, members)); Grown(f, g) && Covers(g, r, members)
  {
    if members != [] {
      var n, ops := |members| - 1, InstallOps(r, stage, artifact, members);
      assert ops[..n] == InstallOps(r, stage, artifact, members[..n]);
      InstallRunCovers(f, r, stage, artifact, members[..n]);
      InstallCoversNext(f, H.Run(f, ops[..n]), r, stage, artifact, members);
    }
  }

  lemma InstallCoversNext(f: F.Fleet, g: F.Fleet, r: nat, stage: nat, artifact: F.Artifact, members: seq<nat>)
    requires members != [] && Grown(f, g) && Covers(g, r, members[..|members| - 1])
    ensures var h := H.Apply(g, H.DoInstall(r, members[|members| - 1], stage, artifact)); Grown(f, h) && Covers(h, r, members)
  {
    var n, last := |members| - 1, members[|members| - 1];
    var h := H.Apply(g, H.DoInstall(r, last, stage, artifact));
    InstallAssigns(g, r, last, stage, artifact);
    forall m | m in members && m < |h.devices| && h.devices[m].eligible ensures Assigned(h.assignments, r, m) {
      if m != last {
        assert m in members[..n];
        AssignedStays(g.assignments, h.assignments, r, m);
      }
    }
  }

  /** Whom the activator does not list has an assignment already or is not eligible. */
  lemma {:induction false} MissingIsAll(f: F.Fleet, r: nat, members: seq<nat>, m: nat)
    requires m in members && m < |f.devices| && f.devices[m].eligible
    ensures m in Missing(f, r, members) || Assigned(f.assignments, r, m)
  {
    var n := |members| - 1;
    if m != members[n] {
      assert m in members[..n];
      MissingIsAll(f, r, members[..n], m);
    } else {
      var row := F.Find(f.assignments, r, m);
      if row.Some? { assert f.assignments[row.value].device == m; }
    }
  }

  lemma {:induction false} MissingCovers(f: F.Fleet, r: nat, stage: nat, artifact: F.Artifact, members: seq<nat>)
    ensures Covers(H.Run(f, InstallOps(r, stage, artifact, Missing(f, r, members))), r, members)
  {
    var missing := Missing(f, r, members);
    var g := H.Run(f, InstallOps(r, stage, artifact, missing));
    InstallRunCovers(f, r, stage, artifact, missing);
    forall m | m in members && m < |g.devices| && g.devices[m].eligible ensures Assigned(g.assignments, r, m) {
      MissingIsAll(f, r, members, m);
      if m !in missing { AssignedStays(f.assignments, g.assignments, r, m); }
    }
  }

  // ---- the two ways a stage opens ----

  lemma ActivateCovers(db: Database, r: nat, completed: nat)
    requires Known(db, r) && completed < |db.releases[r].stages| && db.releases[r].stages[completed].status == Pending
    ensures var next := Activate(db, r, completed); next.Some? ==> Covers(next.value.fleet, r, Prefix(db.releases[r], completed))
  {
    var row := db.releases[r];
    MissingCovers(db.fleet, r, completed + 1, row.artifact, Prefix(row, completed));
  }

  /** The activator opens only the stage it is asked for. */
  lemma ActivateOpensOne(db: Database, r: nat, completed: nat, k: nat)
    requires Known(db, r) && Activate(db, r, completed).Some? && Opened(db.releases[r], Activate(db, r, completed).value.releases[r], k)
    ensures k == completed
  {
  }

  lemma StartCovers(db: Database, r: nat, version: int, actor: nat)
    requires Known(db, r) && db.releases[r].stages != [] && 1 <= db.releases[r].stages[0].percentage <= 100
    ensures Covers(SideEffects(db, r, Start, version, actor).fleet, r, Prefix(db.releases[r], 0))
  {
    var row := db.releases[r];
    FirstWaveIsTarget(|row.members|, row.stages[0].percentage);
    InstallRunCovers(db.fleet, r, 1, row.artifact, Prefix(row, 0));
  }

  lemma StartOpensFirst(db: Database, r: nat, version: int, actor: nat, k: nat)
    requires Known(db, r) && Opened(db.releases[r], SideEffects(db, r, Start, version, actor).releases[r], k)
    ensures k == 0
  {
  }

  lemma EffectsOpenNothing(db: Database, r: nat, action: ReleaseAction, version: int, actor: nat)
    requires Known(db, r) && action != Start
    ensures SideEffects(db, r, action, version, actor).releases == db.releases
  {
  }

  // ---- step by step ----

  lemma PerformCovers(db: Database, r: nat, action: ReleaseAction, actor: nat, k: nat)
    requires AllWell(db) && Known(db, r) && Transition(db.releases[r].status, action).Some?
    requires Opened(db.releases[r], Perform(db, r, action, actor).releases[r], k)
    ensures Covers(Perform(db, r, action, actor).fleet, r, Prefix(db.releases[r], k))
  {
    var row := db.releases[r];
    var moved := SetRelease(db, r, Move(row, Transition(row.status, action).value));
    if action == Start {
      assert WellFormed(row, |db.fleet.devices|);
      assert Percents(row)[0] == row.stages[0].percentage;
      StartOpensFirst(moved, r, row.version, actor, k);
      StartCovers(moved, r, row.version, actor);
    } else {
      EffectsOpenNothing(moved, r, action, row.version, actor);
    }
  }

  lemma AskFirstOpensNothing(db: Database, r: nat, action: ReleaseAction, actor: nat, lapsed: set<nat>)
    requires Known(db, r) && ControlOf(action).Some?
    ensures Known(AskFirst(db, r, action, actor, lapsed), r)
    ensures AskFirst(db, r, action, actor, lapsed).releases[r].stages == db.releases[r].stages
  {
  }

  lemma ActCovers(db: Database, q: nat, action: ReleaseAction, actor: nat, expected: int, lapsed: set<nat>, r: nat, k: nat)
    requires AllWell(db) && Known(db, r) && Known(Act(db, q, action, actor, expected, lapsed), r)
    requires Opened(db.releases[r], Act(db, q, action, actor, expected, lapsed).releases[r], k)
    ensures Covers(Act(db, q, action, actor, expected, lapsed).fleet, r, Prefix(db.releases[r], k))
  {
    ActOnly(db, q, action, actor, expected, lapsed);
    if !Admitted(db, q, action, expected) {
      ActIgnored(db, q, action, actor, expected, lapsed);
    } else if MustAsk(db, q, action, lapsed) {
      ActAsks(db, q, action, actor, expected, lapsed);
      AskFirstOpensNothing(db, q, action, actor, lapsed);
    } else if Refused(db, db.releases[q], q, action) {
      ActIgnored(db, q, action, actor, expected, lapsed);
    } else {
      ActExecutes(db, q, action, actor, expected, lapsed);
      PerformCovers(db, q, action, actor, k);
    }
  }

  lemma DecideOpensNothing(db: Database, a: nat, actor: nat, approve: bool, lapsed: set<nat>, r: nat)
    requires Known(db, r)
    ensures var next := Decide(db, a, actor, approve, lapsed); Known(next, r) && next.releases[r].stages == db.releases[r].stages
  {
    if Decidable(db, a, actor, approve, lapsed) {
      DecideOnly(db, a, actor, approve, lapsed);
      DecideShape(db, a, actor, approve, lapsed);
    }
  }

  /** Of the decisions of a gate only a pass opens anything, and it opens the next stage. */
  lemma CarryOutCovers(db: Database, r: nat, metrics: G.Metrics, decision: G.Decision, bytesMatch: bool, k: nat)
    requires Known(db, r) && OnCourse(db.releases[r])
    requires var row := db.releases[r];
      var carried := CarryOut(Judged(db, r, row.current, metrics, decision), r, row.current, decision, HasNext(row, row.current), bytesMatch);
      carried.Some? && Opened(row, carried.value.releases[r], k)
    ensures var row := db.releases[r];
      var carried := CarryOut(Judged(db, r, row.current, metrics, decision), r, row.current, decision, HasNext(row, row.current), bytesMatch);
      Covers(carried.value.fleet, r, Prefix(row, k))
  {
    var row := db.releases[r];
    var judged := Judged(db, r, row.current, metrics, decision);
    assert Opened(judged.releases[r],
                  CarryOut(judged, r, row.current, decision, HasNext(row, row.current), bytesMatch).value.releases[r], k);
    if decision == G.Pass && HasNext(row, row.current) {
      ActivateOpensOne(judged, r, row.current, k);
      ActivateCovers(judged, r, row.current);
    }
  }

  lemma SettleOpensNothing(db: Database, r: nat)
    requires Known(db, r)
    ensures Settle(db, r).fleet == db.fleet && Settle(db, r).releases[r].stages == db.releases[r].stages
  {
  }

  lemma CommitGateCovers(db: Database, g: nat, bytesMatch: bool, r: nat, k: nat)
    requires GatesCurrent(db) && AllWell(db) && Known(db, r) && Known(CommitGate(db, g, bytesMatch), r)
    requires Opened(db.releases[r], CommitGate(db, g, bytesMatch).releases[r], k)
    ensures Covers(CommitGate(db, g, bytesMatch).fleet, r, Prefix(db.releases[r], k))
  {
    assert CommitGate(db, g, bytesMatch) != db;
    CommitIsCarried(db, g, bytesMatch);
    CommitGateOnly(db, g, bytesMatch);
    var job := db.gates[g];
    assert WellFormed(db.releases[r], |db.fleet.devices|);
    var carried := CarryOut(Judged(db, r, job.stage, job.metrics, job.decision), r, job.stage, job.decision,
                            HasNext(db.releases[r], job.stage), bytesMatch);
    SettleOpensNothing(carried.value, r);
    CarryOutCovers(db, r, job.metrics, job.decision, bytesMatch, k);
  }

  lemma CommitStartCovers(db: Database, s: nat, r: nat, k: nat)
    requires StartsCurrent(db) && Known(db, r) && Known(CommitStart(db, s), r)
    requires Opened(db.releases[r], CommitStart(db, s).releases[r], k)
    ensures Covers(CommitStart(db, s).fleet, r, Prefix(db.releases[r], k))
  {
    assert CommitStart(db, s) != db;
    CommitStartOnly(db, s);
    var started := SetRelease(db, r, Move(db.releases[r], Running).(current := 0));
    ActivateOpensOne(started, r, 0, k);
    ActivateCovers(started, r, 0);
  }

  lemma TakeReportOpensNothing(db: Database, report: F.Report, r: nat)
    requires Known(db, r)
    ensures Known(TakeReport(db, report), r) && TakeReport(db, report).releases[r].stages == db.releases[r].stages
  {
  }

  /** Every other step leaves the stages of a frozen release as they are. */
  lemma OthersOpenNothing(db: Database, step: Step, r: nat)
    requires Sound(db) && Known(db, r) && db.releases[r].stages != []
    requires !step.Operate? && !step.GateCommit? && !step.StartCommit?
    ensures Known(Next(db, step), r) && Next(db, step).releases[r].stages == db.releases[r].stages
  {
    if step.DecideApproval? {
      NextDecides(db, step.approval, step.actor, step.approve, step.lapsed);
      DecideOpensNothing(db, step.approval, step.actor, step.approve, step.lapsed, r);
    } else if step.DeliverReport? {
      NextReports(db, step.report);
      TakeReportOpensNothing(db, step.report, r);
    } else if step.CompromiseKey? || step.EditDraft? || step.ValidateRelease? {
      RareOpenNothing(db, step, r);
    } else {
      RowsUntouched(db, step, r);
    }
  }

  lemma RareOpenNothing(db: Database, step: Step, r: nat)
    requires Sound(db) && Known(db, r) && db.releases[r].stages != []
    requires step.CompromiseKey? || step.EditDraft? || step.ValidateRelease?
    ensures Known(Next(db, step), r) && Next(db, step).releases[r].stages == db.releases[r].stages
  {
    match step
    case CompromiseKey(key) => assert Next(db, step) == Compromise(db, key);
    case EditDraft(q, v) => assert Next(db, step) == Edit(db, q, v);
    case ValidateRelease(q, v, roster, hmac, name, salt) =>
      assert Next(db, step) == Freeze(db, q, v, roster, hmac, name, salt);
      assert WellFormed(db.releases[r], |db.fleet.devices|);
      if q == r && db.releases[r].status == Blocked && Roster(db, roster) { OnlyDraftsFreeze(db, r, roster); }
  }

  lemma StepCovers(db: Database, step: Step, r: nat, k: nat)
    requires Invariant(db) && Known(db, r) && Known(Next(db, step), r) && Opened(db.releases[r], Next(db, step).releases[r], k)
    ensures Covers(Next(db, step).fleet, r, Prefix(db.releases[r], k))
  {
    if step.Operate? {
      NextOperates(db, step.release, step.action, step.actor, step.expected, step.lapsed);
      ActCovers(db, step.release, step.action, step.actor, step.expected, step.lapsed, r, k);
    } else if step.GateCommit? {
      NextCommitsGate(db, step.gate, step.bytesMatch);
      CommitGateCovers(db, step.gate, step.bytesMatch, r, k);
    } else if step.StartCommit? {
      NextCommitsStart(db, step.job);
      CommitStartCovers(db, step.job, r, k);
    } else {
      OthersOpenNothing(db, step, r);
    }
  }

  /** In every reachable state: a step that opens a stage of a release leaves every eligible member of
      that stage's target prefix with an assignment of the release. */
  lemma OpenedStageCovered(steps: seq<Step>, step: Step, r: nat, k: nat)
    requires r < |Run(steps).releases| && r < |Next(Run(steps), step).releases|
    requires Opened(Run(steps).releases[r], Next(Run(steps), step).releases[r], k)
    ensures Covers(Next(Run(steps), step).fleet, r, Prefix(Run(steps).releases[r], k))
  {
    EveryRun(steps);
    StepCovers(Run(steps), step, r, k);
  }
}
