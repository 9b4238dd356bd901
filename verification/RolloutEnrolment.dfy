/** Whom a step assigns, and that whoever it assigns is told. */
module RolloutEnrolment {
  import opened Wrappers
  import opened ReleaseMachine
  import opened Apportionment
  import opened Rollout
  import opened RolloutFrames
  import opened RolloutInvariants
  import opened RolloutSteps
  import opened RolloutLedger
  import opened RolloutTheorems
  import opened RolloutLimits
  import opened RolloutCoverage
  import F = Fleet
  import H = FleetProperties
  import G = GateEvaluator

  /** The new row's device is to reach the generation after the last it was told, and has an install
      command for the row at that generation. */
  ghost predicate Told(f: F.Fleet, g: F.Fleet, i: nat)
    requires i < |g.assignments|
  {
    var a := g.assignments[i];
    && a.device < |f.devices| && a.device < |g.devices|
    && a.generation == f.devices[a.device].desired + 1 == g.devices[a.device].desired
    && F.Command(F.InstallCommand, i, a.device, a.generation) in g.commands
  }

  /** Every new row is told; in a careful step only eligible devices get one. */
  ghost predicate Joins(f: F.Fleet, g: F.Fleet, careful: bool) {
    forall i: nat :: |f.assignments| <= i < |g.assignments| ==>
      Told(f, g, i) && (careful ==> f.devices[g.assignments[i].device].eligible)
  }

  // ---- installing ----

  ghost predicate Different(members: seq<nat>) { forall i, j :: 0 <= i < j < |members| ==> members[i] != members[j] }

  /** Rows of these devices joined, and no other device was told anything. */
  ghost predicate Joining(f: F.Fleet, g: F.Fleet, members: seq<nat>) {
    && H.Consistent(g) && |g.devices| == |f.devices| && |f.assignments| <= |g.assignments|
    && (forall d :: 0 <= d < |f.devices| && d !in members ==> g.devices[d].desired == f.devices[d].desired)
    && forall i: nat :: |f.assignments| <= i < |g.assignments| ==> g.assignments[i].device in members && Told(f, g, i)
  }

  /** At most a row of this device joined, and no other device was told anything. */
  ghost predicate Joined(g: F.Fleet, h: F.Fleet, device: nat) {
    && |h.devices| == |g.devices| && g.assignments <= h.assignments && g.commands <= h.commands
    && (forall d :: 0 <= d < |g.devices| && d != device ==> h.devices[d].desired == g.devices[d].desired)
    && forall i: nat :: |g.assignments| <= i < |h.assignments| ==> h.assignments[i].device == device && Told(g, h, i)
  }

  lemma InstallJoins(g: F.Fleet, r: nat, device: nat, stage: nat, artifact: F.Artifact)
    requires H.Consistent(g)
    ensures Joined(g, H.Apply(g, H.DoInstall(r, device, stage, artifact)), device)
  {
    if device < |g.devices| && F.Find(g.assignments, r, device).None? {
      var generation := Max(1, g.devices[device].desired + 1);
      H.InstallIsStored(g, device, generation);
      var h := F.Install(g, r, device, stage, artifact);
      assert h.commands == g.commands + [F.Command(F.InstallCommand, |g.assignments|, device, generation)];
      assert h.commands[|g.commands|] in h.commands;
      assert g.devices[device].desired >= 0;
    }
  }

  lemma JoiningMore(f: F.Fleet, g: F.Fleet, h: F.Fleet, members: seq<nat>)
    requires members != [] && Different(members) && Joining(f, g, members[..|members| - 1])
    requires H.Consistent(h) && Joined(g, h, members[|members| - 1])
    ensures Joining(f, h, members)
  {
    var n, last := |members| - 1, members[|members| - 1];
    assert last !in members[..n];
    forall i: nat | |f.assignments| <= i < |h.assignments| ensures h.assignments[i].device in members && Told(f, h, i) {
      if i < |g.assignments| {
        assert g.assignments[i].device in members[..n] && Told(f, g, i);
        assert h.assignments[i] == g.assignments[i];
      } else {
        assert Told(g, h, i) && g.devices[last].desired == f.devices[last].desired;
      }
    }
  }

  lemma {:induction false} InstallsJoin(f: F.Fleet, r: nat, stage: nat, artifact: F.Artifact, members: seq<nat>)
    requires H.Consistent(f) && Different(members)
    ensures Joining(f, H.Run(f, InstallOps(r, stage, artifact, members)), members)
  {
    if members != [] {
      var n, ops := |members| - 1, InstallOps(r, stage, artifact, members);
      assert ops[..n] == InstallOps(r, stage, artifact, members[..n]);
      InstallsJoin(f, r, stage, artifact, members[..n]);
      var g := H.Run(f, ops[..n]);
      H.ApplyKeeps(g, ops[n]);
      InstallJoins(g, r, members[n], stage, artifact);
      JoiningMore(f, g, H.Apply(g, ops[n]), members);
    }
  }

  lemma {:induction false} MissingAreEligible(f: F.Fleet, r: nat, members: seq<nat>)
    requires Different(members)
    ensures Different(Missing(f, r, members))
    ensures forall m :: m in Missing(f, r, members) ==> m < |f.devices| && f.devices[m].eligible
  {
    if members != [] {
      var n := |members| - 1;
      MissingAreEligible(f, r, members[..n]);
      assert members[n] !in members[..n];
      assert members[n] !in Missing(f, r, members[..n]);
    }
  }

  lemma {:induction false} AddsNone(f: F.Fleet, ops: seq<H.Op>)
    requires forall op :: op in ops ==> !op.DoInstall?
    ensures |H.Run(f, ops).assignments| == |f.assignments|
  {
    if ops != [] {
      assert ops[|ops| - 1] in ops;
      AddsNone(f, ops[..|ops| - 1]);
    }
  }

  // ---- step by step ----

  lemma PrefixIsDifferent(row: Release, devices: nat, k: nat)
    requires WellFormed(row, devices) && k < |row.stages|
    ensures Different(Prefix(row, k))
  {
  }

  lemma ActivateJoins(db: Database, r: nat, completed: nat)
    requires Known(db, r) && H.Consistent(db.fleet) && Activate(db, r, completed).Some?
    requires completed < |db.releases[r].stages| ==> Different(Prefix(db.releases[r], completed))
    ensures Joins(db.fleet, Activate(db, r, completed).value.fleet, true)
  {
    var row := db.releases[r];
    if completed < |row.stages| {
      var missing := Missing(db.fleet, r, Prefix(row, completed));
      MissingAreEligible(db.fleet, r, Prefix(row, completed));
      InstallsJoin(db.fleet, r, completed + 1, row.artifact, missing);
      var g := H.Run(db.fleet, InstallOps(r, completed + 1, row.artifact, missing));
      forall i: nat | |db.fleet.assignments| <= i < |g.assignments| ensures db.fleet.devices[g.assignments[i].device].eligible {
        assert g.assignments[i].device in missing;
      }
    }
  }

  lemma CommitGateJoins(db: Database, g: nat, bytesMatch: bool)
    requires GatesCurrent(db) && AllWell(db) && H.Consistent(db.fleet)
    ensures Joins(db.fleet, CommitGate(db, g, bytesMatch).fleet, true)
  {
    if CommitGate(db, g, bytesMatch) != db {
      CommitIsCarried(db, g, bytesMatch);
      var job := db.gates[g];
      var r := job.release;
      var judged := Judged(db, r, job.stage, job.metrics, job.decision);
      var carried := CarryOut(judged, r, job.stage, job.decision, HasNext(db.releases[r], job.stage), bytesMatch);
      SettleOpensNothing(carried.value, r);
      if job.decision == G.Pass && HasNext(db.releases[r], job.stage) {
        PrefixIsDifferent(db.releases[r], |db.fleet.devices|, job.stage);
        assert Prefix(judged.releases[r], job.stage) == Prefix(db.releases[r], job.stage);
        ActivateJoins(judged, r, job.stage);
      }
      if job.decision == G.Rollback {
        AddsNone(db.fleet, RetargetOps(db.fleet.assignments, r, db.releases[r].rollback.value, RETARGETABLE, false));
      }
    }
  }

  lemma CommitStartJoins(db: Database, s: nat)
    requires AllWell(db) && H.Consistent(db.fleet)
    ensures Joins(db.fleet, CommitStart(db, s).fleet, true)
  {
    if CommitStart(db, s) != db {
      var r := db.starts[s].release;
      var started := SetRelease(db, r, Move(db.releases[r], Running).(current := 0));
      if 0 < |db.releases[r].stages| {
        PrefixIsDifferent(db.releases[r], |db.fleet.devices|, 0);
        assert Prefix(started.releases[r], 0) == Prefix(db.releases[r], 0);
      }
      ActivateJoins(started, r, 0);
    }
  }

  lemma OpenFirstJoins(db: Database, r: nat)
    requires Known(db, r) && H.Consistent(db.fleet) && Different(db.releases[r].members)
    ensures Joins(db.fleet, OpenFirst(db, r).fleet, false)
  {
    var row := db.releases[r];
    if row.stages != [] {
      var count := FirstWave(|row.members|, row.stages[0].percentage);
      InstallsJoin(db.fleet, r, 1, row.artifact, if 0 <= count <= |row.members| then row.members[..count] else []);
    }
  }

  lemma EffectsJoin(db: Database, r: nat, action: ReleaseAction, version: int, actor: nat)
    requires Known(db, r) && H.Consistent(db.fleet) && (action == Start ==> Different(db.releases[r].members))
    ensures Joins(db.fleet, SideEffects(db, r, action, version, actor).fleet, false)
  {
    if action == Start {
      OpenFirstJoins(db, r);
    } else if action == Rollback && db.releases[r].rollback.Some? {
      AddsNone(db.fleet, RetargetOps(db.fleet.assignments, r, db.releases[r].rollback.value, STANDING, false));
    } else if action == Abort {
      AddsNone(db.fleet, WithdrawOps(db.fleet.assignments, r));
    }
  }

  lemma ActJoins(db: Database, r: nat, action: ReleaseAction, actor: nat, expected: int, lapsed: set<nat>)
    requires AllWell(db) && H.Consistent(db.fleet)
    ensures Joins(db.fleet, Act(db, r, action, actor, expected, lapsed).fleet, false)
  {
    if !Admitted(db, r, action, expected) {
      ActIgnored(db, r, action, actor, expected, lapsed);
    } else if MustAsk(db, r, action, lapsed) {
      ActAsks(db, r, action, actor, expected, lapsed);
      AskFirstAssignsNobody(db, r, action, actor, lapsed);
    } else if Refused(db, db.releases[r], r, action) {
      ActIgnored(db, r, action, actor, expected, lapsed);
    } else {
      ActExecutes(db, r, action, actor, expected, lapsed);
      PerformJoins(db, r, action, actor);
      RecordAssignsNobody(Perform(db, r, action, actor), r, action, db.releases[r].version);
    }
  }

  lemma PerformJoins(db: Database, r: nat, action: ReleaseAction, actor: nat)
    requires AllWell(db) && H.Consistent(db.fleet) && Known(db, r) && Transition(db.releases[r].status, action).Some?
    ensures Joins(db.fleet, Perform(db, r, action, actor).fleet, false)
  {
    var row := db.releases[r];
    assert WellFormed(row, |db.fleet.devices|);
    EffectsJoin(SetRelease(db, r, Move(row, Transition(row.status, action).value)), r, action, row.version, actor);
  }

  lemma RecordAssignsNobody(db: Database, r: nat, action: ReleaseAction, version: int)
    ensures Record(db, r, action, version).fleet == db.fleet
  {
  }

  lemma AskFirstAssignsNobody(db: Database, r: nat, action: ReleaseAction, actor: nat, lapsed: set<nat>)
    requires Known(db, r) && ControlOf(action).Some?
    ensures AskFirst(db, r, action, actor, lapsed).fleet == db.fleet
  {
  }

  lemma OthersAddNone(db: Database, step: Step)
    requires Invariant(db) && Enrolled(db, Next(db, step))
    requires !step.Operate? && !step.GateCommit? && !step.StartCommit?
    ensures |Next(db, step).fleet.assignments| <= |db.fleet.assignments|
  {
    if |Next(db, step).fleet.assignments| > |db.fleet.assignments| {
      var a := Next(db, step).fleet.assignments[|db.fleet.assignments|];
      assert Enrolment(db, Next(db, step), a);
      OthersOpenNothing(db, step, a.release);
    }
  }

  /** In every reachable state: whoever a step assigns is told, at the generation after its last one, and
      only an operator's own start assigns devices that are not eligible any more. */
  lemma NewRowsAreTold(steps: seq<Step>, step: Step)
    ensures Joins(Run(steps).fleet, Next(Run(steps), step).fleet, !step.Operate?)
  {
    var db := Run(steps);
    EveryRun(steps);
    if step.Operate? {
      NextOperates(db, step.release, step.action, step.actor, step.expected, step.lapsed);
      ActJoins(db, step.release, step.action, step.actor, step.expected, step.lapsed);
    } else if step.GateCommit? {
      NextCommitsGate(db, step.gate, step.bytesMatch);
      CommitGateJoins(db, step.gate, step.bytesMatch);
    } else if step.StartCommit? {
      NextCommitsStart(db, step.job);
      CommitStartJoins(db, step.job);
    } else {
      StepFine(db, step);
      OthersAddNone(db, step);
    }
  }
}
