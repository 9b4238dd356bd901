/** What devices may be told to install, over every run; and what stale requests do: nothing. */
module RolloutArtifacts {
  import opened Wrappers
  import opened ReleaseMachine
  import opened Rollout
  import opened RolloutInvariants
  import opened RolloutSteps
  import opened RolloutHistory
  import opened RolloutTheorems
  import opened RolloutEffects
  import F = Fleet
  import H = FleetProperties
  import G = GateEvaluator

  /** The release's target, or the rollback artifact it was created with. */
  predicate Rightful(row: Release, artifact: F.Artifact) {
    artifact == row.artifact || Some(artifact) == row.rollback
  }

  ghost predicate Aimed(rows: seq<F.Assignment>, releases: seq<Release>) {
    forall i :: 0 <= i < |rows| && rows[i].release < |releases| ==> Rightful(releases[rows[i].release], rows[i].artifact)
  }

  /** An operation that points assignments only at artifacts of their own release. */
  predicate Aims(op: H.Op, rows: seq<F.Assignment>, releases: seq<Release>) {
    match op
    case DoInstall(r, _, _, artifact) => r < |releases| ==> artifact == releases[r].artifact
    case DoRetarget(i, artifact, _) =>
      i < |rows| && (rows[i].release < |releases| ==> Some(artifact) == releases[rows[i].release].rollback)
    case _ => true
  }

  lemma ApplyAims(f: F.Fleet, g: F.Fleet, op: H.Op, releases: seq<Release>)
    requires H.Advanced(f, g) && Aims(op, f.assignments, releases) && Aimed(g.assignments, releases)
    ensures Aimed(H.Apply(g, op).assignments, releases)
  {
  }

  lemma {:induction false} RunAims(f: F.Fleet, ops: seq<H.Op>, releases: seq<Release>)
    requires H.Consistent(f) && Aimed(f.assignments, releases)
    requires forall op :: op in ops ==> Aims(op, f.assignments, releases)
    ensures Aimed(H.Run(f, ops).assignments, releases)
  {
    if ops != [] {
      var before := ops[..|ops| - 1];
      RunAims(f, before, releases);
      H.RunKeeps(f, before);
      ApplyAims(f, H.Run(f, before), ops[|ops| - 1], releases);
    }
  }

  // ---- over every run ----

  lemma AimStep(db: Database, step: Step)
    requires Invariant(db) && Aimed(db.fleet.assignments, db.releases)
    ensures Aimed(Next(db, step).fleet.assignments, Next(db, step).releases)
  {
    var next := Next(db, step);
    var ops := StepIsRun(db, step);
    forall op | op in ops ensures Aims(op, db.fleet.assignments, db.releases) {
      assert Fits(op, db.fleet.assignments, db.releases, next.releases);
    }
    RunAims(db.fleet, ops, db.releases);
    StepKeeps(db, step);
    forall i | 0 <= i < |next.fleet.assignments| && next.fleet.assignments[i].release < |next.releases|
      ensures Rightful(next.releases[next.fleet.assignments[i].release], next.fleet.assignments[i].artifact)
    {
      var a := next.fleet.assignments[i];
      OwnerIsOld(db, next, i);
      assert Moved(db.releases[a.release], next.releases[a.release]);
    }
  }

  /** Whoever owns an assignment after a step already existed before it. */
  lemma OwnerIsOld(db: Database, next: Database, i: nat)
    requires Contained(db) && Advance(db, next) && i < |next.fleet.assignments|
    ensures next.fleet.assignments[i].release < |db.releases|
  {
    if i < |db.fleet.assignments| {
      assert Held(db, db.fleet.assignments[i]);
    } else {
      assert Enrolment(db, next, next.fleet.assignments[i]);
    }
  }

  lemma {:induction false} AlwaysAimed(steps: seq<Step>)
    ensures Aimed(Run(steps).fleet.assignments, Run(steps).releases)
  {
    if steps != [] {
      var before := steps[..|steps| - 1];
      AlwaysAimed(before);
      EveryRun(before);
      AimStep(Run(before), steps[|steps| - 1]);
    }
  }

  /** No device is ever pointed at anything but its release's target or that release's own rollback
      artifact, and a converged one reported the digest of one of the two. */
  lemma OnlyRightfulArtifacts(steps: seq<Step>, i: nat)
    requires i < |Run(steps).fleet.assignments|
    ensures var db := Run(steps);
      var a := db.fleet.assignments[i];
      && Known(db, a.release) && Rightful(db.releases[a.release], a.artifact)
      && (a.state in {F.Converged, F.RolledBack} ==> ReportedDigest(db, a))
  {
    EveryRun(steps);
    AlwaysAimed(steps);
    var db := Run(steps);
    var a := db.fleet.assignments[i];
    assert Held(db, a);
    if a.state in {F.Converged, F.RolledBack} {
      assert H.Witnessed(db.fleet, i);
      var k :| 0 <= k < |db.fleet.reports| && db.fleet.reports[k].device == a.device
        && db.fleet.reports[k].generation == a.generation && db.fleet.reports[k].digest == a.artifact.digest;
      assert db.fleet.reports[k].digest == a.artifact.digest;
    }
  }

  ghost predicate ReportedDigest(db: Database, a: F.Assignment)
    requires Known(db, a.release)
  {
    exists k :: 0 <= k < |db.fleet.reports| && db.fleet.reports[k].device == a.device
      && (db.fleet.reports[k].digest == db.releases[a.release].artifact.digest
          || (db.releases[a.release].rollback.Some? && db.fleet.reports[k].digest == db.releases[a.release].rollback.value.digest))
  }
}
