/** Blast radius and promotion history: invariants that relate assignments and evaluations to releases. */
module RolloutHistory {
  import opened Wrappers
  import opened ReleaseMachine
  import opened Apportionment
  import opened Rollout
  import opened RolloutFrames
  import opened RolloutInvariants
  import opened RolloutSteps
  import F = Fleet
  import H = FleetProperties
  import G = GateEvaluator

  // ---- blast radius ----

  /** The assignment belongs to an opened stage of its release, and to that stage's wave. */
  ghost predicate Held(db: Database, a: F.Assignment) {
    && Known(db, a.release)
    && (var row := db.releases[a.release];
        && 1 <= a.stage <= |row.stages| && row.stages[a.stage - 1].status != Pending && a.stage <= row.current
        && InWave(row, a.stage, a.device))
  }

  ghost predicate Contained(db: Database) {
    forall i :: 0 <= i < |db.fleet.assignments| ==> Held(db, db.fleet.assignments[i])
  }

  lemma HeldKept(before: Database, after: Database, i: nat)
    requires Advance(before, after) && i < |before.fleet.assignments| && Held(before, before.fleet.assignments[i])
    ensures Held(after, after.fleet.assignments[i])
  {
    var a := before.fleet.assignments[i];
    assert Moved(before.releases[a.release], after.releases[a.release]);
    assert Percents(after.releases[a.release])[a.stage - 1] == Percents(before.releases[a.release])[a.stage - 1];
  }

  lemma ContainedKept(before: Database, after: Database)
    requires Advance(before, after) && Contained(before)
    ensures Contained(after)
  {
    forall i | 0 <= i < |after.fleet.assignments| ensures Held(after, after.fleet.assignments[i]) {
      if i < |before.fleet.assignments| {
        HeldKept(before, after, i);
      } else {
        assert Enrolment(before, after, after.fleet.assignments[i]);
      }
    }
  }

  // ---- counting exposed devices ----

  /** Counts only look at the release and stage columns, and rows elsewhere do not matter. */
  lemma {:induction false} CountSame(a: seq<F.Assignment>, b: seq<F.Assignment>, r: nat, stage: nat)
    requires |a| <= |b|
    requires forall i :: 0 <= i < |a| ==> b[i].release == a[i].release && b[i].stage == a[i].stage
    requires forall i :: |a| <= i < |b| ==> b[i].release != r || b[i].stage > stage
    ensures CountExposed(b, r, stage) == CountExposed(a, r, stage)
  {
    if |b| > |a| {
      CountSame(a, b[..|b| - 1], r, stage);
    } else if a != [] {
      CountSame(a[..|a| - 1], b[..|b| - 1], r, stage);
    }
  }

  /** A release's exposure up to a stage that was opened before the step does not change in it. */
  lemma {:induction false} ExposureKept(before: Database, after: Database, r: nat, stage: nat)
    requires Advance(before, after) && AllWell(before) && Known(before, r)
    requires after.releases[r] == before.releases[r]
      || (1 <= stage <= |before.releases[r].stages| && before.releases[r].stages[stage - 1].status != Pending)
    ensures CountExposed(after.fleet.assignments, r, stage) == CountExposed(before.fleet.assignments, r, stage)
  {
    forall i | |before.fleet.assignments| <= i < |after.fleet.assignments|
      ensures after.fleet.assignments[i].release != r || after.fleet.assignments[i].stage > stage
    {
      var a := after.fleet.assignments[i];
      assert Enrolment(before, after, a);
      if a.release == r && a.stage <= stage {
        assert WellFormed(before.releases[r], |before.fleet.devices|);
        PendingLast(before.releases[r], |before.fleet.devices|, a.stage - 1, stage - 1);
        assert false;
      }
    }
    CountSame(before.fleet.assignments, after.fleet.assignments, r, stage);
  }

  /** Behind a waiting stage every stage is waiting. */
  lemma PendingLast(row: Release, n: nat, i: nat, j: nat)
    requires WellFormed(row, n) && i <= j < |row.stages| && row.stages[i].status == Pending
    ensures row.stages[j].status == Pending
  {
  }

  // ---- promotion history ----

  /** Every passed stage has a recorded, healthy pass over exactly the devices exposed up to it. */
  ghost predicate StageBacked(db: Database, r: nat, k: nat)
    requires r < |db.releases| && k < |db.releases[r].stages|
  {
    db.releases[r].stages[k].status == Passed ==>
      IsBacked(db.evaluations, r, db.releases[r], k + 1, CountExposed(db.fleet.assignments, r, k + 1))
  }

  ghost predicate Backed(db: Database) {
    forall r: nat, k: nat :: r < |db.releases| && k < |db.releases[r].stages| ==> StageBacked(db, r, k)
  }

  lemma BackingKept(before: seq<Evaluation>, after: seq<Evaluation>, r: nat, a: Release, b: Release, stage: nat, n: nat)
    requires before <= after && b.policy == a.policy && IsBacked(before, r, a, stage, n)
    ensures IsBacked(after, r, b, stage, n)
  {
    var e :| 0 <= e < |before| && Backing(before[e], r, a, stage, n);
    assert after[e] == before[e] && Backing(after[e], r, b, stage, n);
  }

  lemma StageBackedKept(before: Database, after: Database, r: nat, k: nat)
    requires Advance(before, after) && AllWell(before) && AllWell(after) && Backed(before)
    requires r < |after.releases| && k < |after.releases[r].stages| && after.releases[r].stages[k].status == Passed
    ensures StageBacked(after, r, k)
  {
    PassedHasPast(before, after, r, k);
    var a, b := before.releases[r], after.releases[r];
    assert Moved(a, b) && Percents(b) == Percents(a);
    assert PassBacked(before, after, r, k) && StageBacked(before, r, k);
    ExposureKept(before, after, r, k + 1);
    if a.stages[k].status == Passed {
      BackingKept(before.evaluations, after.evaluations, r, a, b, k + 1, CountExposed(before.fleet.assignments, r, k + 1));
    }
  }

  /** A stage that has passed was there before the step. */
  lemma PassedHasPast(before: Database, after: Database, r: nat, k: nat)
    requires RowsMove(before, after) && AllWell(before) && AllWell(after)
    requires r < |after.releases| && k < |after.releases[r].stages| && after.releases[r].stages[k].status == Passed
    ensures r < |before.releases| && before.releases[r].stages != []
  {
    assert WellFormed(after.releases[r], |after.fleet.devices|);
    assert r < |before.releases|;
    assert Moved(before.releases[r], after.releases[r]);
  }

  lemma BackedKept(before: Database, after: Database)
    requires Advance(before, after) && AllWell(before) && AllWell(after) && Backed(before)
    ensures Backed(after)
  {
    forall r: nat, k: nat | r < |after.releases| && k < |after.releases[r].stages| ensures StageBacked(after, r, k) {
      if after.releases[r].stages[k].status == Passed {
        StageBackedKept(before, after, r, k);
      }
    }
  }

  // ---- snapshots ----

  lemma CurrentKept(before: Database, after: Database, job: GateJob)
    requires Advance(before, after) && AllWell(before) && Current(before, job)
    ensures Current(after, job)
  {
    if !job.Finished? {
      var r := job.release;
      assert Moved(before.releases[r], after.releases[r]);
      if job.version == after.releases[r].version {
        ExposureKept(before, after, r, job.stage);
      }
    }
  }

  lemma StartCurrentKept(before: Database, after: Database, job: StartJob)
    requires Advance(before, after) && StartCurrent(before, job)
    ensures StartCurrent(after, job)
  {
    if !job.StartDone? {
      assert Moved(before.releases[job.release], after.releases[job.release]);
    }
  }

  lemma GatesKept(db: Database, step: Step)
    requires Sound(db) && GatesCurrent(db) && Advance(db, Next(db, step))
    ensures GatesCurrent(Next(db, step))
  {
    var next := Next(db, step);
    GatesAreMade(db, step);
    forall g | 0 <= g < |next.gates| ensures Current(next, next.gates[g]) {
      if g < |db.gates| && next.gates[g] == db.gates[g] { CurrentKept(db, next, db.gates[g]); }
    }
  }

  /** Every snapshot is an old one or still current. */
  ghost predicate GatesMade(db: Database, next: Database) {
    forall g :: 0 <= g < |next.gates| ==> (g < |db.gates| && next.gates[g] == db.gates[g]) || Current(next, next.gates[g])
  }

  lemma GatesAreMade(db: Database, step: Step)
    requires Sound(db) && GatesCurrent(db)
    ensures GatesMade(db, Next(db, step))
  {
    if step.GateCapture? {
      assert Next(db, step) == CaptureGate(db, step.release, step.stage);
      CaptureMakes(db, step.release, step.stage);
    } else if step.GateMeasure? {
      assert Next(db, step) == MeasureGate(db, step.gate, step.telemetry);
      MeasureMakes(db, step.gate, step.telemetry);
    } else if step.GateCommit? {
      NextCommitsGate(db, step.gate, step.bytesMatch);
      CommitMakes(db, step.gate, step.bytesMatch);
    } else {
      StepFrame(db, step);
    }
  }

  lemma CaptureMakes(db: Database, r: nat, stage: nat)
    requires Sound(db)
    ensures GatesMade(db, CaptureGate(db, r, stage))
  {
    if Known(db, r) { assert WellFormed(db.releases[r], |db.fleet.devices|); }
  }

  lemma MeasureMakes(db: Database, j: nat, t: Telemetry)
    requires GatesCurrent(db)
    ensures GatesMade(db, MeasureGate(db, j, t))
  {
    if j < |db.gates| { assert Current(db, db.gates[j]); }
  }

  lemma CommitMakes(db: Database, g: nat, bytesMatch: bool)
    ensures GatesMade(db, CommitGate(db, g, bytesMatch))
  {
    CommitFinishes(db, g, bytesMatch);
  }

  lemma CommitFinishes(db: Database, g: nat, bytesMatch: bool)
    ensures var next := CommitGate(db, g, bytesMatch);
      next.gates == db.gates || (g < |db.gates| && next.gates == db.gates[g := Finished])
  {
  }
}
