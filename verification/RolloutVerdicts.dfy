/** Exactly what the jobs do: measuring, carrying out a gate's decision, starting what is scheduled. */
module RolloutVerdicts {
  import opened Wrappers
  import opened ReleaseMachine
  import opened Rollout
  import opened RolloutFrames
  import opened RolloutInvariants
  import opened RolloutSteps
  import opened RolloutLedger
  import opened RolloutTheorems
  import opened RolloutLimits
  import opened RolloutGuards
  import R = RolloutReports
  import F = Fleet
  import H = FleetProperties
  import G = GateEvaluator

  // ---- counting ----

  /** The release's rows in stages up to this one. */
  ghost function Exposed(rows: seq<F.Assignment>, r: nat, stage: nat): set<nat> {
    set i: nat | i < |rows| && rows[i].release == r && rows[i].stage <= stage
  }

  /** Those of them in a state. */
  ghost function ExposedIn(rows: seq<F.Assignment>, r: nat, stage: nat, state: F.AssignmentState): set<nat> {
    set i: nat | i < |rows| && rows[i].release == r && rows[i].stage <= stage && rows[i].state == state
  }

  lemma {:induction false} CountsExposed(rows: seq<F.Assignment>, r: nat, stage: nat)
    ensures CountExposed(rows, r, stage) == |Exposed(rows, r, stage)|
  {
    if rows != [] {
      var n := |rows| - 1;
      CountsExposed(rows[..n], r, stage);
      assert Exposed(rows, r, stage) ==
        if rows[n].release == r && rows[n].stage <= stage then Exposed(rows[..n], r, stage) + {n} else Exposed(rows[..n], r, stage);
    }
  }

  lemma {:induction false} CountsIn(rows: seq<F.Assignment>, r: nat, stage: nat, state: F.AssignmentState)
    ensures CountIn(rows, r, stage, state) == |ExposedIn(rows, r, stage, state)|
  {
    if rows != [] {
      CountsIn(rows[..|rows| - 1], r, stage, state);
      ExposedInNext(rows, r, stage, state);
    }
  }

  lemma ExposedInNext(rows: seq<F.Assignment>, r: nat, stage: nat, state: F.AssignmentState)
    requires rows != []
    ensures var n := |rows| - 1;
      var (before, last) := (ExposedIn(rows[..n], r, stage, state), rows[n]);
      && n !in before
      && ExposedIn(rows, r, stage, state) == if last.release == r && last.stage <= stage && last.state == state then before + {n} else before
  {
  }

  /** What both evaluations count in the assignment table. */
  ghost predicate Counts(m: G.Metrics, rows: seq<F.Assignment>, r: nat, stage: nat) {
    && m.exposed == |Exposed(rows, r, stage)| && m.installFailures == |ExposedIn(rows, r, stage, F.Failed)|
    && m.converged == |ExposedIn(rows, r, stage, F.Converged)|
  }

  // ---- snapshots and measurements ----

  /** A gate is looked at when its release runs and the stage is active. */
  lemma CaptureExactly(db: Database, r: nat, stage: nat)
    ensures var next := Next(db, GateCapture(r, stage));
      if Known(db, r) && 1 <= stage <= |db.releases[r].stages| && db.releases[r].status == Running && db.releases[r].stages[stage - 1].status == Active
      then next == db.(gates := db.gates + [Captured(r, stage, db.releases[r].version)]) else next == db
  {
    assert Next(db, GateCapture(r, stage)) == CaptureGate(db, r, stage);
  }

  /** The job counts assigned, failed, converged and stranded rows; without the evidence it requires nobody
      counts as reporting, and rollback failures are never counted. */
  lemma MeasureExactly(db: Database, g: nat, t: Telemetry)
    requires g < |db.gates| && db.gates[g].Captured? && Known(db, db.gates[g].release)
    ensures var next := Next(db, GateMeasure(g, t));
      && next == db.(gates := next.gates) && |next.gates| == |db.gates| && next.gates == db.gates[g := next.gates[g]] && next.gates[g].Measured?
      && var (was, job, row) := (db.gates[g], next.gates[g], db.releases[db.gates[g].release]);
      && job.release == was.release && job.stage == was.stage && job.version == was.version
      && Counts(job.metrics, db.fleet.assignments, was.release, was.stage)
      && job.metrics.offline == |ExposedIn(db.fleet.assignments, was.release, was.stage, F.Stranded)|
      && job.metrics.reporting == (if t.iotReady then t.reporting else 0) && job.metrics.rollbackFailures == 0
      && job.metrics.healthFailures == t.healthFailures && job.metrics.crashFreePercent == t.crashFreePercent
      && job.decision == G.Evaluate(job.metrics, if row.status == Running then G.ThresholdsFromPolicy(row.policy.gates) else G.DEFAULTS)
  {
    var (rows, was) := (db.fleet.assignments, db.gates[g]);
    assert Next(db, GateMeasure(g, t)) == MeasureGate(db, g, t);
    CountsExposed(rows, was.release, was.stage);
    CountsIn(rows, was.release, was.stage, F.Failed);
    CountsIn(rows, was.release, was.stage, F.Converged);
    CountsIn(rows, was.release, was.stage, F.Stranded);
  }

  /** The operator's evaluation is recorded and changes nothing else; without the evidence it requires it is
      insufficient whatever was counted. */
  lemma EvaluateExactly(db: Database, r: nat, stage: nat, t: Telemetry)
    requires Known(db, r) && 1 <= stage <= |db.releases[r].stages|
    ensures var next := Next(db, EvaluateManually(r, stage, t));
      && |next.evaluations| == |db.evaluations| + 1 && db.evaluations <= next.evaluations && next == db.(evaluations := next.evaluations)
      && var e := next.evaluations[|db.evaluations|];
      && e.release == r && e.stage == stage && !e.byJob && Counts(e.metrics, db.fleet.assignments, r, stage)
      && e.metrics.reporting == t.reporting && e.metrics.offline == t.unseen && e.metrics.rollbackFailures == t.rollbackFailures
      && e.metrics.healthFailures == t.healthFailures && e.metrics.crashFreePercent == t.crashFreePercent
      && e.decision == if t.iotReady then G.Evaluate(e.metrics, G.ThresholdsFromPolicy(db.releases[r].policy.gates)) else G.InsufficientEvidence
  {
    var rows := db.fleet.assignments;
    assert Next(db, EvaluateManually(r, stage, t)) == EvaluateByHand(db, r, stage, t);
    CountsExposed(rows, r, stage);
    CountsIn(rows, r, stage, F.Failed);
    CountsIn(rows, r, stage, F.Converged);
  }

  // ---- the gate's commit ----

  /** The measurement is of the release as it still is. */
  predicate Fresh(db: Database, g: nat) {
    && g < |db.gates| && db.gates[g].Measured? && Known(db, db.gates[g].release)
    && db.gates[g].version == db.releases[db.gates[g].release].version
  }

  /** What each decision makes of the release; a rollback with nothing to wait for is over at once. */
  ghost predicate Sentenced(a: Release, b: Release, decision: G.Decision, over: bool)
    requires 1 <= a.current <= |a.stages|
  {
    var k := a.current - 1;
    match decision
    case Pass =>
      var passed := a.stages[k := a.stages[k].(status := Passed)];
      if a.current < |a.stages|
      then b == a.(stages := passed[a.current := passed[a.current].(status := Active)], current := a.current + 1, version := a.version + 1)
      else b == a.(stages := passed, status := Completed, version := a.version + 1)
    case Pause => b == a.(status := Paused, version := a.version + 1)
    case InsufficientEvidence => b == a
    case Rollback =>
      var failed := a.stages[k := a.stages[k].(status := StageFailed)];
      b == a.(stages := failed, status := if over then RolledBack else RollingBack, version := a.version + if over then 2 else 1)
    case Abort => false
  }

  /** The decision is recorded, the release moves, the measurement is done with, and no other table but the
      fleet changes, which it does for an opening stage or a rollback only. */
  ghost predicate Commits(db: Database, next: Database, g: nat)
    requires Fresh(db, g)
  {
    var (job, r) := (db.gates[g], db.gates[g].release);
    && 1 <= db.releases[r].current <= |db.releases[r].stages|
    && OnlyMoves(db, next, r)
    && Sentenced(db.releases[r], next.releases[r], job.decision, R.Over(next.fleet.assignments, r))
    && next.evaluations == db.evaluations + [Evaluation(r, job.stage, job.decision, job.metrics, true)]
    && next.gates == db.gates[g := Finished]
    && next == db.(releases := next.releases, fleet := next.fleet, evaluations := next.evaluations, gates := next.gates)
    && (job.decision in {G.Pause, G.InsufficientEvidence} ==> next.fleet == db.fleet)
  }

  /** A fresh measurement is carried out, except that a rollback needs a trusted fallback with its bytes
      intact; a stale one, and a rollback without, change nothing at all. */
  lemma CommitExactly(db: Database, g: nat, bytesMatch: bool)
    requires Invariant(db)
    ensures var next := Next(db, GateCommit(g, bytesMatch));
      if Fresh(db, g) && (db.gates[g].decision == G.Rollback ==> bytesMatch && CanFallBack(db, db.releases[db.gates[g].release]))
      then Commits(db, next, g) else next == db
  {
    NextCommitsGate(db, g, bytesMatch);
    if Fresh(db, g) {
      FreshIsCurrent(db, g);
      CommitAttempts(db, g, bytesMatch);
      var job := db.gates[g];
      var done := Attempt(db, job.release, job.stage, job.metrics, job.decision, bytesMatch);
      AttemptExactly(db, job.release, job.metrics, job.decision, bytesMatch);
      if done.Some? { AttemptCommits(db, done, done.value.(gates := db.gates[g := Finished]), g, bytesMatch); }
    }
  }

  /** A fresh measurement found its release running that very stage, with the decision the evaluator gives. */
  lemma FreshIsCurrent(db: Database, g: nat)
    requires Invariant(db) && Fresh(db, g)
    ensures var (job, row) := (db.gates[g], db.releases[db.gates[g].release]);
      && row.status == Running && OnCourse(row) && job.stage == row.current && job.decision != G.Abort
      && (job.decision == G.Rollback ==> CountExposed(db.fleet.assignments, job.release, job.stage) > 0)
      && LegalGate(row.status, job.decision, HasNext(row, job.stage))
  {
    var job := db.gates[g];
    var row := db.releases[job.release];
    assert Current(db, job) && WellFormed(row, |db.fleet.devices|);
    NeverAborts(job.metrics, Thresholds(row));
    NobodyRollsBack(job.metrics, Thresholds(row));
    RunningAccepts(row.status, job.decision, HasNext(row, job.stage));
  }

  lemma NobodyRollsBack(metrics: G.Metrics, t: G.Thresholds)
    ensures G.Evaluate(metrics, t) == G.Rollback ==> metrics.exposed > 0
  {
  }

  lemma RunningAccepts(status: ReleaseState, decision: G.Decision, hasNext: bool)
    requires status == Running
    ensures LegalGate(status, decision, hasNext)
  {
  }

  lemma CommitAttempts(db: Database, g: nat, bytesMatch: bool)
    requires Fresh(db, g)
    requires var (job, row) := (db.gates[g], db.releases[db.gates[g].release]);
      1 <= job.stage <= |row.stages| && LegalGate(row.status, job.decision, HasNext(row, job.stage))
    ensures var job := db.gates[g];
      var done := Attempt(db, job.release, job.stage, job.metrics, job.decision, bytesMatch);
      CommitGate(db, g, bytesMatch) == if done.None? then db else done.value.(gates := db.gates[g := Finished])
  {
  }

  lemma AttemptCommits(db: Database, done: Option<Database>, next: Database, g: nat, bytesMatch: bool)
    requires Fresh(db, g) && done.Some? && next == done.value.(gates := db.gates[g := Finished])
    requires var (job, row) := (db.gates[g], db.releases[db.gates[g].release]);
      && 1 <= row.current <= |row.stages| && job.stage == row.current
      && Attempted(db, done, job.release, job.metrics, job.decision, bytesMatch)
    ensures Commits(db, next, g)
  {
  }

  /** One decision on the current stage of a running release. */
  ghost predicate Attempted(db: Database, done: Option<Database>, r: nat, metrics: G.Metrics, decision: G.Decision, bytesMatch: bool)
    requires Known(db, r) && 1 <= db.releases[r].current <= |db.releases[r].stages|
  {
    if decision == G.Rollback ==> bytesMatch && CanFallBack(db, db.releases[r])
    then
      && done.Some? && OnlyMoves(db, done.value, r)
      && Sentenced(db.releases[r], done.value.releases[r], decision, R.Over(done.value.fleet.assignments, r))
      && done.value.evaluations == db.evaluations + [Evaluation(r, db.releases[r].current, decision, metrics, true)]
      && done.value == db.(releases := done.value.releases, fleet := done.value.fleet, evaluations := done.value.evaluations)
      && (decision in {G.Pause, G.InsufficientEvidence} ==> done.value.fleet == db.fleet)
    else done.None?
  }

  lemma {:induction false} AttemptExactly(db: Database, r: nat, metrics: G.Metrics, decision: G.Decision, bytesMatch: bool)
    requires Sound(db) && Known(db, r) && db.releases[r].status == Running && OnCourse(db.releases[r]) && decision != G.Abort
    requires decision == G.Rollback ==> CountExposed(db.fleet.assignments, r, db.releases[r].current) > 0
    ensures Attempted(db, Attempt(db, r, db.releases[r].current, metrics, decision, bytesMatch), r, metrics, decision, bytesMatch)
  {
    match decision
    case Pass => AttemptPass(db, r, metrics, bytesMatch);
    case Pause => AttemptHold(db, r, metrics, decision, bytesMatch);
    case InsufficientEvidence => AttemptHold(db, r, metrics, decision, bytesMatch);
    case Rollback => AttemptRollback(db, r, metrics, bytesMatch);
  }

  lemma AttemptHold(db: Database, r: nat, metrics: G.Metrics, decision: G.Decision, bytesMatch: bool)
    requires Known(db, r) && db.releases[r].status == Running && OnCourse(db.releases[r])
    requires decision in {G.Pause, G.InsufficientEvidence}
    ensures Attempted(db, Attempt(db, r, db.releases[r].current, metrics, decision, bytesMatch), r, metrics, decision, bytesMatch)
  {
    var row := db.releases[r];
    assert row.stages[row.current - 1 := row.stages[row.current - 1]] == row.stages;
  }

  lemma AttemptPass(db: Database, r: nat, metrics: G.Metrics, bytesMatch: bool)
    requires Known(db, r) && db.releases[r].status == Running && OnCourse(db.releases[r])
    ensures Attempted(db, Attempt(db, r, db.releases[r].current, metrics, G.Pass, bytesMatch), r, metrics, G.Pass, bytesMatch)
  {
    var row := db.releases[r];
    var judged := Judged(db, r, row.current, metrics, G.Pass);
    JudgedAtDoor(db, r, metrics);
    if HasNext(row, row.current) {
      PassOpens(db, judged, r, metrics);
    } else {
      SettleIdle(SetRelease(judged, r, Move(judged.releases[r], Completed)), r);
    }
  }

  lemma PassOpens(db: Database, judged: Database, r: nat, metrics: G.Metrics)
    requires Known(db, r) && db.releases[r].status == Running && OnCourse(db.releases[r]) && HasNext(db.releases[r], db.releases[r].current)
    requires judged == Judged(db, r, db.releases[r].current, metrics, G.Pass)
    ensures Known(judged, r) && var begun := Activate(judged, r, db.releases[r].current);
      && begun.Some? && Known(begun.value, r) && Settle(begun.value, r) == begun.value && begun.value.releases[r].status == Running
      && OnlyMoves(db, begun.value, r) && Sentenced(db.releases[r], begun.value.releases[r], G.Pass, false)
      && begun.value == judged.(releases := begun.value.releases, fleet := begun.value.fleet)
  {
    var row := db.releases[r];
    AdvanceWrites(db, r, metrics);
    var begun := Activate(judged, r, row.current);
    SettleIdle(begun.value, r);
    var b := begun.value.releases[r];
    var passed := row.stages[row.current - 1 := row.stages[row.current - 1].(status := Passed)];
    assert b.stages == passed[row.current := passed[row.current].(status := Active)];
  }

  lemma {:induction false} ExposedTouches(rows: seq<F.Assignment>, r: nat, stage: nat)
    requires CountExposed(rows, r, stage) > 0
    ensures Touched(rows, r)
  {
    var n := |rows| - 1;
    if !(rows[n].release == r && rows[n].stage <= stage) {
      ExposedTouches(rows[..n], r, stage);
      var i :| 0 <= i < n && rows[..n][i].release == r;
      assert rows[i].release == r;
    }
  }

  lemma TouchedStays(f: F.Fleet, g: F.Fleet, r: nat)
    requires H.Advanced(f, g) && Touched(f.assignments, r)
    ensures Touched(g.assignments, r)
  {
    var i :| 0 <= i < |f.assignments| && f.assignments[i].release == r;
    assert g.assignments[i].release == r;
  }

  lemma {:induction false} AttemptRollback(db: Database, r: nat, metrics: G.Metrics, bytesMatch: bool)
    requires Sound(db) && Known(db, r) && db.releases[r].status == Running && OnCourse(db.releases[r])
    requires CountExposed(db.fleet.assignments, r, db.releases[r].current) > 0
    ensures Attempted(db, Attempt(db, r, db.releases[r].current, metrics, G.Rollback, bytesMatch), r, metrics, G.Rollback, bytesMatch)
  {
    var row := db.releases[r];
    var judged := Judged(db, r, row.current, metrics, G.Rollback);
    var carried := CarryOut(judged, r, row.current, G.Rollback, HasNext(row, row.current), bytesMatch);
    RollbackCarried(judged, r, row.current, HasNext(row, row.current), bytesMatch);
    ExposedTouches(db.fleet.assignments, r, row.current);
    CarriesIfTrusted(db, judged, r, row.current, HasNext(row, row.current), bytesMatch);
    if carried.Some? {
      TouchedStays(db.fleet, carried.value.fleet, r);
      R.SettleEnds(carried.value, r);
      RollbackAttempted(db, carried.value, r, metrics, bytesMatch);
    }
  }

  lemma CarriesIfTrusted(db: Database, judged: Database, r: nat, stage: nat, hasNext: bool, bytesMatch: bool)
    requires Known(db, r) && Known(judged, r) && judged.ready == db.ready && judged.keys == db.keys
    requires judged.releases[r].rollback == db.releases[r].rollback && db.releases[r].stages != []
    ensures CarryOut(judged, r, stage, G.Rollback, hasNext, bytesMatch).Some? <==> bytesMatch && CanFallBack(db, db.releases[r])
  {
  }

  lemma RollbackAttempted(db: Database, carried: Database, r: nat, metrics: G.Metrics, bytesMatch: bool)
    requires Known(db, r) && db.releases[r].status == Running && OnCourse(db.releases[r]) && bytesMatch && CanFallBack(db, db.releases[r])
    requires var judged := Judged(db, r, db.releases[r].current, metrics, G.Rollback);
      carried == SetRelease(judged, r, Move(judged.releases[r], RollingBack)).(fleet := carried.fleet)
    requires var next := Settle(carried, r);
      && next == carried.(releases := next.releases) && R.Settled(carried.releases[r], next.releases[r], R.Over(carried.fleet.assignments, r))
      && forall q :: 0 <= q < |carried.releases| && q != r ==> next.releases[q] == carried.releases[q]
    ensures Attempted(db, Some(Settle(carried, r)), r, metrics, G.Rollback, bytesMatch)
  {
  }

  // ---- scheduled starts ----

  /** A scheduled release is looked at, and whether it may start then. */
  lemma CaptureStartExactly(db: Database, r: nat, lapsed: set<nat>)
    ensures var next := Next(db, StartCapture(r, lapsed));
      if Known(db, r) && db.releases[r].status == Scheduled
      then next == db.(starts := db.starts + [StartSeen(r, db.releases[r].version, !db.releases[r].policy.twoPerson || Granted(db, r, StartControl, lapsed))])
      else next == db
  {
    assert Next(db, StartCapture(r, lapsed)) == CaptureStart(db, r, lapsed);
    if Known(db, r) {
      assert Entitled(db, r, Start, lapsed) <==> Granted(db, r, StartControl, lapsed) by {
        assert forall i: nat :: i in Usables(db.approvals, r, StartControl, db.releases[r].version) <==>
          i < |db.approvals| && Usable(db.approvals[i], r, StartControl, db.releases[r].version);
      }
    }
  }

  /** The release runs, its first stage is active, and the start is recorded. */
  ghost predicate Starts(db: Database, next: Database, s: nat)
    requires s < |db.starts| && db.starts[s].StartSeen? && Known(db, db.starts[s].release)
  {
    var (job, r) := (db.starts[s], db.starts[s].release);
    && OnlyMoves(db, next, r) && db.releases[r].stages != []
    && (var a := db.releases[r];
        next.releases[r] == a.(status := Running, version := a.version + 2, current := 1, stages := a.stages[0 := a.stages[0].(status := Active)]))
    && next.approvals == db.approvals && next.starts == db.starts[s := StartDone]
    && next.changes == db.changes + [Change(r, Start, job.version, {})]
    && next == db.(releases := next.releases, fleet := next.fleet, starts := next.starts, changes := next.changes)
  }

  /** An authorised look at the release as it still is starts it; any other changes nothing. */
  lemma CommitStartExactly(db: Database, s: nat)
    requires Invariant(db)
    ensures var next := Next(db, StartCommit(s));
      if s < |db.starts| && db.starts[s].StartSeen? && db.starts[s].authorised && Known(db, db.starts[s].release)
         && db.starts[s].version == db.releases[db.starts[s].release].version
      then Starts(db, next, s) else next == db
  {
    NextCommitsStart(db, s);
    if s < |db.starts| && db.starts[s].StartSeen? && db.starts[s].authorised && Known(db, db.starts[s].release)
       && db.starts[s].version == db.releases[db.starts[s].release].version {
      StartStarts(db, s);
    }
  }

  lemma StartStarts(db: Database, s: nat)
    requires Sound(db) && StartsCurrent(db)
    requires s < |db.starts| && db.starts[s].StartSeen? && db.starts[s].authorised && Known(db, db.starts[s].release)
    requires db.starts[s].version == db.releases[db.starts[s].release].version
    ensures Starts(db, CommitStart(db, s), s)
  {
    var r := db.starts[s].release;
    var a := db.releases[r];
    assert StartCurrent(db, db.starts[s]) && WellFormed(a, |db.fleet.devices|);
    var started := Move(a, Running).(current := 0);
    StartedOpens(db, r, started);
    var b := Activate(SetRelease(db, r, started), r, 0).value.releases[r];
    assert b.stages == a.stages[0 := a.stages[0].(status := Active)];
    assert Consume(db.approvals, {}) == db.approvals;
  }
}
