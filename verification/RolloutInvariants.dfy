/** What holds of every release and assignment after every step, whoever takes it. */
module RolloutInvariants {
  import opened Wrappers
  import opened ReleaseMachine
  import opened Apportionment
  import opened Rollout
  import F = Fleet
  import H = FleetProperties
  import G = GateEvaluator

  // ---- one release row ----

  function Percents(r: Release): (p: seq<int>)
    ensures |p| == |r.stages|
  {
    seq(|r.stages|, k requires 0 <= k < |r.stages| => r.stages[k].percentage)
  }

  /** Stages before the current one passed, the current one was opened, the rest wait. */
  ghost predicate Waves(r: Release) {
    && 1 <= r.current <= |r.stages|
    && r.stages[r.current - 1].status in {Active, StageFailed}
    && (forall k :: 0 <= k < r.current - 1 ==> r.stages[k].status == Passed)
    && (forall k :: r.current <= k < |r.stages| ==> r.stages[k].status == Pending)
  }

  ghost predicate OnCourse(r: Release) { Waves(r) && r.stages[r.current - 1].status == Active }

  ghost predicate Untouched(r: Release) {
    r.stages != [] && r.current == 1 && forall k :: 0 <= k < |r.stages| ==> r.stages[k].status == Pending
  }

  ghost predicate Done(r: Release) {
    r.stages != [] && r.current == |r.stages| && forall k :: 0 <= k < |r.stages| ==> r.stages[k].status == Passed
  }

  ghost predicate Staged(r: Release) {
    match r.status
    case Draft => r.stages == []
    case Ready => Untouched(r)
    case AwaitingApproval => Untouched(r)
    case Scheduled => Untouched(r)
    case Running => OnCourse(r)
    case Paused => OnCourse(r)
    case Blocked => Untouched(r) || OnCourse(r)
    case Cancelled => r.stages == [] || Untouched(r) || OnCourse(r)
    case Completed => Done(r)
    case Validating => false
    case Failed => false
    case _ => Waves(r)
  }

  ghost predicate Cohort(r: Release, devices: nat) {
    && ValidPercents(Percents(r)) && r.members != []
    && (forall i :: 0 <= i < |r.members| ==> r.members[i] < devices)
    && (forall i, j :: 0 <= i < j < |r.members| ==> r.members[i] != r.members[j])
  }

  ghost predicate WellFormed(r: Release, devices: nat) {
    Staged(r) && (r.stages != [] ==> Cohort(r, devices))
  }

  // ---- how a step may change a row ----

  /** The moves of a release that committed steps make; a rollback that finds nothing to
      retarget settles in the step that begins it. */
  predicate Edge(a: ReleaseState, b: ReleaseState) {
    match a
    case Draft => b in {Draft, Ready, Cancelled}
    case Ready => b in {AwaitingApproval, Scheduled, Running, Blocked, Cancelled}
    case AwaitingApproval => b in {Ready, Blocked, Cancelled}
    case Scheduled => b in {Running, Blocked, Cancelled}
    case Blocked => b == Cancelled
    case Running => b in {Running, Paused, Aborting, RollingBack, RolledBack, Completed}
    case Paused => b in {Running, Aborting, RollingBack, Blocked}
    case Aborting => b in {Aborting, Aborted}
    case RollingBack => b in {RollingBack, RolledBack}
    case _ => false
  }

  /** Every edge is a run of legal actions of the release state machine. */
  lemma EdgeIsLegal(a: ReleaseState, b: ReleaseState) returns (actions: seq<ReleaseAction>)
    requires Edge(a, b)
    ensures Follow(a, actions) == Some(b)
  {
    if a == b {
      actions := [];
    } else if a == Draft && b == Ready {
      actions := [Validate, Validate];
      FollowTwo(a, Validate, Validate);
    } else if a == Running && b == RolledBack {
      actions := [GateRollback, Rollback];
      FollowTwo(a, GateRollback, Rollback);
    } else {
      var action :=
        match b
        case AwaitingApproval => Submit
        case Ready => Approve
        case Scheduled => Schedule
        case Running => if a == Paused then Resume else Start
        case Paused => Pause
        case Aborting => Abort
        case Aborted => Abort
        case RollingBack => Rollback
        case RolledBack => Rollback
        case Completed => GatePass
        case Blocked => SecurityBlock
        case _ => Cancel;
      actions := [action];
      FollowOne(a, action);
    }
  }

  lemma {:induction false} FollowOne(s: ReleaseState, x: ReleaseAction)
    ensures Follow(s, [x]) == Transition(s, x)
  {
    assert [x][1..] == [];
  }

  lemma {:induction false} FollowTwo(s: ReleaseState, x: ReleaseAction, y: ReleaseAction)
    ensures Follow(s, [x, y]) == if Transition(s, x).None? then None else Transition(Transition(s, x).value, y)
  {
    assert [x, y][1..] == [y];
    if Transition(s, x).Some? { FollowOne(Transition(s, x).value, y); }
  }

  /** Frozen inputs stay frozen, opened stages stay opened, passed stages stay passed. */
  ghost predicate Carries(a: Release, b: Release) {
    && b.members == a.members && Percents(b) == Percents(a) && a.current <= b.current
    && (forall k :: 0 <= k < |a.stages| ==> a.stages[k].status != Pending ==> b.stages[k].status != Pending)
    && (forall k :: 0 <= k < |a.stages| ==> a.stages[k].status == Passed ==> b.stages[k].status == Passed)
  }

  ghost predicate Moved(a: Release, b: Release) {
    && b.policy == a.policy && b.artifact == a.artifact && b.rollback == a.rollback
    && (b != a ==> b.version > a.version && Edge(a.status, b.status))
    && (if a.stages == [] then b.status == Ready || b.stages == [] else Carries(a, b))
  }

  /** Signed by a key that is no longer active. */
  ghost predicate Dead(db: Database, r: Release) {
    exists key: nat :: key < |db.keys| && SignedBy(r, key) && db.keys[key] != ActiveKey
  }

  // ---- how a step may change the database ----

  ghost predicate RowsMove(before: Database, after: Database) {
    && |before.releases| <= |after.releases|
    && (forall r :: 0 <= r < |before.releases| ==> Moved(before.releases[r], after.releases[r]))
    && (forall r :: |before.releases| <= r < |after.releases| ==> after.releases[r].status == Draft)
  }

  ghost predicate KeysFade(before: Database, after: Database) {
    && |before.keys| <= |after.keys|
    && (forall k :: 0 <= k < |before.keys| ==> before.keys[k] != ActiveKey ==> after.keys[k] == before.keys[k])
    && (forall r :: 0 <= r < |before.releases| && r < |after.releases| ==>
          after.releases[r].status == Blocked && before.releases[r].status != Blocked ==> Dead(after, after.releases[r]))
  }

  ghost predicate InWave(r: Release, stage: nat, device: nat)
    requires 1 <= stage <= |r.stages|
  {
    device in r.members[..TargetCount(|r.members|, r.stages[stage - 1].percentage)]
  }

  /** A new assignment belongs to a stage this very step opened, and to its wave; its device is told to install. */
  ghost predicate Enrolment(before: Database, after: Database, a: F.Assignment) {
    && a.release < |before.releases| && a.release < |after.releases|
    && 1 <= a.stage <= |before.releases[a.release].stages| && |after.releases[a.release].stages| == |before.releases[a.release].stages|
    && before.releases[a.release].stages[a.stage - 1].status == Pending
    && after.releases[a.release].stages[a.stage - 1].status != Pending
    && a.stage <= after.releases[a.release].current
    && after.releases[a.release].version > before.releases[a.release].version
    && InWave(after.releases[a.release], a.stage, a.device)
    && a.artifact == after.releases[a.release].artifact && JustCommanded(a)
  }

  /** Nothing reported yet. */
  predicate JustCommanded(a: F.Assignment) { a.state == F.Commanded && a.latestSequence == 0 && a.failureCode == "" }

  ghost predicate Enrolled(before: Database, after: Database) {
    forall i :: |before.fleet.assignments| <= i < |after.fleet.assignments| ==> Enrolment(before, after, after.fleet.assignments[i])
  }

  /** A recorded pass of the gate job, healthy by the frozen thresholds, over `exposed` devices. */
  predicate Backing(e: Evaluation, r: nat, row: Release, stage: nat, exposed: nat) {
    && e.release == r && e.stage == stage && e.byJob && e.decision == G.Pass
    && G.Healthy(e.metrics, Thresholds(row)) && e.metrics.exposed == exposed
  }

  ghost predicate IsBacked(evaluations: seq<Evaluation>, r: nat, row: Release, stage: nat, exposed: nat) {
    exists e :: 0 <= e < |evaluations| && Backing(evaluations[e], r, row, stage, exposed)
  }

  /** A stage passes in a step only if it was the active one and the step recorded why. */
  ghost predicate PassBacked(before: Database, after: Database, r: nat, k: nat)
    requires r < |before.releases| && r < |after.releases|
    requires k < |before.releases[r].stages| && k < |after.releases[r].stages|
  {
    after.releases[r].stages[k].status == Passed && before.releases[r].stages[k].status != Passed ==>
      && before.releases[r].stages[k].status == Active
      && IsBacked(after.evaluations, r, after.releases[r], k + 1, CountExposed(before.fleet.assignments, r, k + 1))
  }

  ghost predicate PassesBacked(before: Database, after: Database)
    requires RowsMove(before, after)
  {
    && before.evaluations <= after.evaluations
    && (forall r: nat, k: nat :: r < |before.releases| && k < |before.releases[r].stages| && k < |after.releases[r].stages| ==>
          PassBacked(before, after, r, k))
  }

  ghost predicate AllWell(db: Database) {
    forall r :: 0 <= r < |db.releases| ==> WellFormed(db.releases[r], |db.fleet.devices|)
  }

  /** Every device row has an identity of its own. */
  ghost predicate Catalogued(db: Database) {
    && |db.catalog| == |db.fleet.devices|
    && (forall i, j :: 0 <= i < j < |db.catalog| ==> db.catalog[i].id != db.catalog[j].id)
  }

  ghost predicate Sound(db: Database) {
    && H.Consistent(db.fleet) && AllWell(db) && Catalogued(db)
    && (forall r :: 0 <= r < |db.releases| ==> db.releases[r].status == Blocked ==> Dead(db, db.releases[r]))
  }

  ghost predicate Advance(before: Database, after: Database) {
    && RowsMove(before, after) && KeysFade(before, after) && H.Advanced(before.fleet, after.fleet)
    && Enrolled(before, after) && PassesBacked(before, after)
  }

  // ---- helpers for the fleet part ----

  predicate Quiet(op: H.Op) { !op.DoInstall? && !op.Register? }

  lemma {:induction false} QuietRun(f: F.Fleet, ops: seq<H.Op>)
    requires H.Consistent(f) && forall op :: op in ops ==> Quiet(op)
    ensures H.Consistent(H.Run(f, ops)) && H.Advanced(f, H.Run(f, ops)) && SameSize(f, H.Run(f, ops))
  {
    H.RunKeeps(f, ops);
    if ops != [] {
      QuietRun(f, ops[..|ops| - 1]);
      QuietApply(H.Run(f, ops[..|ops| - 1]), ops[|ops| - 1]);
    }
  }

  predicate SameSize(f: F.Fleet, g: F.Fleet) { |g.assignments| == |f.assignments| && |g.devices| == |f.devices| }

  lemma QuietApply(f: F.Fleet, op: H.Op)
    requires Quiet(op)
    ensures SameSize(f, H.Apply(f, op))
  {
  }

  /** Every row added since f is an assignment of this release, stage and artifact to one of the members. */
  ghost predicate Added(f: F.Fleet, g: F.Fleet, r: nat, stage: nat, artifact: F.Artifact, members: seq<nat>) {
    forall i :: |f.assignments| <= i < |g.assignments| ==>
      && g.assignments[i].release == r && g.assignments[i].stage == stage && g.assignments[i].artifact == artifact
      && g.assignments[i].device in members && JustCommanded(g.assignments[i])
  }

  lemma {:induction false} InstallRun(f: F.Fleet, r: nat, stage: nat, artifact: F.Artifact, members: seq<nat>)
    requires H.Consistent(f)
    ensures var g := H.Run(f, InstallOps(r, stage, artifact, members));
      H.Consistent(g) && H.Advanced(f, g) && |g.devices| == |f.devices| && Added(f, g, r, stage, artifact, members)
  {
    var ops := InstallOps(r, stage, artifact, members);
    H.RunKeeps(f, ops);
    if members != [] {
      var n := |members| - 1;
      assert ops[..n] == InstallOps(r, stage, artifact, members[..n]);
      InstallRun(f, r, stage, artifact, members[..n]);
      InstallAdds(f, H.Run(f, ops[..n]), r, stage, artifact, members);
    }
  }

  lemma InstallAdds(f: F.Fleet, g: F.Fleet, r: nat, stage: nat, artifact: F.Artifact, members: seq<nat>)
    requires members != [] && Added(f, g, r, stage, artifact, members[..|members| - 1])
    ensures var h := H.Apply(g, H.DoInstall(r, members[|members| - 1], stage, artifact));
      |h.devices| == |g.devices| && Added(f, h, r, stage, artifact, members)
  {
  }

  // ---- the two shapes most steps have ----

  lemma WellFormedMonotone(r: Release, m: nat, n: nat)
    requires WellFormed(r, m) && m <= n
    ensures WellFormed(r, n)
  {
  }

  lemma MovedSame(r: Release)
    ensures Moved(r, r)
  {
  }

  /** No release row changes and nobody is assigned. */
  lemma Still(before: Database, after: Database)
    requires Sound(before) && after.releases == before.releases && before.evaluations <= after.evaluations
    requires H.Consistent(after.fleet) && H.Advanced(before.fleet, after.fleet)
    requires |after.fleet.assignments| == |before.fleet.assignments| && Catalogued(after)
    requires |before.keys| <= |after.keys| && forall k :: 0 <= k < |before.keys| ==> before.keys[k] != ActiveKey ==> after.keys[k] == before.keys[k]
    ensures Advance(before, after) && Sound(after)
  {
    forall r | 0 <= r < |before.releases| ensures Moved(before.releases[r], after.releases[r]) { MovedSame(before.releases[r]); }
    forall r | 0 <= r < |before.releases| ensures WellFormed(after.releases[r], |after.fleet.devices|) {
      WellFormedMonotone(before.releases[r], |before.fleet.devices|, |after.fleet.devices|);
    }
    StillDead(before, after);
  }

  lemma StillDead(before: Database, after: Database)
    requires Sound(before) && KeysFade(before, after) && RowsMove(before, after)
    ensures forall r :: 0 <= r < |after.releases| ==> after.releases[r].status == Blocked ==> Dead(after, after.releases[r])
  {
    forall r | 0 <= r < |after.releases| && after.releases[r].status == Blocked ensures Dead(after, after.releases[r]) {
      assert r < |before.releases|;
      assert Moved(before.releases[r], after.releases[r]);
      if before.releases[r].status == Blocked {
        var key: nat :| key < |before.keys| && SignedBy(before.releases[r], key) && before.keys[key] != ActiveKey;
        assert after.keys[key] == before.keys[key] && SignedBy(after.releases[r], key);
      }
    }
  }

  /** One row moves without passing a stage, and nobody is assigned. */
  lemma OneRow(before: Database, after: Database, r: nat, row: Release)
    requires Sound(before) && r < |before.releases| && after.releases == before.releases[r := row]
    requires Moved(before.releases[r], row) && WellFormed(row, |before.fleet.devices|)
    requires forall k :: 0 <= k < |before.releases[r].stages| && k < |row.stages| ==>
      row.stages[k].status == Passed ==> before.releases[r].stages[k].status == Passed
    requires row.status == Blocked ==> before.releases[r].status == Blocked
    requires before.evaluations <= after.evaluations && after.keys == before.keys
    requires H.Consistent(after.fleet) && H.Advanced(before.fleet, after.fleet)
    requires |after.fleet.assignments| == |before.fleet.assignments| && Catalogued(after)
    ensures Advance(before, after) && Sound(after)
  {
    forall i | 0 <= i < |before.releases| ensures Moved(before.releases[i], after.releases[i]) {
      if i != r { MovedSame(before.releases[i]); }
    }
    forall i | 0 <= i < |before.releases| ensures WellFormed(after.releases[i], |after.fleet.devices|) {
      WellFormedMonotone(after.releases[i], |before.fleet.devices|, |after.fleet.devices|);
    }
    StillDead(before, after);
  }
}
