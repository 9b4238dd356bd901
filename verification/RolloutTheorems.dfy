/** The safety of staged rollouts over every run, in any interleaving of operators, jobs and devices. */
module RolloutTheorems {
  import opened Wrappers
  import opened ReleaseMachine
  import opened Apportionment
  import opened Rollout
  import opened RolloutInvariants
  import opened RolloutSteps
  import opened RolloutHistory
  import opened RolloutLedger
  import F = Fleet
  import H = FleetProperties
  import G = GateEvaluator

  ghost predicate Invariant(db: Database) {
    Sound(db) && GatesCurrent(db) && StartsCurrent(db) && Ledger(db) && Contained(db) && Backed(db)
  }

  lemma NothingHolds(db: Database)
    requires db.releases == [] && db.catalog == [] && db.approvals == [] && db.gates == [] && db.starts == [] && db.changes == []
    requires db.fleet.assignments == [] && db.fleet.devices == [] && H.Consistent(db.fleet)
    ensures Invariant(db)
  {
  }

  lemma EmptyInvariant()
    ensures Invariant(EMPTY)
  {
    H.EmptyConsistent();
    NothingHolds(EMPTY);
  }

  lemma StepKeeps(db: Database, step: Step)
    requires Invariant(db)
    ensures Invariant(Next(db, step)) && Advance(db, Next(db, step))
  {
    var next := Next(db, step);
    StepFine(db, step);
    ContainedKept(db, next);
    BackedKept(db, next);
    GatesKept(db, step);
    LedgerKept(db, step);
    StartsKept(db, step);
    forall s | 0 <= s < |next.starts| ensures StartCurrent(next, next.starts[s]) {
      if s < |db.starts| && next.starts[s] == db.starts[s] { StartCurrentKept(db, next, db.starts[s]); }
    }
  }

  lemma {:induction false} RunFromKeeps(db: Database, steps: seq<Step>)
    requires Invariant(db)
    ensures Invariant(RunFrom(db, steps))
  {
    if steps != [] {
      RunFromKeeps(db, steps[..|steps| - 1]);
      StepKeeps(RunFrom(db, steps[..|steps| - 1]), steps[|steps| - 1]);
    }
  }

  lemma EveryRun(steps: seq<Step>)
    ensures Invariant(Run(steps))
  {
    EmptyInvariant();
    RunFromKeeps(EMPTY, steps);
  }

  /** Whatever a step does to a release is a run of legal actions of the state machine. */
  lemma StepsMoveLegally(steps: seq<Step>, step: Step, r: nat) returns (actions: seq<ReleaseAction>)
    requires r < |Run(steps).releases|
    ensures r < |Next(Run(steps), step).releases|
    ensures Follow(Run(steps).releases[r].status, actions) == Some(Next(Run(steps), step).releases[r].status)
  {
    var db := Run(steps);
    EveryRun(steps);
    StepKeeps(db, step);
    var a, b := db.releases[r], Next(db, step).releases[r];
    assert Moved(a, b);
    if a == b { actions := []; } else { actions := EdgeIsLegal(a.status, b.status); }
  }

  // ---- blast radius ----

  /** The wave of the current stage: the longest prefix of the frozen cohort anyone may be in. */
  function Wave(row: Release): (w: seq<nat>) {
    if 1 <= row.current <= |row.stages| then row.members[..TargetCount(|row.members|, row.stages[row.current - 1].percentage)] else []
  }

  lemma WavesNest(row: Release, n: nat, stage: nat)
    requires WellFormed(row, n) && 1 <= stage <= row.current <= |row.stages|
    ensures TargetCount(|row.members|, row.stages[stage - 1].percentage) <= |Wave(row)| <= |row.members|
  {
    var p := Percents(row);
    assert p[stage - 1] <= p[row.current - 1];
    TargetCountGrows(|row.members|, p[stage - 1], p[row.current - 1]);
  }

  /** In every reachable state every assignment is for a member of its release's current wave,
      and no device is assigned twice in one release. */
  lemma BlastRadius(steps: seq<Step>, i: nat)
    requires i < |Run(steps).fleet.assignments|
    ensures var db := Run(steps);
      var a := db.fleet.assignments[i];
      && Known(db, a.release) && a.device in Wave(db.releases[a.release])
      && a.stage <= db.releases[a.release].current
      && forall j :: 0 <= j < |db.fleet.assignments| && j != i && db.fleet.assignments[j].device == a.device ==>
           db.fleet.assignments[j].release != a.release
  {
    EveryRun(steps);
    var db := Run(steps);
    HeldInWave(db, db.fleet.assignments[i]);
  }

  lemma HeldInWave(db: Database, a: F.Assignment)
    requires AllWell(db) && Held(db, a)
    ensures a.device in Wave(db.releases[a.release]) && a.stage <= db.releases[a.release].current
  {
    var row := db.releases[a.release];
    assert WellFormed(row, |db.fleet.devices|);
    WavesNest(row, |db.fleet.devices|, a.stage);
    var small := TargetCount(|row.members|, row.stages[a.stage - 1].percentage);
    var k :| 0 <= k < small && row.members[k] == a.device;
    assert Wave(row)[k] == a.device;
  }

  /** The devices of a release's assignments, among the first n rows. */
  function Reached(rows: seq<F.Assignment>, r: nat, stage: nat): (s: set<nat>) {
    if rows == [] then {}
    else
      var last := rows[|rows| - 1];
      Reached(rows[..|rows| - 1], r, stage) + if last.release == r && last.stage <= stage then {last.device} else {}
  }

  lemma {:induction false} ReachedMembers(rows: seq<F.Assignment>, r: nat, stage: nat, d: nat)
    ensures d in Reached(rows, r, stage) <==> exists i :: 0 <= i < |rows| && rows[i].release == r && rows[i].stage <= stage && rows[i].device == d
  {
    if rows != [] {
      ReachedMembers(rows[..|rows| - 1], r, stage, d);
      assert forall i :: 0 <= i < |rows| - 1 ==> rows[i] == rows[..|rows| - 1][i];
      assert rows == rows[..|rows| - 1] + [rows[|rows| - 1]];
    }
  }

  lemma {:induction false} ReachedCounts(rows: seq<F.Assignment>, r: nat, stage: nat)
    requires forall i, j :: 0 <= i < j < |rows| && rows[i].device == rows[j].device ==> rows[i].release != rows[j].release
    ensures |Reached(rows, r, stage)| == CountExposed(rows, r, stage)
  {
    if rows != [] {
      var n := |rows| - 1;
      ReachedCounts(rows[..n], r, stage);
      ReachedMembers(rows[..n], r, stage, rows[n].device);
    }
  }

  lemma {:induction false} PrefixSize(s: seq<nat>, d: set<nat>)
    requires forall x :: x in d ==> x in s
    ensures |d| <= |s|
  {
    if s != [] {
      var n := |s| - 1;
      PrefixSize(s[..n], d - {s[n]});
    } else {
      assert d == {};
    }
  }

  /** A release never has more assignments than its current stage's target, whatever happened. */
  lemma {:induction false} ExposureBounded(steps: seq<Step>, r: nat)
    requires r < |Run(steps).releases|
    ensures var (db, row) := (Run(steps), Run(steps).releases[r]);
      CountExposed(db.fleet.assignments, r, |row.stages|) <= |Wave(row)|
  {
    var db, row := Run(steps), Run(steps).releases[r];
    var rows := db.fleet.assignments;
    EveryRun(steps);
    ReachedCounts(rows, r, |row.stages|);
    forall d | d in Reached(rows, r, |row.stages|) ensures d in Wave(row) {
      ReachedMembers(rows, r, |row.stages|, d);
      var i :| 0 <= i < |rows| && rows[i].release == r && rows[i].stage <= |row.stages| && rows[i].device == d;
      BlastRadius(steps, i);
    }
    PrefixSize(Wave(row), Reached(rows, r, |row.stages|));
  }

  /** Which stages have passed, are open or wait, for every status a release can have. */
  lemma StageShape(steps: seq<Step>, r: nat)
    requires r < |Run(steps).releases|
    ensures Staged(Run(steps).releases[r])
    ensures Run(steps).releases[r].status !in {Validating, Failed}
  {
    EveryRun(steps);
    assert WellFormed(Run(steps).releases[r], |Run(steps).fleet.devices|);
  }

  predicate SomeFailed(rows: seq<F.Assignment>, r: nat) {
    exists i :: 0 <= i < |rows| && rows[i].release == r && rows[i].state == F.Failed
  }

  /** A release whose rollback has ended reads rolled back whatever its devices said: its status tells
      whether some of them failed exactly when none did. */
  lemma RollbackToldExactly(steps: seq<Step>, r: nat)
    requires r < |Run(steps).releases| && Run(steps).releases[r].status in {RolledBack, ReleaseState.Failed}
    ensures var (row, rows) := (Run(steps).releases[r], Run(steps).fleet.assignments);
      row.status == RolledBack
      && ((row.status == ReleaseState.Failed <==> SomeFailed(rows, r)) <==> !SomeFailed(rows, r))
  {
    StageShape(steps, r);
  }

  // ---- promotion history ----

  /** Every stage a release is past has a recorded pass of the gate job: healthy by the frozen
      policy, over a positive number of devices, namely all that were ever exposed up to it. */
  lemma PromotionHistory(steps: seq<Step>, r: nat, k: nat)
    requires r < |Run(steps).releases|
    requires var row := Run(steps).releases[r]; k < |row.stages| && (k + 1 < row.current || row.status == Completed)
    ensures var db := Run(steps);
      && IsBacked(db.evaluations, r, db.releases[r], k + 1, CountExposed(db.fleet.assignments, r, k + 1))
      && CountExposed(db.fleet.assignments, r, k + 1) > 0
  {
    EveryRun(steps);
    var db := Run(steps);
    var row := db.releases[r];
    assert WellFormed(row, |db.fleet.devices|);
    assert row.stages[k].status == Passed && StageBacked(db, r, k);
    BackedIsExposed(db.evaluations, r, row, k + 1, CountExposed(db.fleet.assignments, r, k + 1));
  }

  lemma BackedIsExposed(evaluations: seq<Evaluation>, r: nat, row: Release, stage: nat, exposed: nat)
    requires IsBacked(evaluations, r, row, stage, exposed)
    ensures exposed > 0
  {
    var e :| 0 <= e < |evaluations| && Backing(evaluations[e], r, row, stage, exposed);
  }

  // ---- four eyes ----

  /** A recorded change that needs a second person has one: an approval by somebody other than its
      requester, for this action, bound to the version the change was made at. */
  lemma FourEyes(steps: seq<Step>, i: nat)
    requires i < |Run(steps).changes|
    ensures var (db, c) := (Run(steps), Run(steps).changes[i]);
      && Known(db, c.release) && c.version < db.releases[c.release].version
      && (NeedsAuthority(db.releases[c.release], c.action) ==> SomebodyElseApproved(db, c))
  {
    EveryRun(steps);
    ChangeHasApproval(Run(steps), Run(steps).changes[i]);
  }

  ghost predicate SomebodyElseApproved(db: Database, c: Change) {
    exists a: nat :: a in c.authority && a < |db.approvals| && Authorises(db.approvals[a], c)
  }

  lemma ChangeHasApproval(db: Database, c: Change)
    requires ChangeSound(db, c)
    ensures NeedsAuthority(db.releases[c.release], c.action) ==> SomebodyElseApproved(db, c)
  {
    if NeedsAuthority(db.releases[c.release], c.action) {
      var a :| a in c.authority;
      assert Authorises(db.approvals[a], c);
    }
  }

  /** No approval ever authorises two changes. */
  lemma NoApprovalTwice(steps: seq<Step>, i: nat, j: nat, a: nat)
    requires i < |Run(steps).changes| && j < |Run(steps).changes| && i != j
    requires a in Run(steps).changes[i].authority
    ensures a !in Run(steps).changes[j].authority
  {
    EveryRun(steps);
  }

  // ---- versions, terminal states, frozen inputs ----

  ghost predicate Since(a: Release, b: Release) {
    && b.policy == a.policy && b.artifact == a.artifact && b.rollback == a.rollback
    && (b == a || (b.version > a.version && !Terminal(a.status)))
    && (a.stages != [] ==> b.members == a.members && Percents(b) == Percents(a) && a.current <= b.current)
  }

  /** From any reachable state on: a release whose status changes has a higher version, one in a
      terminal state never changes at all, and what validation froze stays frozen. */
  lemma {:induction false} ReleasesOnlyMoveOn(db: Database, steps: seq<Step>, r: nat)
    requires Invariant(db) && Known(db, r)
    ensures Known(RunFrom(db, steps), r) && Since(db.releases[r], RunFrom(db, steps).releases[r])
  {
    if steps != [] {
      var before, last := steps[..|steps| - 1], steps[|steps| - 1];
      ReleasesOnlyMoveOn(db, before, r);
      RunFromKeeps(db, before);
      var mid := RunFrom(db, before);
      StepKeeps(mid, last);
      assert Moved(mid.releases[r], Next(mid, last).releases[r]);
      SinceMoved(db.releases[r], mid.releases[r], Next(mid, last).releases[r]);
    }
  }

  lemma SinceMoved(a: Release, b: Release, c: Release)
    requires Since(a, b) && Moved(b, c)
    ensures Since(a, c)
  {
    if a.stages != [] {
      assert |b.stages| == |Percents(b)| == |a.stages|;
    }
  }

  /** A set of statuses no step leads out of. */
  ghost predicate Closed(states: set<ReleaseState>) {
    forall a, b :: a in states && Edge(a, b) ==> b in states
  }

  lemma {:induction false} StaysIn(db: Database, steps: seq<Step>, r: nat, states: set<ReleaseState>)
    requires Invariant(db) && Known(db, r) && db.releases[r].status in states && Closed(states)
    ensures Known(RunFrom(db, steps), r) && RunFrom(db, steps).releases[r].status in states
  {
    if steps != [] {
      var before, last := steps[..|steps| - 1], steps[|steps| - 1];
      StaysIn(db, before, r, states);
      RunFromKeeps(db, before);
      var mid := RunFrom(db, before);
      StepKeeps(mid, last);
      assert Moved(mid.releases[r], Next(mid, last).releases[r]);
    }
  }

  /** A release blocked by a compromised key is never validated again; it can only be cancelled. */
  lemma {:induction false} BlockedForGood(db: Database, steps: seq<Step>, r: nat)
    requires Invariant(db) && Known(db, r) && db.releases[r].status == Blocked
    ensures Known(RunFrom(db, steps), r) && RunFrom(db, steps).releases[r].status in {Blocked, Cancelled}
  {
    StaysIn(db, steps, r, {Blocked, Cancelled});
  }

  /** Nobody gets back to work once an abort or rollback has begun. */
  lemma {:induction false} WayDown(db: Database, steps: seq<Step>, r: nat)
    requires Invariant(db) && Known(db, r) && db.releases[r].status in {Aborting, RollingBack}
    ensures Known(RunFrom(db, steps), r)
    ensures RunFrom(db, steps).releases[r].status in
      if db.releases[r].status == Aborting then {Aborting, Aborted} else {RollingBack, RolledBack}
  {
    StaysIn(db, steps, r, if db.releases[r].status == Aborting then {Aborting, Aborted} else {RollingBack, RolledBack});
  }

  // ---- the fleet under rollouts ----

  /** A converged or rolled-back assignment was reported by its own device, with exactly its
      current generation and its current artifact's digest. */
  lemma ConvergenceIsReported(steps: seq<Step>, i: nat)
    requires i < |Run(steps).fleet.assignments| && Run(steps).fleet.assignments[i].state in {F.Converged, F.RolledBack}
    ensures H.Witnessed(Run(steps).fleet, i)
  {
    EveryRun(steps);
  }

  /** Any two install or rollback commands to one device, of whatever releases, differ in generation,
      the later one being higher. */
  lemma CommandsRise(steps: seq<Step>, j: nat, k: nat)
    requires j < k < |Run(steps).fleet.commands| && H.SameTarget(Run(steps).fleet.commands[j], Run(steps).fleet.commands[k])
    ensures Run(steps).fleet.commands[j].generation < Run(steps).fleet.commands[k].generation
    ensures var f := Run(steps).fleet; var c := f.commands[k];
      c.device < |f.devices| && c.generation <= f.devices[c.device].desired
  {
    EveryRun(steps);
    var f := Run(steps).fleet;
    assert f.commands[k].assignment < |f.assignments|;
    H.NewestYet(f, f.commands[k].device);
  }

  /** Whatever is within its time at two polls of the same state, they serve the newest command and
      nothing else. */
  lemma PollIsNewest(steps: seq<Step>, device: nat, live: set<nat>, later: set<nat>, i: nat, k: nat, x: nat, y: nat)
    requires H.Servable(Run(steps).fleet, device, live, i, k) && H.Servable(Run(steps).fleet, device, later, x, y)
    ensures x == i && y == k && H.Directs(Run(steps).fleet.commands[k])
    ensures Run(steps).fleet.commands[k].generation == Run(steps).fleet.devices[device].desired
  {
    EveryRun(steps);
    H.PollServesNewest(Run(steps).fleet, device, live, i, k);
    H.PollServesNewest(Run(steps).fleet, device, later, x, y);
  }

  /** Desired generations, observed generations and last sequences never move back, and no
      command or report is lost. */
  lemma {:induction false} FleetOnlyAdvances(db: Database, steps: seq<Step>)
    requires Invariant(db)
    ensures H.Advanced(db.fleet, RunFrom(db, steps).fleet)
  {
    if steps == [] {
      H.RunKeeps(db.fleet, []);
    } else {
      var before := steps[..|steps| - 1];
      FleetOnlyAdvances(db, before);
      RunFromKeeps(db, before);
      StepKeeps(RunFrom(db, before), steps[|steps| - 1]);
      H.AdvancedTransitive(db.fleet, RunFrom(db, before).fleet, RunFrom(db, steps).fleet);
    }
  }
}
