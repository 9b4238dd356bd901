/** Runs from the empty database to the setbacks: a rollback that fails, a blocked release, overtaking reports. */
module RolloutSetbacks {
  import opened Wrappers
  import opened ReleaseMachine
  import opened Rollout
  import opened RolloutInvariants
  import opened RolloutSteps
  import opened RolloutTheorems
  import opened RolloutWitnesses
  import F = Fleet
  import H = FleetProperties
  import P = CohortPlanner
  import C = CohortProperties
  import R = ReportConfluence

  // ---- a release with something to fall back to ----

  const FALLBACK := F.Artifact(1, "old", 1)

  function SafePolicy(): Policy { Policy(false, [100], NO_GATES, Required) }

  function Base(row: Release, fleet: F.Fleet): Database {
    Database([row], [UNIT], fleet, [], [], [], [], [ActiveKey, ActiveKey], {TARGET, FALLBACK}, [])
  }

  function SafeDraft(): Release { Release(Draft, 1, SafePolicy(), TARGET, Some(FALLBACK), [], [], 0) }

  function Safe(status: ReleaseState, version: int, stage: StageStatus): Release {
    Release(status, version, SafePolicy(), TARGET, Some(FALLBACK), [Stage(100, stage)], [0], 1)
  }

  function Supplies(): seq<Step> { [AddKey, AddKey, AdmitArtifact(TARGET), AdmitArtifact(FALLBACK)] }

  function Supplied(): Database {
    EMPTY.(keys := [ActiveKey, ActiveKey], ready := {TARGET, FALLBACK})
  }

  lemma SuppliesReached()
    ensures Run(Supplies()) == Supplied()
  {
    var s := Supplies();
    assert s[..0] == [] && s[..1] == s[..0] + [s[0]] && s[..2] == s[..1] + [s[1]] && s[..3] == s[..2] + [s[2]] && s == s[..3] + [s[3]];
    RunSnoc(s[..0], s[0]);
    RunSnoc(s[..1], s[1]);
    RunSnoc(s[..2], s[2]);
    RunSnoc(s[..3], s[3]);
  }

  function Drafting(): seq<Step> {
    Supplies() + [AddDevice(UNIT, true)] + [CreateRelease(SafePolicy(), TARGET, Some(FALLBACK))]
  }

  lemma SafeDraftReached()
    ensures Run(Drafting()) == Base(SafeDraft(), Idle(true))
  {
    SuppliesReached();
    RunSnoc(Supplies(), AddDevice(UNIT, true));
    OneOp(H.EMPTY, H.Register(true));
    RunSnoc(Supplies() + [AddDevice(UNIT, true)], CreateRelease(SafePolicy(), TARGET, Some(FALLBACK)));
  }

  lemma SafeAdmitted()
    ensures var db := Base(SafeDraft(), Idle(true)); Roster(db, [0]) && Freezable(db, 0, 1, [0]) && Catalogued(db)
  {
  }

  lemma SafeValidated()
    ensures Freeze(Base(SafeDraft(), Idle(true)), 0, 1, [0], Hash, "r", "s") == Base(Safe(Ready, 3, Pending), Idle(true))
  {
    var db := Base(SafeDraft(), Idle(true));
    SafeAdmitted();
    var devices := RosterDevices(db, [0]);
    C.PlanIsPartition(Hash, "r", "s", devices, [100]);
    var plan := P.PlannedMembers(Hash, "r", "s", devices, [100]);
    FrozenIsRoster(db, [0], plan);
    assert FrozenMembers(db, [0], plan) == [0];
    assert FrozenRow(SafeDraft(), [0]).stages == [Stage(100, Pending)];
  }

  function Validating1(): seq<Step> { Drafting() + [ValidateRelease(0, 1, [0], Hash, "r", "s")] }

  lemma SafeReadyReached()
    ensures Run(Validating1()) == Base(Safe(Ready, 3, Pending), Idle(true))
  {
    SafeDraftReached();
    RunSnoc(Drafting(), ValidateRelease(0, 1, [0], Hash, "r", "s"));
    SafeValidated();
  }

  // ---- started, then rolled back by the operator ----

  function SafeRunning(): Database { Base(Safe(Running, 4, Active), Commanded()).(changes := [Change(0, Start, 3, {})]) }

  lemma SafeStartActs()
    ensures Act(Base(Safe(Ready, 3, Pending), Idle(true)), 0, Start, 0, 3, {}) == SafeRunning()
  {
    var db := Base(Safe(Ready, 3, Pending), Idle(true));
    var moved := SetRelease(db, 0, Move(Safe(Ready, 3, Pending), Running));
    assert moved.releases == [Safe(Running, 4, Pending)];
    OpensFirst(moved, Safe(Running, 4, Pending));
    NoneUsable(0, StartControl, 3);
  }

  /** The device is told to go back under generation 2. */
  function Reverting(): F.Fleet {
    F.Fleet([F.Device(true, 2, None, "", 0)], [F.Assignment(0, 0, 1, FALLBACK, 2, F.Pending, 0, "")],
            [F.Command(F.InstallCommand, 0, 0, 1), F.Command(F.RollbackCommand, 0, 0, 2)], [])
  }

  lemma RevertsTheDevice()
    ensures H.Run(Commanded(), RetargetOps(Commanded().assignments, 0, FALLBACK, STANDING, false)) == Reverting()
  {
    var f := Commanded();
    assert RetargetOps(f.assignments[..0], 0, FALLBACK, STANDING, false) == [];
    assert RetargetOps(f.assignments, 0, FALLBACK, STANDING, false) == [] + [H.DoRetarget(0, FALLBACK, false)];
    OneOp(f, H.DoRetarget(0, FALLBACK, false));
    assert F.CommandKey(f.commands[0]) != F.CommandKey(F.Command(F.RollbackCommand, 0, 0, 2));
  }

  function RollingBack1(): Database {
    Base(Safe(RollingBack, 5, Active), Reverting()).(changes := [Change(0, Start, 3, {}), Change(0, Rollback, 4, {})])
  }

  lemma RollbackPerforms()
    ensures Perform(SafeRunning(), 0, Rollback, 0) == SafeRunning().(releases := [Safe(RollingBack, 5, Active)], fleet := Reverting())
  {
    RevertsTheDevice();
    assert SetRelease(SafeRunning(), 0, Safe(RollingBack, 5, Active)).releases == [Safe(RollingBack, 5, Active)];
  }

  lemma RollbackActs()
    ensures Act(SafeRunning(), 0, Rollback, 0, 4, {}) == RollingBack1()
  {
    RollbackPerforms();
    NoneUsable(0, RollbackControl, 4);
    assert !Refused(SafeRunning(), SafeRunning().releases[0], 0, Rollback);
  }

  function Backing1(): seq<Step> { Validating1() + [Operate(0, Start, 0, 3, {})] + [Operate(0, Rollback, 0, 4, {})] }

  lemma RollingBackReached()
    ensures Run(Backing1()) == RollingBack1()
  {
    SafeReadyReached();
    Operated(Validating1(), Base(Safe(Ready, 3, Pending), Idle(true)), Start, 3);
    SafeStartActs();
    Operated(Validating1() + [Operate(0, Start, 0, 3, {})], SafeRunning(), Rollback, 4);
    RollbackActs();
  }

  // ---- the device reports that it could not go back ----

  function Refusal(): F.Report {
    F.Report(0, "back", 1, F.RollbackResult, 2, "digest", "failed", "", None, Some(1))
  }

  lemma RefusalReceived()
    ensures F.Acceptable(Reverting(), Refusal())
    ensures F.Receive(Reverting(), Refusal()).assignments == [F.Assignment(0, 0, 1, FALLBACK, 2, F.Failed, 1, "failed")]
  {
    var f := Reverting();
    assert f.commands[1].generation == 2 && F.HighestCommand(f.commands, 0) == 2;
    assert F.Newest(f.assignments, 0) == Some(0);
  }

  lemma RefusalTaken()
    ensures var next := TakeReport(RollingBack1(), Refusal());
      |next.releases| == 1 && next.releases[0].status == RolledBack && SomeFailed(next.fleet.assignments, 0)
  {
    RefusalReceived();
    OneOp(Reverting(), H.DoReceive(Refusal()));
    assert Subject(RollingBack1(), Refusal()) == Some(0) && Storable(RollingBack1(), Refusal());
    RefusalSettles(RollingBack1().(fleet := F.Receive(Reverting(), Refusal())));
  }

  lemma RefusalSettles(db: Database)
    requires db.releases == [Safe(RollingBack, 5, Active)]
    requires db.fleet.assignments == [F.Assignment(0, 0, 1, FALLBACK, 2, F.Failed, 1, "failed")]
    ensures var next := Settle(db, 0);
      |next.releases| == 1 && next.releases[0].status == RolledBack && SomeFailed(next.fleet.assignments, 0)
  {
    assert db.fleet.assignments[0].release == 0 && db.fleet.assignments[0].state == F.Failed;
  }

  /** A device reports result code `failed` for its rollback command, and the release ends rolled back. */
  lemma FailedRollbackReached() returns (steps: seq<Step>, report: F.Report)
    ensures var db := Run(steps);
      && Known(db, 0) && db.releases[0].status == RollingBack && report.kind == F.RollbackResult && report.resultCode == "failed"
      && report.command.Some? && report.command.value < |db.fleet.commands|
      && db.fleet.commands[report.command.value].kind == F.RollbackCommand
    ensures var db := Run(steps + [DeliverReport(report)]);
      Known(db, 0) && db.releases[0].status == RolledBack && SomeFailed(db.fleet.assignments, 0)
  {
    steps, report := Backing1(), Refusal();
    RollingBackReached();
    Reported(steps, RollingBack1(), report);
    RefusalTaken();
  }

  // ---- a blocked release ----

  /** A ready release is blocked by its key's compromise, and is never validated again. */
  lemma BlockedReached() returns (steps: seq<Step>)
    ensures Known(Run(steps), 0) && Run(steps).releases[0].status == Blocked
    ensures forall more :: Known(RunFrom(Run(steps), more), 0) && RunFrom(Run(steps), more).releases[0].status in {Blocked, Cancelled}
  {
    steps := Preparation(false) + [CompromiseKey(0)];
    ReadyReached(false);
    RunSnoc(Preparation(false), CompromiseKey(0));
    BlocksReady();
    EveryRun(steps);
    forall more ensures Known(RunFrom(Run(steps), more), 0) && RunFrom(Run(steps), more).releases[0].status in {Blocked, Cancelled} {
      BlockedForGood(Run(steps), more, 0);
    }
  }

  lemma BlocksReady()
    ensures var next := Compromise(With(Frozen(false), Idle(true)), 0); |next.releases| == 1 && next.releases[0].status == Blocked
  {
    assert SignedBy(Frozen(false), 0);
  }

  // ---- reports that overtake ----

  /** Two observations: the first of generation 2, the later one of generation 1 again. */
  function Ahead(): F.Report { F.Report(0, "a", 1, F.Observation, 2, "old", "", "", None, None) }
  function Behind(): F.Report { F.Report(0, "b", 2, F.Observation, 1, "digest", "", "", None, None) }

  /** On a reachable fleet whose device was told generations 1 and 2, the two leave different rows in
      different orders. */
  lemma OvertakingReached() returns (steps: seq<Step>, batch: set<F.Report>)
    ensures var f := Run(steps).fleet;
      0 < |f.devices| && R.Batch(f, batch, 0) && (forall r :: r in batch ==> R.Live(f, 0, r)) && !R.OrderFree(f, batch, 0)
  {
    steps, batch := Backing1(), {Ahead(), Behind()};
    RollingBackReached();
    OvertakesHere(Reverting(), batch);
  }

  lemma OvertakesHere(f: F.Fleet, batch: set<F.Report>)
    requires f == Reverting() && batch == {Ahead(), Behind()}
    ensures R.Batch(f, batch, 0) && (forall r :: r in batch ==> R.Live(f, 0, r)) && !R.OrderFree(f, batch, 0)
  {
    assert f.commands[1].generation == 2 && F.HighestCommand(f.commands, 0) == 2;
    R.Overtaken(f, batch, 0, Behind(), Ahead());
  }
}
