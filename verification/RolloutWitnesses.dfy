/** Runs from the empty database into the states the endings are about: one device, one stage. */
module RolloutWitnesses {
  import opened Wrappers
  import opened ReleaseMachine
  import opened Apportionment
  import opened Rollout
  import opened RolloutInvariants
  import opened RolloutSteps
  import opened RolloutEndings
  import F = Fleet
  import H = FleetProperties
  import G = GateEvaluator
  import P = CohortPlanner
  import C = CohortProperties

  const TARGET := F.Artifact(0, "digest", 0)
  const NO_GATES := G.HealthGates(None, None, None, None, None, None, None)
  const UNIT := P.Device("unit", "key", "model", "arch", "", "", 0)

  function Hash(salt: string, text: string): string { "" }

  function PolicyFor(two: bool): Policy { Policy(two, [100], NO_GATES, AllowFirstInstall) }

  function Idle(eligible: bool): F.Fleet { F.Fleet([F.Device(eligible, 0, None, "", 0)], [], [], []) }

  function With(row: Release, fleet: F.Fleet): Database {
    Database([row], [UNIT], fleet, [], [], [], [], [ActiveKey], {TARGET}, [])
  }

  function Drafted(two: bool): Release { Release(Draft, 1, PolicyFor(two), TARGET, None, [], [], 0) }

  function Frozen(two: bool): Release { Release(Ready, 3, PolicyFor(two), TARGET, None, [Stage(100, Pending)], [0], 1) }

  function Preparation(two: bool): seq<Step> {
    [AddKey, AdmitArtifact(TARGET), AddDevice(UNIT, true), CreateRelease(PolicyFor(two), TARGET, None),
     ValidateRelease(0, 1, [0], Hash, "r", "s")]
  }

  lemma RunSnoc(steps: seq<Step>, step: Step)
    ensures Run(steps + [step]) == Next(Run(steps), step)
  {
    assert (steps + [step])[..|steps|] == steps;
  }

  lemma Operated(steps: seq<Step>, db: Database, action: ReleaseAction, version: int)
    requires Run(steps) == db
    ensures Run(steps + [Operate(0, action, 0, version, {})]) == Act(db, 0, action, 0, version, {})
  {
    RunSnoc(steps, Operate(0, action, 0, version, {}));
    NextOperates(db, 0, action, 0, version, {});
  }

  lemma Decided(steps: seq<Step>, db: Database, approval: nat)
    requires Run(steps) == db
    ensures Run(steps + [DecideApproval(approval, 1, true, {})]) == Decide(db, approval, 1, true, {})
  {
    RunSnoc(steps, DecideApproval(approval, 1, true, {}));
    NextDecides(db, approval, 1, true, {});
  }

  lemma Reported(steps: seq<Step>, db: Database, report: F.Report)
    requires Run(steps) == db
    ensures Run(steps + [DeliverReport(report)]) == TakeReport(db, report)
  {
    RunSnoc(steps, DeliverReport(report));
    NextReports(db, report);
  }

  lemma {:induction false} OneOp(f: F.Fleet, op: H.Op)
    ensures H.Run(f, [op]) == H.Apply(f, op)
  {
    assert [op][..0] == [] && H.Run(f, []) == f;
  }

  // ---- up to a validated release ----

  lemma DraftReached(two: bool)
    ensures Run(Preparation(two)[..4]) == With(Drafted(two), Idle(true))
  {
    var s := Preparation(two);
    assert s[..0] == [] && s[..1] == s[..0] + [s[0]] && s[..2] == s[..1] + [s[1]] && s[..3] == s[..2] + [s[2]] && s[..4] == s[..3] + [s[3]];
    RunSnoc(s[..0], s[0]);
    RunSnoc(s[..1], s[1]);
    RunSnoc(s[..2], s[2]);
    RunSnoc(s[..3], s[3]);
    OneOp(H.EMPTY, H.Register(true));
  }

  lemma Admitted(two: bool)
    ensures var db := With(Drafted(two), Idle(true)); Roster(db, [0]) && Freezable(db, 0, 1, [0]) && Catalogued(db)
  {
  }

  lemma ValidatedRow(two: bool)
    ensures Freeze(With(Drafted(two), Idle(true)), 0, 1, [0], Hash, "r", "s") == With(Frozen(two), Idle(true))
  {
    var db := With(Drafted(two), Idle(true));
    Admitted(two);
    var devices := RosterDevices(db, [0]);
    C.PlanIsPartition(Hash, "r", "s", devices, [100]);
    var plan := P.PlannedMembers(Hash, "r", "s", devices, [100]);
    FrozenIsRoster(db, [0], plan);
    assert FrozenMembers(db, [0], plan) == [0];
    assert FrozenRow(Drafted(two), [0]).stages == [Stage(100, Pending)];
  }

  lemma ReadyReached(two: bool)
    ensures Run(Preparation(two)) == With(Frozen(two), Idle(true))
  {
    var s := Preparation(two);
    assert s == s[..4] + [s[4]];
    RunSnoc(s[..4], s[4]);
    DraftReached(two);
    ValidatedRow(two);
  }

  // ---- one person: started, with the device in flight or at rest ----

  /** The only device's assignment, told to install generation 1. */
  function Told(state: F.AssignmentState, latest: int): F.Assignment {
    F.Assignment(0, 0, 1, TARGET, 1, state, latest, "")
  }

  function Commanded(): F.Fleet {
    F.Fleet([F.Device(true, 1, None, "", 0)], [Told(F.Commanded, 0)], [F.Command(F.InstallCommand, 0, 0, 1)], [])
  }

  function Started(two: bool, version: int): Release {
    Release(Running, version, PolicyFor(two), TARGET, None, [Stage(100, Active)], [0], 1)
  }

  lemma NoneUsable(r: nat, control: Control, version: int)
    ensures Usables([], r, control, version) == {} && Consume([], {}) == []
  {
  }

  lemma InstallsTheDevice()
    ensures H.Run(Idle(true), InstallOps(0, 1, TARGET, [0])) == Commanded()
  {
    assert InstallOps(0, 1, TARGET, [0]) == [H.DoInstall(0, 0, 1, TARGET)];
    OneOp(Idle(true), H.DoInstall(0, 0, 1, TARGET));
  }

  /** The operator's start of a ready release with this fleet opens the stage and commands the device. */
  lemma OpensFirst(db: Database, row: Release)
    requires db.releases == [row] && db.fleet == Idle(true)
    requires row.stages == [Stage(100, Pending)] && row.members == [0] && row.artifact == TARGET
    ensures OpenFirst(db, 0) == db.(releases := [row.(stages := [Stage(100, Active)])], fleet := Commanded())
  {
    InstallsTheDevice();
    var begun := row.(stages := row.stages[0 := row.stages[0].(status := Active)]);
    assert begun.stages == [Stage(100, Active)];
    assert FirstWave(1, 100) == 1 && row.members[..1] == [0];
    assert db.releases[0 := begun] == [begun];
  }

  function Running1(): Database { With(Started(false, 4), Commanded()).(changes := [Change(0, Start, 3, {})]) }

  lemma StartPerforms()
    ensures Perform(With(Frozen(false), Idle(true)), 0, Start, 0) == With(Started(false, 4), Commanded())
  {
    var row := Frozen(false).(status := Running, version := 4);
    var moved := SetRelease(With(Frozen(false), Idle(true)), 0, Move(Frozen(false), Running));
    assert moved.releases == [row];
    OpensFirst(moved, row);
  }

  lemma StartActs()
    ensures Act(With(Frozen(false), Idle(true)), 0, Start, 0, 3, {}) == Running1()
  {
    StartPerforms();
    NoneUsable(0, StartControl, 3);
  }

  lemma StartedReached()
    ensures Run(Preparation(false) + [Operate(0, Start, 0, 3, {})]) == Running1()
  {
    ReadyReached(false);
    Operated(Preparation(false), With(Frozen(false), Idle(true)), Start, 3);
    StartActs();
  }

  /** The device reports the target installed. */
  function Installed(): F.Report {
    F.Report(0, "done", 1, F.InstallResult, 1, "digest", "", "", Some(0), None)
  }

  lemma RestFleet()
    ensures F.Acceptable(Commanded(), Installed())
    ensures H.Run(Commanded(), [H.DoReceive(Installed())]).assignments == [Told(F.Converged, 1)]
  {
    var f := Commanded();
    OneOp(f, H.DoReceive(Installed()));
    assert F.HighestCommand(f.commands, 0) == 1;
    assert F.Newest(f.assignments, 0) == Some(0);
  }

  lemma RestTaken()
    ensures var next := TakeReport(Running1(), Installed());
      next.releases == [Started(false, 4)] && next.fleet.assignments == [Told(F.Converged, 1)]
  {
    RestFleet();
  }

  lemma RestReached()
    ensures var db := Run(Preparation(false) + [Operate(0, Start, 0, 3, {})] + [DeliverReport(Installed())]);
      db.releases == [Started(false, 4)] && db.fleet.assignments == [Told(F.Converged, 1)]
  {
    StartedReached();
    Reported(Preparation(false) + [Operate(0, Start, 0, 3, {})], Running1(), Installed());
    RestTaken();
  }

  lemma AbortPerforms(db: Database, version: int)
    requires db.releases == [Started(false, version)]
    ensures var next := Perform(db, 0, Abort, 0); |next.releases| == 1 && next.releases[0].status == Aborting
  {
  }

  lemma AbortActs(db: Database, version: int)
    requires db.releases == [Started(false, version)]
    ensures var next := Act(db, 0, Abort, 0, version, {}); |next.releases| == 1 && next.releases[0].status == Aborting
  {
    AbortPerforms(db, version);
  }

  lemma Operates(db: Database, action: ReleaseAction, version: int) returns (step: Step)
    ensures step.Operate? && Next(db, step) == Act(db, 0, action, 0, version, {})
  {
    step := Operate(0, action, 0, version, {});
    NextOperates(db, 0, action, 0, version, {});
  }

  lemma AbortStep(db: Database, version: int) returns (step: Step)
    requires db.releases == [Started(false, version)]
    ensures step.Operate? && Known(Next(db, step), 0) && Next(db, step).releases[0].status == Aborting
  {
    step := Operates(db, Abort, version);
    AbortActs(db, version);
  }

  /** A one-person abort of the started release is carried out at once. */
  lemma AbortOutcome(steps: seq<Step>, db: Database, version: int) returns (step: Step)
    requires db == Run(steps) && db.releases == [Started(false, version)]
    ensures step.Operate? && AbortsAt(steps, db, step)
    ensures CanSettle(Next(db, step), 0) <==> AtRest(db.fleet.assignments, 0)
    ensures CanEnd(Next(db, step), 0)
  {
    step := AbortStep(db, version);
    AbortSettlesExactly(steps, db, step, 0);
    AbortEndsExactly(steps, db, step, 0);
  }

  /** A running release, reached from nothing, and a step that makes it abort. */
  ghost predicate AbortsAt(steps: seq<Step>, db: Database, step: Step) {
    && db == Run(steps) && Known(db, 0) && db.releases[0].status == Running
    && Known(Next(db, step), 0) && Next(db, step).releases[0].status == Aborting
  }

  /** With the device in flight: this operator's abort cannot settle, but a second one ends it. */
  lemma InFlightAbortReached() returns (steps: seq<Step>, db: Database, step: Step)
    ensures AbortsAt(steps, db, step) && step.Operate? && Touched(db.fleet.assignments, 0)
    ensures !CanSettle(Next(db, step), 0) && CanEnd(Next(db, step), 0)
  {
    steps, db := Preparation(false) + [Operate(0, Start, 0, 3, {})], Running1();
    StartedReached();
    step := AbortOutcome(steps, db, 4);
    assert F.InFlight(Commanded().assignments[0].state);
  }

  /** With the device at rest: the same abort can. */
  lemma RestingAbortReached() returns (steps: seq<Step>, db: Database, step: Step)
    ensures AbortsAt(steps, db, step) && step.Operate? && CanSettle(Next(db, step), 0)
  {
    steps := Preparation(false) + [Operate(0, Start, 0, 3, {})] + [DeliverReport(Installed())];
    RestReached();
    db := Run(steps);
    ConvergedRests(db.fleet.assignments);
    step := AbortOutcome(steps, db, 4);
  }

  lemma ConvergedRests(rows: seq<F.Assignment>)
    requires rows == [Told(F.Converged, 1)]
    ensures AtRest(rows, 0)
  {
    assert rows[0].release == 0;
  }

  // ---- one person: started by the job with nobody left to assign ----

  function Scheduled1(fleet: F.Fleet): Database {
    With(Frozen(false).(status := Scheduled, version := 4), fleet).(changes := [Change(0, Schedule, 3, {})])
  }

  lemma SchedulePerforms()
    ensures var db := With(Frozen(false), Idle(true));
      Perform(db, 0, Schedule, 0) == With(Frozen(false).(status := Scheduled, version := 4), Idle(true))
  {
    var row := Frozen(false).(status := Scheduled, version := 4);
    assert [Frozen(false)][0 := row] == [row];
  }

  lemma ScheduledReached()
    ensures Run(Preparation(false) + [Operate(0, Schedule, 0, 3, {})]) == Scheduled1(Idle(true))
  {
    ReadyReached(false);
    Operated(Preparation(false), With(Frozen(false), Idle(true)), Schedule, 3);
    ScheduleActs(With(Frozen(false), Idle(true)));
  }

  lemma ScheduleActs(db: Database)
    requires db == With(Frozen(false), Idle(true))
    ensures Act(db, 0, Schedule, 0, 3, {}) == Scheduled1(Idle(true))
  {
    SchedulePerforms();
    NoneUsable(0, StartControl, 3);
  }

  function Withdrawn(): seq<Step> {
    Preparation(false) + [Operate(0, Schedule, 0, 3, {})] + [SetLifecycle(0, false)] + [StartCapture(0, {})]
  }

  lemma SeenReached()
    ensures Run(Withdrawn()) == Scheduled1(Idle(false)).(starts := [StartSeen(0, 4, true)])
  {
    var first := Preparation(false) + [Operate(0, Schedule, 0, 3, {})];
    ScheduledReached();
    RunSnoc(first, SetLifecycle(0, false));
    OneOp(Idle(true), H.Enlist(0, false));
    RunSnoc(first + [SetLifecycle(0, false)], StartCapture(0, {}));
  }

  /** A quarantined device is not assigned, and the stage opens all the same. */
  lemma NobodyAssigned()
    ensures var row := Frozen(false).(status := Running, version := 5, current := 0);
      var db := Scheduled1(Idle(false)).(releases := [row], starts := [StartSeen(0, 4, true)]);
      Activate(db, 0, 0) == Some(db.(releases := [Started(false, 6)]))
  {
    var row := Frozen(false).(status := Running, version := 5, current := 0);
    assert TargetCount(1, 100) == 1 && row.members[..1] == [0];
    assert Missing(Idle(false), 0, [0]) == [];
    assert InstallOps(0, 1, TARGET, []) == [] && H.Run(Idle(false), []) == Idle(false);
    assert row.stages[0 := row.stages[0].(status := Active)] == [Stage(100, Active)];
    assert [row][0 := Started(false, 6)] == [Started(false, 6)];
  }

  lemma UnassignedReached()
    ensures var db := Run(Withdrawn() + [StartCommit(0)]);
      db.releases == [Started(false, 6)] && db.fleet == Idle(false)
  {
    SeenReached();
    RunSnoc(Withdrawn(), StartCommit(0));
    NextCommitsStart(Run(Withdrawn()), 0);
    NobodyStarted(Run(Withdrawn()));
  }

  lemma NobodyStarted(db: Database)
    requires db == Scheduled1(Idle(false)).(starts := [StartSeen(0, 4, true)])
    ensures CommitStart(db, 0).releases == [Started(false, 6)] && CommitStart(db, 0).fleet == Idle(false)
  {
    NobodyAssigned();
    var row := Move(db.releases[0], Running).(current := 0);
    assert SetRelease(db, 0, row).releases == [row];
  }

  /** Without assignments: this operator's abort cannot settle either. */
  lemma UnassignedAbortReached() returns (steps: seq<Step>, db: Database, step: Step)
    ensures AbortsAt(steps, db, step) && step.Operate? && !Touched(db.fleet.assignments, 0) && !CanSettle(Next(db, step), 0)
  {
    steps := Withdrawn() + [StartCommit(0)];
    UnassignedReached();
    db := Run(steps);
    step := AbortOutcome(steps, db, 6);
  }

  // ---- two persons ----

  function Asked(action: Control, captured: int): Approval {
    Approval(0, action, Requested, captured, None, 0, None, None, false)
  }

  /** The start approval given by the second person, waiting or used. */
  function Granted(consumed: bool): Approval {
    Approval(0, StartControl, Approved, 4, None, 0, Some(1), Some(5), consumed)
  }

  function Waiting(): Database {
    With(Frozen(true).(status := AwaitingApproval, version := 4), Idle(true)).(approvals := [Asked(StartControl, 4)])
  }

  function Allowed(): Database {
    With(Frozen(true).(version := 5), Idle(true)).(approvals := [Granted(false)])
  }

  function Approvals(): seq<Step> {
    Preparation(true) + [Operate(0, Start, 0, 3, {})] + [DecideApproval(0, 1, true, {})]
  }

  lemma AskActs()
    ensures Act(With(Frozen(true), Idle(true)), 0, Start, 0, 3, {}) == Waiting()
  {
    var db := With(Frozen(true), Idle(true));
    NoneUsable(0, StartControl, 3);
    assert [Frozen(true)][0 := Move(Frozen(true), AwaitingApproval)] == Waiting().releases;
  }

  lemma GrantDecides()
    ensures Decide(Waiting(), 0, 1, true, {}) == Allowed()
  {
    assert Waiting().approvals[0 := Granted(false)] == [Granted(false)];
    assert Waiting().releases[0 := Move(Waiting().releases[0], Ready)] == Allowed().releases;
  }

  lemma AllowedReached()
    ensures Run(Approvals()) == Allowed()
  {
    ReadyReached(true);
    Operated(Preparation(true), With(Frozen(true), Idle(true)), Start, 3);
    AskActs();
    Decided(Preparation(true) + [Operate(0, Start, 0, 3, {})], Waiting(), 0);
    GrantDecides();
  }

  lemma GrantUsable()
    ensures Usables([Granted(false)], 0, StartControl, 5) == {0}
    ensures Consume([Granted(false)], {0}) == [Granted(true)]
    ensures Entitled(Allowed(), 0, Schedule, {}) && Entitled(Allowed(), 0, Start, {})
  {
    assert 0 in Usables([Granted(false)], 0, StartControl, 5);
  }

  lemma ScheduleTwoActs()
    ensures var next := Act(Allowed(), 0, Schedule, 0, 5, {});
      |next.releases| == 1 && next.releases[0].status == Scheduled && next.releases[0].policy.twoPerson
  {
    GrantUsable();
  }

  /** A scheduled release under a two-person policy is reachable, and cannot start. */
  lemma ScheduledTwoPersonReached() returns (steps: seq<Step>)
    ensures var db := Run(steps);
      && Known(db, 0) && db.releases[0].status == Scheduled && db.releases[0].policy.twoPerson && !CanStart(db, 0)
  {
    steps := Approvals() + [Operate(0, Schedule, 0, 5, {})];
    AllowedReached();
    Operated(Approvals(), Allowed(), Schedule, 5);
    ScheduleTwoActs();
    ScheduledStartsExactly(steps, 0);
  }

  /** So is one under a one-person policy, and it can. */
  lemma ScheduledOnePersonReached() returns (steps: seq<Step>)
    ensures var db := Run(steps);
      && Known(db, 0) && db.releases[0].status == Scheduled && !db.releases[0].policy.twoPerson && CanStart(db, 0)
  {
    steps := Preparation(false) + [Operate(0, Schedule, 0, 3, {})];
    ScheduledReached();
    ScheduledStartsExactly(steps, 0);
  }

  // ---- an abort by decision ----

  function Running2(): Database {
    With(Started(true, 6), Commanded()).(approvals := [Granted(true)], changes := [Change(0, Start, 5, {0})])
  }

  function Aborting2(): Database { Running2().(approvals := [Granted(true), Asked(AbortControl, 6)]) }

  lemma StartTwoPerforms()
    ensures Perform(Allowed(), 0, Start, 0) == Allowed().(releases := [Started(true, 6)], fleet := Commanded())
  {
    var moved := SetRelease(Allowed(), 0, Move(Allowed().releases[0], Running));
    var row := Frozen(true).(status := Running, version := 6);
    assert moved.releases == [row];
    OpensFirst(moved, row);
  }

  lemma StartTwoActs()
    ensures Act(Allowed(), 0, Start, 0, 5, {}) == Running2()
  {
    GrantUsable();
    StartTwoPerforms();
  }

  lemma AbortIsAsked()
    ensures Act(Running2(), 0, Abort, 0, 6, {}) == Aborting2()
  {
    assert Usables([Granted(true)], 0, AbortControl, 6) == {};
    assert !Outstanding(Running2(), 0, AbortControl, None, {});
    assert [Granted(true)] + [Asked(AbortControl, 6)] == [Granted(true), Asked(AbortControl, 6)];
  }

  lemma AbortDecided()
    ensures var next := Decide(Aborting2(), 1, 1, true, {}); |next.releases| == 1 && next.releases[0].status == Aborting
  {
    assert Decidable(Aborting2(), 1, 1, true, {});
  }

  function Asking(): seq<Step> { Approvals() + [Operate(0, Start, 0, 5, {})] + [Operate(0, Abort, 0, 6, {})] }

  lemma AskingReached()
    ensures Run(Asking()) == Aborting2()
  {
    AllowedReached();
    Operated(Approvals(), Allowed(), Start, 5);
    StartTwoActs();
    Operated(Approvals() + [Operate(0, Start, 0, 5, {})], Running2(), Abort, 6);
    AbortIsAsked();
  }

  /** An abort carried out by an approval decision with the device in flight: nothing ever ends it. */
  lemma DecidedAbortReached() returns (steps: seq<Step>, db: Database, step: Step)
    ensures AbortsAt(steps, db, step) && step.DecideApproval? && Touched(db.fleet.assignments, 0)
    ensures !CanSettle(Next(db, step), 0) && !CanEnd(Next(db, step), 0)
  {
    steps, db, step := Asking(), Aborting2(), DecideApproval(1, 1, true, {});
    AskingReached();
    AbortDecided();
    NextDecides(db, 1, 1, true, {});
    assert F.InFlight(Commanded().assignments[0].state);
    AbortSettlesExactly(steps, db, step, 0);
    AbortEndsExactly(steps, db, step, 0);
  }
}
