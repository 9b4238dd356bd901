/**
 * The storage handle and the jobs and routes that write through it, statement by statement.
 * Every method is proved to have exactly the effect of the corresponding step function.
 */
module ReleaseStore {
  import opened Wrappers
  import opened ReleaseMachine
  import opened Apportionment
  import opened Rollout
  import opened RolloutFrames
  import F = Fleet
  import H = FleetProperties
  import G = GateEvaluator
  import P = CohortPlanner

  lemma {:induction false} RunSnoc(f: F.Fleet, ops: seq<H.Op>, op: H.Op)
    ensures H.Run(f, ops + [op]) == H.Apply(H.Run(f, ops), op)
  {
    assert (ops + [op])[..|ops|] == ops;
  }

  lemma {:induction false} ReceivedOnce(f: F.Fleet, r: F.Report)
    ensures H.Run(f, [H.DoReceive(r)]) == F.Receive(f, r)
  {
    assert [H.DoReceive(r)][..0] == [];
    assert H.Run(f, []) == f;
  }

  /** The answer is an acceptance exactly when the report is stored; any other answer changes nothing. */
  lemma AnswerIsAcceptance(db: Database, r: F.Report)
    ensures Answer(db, r) == Accepted <==> Storable(db, r)
    ensures Answer(db, r) != Accepted ==> TakeReport(db, r) == db
  {
  }

  /** What storing a report leaves as it was for the checks a report goes through. */
  lemma TakenShape(db: Database, r: F.Report)
    requires Storable(db, r)
    ensures var once := TakeReport(db, r);
      && once.fleet.reports == db.fleet.reports + [r] && once.fleet.commands == db.fleet.commands
      && |once.fleet.devices| == |db.fleet.devices| && |once.releases| == |db.releases|
      && Subject(once, r) == Subject(db, r)
  {
    ReceivedOnce(db.fleet, r);
    ReceiveShape(db.fleet, r);
  }

  lemma ReceiveShape(f: F.Fleet, r: F.Report)
    requires F.Acceptable(f, r)
    ensures var g := F.Receive(f, r);
      && g.reports == f.reports + [r] && g.commands == f.commands && |g.devices| == |f.devices| && |g.assignments| == |f.assignments|
      && forall i :: 0 <= i < |f.assignments| ==> g.assignments[i].release == f.assignments[i].release
  {
  }

  lemma KnownBytes(db: Database, once: Database, r: F.Report)
    requires Answer(db, r) == Accepted && once.fleet.reports == db.fleet.reports + [r] && once.fleet.commands == db.fleet.commands
    requires |once.fleet.devices| == |db.fleet.devices| && |once.releases| == |db.releases| && Subject(once, r) == Subject(db, r)
    ensures Answer(once, r) == AcceptedBefore
  {
  }

  /** The same report a second time is accepted again and changes nothing. */
  lemma SecondTimeChangesNothing(db: Database, r: F.Report)
    requires Answer(db, r) == Accepted
    ensures var once := TakeReport(db, r);
      |once.fleet.reports| == |db.fleet.reports| + 1
      && Answer(once, r) == AcceptedBefore && TakeReport(once, r) == once
  {
    var once := TakeReport(db, r);
    AnswerIsAcceptance(db, r);
    TakenShape(db, r);
    KnownBytes(db, once, r);
    AnswerIsAcceptance(once, r);
  }

  /** One more row adds at most one operation. */
  lemma {:induction false} RetargetSnoc(f: F.Fleet, rows: seq<F.Assignment>, i: nat, r: nat, artifact: F.Artifact, states: set<F.AssignmentState>, byApproval: bool)
    requires i < |rows|
    ensures var before := H.Run(f, RetargetOps(rows[..i], r, artifact, states, byApproval));
      H.Run(f, RetargetOps(rows[..i + 1], r, artifact, states, byApproval)) ==
      if rows[i].release == r && rows[i].state in states then H.Apply(before, H.DoRetarget(i, artifact, byApproval)) else before
  {
    assert rows[..i + 1][..i] == rows[..i];
    RunSnoc(f, RetargetOps(rows[..i], r, artifact, states, byApproval), H.DoRetarget(i, artifact, byApproval));
  }

  lemma {:induction false} WithdrawSnoc(f: F.Fleet, rows: seq<F.Assignment>, i: nat, r: nat)
    requires i < |rows|
    ensures var before := H.Run(f, WithdrawOps(rows[..i], r));
      H.Run(f, WithdrawOps(rows[..i + 1], r)) ==
      if rows[i].release == r && F.InFlight(rows[i].state) then H.Apply(before, H.DoWithdraw(i)) else before
  {
    assert rows[..i + 1][..i] == rows[..i];
    RunSnoc(f, WithdrawOps(rows[..i], r), H.DoWithdraw(i));
  }

  lemma {:induction false} ExpireSnoc(f: F.Fleet, commands: seq<F.Command>, k: nat, due: set<nat>)
    requires k < |commands|
    ensures var before := H.Run(f, ExpireOps(commands[..k], due));
      H.Run(f, ExpireOps(commands[..k + 1], due)) ==
      if k in due && commands[k].kind == F.InstallCommand then H.Apply(before, H.DoExpire(commands[k].assignment)) else before
  {
    assert commands[..k + 1][..k] == commands[..k];
    RunSnoc(f, ExpireOps(commands[..k], due), H.DoExpire(commands[k].assignment));
  }

  function Unasked(db: Database, r: nat, action: ReleaseAction, actor: nat): Database
    requires Known(db, r)
  {
    if Refused(db, db.releases[r], r, action) then db
    else Record(Perform(db, r, action, actor), r, action, db.releases[r].version)
  }

  lemma ActUnasked(db: Database, r: nat, action: ReleaseAction, actor: nat, expected: int, lapsed: set<nat>)
    requires Admitted(db, r, action, expected) && !MustAsk(db, r, action, lapsed)
    ensures Act(db, r, action, actor, expected, lapsed) == Unasked(db, r, action, actor)
  {
    if Refused(db, db.releases[r], r, action) {
      ActIgnored(db, r, action, actor, expected, lapsed);
    } else {
      ActExecutes(db, r, action, actor, expected, lapsed);
    }
  }

  /** What the activator does once there is a stage to open. */
  lemma {:induction false} ActivateOpensStage(db: Database, r: nat, completed: nat)
    requires Known(db, r) && completed < |db.releases[r].stages| && db.releases[r].stages[completed].status == Pending
    ensures var row := db.releases[r];
      var wave := row.members[..TargetCount(|row.members|, row.stages[completed].percentage)];
      var fleet := H.Run(db.fleet, InstallOps(r, completed + 1, row.artifact, Missing(db.fleet, r, wave)));
      Activate(db, r, completed) == if row.status == Running && row.current in {completed, completed + 1}
        then Some(SetRelease(db.(fleet := fleet), r, OpenedRow(row, completed))) else None
  {
  }

  function OpenedRow(row: Release, completed: nat): Release
    requires completed < |row.stages|
  {
    var begun := row.(stages := row.stages[completed := row.stages[completed].(status := Active)]);
    if row.current == completed then begun.(current := completed + 1, version := row.version + 1) else begun
  }

  function Lapse(a: Approval, lapsed: bool): Approval {
    if a.status == Requested && lapsed then a.(status := Expired) else a
  }

  function Outdate(a: Approval, releases: seq<Release>): Approval {
    if a.status == Requested && a.release < |releases| && a.captured != releases[a.release].version
    then a.(status := Superseded) else a
  }

  class Store {
    var releases: seq<Release>
    var catalog: seq<P.Device>
    var devices: seq<F.Device>
    var assignments: seq<F.Assignment>
    var commands: seq<F.Command>
    var reports: seq<F.Report>
    var approvals: seq<Approval>
    var evaluations: seq<Evaluation>
    var gates: seq<GateJob>
    var starts: seq<StartJob>
    var keys: seq<KeyStatus>
    var ready: set<F.Artifact>
    var changes: seq<Change>

    function Fleet(): F.Fleet
      reads this
    {
      F.Fleet(devices, assignments, commands, reports)
    }

    function Db(): Database
      reads this
    {
      Database(releases, catalog, Fleet(), approvals, evaluations, gates, starts, keys, ready, changes)
    }

    constructor ()
      ensures Db() == EMPTY
    {
      releases, catalog, devices, assignments, commands, reports := [], [], [], [], [], [];
      approvals, evaluations, gates, starts, keys, ready, changes := [], [], [], [], [], {}, [];
    }

    /** Puts every table back, as an outermost transaction does when its operation fails. */
    method Restore(before: Database)
      modifies this
      ensures Db() == before
    {
      releases, catalog, approvals, evaluations := before.releases, before.catalog, before.approvals, before.evaluations;
      gates, starts, keys, ready, changes := before.gates, before.starts, before.keys, before.ready, before.changes;
      RestoreFleet(before.fleet);
    }

    method RestoreFleet(before: F.Fleet)
      modifies this`devices, this`assignments, this`commands, this`reports
      ensures Fleet() == before
    {
      devices, assignments := before.devices, before.assignments;
      commands, reports := before.commands, before.reports;
    }

    // ---- single writes ----

    /** The compare-and-set on the release version. */
    method UpdateRelease(r: nat, status: ReleaseState, expected: int) returns (ok: bool)
      modifies this`releases
      ensures ok == (Known(old(Db()), r) && old(Db()).releases[r].version == expected)
      ensures Db() == if ok then SetRelease(old(Db()), r, Move(old(releases)[r], status)) else old(Db())
    {
      ok := r < |releases| && releases[r].version == expected;
      if ok {
        releases := releases[r := releases[r].(status := status, version := expected + 1)];
      }
    }

    /** Raises a device's desired generation, never lowers it. */
    method RaiseDesired(device: nat, generation: int)
      requires device < |devices|
      modifies this`devices
      ensures devices == old(devices)[device := F.Raise(old(devices)[device], generation)]
    {
      if devices[device].desired < generation {
        devices := devices[device := devices[device].(desired := generation)];
      }
    }

    /** INSERT OR IGNORE of a command under its idempotency key. */
    method InsertCommand(c: F.Command)
      modifies this`commands
      ensures commands == F.Issue(old(commands), c)
    {
      var i := 0;
      while i < |commands| && F.CommandKey(commands[i]) != F.CommandKey(c)
        invariant 0 <= i <= |commands|
        invariant forall k :: 0 <= k < i ==> F.CommandKey(commands[k]) != F.CommandKey(c)
      {
        i := i + 1;
      }
      if i == |commands| {
        commands := commands + [c];
      }
    }

    /** The unique key of a release's assignments: the row already there, if any. */
    method FindAssignment(release: nat, device: nat) returns (row: Option<nat>)
      ensures row == F.Find(assignments, release, device)
    {
      row := None;
      var i := |assignments|;
      assert assignments[..i] == assignments;
      while i > 0 && row.None?
        invariant 0 <= i <= |assignments|
        invariant row.None? ==> F.Find(assignments, release, device) == F.Find(assignments[..i], release, device)
        invariant row.Some? ==> row == F.Find(assignments, release, device)
      {
        i := i - 1;
        assert assignments[..i + 1][..i] == assignments[..i];
        if assignments[i].release == release && assignments[i].device == device {
          row := Some(i);
        }
      }
      assert i == 0 ==> assignments[..i] == [];
    }

    /** A new assignment, the device's new generation and the install command. */
    method AssignDevice(release: nat, stage: nat, artifact: F.Artifact, device: nat)
      requires device < |devices|
      modifies this`devices, this`assignments, this`commands
      ensures Fleet() == F.Install(old(Fleet()), release, device, stage, artifact)
    {
      var generation := if devices[device].desired + 1 > 1 then devices[device].desired + 1 else 1;
      var existing := FindAssignment(release, device);
      if existing.None? {
        assignments := assignments + [F.Assignment(release, device, stage, artifact, generation, F.Commanded, 0, "")];
      }
      RaiseDesired(device, generation);
      if existing.None? {
        InsertCommand(F.Command(F.InstallCommand, |assignments| - 1, device, generation));
      }
    }

    /** An assignment's rollback: new artifact, new generation, new command. */
    method RetargetAssignment(i: nat, artifact: F.Artifact, byApproval: bool)
      requires i < |assignments| && assignments[i].device < |devices|
      modifies this`devices, this`assignments, this`commands
      ensures Fleet() == F.Retarget(old(Fleet()), i, artifact, byApproval)
    {
      var row := assignments[i];
      var generation := devices[row.device].desired + 1;
      if byApproval && generation < row.generation + 1 {
        generation := row.generation + 1;
      }
      assignments := assignments[i := row.(artifact := artifact, generation := generation, state := F.Pending)];
      if byApproval {
        assignments := assignments[i := assignments[i].(failureCode := "")];
      }
      RaiseDesired(row.device, generation);
      InsertCommand(F.Command(F.RollbackCommand, i, row.device, generation));
    }

    method WithdrawAssignment(i: nat)
      requires i < |assignments|
      modifies this`assignments, this`commands
      ensures Fleet() == F.Withdraw(old(Fleet()), i)
    {
      var row := assignments[i];
      if row.state == F.Pending || row.state == F.Commanded || row.state == F.Acknowledged {
        assignments := assignments[i := row.(state := F.Cancelling)];
        InsertCommand(F.Command(F.CancelCommand, i, row.device, row.generation));
      }
    }

    // ---- loops over rows ----

    /** Rolls back the release's assignments in the given states. */
    method RetargetAll(r: nat, artifact: F.Artifact, states: set<F.AssignmentState>, byApproval: bool)
      modifies this`devices, this`assignments, this`commands
      ensures Fleet() == H.Run(old(Fleet()), RetargetOps(old(assignments), r, artifact, states, byApproval))
    {
      var rows := assignments;
      for i := 0 to |rows|
        invariant reports == old(reports)
        invariant Fleet() == H.Run(old(Fleet()), RetargetOps(rows[..i], r, artifact, states, byApproval))
      {
        RetargetSnoc(old(Fleet()), rows, i, r, artifact, states, byApproval);
        if rows[i].release == r && rows[i].state in states && i < |assignments| && assignments[i].device < |devices| {
          RetargetAssignment(i, artifact, byApproval);
        }
      }
      assert rows[..|rows|] == rows;
    }

    /** Starts cancelling whatever the release still has in flight. */
    method WithdrawAll(r: nat)
      modifies this`assignments, this`commands
      ensures Fleet() == H.Run(old(Fleet()), WithdrawOps(old(assignments), r))
    {
      var rows := assignments;
      for i := 0 to |rows|
        invariant Fleet() == H.Run(old(Fleet()), WithdrawOps(rows[..i], r))
      {
        WithdrawSnoc(old(Fleet()), rows, i, r);
        if rows[i].release == r && F.InFlight(rows[i].state) && i < |assignments| {
          WithdrawAssignment(i);
        }
      }
      assert rows[..|rows|] == rows;
    }

    method InstallAll(r: nat, stage: nat, artifact: F.Artifact, members: seq<nat>)
      modifies this`devices, this`assignments, this`commands
      ensures Fleet() == H.Run(old(Fleet()), InstallOps(r, stage, artifact, members))
    {
      var ops := InstallOps(r, stage, artifact, members);
      for i := 0 to |members|
        invariant reports == old(reports)
        invariant Fleet() == H.Run(old(Fleet()), ops[..i])
      {
        assert ops[..i + 1] == ops[..i] + [ops[i]];
        RunSnoc(old(Fleet()), ops[..i], ops[i]);
        if members[i] < |devices| {
          AssignDevice(r, stage, artifact, members[i]);
        }
      }
      assert ops[..|members|] == ops;
    }

    /** Members of a wave still to be assigned, in cohort order. */
    method Unassigned(r: nat, members: seq<nat>) returns (found: seq<nat>)
      ensures found == Missing(Fleet(), r, members)
    {
      found := [];
      for i := 0 to |members|
        invariant found == Missing(Fleet(), r, members[..i])
      {
        assert members[..i + 1][..i] == members[..i];
        var row := FindAssignment(r, members[i]);
        if row.None? && members[i] < |devices| && devices[members[i]].eligible {
          found := found + [members[i]];
        }
      }
      assert members[..|members|] == members;
    }

    method StrandAssignment(i: nat)
      requires i < |assignments|
      modifies this`assignments
      ensures Fleet() == F.Expire(old(Fleet()), i)
    {
      if assignments[i].state == F.Pending || assignments[i].state == F.Commanded {
        assignments := assignments[i := assignments[i].(state := F.Stranded, failureCode := "COMMAND_EXPIRED")];
      }
    }

    /** Expired install commands strand assignments that never got further. */
    method ExpireCommands(due: set<nat>)
      modifies this`assignments
      ensures Db() == Rollout.ExpireCommands(old(Db()), due)
    {
      for k := 0 to |commands|
        invariant Fleet() == H.Run(old(Fleet()), ExpireOps(commands[..k], due))
      {
        ExpireSnoc(old(Fleet()), commands, k, due);
        if k in due && commands[k].kind == F.InstallCommand && commands[k].assignment < |assignments| {
          StrandAssignment(commands[k].assignment);
        }
      }
      assert commands[..|commands|] == commands;
    }

    // ---- validation ----

    /** Freezes a draft: the planner's members in ordinal order, one pending stage per percentage. */
    method ValidateRelease(r: nat, expected: int, roster: seq<nat>, hmac: P.Keyed, digest: seq<P.Member> -> string, name: string, salt: string)
      modifies this`releases
      ensures Db() == Freeze(old(Db()), r, expected, roster, hmac, name, salt)
    {
      var freezable := MayFreeze(r, expected, roster);
      if !freezable { return; }
      var percents := releases[r].policy.percents;
      var plan := P.MakePlan(hmac, digest, name, salt, RosterDevices(Db(), roster), percents);
      if plan.Ok? {
        WriteFrozen(r, FrozenMembers(Db(), roster, plan.value.members));
      }
    }

    /** Two compare-and-sets, through validating to ready, around the frozen rows. */
    method WriteFrozen(r: nat, members: seq<nat>)
      requires Known(Db(), r)
      modifies this`releases
      ensures Db() == SetRelease(old(Db()), r, FrozenRow(old(releases)[r], members))
    {
      var version := releases[r].version;
      var validating := UpdateRelease(r, Validating, version);
      var stages := PendingStages(releases[r].policy.percents);
      releases := releases[r := releases[r].(stages := stages, members := members, current := 1)];
      assert releases[r].stages == FrozenRow(old(releases)[r], members).stages;
      var ready := UpdateRelease(r, Ready, version + 1);
    }

    /** The route's refusals: state, version, roster, trust of both artifacts, and first installs. */
    method MayFreeze(r: nat, expected: int, roster: seq<nat>) returns (ok: bool)
      ensures ok == Freezable(Db(), r, expected, roster)
    {
      if r >= |releases| { return false; }
      var row := releases[r];
      var eligible := CheckRoster(roster);
      if !eligible || (row.status != Draft && row.status != Blocked) || expected != row.version { return false; }
      var target := IsTrusted(row.artifact);
      if !target { return false; }
      if row.rollback.Some? {
        var fallback := IsTrusted(row.rollback.value);
        return fallback && row.rollback.value.key != row.artifact.key;
      }
      ok := row.policy.rollback == AllowFirstInstall;
      if ok { ok := NothingInstalled(roster); }
    }

    method IsTrusted(a: F.Artifact) returns (ok: bool)
      ensures ok == Trusted(Db(), a)
    {
      ok := a in ready && a.key < |keys| && keys[a.key] == ActiveKey;
    }

    method CheckRoster(roster: seq<nat>) returns (ok: bool)
      ensures ok == Roster(Db(), roster)
    {
      if roster == [] { return false; }
      for k := 0 to |roster|
        invariant forall j :: 0 <= j < k ==> roster[j] < |catalog| && roster[j] < |devices| && devices[roster[j]].eligible
        invariant forall i, j :: 0 <= i < j < k ==> roster[i] != roster[j]
      {
        if roster[k] >= |catalog| || roster[k] >= |devices| || !devices[roster[k]].eligible { return false; }
        for j := 0 to k
          invariant forall i :: 0 <= i < j ==> roster[i] != roster[k]
        {
          if roster[j] == roster[k] { return false; }
        }
      }
      ok := true;
    }

    /** No device of the roster has reported an installation. */
    method NothingInstalled(roster: seq<nat>) returns (ok: bool)
      requires Roster(Db(), roster)
      ensures ok == forall k :: 0 <= k < |roster| ==>
        Enlisted(Db(), roster[k]).observedArtifactDigest == "" && Enlisted(Db(), roster[k]).observedGeneration == 0
    {
      for k := 0 to |roster|
        invariant forall j :: 0 <= j < k ==>
          Enlisted(Db(), roster[j]).observedArtifactDigest == "" && Enlisted(Db(), roster[j]).observedGeneration == 0
      {
        var device := devices[roster[k]];
        if device.observedDigest != "" || (device.observed.Some? && device.observed.value != 0) { return false; }
      }
      ok := true;
    }

    method PendingStages(percents: seq<int>) returns (stages: seq<Stage>)
      ensures stages == seq(|percents|, k requires 0 <= k < |percents| => Stage(percents[k], Pending))
    {
      stages := [];
      for k := 0 to |percents|
        invariant |stages| == k && forall j :: 0 <= j < k ==> stages[j] == Stage(percents[j], Pending)
      {
        stages := stages + [Stage(percents[k], Pending)];
      }
    }

    // ---- stages ----

    /** Opens the stage after `completed`; when it reports failure the caller's transaction is undone. */
    method ActivateNextStage(r: nat, completed: nat) returns (ok: bool)
      requires Known(Db(), r)
      modifies this`releases, this`devices, this`assignments, this`commands
      ensures ok == Activate(old(Db()), r, completed).Some?
      ensures ok ==> Db() == Activate(old(Db()), r, completed).value
    {
      var row := releases[r];
      if completed >= |row.stages| || row.stages[completed].status != Pending { return true; }
      ActivateOpensStage(Db(), r, completed);
      var count := TargetCount(|row.members|, row.stages[completed].percentage);
      AssignWave(r, completed + 1, row.artifact, row.members[..count]);
      ok := OpenStage(r, completed);
    }

    method AssignWave(r: nat, stage: nat, artifact: F.Artifact, members: seq<nat>)
      modifies this`devices, this`assignments, this`commands
      ensures Fleet() == H.Run(old(Fleet()), InstallOps(r, stage, artifact, Missing(old(Fleet()), r, members)))
    {
      var missing := Unassigned(r, members);
      InstallAll(r, stage, artifact, missing);
    }

    /** Marks the stage active, moves the cursor of a running release, and looks whether it got there. */
    method OpenStage(r: nat, completed: nat) returns (ok: bool)
      requires Known(Db(), r) && completed < |releases[r].stages|
      modifies this`releases
      ensures var row := old(releases)[r];
        && ok == (row.status == Running && row.current in {completed, completed + 1})
        && (ok ==> releases == old(releases)[r := OpenedRow(row, completed)])
    {
      var row := releases[r];
      row := row.(stages := row.stages[completed := row.stages[completed].(status := Active)]);
      if row.status == Running && row.current == completed {
        row := row.(current := completed + 1, version := row.version + 1);
      }
      releases := releases[r := row];
      ok := row.status == Running && row.current == completed + 1;
    }

    /** The operator's start: opens stage 1 and assigns the first wave. */
    method OpenFirstStage(r: nat)
      requires Known(Db(), r)
      modifies this`releases, this`devices, this`assignments, this`commands
      ensures Db() == OpenFirst(old(Db()), r)
    {
      var row := releases[r];
      if row.stages != [] {
        if row.stages[0].status == Pending {
          releases := releases[r := row.(stages := row.stages[0 := row.stages[0].(status := Active)])];
        }
        var count := FirstWave(|row.members|, row.stages[0].percentage);
        InstallAll(r, 1, row.artifact, if 0 <= count <= |row.members| then row.members[..count] else []);
      }
    }

    /** The rollback job: nothing is written unless the frozen artifact is still trusted and intact. */
    method IssueRollbackCommands(r: nat, bytesMatch: bool) returns (ok: bool)
      requires Known(Db(), r)
      modifies this`devices, this`assignments, this`commands
      ensures ok == (var row := old(Db()).releases[r]; row.rollback.Some? && Trusted(old(Db()), row.rollback.value) && bytesMatch)
      ensures Db() == if ok
        then old(Db()).(fleet := H.Run(old(Fleet()),
               RetargetOps(old(assignments), r, old(releases)[r].rollback.value, RETARGETABLE, false)))
        else old(Db())
    {
      var row := releases[r];
      ok := row.rollback.Some? && row.rollback.value in ready && row.rollback.value.key < |keys|
        && keys[row.rollback.value.key] == ActiveKey && bytesMatch;
      if ok {
        RetargetAll(r, row.rollback.value, RETARGETABLE, false);
      }
    }

    // ---- settling ----

    method Survey(r: nat) returns (busy: bool, touched: bool, broke: bool)
      ensures busy == Busy(assignments, r) && touched == Touched(assignments, r) && broke == RollbackBroke(assignments, r)
    {
      busy, touched, broke := false, false, false;
      for i := 0 to |assignments|
        invariant busy == Busy(assignments[..i], r)
        invariant touched == Touched(assignments[..i], r)
        invariant broke == RollbackBroke(assignments[..i], r)
      {
        var a := assignments[i];
        assert assignments[..i + 1] == assignments[..i] + [a];
        if a.release == r {
          touched := true;
          if a.state in {F.Pending, F.Commanded, F.Acknowledged, F.Cancelling} { busy := true; }
          if a.state == F.Failed && a.failureCode == "ROLLBACK_FAILED" { broke := true; }
        }
      }
      assert assignments[..|assignments|] == assignments;
    }

    /** Ends a release on its way out once none of its assignments is open. */
    method SettleRelease(r: nat) returns (ok: bool)
      requires Known(Db(), r)
      modifies this`releases
      ensures ok == !(Settling(old(Db()), r) && !Touched(old(assignments), r))
      ensures Db() == Settle(old(Db()), r)
    {
      var row := releases[r];
      if row.status != Aborting && row.status != RollingBack { return true; }
      var busy, touched, broke := Survey(r);
      if busy { return true; }
      if !touched { return false; }
      var next := if row.status == Aborting then Aborted else if broke then ReleaseState.Failed else RolledBack;
      ok := UpdateRelease(r, next, row.version);
    }

    // ---- the gate job's measurement ----

    /** One pass over the assignments of the stages up to this one. */
    method CountStates(r: nat, stage: nat) returns (total: nat, converged: nat, failed: nat, stranded: nat)
      ensures total == CountExposed(assignments, r, stage)
      ensures converged == CountIn(assignments, r, stage, F.Converged)
      ensures failed == CountIn(assignments, r, stage, F.Failed)
      ensures stranded == CountIn(assignments, r, stage, F.Stranded)
    {
      total, converged, failed, stranded := 0, 0, 0, 0;
      for i := 0 to |assignments|
        invariant total == CountExposed(assignments[..i], r, stage)
        invariant converged == CountIn(assignments[..i], r, stage, F.Converged)
        invariant failed == CountIn(assignments[..i], r, stage, F.Failed)
        invariant stranded == CountIn(assignments[..i], r, stage, F.Stranded)
      {
        var a := assignments[i];
        assert assignments[..i + 1][..i] == assignments[..i];
        if a.release == r && a.stage <= stage {
          total := total + 1;
          if a.state == F.Converged { converged := converged + 1; }
          if a.state == F.Failed { failed := failed + 1; }
          if a.state == F.Stranded { stranded := stranded + 1; }
        }
      }
      assert assignments[..|assignments|] == assignments;
    }

    method MeasureStage(g: nat, t: Telemetry)
      modifies this`gates
      ensures Db() == MeasureGate(old(Db()), g, t)
    {
      if g >= |gates| || !gates[g].Captured? || gates[g].release >= |releases| { return; }
      var job := gates[g];
      var r, stage, version := job.release, job.stage, job.version;
      var total, converged, failed, stranded := CountStates(r, stage);
      var metrics := G.Metrics(total, if t.iotReady then t.reporting else 0, failed, t.healthFailures, 0, converged, stranded, t.crashFreePercent);
      var thresholds := if releases[r].status == Running then Thresholds(releases[r]) else G.DEFAULTS;
      gates := gates[g := Measured(r, stage, version, metrics, G.Evaluate(metrics, thresholds))];
    }

    // ---- the gate job's commit ----

    method JudgeStage(r: nat, stage: nat, metrics: G.Metrics, decision: G.Decision)
      requires Known(Db(), r) && 1 <= stage <= |releases[r].stages|
      modifies this`releases, this`evaluations
      ensures Db() == Judged(old(Db()), r, stage, metrics, decision)
    {
      var row := releases[r];
      evaluations := evaluations + [Evaluation(r, stage, decision, metrics, true)];
      releases := releases[r := row.(stages := row.stages[stage - 1 := Verdict(row.stages[stage - 1], decision)])];
    }

    method CarryOutDecision(r: nat, stage: nat, version: int, decision: G.Decision, hasNext: bool, bytesMatch: bool) returns (ok: bool)
      requires Known(Db(), r) && releases[r].version == version
      modifies this
      ensures ok == CarryOut(old(Db()), r, stage, decision, hasNext, bytesMatch).Some?
      ensures ok ==> Db() == CarryOut(old(Db()), r, stage, decision, hasNext, bytesMatch).value
    {
      match decision
      case Pass =>
        if hasNext { ok := ActivateNextStage(r, stage); } else { ok := UpdateRelease(r, Completed, version); }
      case Rollback =>
        ok := IssueRollbackCommands(r, bytesMatch);
        if ok { ok := UpdateRelease(r, RollingBack, version); }
      case Abort => ok := UpdateRelease(r, Aborting, version);
      case Pause => ok := UpdateRelease(r, Paused, version);
      case InsufficientEvidence => ok := true;
    }

    /** The transaction of one measured gate, against the version captured before measuring. */
    method CommitEvaluation(g: nat, bytesMatch: bool)
      modifies this
      ensures Db() == CommitGate(old(Db()), g, bytesMatch)
    {
      if g >= |gates| || !gates[g].Measured? || gates[g].release >= |releases| { return; }
      var before := Db();
      var Measured(r, stage, version, metrics, decision) := gates[g];
      var row := releases[r];
      if row.version != version || !(1 <= stage <= |row.stages|) || !LegalGate(row.status, decision, HasNext(row, stage)) { return; }
      var ok := AttemptDecision(r, stage, metrics, decision, bytesMatch);
      if ok {
        gates := gates[g := Finished];
      } else {
        Restore(before);
      }
    }

    method AttemptDecision(r: nat, stage: nat, metrics: G.Metrics, decision: G.Decision, bytesMatch: bool) returns (ok: bool)
      requires Known(Db(), r) && 1 <= stage <= |releases[r].stages|
      modifies this
      ensures var done := Attempt(old(Db()), r, stage, metrics, decision, bytesMatch);
        ok == done.Some? && (ok ==> Db() == done.value)
    {
      var row := releases[r];
      JudgeStage(r, stage, metrics, decision);
      ok := CarryOutDecision(r, stage, row.version, decision, HasNext(row, stage), bytesMatch);
      if ok { ok := SettleRelease(r); }
    }

    // ---- approvals ----

    method ConsumeApprovals(r: nat, control: Control, version: int)
      modifies this`approvals
      ensures approvals == Consume(old(approvals), Usables(old(approvals), r, control, version))
    {
      var done: seq<Approval> := [];
      for i := 0 to |approvals|
        invariant |done| == i
        invariant forall k :: 0 <= k < i ==> done[k] == Consume(approvals, Usables(approvals, r, control, version))[k]
      {
        var a := approvals[i];
        var usable := a.release == r && a.action == control && a.status == Approved && a.approvedVersion == Some(version) && !a.consumed;
        done := done + [if usable then a.(consumed := true) else a];
      }
      approvals := done;
      assert approvals == Consume(old(approvals), Usables(old(approvals), r, control, version));
    }

    method ExpireLapsed(lapsed: set<nat>)
      modifies this`approvals
      ensures |approvals| == |old(approvals)|
      ensures forall k :: 0 <= k < |approvals| ==> approvals[k] == Lapse(old(approvals)[k], k in lapsed)
    {
      for i := 0 to |approvals|
        invariant |approvals| == |old(approvals)|
        invariant forall k :: 0 <= k < |approvals| ==>
          approvals[k] == if k < i then Lapse(old(approvals)[k], k in lapsed) else old(approvals)[k]
      {
        if approvals[i].status == Requested && i in lapsed {
          approvals := approvals[i := approvals[i].(status := Expired)];
        }
      }
    }

    method SupersedeStale()
      modifies this`approvals
      ensures |approvals| == |old(approvals)|
      ensures forall k :: 0 <= k < |approvals| ==> approvals[k] == Outdate(old(approvals)[k], releases)
    {
      for i := 0 to |approvals|
        invariant |approvals| == |old(approvals)|
        invariant forall k :: 0 <= k < |approvals| ==>
          approvals[k] == if k < i then Outdate(old(approvals)[k], releases) else old(approvals)[k]
      {
        var a := approvals[i];
        if a.status == Requested && a.release < |releases| && a.captured != releases[a.release].version {
          approvals := approvals[i := a.(status := Superseded)];
        }
      }
    }

    /** Maintenance: lapsed requests first, then those bound to a version that has passed. */
    method ExpireRequests(lapsed: set<nat>)
      modifies this`approvals
      ensures Db() == ExpireApprovals(old(Db()), lapsed)
    {
      ExpireLapsed(lapsed);
      SupersedeStale();
      assert approvals == ExpireApprovals(old(Db()), lapsed).approvals;
    }

    // ---- scheduled starts ----

    method StartScheduled(r: nat, version: int) returns (ok: bool)
      requires Known(Db(), r)
      modifies this`releases, this`devices, this`assignments, this`commands
      ensures var row := old(releases)[r];
        var result := Activate(SetRelease(old(Db()), r, Move(row, Running).(current := 0)), r, 0);
        ok == (row.version == version && result.Some?) && (ok ==> Db() == result.value)
      ensures old(releases)[r].version != version ==> Db() == old(Db())
    {
      ok := UpdateRelease(r, Running, version);
      if ok {
        releases := releases[r := releases[r].(current := 0)];
        ok := ActivateNextStage(r, 0);
      }
    }

    method CommitScheduledStart(s: nat)
      modifies this
      ensures Db() == CommitStart(old(Db()), s)
    {
      if s >= |starts| || !starts[s].StartSeen? || !starts[s].authorised || starts[s].release >= |releases| { return; }
      var before := Db();
      var StartSeen(r, version, _) := starts[s];
      var twoPerson := releases[r].policy.twoPerson;
      var ok := StartScheduled(r, version);
      if !ok {
        Restore(before);
        return;
      }
      var ids := {};
      if twoPerson {
        ids := Usables(approvals, r, StartControl, version);
        ConsumeApprovals(r, StartControl, version);
      } else {
        assert Consume(approvals, {}) == approvals;
      }
      starts := starts[s := StartDone];
      changes := changes + [Change(r, Start, version, ids)];
    }

    // ---- the operator's action, once nothing refuses it ----

    method ApplySideEffects(r: nat, action: ReleaseAction, version: int, actor: nat)
      requires Known(Db(), r)
      modifies this
      ensures Db() == SideEffects(old(Db()), r, action, version, actor)
    {
      match action
      case Submit => approvals := approvals + [Approval(r, StartControl, Requested, version + 1, None, actor, None, None, false)];
      case Cancel => SupersedeRequests(r);
      case Start => OpenFirstStage(r);
      case Rollback => if releases[r].rollback.Some? { RetargetAll(r, releases[r].rollback.value, STANDING, false); }
      case Abort => WithdrawAll(r);
      case _ =>
    }

    method SupersedeRequests(r: nat)
      modifies this`approvals
      ensures approvals == Supersede(old(approvals), r)
    {
      for i := 0 to |approvals|
        invariant |approvals| == |old(approvals)|
        invariant forall k :: 0 <= k < |approvals| ==>
          approvals[k] == if k < i then Supersede(old(approvals), r)[k] else old(approvals)[k]
      {
        if approvals[i].release == r && approvals[i].status == Requested {
          approvals := approvals[i := approvals[i].(status := Superseded)];
        }
      }
      assert approvals == Supersede(old(approvals), r);
    }

    /** Moves the release, does what the action does, uses up its approvals and records the change. */
    method PerformAction(r: nat, action: ReleaseAction, actor: nat)
      requires Known(Db(), r) && Transition(releases[r].status, action).Some?
      modifies this
      ensures Db() == Record(Perform(old(Db()), r, action, actor), r, action, old(releases)[r].version)
    {
      var version := releases[r].version;
      var ok := UpdateRelease(r, Transition(releases[r].status, action).value, version);
      ApplySideEffects(r, action, version, actor);
      var ids: set<nat> := {};
      if ControlOf(action).Some? {
        ids := Usables(approvals, r, ControlOf(action).value, version);
        ConsumeApprovals(r, ControlOf(action).value, version);
      }
      changes := changes + [Change(r, action, version, ids)];
    }

    method InsertRequest(r: nat, control: Control, captured: int, actor: nat)
      modifies this`approvals
      ensures Db() == Request(old(Db()), r, control, captured, None, actor)
    {
      approvals := approvals + [Approval(r, control, Requested, captured, None, actor, None, None, false)];
    }

    /** The release route: refusals first, then a request for a second person, then the action itself. */
    method Operate(r: nat, action: ReleaseAction, actor: nat, expected: int, lapsed: set<nat>)
      modifies this
      ensures Db() == Act(old(Db()), r, action, actor, expected, lapsed)
    {
      if r >= |releases| || action !in ROUTED || expected != releases[r].version {
        ActIgnored(Db(), r, action, actor, expected, lapsed);
        return;
      }
      var asks := MustAskFirst(r, action, lapsed);
      if asks {
        ActAsks(Db(), r, action, actor, expected, lapsed);
        RequestApproval(r, action, actor, lapsed);
      } else {
        ActUnasked(Db(), r, action, actor, expected, lapsed);
        TryAction(r, action, actor);
      }
    }

    /** The action of somebody who needs nobody else, unless the state refuses it. */
    method TryAction(r: nat, action: ReleaseAction, actor: nat)
      requires Known(Db(), r)
      modifies this
      ensures Db() == Unasked(old(Db()), r, action, actor)
    {
      var refused := RefusesAction(r, action);
      if !refused { PerformAction(r, action, actor); }
    }

    method MustAskFirst(r: nat, action: ReleaseAction, lapsed: set<nat>) returns (asks: bool)
      requires Known(Db(), r)
      ensures asks == MustAsk(Db(), r, action, lapsed)
    {
      asks := false;
      if NeedsSecondPerson(releases[r], action) {
        var entitled := HasApproval(r, ControlOf(action).value, releases[r].version, lapsed);
        asks := !entitled;
      }
    }

    /** The refusals of the current state, in the order the route makes them. */
    method RefusesAction(r: nat, action: ReleaseAction) returns (refused: bool)
      requires Known(Db(), r)
      ensures refused == Refused(Db(), releases[r], r, action)
    {
      if action == Resume {
        var passes := LatestPassed(r);
        if !passes { return true; }
      }
      if action == Rollback {
        var ready := RollbackAllowed(r);
        if !ready { return true; }
      }
      refused := Transition(releases[r].status, action).None?;
    }

    // ---- what the routes look up ----

    /** An approved start, resume, abort or rollback of this version, not used up and not lapsed. */
    method HasApproval(r: nat, control: Control, version: int, lapsed: set<nat>) returns (found: bool)
      ensures found == exists i :: i in Usables(approvals, r, control, version) && i !in lapsed
    {
      found := false;
      for i := 0 to |approvals|
        invariant found == exists k: nat :: k < i && Usable(approvals[k], r, control, version) && k !in lapsed
      {
        var a := approvals[i];
        if a.release == r && a.action == control && a.status == Approved && a.approvedVersion == Some(version) && !a.consumed && i !in lapsed {
          found := true;
        }
      }
    }

    method HasRequest(r: nat, control: Control, evaluation: Option<nat>, lapsed: set<nat>) returns (found: bool)
      ensures found == Outstanding(Db(), r, control, evaluation, lapsed)
    {
      found := false;
      for i := 0 to |approvals|
        invariant found == exists k :: 0 <= k < i && k !in lapsed && Waits(approvals[k], r, control, evaluation)
      {
        var a := approvals[i];
        if i !in lapsed && a.release == r && a.action == control && a.status == Requested
           && (control == OverrideControl ==> a.evaluation == evaluation) {
          found := true;
        }
      }
    }

    /** The latest evaluation of the release, looked for from the newest row down. */
    method LatestPassed(r: nat) returns (passed: bool)
      ensures passed == LatestPasses(evaluations, r)
    {
      var i := |evaluations|;
      assert evaluations[..i] == evaluations;
      while i > 0 && evaluations[i - 1].release != r
        invariant 0 <= i <= |evaluations|
        invariant LatestPasses(evaluations, r) == LatestPasses(evaluations[..i], r)
      {
        i := i - 1;
        assert evaluations[..i + 1][..i] == evaluations[..i];
      }
      assert i > 0 ==> evaluations[..i][i - 1] == evaluations[i - 1];
      passed := i > 0 && evaluations[i - 1].decision == G.Pass;
    }

    method RollbackAllowed(r: nat) returns (ok: bool)
      requires Known(Db(), r)
      ensures ok == RollbackReady(Db(), releases[r])
    {
      var row := releases[r];
      ok := row.stages != [] && row.rollback.Some? && row.rollback.value in ready && row.rollback.value.key < |keys|
        && keys[row.rollback.value.key] == ActiveKey;
    }

    method RequestApproval(r: nat, action: ReleaseAction, actor: nat, lapsed: set<nat>)
      requires Known(Db(), r) && ControlOf(action).Some?
      modifies this`approvals, this`releases
      ensures Db() == AskFirst(old(Db()), r, action, actor, lapsed)
    {
      var row, control := releases[r], ControlOf(action).value;
      if action == Schedule { return; }
      var asked := HasRequest(r, control, None, lapsed);
      if asked { return; }
      var fromReady := action == Start && row.status == Ready;
      InsertRequest(r, control, if fromReady then row.version + 1 else row.version, actor);
      if fromReady {
        var moved := UpdateRelease(r, AwaitingApproval, row.version);
      }
    }

    /** Writes the decision, moves the release, and starts whatever an approved action entails. */
    method DecideApproval(a: nat, actor: nat, approve: bool, lapsed: set<nat>)
      modifies this
      ensures Db() == Decide(old(Db()), a, actor, approve, lapsed)
    {
      var decidable := MayDecide(a, actor, approve, lapsed);
      if !decidable { return; }
      var approval := approvals[a];
      var r, start := approval.release, approval.action == StartControl;
      approvals := approvals[a := approval.(
        status := if approve then Approved else Rejected, decider := Some(actor),
        approvedVersion := if !approve then None else if start then Some(approval.captured + 1) else Some(approval.captured),
        consumed := approve && !start)];
      if approve || start {
        var ok := UpdateRelease(r, Outcome(approval.action), approval.captured);
        CarryOutApproval(r, approval.action);
        if !start {
          changes := changes + [Change(r, ActionOf(approval.action), approval.captured, {a})];
        }
      }
    }

    /** The refusals of a decision, in the order the route makes them. */
    method MayDecide(a: nat, actor: nat, approve: bool, lapsed: set<nat>) returns (ok: bool)
      ensures ok == Decidable(Db(), a, actor, approve, lapsed)
    {
      if a >= |approvals| || a in lapsed || approvals[a].status != Requested { return false; }
      var approval := approvals[a];
      if approval.requester == actor { return false; }
      if approval.release >= |releases| || releases[approval.release].version != approval.captured { return false; }
      if approval.action == OverrideControl {
        if approval.evaluation.None? || approval.evaluation.value >= |evaluations| { return false; }
        var evaluation := evaluations[approval.evaluation.value];
        if evaluation.release != approval.release || !Overridable(evaluation.decision) { return false; }
      }
      if approve || approval.action == StartControl {
        if Transition(releases[approval.release].status, ActionOf(approval.action)).None? { return false; }
      }
      ok := true;
      if approve && approval.action == RollbackControl { ok := RollbackAllowed(approval.release); }
    }

    method CarryOutApproval(r: nat, control: Control)
      requires Known(Db(), r)
      modifies this`devices, this`assignments, this`commands
      ensures Db() == Effects(old(Db()), r, control)
    {
      match control
      case AbortControl => WithdrawAll(r);
      case RollbackControl => if releases[r].rollback.Some? { RetargetAll(r, releases[r].rollback.value, RETARGETABLE, true); }
      case _ =>
    }

    // ---- device reports ----

    /** The report row, the device projection and the in-flight assignment it is about. */
    method StoreReport(r: F.Report)
      requires F.Acceptable(Fleet(), r)
      modifies this`devices, this`assignments, this`reports
      ensures Fleet() == F.Receive(old(Fleet()), r)
    {
      var highest := HighestGeneration(r.device);
      var device := devices[r.device];
      var cancelling := r.command.Some? && commands[r.command.value].kind == F.CancelCommand;
      reports := reports + [r];
      if r.sequence > device.lastSequence && r.generation <= highest {
        var projected := device.(lastSequence := r.sequence);
        if device.observed.None? || device.observed.value <= r.generation {
          projected := projected.(observedDigest := r.digest);
        }
        if device.observed.None? || device.observed.value < r.generation {
          projected := projected.(observed := Some(r.generation));
        }
        devices := devices[r.device := projected];
        var target := NewestInFlight(r.device);
        if target.Some? { SettleAssignment(target.value, r, cancelling); }
      }
    }

    /** The device's in-flight assignment with the highest generation. */
    method NewestInFlight(device: nat) returns (best: Option<nat>)
      ensures best == F.Newest(assignments, device)
    {
      best := None;
      for i := 0 to |assignments|
        invariant best == F.Newest(assignments[..i], device)
      {
        var a := assignments[i];
        assert assignments[..i + 1][..i] == assignments[..i];
        if a.device == device && (a.state == F.Pending || a.state == F.Commanded || a.state == F.Acknowledged) {
          if best.None? || assignments[best.value].generation < a.generation { best := Some(i); }
        }
      }
      assert assignments[..|assignments|] == assignments;
    }

    /** The state and failure code a report gives the assignment, unless a later one was there first. */
    method SettleAssignment(i: nat, r: F.Report, cancelling: bool)
      requires i < |assignments|
      modifies this`assignments
      ensures assignments == old(assignments)[i := F.Settle(old(assignments)[i], r, cancelling)]
    {
      var row := assignments[i];
      if row.latestSequence >= r.sequence { return; }
      var converged := r.generation == row.generation && r.digest == row.artifact.digest;
      var state, code := F.Acknowledged, row.failureCode;
      if r.resultCode == "failed" || r.resultCode == "install_failed" {
        state := F.Failed;
        code := if r.resultCode != "" then r.resultCode else if r.kind == F.RollbackResult then "ROLLBACK_FAILED" else "INSTALL_FAILED";
      } else if cancelling && (r.resultCode == "cancelled" || r.resultCode == "cancel_succeeded") {
        state := F.Superseded;
      } else if converged {
        state := if r.kind == F.RollbackResult then F.RolledBack else F.Converged;
      }
      assignments := assignments[i := row.(state := state, latestSequence := r.sequence, failureCode := code)];
    }

    method HighestGeneration(device: nat) returns (highest: int)
      ensures highest == F.HighestCommand(commands, device)
    {
      highest := 0;
      for i := 0 to |commands|
        invariant highest == F.HighestCommand(commands[..i], device)
      {
        assert commands[..i + 1][..i] == commands[..i];
        if commands[i].device == device && commands[i].generation > highest {
          highest := commands[i].generation;
        }
      }
      assert commands[..|commands|] == commands;
    }

    /** Everything that refuses a report, in order, and whether its identifier or sequence is taken. */
    method AnswerReport(r: F.Report) returns (answer: ReportAnswer)
      ensures answer == Answer(Db(), r)
    {
      if r.device >= |devices| { return Declined(Error("NOT_FOUND", 404)); }
      if r.reportId == "" || r.sequence < 1 || r.generation < 0 { return Declined(Error("INVALID_REPORT", 422)); }
      if r.release.Some? && r.release.value >= |releases| { return Declined(Error("NOT_FOUND", 404)); }
      if r.command.Some? && (r.command.value >= |commands| || commands[r.command.value].device != r.device) {
        return Declined(Error("NOT_FOUND", 404));
      }
      if r.release.Some? && r.command.Some? && Subject(Db(), r) != r.release { return Declined(Error("COMMAND_RELEASE_MISMATCH", 409)); }
      var stored, taken := FindReport(r.device, r.reportId, r.sequence);
      if stored.Some? {
        return if reports[stored.value].payload == r.payload then AcceptedBefore else Declined(Error("REPORT_ID_REUSED", 409));
      }
      return if taken then Declined(Error("REPORT_SEQUENCE_CONFLICT", 409)) else Accepted;
    }

    method FindReport(device: nat, id: string, sequence: int) returns (stored: Option<nat>, taken: bool)
      ensures stored == StoredReport(reports, device, id) && taken == SequenceTaken(reports, device, sequence)
    {
      stored, taken := None, false;
      for i := 0 to |reports|
        invariant stored == StoredReport(reports[..i], device, id)
        invariant taken == SequenceTaken(reports[..i], device, sequence)
      {
        assert reports[..i + 1][..i] == reports[..i];
        if reports[i].device == device {
          if reports[i].reportId == id { stored := Some(i); }
          if reports[i].sequence == sequence { taken := true; }
        }
        assert reports[..i + 1] == reports[..i] + [reports[i]];
      }
      assert reports[..|reports|] == reports;
    }

    /** Stores an accepted report and settles the release it is about. */
    method AcceptReport(report: F.Report) returns (answer: ReportAnswer)
      modifies this
      ensures answer == Answer(old(Db()), report) && Db() == TakeReport(old(Db()), report)
    {
      answer := AnswerReport(report);
      AnswerIsAcceptance(Db(), report);
      if answer != Accepted { return; }
      var subject := Subject(Db(), report);
      ReceivedOnce(Fleet(), report);
      StoreReport(report);
      if subject.Some? && subject.value < |releases| {
        var settled := SettleRelease(subject.value);
      }
    }

    // ---- keys ----

    /** Distrusts the key's artifacts, pauses running releases and blocks those yet to run. */
    method CompromiseKey(key: nat)
      modifies this
      ensures Db() == Compromise(old(Db()), key)
    {
      if key >= |keys| { return; }
      if keys[key] == ActiveKey { keys := keys[key := CompromisedKey]; }
      ready := set a | a in ready && a.key != key;
      AlarmReleases(key);
      assert releases == Compromise(old(Db()), key).releases;
    }

    method AlarmReleases(key: nat)
      modifies this`releases
      ensures |releases| == |old(releases)| && forall k :: 0 <= k < |releases| ==> releases[k] == Alarm(old(releases)[k], key)
    {
      for i := 0 to |releases|
        invariant |releases| == |old(releases)|
        invariant forall k :: 0 <= k < |releases| ==> releases[k] == if k < i then Alarm(old(releases)[k], key) else old(releases)[k]
      {
        var row := releases[i];
        if SignedBy(row, key) && (row.status == Running || row.status in {Ready, AwaitingApproval, Scheduled, Paused}) {
          var ok := UpdateRelease(i, if row.status == Running then Paused else Blocked, row.version);
        }
      }
    }
  }
}
