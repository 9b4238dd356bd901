/** Generation discipline, command uniqueness and convergence soundness, kept by every operation. */
module FleetProperties {
  import opened Wrappers
  import opened Fleet

  // ---- the invariant, clause by clause ----

  /** Every generation an assignment asks for is one its device was told to reach. */
  ghost predicate Bounded(f: Fleet) {
    && (forall d :: 0 <= d < |f.devices| ==> f.devices[d].desired >= 0)
    && (forall i :: 0 <= i < |f.assignments| ==>
          var a := f.assignments[i]; a.device < |f.devices| && 1 <= a.generation <= f.devices[a.device].desired)
  }

  /** At most one assignment per release and device; no generation is used twice on a device. */
  ghost predicate Unshared(f: Fleet) {
    forall i, j :: 0 <= i < j < |f.assignments| && f.assignments[i].device == f.assignments[j].device ==>
      f.assignments[i].release != f.assignments[j].release && f.assignments[i].generation != f.assignments[j].generation
  }

  predicate Directs(c: Command) { c.kind != CancelCommand }

  ghost predicate Addressed(f: Fleet) {
    forall k :: 0 <= k < |f.commands| ==>
      var c := f.commands[k];
      c.assignment < |f.assignments| && c.device == f.assignments[c.assignment].device
      && 1 <= c.generation <= f.assignments[c.assignment].generation
  }

  predicate SameTarget(c: Command, e: Command) { c.device == e.device && Directs(c) && Directs(e) }

  /** Install and rollback commands to one device carry strictly increasing generations. */
  ghost predicate Increasing(f: Fleet) {
    forall j, k :: 0 <= j < k < |f.commands| && SameTarget(f.commands[j], f.commands[k]) ==>
      f.commands[j].generation < f.commands[k].generation
  }

  /** A cancel command for the current generation only exists while the assignment is cancelling. */
  ghost predicate CancelsStand(f: Fleet) {
    forall k :: 0 <= k < |f.commands| && f.commands[k].assignment < |f.assignments| ==>
      var c, a := f.commands[k], f.assignments[f.commands[k].assignment];
      c.kind == CancelCommand && c.generation == a.generation ==> a.state == Cancelling
  }

  ghost predicate CommandedAt(f: Fleet, i: nat)
    requires i < |f.assignments|
  {
    exists k :: 0 <= k < |f.commands| && f.commands[k].assignment == i && Directs(f.commands[k])
      && f.commands[k].generation == f.assignments[i].generation && f.commands[k].device == f.assignments[i].device
  }

  ghost predicate Told(f: Fleet) {
    forall i :: 0 <= i < |f.assignments| ==> CommandedAt(f, i)
  }

  /** Somebody actually reported this assignment's generation and digest. */
  ghost predicate Witnessed(f: Fleet, i: nat)
    requires i < |f.assignments|
  {
    exists k :: 0 <= k < |f.reports| && f.reports[k].device == f.assignments[i].device
      && f.reports[k].generation == f.assignments[i].generation && f.reports[k].digest == f.assignments[i].artifact.digest
  }

  ghost predicate Sound(f: Fleet) {
    forall i :: 0 <= i < |f.assignments| && f.assignments[i].state in {Converged, RolledBack} ==> Witnessed(f, i)
  }

  /** The failure codes that can actually be stored; a failed rollback leaves no code of its own. */
  ghost predicate Coded(f: Fleet) {
    forall i :: 0 <= i < |f.assignments| ==> f.assignments[i].failureCode in {"", "failed", "install_failed", "COMMAND_EXPIRED"}
  }

  ghost predicate Consistent(f: Fleet) {
    Bounded(f) && Unshared(f) && Addressed(f) && Increasing(f) && CancelsStand(f) && Told(f) && Sound(f) && Coded(f)
  }

  // ---- what never goes backwards ----

  ghost predicate DeviceAdvanced(d: Device, e: Device) {
    && d.desired <= e.desired && d.lastSequence <= e.lastSequence
    && (d.observed.Some? ==> e.observed.Some? && d.observed.value <= e.observed.value)
  }

  /** Rows are only added, command and report rows never change, generations and sequences only rise. */
  ghost predicate Advanced(f: Fleet, g: Fleet) {
    && |f.devices| <= |g.devices| && |f.assignments| <= |g.assignments|
    && f.commands <= g.commands && f.reports <= g.reports
    && (forall d :: 0 <= d < |f.devices| ==> DeviceAdvanced(f.devices[d], g.devices[d]))
    && (forall i :: 0 <= i < |f.assignments| ==>
          g.assignments[i].release == f.assignments[i].release && g.assignments[i].device == f.assignments[i].device
          && g.assignments[i].stage == f.assignments[i].stage && f.assignments[i].generation <= g.assignments[i].generation)
  }

  lemma AdvancedTransitive(f: Fleet, g: Fleet, h: Fleet)
    requires Advanced(f, g) && Advanced(g, h)
    ensures Advanced(f, h)
  {
    forall d | 0 <= d < |f.devices| ensures DeviceAdvanced(f.devices[d], h.devices[d]) {
      assert DeviceAdvanced(g.devices[d], h.devices[d]);
    }
  }

  // ---- every operation keeps the invariant ----

  /** Nothing directed at the device is as new as a generation above its desired one. */
  lemma NewestYet(f: Fleet, device: nat)
    requires Consistent(f) && device < |f.devices|
    ensures forall k :: 0 <= k < |f.commands| && f.commands[k].device == device ==>
      f.commands[k].generation <= f.devices[device].desired
  {
    forall k | 0 <= k < |f.commands| && f.commands[k].device == device
      ensures f.commands[k].generation <= f.devices[device].desired
    {
      var a := f.assignments[f.commands[k].assignment];
      assert a.generation <= f.devices[a.device].desired;
    }
  }

  /** A fresh assignment row has no command yet, so its install command is really stored. */
  lemma InstallIsStored(f: Fleet, device: nat, generation: int)
    requires Consistent(f)
    ensures Issue(f.commands, Command(InstallCommand, |f.assignments|, device, generation))
         == f.commands + [Command(InstallCommand, |f.assignments|, device, generation)]
  {
    var key := CommandKey(Command(InstallCommand, |f.assignments|, device, generation));
    forall k | 0 <= k < |f.commands| ensures CommandKey(f.commands[k]) != key {
      assert f.commands[k].assignment < |f.assignments|;
    }
  }

  lemma WitnessKept(f: Fleet, g: Fleet, i: nat)
    requires i < |f.assignments| && i < |g.assignments| && f.reports <= g.reports && Witnessed(f, i)
    requires g.assignments[i].device == f.assignments[i].device && g.assignments[i].generation == f.assignments[i].generation
    requires g.assignments[i].artifact == f.assignments[i].artifact
    ensures Witnessed(g, i)
  {
    var k :| 0 <= k < |f.reports| && f.reports[k].device == f.assignments[i].device
      && f.reports[k].generation == f.assignments[i].generation && f.reports[k].digest == f.assignments[i].artifact.digest;
    assert g.reports[k] == f.reports[k];
  }

  lemma CommandKept(f: Fleet, g: Fleet, i: nat)
    requires i < |f.assignments| && i < |g.assignments| && f.commands <= g.commands && CommandedAt(f, i)
    requires g.assignments[i].device == f.assignments[i].device && g.assignments[i].generation == f.assignments[i].generation
    ensures CommandedAt(g, i)
  {
    var k :| 0 <= k < |f.commands| && f.commands[k].assignment == i && Directs(f.commands[k])
      && f.commands[k].generation == f.assignments[i].generation && f.commands[k].device == f.assignments[i].device;
    assert g.commands[k] == f.commands[k];
  }

  lemma InstallBounded(f: Fleet, release: nat, device: nat, stage: nat, artifact: Artifact)
    requires Bounded(f) && device < |f.devices|
    ensures Bounded(Install(f, release, device, stage, artifact))
  {
  }

  lemma InstallUnshared(f: Fleet, release: nat, device: nat, stage: nat, artifact: Artifact)
    requires Bounded(f) && Unshared(f) && device < |f.devices|
    ensures Unshared(Install(f, release, device, stage, artifact))
  {
    var g := Install(f, release, device, stage, artifact);
    if |g.assignments| > |f.assignments| {
      assert forall i :: 0 <= i < |f.assignments| ==> g.assignments[i] == f.assignments[i];
    }
  }

  lemma InstallCoded(f: Fleet, release: nat, device: nat, stage: nat, artifact: Artifact)
    requires Coded(f) && device < |f.devices|
    ensures Coded(Install(f, release, device, stage, artifact))
  {
  }

  lemma InstallCommands(f: Fleet, release: nat, device: nat, stage: nat, artifact: Artifact)
    requires Consistent(f) && device < |f.devices|
    ensures var g := Install(f, release, device, stage, artifact); Addressed(g) && Increasing(g)
  {
    NewestYet(f, device);
    InstallIsStored(f, device, f.devices[device].desired + 1);
  }

  lemma InstallStands(f: Fleet, release: nat, device: nat, stage: nat, artifact: Artifact)
    requires Consistent(f) && device < |f.devices|
    ensures CancelsStand(Install(f, release, device, stage, artifact))
  {
    InstallIsStored(f, device, f.devices[device].desired + 1);
  }

  lemma InstallTold(f: Fleet, release: nat, device: nat, stage: nat, artifact: Artifact)
    requires Consistent(f) && device < |f.devices|
    ensures var g := Install(f, release, device, stage, artifact); Told(g) && Sound(g)
  {
    var g := Install(f, release, device, stage, artifact);
    var n, generation := |f.assignments|, f.devices[device].desired + 1;
    InstallIsStored(f, device, generation);
    forall i | 0 <= i < n ensures CommandedAt(g, i) {
      CommandKept(f, g, i);
    }
    forall i | 0 <= i < n && g.assignments[i].state in {Converged, RolledBack} ensures Witnessed(g, i) {
      WitnessKept(f, g, i);
    }
    if Find(f.assignments, release, device).None? {
      assert g.commands[|f.commands|] == Command(InstallCommand, n, device, generation);
      assert CommandedAt(g, n);
    }
  }

  lemma InstallAdvances(f: Fleet, release: nat, device: nat, stage: nat, artifact: Artifact)
    requires Bounded(f) && device < |f.devices|
    ensures Advanced(f, Install(f, release, device, stage, artifact))
  {
  }

  lemma InstallKeeps(f: Fleet, release: nat, device: nat, stage: nat, artifact: Artifact)
    requires Consistent(f) && device < |f.devices|
    ensures var g := Install(f, release, device, stage, artifact); Consistent(g) && Advanced(f, g)
  {
    InstallBounded(f, release, device, stage, artifact);
    InstallUnshared(f, release, device, stage, artifact);
    InstallCoded(f, release, device, stage, artifact);
    InstallCommands(f, release, device, stage, artifact);
    InstallStands(f, release, device, stage, artifact);
    InstallTold(f, release, device, stage, artifact);
    InstallAdvances(f, release, device, stage, artifact);
  }

  /** What a retargeting leaves behind, for the rollback job and the approval route alike. */
  ghost predicate Retargeted(f: Fleet, g: Fleet, i: nat) {
    && i < |f.assignments| == |g.assignments| && f.assignments[i].device < |f.devices| && g.reports == f.reports
    && (var d := f.assignments[i].device;
        var generation := f.devices[d].desired + 1;
        && g.commands == f.commands + [Command(RollbackCommand, i, d, generation)]
        && g.devices == f.devices[d := f.devices[d].(desired := generation)]
        && g.assignments == f.assignments[i := g.assignments[i]]
        && g.assignments[i].release == f.assignments[i].release && g.assignments[i].device == d
        && g.assignments[i].stage == f.assignments[i].stage
        && g.assignments[i].generation == generation && g.assignments[i].state == Pending
        && g.assignments[i].failureCode in {"", f.assignments[i].failureCode})
  }

  /** The retargeting generation is above everything the device was told before. */
  lemma RetargetIsStored(f: Fleet, i: nat)
    requires Consistent(f) && i < |f.assignments|
    ensures var d := f.assignments[i].device;
      !Issued(f.commands, CommandKey(Command(RollbackCommand, i, d, f.devices[d].desired + 1)))
  {
    var d := f.assignments[i].device;
    NewestYet(f, d);
    var key := CommandKey(Command(RollbackCommand, i, d, f.devices[d].desired + 1));
    forall k | 0 <= k < |f.commands| ensures CommandKey(f.commands[k]) != key {
      assert f.commands[k].device == f.assignments[f.commands[k].assignment].device;
    }
  }

  lemma RetargetShape(f: Fleet, i: nat, artifact: Artifact, byApproval: bool)
    requires Consistent(f) && i < |f.assignments|
    ensures Retargeted(f, Retarget(f, i, artifact, byApproval), i)
  {
    RetargetIsStored(f, i);
  }

  lemma RetargetRows(f: Fleet, g: Fleet, i: nat)
    requires Bounded(f) && Unshared(f) && Coded(f) && Retargeted(f, g, i)
    ensures Bounded(g) && Unshared(g) && Coded(g) && Advanced(f, g)
  {
  }

  lemma RetargetCommands(f: Fleet, g: Fleet, i: nat)
    requires Consistent(f) && Retargeted(f, g, i)
    ensures Addressed(g) && Increasing(g)
  {
    NewestYet(f, f.assignments[i].device);
  }

  lemma RetargetStands(f: Fleet, g: Fleet, i: nat)
    requires Consistent(f) && Retargeted(f, g, i)
    ensures CancelsStand(g)
  {
    NewestYet(f, f.assignments[i].device);
  }

  lemma RetargetTold(f: Fleet, g: Fleet, i: nat)
    requires Told(f) && Sound(f) && Retargeted(f, g, i)
    ensures Told(g) && Sound(g)
  {
    forall j | 0 <= j < |g.assignments| ensures CommandedAt(g, j) {
      if j == i {
        assert g.commands[|f.commands|].assignment == i;
      } else {
        CommandKept(f, g, j);
      }
    }
    forall j | 0 <= j < |g.assignments| && g.assignments[j].state in {Converged, RolledBack} ensures Witnessed(g, j) {
      WitnessKept(f, g, j);
    }
  }

  lemma RetargetKeeps(f: Fleet, i: nat, artifact: Artifact, byApproval: bool)
    requires Consistent(f) && i < |f.assignments|
    ensures var g := Retarget(f, i, artifact, byApproval); Consistent(g) && Advanced(f, g)
  {
    var g := Retarget(f, i, artifact, byApproval);
    RetargetShape(f, i, artifact, byApproval);
    RetargetRows(f, g, i);
    RetargetCommands(f, g, i);
    RetargetStands(f, g, i);
    RetargetTold(f, g, i);
  }

  /** One row's state and code change, and a witness stands behind any converged state. */
  ghost predicate Restated(f: Fleet, g: Fleet, i: nat) {
    && i < |f.assignments| == |g.assignments| && f.commands <= g.commands && f.reports <= g.reports
    && |g.devices| == |f.devices|
    && (forall d :: 0 <= d < |f.devices| ==> DeviceAdvanced(f.devices[d], g.devices[d]))
    && g.assignments == f.assignments[i := g.assignments[i]]
    && (var a, b := f.assignments[i], g.assignments[i];
        b.release == a.release && b.device == a.device && b.stage == a.stage && b.artifact == a.artifact && b.generation == a.generation)
    && g.assignments[i].failureCode in {f.assignments[i].failureCode, "failed", "install_failed", "COMMAND_EXPIRED"}
    && (g.assignments[i].state in {Converged, RolledBack} ==> Witnessed(g, i))
  }

  lemma RestatedRows(f: Fleet, g: Fleet, i: nat)
    requires Bounded(f) && Unshared(f) && Coded(f) && Restated(f, g, i)
    ensures Bounded(g) && Unshared(g) && Coded(g) && Advanced(f, g)
  {
    forall d | 0 <= d < |f.devices| ensures g.devices[d].desired >= f.devices[d].desired >= 0 {
      assert DeviceAdvanced(f.devices[d], g.devices[d]);
    }
  }

  lemma RestatedTold(f: Fleet, g: Fleet, i: nat)
    requires Told(f) && Sound(f) && Restated(f, g, i)
    ensures Told(g) && Sound(g)
  {
    forall j | 0 <= j < |g.assignments| ensures CommandedAt(g, j) {
      CommandKept(f, g, j);
    }
    forall j | 0 <= j < |g.assignments| && g.assignments[j].state in {Converged, RolledBack} ensures Witnessed(g, j) {
      if j != i {
        WitnessKept(f, g, j);
      }
    }
  }

  lemma WithdrawCommands(f: Fleet, i: nat)
    requires Addressed(f) && Increasing(f) && CancelsStand(f) && Bounded(f) && i < |f.assignments|
    ensures var g := Withdraw(f, i); Addressed(g) && Increasing(g) && CancelsStand(g)
  {
  }

  lemma WithdrawKeeps(f: Fleet, i: nat)
    requires Consistent(f) && i < |f.assignments|
    ensures var g := Withdraw(f, i); Consistent(g) && Advanced(f, g)
  {
    var g := Withdraw(f, i);
    if InFlight(f.assignments[i].state) {
      assert Restated(f, g, i);
      RestatedRows(f, g, i);
      RestatedTold(f, g, i);
      WithdrawCommands(f, i);
    }
  }

  /** With the command table unchanged, a row that was cancelling is not disturbed. */
  lemma RestatedCommands(f: Fleet, g: Fleet, i: nat)
    requires Addressed(f) && Increasing(f) && CancelsStand(f) && Restated(f, g, i)
    requires g.commands == f.commands && f.assignments[i].state != Cancelling
    ensures Addressed(g) && Increasing(g) && CancelsStand(g)
  {
  }

  lemma ExpireKeeps(f: Fleet, i: nat)
    requires Consistent(f) && i < |f.assignments|
    ensures var g := Expire(f, i); Consistent(g) && Advanced(f, g)
  {
    var g := Expire(f, i);
    if f.assignments[i].state in {Pending, Commanded} {
      assert Restated(f, g, i);
      RestatedRows(f, g, i);
      RestatedTold(f, g, i);
      RestatedCommands(f, g, i);
    }
  }

  /** A settled assignment is converged only by a report of exactly its generation and digest. */
  lemma ReceiveShape(f: Fleet, r: Report)
    requires Acceptable(f, r) && Advances(f.devices[r.device], r, HighestCommand(f.commands, r.device))
    requires Bounded(f) && Newest(f.assignments, r.device).Some? && Sound(f)
    ensures Restated(f, Receive(f, r), Newest(f.assignments, r.device).value)
  {
    var g, i := Receive(f, r), Newest(f.assignments, r.device).value;
    assert g.reports[|f.reports|] == r;
    assert FailureCode(r, NextState(r, f.assignments[i], true), "") in {"", "failed", "install_failed"};
    if g.assignments[i].state in {Converged, RolledBack} {
      assert g.reports[|f.reports|].generation == g.assignments[i].generation;
      assert Witnessed(g, i);
    }
  }

  /** Only device rows change, new devices or new reports arrive. */
  lemma SameTables(f: Fleet, g: Fleet)
    requires Consistent(f) && |f.devices| <= |g.devices|
    requires g.assignments == f.assignments && g.commands == f.commands && f.reports <= g.reports
    requires forall d :: 0 <= d < |f.devices| ==> DeviceAdvanced(f.devices[d], g.devices[d])
    requires forall d :: |f.devices| <= d < |g.devices| ==> g.devices[d].desired >= 0
    ensures Consistent(g) && Advanced(f, g)
  {
    forall d | 0 <= d < |f.devices| ensures g.devices[d].desired >= f.devices[d].desired {
      assert DeviceAdvanced(f.devices[d], g.devices[d]);
    }
    forall j | 0 <= j < |g.assignments| ensures CommandedAt(g, j) { CommandKept(f, g, j); }
    forall j | 0 <= j < |g.assignments| && g.assignments[j].state in {Converged, RolledBack} ensures Witnessed(g, j) {
      WitnessKept(f, g, j);
    }
  }

  lemma ReceiveKeeps(f: Fleet, r: Report)
    requires Consistent(f)
    ensures var g := Receive(f, r); Consistent(g) && Advanced(f, g)
  {
    var g := Receive(f, r);
    if Acceptable(f, r) {
      var target := Newest(f.assignments, r.device);
      if Advances(f.devices[r.device], r, HighestCommand(f.commands, r.device)) && target.Some? {
        var i := target.value;
        ReceiveShape(f, r);
        RestatedRows(f, g, i);
        RestatedTold(f, g, i);
        RestatedCommands(f, g, i);
      } else {
        SameTables(f, g);
      }
    }
  }

  // ---- every run ----

  datatype Op =
    | Register(eligible: bool)
    | Enlist(device: nat, eligible: bool)
    | DoInstall(release: nat, device: nat, stage: nat, artifact: Artifact)
    | DoRetarget(assignment: nat, artifact: Artifact, byApproval: bool)
    | DoWithdraw(assignment: nat)
    | DoExpire(assignment: nat)
    | DoReceive(report: Report)

  const EMPTY := Fleet([], [], [], [])

  function Apply(f: Fleet, op: Op): Fleet {
    match op
    case Register(e) => f.(devices := f.devices + [Device(e, 0, None, "", 0)])
    case Enlist(d, e) => if d < |f.devices| then f.(devices := f.devices[d := f.devices[d].(eligible := e)]) else f
    case DoInstall(r, d, s, a) => if d < |f.devices| then Install(f, r, d, s, a) else f
    case DoRetarget(i, a, b) => if i < |f.assignments| && f.assignments[i].device < |f.devices| then Retarget(f, i, a, b) else f
    case DoWithdraw(i) => if i < |f.assignments| then Withdraw(f, i) else f
    case DoExpire(i) => if i < |f.assignments| then Expire(f, i) else f
    case DoReceive(r) => Receive(f, r)
  }

  function Run(f: Fleet, ops: seq<Op>): Fleet {
    if ops == [] then f else Apply(Run(f, ops[..|ops| - 1]), ops[|ops| - 1])
  }

  lemma ApplyKeeps(f: Fleet, op: Op)
    requires Consistent(f)
    ensures Consistent(Apply(f, op)) && Advanced(f, Apply(f, op))
  {
    var g := Apply(f, op);
    match op
    case Register(_) => SameTables(f, g);
    case Enlist(_, _) => SameTables(f, g);
    case DoInstall(r, d, s, a) => if d < |f.devices| { InstallKeeps(f, r, d, s, a); }
    case DoRetarget(i, a, b) => if i < |f.assignments| { RetargetKeeps(f, i, a, b); }
    case DoWithdraw(i) => if i < |f.assignments| { WithdrawKeeps(f, i); }
    case DoExpire(i) => if i < |f.assignments| { ExpireKeeps(f, i); }
    case DoReceive(r) => ReceiveKeeps(f, r);
  }

  lemma NothingConsistent(f: Fleet)
    requires f.devices == [] && f.assignments == [] && f.commands == [] && f.reports == []
    ensures Consistent(f)
  {
  }

  lemma EmptyConsistent()
    ensures Consistent(EMPTY)
  {
    NothingConsistent(EMPTY);
  }

  lemma {:induction false} RunKeeps(f: Fleet, ops: seq<Op>)
    requires Consistent(f)
    ensures Consistent(Run(f, ops)) && Advanced(f, Run(f, ops))
  {
    if ops != [] {
      var g := Run(f, ops[..|ops| - 1]);
      RunKeeps(f, ops[..|ops| - 1]);
      ApplyKeeps(g, ops[|ops| - 1]);
      AdvancedTransitive(f, g, Run(f, ops));
    }
  }

  // ---- the main results ----

  /** A row the desired-state poll may return: in flight, at least the desired generation, commanded at
      it by a command that is neither early nor expired. `live` holds the commands within their time. */
  predicate Servable(f: Fleet, device: nat, live: set<nat>, i: nat, k: nat) {
    && k in live && device < |f.devices| && i < |f.assignments| && k < |f.commands|
    && f.assignments[i].device == device && InFlight(f.assignments[i].state)
    && f.assignments[i].generation >= f.devices[device].desired
    && f.commands[k].assignment == i && f.commands[k].generation == f.assignments[i].generation
  }

  /** A poll can only return the newest install or rollback command ever issued to the device,
      and there is at most one row it can return, whichever commands are within their time. */
  lemma PollServesNewest(f: Fleet, device: nat, live: set<nat>, i: nat, k: nat)
    requires Consistent(f) && Servable(f, device, live, i, k)
    ensures Directs(f.commands[k]) && f.commands[k].generation == f.devices[device].desired
    ensures forall j :: 0 <= j < |f.commands| && f.commands[j].device == device && Directs(f.commands[j]) && j != k ==>
      j < k && f.commands[j].generation < f.commands[k].generation
    ensures forall x: nat, y: nat, other: set<nat> :: Servable(f, device, other, x, y) ==> x == i && y == k
  {
    NewestYet(f, device);
    assert Directs(f.commands[k]);
    forall j | 0 <= j < |f.commands| && f.commands[j].device == device && Directs(f.commands[j]) && j != k
      ensures j < k && f.commands[j].generation < f.commands[k].generation
    {
      assert f.commands[j].generation <= f.devices[device].desired;
    }
    forall x: nat, y: nat, other: set<nat> | Servable(f, device, other, x, y) ensures x == i && y == k {
      assert Directs(f.commands[y]);
    }
  }

  /** The newest install or rollback command of the device: it is within its time, and the row it was
      issued for still waits at that very generation. */
  ghost predicate Served(f: Fleet, device: nat, live: set<nat>, k: nat) {
    && k in live && k < |f.commands| && device < |f.devices| && f.commands[k].assignment < |f.assignments|
    && var (c, a) := (f.commands[k], f.assignments[f.commands[k].assignment]);
    && c.device == device && c.kind in {InstallCommand, RollbackCommand} && c.generation == f.devices[device].desired
    && a.state in {Pending, Commanded, Acknowledged} && a.generation == c.generation
  }

  /** A poll returns a row exactly when the device's newest command is to be served, and then that one. */
  lemma PollServesExactly(f: Fleet, device: nat, live: set<nat>)
    requires Consistent(f)
    ensures forall i: nat, k: nat :: Servable(f, device, live, i, k) <==> Served(f, device, live, k) && i == f.commands[k].assignment
  {
    forall i: nat, k: nat | Servable(f, device, live, i, k) ensures Served(f, device, live, k) {
      PollServesNewest(f, device, live, i, k);
    }
  }

  /** A device that reports what it was last told to reach is never ignored as reporting
      an unknown generation. */
  lemma CurrentGenerationIsKnown(f: Fleet, i: nat)
    requires Consistent(f) && i < |f.assignments|
    ensures f.assignments[i].generation <= HighestCommand(f.commands, f.assignments[i].device)
  {
    assert CommandedAt(f, i);
  }
}
