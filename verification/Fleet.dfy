/**
 * Devices, their assignments, the commands issued to them and the reports they send.
 * A table is a sequence whose index is the row's identifier; commands and reports are
 * append-only. Every operation below is one statement group of a stored transaction.
 */
module Fleet {
  import opened Wrappers

  /** Digest and signing key of an artifact never change after upload. */
  datatype Artifact = Artifact(id: nat, digest: string, key: nat)

  datatype AssignmentState =
    Pending | Commanded | Acknowledged | Converged | Failed | Cancelling | Stranded | RolledBack | Superseded

  datatype Assignment = Assignment(
    release: nat, device: nat, stage: nat, artifact: Artifact, generation: int,
    state: AssignmentState, latestSequence: int, failureCode: string)

  datatype Device = Device(eligible: bool, desired: int, observed: Option<int>, observedDigest: string, lastSequence: int)

  datatype CommandKind = InstallCommand | RollbackCommand | CancelCommand

  datatype Command = Command(kind: CommandKind, assignment: nat, device: nat, generation: int)

  datatype ReportKind =
    CommandReceived | InstallStarted | InstallResult | Observation | Health | HealthSample | RollbackResult | CredentialRotationAck

  /** `payload` is the digest of the whole request body. */
  datatype Report = Report(
    device: nat, reportId: string, sequence: int, kind: ReportKind, generation: int,
    digest: string, resultCode: string, payload: string, release: Option<nat>, command: Option<nat>)

  datatype Fleet = Fleet(
    devices: seq<Device>, assignments: seq<Assignment>, commands: seq<Command>, reports: seq<Report>)

  // ---- lookups ----

  /** The row of a release's assignment for a device, if there is one. */
  function Find(rows: seq<Assignment>, release: nat, device: nat): (r: Option<nat>)
    ensures r.Some? ==> r.value < |rows| && rows[r.value].release == release && rows[r.value].device == device
    ensures r.None? ==> forall i :: 0 <= i < |rows| ==> rows[i].release != release || rows[i].device != device
  {
    if rows == [] then None
    else if rows[|rows| - 1].release == release && rows[|rows| - 1].device == device then Some(|rows| - 1)
    else Find(rows[..|rows| - 1], release, device)
  }

  predicate InFlight(state: AssignmentState) { state in {Pending, Commanded, Acknowledged} }

  /** A device's in-flight assignment with the highest generation. */
  function Newest(rows: seq<Assignment>, device: nat): (r: Option<nat>)
    ensures r.Some? ==> r.value < |rows| && rows[r.value].device == device && InFlight(rows[r.value].state)
    ensures r.Some? ==> forall i :: 0 <= i < |rows| && rows[i].device == device && InFlight(rows[i].state) ==>
      rows[i].generation <= rows[r.value].generation
    ensures r.None? ==> forall i :: 0 <= i < |rows| ==> rows[i].device != device || !InFlight(rows[i].state)
  {
    if rows == [] then None
    else
      var n := |rows| - 1;
      var best := Newest(rows[..n], device);
      if rows[n].device == device && InFlight(rows[n].state) && (best.None? || rows[best.value].generation < rows[n].generation)
      then Some(n) else best
  }

  /** The highest generation ever commanded to a device, 0 if none. */
  function HighestCommand(commands: seq<Command>, device: nat): (g: int)
    ensures g >= 0
    ensures forall i :: 0 <= i < |commands| && commands[i].device == device ==> commands[i].generation <= g
    ensures g == 0 || exists i :: 0 <= i < |commands| && commands[i].device == device && commands[i].generation == g
  {
    if commands == [] then 0
    else
      var n := |commands| - 1;
      var best := HighestCommand(commands[..n], device);
      if commands[n].device == device && commands[n].generation > best then commands[n].generation else best
  }

  /** What a command's idempotency key distinguishes. */
  function CommandKey(c: Command): (CommandKind, nat, int) {
    (c.kind, c.assignment, if c.kind == InstallCommand then 0 else c.generation)
  }

  predicate Issued(commands: seq<Command>, key: (CommandKind, nat, int)) {
    exists i :: 0 <= i < |commands| && CommandKey(commands[i]) == key
  }

  /** INSERT OR IGNORE under the unique idempotency key. */
  function Issue(commands: seq<Command>, c: Command): seq<Command> {
    if Issued(commands, CommandKey(c)) then commands else commands + [c]
  }

  // ---- operations ----

  function Raise(d: Device, generation: int): Device {
    d.(desired := Max(d.desired, generation))
  }

  /** Assigns a device to a stage: a new generation, the assignment, and its install command.
      An existing assignment of the release is left alone, the generation is raised regardless. */
  function Install(f: Fleet, release: nat, device: nat, stage: nat, artifact: Artifact): Fleet
    requires device < |f.devices|
  {
    var generation := Max(1, f.devices[device].desired + 1);
    var raised := f.devices[device := Raise(f.devices[device], generation)];
    if Find(f.assignments, release, device).Some? then f.(devices := raised)
    else
      var row := Assignment(release, device, stage, artifact, generation, Commanded, 0, "");
      f.(devices := raised, assignments := f.assignments + [row],
         commands := Issue(f.commands, Command(InstallCommand, |f.assignments|, device, generation)))
  }

  /** Points an assignment at the rollback artifact under a new generation. The approval route
      also clears the failure code and keeps the generation above the assignment's own. */
  function Retarget(f: Fleet, i: nat, artifact: Artifact, byApproval: bool): Fleet
    requires i < |f.assignments| && f.assignments[i].device < |f.devices|
  {
    var row := f.assignments[i];
    var next := f.devices[row.device].desired + 1;
    var generation := if byApproval then Max(next, row.generation + 1) else next;
    var code := if byApproval then "" else row.failureCode;
    f.(devices := f.devices[row.device := Raise(f.devices[row.device], generation)],
       assignments := f.assignments[i := row.(artifact := artifact, generation := generation, state := Pending, failureCode := code)],
       commands := Issue(f.commands, Command(RollbackCommand, i, row.device, generation)))
  }

  /** Aborting: an in-flight assignment starts cancelling under its current generation. */
  function Withdraw(f: Fleet, i: nat): Fleet
    requires i < |f.assignments|
  {
    var row := f.assignments[i];
    if !InFlight(row.state) then f
    else
      f.(assignments := f.assignments[i := row.(state := Cancelling)],
         commands := Issue(f.commands, Command(CancelCommand, i, row.device, row.generation)))
  }

  /** The install command of a pending or commanded assignment ran out. */
  function Expire(f: Fleet, i: nat): Fleet
    requires i < |f.assignments|
  {
    var row := f.assignments[i];
    if row.state !in {Pending, Commanded} then f
    else f.(assignments := f.assignments[i := row.(state := Stranded, failureCode := "COMMAND_EXPIRED")])
  }

  // ---- reports ----

  /** The device row after a report that is ahead of the last one. */
  function Project(d: Device, r: Report): Device {
    d.(observed := if d.observed.None? || d.observed.value < r.generation then Some(r.generation) else d.observed,
       observedDigest := if d.observed.None? || d.observed.value <= r.generation then r.digest else d.observedDigest,
       lastSequence := r.sequence)
  }

  /** A report moves the projection only if it is ahead and reports no generation nobody commanded. */
  predicate Advances(d: Device, r: Report, highest: int) {
    r.sequence > d.lastSequence && r.generation <= highest
  }

  function NextState(r: Report, row: Assignment, cancelling: bool): AssignmentState {
    var converged := r.generation == row.generation && r.digest == row.artifact.digest;
    if r.resultCode in {"failed", "install_failed"} then Failed
    else if cancelling && r.resultCode in {"cancelled", "cancel_succeeded"} then Superseded
    else if r.kind == RollbackResult && converged then RolledBack
    else if converged then Converged
    else Acknowledged
  }

  function FailureCode(r: Report, state: AssignmentState, before: string): string {
    if state != Failed then before
    else if r.resultCode != "" then r.resultCode
    else if r.kind == RollbackResult then "ROLLBACK_FAILED"
    else "INSTALL_FAILED"
  }

  function Settle(row: Assignment, r: Report, cancelling: bool): Assignment {
    if row.latestSequence >= r.sequence then row
    else
      var state := NextState(r, row, cancelling);
      row.(state := state, latestSequence := r.sequence, failureCode := FailureCode(r, state, row.failureCode))
  }

  /** A new report identifier and sequence, from a known device, about one of its own commands. */
  predicate Acceptable(f: Fleet, r: Report) {
    && r.device < |f.devices| && r.reportId != "" && r.sequence >= 1 && r.generation >= 0
    && (forall i :: 0 <= i < |f.reports| && f.reports[i].device == r.device ==>
          f.reports[i].reportId != r.reportId && f.reports[i].sequence != r.sequence)
    && (r.command.Some? ==> r.command.value < |f.commands| && f.commands[r.command.value].device == r.device)
  }

  function Receive(f: Fleet, r: Report): Fleet {
    if !Acceptable(f, r) then f
    else
      var stored := f.(reports := f.reports + [r]);
      var device := f.devices[r.device];
      if !Advances(device, r, HighestCommand(f.commands, r.device)) then stored
      else
        var cancelling := r.command.Some? && f.commands[r.command.value].kind == CancelCommand;
        var target := Newest(f.assignments, r.device);
        var projected := stored.(devices := f.devices[r.device := Project(device, r)]);
        if target.None? then projected
        else projected.(assignments := f.assignments[target.value := Settle(f.assignments[target.value], r, cancelling)])
  }
}
