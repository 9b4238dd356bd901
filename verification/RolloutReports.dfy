/** Exactly what an accepted device report changes: the device row, one assignment, and a release it settles. */
module RolloutReports {
  import opened Wrappers
  import opened ReleaseMachine
  import opened Rollout
  import opened RolloutTheorems
  import opened RolloutEffects
  import F = Fleet
  import H = FleetProperties

  // ---- the device ----

  /** The report is ahead of the device's last one and names no generation beyond those commanded to it. */
  ghost predicate Ahead(f: F.Fleet, report: F.Report)
    requires report.device < |f.devices|
  {
    && report.sequence > f.devices[report.device].lastSequence
    && (report.generation == 0
        || exists k :: 0 <= k < |f.commands| && f.commands[k].device == report.device && f.commands[k].generation >= report.generation)
  }

  /** The last sequence moves up; the observed generation never falls, and the digest is that of the highest one. */
  ghost predicate Projected(d: F.Device, e: F.Device, report: F.Report) {
    && e.eligible == d.eligible && e.desired == d.desired && e.lastSequence == report.sequence
    && (d.observed.None? || d.observed.value < report.generation ==> e.observed == Some(report.generation))
    && (d.observed.Some? && d.observed.value >= report.generation ==> e.observed == d.observed)
    && (d.observed.None? || d.observed.value <= report.generation ==> e.observedDigest == report.digest)
    && (d.observed.Some? && d.observed.value > report.generation ==> e.observedDigest == d.observedDigest)
  }

  // ---- the assignment ----

  /** The device's row in flight with the highest generation. */
  ghost predicate Current(f: F.Fleet, device: nat, i: nat) {
    && i < |f.assignments| && Waiting(f.assignments[i], device)
    && forall j :: 0 <= j < |f.assignments| && Waiting(f.assignments[j], device) ==> f.assignments[j].generation <= f.assignments[i].generation
  }

  predicate Waiting(a: F.Assignment, device: nat) { a.device == device && a.state in {F.Pending, F.Commanded, F.Acknowledged} }

  predicate SaysFailed(report: F.Report) { report.resultCode == "failed" || report.resultCode == "install_failed" }

  /** The device confirms a cancel command it was sent. */
  predicate SaysCancelled(f: F.Fleet, report: F.Report) {
    && (report.resultCode == "cancelled" || report.resultCode == "cancel_succeeded")
    && report.command.Some? && report.command.value < |f.commands| && f.commands[report.command.value].kind == F.CancelCommand
  }

  /** The device runs exactly what the row asks for. */
  predicate SaysThere(a: F.Assignment, report: F.Report) {
    report.generation == a.generation && report.digest == a.artifact.digest
  }

  /** Failure first, then a confirmed cancellation, then arrival, by rollback or not; anything else is acknowledged. */
  ghost predicate Answered(f: F.Fleet, a: F.Assignment, b: F.Assignment, report: F.Report) {
    && b == a.(state := b.state, latestSequence := report.sequence, failureCode := b.failureCode)
    && (b.state == F.Failed <==> SaysFailed(report))
    && (b.state == F.Superseded <==> !SaysFailed(report) && SaysCancelled(f, report))
    && (b.state == F.RolledBack <==>
          !SaysFailed(report) && !SaysCancelled(f, report) && SaysThere(a, report) && report.kind == F.RollbackResult)
    && (b.state == F.Converged <==>
          !SaysFailed(report) && !SaysCancelled(f, report) && SaysThere(a, report) && report.kind != F.RollbackResult)
    && (b.state == F.Acknowledged <==> !SaysFailed(report) && !SaysCancelled(f, report) && !SaysThere(a, report))
    && (SaysFailed(report) ==> b.failureCode == report.resultCode) && (!SaysFailed(report) ==> b.failureCode == a.failureCode)
  }

  // ---- the fleet ----

  /** Everything a report ahead of its device does to the fleet, and everything else does not. */
  ghost predicate Reported(f: F.Fleet, g: F.Fleet, report: F.Report)
    requires report.device < |f.devices|
  {
    && g.reports == f.reports + [report] && g.commands == f.commands
    && |g.devices| == |f.devices| && |g.assignments| == |f.assignments|
    && (forall d :: 0 <= d < |f.devices| ==>
          if d == report.device && Ahead(f, report) then Projected(f.devices[d], g.devices[d], report) else g.devices[d] == f.devices[d])
    && (forall i: nat :: i < |f.assignments| ==> RowReported(f, g, report, i))
  }

  ghost predicate RowReported(f: F.Fleet, g: F.Fleet, report: F.Report, i: nat)
    requires report.device < |f.devices| && i < |f.assignments| && i < |g.assignments|
  {
    if Ahead(f, report) && Current(f, report.device, i) && f.assignments[i].latestSequence < report.sequence
    then Answered(f, f.assignments[i], g.assignments[i], report) else g.assignments[i] == f.assignments[i]
  }

  lemma AheadAdvances(f: F.Fleet, report: F.Report)
    requires F.Acceptable(f, report)
    ensures Ahead(f, report) <==> F.Advances(f.devices[report.device], report, F.HighestCommand(f.commands, report.device))
  {
  }

  /** No two rows of a device share a generation, so the current one is the one the fleet picks. */
  lemma {:induction false} CurrentIsNewest(f: F.Fleet, device: nat, i: nat)
    requires H.Consistent(f)
    ensures Current(f, device, i) <==> F.Newest(f.assignments, device) == Some(i)
  {
  }

  lemma SettlesRow(f: F.Fleet, a: F.Assignment, report: F.Report)
    requires F.Acceptable(f, report) && a.latestSequence < report.sequence
    ensures Answered(f, a, F.Settle(a, report, report.command.Some? && f.commands[report.command.value].kind == F.CancelCommand), report)
  {
  }

  lemma ReceiveTables(f: F.Fleet, report: F.Report)
    requires F.Acceptable(f, report)
    ensures var g := F.Receive(f, report);
      && g.reports == f.reports + [report] && g.commands == f.commands
      && |g.devices| == |f.devices| && |g.assignments| == |f.assignments|
      && forall d :: 0 <= d < |f.devices| ==>
           if d == report.device && Ahead(f, report) then Projected(f.devices[d], g.devices[d], report) else g.devices[d] == f.devices[d]
  {
    AheadAdvances(f, report);
  }

  lemma ReceiveRow(f: F.Fleet, report: F.Report, i: nat)
    requires H.Consistent(f) && F.Acceptable(f, report) && i < |f.assignments|
    ensures var g := F.Receive(f, report); i < |g.assignments| && RowReported(f, g, report, i)
  {
    AheadAdvances(f, report);
    CurrentIsNewest(f, report.device, i);
    if f.assignments[i].latestSequence < report.sequence { SettlesRow(f, f.assignments[i], report); }
  }

  lemma ReceiveReports(f: F.Fleet, report: F.Report)
    requires H.Consistent(f) && F.Acceptable(f, report)
    ensures Reported(f, F.Receive(f, report), report)
  {
    ReceiveTables(f, report);
    forall i: nat | i < |f.assignments| ensures RowReported(f, F.Receive(f, report), report, i) {
      ReceiveRow(f, report, i);
    }
  }

  // ---- the release ----

  /** A release on its way out has assignments and none that is still to answer. */
  ghost predicate Over(rows: seq<F.Assignment>, r: nat) {
    && (exists i :: 0 <= i < |rows| && rows[i].release == r)
    && (forall i :: 0 <= i < |rows| && rows[i].release == r ==>
          rows[i].state !in {F.Pending, F.Commanded, F.Acknowledged, F.Cancelling})
  }

  ghost predicate Settled(a: Release, b: Release, over: bool) {
    if over && a.status in {Aborting, RollingBack}
    then b == a.(status := if a.status == Aborting then Aborted else RolledBack, version := a.version + 1) else b == a
  }

  lemma SettleEnds(db: Database, r: nat)
    requires H.Consistent(db.fleet) && Known(db, r)
    ensures var next := Settle(db, r);
      && next == db.(releases := next.releases) && Settled(db.releases[r], next.releases[r], Over(db.fleet.assignments, r))
      && forall q :: 0 <= q < |db.releases| && q != r ==> next.releases[q] == db.releases[q]
  {
    assert Over(db.fleet.assignments, r) <==> Touched(db.fleet.assignments, r) && !Busy(db.fleet.assignments, r);
    assert !RollbackBroke(db.fleet.assignments, r);
  }

  lemma TakeSplits(db: Database, report: F.Report)
    requires Storable(db, report)
    ensures var mid := db.(fleet := F.Receive(db.fleet, report));
      TakeReport(db, report) == if Subject(db, report).Some? && Known(db, Subject(db, report).value) then Settle(mid, Subject(db, report).value) else mid
  {
    assert [H.DoReceive(report)][..0] == [] && H.Run(db.fleet, []) == db.fleet;
    assert H.Run(db.fleet, [H.DoReceive(report)]) == F.Receive(db.fleet, report);
  }

  /** The release a report is about: that of its command, or else the one it names. */
  ghost predicate About(db: Database, report: F.Report, r: nat) {
    if report.command.Some?
    then report.command.value < |db.fleet.commands| && db.fleet.commands[report.command.value].assignment < |db.fleet.assignments|
      && db.fleet.assignments[db.fleet.commands[report.command.value].assignment].release == r
    else report.release == Some(r)
  }

  /** From a known device, well formed, about a known release and one of the device's own commands of that
      release, and with an identifier and a sequence the device has not used. */
  ghost predicate Receivable(db: Database, report: F.Report) {
    && report.device < |db.fleet.devices| && report.reportId != "" && report.sequence >= 1 && report.generation >= 0
    && (report.release.Some? ==> report.release.value < |db.releases|)
    && (report.command.Some? ==>
          && report.command.value < |db.fleet.commands| && db.fleet.commands[report.command.value].device == report.device
          && (report.release.Some? ==> About(db, report, report.release.value)))
    && (forall i :: 0 <= i < |db.fleet.reports| && db.fleet.reports[i].device == report.device ==>
          db.fleet.reports[i].reportId != report.reportId && db.fleet.reports[i].sequence != report.sequence)
  }

  lemma ReceivableIsStorable(db: Database, report: F.Report)
    ensures Storable(db, report) <==> Receivable(db, report)
  {
  }

  predicate WellFormedReport(report: F.Report) { report.reportId != "" && report.sequence >= 1 && report.generation >= 0 }

  /** The release it names is known, and so is its command, as one of the device's own. */
  predicate Locatable(db: Database, report: F.Report) {
    && (report.release.Some? ==> report.release.value < |db.releases|)
    && (report.command.Some? ==> report.command.value < |db.fleet.commands| && db.fleet.commands[report.command.value].device == report.device)
  }

  /** A command of another release than the one it names. */
  ghost predicate Mismatched(db: Database, report: F.Report) {
    report.release.Some? && report.command.Some? && !About(db, report, report.release.value)
  }

  /** A stored report of the device under this identifier, with these bytes or with others. */
  ghost predicate Before(db: Database, report: F.Report, sameBytes: bool) {
    exists i :: 0 <= i < |db.fleet.reports| && db.fleet.reports[i].device == report.device
      && db.fleet.reports[i].reportId == report.reportId && (db.fleet.reports[i].payload == report.payload <==> sameBytes)
  }

  ghost predicate SequenceUsed(db: Database, report: F.Report) {
    exists i :: 0 <= i < |db.fleet.reports| && db.fleet.reports[i].device == report.device && db.fleet.reports[i].sequence == report.sequence
  }

  lemma BeforeExactly(db: Database, report: F.Report)
    requires DistinctReports(db.fleet)
    ensures var stored := StoredReport(db.fleet.reports, report.device, report.reportId);
      && (Before(db, report, true) <==> stored.Some? && db.fleet.reports[stored.value].payload == report.payload)
      && (Before(db, report, false) <==> stored.Some? && db.fleet.reports[stored.value].payload != report.payload)
  {
    var stored := StoredReport(db.fleet.reports, report.device, report.reportId);
    if stored.Some? { assert db.fleet.reports[stored.value].reportId == report.reportId; }
    forall i | 0 <= i < |db.fleet.reports| && db.fleet.reports[i].device == report.device && db.fleet.reports[i].reportId == report.reportId
      ensures stored == Some(i)
    {
    }
  }

  /** What the device is told, case by case: accepted exactly when the report is receivable, accepted before
      exactly for the same bytes under a used identifier, and otherwise exactly why not. */
  lemma AnswerExactly(db: Database, report: F.Report)
    requires DistinctReports(db.fleet)
    ensures var (answer, known) := (Answer(db, report), report.device < |db.fleet.devices|);
      var sane := known && WellFormedReport(report) && Locatable(db, report);
      && (answer == Accepted <==> Receivable(db, report))
      && (answer == AcceptedBefore <==> sane && !Mismatched(db, report) && Before(db, report, true))
      && (answer == Declined(Error("NOT_FOUND", 404)) <==> !known || (WellFormedReport(report) && !Locatable(db, report)))
      && (answer == Declined(Error("INVALID_REPORT", 422)) <==> known && !WellFormedReport(report))
      && (answer == Declined(Error("COMMAND_RELEASE_MISMATCH", 409)) <==> sane && Mismatched(db, report))
      && (answer == Declined(Error("REPORT_ID_REUSED", 409)) <==> sane && !Mismatched(db, report) && Before(db, report, false))
      && (answer == Declined(Error("REPORT_SEQUENCE_CONFLICT", 409)) <==>
            sane && !Mismatched(db, report) && !Before(db, report, true) && !Before(db, report, false) && SequenceUsed(db, report))
  {
    BeforeExactly(db, report);
    CodesDiffer();
    assert SequenceUsed(db, report) <==> SequenceTaken(db.fleet.reports, report.device, report.sequence);
  }

  lemma CodesDiffer()
    ensures |"NOT_FOUND"| == 9 && |"INVALID_REPORT"| == 14 && |"COMMAND_RELEASE_MISMATCH"| == 24
    ensures |"REPORT_ID_REUSED"| == 16 && |"REPORT_SEQUENCE_CONFLICT"| == 24 && "COMMAND_RELEASE_MISMATCH"[0] != "REPORT_SEQUENCE_CONFLICT"[0]
  {
  }

  /** An accepted report is stored, moves the device row and the current assignment as it says, settles the
      release it is about if that is over now, and changes nothing else; any other report changes nothing. */
  lemma ReportExactly(db: Database, report: F.Report)
    requires H.Consistent(db.fleet)
    ensures var next := TakeReport(db, report);
      if Receivable(db, report)
      then Reported(db.fleet, next.fleet, report) && |next.releases| == |db.releases| && next == db.(fleet := next.fleet, releases := next.releases)
        && forall r: nat :: r < |db.releases| ==> Settled(db.releases[r], next.releases[r], About(db, report, r) && Over(next.fleet.assignments, r))
      else next == db
  {
    ReceivableIsStorable(db, report);
    if Storable(db, report) {
      var mid := db.(fleet := F.Receive(db.fleet, report));
      ReceiveReports(db.fleet, report);
      H.ReceiveKeeps(db.fleet, report);
      TakeSplits(db, report);
      if Subject(db, report).Some? && Known(db, Subject(db, report).value) { SettleEnds(mid, Subject(db, report).value); }
    }
  }

  // ---- over runs ----

  lemma DeliveredExactly(steps: seq<Step>, report: F.Report)
    ensures var (db, next) := (Run(steps), Next(Run(steps), DeliverReport(report)));
      if Receivable(db, report)
      then Reported(db.fleet, next.fleet, report) && |next.releases| == |db.releases| && next == db.(fleet := next.fleet, releases := next.releases)
        && forall r: nat :: r < |db.releases| ==> Settled(db.releases[r], next.releases[r], About(db, report, r) && Over(next.fleet.assignments, r))
      else next == db
  {
    EveryRun(steps);
    NextReports(Run(steps), report);
    ReportExactly(Run(steps), report);
  }

  /** No device has used an identifier or a sequence twice. */
  ghost predicate DistinctReports(f: F.Fleet) {
    forall i, j :: 0 <= i < j < |f.reports| && f.reports[i].device == f.reports[j].device ==>
      f.reports[i].reportId != f.reports[j].reportId && f.reports[i].sequence != f.reports[j].sequence
  }

  lemma ApplyDistinct(f: F.Fleet, op: H.Op)
    requires DistinctReports(f)
    ensures DistinctReports(H.Apply(f, op))
  {
  }

  lemma {:induction false} RunDistinct(f: F.Fleet, ops: seq<H.Op>)
    requires DistinctReports(f)
    ensures DistinctReports(H.Run(f, ops))
  {
    if ops != [] {
      RunDistinct(f, ops[..|ops| - 1]);
      ApplyDistinct(H.Run(f, ops[..|ops| - 1]), ops[|ops| - 1]);
    }
  }

  lemma {:induction false} ReportsStayDistinct(db: Database, steps: seq<Step>)
    requires Invariant(db) && DistinctReports(db.fleet)
    ensures DistinctReports(RunFrom(db, steps).fleet)
  {
    if steps != [] {
      var before := steps[..|steps| - 1];
      ReportsStayDistinct(db, before);
      RunFromKeeps(db, before);
      var ops := StepIsRun(RunFrom(db, before), steps[|steps| - 1]);
      RunDistinct(RunFrom(db, before).fleet, ops);
    }
  }

  /** In every reachable state the stored reports of a device differ in identifier and in sequence. */
  lemma ReportsAreDistinct(steps: seq<Step>)
    ensures DistinctReports(Run(steps).fleet)
  {
    EmptyInvariant();
    ReportsStayDistinct(EMPTY, steps);
  }
}
