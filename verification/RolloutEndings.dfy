/** Exactly which aborts can settle without a second one, and which scheduled releases can start. */
module RolloutEndings {
  import opened Wrappers
  import opened ReleaseMachine
  import opened Rollout
  import opened RolloutFrames
  import opened RolloutInvariants
  import opened RolloutSteps
  import opened RolloutHistory
  import opened RolloutLedger
  import opened RolloutTheorems
  import opened RolloutLimits
  import opened RolloutEffects
  import F = Fleet
  import H = FleetProperties
  import G = GateEvaluator

  lemma {:induction false} RunOne(db: Database, step: Step)
    ensures RunFrom(db, [step]) == Next(db, step)
  {
    assert [step][..0] == [];
  }

  lemma {:induction false} RunTwo(db: Database, first: Step, second: Step)
    ensures RunFrom(db, [first, second]) == Next(Next(db, first), second)
  {
    assert [first, second][..1] == [first];
    RunOne(db, first);
  }

  // ---- cancelling is for releases on their way to aborted ----

  ghost predicate CancellingIsDown(db: Database) {
    forall i :: 0 <= i < |db.fleet.assignments| && db.fleet.assignments[i].state == F.Cancelling ==>
      Known(db, db.fleet.assignments[i].release) && db.releases[db.fleet.assignments[i].release].status in {Aborting, Aborted}
  }

  lemma ApplyCancels(f: F.Fleet, op: H.Op, i: nat)
    requires i < |H.Apply(f, op).assignments| && H.Apply(f, op).assignments[i].state == F.Cancelling
    ensures i < |f.assignments| && (f.assignments[i].state == F.Cancelling || op == H.DoWithdraw(i))
  {
  }

  /** Only a withdrawal makes a row cancelling. */
  lemma {:induction false} RunCancels(f: F.Fleet, ops: seq<H.Op>, i: nat)
    requires forall op :: op in ops && op.DoWithdraw? ==> op.assignment < |f.assignments|
    requires i < |H.Run(f, ops).assignments| && H.Run(f, ops).assignments[i].state == F.Cancelling
    ensures i < |f.assignments| && (f.assignments[i].state == F.Cancelling || H.DoWithdraw(i) in ops)
  {
    if ops != [] {
      var before := ops[..|ops| - 1];
      ApplyCancels(H.Run(f, before), ops[|ops| - 1], i);
      if H.Run(f, before).assignments[i].state == F.Cancelling { RunCancels(f, before, i); }
    }
  }

  /** A row found cancelling after a step is owned by a release on its way to aborted. */
  lemma CancellingRow(db: Database, next: Database, ops: seq<H.Op>, i: nat)
    requires CancellingIsDown(db) && RowsMove(db, next) && H.Advanced(db.fleet, next.fleet) && Runs(db, next, ops)
    requires i < |next.fleet.assignments| && next.fleet.assignments[i].state == F.Cancelling
    ensures Known(next, next.fleet.assignments[i].release)
    ensures next.releases[next.fleet.assignments[i].release].status in {Aborting, Aborted}
  {
    forall op | op in ops && op.DoWithdraw? ensures op.assignment < |db.fleet.assignments| {
      assert Fits(op, db.fleet.assignments, db.releases, next.releases);
    }
    RunCancels(db.fleet, ops, i);
    SameOwner(db, next, i);
    var r := db.fleet.assignments[i].release;
    if db.fleet.assignments[i].state == F.Cancelling {
      assert Moved(db.releases[r], next.releases[r]);
    } else {
      assert Fits(H.DoWithdraw(i), db.fleet.assignments, db.releases, next.releases);
    }
  }

  lemma CancellingStep(db: Database, step: Step)
    requires Invariant(db) && CancellingIsDown(db)
    ensures CancellingIsDown(Next(db, step))
  {
    var next := Next(db, step);
    var ops := StepIsRun(db, step);
    StepKeeps(db, step);
    forall i | 0 <= i < |next.fleet.assignments| && next.fleet.assignments[i].state == F.Cancelling
      ensures Known(next, next.fleet.assignments[i].release) && next.releases[next.fleet.assignments[i].release].status in {Aborting, Aborted}
    {
      CancellingRow(db, next, ops, i);
    }
  }

  lemma SameOwner(db: Database, next: Database, i: nat)
    requires H.Advanced(db.fleet, next.fleet) && i < |db.fleet.assignments|
    ensures i < |next.fleet.assignments| && next.fleet.assignments[i].release == db.fleet.assignments[i].release
  {
  }

  lemma {:induction false} CancellingFrom(db: Database, steps: seq<Step>)
    requires Invariant(db) && CancellingIsDown(db)
    ensures CancellingIsDown(RunFrom(db, steps))
  {
    if steps != [] {
      var before := steps[..|steps| - 1];
      CancellingFrom(db, before);
      RunFromKeeps(db, before);
      CancellingStep(RunFrom(db, before), steps[|steps| - 1]);
    }
  }

  // ---- aborts that nothing but a second abort can end ----

  ghost predicate Stuck(f: F.Fleet, i: nat, r: nat) {
    i < |f.assignments| && f.assignments[i].release == r && f.assignments[i].state == F.Cancelling
  }

  /** Aborting without a single assignment, or with one that is cancelling. */
  ghost predicate Hopeless(db: Database, r: nat) {
    && Known(db, r) && db.releases[r].status == Aborting
    && (!Touched(db.fleet.assignments, r) || exists i: nat :: Stuck(db.fleet, i, r))
  }

  predicate SecondAbort(step: Step, r: nat) { step.Operate? && step.release == r && step.action == Abort }

  ghost predicate NoSecondAbort(steps: seq<Step>, r: nat) {
    forall k :: 0 <= k < |steps| ==> !SecondAbort(steps[k], r)
  }

  lemma ApplyStuck(f: F.Fleet, op: H.Op, i: nat, r: nat)
    requires Stuck(f, i, r) && (op.DoRetarget? ==> op.assignment != i)
    ensures Stuck(H.Apply(f, op), i, r)
  {
  }

  /** Only re-targeting moves a cancelling row. */
  lemma {:induction false} RunStuck(f: F.Fleet, ops: seq<H.Op>, i: nat, r: nat)
    requires Stuck(f, i, r) && forall op :: op in ops && op.DoRetarget? ==> op.assignment != i
    ensures Stuck(H.Run(f, ops), i, r)
  {
    if ops != [] {
      RunStuck(f, ops[..|ops| - 1], i, r);
      ApplyStuck(H.Run(f, ops[..|ops| - 1]), ops[|ops| - 1], i, r);
    }
  }

  lemma ApplyUntouched(f: F.Fleet, op: H.Op, r: nat)
    requires !Touched(f.assignments, r) && (op.DoInstall? ==> op.release != r)
    ensures !Touched(H.Apply(f, op).assignments, r)
  {
  }

  /** Only an install gives a release an assignment. */
  lemma {:induction false} RunUntouched(f: F.Fleet, ops: seq<H.Op>, r: nat)
    requires !Touched(f.assignments, r) && forall op :: op in ops && op.DoInstall? ==> op.release != r
    ensures !Touched(H.Run(f, ops).assignments, r)
  {
    if ops != [] {
      RunUntouched(f, ops[..|ops| - 1], r);
      ApplyUntouched(H.Run(f, ops[..|ops| - 1]), ops[|ops| - 1], r);
    }
  }

  /** Operations that fit a release on its way to aborted install and re-target nothing of it. */
  ghost predicate Leaves(ops: seq<H.Op>, rows: seq<F.Assignment>, r: nat) {
    forall op :: op in ops ==>
      && (op.DoInstall? ==> op.release != r)
      && (op.DoRetarget? ==> op.assignment < |rows| && rows[op.assignment].release != r)
  }

  lemma FitsLeaves(op: H.Op, rows: seq<F.Assignment>, before: seq<Release>, after: seq<Release>, r: nat)
    requires Fits(op, rows, before, after) && r < |after| && after[r].status in {Aborting, Aborted}
    ensures op.DoInstall? ==> op.release != r
    ensures op.DoRetarget? ==> op.assignment < |rows| && rows[op.assignment].release != r
  {
  }

  lemma StaysDown(db: Database, next: Database, r: nat)
    requires RowsMove(db, next) && Known(db, r) && db.releases[r].status == Aborting
    ensures Known(next, r) && next.releases[r].status in {Aborting, Aborted}
  {
    assert Moved(db.releases[r], next.releases[r]);
  }

  lemma RunLeaves(db: Database, next: Database, ops: seq<H.Op>, r: nat)
    requires Runs(db, next, ops) && Known(next, r) && next.releases[r].status in {Aborting, Aborted}
    ensures Leaves(ops, db.fleet.assignments, r)
  {
    forall op | op in ops
      ensures (op.DoInstall? ==> op.release != r)
        && (op.DoRetarget? ==> op.assignment < |db.fleet.assignments| && db.fleet.assignments[op.assignment].release != r)
    {
      FitsLeaves(op, db.fleet.assignments, db.releases, next.releases, r);
    }
  }

  lemma AbortingLeaves(db: Database, step: Step, r: nat) returns (ops: seq<H.Op>)
    requires Invariant(db) && Known(db, r) && db.releases[r].status == Aborting
    ensures Next(db, step).fleet == H.Run(db.fleet, ops) && Leaves(ops, db.fleet.assignments, r)
  {
    ops := StepIsRun(db, step);
    StepKeeps(db, step);
    StaysDown(db, Next(db, step), r);
    RunLeaves(db, Next(db, step), ops, r);
  }

  lemma {:induction false} LeftStuck(f: F.Fleet, ops: seq<H.Op>, i: nat, r: nat)
    requires Stuck(f, i, r) && Leaves(ops, f.assignments, r)
    ensures Stuck(H.Run(f, ops), i, r)
  {
    RunStuck(f, ops, i, r);
  }

  /** While a release is aborting, nobody is assigned to it and none of its rows is re-targeted. */
  lemma HopelessFleet(db: Database, step: Step, r: nat)
    requires Invariant(db) && Hopeless(db, r)
    ensures var f := Next(db, step).fleet; !Touched(f.assignments, r) || exists i: nat :: Stuck(f, i, r)
  {
    var ops := AbortingLeaves(db, step, r);
    if !Touched(db.fleet.assignments, r) {
      RunUntouched(db.fleet, ops, r);
    } else {
      var i: nat :| Stuck(db.fleet, i, r);
      LeftStuck(db.fleet, ops, i, r);
    }
  }

  lemma StuckIsBusy(f: F.Fleet, i: nat, r: nat)
    requires Stuck(f, i, r)
    ensures Busy(f.assignments, r)
  {
  }

  lemma AbortingRefuses(db: Database, r: nat, action: ReleaseAction, actor: nat, expected: int, lapsed: set<nat>)
    requires Known(db, r) && db.releases[r].status == Aborting && action != Abort
    ensures Act(db, r, action, actor, expected, lapsed).releases[r].status == Aborting
  {
    if Admitted(db, r, action, expected) && MustAsk(db, r, action, lapsed) {
      ActAsks(db, r, action, actor, expected, lapsed);
    } else {
      assert Refused(db, db.releases[r], r, action);
      ActIgnored(db, r, action, actor, expected, lapsed);
    }
  }

  lemma UnsettledByReport(db: Database, report: F.Report, r: nat)
    requires Known(db, r) && db.releases[r].status == Aborting
    requires var rows := TakeReport(db, report).fleet.assignments; !Touched(rows, r) || Busy(rows, r)
    ensures Known(TakeReport(db, report), r) && TakeReport(db, report).releases[r].status == Aborting
  {
  }

  lemma OperatorsLeaveAborting(db: Database, step: Step, r: nat)
    requires Known(db, r) && db.releases[r].status == Aborting && !SecondAbort(step, r)
    requires step.Operate? || step.DecideApproval?
    ensures Known(Next(db, step), r) && Next(db, step).releases[r].status == Aborting
  {
    if step.Operate? {
      NextOperates(db, step.release, step.action, step.actor, step.expected, step.lapsed);
      ActOnly(db, step.release, step.action, step.actor, step.expected, step.lapsed);
      if step.release == r { AbortingRefuses(db, r, step.action, step.actor, step.expected, step.lapsed); }
    } else {
      NextDecides(db, step.approval, step.actor, step.approve, step.lapsed);
      AbortingUndecided(db, step.approval, step.actor, step.approve, step.lapsed, r);
    }
  }

  lemma AbortingUndecided(db: Database, a: nat, actor: nat, approve: bool, lapsed: set<nat>, r: nat)
    requires Known(db, r) && db.releases[r].status == Aborting
    ensures var next := Decide(db, a, actor, approve, lapsed); Known(next, r) && next.releases[r].status == Aborting
  {
    if Decidable(db, a, actor, approve, lapsed) {
      DecideOnly(db, a, actor, approve, lapsed);
      DecideShape(db, a, actor, approve, lapsed);
    }
  }

  lemma JobsLeaveAborting(db: Database, step: Step, r: nat)
    requires GatesCurrent(db) && StartsCurrent(db) && Known(db, r) && db.releases[r].status == Aborting
    requires step.GateCommit? || step.StartCommit?
    ensures Known(Next(db, step), r) && Next(db, step).releases[r].status == Aborting
  {
    match step
    case GateCommit(g, ok) =>
      NextCommitsGate(db, g, ok);
      if CommitGate(db, g, ok) != db { CommitGateOnly(db, g, ok); }
    case StartCommit(s) =>
      NextCommitsStart(db, s);
      if CommitStart(db, s) != db { CommitStartOnly(db, s); }
  }

  lemma OthersLeaveAborting(db: Database, step: Step, r: nat)
    requires Known(db, r) && db.releases[r].status == Aborting
    requires !step.Operate? && !step.DecideApproval? && !step.GateCommit? && !step.StartCommit?
    requires step.DeliverReport? ==> var rows := Next(db, step).fleet.assignments; !Touched(rows, r) || Busy(rows, r)
    ensures Known(Next(db, step), r) && Next(db, step).releases[r].status == Aborting
  {
    if step.DeliverReport? {
      NextReports(db, step.report);
      UnsettledByReport(db, step.report, r);
    } else if step.CompromiseKey? || step.EditDraft? || step.ValidateRelease? {
      LateRowsKept(db, step, r);
    } else {
      RowsUntouched(db, step, r);
    }
  }

  lemma HopelessStep(db: Database, step: Step, r: nat)
    requires Invariant(db) && Hopeless(db, r) && !SecondAbort(step, r)
    ensures Hopeless(Next(db, step), r)
  {
    HopelessFleet(db, step, r);
    var f := Next(db, step).fleet;
    if Touched(f.assignments, r) {
      var i: nat :| Stuck(f, i, r);
      StuckIsBusy(f, i, r);
    }
    if step.Operate? || step.DecideApproval? {
      OperatorsLeaveAborting(db, step, r);
    } else if step.GateCommit? || step.StartCommit? {
      JobsLeaveAborting(db, step, r);
    } else {
      OthersLeaveAborting(db, step, r);
    }
  }

  /** An abort without assignments, or with a cancelling one, never settles by itself: no report,
      job, decision or expiry ends it, nothing but a second operator abort, where that needs nobody else. */
  lemma {:induction false} AbortNeverSettles(db: Database, steps: seq<Step>, r: nat)
    requires Invariant(db) && Hopeless(db, r) && NoSecondAbort(steps, r)
    ensures Hopeless(RunFrom(db, steps), r)
  {
    if steps != [] {
      var before := steps[..|steps| - 1];
      AbortNeverSettles(db, before, r);
      RunFromKeeps(db, before);
      HopelessStep(RunFrom(db, before), steps[|steps| - 1], r);
    }
  }

  // ---- what an abort does ----

  lemma {:induction false} OperatorAborts(db: Database, step: Step, r: nat)
    requires Known(db, r) && db.releases[r].status in {Running, Paused} && (step.Operate? || step.DecideApproval?)
    requires Known(Next(db, step), r) && Next(db, step).releases[r].status == Aborting
    ensures Next(db, step).fleet == H.Run(db.fleet, WithdrawOps(db.fleet.assignments, r))
  {
    if step.Operate? {
      NextOperates(db, step.release, step.action, step.actor, step.expected, step.lapsed);
      ActOnly(db, step.release, step.action, step.actor, step.expected, step.lapsed);
      ActAborts(db, r, step.action, step.actor, step.expected, step.lapsed);
    } else {
      NextDecides(db, step.approval, step.actor, step.approve, step.lapsed);
      DecideOnly(db, step.approval, step.actor, step.approve, step.lapsed);
      DecideAborts(db, step.approval, step.actor, step.approve, step.lapsed, r);
    }
  }

  lemma {:induction false} PerformAborts(db: Database, r: nat, action: ReleaseAction, actor: nat)
    requires Known(db, r) && db.releases[r].status in {Running, Paused} && Transition(db.releases[r].status, action).Some?
    requires Perform(db, r, action, actor).releases[r].status == Aborting
    ensures Perform(db, r, action, actor).fleet == H.Run(db.fleet, WithdrawOps(db.fleet.assignments, r))
  {
    PerformedStatus(db, r, action, actor);
    AbortOnly(db.releases[r].status, action);
  }

  lemma {:induction false} ActAborts(db: Database, r: nat, action: ReleaseAction, actor: nat, expected: int, lapsed: set<nat>)
    requires Known(db, r) && db.releases[r].status in {Running, Paused}
    requires Act(db, r, action, actor, expected, lapsed).releases[r].status == Aborting
    ensures Act(db, r, action, actor, expected, lapsed).fleet == H.Run(db.fleet, WithdrawOps(db.fleet.assignments, r))
  {
    ActWorks(db, r, action, actor, expected, lapsed);
    ActExecutes(db, r, action, actor, expected, lapsed);
    PerformAborts(db, r, action, actor);
  }

  lemma AbortOnly(s: ReleaseState, action: ReleaseAction)
    requires s in {Running, Paused} && Transition(s, action) == Some(Aborting)
    ensures action == Abort
  {
  }

  lemma {:induction false} DecideAborts(db: Database, a: nat, actor: nat, approve: bool, lapsed: set<nat>, r: nat)
    requires Known(db, r) && db.releases[r].status in {Running, Paused} && Decidable(db, a, actor, approve, lapsed)
    requires Decide(db, a, actor, approve, lapsed).releases[r].status == Aborting && db.approvals[a].release == r
    ensures Decide(db, a, actor, approve, lapsed).fleet == H.Run(db.fleet, WithdrawOps(db.fleet.assignments, r))
  {
    DecideShape(db, a, actor, approve, lapsed);
  }

  /** Only an operator's action or an approved decision makes a release start aborting. */
  lemma OnlyOperatorsAbort(db: Database, step: Step, r: nat)
    requires Invariant(db) && Known(db, r) && db.releases[r].status in {Running, Paused}
    requires Known(Next(db, step), r) && Next(db, step).releases[r].status == Aborting
    ensures step.Operate? || step.DecideApproval?
  {
    if step.GateCommit? {
      NextCommitsGate(db, step.gate, step.bytesMatch);
      if CommitGate(db, step.gate, step.bytesMatch) != db { GateNeverAborts(db, step.gate, step.bytesMatch); }
    } else if step.StartCommit? {
      NextCommitsStart(db, step.job);
      if CommitStart(db, step.job) != db { CommitStartOnly(db, step.job); }
    } else if step.DeliverReport? {
      NextReports(db, step.report);
      TakeReportOnly(db, step.report, r);
    } else if step.CompromiseKey? || step.EditDraft? || step.ValidateRelease? {
      RareNeverAborts(db, step, r);
    } else if !step.Operate? && !step.DecideApproval? {
      RowsUntouched(db, step, r);
    }
  }

  lemma RareNeverAborts(db: Database, step: Step, r: nat)
    requires Known(db, r) && db.releases[r].status in {Running, Paused}
    requires step.CompromiseKey? || step.EditDraft? || step.ValidateRelease?
    ensures Known(Next(db, step), r) && Next(db, step).releases[r].status != Aborting
  {
    match step
    case CompromiseKey(key) => assert Next(db, step) == Compromise(db, key);
    case EditDraft(q, v) => assert Next(db, step) == Edit(db, q, v);
    case ValidateRelease(q, v, roster, hmac, name, salt) => assert Next(db, step) == Freeze(db, q, v, roster, hmac, name, salt);
  }

  lemma GateNeverAborts(db: Database, g: nat, bytesMatch: bool)
    requires Invariant(db) && CommitGate(db, g, bytesMatch) != db
    ensures forall q :: 0 <= q < |db.releases| && q < |CommitGate(db, g, bytesMatch).releases| ==>
      CommitGate(db, g, bytesMatch).releases[q] == db.releases[q] || CommitGate(db, g, bytesMatch).releases[q].status != Aborting
  {
    CommitGateOnly(db, g, bytesMatch);
    CommitIsCarried(db, g, bytesMatch);
    var job := db.gates[g];
    NeverAborts(job.metrics, Thresholds(db.releases[job.release]));
    CarriedStatus(Judged(db, job.release, job.stage, job.metrics, job.decision), job.release, job.stage, job.decision,
                  HasNext(db.releases[job.release], job.stage), bytesMatch);
  }

  lemma CarriedStatus(db: Database, r: nat, stage: nat, decision: G.Decision, hasNext: bool, bytesMatch: bool)
    requires Known(db, r) && db.releases[r].status == Running && decision != G.Abort
    ensures var carried := CarryOut(db, r, stage, decision, hasNext, bytesMatch);
      carried.Some? ==> Settle(carried.value, r).releases[r].status != Aborting
  {
  }

  /** Withdrawing leaves a cancelling assignment behind wherever one was in flight. */
  lemma {:induction false} WithdrawSticks(f: F.Fleet, upto: nat, i: nat, r: nat)
    requires i < upto <= |f.assignments| && f.assignments[i].release == r && F.InFlight(f.assignments[i].state)
    ensures Stuck(H.Run(f, WithdrawOps(f.assignments[..upto], r)), i, r)
  {
    var rows, n := f.assignments[..upto], upto - 1;
    var before := WithdrawOps(rows[..n], r);
    assert rows[..n] == f.assignments[..n];
    if i < n {
      WithdrawSticks(f, n, i, r);
      if WithdrawOps(rows, r) != before {
        assert WithdrawOps(rows, r)[..|before|] == before;
        ApplyStuck(H.Run(f, before), H.DoWithdraw(n), i, r);
      }
    } else {
      WithdrawsBelow(f, n, r);
      assert WithdrawOps(rows, r) == before + [H.DoWithdraw(n)];
      assert WithdrawOps(rows, r)[..|before|] == before;
    }
  }

  /** Withdrawing the first rows leaves the later ones as they were. */
  lemma {:induction false} WithdrawsBelow(f: F.Fleet, n: nat, r: nat)
    requires n <= |f.assignments|
    ensures var g := H.Run(f, WithdrawOps(f.assignments[..n], r));
      |g.assignments| == |f.assignments| && g.assignments[n..] == f.assignments[n..]
  {
    if n > 0 {
      WithdrawsBelow(f, n - 1, r);
      var rows := f.assignments[..n];
      assert rows[..n - 1] == f.assignments[..n - 1];
      assert f.assignments[n..] == f.assignments[n - 1..][1..];
      var before := WithdrawOps(rows[..n - 1], r);
      if WithdrawOps(rows, r) != before {
        assert WithdrawOps(rows, r)[..|before|] == before;
        WithdrawsOne(H.Run(f, before), n - 1);
      }
    }
  }

  lemma WithdrawsOne(f: F.Fleet, n: nat)
    requires n < |f.assignments|
    ensures var g := H.Apply(f, H.DoWithdraw(n));
      |g.assignments| == |f.assignments| && g.assignments[n + 1..] == f.assignments[n + 1..]
  {
  }

  /** With nothing in flight there is nothing to withdraw. */
  lemma {:induction false} NothingToWithdraw(rows: seq<F.Assignment>, r: nat)
    requires forall i :: 0 <= i < |rows| && rows[i].release == r ==> !F.InFlight(rows[i].state)
    ensures WithdrawOps(rows, r) == []
  {
    if rows != [] { NothingToWithdraw(rows[..|rows| - 1], r); }
  }

  /** Without assignments there is nothing to withdraw, and none afterwards. */
  lemma {:induction false} WithdrawUntouched(f: F.Fleet, r: nat)
    requires !Touched(f.assignments, r)
    ensures H.Run(f, WithdrawOps(f.assignments, r)) == f
  {
    NothingToWithdraw(f.assignments, r);
  }

  // ---- a fresh report settles what can be settled ----

  function TopSequence(reports: seq<F.Report>): (top: int)
    ensures top >= 0 && forall k :: 0 <= k < |reports| ==> reports[k].sequence <= top
  {
    if reports == [] then 0 else Max(TopSequence(reports[..|reports| - 1]), reports[|reports| - 1].sequence)
  }

  function LongestId(reports: seq<F.Report>): (n: nat)
    ensures forall k :: 0 <= k < |reports| ==> |reports[k].reportId| <= n
  {
    if reports == [] then 0
    else
      var n, last := LongestId(reports[..|reports| - 1]), |reports[|reports| - 1].reportId|;
      if n < last then last else n
  }

  function Marks(n: nat): (s: string)
    ensures |s| == n
  {
    if n == 0 then "" else Marks(n - 1) + "r"
  }

  /** A report with a new identifier and sequence that names the release and no command. */
  function FreshReport(f: F.Fleet, device: nat, r: nat): F.Report {
    F.Report(device, Marks(LongestId(f.reports) + 1), TopSequence(f.reports) + 1, F.Observation, 0, "", "", "", Some(r), None)
  }

  lemma FreshIsAcceptable(f: F.Fleet, device: nat, r: nat)
    requires device < |f.devices|
    ensures F.Acceptable(f, FreshReport(f, device, r))
  {
  }

  /** A report moves at most one assignment, and that one was in flight. */
  lemma ReceiveSparesIdle(f: F.Fleet, report: F.Report, i: nat)
    requires i < |f.assignments| && !F.InFlight(f.assignments[i].state)
    ensures |F.Receive(f, report).assignments| == |f.assignments| && F.Receive(f, report).assignments[i] == f.assignments[i]
  {
  }

  lemma ReceiveSparesOwner(f: F.Fleet, report: F.Report, i: nat)
    requires i < |f.assignments|
    ensures |F.Receive(f, report).assignments| == |f.assignments|
    ensures F.Receive(f, report).assignments[i].release == f.assignments[i].release
  {
  }

  lemma IdleAfterReport(f: F.Fleet, report: F.Report, r: nat)
    requires Touched(f.assignments, r) && !Busy(f.assignments, r)
    ensures Touched(F.Receive(f, report).assignments, r) && !Busy(F.Receive(f, report).assignments, r)
  {
    var g := F.Receive(f, report);
    forall i | 0 <= i < |g.assignments| && g.assignments[i].release == r ensures g.assignments[i] == f.assignments[i] {
      ReceiveSparesOwner(f, report, 0);
      ReceiveSparesOwner(f, report, i);
      ReceiveSparesIdle(f, report, i);
    }
    var k :| 0 <= k < |f.assignments| && f.assignments[k].release == r;
    ReceiveSparesOwner(f, report, k);
  }

  lemma TakenSettles(db: Database, report: F.Report, r: nat)
    requires Known(db, r) && db.releases[r].status == Aborting
    requires F.Acceptable(db.fleet, report) && report.release == Some(r) && report.command.None?
    requires var rows := F.Receive(db.fleet, report).assignments; Touched(rows, r) && !Busy(rows, r)
    ensures var next := TakeReport(db, report); Known(next, r) && next.releases[r].status == Aborted
  {
    assert [H.DoReceive(report)][..0] == [] && H.Run(db.fleet, []) == db.fleet;
    assert H.Run(db.fleet, [H.DoReceive(report)]) == F.Receive(db.fleet, report);
  }

  lemma ReportSettles(db: Database, r: nat) returns (report: F.Report)
    requires H.Bounded(db.fleet) && Known(db, r) && db.releases[r].status == Aborting
    requires Touched(db.fleet.assignments, r) && !Busy(db.fleet.assignments, r)
    ensures F.Acceptable(db.fleet, report) && report.release == Some(r)
    ensures var next := TakeReport(db, report); Known(next, r) && next.releases[r].status == Aborted
  {
    var k :| 0 <= k < |db.fleet.assignments| && db.fleet.assignments[k].release == r;
    var device := db.fleet.assignments[k].device;
    report := FreshReport(db.fleet, device, r);
    FreshIsAcceptable(db.fleet, device, r);
    IdleAfterReport(db.fleet, report, r);
    TakenSettles(db, report, r);
  }

  // ---- the exact condition for an abort to settle ----

  /** Some continuation without a second operator abort of the release ends it. */
  ghost predicate CanSettle(db: Database, r: nat) {
    exists more :: NoSecondAbort(more, r) && Known(RunFrom(db, more), r) && RunFrom(db, more).releases[r].status == Aborted
  }

  /** At least one assignment, and none pending, commanded or acknowledged. */
  predicate AtRest(rows: seq<F.Assignment>, r: nat) {
    Touched(rows, r) && forall i :: 0 <= i < |rows| && rows[i].release == r ==> !F.InFlight(rows[i].state)
  }

  lemma RestingCanSettle(db: Database, r: nat)
    requires H.Consistent(db.fleet) && Known(db, r) && db.releases[r].status == Aborting
    requires Touched(db.fleet.assignments, r) && !Busy(db.fleet.assignments, r)
    ensures CanSettle(db, r)
  {
    var report := ReportSettles(db, r);
    RunOne(db, DeliverReport(report));
    NextReports(db, report);
    assert NoSecondAbort([DeliverReport(report)], r);
  }

  lemma HopelessCannotSettle(db: Database, r: nat)
    requires Invariant(db) && Hopeless(db, r)
    ensures !CanSettle(db, r)
  {
    forall more | NoSecondAbort(more, r) ensures !(Known(RunFrom(db, more), r) && RunFrom(db, more).releases[r].status == Aborted) {
      AbortNeverSettles(db, more, r);
    }
  }

  /** For every reachable running or paused release and whatever makes it abort, an operator's action or
      an approved decision: the abort can settle without a second one if and only if the release had at
      least one assignment and none pending, commanded or acknowledged. */
  lemma AbortSettlesExactly(steps: seq<Step>, db: Database, step: Step, r: nat)
    requires db == Run(steps) && Known(db, r) && db.releases[r].status in {Running, Paused}
    requires Known(Next(db, step), r) && Next(db, step).releases[r].status == Aborting
    ensures CanSettle(Next(db, step), r) <==> AtRest(db.fleet.assignments, r)
  {
    EveryRun(steps);
    EmptyInvariant();
    CancellingFrom(EMPTY, steps);
    AbortSettles(db, step, r);
  }

  lemma AbortSettles(db: Database, step: Step, r: nat)
    requires Invariant(db) && CancellingIsDown(db) && Known(db, r) && db.releases[r].status in {Running, Paused}
    requires Known(Next(db, step), r) && Next(db, step).releases[r].status == Aborting
    ensures CanSettle(Next(db, step), r) <==> AtRest(db.fleet.assignments, r)
  {
    var next := Next(db, step);
    StepKeeps(db, step);
    OnlyOperatorsAbort(db, step, r);
    OperatorAborts(db, step, r);
    if AtRest(db.fleet.assignments, r) {
      RestingFleet(db, next, r);
      RestingCanSettle(next, r);
    } else {
      RestlessFleet(db, next, r);
      HopelessCannotSettle(next, r);
    }
  }

  lemma {:induction false} RestingFleet(db: Database, next: Database, r: nat)
    requires CancellingIsDown(db) && Known(db, r) && db.releases[r].status in {Running, Paused}
    requires next.fleet == H.Run(db.fleet, WithdrawOps(db.fleet.assignments, r)) && AtRest(db.fleet.assignments, r)
    ensures Touched(next.fleet.assignments, r) && !Busy(next.fleet.assignments, r)
  {
    NothingToWithdraw(db.fleet.assignments, r);
    assert H.Run(db.fleet, []) == db.fleet;
  }

  lemma {:induction false} RestlessFleet(db: Database, next: Database, r: nat)
    requires Known(next, r) && next.releases[r].status == Aborting
    requires next.fleet == H.Run(db.fleet, WithdrawOps(db.fleet.assignments, r)) && !AtRest(db.fleet.assignments, r)
    ensures Hopeless(next, r)
  {
    var rows := db.fleet.assignments;
    if !Touched(rows, r) {
      WithdrawUntouched(db.fleet, r);
    } else {
      var i: nat :| i < |rows| && rows[i].release == r && F.InFlight(rows[i].state);
      assert rows[..|rows|] == rows;
      WithdrawSticks(db.fleet, |rows|, i, r);
    }
  }

  // ---- the exact condition for an abort to end at all ----

  /** Some continuation, whatever is in it, ends the release as aborted. */
  ghost predicate CanEnd(db: Database, r: nat) {
    exists more :: Known(RunFrom(db, more), r) && RunFrom(db, more).releases[r].status == Aborted
  }

  /** An approved abort is used up by its own decision, so a second person's abort is only ever asked for. */
  lemma NeverEntitled(db: Database, r: nat, lapsed: set<nat>)
    requires ApprovalsSound(db) && Known(db, r)
    ensures !Entitled(db, r, Abort, lapsed)
  {
    forall i: nat | i < |db.approvals| ensures !Usable(db.approvals[i], r, AbortControl, db.releases[r].version) {
      assert ApprovalSound(db, db.approvals[i]);
    }
  }

  lemma SecondAbortAsks(db: Database, r: nat, actor: nat, expected: int, lapsed: set<nat>)
    requires ApprovalsSound(db) && Known(db, r) && db.releases[r].status == Aborting && db.releases[r].policy.twoPerson
    ensures var next := Act(db, r, Abort, actor, expected, lapsed); Known(next, r) && next.releases[r].status == Aborting
  {
    NeverEntitled(db, r, lapsed);
    if Admitted(db, r, Abort, expected) {
      ActAsks(db, r, Abort, actor, expected, lapsed);
    } else {
      ActIgnored(db, r, Abort, actor, expected, lapsed);
    }
  }

  lemma TwoPersonHopelessStep(db: Database, step: Step, r: nat)
    requires Invariant(db) && Hopeless(db, r) && db.releases[r].policy.twoPerson
    ensures Hopeless(Next(db, step), r)
  {
    if SecondAbort(step, r) {
      HopelessFleet(db, step, r);
      NextOperates(db, r, Abort, step.actor, step.expected, step.lapsed);
      SecondAbortAsks(db, r, step.actor, step.expected, step.lapsed);
    } else {
      HopelessStep(db, step, r);
    }
  }

  lemma {:induction false} TwoPersonNeverEnds(db: Database, steps: seq<Step>, r: nat)
    requires Invariant(db) && Hopeless(db, r) && db.releases[r].policy.twoPerson
    ensures Hopeless(RunFrom(db, steps), r)
  {
    if steps != [] {
      var before := steps[..|steps| - 1];
      TwoPersonNeverEnds(db, before, r);
      RunFromKeeps(db, before);
      ReleasesOnlyMoveOn(db, before, r);
      TwoPersonHopelessStep(RunFrom(db, before), steps[|steps| - 1], r);
    }
  }

  lemma HopelessCannotEnd(db: Database, r: nat)
    requires Invariant(db) && Hopeless(db, r) && db.releases[r].policy.twoPerson
    ensures !CanEnd(db, r)
  {
    forall more ensures !(Known(RunFrom(db, more), r) && RunFrom(db, more).releases[r].status == Aborted) {
      TwoPersonNeverEnds(db, more, r);
    }
  }

  lemma SecondAbortEnds(db: Database, r: nat)
    requires Known(db, r) && db.releases[r].status == Aborting && !db.releases[r].policy.twoPerson
    ensures var next := Act(db, r, Abort, 0, db.releases[r].version, {}); Known(next, r) && next.releases[r].status == Aborted
  {
    ActExecutes(db, r, Abort, 0, db.releases[r].version, {});
    PerformedStatus(db, r, Abort, 0);
  }

  lemma OnePersonEnds(db: Database, r: nat)
    requires Known(db, r) && db.releases[r].status == Aborting && !db.releases[r].policy.twoPerson
    ensures CanEnd(db, r)
  {
    var step := Operate(r, Abort, 0, db.releases[r].version, {});
    RunOne(db, step);
    NextOperates(db, r, Abort, 0, db.releases[r].version, {});
    SecondAbortEnds(db, r);
    assert Known(RunFrom(db, [step]), r) && RunFrom(db, [step]).releases[r].status == Aborted;
  }

  /** For every reachable running or paused release and whatever makes it abort: some continuation ends it
      as aborted, second aborts included, if and only if its policy is one-person or it was at rest. */
  lemma AbortEndsExactly(steps: seq<Step>, db: Database, step: Step, r: nat)
    requires db == Run(steps) && Known(db, r) && db.releases[r].status in {Running, Paused}
    requires Known(Next(db, step), r) && Next(db, step).releases[r].status == Aborting
    ensures CanEnd(Next(db, step), r) <==> !db.releases[r].policy.twoPerson || AtRest(db.fleet.assignments, r)
  {
    EveryRun(steps);
    EmptyInvariant();
    CancellingFrom(EMPTY, steps);
    AbortEnds(db, step, r);
  }

  lemma AbortEnds(db: Database, step: Step, r: nat)
    requires Invariant(db) && CancellingIsDown(db) && Known(db, r) && db.releases[r].status in {Running, Paused}
    requires Known(Next(db, step), r) && Next(db, step).releases[r].status == Aborting
    ensures CanEnd(Next(db, step), r) <==> !db.releases[r].policy.twoPerson || AtRest(db.fleet.assignments, r)
  {
    var next := Next(db, step);
    AbortSettles(db, step, r);
    StepKeeps(db, step);
    assert Moved(db.releases[r], next.releases[r]);
    if AtRest(db.fleet.assignments, r) {
      SettlingEnds(next, r);
    } else if !db.releases[r].policy.twoPerson {
      OnePersonEnds(next, r);
    } else {
      OnlyOperatorsAbort(db, step, r);
      OperatorAborts(db, step, r);
      RestlessFleet(db, next, r);
      HopelessCannotEnd(next, r);
    }
  }

  lemma SettlingEnds(db: Database, r: nat)
    requires CanSettle(db, r)
    ensures CanEnd(db, r)
  {
    var more :| NoSecondAbort(more, r) && Known(RunFrom(db, more), r) && RunFrom(db, more).releases[r].status == Aborted;
  }

  // ---- the exact condition for a scheduled release to start ----

  ghost predicate CanStart(db: Database, r: nat) {
    exists more :: Known(RunFrom(db, more), r) && RunFrom(db, more).releases[r].status == Running
  }

  lemma Seen(db: Database, r: nat) returns (look: Step, seen: Database)
    requires Sound(db) && Known(db, r) && db.releases[r].status == Scheduled && !db.releases[r].policy.twoPerson
    ensures seen == Next(db, look)
    ensures Sound(seen) && Known(seen, r) && seen.releases[r].status == Scheduled && |seen.starts| == |db.starts| + 1
    ensures seen.starts[|db.starts|] == StartSeen(r, seen.releases[r].version, true)
  {
    look, seen := StartCapture(r, {}), CaptureStart(db, r, {});
    Aside(db, seen);
  }

  lemma SeenStarts(seen: Database, s: nat, r: nat)
    requires Sound(seen) && Known(seen, r) && seen.releases[r].status == Scheduled
    requires s < |seen.starts| && seen.starts[s] == StartSeen(r, seen.releases[r].version, true)
    ensures Known(CommitStart(seen, s), r) && CommitStart(seen, s).releases[r].status == Running
  {
    ScheduledActivates(seen, r);
    CommitsRunning(seen, s, r);
  }

  lemma Commits(db: Database, s: nat) returns (step: Step)
    ensures Next(db, step) == CommitStart(db, s)
  {
    step := StartCommit(s);
    NextCommitsStart(db, s);
  }

  /** A one-person release is started by the job's next look and commit. */
  lemma OnePersonStarts(db: Database, r: nat)
    requires Sound(db) && Known(db, r) && db.releases[r].status == Scheduled && !db.releases[r].policy.twoPerson
    ensures CanStart(db, r)
  {
    var look, seen := Seen(db, r);
    var commit := Commits(seen, |db.starts|);
    SeenStarts(seen, |db.starts|, r);
    StartedBy(db, look, commit, seen, CommitStart(seen, |db.starts|), r);
  }

  lemma StartedBy(db: Database, first: Step, second: Step, mid: Database, last: Database, r: nat)
    requires Next(db, first) == mid && Next(mid, second) == last && Known(last, r) && last.releases[r].status == Running
    ensures CanStart(db, r)
  {
    RunTwo(db, first, second);
  }

  lemma CommitsRunning(db: Database, s: nat, r: nat)
    requires s < |db.starts| && Known(db, r) && db.starts[s] == StartSeen(r, db.releases[r].version, true)
    requires db.releases[r].status == Scheduled
    requires var result := Activate(SetRelease(db, r, Move(db.releases[r], Running).(current := 0)), r, 0);
      result.Some? && Known(result.value, r)
    ensures Known(CommitStart(db, s), r) && CommitStart(db, s).releases[r].status == Running
  {
  }

  /** For every reachable scheduled release: some run starts it if and only if its policy does not ask
      for a second person. */
  lemma ScheduledStartsExactly(steps: seq<Step>, r: nat)
    requires r < |Run(steps).releases| && Run(steps).releases[r].status == Scheduled
    ensures CanStart(Run(steps), r) <==> !Run(steps).releases[r].policy.twoPerson
  {
    var db := Run(steps);
    EveryRun(steps);
    if db.releases[r].policy.twoPerson {
      forall more ensures !(Known(RunFrom(db, more), r) && RunFrom(db, more).releases[r].status == Running) {
        ScheduledTwoPersonNeverStarts(db, more, r);
      }
    } else {
      OnePersonStarts(db, r);
    }
  }
}
