/** What a rollback or an abort does to a release's assignments: which are reached, and that no other is. */
module RolloutReturns {
  import opened Wrappers
  import opened ReleaseMachine
  import opened Rollout
  import opened RolloutFrames
  import opened RolloutInvariants
  import opened RolloutSteps
  import opened RolloutLedger
  import opened RolloutTheorems
  import opened RolloutLimits
  import F = Fleet
  import H = FleetProperties
  import G = GateEvaluator

  // ---- one row ----

  /** The row waits for the fallback artifact under the generation after the last its device was told, and
      a rollback command at that generation is there. Only an approval's rollback clears the failure code. */
  ghost predicate TakenBack(f: F.Fleet, g: F.Fleet, i: nat, artifact: F.Artifact, byApproval: bool) {
    && i < |f.assignments| && i < |g.assignments|
    && var (a, b) := (f.assignments[i], g.assignments[i]);
    && a.device < |f.devices| && b.generation > a.generation && b.generation == f.devices[a.device].desired + 1
    && b == F.Assignment(a.release, a.device, a.stage, artifact, b.generation, F.Pending, a.latestSequence,
                         if byApproval then "" else a.failureCode)
    && F.Command(F.RollbackCommand, i, a.device, b.generation) in g.commands
  }

  /** The row is cancelling, and a cancel command at its generation is there. */
  ghost predicate CalledOff(f: F.Fleet, g: F.Fleet, i: nat) {
    && i < |f.assignments| && i < |g.assignments|
    && g.assignments[i] == f.assignments[i].(state := F.Cancelling)
    && F.Command(F.CancelCommand, i, f.assignments[i].device, f.assignments[i].generation) in g.commands
  }

  ghost predicate Kept(f: F.Fleet, g: F.Fleet, i: nat) {
    i < |f.assignments| && i < |g.assignments| && g.assignments[i] == f.assignments[i]
  }

  // ---- a whole release ----

  /** Every row of the release in one of these states is taken back, and no other row changes. */
  ghost predicate TakesBack(f: F.Fleet, g: F.Fleet, r: nat, fallback: Option<F.Artifact>, states: set<F.AssignmentState>, byApproval: bool) {
    && fallback.Some? && |g.assignments| == |f.assignments|
    && forall i: nat :: i < |f.assignments| ==>
         if f.assignments[i].release == r && f.assignments[i].state in states then TakenBack(f, g, i, fallback.value, byApproval) else Kept(f, g, i)
  }

  /** Every row of the release still in flight is called off, and no other row changes. */
  ghost predicate CallsOff(f: F.Fleet, g: F.Fleet, r: nat) {
    && |g.assignments| == |f.assignments| && g.devices == f.devices
    && forall i: nat :: i < |f.assignments| ==>
         if f.assignments[i].release == r && f.assignments[i].state in {F.Pending, F.Commanded, F.Acknowledged} then CalledOff(f, g, i) else Kept(f, g, i)
  }

  // ---- re-targeting row by row ----

  ghost predicate Untold(f: F.Fleet, g: F.Fleet, d: nat) {
    d < |f.devices| && d < |g.devices| && g.devices[d].desired == f.devices[d].desired
  }

  /** Rows before `upto` are dealt with, the others are as they were. */
  ghost predicate TakenUpTo(f: F.Fleet, g: F.Fleet, upto: nat, r: nat, artifact: F.Artifact, states: set<F.AssignmentState>, byApproval: bool) {
    && upto <= |f.assignments| == |g.assignments| && |f.devices| == |g.devices| && f.commands <= g.commands
    && (forall d :: 0 <= d < |f.devices| ==> f.devices[d].desired <= g.devices[d].desired)
    && (forall i: nat :: upto <= i < |f.assignments| && f.assignments[i].release == r ==> Untold(f, g, f.assignments[i].device))
    && (forall i: nat :: i < upto && f.assignments[i].release == r && f.assignments[i].state in states ==> TakenBack(f, g, i, artifact, byApproval))
    && (forall i: nat :: i < |f.assignments| && !(i < upto && f.assignments[i].release == r && f.assignments[i].state in states) ==> Kept(f, g, i))
  }

  lemma Issues(commands: seq<F.Command>, c: F.Command)
    requires c.kind != F.InstallCommand && forall k :: 0 <= k < |commands| && commands[k].assignment == c.assignment ==> commands[k].device == c.device
    ensures c in F.Issue(commands, c) && commands <= F.Issue(commands, c)
  {
    if F.Issued(commands, F.CommandKey(c)) {
      var k :| 0 <= k < |commands| && F.CommandKey(commands[k]) == F.CommandKey(c);
      assert commands[k] == c;
    } else {
      assert F.Issue(commands, c)[|commands|] == c;
    }
  }

  lemma TakenNext(f: F.Fleet, g: F.Fleet, n: nat, r: nat, artifact: F.Artifact, states: set<F.AssignmentState>, byApproval: bool)
    requires H.Bounded(f) && H.Unshared(f) && H.Addressed(g) && TakenUpTo(f, g, n, r, artifact, states, byApproval)
    requires n < |f.assignments| && f.assignments[n].release == r && f.assignments[n].state in states
    ensures TakenUpTo(f, H.Apply(g, H.DoRetarget(n, artifact, byApproval)), n + 1, r, artifact, states, byApproval)
  {
    var row, h := f.assignments[n], H.Apply(g, H.DoRetarget(n, artifact, byApproval));
    assert Kept(f, g, n) && Untold(f, g, row.device);
    assert 1 <= row.generation <= f.devices[row.device].desired;
    forall i: nat | n + 1 <= i < |f.assignments| && f.assignments[i].release == r ensures Untold(f, h, f.assignments[i].device) {
      assert Untold(f, g, f.assignments[i].device);
    }
    Issues(g.commands, F.Command(F.RollbackCommand, n, row.device, h.assignments[n].generation));
    forall i: nat | i < n + 1 && f.assignments[i].release == r && f.assignments[i].state in states
      ensures TakenBack(f, h, i, artifact, byApproval)
    {
      if i < n { assert TakenBack(f, g, i, artifact, byApproval); }
    }
    forall i: nat | i < |f.assignments| && !(i < n + 1 && f.assignments[i].release == r && f.assignments[i].state in states)
      ensures Kept(f, h, i)
    {
      assert Kept(f, g, i);
    }
  }

  lemma TakenOver(f: F.Fleet, g: F.Fleet, n: nat, r: nat, artifact: F.Artifact, states: set<F.AssignmentState>, byApproval: bool)
    requires TakenUpTo(f, g, n, r, artifact, states, byApproval)
    requires n < |f.assignments| && !(f.assignments[n].release == r && f.assignments[n].state in states)
    ensures TakenUpTo(f, g, n + 1, r, artifact, states, byApproval)
  {
  }

  lemma {:induction false} RetargetReaches(f: F.Fleet, upto: nat, r: nat, artifact: F.Artifact, states: set<F.AssignmentState>, byApproval: bool)
    requires H.Consistent(f) && upto <= |f.assignments|
    ensures TakenUpTo(f, H.Run(f, RetargetOps(f.assignments[..upto], r, artifact, states, byApproval)), upto, r, artifact, states, byApproval)
  {
    if upto > 0 {
      var n := upto - 1;
      var rows, before := f.assignments[..upto], RetargetOps(f.assignments[..n], r, artifact, states, byApproval);
      RetargetReaches(f, n, r, artifact, states, byApproval);
      assert rows[..n] == f.assignments[..n];
      H.RunKeeps(f, before);
      if f.assignments[n].release == r && f.assignments[n].state in states {
        assert RetargetOps(rows, r, artifact, states, byApproval) == before + [H.DoRetarget(n, artifact, byApproval)];
        assert (before + [H.DoRetarget(n, artifact, byApproval)])[..|before|] == before;
        TakenNext(f, H.Run(f, before), n, r, artifact, states, byApproval);
      } else {
        TakenOver(f, H.Run(f, before), n, r, artifact, states, byApproval);
      }
    }
  }

  lemma {:induction false} RetargetsAll(f: F.Fleet, r: nat, artifact: F.Artifact, states: set<F.AssignmentState>, byApproval: bool)
    requires H.Consistent(f)
    ensures TakesBack(f, H.Run(f, RetargetOps(f.assignments, r, artifact, states, byApproval)), r, Some(artifact), states, byApproval)
  {
    assert f.assignments[..|f.assignments|] == f.assignments;
    RetargetReaches(f, |f.assignments|, r, artifact, states, byApproval);
  }

  // ---- withdrawing row by row ----

  ghost predicate CalledOffUpTo(f: F.Fleet, g: F.Fleet, upto: nat, r: nat) {
    && upto <= |f.assignments| == |g.assignments| && g.devices == f.devices && f.commands <= g.commands
    && (forall i: nat :: i < upto && f.assignments[i].release == r && f.assignments[i].state in {F.Pending, F.Commanded, F.Acknowledged} ==>
          CalledOff(f, g, i))
    && (forall i: nat :: i < |f.assignments| && !(i < upto && f.assignments[i].release == r && f.assignments[i].state in {F.Pending, F.Commanded, F.Acknowledged}) ==>
          Kept(f, g, i))
  }

  lemma CalledOffNext(f: F.Fleet, g: F.Fleet, n: nat, r: nat)
    requires H.Addressed(g) && CalledOffUpTo(f, g, n, r)
    requires n < |f.assignments| && f.assignments[n].release == r && f.assignments[n].state in {F.Pending, F.Commanded, F.Acknowledged}
    ensures CalledOffUpTo(f, H.Apply(g, H.DoWithdraw(n)), n + 1, r)
  {
    var row, h := f.assignments[n], H.Apply(g, H.DoWithdraw(n));
    assert Kept(f, g, n);
    Issues(g.commands, F.Command(F.CancelCommand, n, row.device, row.generation));
    forall i: nat | i < n + 1 && f.assignments[i].release == r && f.assignments[i].state in {F.Pending, F.Commanded, F.Acknowledged}
      ensures CalledOff(f, h, i)
    {
      if i < n { assert CalledOff(f, g, i); }
    }
    forall i: nat | i < |f.assignments| && !(i < n + 1 && f.assignments[i].release == r && f.assignments[i].state in {F.Pending, F.Commanded, F.Acknowledged})
      ensures Kept(f, h, i)
    {
      assert Kept(f, g, i);
    }
  }

  lemma {:induction false} WithdrawReaches(f: F.Fleet, upto: nat, r: nat)
    requires H.Consistent(f) && upto <= |f.assignments|
    ensures CalledOffUpTo(f, H.Run(f, WithdrawOps(f.assignments[..upto], r)), upto, r)
  {
    if upto > 0 {
      var n := upto - 1;
      var rows, before := f.assignments[..upto], WithdrawOps(f.assignments[..n], r);
      WithdrawReaches(f, n, r);
      assert rows[..n] == f.assignments[..n];
      H.RunKeeps(f, before);
      if f.assignments[n].release == r && f.assignments[n].state in {F.Pending, F.Commanded, F.Acknowledged} {
        assert WithdrawOps(rows, r) == before + [H.DoWithdraw(n)];
        assert (before + [H.DoWithdraw(n)])[..|before|] == before;
        CalledOffNext(f, H.Run(f, before), n, r);
      } else {
        CalledOffOver(f, H.Run(f, before), n, r);
      }
    }
  }

  lemma CalledOffOver(f: F.Fleet, g: F.Fleet, n: nat, r: nat)
    requires CalledOffUpTo(f, g, n, r)
    requires n < |f.assignments| && !(f.assignments[n].release == r && f.assignments[n].state in {F.Pending, F.Commanded, F.Acknowledged})
    ensures CalledOffUpTo(f, g, n + 1, r)
  {
  }

  lemma {:induction false} WithdrawsAll(f: F.Fleet, r: nat)
    requires H.Consistent(f)
    ensures CallsOff(f, H.Run(f, WithdrawOps(f.assignments, r)), r)
  {
    assert f.assignments[..|f.assignments|] == f.assignments;
    WithdrawReaches(f, |f.assignments|, r);
  }

  // ---- the gate's rollback ----

  lemma GateRollsBack(db: Database, g: nat, bytesMatch: bool, r: nat)
    requires Invariant(db) && Known(db, r) && Known(CommitGate(db, g, bytesMatch), r) && db.releases[r].status == Running
    requires CommitGate(db, g, bytesMatch).releases[r].status in {RollingBack, RolledBack, ReleaseState.Failed}
    ensures TakesBack(db.fleet, CommitGate(db, g, bytesMatch).fleet, r, db.releases[r].rollback,
                      {F.Commanded, F.Acknowledged, F.Converged, F.Failed, F.Stranded}, false)
  {
    assert CommitGate(db, g, bytesMatch) != db;
    CommitIsCarried(db, g, bytesMatch);
    CommitGateOnly(db, g, bytesMatch);
    var job := db.gates[g];
    var judged := Judged(db, r, job.stage, job.metrics, job.decision);
    CarriedBack(judged, r, job.stage, job.decision, HasNext(db.releases[r], job.stage), bytesMatch);
    RetargetsAll(db.fleet, r, db.releases[r].rollback.value, RETARGETABLE, false);
  }

  /** Of the gate's decisions only a rollback puts a running release on its way back. */
  lemma {:induction false} CarriedBack(db: Database, r: nat, stage: nat, decision: G.Decision, hasNext: bool, bytesMatch: bool)
    requires Known(db, r) && db.releases[r].status == Running
    requires var carried := CarryOut(db, r, stage, decision, hasNext, bytesMatch);
      carried.Some? && Settle(carried.value, r).releases[r].status in {RollingBack, RolledBack, ReleaseState.Failed}
    ensures decision == G.Rollback && db.releases[r].rollback.Some?
    ensures var carried := CarryOut(db, r, stage, decision, hasNext, bytesMatch);
      Settle(carried.value, r).fleet == H.Run(db.fleet, RetargetOps(db.fleet.assignments, r, db.releases[r].rollback.value, RETARGETABLE, false))
  {
  }

  /** After a gate commit puts a release on its rollback, every row of it that was commanded, acknowledged,
      converged, failed or stranded waits for the fallback artifact; nothing else is touched. */
  lemma GateRollbackReaches(steps: seq<Step>, g: nat, bytesMatch: bool, r: nat)
    requires var (db, next) := (Run(steps), Next(Run(steps), GateCommit(g, bytesMatch)));
      && Known(db, r) && Known(next, r) && db.releases[r].status == Running
      && next.releases[r].status in {RollingBack, RolledBack, ReleaseState.Failed}
    ensures var (db, next) := (Run(steps), Next(Run(steps), GateCommit(g, bytesMatch)));
      TakesBack(db.fleet, next.fleet, r, db.releases[r].rollback, {F.Commanded, F.Acknowledged, F.Converged, F.Failed, F.Stranded}, false)
  {
    EveryRun(steps);
    NextCommitsGate(Run(steps), g, bytesMatch);
    GateRollsBack(Run(steps), g, bytesMatch, r);
  }

  // ---- an approved rollback or abort ----

  lemma DecisionRollsBack(db: Database, a: nat, actor: nat, approve: bool, lapsed: set<nat>)
    requires Invariant(db) && Decidable(db, a, actor, approve, lapsed)
    requires var r := db.approvals[a].release;
      db.releases[r].status != RollingBack && Decide(db, a, actor, approve, lapsed).releases[r].status == RollingBack
    ensures var r := db.approvals[a].release;
      TakesBack(db.fleet, Decide(db, a, actor, approve, lapsed).fleet, r, db.releases[r].rollback,
                {F.Commanded, F.Acknowledged, F.Converged, F.Failed, F.Stranded}, true)
  {
    DecideShape(db, a, actor, approve, lapsed);
    var r := db.approvals[a].release;
    RetargetsAll(db.fleet, r, db.releases[r].rollback.value, RETARGETABLE, true);
  }

  lemma DecisionCallsOff(db: Database, a: nat, actor: nat, approve: bool, lapsed: set<nat>)
    requires Invariant(db) && Decidable(db, a, actor, approve, lapsed)
    requires var r := db.approvals[a].release;
      db.releases[r].status != Aborting && Decide(db, a, actor, approve, lapsed).releases[r].status == Aborting
    ensures CallsOff(db.fleet, Decide(db, a, actor, approve, lapsed).fleet, db.approvals[a].release)
  {
    DecideShape(db, a, actor, approve, lapsed);
    WithdrawsAll(db.fleet, db.approvals[a].release);
  }

  /** The same after an approved rollback, which clears the failure codes; and an approved abort calls off
      what is pending, commanded or acknowledged. */
  lemma DecisionReaches(steps: seq<Step>, a: nat, actor: nat, approve: bool, lapsed: set<nat>, r: nat)
    requires var (db, next) := (Run(steps), Next(Run(steps), DecideApproval(a, actor, approve, lapsed)));
      Known(db, r) && Known(next, r) && next.releases[r].status != db.releases[r].status
    ensures var (db, next) := (Run(steps), Next(Run(steps), DecideApproval(a, actor, approve, lapsed)));
      && (next.releases[r].status == RollingBack ==>
            TakesBack(db.fleet, next.fleet, r, db.releases[r].rollback, {F.Commanded, F.Acknowledged, F.Converged, F.Failed, F.Stranded}, true))
      && (next.releases[r].status == Aborting ==> CallsOff(db.fleet, next.fleet, r))
  {
    var db := Run(steps);
    EveryRun(steps);
    NextDecides(db, a, actor, approve, lapsed);
    assert Decidable(db, a, actor, approve, lapsed);
    DecideOnly(db, a, actor, approve, lapsed);
    if Decide(db, a, actor, approve, lapsed).releases[r].status == RollingBack {
      DecisionRollsBack(db, a, actor, approve, lapsed);
    } else if Decide(db, a, actor, approve, lapsed).releases[r].status == Aborting {
      DecisionCallsOff(db, a, actor, approve, lapsed);
    }
  }

  // ---- the operator's ----

  lemma RollbackOrAbort(s: ReleaseState, action: ReleaseAction)
    requires action in ROUTED && Transition(s, action).Some?
    ensures Transition(s, action).value in {RollingBack, RolledBack} ==> action == Rollback
    ensures Transition(s, action).value == Aborting ==> action == Abort
  {
  }

  lemma StandingStates()
    ensures STANDING == {F.Pending, F.Commanded, F.Acknowledged, F.Converged, F.Failed, F.Cancelling, F.Stranded}
    ensures RETARGETABLE == {F.Commanded, F.Acknowledged, F.Converged, F.Failed, F.Stranded}
  {
  }

  lemma PerformRollsBack(db: Database, r: nat, actor: nat)
    requires Invariant(db) && Known(db, r) && Transition(db.releases[r].status, Rollback).Some? && db.releases[r].rollback.Some?
    ensures TakesBack(db.fleet, Perform(db, r, Rollback, actor).fleet, r, db.releases[r].rollback,
                      {F.Pending, F.Commanded, F.Acknowledged, F.Converged, F.Failed, F.Cancelling, F.Stranded}, false)
  {
    StandingStates();
    PerformRetargets(db, r, actor);
    RetargetsAll(db.fleet, r, db.releases[r].rollback.value, STANDING, false);
  }

  lemma {:induction false} PerformRetargets(db: Database, r: nat, actor: nat)
    requires Known(db, r) && Transition(db.releases[r].status, Rollback).Some? && db.releases[r].rollback.Some?
    ensures Perform(db, r, Rollback, actor).fleet
         == H.Run(db.fleet, RetargetOps(db.fleet.assignments, r, db.releases[r].rollback.value, STANDING, false))
  {
  }

  lemma PerformCallsOff(db: Database, r: nat, actor: nat)
    requires Invariant(db) && Known(db, r) && Transition(db.releases[r].status, Abort).Some?
    ensures CallsOff(db.fleet, Perform(db, r, Abort, actor).fleet, r)
  {
    WithdrawsAll(db.fleet, r);
  }

  /** What an operator's action did to the assignments of a release whose status it changed. */
  ghost predicate OperatorReached(db: Database, next: Database, r: nat)
    requires Known(db, r) && Known(next, r)
  {
    && (next.releases[r].status in {RollingBack, RolledBack} ==>
          TakesBack(db.fleet, next.fleet, r, db.releases[r].rollback,
                    {F.Pending, F.Commanded, F.Acknowledged, F.Converged, F.Failed, F.Cancelling, F.Stranded}, false))
    && (next.releases[r].status == Aborting ==> CallsOff(db.fleet, next.fleet, r))
  }

  lemma PerformReaches(db: Database, r: nat, action: ReleaseAction, actor: nat)
    requires Invariant(db) && Known(db, r) && action in ROUTED && !Refused(db, db.releases[r], r, action)
    ensures OperatorReached(db, Perform(db, r, action, actor), r)
  {
    PerformedStatus(db, r, action, actor);
    RollbackOrAbort(db.releases[r].status, action);
    if action == Rollback {
      PerformRollsBack(db, r, actor);
    } else if action == Abort {
      PerformCallsOff(db, r, actor);
    }
  }

  lemma ActReaches(db: Database, r: nat, action: ReleaseAction, actor: nat, expected: int, lapsed: set<nat>)
    requires Invariant(db) && Known(db, r) && Act(db, r, action, actor, expected, lapsed).releases[r].status != db.releases[r].status
    ensures OperatorReached(db, Act(db, r, action, actor, expected, lapsed), r)
  {
    ActOnly(db, r, action, actor, expected, lapsed);
    if Consequential(Act(db, r, action, actor, expected, lapsed).releases[r].status) {
      ConsequentialReaches(db, r, action, actor, expected, lapsed);
    } else {
      NothingReached(db, Act(db, r, action, actor, expected, lapsed), r);
    }
  }

  lemma ConsequentialReaches(db: Database, r: nat, action: ReleaseAction, actor: nat, expected: int, lapsed: set<nat>)
    requires Invariant(db) && Known(db, r) && Act(db, r, action, actor, expected, lapsed).releases[r].status != db.releases[r].status
    requires Consequential(Act(db, r, action, actor, expected, lapsed).releases[r].status)
    ensures OperatorReached(db, Act(db, r, action, actor, expected, lapsed), r)
  {
    ActWorks(db, r, action, actor, expected, lapsed);
    ActExecutes(db, r, action, actor, expected, lapsed);
    RecordedReaches(db, r, action, actor);
  }

  lemma RecordedReaches(db: Database, r: nat, action: ReleaseAction, actor: nat)
    requires Invariant(db) && Known(db, r) && action in ROUTED && !Refused(db, db.releases[r], r, action)
    ensures OperatorReached(db, Record(Perform(db, r, action, actor), r, action, db.releases[r].version), r)
  {
    var mid := Perform(db, r, action, actor);
    PerformReaches(db, r, action, actor);
    ReachedAlike(db, mid, Record(mid, r, action, db.releases[r].version), r);
  }

  lemma ReachedAlike(db: Database, mid: Database, next: Database, r: nat)
    requires Known(db, r) && Known(mid, r) && next.releases == mid.releases && next.fleet == mid.fleet && OperatorReached(db, mid, r)
    ensures OperatorReached(db, next, r)
  {
  }

  lemma NothingReached(db: Database, next: Database, r: nat)
    requires Known(db, r) && Known(next, r) && !Consequential(next.releases[r].status)
    ensures OperatorReached(db, next, r)
  {
  }

  /** After the operator's rollback every row of the release that is neither rolled back nor superseded
      waits for the fallback artifact; the operator's abort calls off what is in flight. */
  lemma OperatorReaches(steps: seq<Step>, q: nat, action: ReleaseAction, actor: nat, expected: int, lapsed: set<nat>, r: nat)
    requires var (db, next) := (Run(steps), Next(Run(steps), Operate(q, action, actor, expected, lapsed)));
      Known(db, r) && Known(next, r) && next.releases[r].status != db.releases[r].status
    ensures OperatorReached(Run(steps), Next(Run(steps), Operate(q, action, actor, expected, lapsed)), r)
  {
    var db := Run(steps);
    EveryRun(steps);
    NextOperates(db, q, action, actor, expected, lapsed);
    ActOnly(db, q, action, actor, expected, lapsed);
    ActReaches(db, r, action, actor, expected, lapsed);
  }
}
