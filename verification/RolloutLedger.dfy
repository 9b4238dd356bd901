/** Four eyes: which approvals stand behind which changes. */
module RolloutLedger {
  import opened Wrappers
  import opened ReleaseMachine
  import opened Rollout
  import opened RolloutFrames
  import opened RolloutInvariants
  import opened RolloutSteps
  import F = Fleet
  import H = FleetProperties

  /** Approved means decided by somebody else; only a start approval can wait to be used, and a
      waiting one at the release's version finds the release ready. */
  ghost predicate ApprovalSound(db: Database, a: Approval) {
    && Known(db, a.release)
    && (a.consumed ==> a.status == Approved)
    && (a.status == Approved ==> a.decider.Some? && a.decider.value != a.requester && a.approvedVersion.Some?)
    && (a.status == Approved && !a.consumed ==>
          && a.action == StartControl && a.approvedVersion.value <= db.releases[a.release].version
          && (a.approvedVersion.value == db.releases[a.release].version ==> db.releases[a.release].status == Ready))
  }

  ghost predicate ApprovalsSound(db: Database) {
    forall i :: 0 <= i < |db.approvals| ==> ApprovalSound(db, db.approvals[i])
  }

  /** The approval was given by a second person for this release, action and version, and is used up. */
  predicate Authorises(a: Approval, c: Change) {
    && a.release == c.release && Some(a.action) == ControlOf(c.action) && a.approvedVersion == Some(c.version)
    && a.status == Approved && a.consumed && a.decider.Some? && a.decider.value != a.requester
  }

  predicate NeedsAuthority(row: Release, action: ReleaseAction) {
    action == GateOverride || NeedsSecondPerson(row, action)
  }

  ghost predicate ChangeSound(db: Database, c: Change) {
    && Known(db, c.release) && c.version < db.releases[c.release].version
    && (forall a :: a in c.authority ==> a < |db.approvals| && Authorises(db.approvals[a], c))
    && (NeedsAuthority(db.releases[c.release], c.action) ==> c.authority != {})
  }

  ghost predicate ChangesSound(db: Database) {
    forall i :: 0 <= i < |db.changes| ==> ChangeSound(db, db.changes[i])
  }

  /** No approval stands behind two changes. */
  ghost predicate Unspent(changes: seq<Change>) {
    forall i, j :: 0 <= i < j < |changes| ==> changes[i].authority !! changes[j].authority
  }

  ghost predicate Ledger(db: Database) { ApprovalsSound(db) && ChangesSound(db) && Unspent(db.changes) }

  // ---- what a step does to the ledger ----

  /** Used approvals are never touched again, and at most one change is added, backed by unused ones. */
  ghost predicate Entered(before: Database, after: Database) {
    && |before.approvals| <= |after.approvals|
    && (forall i :: 0 <= i < |before.approvals| ==> before.approvals[i].consumed ==> after.approvals[i] == before.approvals[i])
    && before.changes <= after.changes && |after.changes| <= |before.changes| + 1
    && (|after.changes| > |before.changes| ==>
          var c := after.changes[|before.changes|];
          ChangeSound(after, c) && forall a :: a in c.authority ==> a < |before.approvals| && !before.approvals[a].consumed)
  }

  lemma ChangeKept(before: Database, after: Database, c: Change)
    requires RowsMove(before, after) && Entered(before, after) && ChangeSound(before, c)
    ensures ChangeSound(after, c)
  {
    assert Moved(before.releases[c.release], after.releases[c.release]);
    forall a | a in c.authority ensures a < |after.approvals| && Authorises(after.approvals[a], c) {
      assert Authorises(before.approvals[a], c);
    }
  }

  lemma ChangesKept(before: Database, after: Database)
    requires RowsMove(before, after) && Entered(before, after) && ChangesSound(before) && Unspent(before.changes)
    ensures ChangesSound(after) && Unspent(after.changes)
  {
    var n := |before.changes|;
    forall i | 0 <= i < |after.changes| ensures ChangeSound(after, after.changes[i]) {
      if i < n { ChangeKept(before, after, before.changes[i]); }
    }
    forall i, j | 0 <= i < j < |after.changes| ensures after.changes[i].authority !! after.changes[j].authority {
      assert after.changes[i] == before.changes[i];
      if j == n {
        SpentBefore(before, before.changes[i]);
      }
    }
  }

  lemma SpentBefore(db: Database, c: Change)
    requires ChangeSound(db, c)
    ensures forall a :: a in c.authority ==> a < |db.approvals| && db.approvals[a].consumed
  {
    forall a | a in c.authority ensures a < |db.approvals| && db.approvals[a].consumed {
      assert Authorises(db.approvals[a], c);
    }
  }

  /** An approval row nobody touched stays sound as its release moves on. */
  lemma ApprovalKept(before: Database, after: Database, a: Approval)
    requires RowsMove(before, after) && ApprovalSound(before, a)
    ensures ApprovalSound(after, a)
  {
    assert Moved(before.releases[a.release], after.releases[a.release]);
  }

  lemma LedgerAside(before: Database, after: Database)
    requires RowsMove(before, after) && Ledger(before) && after.approvals == before.approvals && after.changes == before.changes
    ensures Ledger(after)
  {
    forall i | 0 <= i < |after.approvals| ensures ApprovalSound(after, after.approvals[i]) {
      ApprovalKept(before, after, before.approvals[i]);
    }
    ChangesKept(before, after);
  }

  /** Old rows kept or retired, a fresh request perhaps added, no change recorded. */
  lemma LedgerRequests(before: Database, after: Database)
    requires RowsMove(before, after) && Ledger(before) && after.changes == before.changes && |before.approvals| <= |after.approvals|
    requires forall i :: 0 <= i < |before.approvals| ==>
      after.approvals[i] == before.approvals[i] || (before.approvals[i].status == Requested && after.approvals[i].release == before.approvals[i].release
                                                 && after.approvals[i].status != Approved && !after.approvals[i].consumed)
    requires forall i :: |before.approvals| <= i < |after.approvals| ==>
      Known(before, after.approvals[i].release) && after.approvals[i].status == Requested && !after.approvals[i].consumed
    ensures Ledger(after)
  {
    forall i | 0 <= i < |after.approvals| ensures ApprovalSound(after, after.approvals[i]) {
      if i < |before.approvals| {
        assert ApprovalSound(before, before.approvals[i]);
        ApprovalKept(before, after, before.approvals[i]);
      }
    }
    forall i | 0 <= i < |before.approvals| && before.approvals[i].consumed ensures after.approvals[i] == before.approvals[i] {
      assert ApprovalSound(before, before.approvals[i]);
    }
    ChangesKept(before, after);
  }

  // ---- operator actions ----

  /** Recording a change that is entitled to happen. */
  lemma RecordLedger(before: Database, mid: Database, r: nat, action: ReleaseAction, version: int)
    requires RowsMove(before, mid) && Ledger(before) && Ledger(mid) && Known(before, r)
    requires mid.changes == before.changes && |before.approvals| <= |mid.approvals|
    requires mid.releases[r].version > version
    requires forall i :: 0 <= i < |mid.approvals| ==>
      (if i < |before.approvals| then mid.approvals[i] == before.approvals[i] || mid.approvals[i].status != Approved
       else mid.approvals[i].status != Approved)
    requires NeedsAuthority(mid.releases[r], action) ==>
      ControlOf(action).Some? && Usables(mid.approvals, r, ControlOf(action).value, version) != {}
    ensures Ledger(Record(mid, r, action, version))
  {
    var next := Record(mid, r, action, version);
    RowsSame(mid, next);
    forall i | 0 <= i < |next.approvals| ensures ApprovalSound(next, next.approvals[i]) {
      assert ApprovalSound(mid, mid.approvals[i]);
    }
    var c := next.changes[|mid.changes|];
    forall a | a in c.authority ensures a < |mid.approvals| && !mid.approvals[a].consumed && Authorises(next.approvals[a], c) {
      assert ApprovalSound(mid, mid.approvals[a]);
    }
    ChangesKept(mid, next);
  }

  lemma RowsSame(db: Database, next: Database)
    requires next.releases == db.releases
    ensures RowsMove(db, next)
  {
    forall i | 0 <= i < |db.releases| ensures Moved(db.releases[i], next.releases[i]) { MovedSame(db.releases[i]); }
  }

  lemma EffectsRequests(db: Database, r: nat, action: ReleaseAction, version: int, actor: nat)
    requires Known(db, r)
    ensures var mid := SideEffects(db, r, action, version, actor);
      && mid.changes == db.changes && |db.approvals| <= |mid.approvals|
      && (forall i :: 0 <= i < |db.approvals| ==>
            mid.approvals[i] == db.approvals[i]
            || (db.approvals[i].status == Requested && mid.approvals[i] == db.approvals[i].(status := Superseded)))
      && (forall i :: |db.approvals| <= i < |mid.approvals| ==>
            mid.approvals[i].release == r && mid.approvals[i].status == Requested && !mid.approvals[i].consumed)
      && (action !in {Submit, Cancel} ==> mid.approvals == db.approvals)
  {
  }

  lemma AskFirstLedger(db: Database, r: nat, action: ReleaseAction, actor: nat, lapsed: set<nat>)
    requires Ledger(db) && Known(db, r) && ControlOf(action).Some? && RowsMove(db, AskFirst(db, r, action, actor, lapsed))
    ensures Ledger(AskFirst(db, r, action, actor, lapsed))
  {
    LedgerRequests(db, AskFirst(db, r, action, actor, lapsed));
  }

  lemma RequestedUnconsumed(db: Database, i: nat)
    requires Ledger(db) && i < |db.approvals| && db.approvals[i].status == Requested
    ensures !db.approvals[i].consumed
  {
    assert ApprovalSound(db, db.approvals[i]);
  }

  lemma EffectsLedger(db: Database, r: nat, action: ReleaseAction, actor: nat)
    requires Sound(db) && Ledger(db) && Known(db, r) && action in ROUTED && Transition(db.releases[r].status, action).Some?
    ensures Ledger(Perform(db, r, action, actor)) && RowsMove(db, Perform(db, r, action, actor))
  {
    var row := db.releases[r];
    var moved := SetRelease(db, r, Move(row, Transition(row.status, action).value));
    if action == Start { StartFine(db, r, row.version, actor); } else { EffectsFine(db, r, action, actor); }
    EffectsRequests(moved, r, action, row.version, actor);
    forall i | 0 <= i < |db.approvals| && db.approvals[i].status == Requested ensures !db.approvals[i].consumed {
      RequestedUnconsumed(db, i);
    }
    LedgerRequests(db, Perform(db, r, action, actor));
  }

  lemma ExecutedLedger(db: Database, r: nat, action: ReleaseAction, actor: nat)
    requires Sound(db) && Ledger(db) && Known(db, r) && action in ROUTED && Transition(db.releases[r].status, action).Some?
    requires NeedsSecondPerson(db.releases[r], action) ==>
      ControlOf(action).Some? && Usables(db.approvals, r, ControlOf(action).value, db.releases[r].version) != {}
    ensures Ledger(Record(Perform(db, r, action, actor), r, action, db.releases[r].version))
  {
    var row := db.releases[r];
    var moved := SetRelease(db, r, Move(row, Transition(row.status, action).value));
    EffectsLedger(db, r, action, actor);
    EffectsRequests(moved, r, action, row.version, actor);
    MidVersion(moved, r, action, row.version, actor);
    RecordLedger(db, Perform(db, r, action, actor), r, action, row.version);
  }

  lemma MidVersion(db: Database, r: nat, action: ReleaseAction, version: int, actor: nat)
    requires Known(db, r)
    ensures var row := SideEffects(db, r, action, version, actor).releases[r];
      row.version == db.releases[r].version && row.policy == db.releases[r].policy
  {
  }

  lemma ActLedger(db: Database, r: nat, action: ReleaseAction, actor: nat, expected: int, lapsed: set<nat>)
    requires Sound(db) && Ledger(db)
    ensures Ledger(Act(db, r, action, actor, expected, lapsed))
  {
    if Known(db, r) && action in ROUTED && expected == db.releases[r].version {
      if NeedsSecondPerson(db.releases[r], action) && !Entitled(db, r, action, lapsed) {
        AskFirstFine(db, r, action, actor, lapsed);
        AskFirstLedger(db, r, action, actor, lapsed);
      } else if !Refused(db, db.releases[r], r, action) {
        ExecutedLedger(db, r, action, actor);
      }
    }
  }

  // ---- decisions ----

  ghost predicate JustDecided(db: Database, a: nat, actor: nat, approve: bool, next: Database) {
    && a < |db.approvals| && Known(db, db.approvals[a].release)
    && var approval := db.approvals[a];
    && approval.status == Requested && approval.requester != actor && approval.captured == db.releases[approval.release].version
    && |next.approvals| == |db.approvals| && next.approvals == db.approvals[a := next.approvals[a]]
    && next.approvals[a].release == approval.release && next.approvals[a].action == approval.action
    && next.approvals[a].requester == approval.requester && next.approvals[a].decider == Some(actor)
    && next.approvals[a].status == (if approve then Approved else Rejected)
    && next.approvals[a].consumed == (approve && approval.action != StartControl)
    && (approve ==>
          next.approvals[a].approvedVersion == Some(if approval.action == StartControl then approval.captured + 1 else approval.captured))
  }

  lemma DecideShape(db: Database, a: nat, actor: nat, approve: bool, lapsed: set<nat>)
    requires Decidable(db, a, actor, approve, lapsed)
    ensures var (next, approval) := (Decide(db, a, actor, approve, lapsed), db.approvals[a]);
      && JustDecided(db, a, actor, approve, next)
      && (approve || approval.action == StartControl ==>
            next.releases == db.releases[approval.release := Move(db.releases[approval.release], Outcome(approval.action))])
      && next.changes == db.changes + (if approve && approval.action != StartControl
                                       then [Change(approval.release, ActionOf(approval.action), approval.captured, {a})] else [])
  {
  }

  lemma DecideLedger(db: Database, a: nat, actor: nat, approve: bool, lapsed: set<nat>)
    requires Ledger(db) && RowsMove(db, Decide(db, a, actor, approve, lapsed))
    ensures Ledger(Decide(db, a, actor, approve, lapsed))
  {
    if Decidable(db, a, actor, approve, lapsed) {
      DecideShape(db, a, actor, approve, lapsed);
      DecidedLedger(db, Decide(db, a, actor, approve, lapsed), a, actor, approve);
    }
  }

  lemma DecidedLedger(db: Database, next: Database, a: nat, actor: nat, approve: bool)
    requires Ledger(db) && RowsMove(db, next) && JustDecided(db, a, actor, approve, next)
    requires var approval := db.approvals[a];
      && (approve || approval.action == StartControl ==>
            next.releases == db.releases[approval.release := Move(db.releases[approval.release], Outcome(approval.action))])
      && next.changes == db.changes + (if approve && approval.action != StartControl
                                       then [Change(approval.release, ActionOf(approval.action), approval.captured, {a})] else [])
    ensures Ledger(next)
  {
    RequestedUnconsumed(db, a);
    forall i | 0 <= i < |next.approvals| ensures ApprovalSound(next, next.approvals[i]) {
      if i != a { ApprovalKept(db, next, db.approvals[i]); }
    }
    if |next.changes| > |db.changes| {
      assert Authorises(next.approvals[a], next.changes[|db.changes|]);
    }
    ChangesKept(db, next);
  }

  // ---- every step ----

  /** A two-person release in `scheduled` has no usable start approval left. */
  lemma ScheduledHasNoApproval(db: Database, r: nat)
    requires ApprovalsSound(db) && Known(db, r) && db.releases[r].status != Ready
    ensures forall control :: Usables(db.approvals, r, control, db.releases[r].version) == {}
  {
    forall i: nat, control | i < |db.approvals| ensures !Usable(db.approvals[i], r, control, db.releases[r].version) {
      assert ApprovalSound(db, db.approvals[i]);
    }
  }

  lemma CommitStartLedger(db: Database, s: nat)
    requires Sound(db) && Ledger(db) && StartsCurrent(db) && RowsMove(db, CommitStart(db, s))
    ensures Ledger(CommitStart(db, s))
  {
    if CommitStart(db, s) != db {
      var job := db.starts[s];
      assert StartCurrent(db, job);
      CommitStartShape(db, s);
      StartedLedger(db, CommitStart(db, s), job.release, job.version);
    }
  }

  /** A commit that starts anything is of a one-person release and uses no approval. */
  lemma CommitStartShape(db: Database, s: nat)
    requires Sound(db) && StartsCurrent(db) && CommitStart(db, s) != db
    ensures s < |db.starts| && db.starts[s].StartSeen? && Known(db, db.starts[s].release)
    ensures var (next, job) := (CommitStart(db, s), db.starts[s]);
      && !db.releases[job.release].policy.twoPerson && db.releases[job.release].version == job.version
      && next.approvals == db.approvals && next.changes == db.changes + [Change(job.release, Start, job.version, {})]
  {
    assert StartCurrent(db, db.starts[s]);
    var r := db.starts[s].release;
    ActivateFrame(SetRelease(db, r, Move(db.releases[r], Running).(current := 0)), r, 0);
    assert Consume(db.approvals, {}) == db.approvals;
  }

  lemma StartedLedger(db: Database, next: Database, r: nat, version: int)
    requires Ledger(db) && RowsMove(db, next) && Known(db, r) && !db.releases[r].policy.twoPerson
    requires version < next.releases[r].version
    requires next.approvals == db.approvals && next.changes == db.changes + [Change(r, Start, version, {})]
    ensures Ledger(next)
  {
    assert Moved(db.releases[r], next.releases[r]);
    assert ChangeSound(next, Change(r, Start, version, {}));
    forall i | 0 <= i < |next.approvals| ensures ApprovalSound(next, next.approvals[i]) {
      ApprovalKept(db, next, db.approvals[i]);
    }
    ChangesKept(db, next);
  }

  lemma OperatorLedger(db: Database, step: Step)
    requires Sound(db) && Ledger(db) && (step.Operate? || step.DecideApproval?) && RowsMove(db, Next(db, step))
    ensures Ledger(Next(db, step))
  {
    match step
    case Operate(r, a, who, v, lapsed) =>
      NextOperates(db, r, a, who, v, lapsed);
      ActLedger(db, r, a, who, v, lapsed);
    case DecideApproval(a, who, ok, lapsed) =>
      NextDecides(db, a, who, ok, lapsed);
      DecideLedger(db, a, who, ok, lapsed);
  }

  lemma JobLedger(db: Database, step: Step)
    requires Sound(db) && Ledger(db) && StartsCurrent(db) && RowsMove(db, Next(db, step))
    requires step.StartCommit? || step.RequestOverride? || step.ExpireDueApprovals?
    ensures Ledger(Next(db, step))
  {
    match step
    case StartCommit(s) =>
      NextCommitsStart(db, s);
      CommitStartLedger(db, s);
    case RequestOverride(r, e, who, v, lapsed) =>
      assert Next(db, step) == AskOverride(db, r, e, who, v, lapsed);
      OverrideLedger(db, r, e, who, v, lapsed);
    case ExpireDueApprovals(lapsed) =>
      assert Next(db, step) == ExpireApprovals(db, lapsed);
      ExpireLedger(db, lapsed);
  }

  lemma LedgerKept(db: Database, step: Step)
    requires Sound(db) && Ledger(db) && StartsCurrent(db) && Fine(db, Next(db, step))
    ensures Ledger(Next(db, step))
  {
    if step.Operate? || step.DecideApproval? {
      OperatorLedger(db, step);
    } else if step.StartCommit? || step.RequestOverride? || step.ExpireDueApprovals? {
      JobLedger(db, step);
    } else {
      StepFrame(db, step);
      LedgerAside(db, Next(db, step));
    }
  }

  lemma OverrideLedger(db: Database, r: nat, e: nat, actor: nat, expected: int, lapsed: set<nat>)
    requires Ledger(db) && RowsMove(db, AskOverride(db, r, e, actor, expected, lapsed))
    ensures Ledger(AskOverride(db, r, e, actor, expected, lapsed))
  {
    LedgerRequests(db, AskOverride(db, r, e, actor, expected, lapsed));
  }

  lemma ExpireLedger(db: Database, lapsed: set<nat>)
    requires Ledger(db) && RowsMove(db, ExpireApprovals(db, lapsed))
    ensures Ledger(ExpireApprovals(db, lapsed))
  {
    forall i | 0 <= i < |db.approvals| && db.approvals[i].status == Requested ensures !db.approvals[i].consumed {
      RequestedUnconsumed(db, i);
    }
    LedgerRequests(db, ExpireApprovals(db, lapsed));
  }

  /** Every snapshot is an old one or still current. */
  ghost predicate StartsMade(db: Database, next: Database) {
    forall s :: 0 <= s < |next.starts| ==> (s < |db.starts| && next.starts[s] == db.starts[s]) || StartCurrent(next, next.starts[s])
  }

  lemma StartsKept(db: Database, step: Step)
    requires Sound(db) && Ledger(db) && StartsCurrent(db) && Fine(db, Next(db, step))
    ensures StartsMade(db, Next(db, step))
  {
    if step.StartCapture? {
      assert Next(db, step) == CaptureStart(db, step.release, step.lapsed);
      CaptureStartMakes(db, step.release, step.lapsed);
    } else if step.StartCommit? {
      NextCommitsStart(db, step.job);
      CommitStartMakes(db, step.job);
    } else {
      StepFrame(db, step);
    }
  }

  lemma CaptureStartMakes(db: Database, r: nat, lapsed: set<nat>)
    requires Ledger(db)
    ensures StartsMade(db, CaptureStart(db, r, lapsed))
  {
    if Known(db, r) && db.releases[r].status == Scheduled { ScheduledHasNoApproval(db, r); }
  }

  lemma CommitStartMakes(db: Database, s: nat)
    ensures StartsMade(db, CommitStart(db, s))
  {
    CommitStartFrame(db, s);
  }
}
