/** Exactly when a request of an operator or approver changes anything, and what it then changes. */
module RolloutGuards {
  import opened Wrappers
  import opened ReleaseMachine
  import opened Apportionment
  import opened Rollout
  import opened RolloutFrames
  import opened RolloutInvariants
  import opened RolloutSteps
  import opened RolloutLedger
  import opened RolloutTheorems
  import opened RolloutLimits
  import F = Fleet
  import G = GateEvaluator
  import P = CohortPlanner
  import C = CohortProperties

  // ---- what the tables have to say ----

  /** The release has an evaluation, and its last one is a pass. */
  ghost predicate PassedLast(evaluations: seq<Evaluation>, r: nat) {
    exists k :: 0 <= k < |evaluations| && evaluations[k].release == r && evaluations[k].decision == G.Pass
      && forall j :: k < j < |evaluations| ==> evaluations[j].release != r
  }

  lemma {:induction false} LatestPassesExactly(evaluations: seq<Evaluation>, r: nat)
    ensures LatestPasses(evaluations, r) <==> PassedLast(evaluations, r)
  {
    if evaluations != [] {
      var n := |evaluations| - 1;
      LatestPassesExactly(evaluations[..n], r);
      if evaluations[n].release != r && PassedLast(evaluations[..n], r) {
        var k :| 0 <= k < n && evaluations[..n][k].release == r && evaluations[..n][k].decision == G.Pass
          && forall j :: k < j < n ==> evaluations[..n][j].release != r;
        assert forall j :: k < j < n ==> evaluations[j] == evaluations[..n][j];
        assert evaluations[k] == evaluations[..n][k];
      }
      if evaluations[n].release != r && PassedLast(evaluations, r) {
        var k :| 0 <= k < |evaluations| && evaluations[k].release == r && evaluations[k].decision == G.Pass
          && forall j :: k < j < |evaluations| ==> evaluations[j].release != r;
        assert evaluations[..n][k] == evaluations[k];
      }
    }
  }

  /** Ready, and signed by a key that is still active. */
  predicate InTrust(db: Database, a: F.Artifact) {
    a in db.ready && a.key < |db.keys| && db.keys[a.key] == ActiveKey
  }

  /** The release was frozen and has something trusted to fall back to. */
  predicate CanFallBack(db: Database, row: Release) {
    row.stages != [] && row.rollback.Some? && InTrust(db, row.rollback.value)
  }

  /** Approved for this release, action and version, not used up and not lapsed. */
  ghost predicate Granted(db: Database, r: nat, control: Control, lapsed: set<nat>)
    requires Known(db, r)
  {
    exists i: nat :: i < |db.approvals| && i !in lapsed
      && db.approvals[i].release == r && db.approvals[i].action == control && db.approvals[i].status == Approved
      && db.approvals[i].approvedVersion == Some(db.releases[r].version) && !db.approvals[i].consumed
  }

  /** Asked for already and not lapsed. */
  ghost predicate AskedFor(db: Database, r: nat, control: Control, lapsed: set<nat>) {
    exists i: nat :: i < |db.approvals| && i !in lapsed
      && db.approvals[i].release == r && db.approvals[i].action == control && db.approvals[i].status == Requested
  }

  // ---- the operator's route ----

  /** The kind of approval that stands behind an action; scheduling is covered by the one for starting. */
  function Behind(action: ReleaseAction): Option<Control> {
    match action
    case Schedule => Some(StartControl)
    case Start => Some(StartControl)
    case Resume => Some(ResumeControl)
    case Abort => Some(AbortControl)
    case Rollback => Some(RollbackControl)
    case _ => None
  }

  /** What a second person has to approve for an action, under a policy that asks for one. */
  function Permission(row: Release, action: ReleaseAction): Option<Control> {
    if row.policy.twoPerson then Behind(action) else None
  }

  /** A routed action on a known release at its current version. */
  predicate Addressed(db: Database, r: nat, action: ReleaseAction, expected: int) {
    && Known(db, r) && expected == db.releases[r].version
    && action in {Submit, Approve, Schedule, Start, Cancel, Pause, Resume, Abort, Rollback}
  }

  ghost predicate Lacks(db: Database, r: nat, action: ReleaseAction, lapsed: set<nat>)
    requires Known(db, r)
  {
    var permission := Permission(db.releases[r], action);
    permission.Some? && !Granted(db, r, permission.value, lapsed)
  }

  /** The table allows it, a resume finds its last evaluation passing, a rollback something to fall back to. */
  ghost predicate Possible(db: Database, r: nat, action: ReleaseAction)
    requires Known(db, r)
  {
    && Transition(db.releases[r].status, action).Some?
    && (action == Resume ==> PassedLast(db.evaluations, r))
    && (action == Rollback ==> CanFallBack(db, db.releases[r]))
  }

  lemma LacksExactly(db: Database, r: nat, action: ReleaseAction, lapsed: set<nat>)
    requires Known(db, r)
    ensures MustAsk(db, r, action, lapsed) <==> Lacks(db, r, action, lapsed)
  {
    if Permission(db.releases[r], action).Some? {
      var control := Permission(db.releases[r], action).value;
      assert Entitled(db, r, action, lapsed) <==> Granted(db, r, control, lapsed) by {
        assert forall i: nat :: i in Usables(db.approvals, r, control, db.releases[r].version) <==>
          i < |db.approvals| && Usable(db.approvals[i], r, control, db.releases[r].version);
      }
    }
  }

  lemma PossibleExactly(db: Database, r: nat, action: ReleaseAction)
    requires Known(db, r)
    ensures Refused(db, db.releases[r], r, action) <==> !Possible(db, r, action)
  {
    LatestPassesExactly(db.evaluations, r);
  }

  /** The route carries an action out, turns it into a request, or does nothing. */
  lemma OperateExactly(db: Database, r: nat, action: ReleaseAction, actor: nat, expected: int, lapsed: set<nat>)
    ensures var next := Next(db, Operate(r, action, actor, expected, lapsed));
      if !Addressed(db, r, action, expected) then next == db
      else if Lacks(db, r, action, lapsed) then Requests(db, next, r, action, actor, lapsed)
      else if !Possible(db, r, action) then next == db
      else CarriesOut(db, next, r, action, actor)
  {
    NextOperates(db, r, action, actor, expected, lapsed);
    if !Addressed(db, r, action, expected) {
      ActIgnored(db, r, action, actor, expected, lapsed);
    } else {
      LacksExactly(db, r, action, lapsed);
      PossibleExactly(db, r, action);
      if Lacks(db, r, action, lapsed) {
        ActAsks(db, r, action, actor, expected, lapsed);
        AskFirstRequests(db, r, action, actor, lapsed);
      } else if !Possible(db, r, action) {
        ActIgnored(db, r, action, actor, expected, lapsed);
      } else {
        ActExecutes(db, r, action, actor, expected, lapsed);
        PerformCarriesOut(db, r, action, actor);
      }
    }
  }

  /** Nothing if it is a schedule or asked for already; otherwise one request, bound to the version the
      release has once it waits: a ready release asked to start goes to wait. */
  ghost predicate Requests(db: Database, next: Database, r: nat, action: ReleaseAction, actor: nat, lapsed: set<nat>)
    requires Known(db, r) && Permission(db.releases[r], action).Some?
  {
    var (row, control) := (db.releases[r], Permission(db.releases[r], action).value);
    var waits := action == Start && row.status == Ready;
    if action == Schedule || AskedFor(db, r, control, lapsed) then next == db
    else next == db.(
      approvals := db.approvals + [Approval(r, control, Requested, if waits then row.version + 1 else row.version, None, actor, None, None, false)],
      releases := if waits then db.releases[r := row.(status := AwaitingApproval, version := row.version + 1)] else db.releases)
  }

  lemma AskFirstRequests(db: Database, r: nat, action: ReleaseAction, actor: nat, lapsed: set<nat>)
    requires Known(db, r) && Permission(db.releases[r], action).Some?
    ensures Requests(db, AskFirst(db, r, action, actor, lapsed), r, action, actor, lapsed)
  {
    var control := Permission(db.releases[r], action).value;
    assert Outstanding(db, r, control, None, lapsed) <==> AskedFor(db, r, control, lapsed) by {
      if Outstanding(db, r, control, None, lapsed) {
        var i :| 0 <= i < |db.approvals| && i !in lapsed && Waits(db.approvals[i], r, control, None);
      }
      if AskedFor(db, r, control, lapsed) {
        var i: nat :| i < |db.approvals| && i !in lapsed
          && db.approvals[i].release == r && db.approvals[i].action == control && db.approvals[i].status == Requested;
        assert Waits(db.approvals[i], r, control, None);
      }
    }
  }

  /** An approval of this kind for the release at its version, not used up. */
  predicate Entitles(a: Approval, row: Release, r: nat, control: Option<Control>) {
    && control.Some? && a.release == r && a.action == control.value && a.status == Approved
    && a.approvedVersion == Some(row.version) && !a.consumed
  }

  /** What happens to an approval row when an action is carried out: those that entitle it are used up, a
      cancellation supersedes what is still asked for. */
  predicate SpentBy(a: Approval, b: Approval, row: Release, r: nat, action: ReleaseAction, control: Option<Control>) {
    if Entitles(a, row, r, control) then b == a.(consumed := true)
    else if action == Cancel && a.release == r && a.status == Requested then b == a.(status := Superseded)
    else b == a
  }

  /** The release moves as the table says, the approvals that entitle it are used up, a submission asks for
      approval of the version it moves to, and the change is recorded with what entitled it. */
  ghost predicate CarriesOut(db: Database, next: Database, r: nat, action: ReleaseAction, actor: nat)
    requires Known(db, r) && Transition(db.releases[r].status, action).Some?
  {
    var row := db.releases[r];
    var asked := if action == Submit then 1 else 0;
    && OnlyMoves(db, next, r)
    && next.releases[r] == row.(status := Transition(row.status, action).value, version := row.version + 1, stages := next.releases[r].stages)
    && (action != Start ==> next.releases[r].stages == row.stages)
    && |next.approvals| == |db.approvals| + asked
    && (forall i :: 0 <= i < |db.approvals| ==> SpentBy(db.approvals[i], next.approvals[i], row, r, action, Behind(action)))
    && (asked == 1 ==>
          next.approvals[|db.approvals|] == Approval(r, StartControl, Requested, row.version + 1, None, actor, None, None, false))
    && |next.changes| == |db.changes| + 1 && db.changes <= next.changes
    && (var c := next.changes[|db.changes|];
        && c.release == r && c.action == action && c.version == row.version
        && forall i: nat :: i in c.authority <==> i < |db.approvals| && Entitles(db.approvals[i], row, r, Behind(action)))
  }

  lemma PerformCarriesOut(db: Database, r: nat, action: ReleaseAction, actor: nat)
    requires Known(db, r) && Transition(db.releases[r].status, action).Some?
    requires action in {Submit, Approve, Schedule, Start, Cancel, Pause, Resume, Abort, Rollback}
    ensures CarriesOut(db, Record(Perform(db, r, action, actor), r, action, db.releases[r].version), r, action, actor)
  {
    var row := db.releases[r];
    var moved := SetRelease(db, r, Move(row, Transition(row.status, action).value));
    var mid := Perform(db, r, action, actor);
    PerformOnly(db, r, action, actor);
    PerformFrame(db, r, action, actor);
    EffectsRow(moved, r, action, row.version, actor);
    EffectsApprovals(moved, r, action, row.version, actor);
  }

  lemma EffectsRow(db: Database, r: nat, action: ReleaseAction, version: int, actor: nat)
    requires Known(db, r)
    ensures var b := SideEffects(db, r, action, version, actor).releases[r];
      b == db.releases[r].(stages := b.stages) && (action != Start ==> b.stages == db.releases[r].stages)
  {
  }

  lemma EffectsApprovals(db: Database, r: nat, action: ReleaseAction, version: int, actor: nat)
    requires Known(db, r)
    ensures var mid := SideEffects(db, r, action, version, actor);
      && |mid.approvals| == |db.approvals| + (if action == Submit then 1 else 0)
      && (forall i :: 0 <= i < |db.approvals| ==>
            mid.approvals[i] == if action == Cancel && db.approvals[i].release == r && db.approvals[i].status == Requested
                                then db.approvals[i].(status := Superseded) else db.approvals[i])
      && (action == Submit ==>
            mid.approvals[|db.approvals|] == Approval(r, StartControl, Requested, version + 1, None, actor, None, None, false))
  {
  }

  /** An operator's resume that changes a release's status found its last evaluation passing. */
  lemma ResumeNeedsEvidence(db: Database, r: nat, actor: nat, expected: int, lapsed: set<nat>, q: nat)
    requires var next := Next(db, Operate(r, Resume, actor, expected, lapsed));
      Known(db, q) && Known(next, q) && next.releases[q].status != db.releases[q].status
    ensures q == r && PassedLast(db.evaluations, r) && db.releases[r].status == Paused
    ensures Next(db, Operate(r, Resume, actor, expected, lapsed)).releases[r].status == Running
  {
    OperateExactly(db, r, Resume, actor, expected, lapsed);
    ResumesPaused();
  }

  lemma ResumesPaused()
    ensures forall s :: Transition(s, Resume).Some? <==> s == Paused
    ensures Transition(Paused, Resume) == Some(Running)
  {
  }

  /** A paused release, at its version and with whatever approval it needs, resumes if and only if its last
      evaluation is a pass. */
  lemma ResumesExactly(db: Database, r: nat, actor: nat, lapsed: set<nat>)
    requires Known(db, r) && db.releases[r].status == Paused && !Lacks(db, r, Resume, lapsed)
    ensures var next := Next(db, Operate(r, Resume, actor, db.releases[r].version, lapsed));
      Known(next, r) && next.releases[r].status == if PassedLast(db.evaluations, r) then Running else Paused
  {
    OperateExactly(db, r, Resume, actor, db.releases[r].version, lapsed);
    ResumesPaused();
  }

  // ---- approval decisions ----

  /** The states in which a decision of each kind still finds its release. */
  function Decided(control: Control): set<ReleaseState> {
    match control
    case StartControl => {AwaitingApproval}
    case ResumeControl => {Paused}
    case OverrideControl => {Paused}
    case AbortControl => {Running, Paused, Aborting}
    case RollbackControl => {Running, Paused, RollingBack}
  }

  function LeadsTo(control: Control): ReleaseState {
    match control
    case StartControl => Ready
    case ResumeControl => Running
    case OverrideControl => Running
    case AbortControl => Aborting
    case RollbackControl => RollingBack
  }

  /** An override is bound to an evaluation of its own release that paused it or lacked evidence. */
  ghost predicate StillOverridable(db: Database, a: Approval) {
    && a.evaluation.Some? && a.evaluation.value < |db.evaluations|
    && db.evaluations[a.evaluation.value].release == a.release
    && (db.evaluations[a.evaluation.value].decision == G.Pause || db.evaluations[a.evaluation.value].decision == G.InsufficientEvidence)
  }

  /** Asked for by somebody else, not lapsed, at the release's version, and still possible. */
  ghost predicate MayDecide(db: Database, a: nat, actor: nat, approve: bool, lapsed: set<nat>) {
    && a < |db.approvals| && a !in lapsed
    && var (p, r) := (db.approvals[a], db.approvals[a].release);
    && p.status == Requested && p.requester != actor && Known(db, r) && db.releases[r].version == p.captured
    && (p.action == OverrideControl ==> StillOverridable(db, p))
    && (approve || p.action == StartControl ==> db.releases[r].status in Decided(p.action))
    && (approve && p.action == RollbackControl ==> CanFallBack(db, db.releases[r]))
  }

  lemma DecidableExactly(db: Database, a: nat, actor: nat, approve: bool, lapsed: set<nat>)
    ensures Decidable(db, a, actor, approve, lapsed) <==> MayDecide(db, a, actor, approve, lapsed)
  {
    if a < |db.approvals| && Known(db, db.approvals[a].release) {
      DecidedExactly(db.releases[db.approvals[a].release].status, db.approvals[a].action);
    }
  }

  lemma DecidedExactly(s: ReleaseState, control: Control)
    ensures Transition(s, ActionOf(control)).Some? <==> s in Decided(control)
  {
  }

  /** The decision is written; approved ones other than a start's are used up and recorded, a start waits to
      be used at the version its release moves to, and is sent back to ready even by a rejection. */
  ghost predicate WritesDecision(db: Database, next: Database, a: nat, actor: nat, approve: bool)
    requires a < |db.approvals| && Known(db, db.approvals[a].release)
  {
    var (p, r) := (db.approvals[a], db.approvals[a].release);
    var starts := p.action == StartControl;
    var bound := if !approve then None else Some(if starts then p.captured + 1 else p.captured);
    && next == db.(releases := next.releases, approvals := next.approvals, fleet := next.fleet, changes := next.changes)
    && next.approvals == db.approvals[a := p.(status := if approve then Approved else Rejected, decider := Some(actor),
                                              approvedVersion := bound, consumed := approve && !starts)]
    && next.releases == (if approve || starts
                         then db.releases[r := db.releases[r].(status := LeadsTo(p.action), version := p.captured + 1)] else db.releases)
    && next.changes == (if approve && !starts then db.changes + [Change(r, ActionOf(p.action), p.captured, {a})] else db.changes)
    && (p.action !in {AbortControl, RollbackControl} || !approve ==> next.fleet == db.fleet)
  }

  /** A decision takes effect exactly when it may, and otherwise changes nothing. */
  lemma DecideExactly(db: Database, a: nat, actor: nat, approve: bool, lapsed: set<nat>)
    ensures var next := Next(db, DecideApproval(a, actor, approve, lapsed));
      if MayDecide(db, a, actor, approve, lapsed) then WritesDecision(db, next, a, actor, approve) else next == db
  {
    NextDecides(db, a, actor, approve, lapsed);
    DecidableExactly(db, a, actor, approve, lapsed);
    if Decidable(db, a, actor, approve, lapsed) { DecisionWrites(db, a, actor, approve, lapsed); }
  }

  lemma DecisionWrites(db: Database, a: nat, actor: nat, approve: bool, lapsed: set<nat>)
    requires Decidable(db, a, actor, approve, lapsed)
    ensures WritesDecision(db, Decide(db, a, actor, approve, lapsed), a, actor, approve)
  {
    DecideFrame(db, a, actor, approve, lapsed);
  }

  ghost predicate OverrideAsked(db: Database, r: nat, e: nat, lapsed: set<nat>) {
    exists i: nat :: i < |db.approvals| && i !in lapsed && db.approvals[i].release == r
      && db.approvals[i].action == OverrideControl && db.approvals[i].status == Requested && db.approvals[i].evaluation == Some(e)
  }

  /** An override is asked for once, at the release's version, of an evaluation that can be overridden. */
  lemma OverrideExactly(db: Database, r: nat, e: nat, actor: nat, expected: int, lapsed: set<nat>)
    ensures var next := Next(db, RequestOverride(r, e, actor, expected, lapsed));
      var p := Approval(r, OverrideControl, Requested, expected, Some(e), actor, None, None, false);
      if Known(db, r) && db.releases[r].version == expected && StillOverridable(db, p) && !OverrideAsked(db, r, e, lapsed)
      then next == db.(approvals := db.approvals + [p]) else next == db
  {
    assert Next(db, RequestOverride(r, e, actor, expected, lapsed)) == AskOverride(db, r, e, actor, expected, lapsed);
    if Outstanding(db, r, OverrideControl, Some(e), lapsed) {
      var i :| 0 <= i < |db.approvals| && i !in lapsed && Waits(db.approvals[i], r, OverrideControl, Some(e));
      assert db.approvals[i].evaluation == Some(e);
    } else {
      forall i: nat | i < |db.approvals| && i !in lapsed ensures !Waits(db.approvals[i], r, OverrideControl, Some(e)) { }
    }
  }

  // ---- validation ----

  /** Found, distinct and eligible devices. */
  predicate Selected(db: Database, roster: seq<nat>) {
    && roster != []
    && (forall k :: 0 <= k < |roster| ==>
          roster[k] < |db.catalog| && roster[k] < |db.fleet.devices| && db.fleet.devices[roster[k]].eligible)
    && (forall j, k :: 0 <= j < k < |roster| ==> roster[j] != roster[k])
  }

  /** A trusted target with a trusted fallback under another key, or a first installation everywhere. */
  predicate Installable(db: Database, row: Release, roster: seq<nat>)
    requires Selected(db, roster)
  {
    && InTrust(db, row.artifact)
    && match row.rollback
       case Some(fallback) => InTrust(db, fallback) && fallback.key != row.artifact.key
       case None =>
         && row.policy.rollback == AllowFirstInstall
         && forall k :: 0 <= k < |roster| ==>
              db.fleet.devices[roster[k]].observedDigest == "" && db.fleet.devices[roster[k]].observed in {None, Some(0)}
  }

  ghost predicate MayFreeze(db: Database, r: nat, expected: int, roster: seq<nat>) {
    && Known(db, r) && db.releases[r].status == Draft && db.releases[r].version == expected
    && Selected(db, roster) && Installable(db, db.releases[r], roster) && ValidPercents(db.releases[r].policy.percents)
  }

  /** The release becomes ready at stage 1, two versions on, with the policy's percentages as pending stages
      and the planned devices, in planned order, as its members. */
  ghost predicate Freezes(db: Database, next: Database, r: nat, roster: seq<nat>, plan: seq<P.Member>)
    requires Known(db, r)
  {
    var row := db.releases[r];
    && OnlyMoves(db, next, r) && next == db.(releases := next.releases)
    && var b := next.releases[r];
    && b == row.(status := Ready, version := row.version + 2, current := 1, stages := b.stages, members := b.members)
    && |b.stages| == |row.policy.percents|
    && (forall k :: 0 <= k < |b.stages| ==> b.stages[k] == Stage(row.policy.percents[k], Pending))
    && |b.members| == |plan| == |roster|
    && (forall i, j :: 0 <= i < j < |b.members| ==> b.members[i] != b.members[j])
    && (forall i :: 0 <= i < |b.members| ==>
          b.members[i] in roster && b.members[i] < |db.catalog| && db.catalog[b.members[i]].id == plan[i].device.id)
  }

  lemma FreezableExactly(db: Database, r: nat, expected: int, roster: seq<nat>)
    requires Sound(db)
    ensures Freezable(db, r, expected, roster) && ValidPercents(db.releases[r].policy.percents) <==> MayFreeze(db, r, expected, roster)
  {
    if Known(db, r) && Roster(db, roster) {
      if db.releases[r].status == Blocked { OnlyDraftsFreeze(db, r, roster); }
      assert Admissible(db, db.releases[r], roster) <==> Installable(db, db.releases[r], roster) by {
        forall k | 0 <= k < |roster|
          ensures Enlisted(db, roster[k]).observedArtifactDigest == db.fleet.devices[roster[k]].observedDigest
          ensures Enlisted(db, roster[k]).observedGeneration == 0 <==> db.fleet.devices[roster[k]].observed in {None, Some(0)}
        {
        }
      }
    }
  }

  /** A validation freezes a draft exactly when it may, and otherwise changes nothing. */
  lemma ValidateExactly(db: Database, r: nat, expected: int, roster: seq<nat>, hmac: P.Keyed, name: string, salt: string)
    requires Invariant(db)
    ensures var next := Next(db, ValidateRelease(r, expected, roster, hmac, name, salt));
      if MayFreeze(db, r, expected, roster)
      then Freezes(db, next, r, roster, P.PlannedMembers(hmac, name, salt, RosterDevices(db, roster), db.releases[r].policy.percents))
      else next == db
  {
    assert Next(db, ValidateRelease(r, expected, roster, hmac, name, salt)) == Freeze(db, r, expected, roster, hmac, name, salt);
    FreezableExactly(db, r, expected, roster);
    if MayFreeze(db, r, expected, roster) { FreezeFreezes(db, r, expected, roster, hmac, name, salt); }
  }

  lemma FreezeFreezes(db: Database, r: nat, expected: int, roster: seq<nat>, hmac: P.Keyed, name: string, salt: string)
    requires Invariant(db) && Freezable(db, r, expected, roster) && ValidPercents(db.releases[r].policy.percents)
    ensures Freezes(db, Freeze(db, r, expected, roster, hmac, name, salt), r, roster,
                    P.PlannedMembers(hmac, name, salt, RosterDevices(db, roster), db.releases[r].policy.percents))
  {
    var percents, devices := db.releases[r].policy.percents, RosterDevices(db, roster);
    var plan := P.PlannedMembers(hmac, name, salt, devices, percents);
    C.PlanIsPartition(hmac, name, salt, devices, percents);
    FrozenIsRoster(db, roster, plan);
    var frozen := FrozenMembers(db, roster, plan);
    forall i | 0 <= i < |frozen| ensures frozen[i] < |db.catalog| && db.catalog[frozen[i]].id == plan[i].device.id {
      assert Enlisted(db, frozen[i]) == plan[i].device;
    }
  }

  /** A draft is edited at its version only, and nothing but the version shows it. */
  lemma EditExactly(db: Database, r: nat, expected: int)
    ensures var next := Next(db, EditDraft(r, expected));
      if Known(db, r) && db.releases[r].status == Draft && db.releases[r].version == expected
      then next == db.(releases := db.releases[r := db.releases[r].(version := expected + 1)]) else next == db
  {
    assert Next(db, EditDraft(r, expected)) == Edit(db, r, expected);
  }
}
