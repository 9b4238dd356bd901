/** Every kind of step keeps the release invariants and is an advance of the database. */
module RolloutSteps {
  import opened Wrappers
  import opened ReleaseMachine
  import opened Apportionment
  import opened Rollout
  import opened RolloutFrames
  import opened RolloutInvariants
  import F = Fleet
  import H = FleetProperties
  import G = GateEvaluator
  import P = CohortPlanner
  import C = CohortProperties
  import O = Ordering

  ghost predicate Fine(before: Database, after: Database) { Advance(before, after) && Sound(after) }

  lemma Unchanged(db: Database)
    requires Sound(db)
    ensures Fine(db, db)
  {
    H.RunKeeps(db.fleet, []);
    Still(db, db);
  }

  // ---- environment ----

  lemma AddDeviceFine(db: Database, d: P.Device, eligible: bool)
    requires Sound(db)
    ensures Fine(db, Enlist(db, d, eligible))
  {
    var ops := [H.Register(eligible)];
    var next := Enlist(db, d, eligible);
    H.RunKeeps(db.fleet, ops);
    assert ops[..0] == [] && H.Run(db.fleet, []) == db.fleet;
    assert H.Run(db.fleet, ops) == H.Apply(db.fleet, H.Register(eligible));
    Unchanged(db);
    if next != db {
      Still(db, next);
    }
  }

  /** A quiet run of fleet operations and nothing else. */
  lemma {:induction false} FleetOnly(db: Database, ops: seq<H.Op>)
    requires Sound(db) && forall op :: op in ops ==> Quiet(op)
    ensures Fine(db, db.(fleet := H.Run(db.fleet, ops)))
  {
    QuietRun(db.fleet, ops);
    Still(db, db.(fleet := H.Run(db.fleet, ops)));
  }

  /** Only approvals, evaluations, jobs, keys or the artifact list change, rows are only added to the second. */
  lemma Aside(db: Database, next: Database)
    requires Sound(db) && next.releases == db.releases && next.fleet == db.fleet && db.evaluations <= next.evaluations
    requires next.catalog == db.catalog && |db.keys| <= |next.keys|
    requires forall k :: 0 <= k < |db.keys| ==> db.keys[k] != ActiveKey ==> next.keys[k] == db.keys[k]
    ensures Fine(db, next)
  {
    H.RunKeeps(db.fleet, []);
    Still(db, next);
  }

  lemma CreateFine(db: Database, policy: Policy, target: F.Artifact, fallback: Option<F.Artifact>)
    requires Sound(db)
    ensures Fine(db, db.(releases := db.releases + [Release(Draft, 1, policy, target, fallback, [], [], 0)]))
  {
    var next := db.(releases := db.releases + [Release(Draft, 1, policy, target, fallback, [], [], 0)]);
    H.RunKeeps(db.fleet, []);
    forall r | 0 <= r < |db.releases| ensures Moved(db.releases[r], next.releases[r]) { MovedSame(db.releases[r]); }
    StillDead(db, next);
  }

  lemma EditFine(db: Database, r: nat, expected: int)
    requires Sound(db)
    ensures Fine(db, Edit(db, r, expected))
  {
    var next := Edit(db, r, expected);
    Unchanged(db);
    if next != db {
      assert WellFormed(db.releases[r], |db.fleet.devices|);
      H.RunKeeps(db.fleet, []);
      OneRow(db, next, r, next.releases[r]);
    }
  }

  // ---- keys ----

  lemma AlarmMoves(row: Release, key: nat, n: nat)
    requires WellFormed(row, n)
    ensures Moved(row, Alarm(row, key)) && WellFormed(Alarm(row, key), n) && Alarm(row, key).stages == row.stages
    ensures Alarm(row, key).status == Blocked && row.status != Blocked ==> SignedBy(row, key)
  {
  }

  lemma CompromiseFine(db: Database, key: nat)
    requires Sound(db)
    ensures Fine(db, Compromise(db, key))
  {
    var next := Compromise(db, key);
    if key >= |db.keys| {
      Unchanged(db);
    } else {
      forall r | 0 <= r < |db.releases|
        ensures Moved(db.releases[r], next.releases[r]) && WellFormed(next.releases[r], |db.fleet.devices|)
        ensures next.releases[r].stages == db.releases[r].stages
        ensures next.releases[r].status == Blocked && db.releases[r].status != Blocked ==> Dead(next, next.releases[r])
      {
        AlarmedRow(db, key, r);
      }
      H.RunKeeps(db.fleet, []);
      StillDead(db, next);
    }
  }

  lemma AlarmedRow(db: Database, key: nat, r: nat)
    requires AllWell(db) && key < |db.keys| && Known(db, r)
    ensures var (next, a) := (Compromise(db, key), db.releases[r]);
      && Known(next, r) && var b := next.releases[r];
      && Moved(a, b) && WellFormed(b, |db.fleet.devices|) && b.stages == a.stages
      && (b.status == Blocked && a.status != Blocked ==> Dead(next, b))
  {
    var next := Compromise(db, key);
    assert WellFormed(db.releases[r], |db.fleet.devices|);
    AlarmMoves(db.releases[r], key, |db.fleet.devices|);
    if next.releases[r].status == Blocked && db.releases[r].status != Blocked {
      assert SignedBy(next.releases[r], key) && next.keys[key] != ActiveKey;
    }
  }

  // ---- validation ----

  lemma {:induction false} RowOfFinds(db: Database, roster: seq<nat>, k: nat)
    requires forall i :: 0 <= i < |roster| ==> roster[i] < |db.catalog|
    requires forall i, j :: 0 <= i < j < |db.catalog| ==> db.catalog[i].id != db.catalog[j].id
    requires k < |roster|
    ensures RowOf(db, roster, db.catalog[roster[k]].id) == roster[k]
  {
    var n := |roster| - 1;
    if db.catalog[roster[n]].id != db.catalog[roster[k]].id {
      RowOfFinds(db, roster[..n], k);
    }
  }

  /** Equal multisets: an element of one has a place in the other, and no duplicates cross over. */
  lemma PlaceOf<T>(a: seq<T>, b: seq<T>, i: nat) returns (k: nat)
    requires multiset(a) == multiset(b) && i < |a|
    ensures k < |b| && b[k] == a[i]
  {
    assert a[i] in multiset(b);
    k :| 0 <= k < |b| && b[k] == a[i];
  }

  lemma NoRepeats<T>(a: seq<T>, b: seq<T>, i: nat, j: nat)
    requires multiset(a) == multiset(b) && i < j < |a|
    requires forall x, y :: 0 <= x < y < |b| ==> b[x] != b[y]
    ensures a[i] != a[j]
  {
    if a[i] == a[j] {
      assert a == a[..i] + [a[i]] + a[i + 1..j] + [a[j]] + a[j + 1..];
      assert multiset(a)[a[i]] >= 2;
      O.DistinctOnce(b, a[i]);
      assert false;
    }
  }

  /** Freezing a plan enrols exactly the roster, each device once. */
  lemma FrozenIsRoster(db: Database, roster: seq<nat>, plan: seq<P.Member>)
    requires Catalogued(db) && Roster(db, roster)
    requires multiset(C.DevicesOf(plan)) == multiset(RosterDevices(db, roster))
    ensures var frozen := FrozenMembers(db, roster, plan);
      && |frozen| == |roster| && (forall i :: 0 <= i < |frozen| ==> frozen[i] < |db.fleet.devices|)
      && (forall i, j :: 0 <= i < j < |frozen| ==> frozen[i] != frozen[j])
      && (forall i :: 0 <= i < |frozen| ==> frozen[i] in roster && Enlisted(db, frozen[i]) == plan[i].device)
  {
    var frozen, devices, planned := FrozenMembers(db, roster, plan), RosterDevices(db, roster), C.DevicesOf(plan);
    assert |planned| == |multiset(planned)| == |multiset(devices)| == |devices|;
    forall i | 0 <= i < |frozen| ensures frozen[i] in roster && frozen[i] < |db.fleet.devices| && Enlisted(db, frozen[i]) == plan[i].device {
      var k := PlaceOf(planned, devices, i);
      RowOfFinds(db, roster, k);
    }
    RosterDistinct(db, roster);
    forall i, j | 0 <= i < j < |frozen| ensures frozen[i] != frozen[j] {
      NoRepeats(planned, devices, i, j);
      assert Enlisted(db, frozen[i]) == planned[i] && Enlisted(db, frozen[j]) == planned[j];
    }
  }

  lemma RosterDistinct(db: Database, roster: seq<nat>)
    requires Catalogued(db) && Roster(db, roster)
    ensures forall x, y :: 0 <= x < y < |roster| ==> RosterDevices(db, roster)[x] != RosterDevices(db, roster)[y]
  {
    forall x, y | 0 <= x < y < |roster| ensures RosterDevices(db, roster)[x] != RosterDevices(db, roster)[y] {
      assert roster[x] != roster[y];
      assert RosterDevices(db, roster)[x].id == db.catalog[roster[x]].id;
      assert RosterDevices(db, roster)[y].id == db.catalog[roster[y]].id;
    }
  }

  /** A blocked release has lost a key for good, so only a draft can be validated. */
  lemma OnlyDraftsFreeze(db: Database, r: nat, roster: seq<nat>)
    requires Sound(db) && Known(db, r) && db.releases[r].status == Blocked && Roster(db, roster)
    ensures !Admissible(db, db.releases[r], roster)
  {
    assert Dead(db, db.releases[r]);
  }

  lemma FrozenWellFormed(row: Release, n: nat)
    requires row.status == Ready && row.current == 1 && ValidPercents(row.policy.percents) && row.members != []
    requires row.stages == seq(|row.policy.percents|, k requires 0 <= k < |row.policy.percents| => Stage(row.policy.percents[k], Pending))
    requires forall i :: 0 <= i < |row.members| ==> row.members[i] < n
    requires forall i, j :: 0 <= i < j < |row.members| ==> row.members[i] != row.members[j]
    ensures WellFormed(row, n)
  {
    assert Percents(row) == row.policy.percents;
  }

  lemma FreezeFine(db: Database, r: nat, expected: int, roster: seq<nat>, hmac: P.Keyed, name: string, salt: string)
    requires Sound(db)
    ensures Fine(db, Freeze(db, r, expected, roster, hmac, name, salt))
  {
    var next := Freeze(db, r, expected, roster, hmac, name, salt);
    Unchanged(db);
    if next != db {
      var row := db.releases[r];
      assert row.status == Draft by {
        if row.status == Blocked { OnlyDraftsFreeze(db, r, roster); }
      }
      assert WellFormed(row, |db.fleet.devices|);
      var plan := P.PlannedMembers(hmac, name, salt, RosterDevices(db, roster), row.policy.percents);
      C.PlanIsPartition(hmac, name, salt, RosterDevices(db, roster), row.policy.percents);
      FrozenIsRoster(db, roster, plan);
      FrozenWellFormed(next.releases[r], |db.fleet.devices|);
      OneRow(db, next, r, next.releases[r]);
    }
  }

  // ---- opening a wave ----

  lemma WaveEnrols(before: Database, next: Database, r: nat, b: Release, stage: nat, members: seq<nat>)
    requires Known(before, r) && next.releases == before.releases[r := b]
    requires var a := before.releases[r];
      && 1 <= stage <= |a.stages| && stage <= b.current && b.version > a.version
      && |b.stages| == |a.stages| && a.stages[stage - 1].status == Pending && b.stages[stage - 1].status != Pending
    requires forall m :: m in members ==> InWave(b, stage, m)
    requires Added(before.fleet, next.fleet, r, stage, b.artifact, members)
    ensures Enrolled(before, next)
  {
    forall i | |before.fleet.assignments| <= i < |next.fleet.assignments|
      ensures Enrolment(before, next, next.fleet.assignments[i])
    {
      assert next.fleet.assignments[i].device in members;
    }
  }

  lemma RowReplaced(before: Database, next: Database, r: nat)
    requires Sound(before) && Known(before, r) && Known(next, r) && next.releases == before.releases[r := next.releases[r]]
    requires Moved(before.releases[r], next.releases[r]) && WellFormed(next.releases[r], |before.fleet.devices|)
    requires next.releases[r].status != Blocked && next.keys == before.keys
    requires |next.fleet.devices| == |before.fleet.devices|
    ensures RowsMove(before, next) && KeysFade(before, next) && AllWell(next)
    ensures forall i :: 0 <= i < |next.releases| ==> next.releases[i].status == Blocked ==> Dead(next, next.releases[i])
  {
    forall i | 0 <= i < |before.releases| ensures Moved(before.releases[i], next.releases[i]) {
      if i != r { MovedSame(before.releases[i]); }
    }
    StillDead(before, next);
  }

  lemma OnlyRowPasses(before: Database, next: Database, r: nat)
    requires RowsMove(before, next) && Known(before, r) && Known(next, r) && next.releases == before.releases[r := next.releases[r]]
    requires before.evaluations <= next.evaluations
    requires forall k: nat :: k < |before.releases[r].stages| && k < |next.releases[r].stages| ==> PassBacked(before, next, r, k)
    ensures PassesBacked(before, next)
  {
  }

  /** One row moves, opens a stage, and members of its wave are assigned. */
  lemma OpenWave(before: Database, next: Database, r: nat, b: Release, stage: nat, members: seq<nat>)
    requires Sound(before) && Known(before, r) && next.releases == before.releases[r := b]
    requires var a := before.releases[r];
      && 1 <= stage <= |a.stages| && stage <= b.current && Moved(a, b) && b != a && b.status != Blocked
      && |b.stages| == |a.stages| && a.stages[stage - 1].status == Pending && b.stages[stage - 1].status != Pending
    requires WellFormed(b, |before.fleet.devices|)
    requires forall m :: m in members ==> InWave(b, stage, m)
    requires next.fleet == H.Run(before.fleet, InstallOps(r, stage, b.artifact, members))
    requires next.catalog == before.catalog && next.keys == before.keys && before.evaluations <= next.evaluations
    requires forall k: nat :: k < |before.releases[r].stages| ==> PassBacked(before, next, r, k)
    ensures Fine(before, next)
  {
    InstallRun(before.fleet, r, stage, b.artifact, members);
    WaveEnrols(before, next, r, b, stage, members);
    RowReplaced(before, next, r);
    OnlyRowPasses(before, next, r);
  }

  /** A release about to open the stage after `completed`: everything before it passed. */
  ghost predicate AtDoor(row: Release, completed: nat) {
    && completed < |row.stages| && row.current == completed
    && (forall k :: 0 <= k < completed ==> row.stages[k].status == Passed)
    && (forall k :: completed <= k < |row.stages| ==> row.stages[k].status == Pending)
  }

  ghost predicate WaveIs(f: F.Fleet, g: F.Fleet, r: nat, b: Release, stage: nat, members: seq<nat>) {
    && 1 <= stage <= |b.stages| && g == H.Run(f, InstallOps(r, stage, b.artifact, members))
    && (forall m :: m in members ==> InWave(b, stage, m))
  }

  ghost predicate Opens(f: F.Fleet, g: F.Fleet, r: nat, b: Release, stage: nat) {
    exists members :: WaveIs(f, g, r, b, stage, members)
  }

  lemma ActivateOpens(db: Database, r: nat, completed: nat)
    requires Known(db, r) && AtDoor(db.releases[r], completed) && db.releases[r].status == Running
    ensures var (row, result) := (db.releases[r], Activate(db, r, completed));
      && result.Some? && var next := result.value; var b := next.releases[r];
      && next == db.(releases := db.releases[r := b], fleet := next.fleet)
      && b == row.(stages := b.stages, current := completed + 1, version := row.version + 1)
      && OnCourse(b) && Percents(b) == Percents(row)
      && (forall k :: 0 <= k < |row.stages| ==> k != completed ==> b.stages[k] == row.stages[k])
      && Opens(db.fleet, next.fleet, r, b, completed + 1)
  {
    var row := db.releases[r];
    var wave := row.members[..TargetCount(|row.members|, row.stages[completed].percentage)];
    var members := Missing(db.fleet, r, wave);
    var b := Activate(db, r, completed).value.releases[r];
    assert WaveIs(db.fleet, Activate(db, r, completed).value.fleet, r, b, completed + 1, members);
  }

  /** The unclamped first wave is the activator's, because percentages are validated. */
  lemma FirstWaveIsTarget(members: nat, percentage: int)
    requires 1 <= percentage <= 100
    ensures FirstWave(members, percentage) == TargetCount(members, percentage)
  {
    if members == 0 {
      assert FirstWave(members, percentage) == 0;
    }
  }

  // ---- operator actions ----

  lemma StartFine(db: Database, r: nat, version: int, actor: nat)
    requires Sound(db) && Known(db, r) && db.releases[r].status in {Ready, Scheduled}
    ensures Fine(db, SideEffects(SetRelease(db, r, Move(db.releases[r], Running)), r, Start, version, actor))
  {
    var a := db.releases[r];
    assert WellFormed(a, |db.fleet.devices|);
    var next := SideEffects(SetRelease(db, r, Move(a, Running)), r, Start, version, actor);
    var b := next.releases[r];
    FirstWaveIsTarget(|a.members|, a.stages[0].percentage) by { assert Percents(a)[0] == a.stages[0].percentage; }
    assert Percents(b) == Percents(a);
    OpenWave(db, next, r, b, 1, a.members[..FirstWave(|a.members|, a.stages[0].percentage)]);
  }

  lemma MoveRow(row: Release, status: ReleaseState, n: nat)
    requires WellFormed(row, n) && Edge(row.status, status)
    requires status == Cancelled || (status !in {Draft, Blocked, Completed} && row.status != Draft)
    requires status == Running ==> row.status == Paused
    ensures Moved(row, Move(row, status)) && WellFormed(Move(row, status), n)
  {
    assert Percents(Move(row, status)) == Percents(row);
  }

  /** Statuses change, frozen inputs and stages do not. */
  lemma MoveFine(db: Database, next: Database, r: nat, status: ReleaseState)
    requires Sound(db) && Known(db, r) && Edge(db.releases[r].status, status)
    requires status == Cancelled || (status !in {Draft, Blocked, Completed} && db.releases[r].status != Draft)
    requires status == Running ==> db.releases[r].status == Paused
    requires next.releases == db.releases[r := Move(db.releases[r], status)]
    requires next.evaluations == db.evaluations && next.keys == db.keys && next.catalog == db.catalog
    requires H.Consistent(next.fleet) && H.Advanced(db.fleet, next.fleet) && SameSize(db.fleet, next.fleet)
    ensures Fine(db, next)
  {
    assert WellFormed(db.releases[r], |db.fleet.devices|);
    MoveRow(db.releases[r], status, |db.fleet.devices|);
    OneRow(db, next, r, Move(db.releases[r], status));
  }

  lemma RoutedEdge(row: Release, action: ReleaseAction, n: nat)
    requires WellFormed(row, n) && action in ROUTED && Transition(row.status, action).Some?
    ensures var status := Transition(row.status, action).value;
      Edge(row.status, status) && status !in {Draft, Blocked, Completed}
      && (status == Running ==> action in {Start, Resume}) && (row.status == Draft ==> status == Cancelled)
  {
  }

  ghost predicate Quieted(f: F.Fleet, g: F.Fleet) {
    H.Consistent(g) && H.Advanced(f, g) && SameSize(f, g)
  }

  lemma {:induction false} WithdrawQuiet(f: F.Fleet, r: nat)
    requires H.Consistent(f)
    ensures Quieted(f, H.Run(f, WithdrawOps(f.assignments, r)))
  {
    QuietRun(f, WithdrawOps(f.assignments, r));
  }

  lemma {:induction false} RetargetQuiet(f: F.Fleet, r: nat, artifact: F.Artifact, states: set<F.AssignmentState>, byApproval: bool)
    requires H.Consistent(f)
    ensures Quieted(f, H.Run(f, RetargetOps(f.assignments, r, artifact, states, byApproval)))
  {
    QuietRun(f, RetargetOps(f.assignments, r, artifact, states, byApproval));
  }

  lemma IdleQuiet(f: F.Fleet)
    requires H.Consistent(f)
    ensures Quieted(f, f)
  {
    H.RunKeeps(f, []);
  }

  lemma RetargetsQuietly(db: Database, r: nat, version: int, actor: nat)
    requires H.Consistent(db.fleet) && Known(db, r)
    ensures var next := SideEffects(db, r, Rollback, version, actor);
      next == db.(fleet := next.fleet) && Quieted(db.fleet, next.fleet)
  {
    if db.releases[r].rollback.Some? {
      RetargetQuiet(db.fleet, r, db.releases[r].rollback.value, STANDING, false);
    } else {
      IdleQuiet(db.fleet);
    }
  }

  lemma EffectsAside(db: Database, r: nat, action: ReleaseAction, version: int, actor: nat)
    requires Known(db, r) && action !in {Start, Abort, Rollback}
    ensures var next := SideEffects(db, r, action, version, actor); next == db.(approvals := next.approvals)
  {
  }

  lemma EffectsQuiet(db: Database, r: nat, action: ReleaseAction, version: int, actor: nat)
    requires H.Consistent(db.fleet) && Known(db, r) && action != Start
    ensures var next := SideEffects(db, r, action, version, actor);
      && next == db.(fleet := next.fleet, approvals := next.approvals) && Quieted(db.fleet, next.fleet)
  {
    if action == Abort {
      WithdrawQuiet(db.fleet, r);
    } else if action == Rollback {
      RetargetsQuietly(db, r, version, actor);
    } else {
      EffectsAside(db, r, action, version, actor);
      IdleQuiet(db.fleet);
    }
  }

  /** Everything an action does other than start. */
  lemma EffectsFine(db: Database, r: nat, action: ReleaseAction, actor: nat)
    requires Sound(db) && Known(db, r) && action in ROUTED - {Start} && Transition(db.releases[r].status, action).Some?
    ensures Fine(db, Perform(db, r, action, actor))
  {
    var row := db.releases[r];
    assert WellFormed(row, |db.fleet.devices|);
    RoutedEdge(row, action, |db.fleet.devices|);
    var status := Transition(row.status, action).value;
    var moved := SetRelease(db, r, Move(row, status));
    EffectsQuiet(moved, r, action, row.version, actor);
    MoveFine(db, Perform(db, r, action, actor), r, status);
  }

  /** Approvals, jobs and the audit trail play no part in the release invariants. */
  lemma FineAside(db: Database, mid: Database, next: Database)
    requires Fine(db, mid)
    requires next.releases == mid.releases && next.fleet == mid.fleet && next.evaluations == mid.evaluations
    requires next.keys == mid.keys && next.catalog == mid.catalog
    ensures Fine(db, next)
  {
    forall r: nat, k: nat | r < |db.releases| && k < |db.releases[r].stages| && k < |next.releases[r].stages|
      ensures PassBacked(db, next, r, k)
    {
      assert PassBacked(db, mid, r, k);
    }
    forall i | |db.fleet.assignments| <= i < |next.fleet.assignments| ensures Enrolment(db, next, next.fleet.assignments[i]) {
      assert Enrolment(db, mid, mid.fleet.assignments[i]);
    }
    forall r | 0 <= r < |next.releases| && next.releases[r].status == Blocked ensures Dead(next, next.releases[r]) {
      var key: nat :| key < |mid.keys| && SignedBy(mid.releases[r], key) && mid.keys[key] != ActiveKey;
      assert SignedBy(next.releases[r], key);
    }
    assert KeysFade(db, next) by {
      forall r | 0 <= r < |db.releases| && r < |next.releases| && next.releases[r].status == Blocked && db.releases[r].status != Blocked
        ensures Dead(next, next.releases[r])
      {
      }
    }
  }

  lemma AskFirstFine(db: Database, r: nat, action: ReleaseAction, actor: nat, lapsed: set<nat>)
    requires Sound(db) && Known(db, r) && ControlOf(action).Some?
    ensures Fine(db, AskFirst(db, r, action, actor, lapsed))
  {
    var row := db.releases[r];
    var next := AskFirst(db, r, action, actor, lapsed);
    H.RunKeeps(db.fleet, []);
    if next.releases == db.releases {
      Aside(db, next);
    } else {
      MoveFine(db, next, r, AwaitingApproval);
    }
  }

  /** An action that got past every refusal. */
  lemma ExecutedFine(db: Database, r: nat, action: ReleaseAction, actor: nat)
    requires Sound(db) && Known(db, r) && action in ROUTED && Transition(db.releases[r].status, action).Some?
    ensures Fine(db, Record(Perform(db, r, action, actor), r, action, db.releases[r].version))
  {
    if action == Start {
      StartFine(db, r, db.releases[r].version, actor);
    } else {
      EffectsFine(db, r, action, actor);
    }
    FineAside(db, Perform(db, r, action, actor), Record(Perform(db, r, action, actor), r, action, db.releases[r].version));
  }

  lemma ActFine(db: Database, r: nat, action: ReleaseAction, actor: nat, expected: int, lapsed: set<nat>)
    requires Sound(db)
    ensures Fine(db, Act(db, r, action, actor, expected, lapsed))
  {
    if !Admitted(db, r, action, expected) {
      ActIgnored(db, r, action, actor, expected, lapsed);
      Unchanged(db);
    } else if MustAsk(db, r, action, lapsed) {
      ActAsks(db, r, action, actor, expected, lapsed);
      AskFirstFine(db, r, action, actor, lapsed);
    } else if Refused(db, db.releases[r], r, action) {
      ActIgnored(db, r, action, actor, expected, lapsed);
      Unchanged(db);
    } else {
      ActExecutes(db, r, action, actor, expected, lapsed);
      ExecutedFine(db, r, action, actor);
    }
  }

  // ---- approval decisions ----

  lemma DecisionEdge(row: Release, control: Control, n: nat)
    requires WellFormed(row, n) && Transition(row.status, ActionOf(control)).Some?
    ensures Edge(row.status, Outcome(control)) && row.status != Draft && (Outcome(control) == Running ==> row.status == Paused)
  {
  }

  lemma ControlQuiet(db: Database, r: nat, control: Control)
    requires H.Consistent(db.fleet) && Known(db, r)
    ensures var next := Effects(db, r, control); next == db.(fleet := next.fleet) && Quieted(db.fleet, next.fleet)
  {
    if control == AbortControl {
      WithdrawQuiet(db.fleet, r);
    } else if control == RollbackControl && db.releases[r].rollback.Some? {
      RetargetQuiet(db.fleet, r, db.releases[r].rollback.value, RETARGETABLE, true);
    } else {
      IdleQuiet(db.fleet);
    }
  }

  /** A decision that moves its release changes nothing else but approvals, the fleet and the changes. */
  lemma DecisionQuiet(db: Database, a: nat, actor: nat, approve: bool, lapsed: set<nat>)
    requires H.Consistent(db.fleet) && Decidable(db, a, actor, approve, lapsed)
    requires approve || db.approvals[a].action == StartControl
    ensures var (next, r) := (Decide(db, a, actor, approve, lapsed), db.approvals[a].release);
      && next == db.(releases := db.releases[r := Move(db.releases[r], Outcome(db.approvals[a].action))], approvals := next.approvals,
                     fleet := next.fleet, changes := next.changes)
      && Quieted(db.fleet, next.fleet)
  {
    var r, control, next := db.approvals[a].release, db.approvals[a].action, Decide(db, a, actor, approve, lapsed);
    if control == StartControl {
      IdleQuiet(db.fleet);
    } else {
      ControlQuiet(SetRelease(db.(approvals := next.approvals), r, Move(db.releases[r], Outcome(control))), r, control);
    }
  }

  lemma DecideFine(db: Database, a: nat, actor: nat, approve: bool, lapsed: set<nat>)
    requires Sound(db)
    ensures Fine(db, Decide(db, a, actor, approve, lapsed))
  {
    var next := Decide(db, a, actor, approve, lapsed);
    if !Decidable(db, a, actor, approve, lapsed) {
      Unchanged(db);
    } else if approve || db.approvals[a].action == StartControl {
      var r, control := db.approvals[a].release, db.approvals[a].action;
      assert WellFormed(db.releases[r], |db.fleet.devices|);
      DecisionEdge(db.releases[r], control, |db.fleet.devices|);
      DecisionQuiet(db, a, actor, approve, lapsed);
      MoveFine(db, next, r, Outcome(control));
    } else {
      Aside(db, next);
    }
  }

  // ---- gates ----

  /** What a gate snapshot still knows once its commit finds the version unchanged. */
  ghost predicate Current(db: Database, job: GateJob) {
    job.Finished? ||
      (&& Known(db, job.release) && job.version <= db.releases[job.release].version
       && (job.version == db.releases[job.release].version ==>
             && db.releases[job.release].status == Running && job.stage == db.releases[job.release].current
             && (job.Measured? ==>
                   && job.decision == G.Evaluate(job.metrics, Thresholds(db.releases[job.release]))
                   && job.metrics.exposed == CountExposed(db.fleet.assignments, job.release, job.stage))))
  }

  ghost predicate GatesCurrent(db: Database) {
    forall g :: 0 <= g < |db.gates| ==> Current(db, db.gates[g])
  }

  /** The row after a passing gate with a stage to come: that stage is at the door. */
  lemma JudgedAtDoor(db: Database, r: nat, metrics: G.Metrics)
    requires Known(db, r) && db.releases[r].status == Running && OnCourse(db.releases[r])
    ensures var (row, next) := (db.releases[r], Judged(db, r, db.releases[r].current, metrics, G.Pass));
      && AtDoorOrDone(next.releases[r], row.current) && HasNext(row, row.current) == (row.current < |row.stages|)
      && next.releases[r] == row.(stages := row.stages[row.current - 1 := row.stages[row.current - 1].(status := Passed)])
      && Percents(next.releases[r]) == Percents(row)
  {
  }

  ghost predicate AtDoorOrDone(row: Release, completed: nat) {
    completed == row.current <= |row.stages|
    && (forall k :: 0 <= k < completed ==> row.stages[k].status == Passed)
    && (forall k :: completed <= k < |row.stages| ==> row.stages[k].status == Pending)
  }

  lemma {:induction false} PassRecorded(db: Database, next: Database, r: nat, metrics: G.Metrics)
    requires Known(db, r) && Known(next, r) && OnCourse(db.releases[r])
    requires next.evaluations == db.evaluations + [Evaluation(r, db.releases[r].current, G.Pass, metrics, true)]
    requires G.Evaluate(metrics, Thresholds(db.releases[r])) == G.Pass && next.releases[r].policy == db.releases[r].policy
    requires metrics.exposed == CountExposed(db.fleet.assignments, r, db.releases[r].current)
    requires forall k :: 0 <= k < |db.releases[r].stages| && k < |next.releases[r].stages| && k != db.releases[r].current - 1 ==>
      next.releases[r].stages[k].status != Passed || db.releases[r].stages[k].status == Passed
    ensures forall k: nat :: k < |db.releases[r].stages| && k < |next.releases[r].stages| ==> PassBacked(db, next, r, k)
  {
    var row := db.releases[r];
    G.PassExactly(metrics, Thresholds(row));
    assert Backing(next.evaluations[|db.evaluations|], r, next.releases[r], row.current, CountExposed(db.fleet.assignments, r, row.current));
  }

  /** The row across a passing gate that opens the next stage. */
  lemma AdvanceRow(row: Release, judged: Release, b: Release, n: nat)
    requires WellFormed(row, n) && row.status == Running && row.current < |row.stages|
    requires judged == row.(stages := row.stages[row.current - 1 := row.stages[row.current - 1].(status := Passed)])
    requires Percents(judged) == Percents(row)
    requires b == judged.(stages := b.stages, current := row.current + 1, version := row.version + 1)
    requires OnCourse(b) && Percents(b) == Percents(judged)
    requires forall k :: 0 <= k < |row.stages| ==> k != row.current ==> b.stages[k] == judged.stages[k]
    ensures Moved(row, b) && WellFormed(b, n) && b != row && b.status == Running
    ensures row.stages[row.current].status == Pending && b.stages[row.current].status == Active
    ensures forall k :: 0 <= k < |row.stages| && k != row.current - 1 ==> b.stages[k].status != Passed || row.stages[k].status == Passed
  {
  }

  /** What a promotion changes. */
  ghost predicate Promoted(db: Database, next: Database, r: nat, metrics: G.Metrics) {
    && Known(db, r) && Known(next, r)
    && (var (a, b) := (db.releases[r], next.releases[r]);
        && next.releases == db.releases[r := b] && next.keys == db.keys && next.catalog == db.catalog
        && OnCourse(a) && a.current < |a.stages| == |b.stages| && Moved(a, b) && b != a && b.status == Running
        && a.stages[a.current].status == Pending && b.stages[a.current].status == Active && b.current == a.current + 1
        && (forall k :: 0 <= k < |a.stages| && k != a.current - 1 ==> b.stages[k].status != Passed || a.stages[k].status == Passed)
        && next.evaluations == db.evaluations + [Evaluation(r, a.current, G.Pass, metrics, true)]
        && Opens(db.fleet, next.fleet, r, b, a.current + 1))
  }

  /** The database across a passing gate, in terms of the two rows. */
  lemma AdvanceWrites(db: Database, r: nat, metrics: G.Metrics)
    requires Known(db, r) && db.releases[r].status == Running && OnCourse(db.releases[r])
    requires HasNext(db.releases[r], db.releases[r].current)
    ensures var row := db.releases[r];
      var judged := Judged(db, r, row.current, metrics, G.Pass);
      && judged.releases[r] == row.(stages := row.stages[row.current - 1 := row.stages[row.current - 1].(status := Passed)])
      && Percents(judged.releases[r]) == Percents(row)
      && var carried := Activate(judged, r, row.current);
      && carried.Some? && Known(carried.value, r)
      && var (next, b) := (carried.value, carried.value.releases[r]);
      && next == judged.(releases := judged.releases[r := b], fleet := next.fleet)
      && b == judged.releases[r].(stages := b.stages, current := row.current + 1, version := row.version + 1)
      && OnCourse(b) && Percents(b) == Percents(row)
      && (forall k :: 0 <= k < |row.stages| ==> k != row.current ==> b.stages[k] == judged.releases[r].stages[k])
      && Opens(db.fleet, next.fleet, r, b, row.current + 1)
  {
    JudgedAtDoor(db, r, metrics);
    ActivateOpens(Judged(db, r, db.releases[r].current, metrics, G.Pass), r, db.releases[r].current);
  }

  lemma AdvancePromotes(db: Database, r: nat, metrics: G.Metrics)
    requires Known(db, r) && WellFormed(db.releases[r], |db.fleet.devices|)
    requires db.releases[r].status == Running && HasNext(db.releases[r], db.releases[r].current)
    ensures var carried := Activate(Judged(db, r, db.releases[r].current, metrics, G.Pass), r, db.releases[r].current);
      carried.Some? && Promoted(db, carried.value, r, metrics) && WellFormed(carried.value.releases[r], |db.fleet.devices|)
  {
    var row := db.releases[r];
    AdvanceWrites(db, r, metrics);
    var judged := Judged(db, r, row.current, metrics, G.Pass);
    var next := Activate(judged, r, row.current).value;
    AdvanceRow(row, judged.releases[r], next.releases[r], |db.fleet.devices|);
    assert next.releases == db.releases[r := next.releases[r]];
  }

  lemma {:induction false} PromotedFine(db: Database, next: Database, r: nat, metrics: G.Metrics)
    requires Sound(db) && Promoted(db, next, r, metrics) && WellFormed(next.releases[r], |db.fleet.devices|)
    requires G.Evaluate(metrics, Thresholds(db.releases[r])) == G.Pass
    requires metrics.exposed == CountExposed(db.fleet.assignments, r, db.releases[r].current)
    ensures Fine(db, next)
  {
    var stage, b := db.releases[r].current + 1, next.releases[r];
    var members :| WaveIs(db.fleet, next.fleet, r, b, stage, members);
    PassRecorded(db, next, r, metrics);
    OpenWave(db, next, r, b, stage, members);
  }

  lemma {:induction false} AdvanceFine(db: Database, r: nat, metrics: G.Metrics)
    requires Sound(db) && Known(db, r) && db.releases[r].status == Running && HasNext(db.releases[r], db.releases[r].current)
    requires G.Evaluate(metrics, Thresholds(db.releases[r])) == G.Pass
    requires metrics.exposed == CountExposed(db.fleet.assignments, r, db.releases[r].current)
    ensures var carried := Activate(Judged(db, r, db.releases[r].current, metrics, G.Pass), r, db.releases[r].current);
      carried.Some? && Fine(db, carried.value) && carried.value.releases[r].status == Running
  {
    AdvancePromotes(db, r, metrics);
    PromotedFine(db, Activate(Judged(db, r, db.releases[r].current, metrics, G.Pass), r, db.releases[r].current).value, r, metrics);
  }

  lemma {:induction false} CompleteFine(db: Database, r: nat, metrics: G.Metrics)
    requires Sound(db) && Known(db, r) && db.releases[r].status == Running && !HasNext(db.releases[r], db.releases[r].current)
    requires G.Evaluate(metrics, Thresholds(db.releases[r])) == G.Pass
    requires metrics.exposed == CountExposed(db.fleet.assignments, r, db.releases[r].current)
    ensures var judged := Judged(db, r, db.releases[r].current, metrics, G.Pass);
      Fine(db, SetRelease(judged, r, Move(judged.releases[r], Completed)))
  {
    var row := db.releases[r];
    assert WellFormed(row, |db.fleet.devices|);
    var judged := Judged(db, r, row.current, metrics, G.Pass);
    JudgedAtDoor(db, r, metrics);
    var next := SetRelease(judged, r, Move(judged.releases[r], Completed));
    PassRecorded(db, next, r, metrics);
    OneRowPassing(db, next, r);
  }

  /** As OneRow, for a step that passes a stage and says why. */
  lemma OneRowPassing(before: Database, next: Database, r: nat)
    requires Sound(before) && Known(before, r) && Known(next, r) && next.releases == before.releases[r := next.releases[r]]
    requires Moved(before.releases[r], next.releases[r]) && WellFormed(next.releases[r], |before.fleet.devices|)
    requires forall k: nat :: k < |before.releases[r].stages| && k < |next.releases[r].stages| ==> PassBacked(before, next, r, k)
    requires next.releases[r].status != Blocked && before.evaluations <= next.evaluations
    requires next.keys == before.keys && next.catalog == before.catalog && next.fleet == before.fleet
    ensures Fine(before, next)
  {
    H.RunKeeps(before.fleet, []);
    RowReplaced(before, next, r);
    OnlyRowPasses(before, next, r);
  }

  /** A verdict other than pass moves the release without passing a stage. */
  lemma HoldFine(db: Database, next: Database, r: nat, metrics: G.Metrics, decision: G.Decision)
    requires Sound(db) && Known(db, r) && Known(next, r) && db.releases[r].status == Running && OnCourse(db.releases[r])
    requires decision in {G.Pause, G.Rollback}
    requires var judged := Judged(db, r, db.releases[r].current, metrics, decision);
      && next.releases == judged.releases[r := judged.releases[r].(
           status := next.releases[r].status, version := next.releases[r].version)]
      && next.releases[r].version > db.releases[r].version
      && next.releases[r].status in (if decision == G.Pause then {Paused} else {RollingBack, RolledBack})
      && next.evaluations == judged.evaluations && next.keys == db.keys && next.catalog == db.catalog
    requires H.Consistent(next.fleet) && H.Advanced(db.fleet, next.fleet) && SameSize(db.fleet, next.fleet)
    ensures Fine(db, next)
  {
    var row := db.releases[r];
    assert WellFormed(row, |db.fleet.devices|);
    HeldRow(row, next.releases[r], decision, |db.fleet.devices|);
    OneRow(db, next, r, next.releases[r]);
  }

  lemma HeldRow(row: Release, b: Release, decision: G.Decision, n: nat)
    requires WellFormed(row, n) && row.status == Running && decision in {G.Pause, G.Rollback} && b.version > row.version
    requires b.status in (if decision == G.Pause then {Paused} else {RollingBack, RolledBack})
    requires b == row.(stages := row.stages[row.current - 1 := Verdict(row.stages[row.current - 1], decision)],
                       status := b.status, version := b.version)
    ensures Moved(row, b) && WellFormed(b, n)
    ensures forall k :: 0 <= k < |row.stages| ==> b.stages[k].status == Passed ==> row.stages[k].status == Passed
  {
    assert Percents(b) == Percents(row);
  }

  /** The stored failure codes never include the one that would fail a rollback. */
  lemma RollbackNeverBroke(f: F.Fleet, r: nat)
    requires H.Consistent(f)
    ensures !RollbackBroke(f.assignments, r)
  {
  }

  lemma RollbackCarried(db: Database, r: nat, stage: nat, hasNext: bool, bytesMatch: bool)
    requires H.Consistent(db.fleet) && Known(db, r)
    ensures var carried := CarryOut(db, r, stage, G.Rollback, hasNext, bytesMatch);
      carried.Some? ==>
        && carried.value == SetRelease(db, r, Move(db.releases[r], RollingBack)).(fleet := carried.value.fleet)
        && Quieted(db.fleet, carried.value.fleet)
  {
    var row := db.releases[r];
    if row.rollback.Some? {
      RetargetQuiet(db.fleet, r, row.rollback.value, RETARGETABLE, false);
    }
  }

  lemma RollbackFine(db: Database, r: nat, metrics: G.Metrics, hasNext: bool, bytesMatch: bool)
    requires Sound(db) && Known(db, r) && db.releases[r].status == Running && OnCourse(db.releases[r])
    ensures var carried := CarryOut(Judged(db, r, db.releases[r].current, metrics, G.Rollback), r, db.releases[r].current,
                                    G.Rollback, hasNext, bytesMatch);
      carried.Some? ==> Fine(db, Settle(carried.value, r))
  {
    var judged := Judged(db, r, db.releases[r].current, metrics, G.Rollback);
    RollbackCarried(judged, r, db.releases[r].current, hasNext, bytesMatch);
    var carried := CarryOut(judged, r, db.releases[r].current, G.Rollback, hasNext, bytesMatch);
    if carried.Some? {
      SettledRollback(carried.value, r);
      HoldFine(db, Settle(carried.value, r), r, metrics, G.Rollback);
    }
  }

  /** Settling a release that is rolling back at most marks it rolled back. */
  lemma SettledRollback(db: Database, r: nat)
    requires H.Consistent(db.fleet) && Known(db, r) && db.releases[r].status == RollingBack
    ensures var (row, next) := (db.releases[r], Settle(db, r));
      && next == db.(releases := db.releases[r := row.(status := next.releases[r].status, version := next.releases[r].version)])
      && next.releases[r].status in {RollingBack, RolledBack} && next.releases[r].version >= row.version
  {
    RollbackNeverBroke(db.fleet, r);
    assert db.releases[r := db.releases[r]] == db.releases;
  }

  lemma PauseFine(db: Database, r: nat, metrics: G.Metrics)
    requires Sound(db) && Known(db, r) && db.releases[r].status == Running && OnCourse(db.releases[r])
    ensures var judged := Judged(db, r, db.releases[r].current, metrics, G.Pause);
      Fine(db, SetRelease(judged, r, Move(judged.releases[r], Paused)))
  {
    var judged := Judged(db, r, db.releases[r].current, metrics, G.Pause);
    H.RunKeeps(db.fleet, []);
    HoldFine(db, SetRelease(judged, r, Move(judged.releases[r], Paused)), r, metrics, G.Pause);
  }

  lemma InsufficientFine(db: Database, r: nat, metrics: G.Metrics)
    requires Sound(db) && Known(db, r) && db.releases[r].status == Running && OnCourse(db.releases[r])
    ensures Fine(db, Judged(db, r, db.releases[r].current, metrics, G.InsufficientEvidence))
  {
    var judged := Judged(db, r, db.releases[r].current, metrics, G.InsufficientEvidence);
    var row := db.releases[r];
    assert row.stages[row.current - 1 := row.stages[row.current - 1]] == row.stages;
    assert judged.releases == db.releases;
    Aside(db, judged);
  }

  /** However a decision on the current stage is carried out and settled, it is fine. */
  ghost predicate CarriedFine(db: Database, r: nat, metrics: G.Metrics, decision: G.Decision, bytesMatch: bool)
    requires Known(db, r) && 1 <= db.releases[r].current <= |db.releases[r].stages|
  {
    var row := db.releases[r];
    var carried := CarryOut(Judged(db, r, row.current, metrics, decision), r, row.current, decision, HasNext(row, row.current), bytesMatch);
    carried.Some? ==> Fine(db, Settle(carried.value, r))
  }

  lemma SettleIdle(db: Database, r: nat)
    requires Known(db, r) && db.releases[r].status !in {Aborting, RollingBack}
    ensures Settle(db, r) == db
  {
  }

  lemma {:induction false} PassCarried(db: Database, r: nat, metrics: G.Metrics, bytesMatch: bool)
    requires Sound(db) && Known(db, r) && db.releases[r].status == Running && OnCourse(db.releases[r])
    requires G.Evaluate(metrics, Thresholds(db.releases[r])) == G.Pass
    requires metrics.exposed == CountExposed(db.fleet.assignments, r, db.releases[r].current)
    ensures CarriedFine(db, r, metrics, G.Pass, bytesMatch)
  {
    var row := db.releases[r];
    var judged := Judged(db, r, row.current, metrics, G.Pass);
    if HasNext(row, row.current) {
      AdvanceFine(db, r, metrics);
      SettleIdle(Activate(judged, r, row.current).value, r);
    } else {
      CompleteFine(db, r, metrics);
      SettleIdle(SetRelease(judged, r, Move(judged.releases[r], Completed)), r);
    }
  }

  lemma PauseCarried(db: Database, r: nat, metrics: G.Metrics, bytesMatch: bool)
    requires Sound(db) && Known(db, r) && db.releases[r].status == Running && OnCourse(db.releases[r])
    ensures CarriedFine(db, r, metrics, G.Pause, bytesMatch)
  {
    var judged := Judged(db, r, db.releases[r].current, metrics, G.Pause);
    PauseFine(db, r, metrics);
    SettleIdle(SetRelease(judged, r, Move(judged.releases[r], Paused)), r);
  }

  lemma InsufficientCarried(db: Database, r: nat, metrics: G.Metrics, bytesMatch: bool)
    requires Sound(db) && Known(db, r) && db.releases[r].status == Running && OnCourse(db.releases[r])
    ensures CarriedFine(db, r, metrics, G.InsufficientEvidence, bytesMatch)
  {
    InsufficientFine(db, r, metrics);
    SettleIdle(Judged(db, r, db.releases[r].current, metrics, G.InsufficientEvidence), r);
  }

  lemma {:induction false} CarryOutFine(db: Database, r: nat, metrics: G.Metrics, decision: G.Decision, bytesMatch: bool)
    requires Sound(db) && Known(db, r) && db.releases[r].status == Running && OnCourse(db.releases[r])
    requires decision == G.Evaluate(metrics, Thresholds(db.releases[r]))
    requires metrics.exposed == CountExposed(db.fleet.assignments, r, db.releases[r].current)
    ensures CarriedFine(db, r, metrics, decision, bytesMatch)
  {
    match decision
    case Pass => PassCarried(db, r, metrics, bytesMatch);
    case Rollback => RollbackFine(db, r, metrics, HasNext(db.releases[r], db.releases[r].current), bytesMatch);
    case Pause => PauseCarried(db, r, metrics, bytesMatch);
    case InsufficientEvidence => InsufficientCarried(db, r, metrics, bytesMatch);
    case Abort => NeverAborts(metrics, Thresholds(db.releases[r]));
  }

  lemma NeverAborts(metrics: G.Metrics, t: G.Thresholds)
    ensures G.Evaluate(metrics, t) != G.Abort
  {
  }

  /** A commit that changes anything found its snapshot still current. */
  lemma CommitIsCarried(db: Database, g: nat, bytesMatch: bool)
    requires GatesCurrent(db) && CommitGate(db, g, bytesMatch) != db
    ensures g < |db.gates| && db.gates[g].Measured? && Known(db, db.gates[g].release)
    ensures var (job, row) := (db.gates[g], db.releases[db.gates[g].release]);
      && 1 <= job.stage <= |row.stages| && job.stage == row.current && row.status == Running
      && job.decision == G.Evaluate(job.metrics, Thresholds(row))
      && job.metrics.exposed == CountExposed(db.fleet.assignments, job.release, job.stage)
      && var carried := CarryOut(Judged(db, job.release, job.stage, job.metrics, job.decision), job.release, job.stage,
                                 job.decision, HasNext(row, job.stage), bytesMatch);
      && carried.Some? && CommitGate(db, g, bytesMatch) == Settle(carried.value, job.release).(gates := db.gates[g := Finished])
  {
    assert Current(db, db.gates[g]);
  }

  lemma CommitGateFine(db: Database, g: nat, bytesMatch: bool)
    requires Sound(db) && GatesCurrent(db)
    ensures Fine(db, CommitGate(db, g, bytesMatch))
  {
    var next := CommitGate(db, g, bytesMatch);
    if next == db {
      Unchanged(db);
    } else {
      CommitIsCarried(db, g, bytesMatch);
      var job := db.gates[g];
      var row := db.releases[job.release];
      assert OnCourse(row) by { assert WellFormed(row, |db.fleet.devices|); }
      CarryOutFine(db, job.release, job.metrics, job.decision, bytesMatch);
      var carried := CarryOut(Judged(db, job.release, job.stage, job.metrics, job.decision), job.release, job.stage,
                              job.decision, HasNext(row, job.stage), bytesMatch);
      FineAside(db, Settle(carried.value, job.release), next);
    }
  }

  // ---- scheduled starts ----

  /** A start snapshot whose version still stands found the release scheduled, and a two-person
      release is never authorised: its approval was used up when it was scheduled. */
  ghost predicate StartCurrent(db: Database, job: StartJob) {
    job.StartDone? ||
      (&& Known(db, job.release) && job.version <= db.releases[job.release].version
       && (job.version == db.releases[job.release].version ==> db.releases[job.release].status == Scheduled)
       && (db.releases[job.release].policy.twoPerson ==> !job.authorised))
  }

  ghost predicate StartsCurrent(db: Database) {
    forall s :: 0 <= s < |db.starts| ==> StartCurrent(db, db.starts[s])
  }

  lemma ScheduledRow(a: Release, b: Release, n: nat)
    requires WellFormed(a, n) && a.status == Scheduled
    requires OnCourse(b) && Percents(b) == Percents(a) && b.status == Running && b.current == 1
    requires b == Move(a, Running).(stages := b.stages, version := b.version) && b.version > a.version
    requires forall k :: 0 < k < |a.stages| ==> b.stages[k] == a.stages[k]
    ensures Moved(a, b) && WellFormed(b, n)
    ensures a.stages[0].status == Pending && b.stages[0].status == Active
    ensures forall k :: 0 <= k < |a.stages| ==> b.stages[k].status != Passed
  {
  }

  /** The activator on a release just moved to running with its cursor at zero. */
  lemma StartedOpens(db: Database, r: nat, started: Release)
    requires Known(db, r) && started == Move(db.releases[r], Running).(current := 0) && AtDoor(started, 0)
    ensures var result := Activate(SetRelease(db, r, started), r, 0);
      && result.Some? && Known(result.value, r)
      && var (next, b) := (result.value, result.value.releases[r]);
      && next == db.(releases := db.releases[r := b], fleet := next.fleet)
      && b == started.(stages := b.stages, current := 1, version := started.version + 1)
      && OnCourse(b) && Percents(b) == Percents(started)
      && (forall k :: 0 <= k < |started.stages| ==> k != 0 ==> b.stages[k] == started.stages[k])
      && Opens(db.fleet, next.fleet, r, b, 1)
  {
    ActivateOpens(SetRelease(db, r, started), r, 0);
  }

  lemma ScheduledActivates(db: Database, r: nat)
    requires Sound(db) && Known(db, r) && db.releases[r].status == Scheduled
    ensures var result := Activate(SetRelease(db, r, Move(db.releases[r], Running).(current := 0)), r, 0);
      result.Some? && Fine(db, result.value)
  {
    var a := db.releases[r];
    assert WellFormed(a, |db.fleet.devices|);
    var started := Move(a, Running).(current := 0);
    StartedOpens(db, r, started);
    var next := Activate(SetRelease(db, r, started), r, 0).value;
    var b := next.releases[r];
    assert Percents(started) == Percents(a);
    ScheduledRow(a, b, |db.fleet.devices|);
    ScheduledOpens(db, next, r, b);
  }

  lemma ScheduledOpens(db: Database, next: Database, r: nat, b: Release)
    requires Sound(db) && Known(db, r) && next == db.(releases := db.releases[r := b], fleet := next.fleet)
    requires var a := db.releases[r];
      && a.stages != [] && Moved(a, b) && b != a && |b.stages| == |a.stages| && b.current == 1
      && a.stages[0].status == Pending && b.stages[0].status != Pending
      && forall k :: 0 <= k < |a.stages| ==> b.stages[k].status != Passed
    requires WellFormed(b, |db.fleet.devices|) && b.status == Running && Opens(db.fleet, next.fleet, r, b, 1)
    ensures Fine(db, next)
  {
    var members :| WaveIs(db.fleet, next.fleet, r, b, 1, members);
    OpenWave(db, next, r, b, 1, members);
  }

  lemma CommitStartFine(db: Database, s: nat)
    requires Sound(db) && StartsCurrent(db)
    ensures Fine(db, CommitStart(db, s))
  {
    var next := CommitStart(db, s);
    Unchanged(db);
    if next != db {
      var job := db.starts[s];
      assert StartCurrent(db, job);
      ScheduledActivates(db, job.release);
      FineAside(db, Activate(SetRelease(db, job.release, Move(db.releases[job.release], Running).(current := 0)), job.release, 0).value, next);
    }
  }

  // ---- reports and maintenance ----

  lemma SettleFine(db: Database, mid: Database, r: nat)
    requires Sound(db) && Known(db, r) && mid == db.(fleet := mid.fleet)
    requires H.Consistent(mid.fleet) && H.Advanced(db.fleet, mid.fleet) && SameSize(db.fleet, mid.fleet)
    ensures Fine(db, Settle(mid, r))
  {
    var next := Settle(mid, r);
    RollbackNeverBroke(mid.fleet, r);
    if next.releases == db.releases {
      Still(db, next);
    } else {
      MoveFine(db, next, r, next.releases[r].status);
    }
  }

  lemma TakeReportFine(db: Database, report: F.Report)
    requires Sound(db)
    ensures Fine(db, TakeReport(db, report))
  {
    var next := TakeReport(db, report);
    Unchanged(db);
    var ops := [H.DoReceive(report)];
    QuietRun(db.fleet, ops);
    var mid := db.(fleet := H.Run(db.fleet, ops));
    var subject := Subject(db, report);
    if subject.Some? && Known(mid, subject.value) {
      SettleFine(db, mid, subject.value);
    }
    Still(db, mid);
  }

  // ---- every step ----

  lemma GateCommitFine(db: Database, g: nat, bytesMatch: bool)
    requires Sound(db) && GatesCurrent(db)
    ensures Fine(db, Next(db, GateCommit(g, bytesMatch)))
  {
    NextCommitsGate(db, g, bytesMatch);
    CommitGateFine(db, g, bytesMatch);
  }

  lemma StartCommitFine(db: Database, s: nat)
    requires Sound(db) && StartsCurrent(db)
    ensures Fine(db, Next(db, StartCommit(s)))
  {
    NextCommitsStart(db, s);
    CommitStartFine(db, s);
  }

  lemma OperateFine(db: Database, r: nat, action: ReleaseAction, actor: nat, expected: int, lapsed: set<nat>)
    requires Sound(db)
    ensures Fine(db, Next(db, Operate(r, action, actor, expected, lapsed)))
  {
    NextOperates(db, r, action, actor, expected, lapsed);
    ActFine(db, r, action, actor, expected, lapsed);
  }

  lemma DecisionFine(db: Database, a: nat, actor: nat, approve: bool, lapsed: set<nat>)
    requires Sound(db)
    ensures Fine(db, Next(db, DecideApproval(a, actor, approve, lapsed)))
  {
    NextDecides(db, a, actor, approve, lapsed);
    DecideFine(db, a, actor, approve, lapsed);
  }

  lemma ReportFine(db: Database, report: F.Report)
    requires Sound(db)
    ensures Fine(db, Next(db, DeliverReport(report)))
  {
    NextReports(db, report);
    TakeReportFine(db, report);
  }

  lemma StepFine(db: Database, step: Step)
    requires Sound(db) && GatesCurrent(db) && StartsCurrent(db)
    ensures Fine(db, Next(db, step))
  {
    if step.GateCommit? {
      GateCommitFine(db, step.gate, step.bytesMatch);
    } else if step.StartCommit? {
      StartCommitFine(db, step.job);
    } else if step.Operate? {
      OperateFine(db, step.release, step.action, step.actor, step.expected, step.lapsed);
    } else if step.DecideApproval? {
      DecisionFine(db, step.approval, step.actor, step.approve, step.lapsed);
    } else if step.DeliverReport? {
      ReportFine(db, step.report);
    } else {
      PlainFine(db, step);
    }
  }

  lemma PlainFine(db: Database, step: Step)
    requires Sound(db) && !step.GateCommit? && !step.StartCommit? && !step.Operate? && !step.DecideApproval? && !step.DeliverReport?
    ensures Fine(db, Next(db, step))
  {
    if step.EditDraft? || step.CompromiseKey? || step.ValidateRelease? {
      ReleaseFine(db, step);
    } else if step.AddDevice? || step.SetLifecycle? || step.CreateRelease? || step.ExpireDueCommands? {
      TablesFine(db, step);
    } else {
      AsideFine(db, step);
    }
  }

  lemma ReleaseFine(db: Database, step: Step)
    requires Sound(db) && (step.EditDraft? || step.CompromiseKey? || step.ValidateRelease?)
    ensures Fine(db, Next(db, step))
  {
    match step
    case EditDraft(r, v) =>
      assert Next(db, step) == Edit(db, r, v);
      EditFine(db, r, v);
    case CompromiseKey(k) =>
      assert Next(db, step) == Compromise(db, k);
      CompromiseFine(db, k);
    case ValidateRelease(r, v, roster, hmac, name, salt) =>
      assert Next(db, step) == Freeze(db, r, v, roster, hmac, name, salt);
      FreezeFine(db, r, v, roster, hmac, name, salt);
  }

  lemma TablesFine(db: Database, step: Step)
    requires Sound(db) && (step.AddDevice? || step.SetLifecycle? || step.CreateRelease? || step.ExpireDueCommands?)
    ensures Fine(db, Next(db, step))
  {
    match step
    case AddDevice(d, e) =>
      assert Next(db, step) == Enlist(db, d, e);
      AddDeviceFine(db, d, e);
    case SetLifecycle(i, e) => FleetOnly(db, [H.Enlist(i, e)]);
    case CreateRelease(p, t, f) => CreateFine(db, p, t, f);
    case ExpireDueCommands(due) => FleetOnly(db, ExpireOps(db.fleet.commands, due));
  }

  lemma AsideFine(db: Database, step: Step)
    requires Sound(db)
    requires step.AddKey? || step.RetireKey? || step.AdmitArtifact? || step.WithdrawArtifact? || step.RequestOverride?
      || step.EvaluateManually? || step.GateCapture? || step.GateMeasure? || step.StartCapture? || step.ExpireDueApprovals?
    ensures Fine(db, Next(db, step))
  {
    Aside(db, Next(db, step));
  }
}
