/** Exactly what key compromise and the maintenance job change. */
module RolloutUpkeep {
  import opened Wrappers
  import opened ReleaseMachine
  import opened Rollout
  import F = Fleet
  import H = FleetProperties

  // ---- a compromised key ----

  predicate Uses(row: Release, key: nat) {
    row.artifact.key == key || (row.rollback.Some? && row.rollback.value.key == key)
  }

  /** A running release pauses, one frozen and not running is blocked, if target or fallback is signed by the key. */
  predicate Alarmed(a: Release, b: Release, key: nat) {
    if Uses(a, key) && a.status == Running then b == a.(status := Paused, version := a.version + 1)
    else if Uses(a, key) && a.status in {Ready, AwaitingApproval, Scheduled, Paused} then b == a.(status := Blocked, version := a.version + 1)
    else b == a
  }

  /** The key is no longer active, none of its artifacts is ready, and each release takes the alarm. */
  lemma CompromiseExactly(db: Database, key: nat)
    ensures var next := Next(db, CompromiseKey(key));
      if key >= |db.keys| then next == db
      else
        && next == db.(keys := next.keys, ready := next.ready, releases := next.releases)
        && |next.keys| == |db.keys| && (forall k :: 0 <= k < |db.keys| && k != key ==> next.keys[k] == db.keys[k])
        && next.keys[key] == (if db.keys[key] == ActiveKey then CompromisedKey else db.keys[key])
        && (forall a :: a in next.ready <==> a in db.ready && a.key != key)
        && |next.releases| == |db.releases| && forall r :: 0 <= r < |db.releases| ==> Alarmed(db.releases[r], next.releases[r], key)
  {
    assert Next(db, CompromiseKey(key)) == Compromise(db, key);
    forall r | 0 <= r < |db.releases| && key < |db.keys| ensures Alarmed(db.releases[r], Compromise(db, key).releases[r], key) { }
  }

  /** Afterwards nothing signed by the key runs or may be installed. */
  lemma CompromiseStops(db: Database, key: nat, r: nat, a: F.Artifact)
    requires key < |db.keys| && Known(db, r)
    ensures var next := Next(db, CompromiseKey(key));
      && Known(next, r) && (Uses(next.releases[r], key) ==> next.releases[r].status !in {Running, Ready, AwaitingApproval, Scheduled})
      && (a.key == key ==> !Trusted(next, a))
  {
    CompromiseExactly(db, key);
    assert Alarmed(db.releases[r], Next(db, CompromiseKey(key)).releases[r], key);
  }

  // ---- expired commands ----

  /** An expired install command of this row. */
  ghost predicate RanOut(commands: seq<F.Command>, due: set<nat>, i: nat) {
    exists k: nat :: k < |commands| && k in due && commands[k].kind == F.InstallCommand && commands[k].assignment == i
  }

  /** Stranded if it got no further than being told. */
  predicate Stranding(a: F.Assignment, b: F.Assignment, ranOut: bool) {
    if ranOut && (a.state == F.Pending || a.state == F.Commanded) then b == a.(state := F.Stranded, failureCode := "COMMAND_EXPIRED") else b == a
  }

  ghost predicate StrandedBy(f: F.Fleet, g: F.Fleet, commands: seq<F.Command>, due: set<nat>) {
    && g == f.(assignments := g.assignments) && |g.assignments| == |f.assignments|
    && forall i: nat :: i < |f.assignments| ==> Stranding(f.assignments[i], g.assignments[i], RanOut(commands, due, i))
  }

  lemma StrandsNext(f: F.Fleet, g: F.Fleet, commands: seq<F.Command>, due: set<nat>)
    requires commands != [] && StrandedBy(f, g, commands[..|commands| - 1], due)
    ensures var (n, last) := (|commands| - 1, commands[|commands| - 1]);
      StrandedBy(f, if n in due && last.kind == F.InstallCommand then H.Apply(g, H.DoExpire(last.assignment)) else g, commands, due)
  {
    var n, last := |commands| - 1, commands[|commands| - 1];
    var h := if n in due && last.kind == F.InstallCommand then H.Apply(g, H.DoExpire(last.assignment)) else g;
    forall i: nat | i < |f.assignments| ensures Stranding(f.assignments[i], h.assignments[i], RanOut(commands, due, i)) {
      RanOutNext(commands, due, i);
      assert Stranding(f.assignments[i], g.assignments[i], RanOut(commands[..n], due, i));
    }
  }

  lemma RanOutNext(commands: seq<F.Command>, due: set<nat>, i: nat)
    requires commands != []
    ensures var (n, last) := (|commands| - 1, commands[|commands| - 1]);
      RanOut(commands, due, i) <==> RanOut(commands[..n], due, i) || (n in due && last.kind == F.InstallCommand && last.assignment == i)
  {
    var n := |commands| - 1;
    if RanOut(commands[..n], due, i) {
      var k: nat :| k < n && k in due && commands[..n][k].kind == F.InstallCommand && commands[..n][k].assignment == i;
      assert commands[k] == commands[..n][k];
    }
    if RanOut(commands, due, i) {
      var k: nat :| k < |commands| && k in due && commands[k].kind == F.InstallCommand && commands[k].assignment == i;
      if k < n { assert commands[..n][k] == commands[k]; }
    }
  }

  lemma {:induction false} ExpireStrands(f: F.Fleet, commands: seq<F.Command>, due: set<nat>)
    ensures StrandedBy(f, H.Run(f, ExpireOps(commands, due)), commands, due)
  {
    if commands != [] {
      var n := |commands| - 1;
      var before := ExpireOps(commands[..n], due);
      ExpireStrands(f, commands[..n], due);
      StrandsNext(f, H.Run(f, before), commands, due);
      if n in due && commands[n].kind == F.InstallCommand {
        assert ExpireOps(commands, due)[..|before|] == before;
      }
    }
  }

  /** A row is stranded exactly when an install command of it has expired and it is pending or commanded. */
  lemma ExpireCommandsExactly(db: Database, due: set<nat>)
    ensures var next := Next(db, ExpireDueCommands(due));
      next == db.(fleet := next.fleet) && StrandedBy(db.fleet, next.fleet, db.fleet.commands, due)
  {
    assert Next(db, ExpireDueCommands(due)) == Rollout.ExpireCommands(db, due);
    ExpireStrands(db.fleet, db.fleet.commands, due);
  }

  // ---- lapsed requests ----

  predicate Outdated(db: Database, a: Approval) { a.release < |db.releases| && db.releases[a.release].version != a.captured }

  /** A request that has lapsed expires, one bound to another version than its release's is superseded. */
  lemma ExpireApprovalsExactly(db: Database, lapsed: set<nat>)
    ensures var next := Next(db, ExpireDueApprovals(lapsed));
      && next == db.(approvals := next.approvals) && |next.approvals| == |db.approvals|
      && forall i: nat :: i < |db.approvals| ==>
           var (a, b) := (db.approvals[i], next.approvals[i]);
           && b == a.(status := b.status)
           && (b.status == Expired <==> a.status == Expired || (a.status == Requested && i in lapsed))
           && (b.status == Superseded <==> a.status == Superseded || (a.status == Requested && i !in lapsed && Outdated(db, a)))
           && (b.status !in {Expired, Superseded} ==> b.status == a.status)
  {
    assert Next(db, ExpireDueApprovals(lapsed)) == ExpireApprovals(db, lapsed);
  }
}
