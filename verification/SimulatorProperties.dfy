/** Order, conservation and exactness of simulations, for every scenario and every oracle. */
module SimulatorProperties {
  import opened Wrappers
  import opened Ordering
  import opened Simulator

  // ---- the trace ----

  lemma NumberedUnlike(slots: seq<Slot>)
    ensures Unlike(Numbered(slots)) && Distinct(Numbered(slots))
  {
  }

  lemma {:induction false} TraceFacts(s: Scenario, o: Oracle)
    requires Valid(s)
    ensures var trace := Outcome(s, o).trace;
      && Ascending(Before, trace) && |trace| == |Slots(s, o, s.devices)|
      && multiset(trace) == multiset(Numbered(Slots(s, o, s.devices)))
  {
    var events := Numbered(Slots(s, o, s.devices));
    NumberedUnlike(Slots(s, o, s.devices));
    var dom := set e | e in events;
    BeforeLinear(dom);
    SortAscends(Before, events, dom);
    SortKeeps(Before, events);
  }

  ghost predicate InRange(s: Scenario, slots: seq<Slot>) {
    forall k :: 0 <= k < |slots| ==> 0 <= slots[k].at <= s.duration
  }

  lemma OutagesInRange(s: Scenario, o: Oracle)
    requires Valid(s)
    ensures InRange(s, OutageSlots(s, o))
  {
  }

  /** An event of device i that is not its install start and not before it. */
  predicate Follows(s: Scenario, i: nat, from: int, x: Slot) {
    x.device == Some(i) && from <= x.at <= s.duration && x.priority > 10 && x.kind != InstallStarted
  }

  ghost predicate AllFollow(s: Scenario, i: nat, from: int, slots: seq<Slot>) {
    forall k :: 0 <= k < |slots| ==> Follows(s, i, from, slots[k])
  }

  lemma AftermathFollows(s: Scenario, i: nat, d: Draw)
    requires Valid(s)
    ensures AllFollow(s, i, InstallAt(s, d), Aftermath(s, i, d))
  {
    forall x | x in Aftermath(s, i, d) ensures Follows(s, i, InstallAt(s, d), x) {
    }
  }

  lemma DeviceInRange(s: Scenario, i: nat, d: Draw)
    requires Valid(s)
    ensures InRange(s, DeviceSlots(s, i, d))
  {
    AftermathFollows(s, i, d);
  }

  lemma {:induction false} AllInRange(s: Scenario, o: Oracle, n: nat)
    requires Valid(s)
    ensures InRange(s, Slots(s, o, n))
  {
    if n == 0 {
      OutagesInRange(s, o);
    } else {
      AllInRange(s, o, n - 1);
      DeviceInRange(s, n - 1, o.device(n - 1));
      RangeBoth(s, Slots(s, o, n - 1), DeviceSlots(s, n - 1, o.device(n - 1)));
    }
  }

  lemma RangeBoth(s: Scenario, a: seq<Slot>, b: seq<Slot>)
    requires InRange(s, a) && InRange(s, b)
    ensures InRange(s, a + b)
  {
  }

  /** Earlier events first, then the smaller priority, then whichever was generated first. */
  ghost predicate InOrder(trace: seq<Event>) {
    forall i, j :: 0 <= i < j < |trace| ==>
      var (a, b) := (trace[i], trace[j]);
      && a.slot.at <= b.slot.at && (a.slot.at == b.slot.at ==> a.slot.priority <= b.slot.priority)
      && (a.slot.at == b.slot.at && a.slot.priority == b.slot.priority ==> a.sequence < b.sequence)
  }

  /** The trace is the generated events in strict (time, priority, sequence) order, none lost or
      doubled, all within the simulated duration. */
  lemma {:induction false} TraceIsOrderedAndComplete(s: Scenario, o: Oracle)
    requires Valid(s)
    ensures var trace := Outcome(s, o).trace;
      && InOrder(trace)
      && multiset(trace) == multiset(Numbered(Slots(s, o, s.devices)))
      && forall k :: 0 <= k < |trace| ==> 0 <= trace[k].slot.at <= s.duration
  {
    var trace, slots := Outcome(s, o).trace, Slots(s, o, s.devices);
    TraceFacts(s, o);
    AllInRange(s, o, s.devices);
    forall k | 0 <= k < |trace| ensures 0 <= trace[k].slot.at <= s.duration {
      assert trace[k] in multiset(trace) && trace[k] in Numbered(slots);
      var j :| 0 <= j < |slots| && Numbered(slots)[j] == trace[k];
    }
  }

  // ---- a device's install comes first ----

  lemma OutagesNoDevice(s: Scenario, o: Oracle)
    ensures forall k :: 0 <= k < |OutageSlots(s, o)| ==> OutageSlots(s, o)[k].device.None?
  {
  }

  /** Slot k is device i's install start, and every other slot of the device comes after it. */
  ghost predicate StartsAt(slots: seq<Slot>, i: nat, k: nat) {
    && k < |slots| && slots[k].kind == InstallStarted && slots[k].device == Some(i)
    && (forall j :: 0 <= j < |slots| && j != k && slots[j].device == Some(i) ==>
          Before(Event(slots[k], k), Event(slots[j], j)) && slots[j].kind != InstallStarted)
  }

  ghost predicate Without(slots: seq<Slot>, i: nat) {
    forall k :: 0 <= k < |slots| ==> slots[k].device != Some(i)
  }

  lemma StartsStay(a: seq<Slot>, b: seq<Slot>, i: nat, k: nat)
    requires StartsAt(a, i, k) && Without(b, i)
    ensures StartsAt(a + b, i, k)
  {
  }

  lemma StartsNew(s: Scenario, a: seq<Slot>, first: Slot, rest: seq<Slot>, i: nat)
    requires Without(a, i) && first == Slot(first.at, 10, InstallStarted, Some(i)) && AllFollow(s, i, first.at, rest)
    ensures StartsAt(a + ([first] + rest), i, |a|)
  {
    var all := a + ([first] + rest);
    forall j | 0 <= j < |all| && j != |a| && all[j].device == Some(i)
      ensures Before(Event(all[|a|], |a|), Event(all[j], j)) && all[j].kind != InstallStarted
    {
      assert j > |a| && all[j] == rest[j - |a| - 1];
    }
  }

  /** What each device contributes, one part after the other. */
  function Joined(first: seq<Slot>, parts: seq<seq<Slot>>): seq<Slot> {
    if parts == [] then first else Joined(first, parts[..|parts| - 1]) + parts[|parts| - 1]
  }

  function Parts(s: Scenario, o: Oracle, n: nat): (parts: seq<seq<Slot>>)
    requires Valid(s)
    ensures |parts| == n
  {
    seq(n, i requires 0 <= i < n => DeviceSlots(s, i, o.device(i)))
  }

  lemma {:induction false} SlotsAreJoined(s: Scenario, o: Oracle, n: nat)
    requires Valid(s)
    ensures Slots(s, o, n) == Joined(OutageSlots(s, o), Parts(s, o, n))
  {
    if n > 0 {
      SlotsAreJoined(s, o, n - 1);
      assert Parts(s, o, n)[..n - 1] == Parts(s, o, n - 1);
    }
  }

  /** A part opens with its device's install start; all else in it is the device's and follows. */
  ghost predicate Opening(s: Scenario, part: seq<Slot>, i: nat) {
    && part != [] && part[0] == Slot(part[0].at, 10, InstallStarted, Some(i)) && AllFollow(s, i, part[0].at, part[1..])
  }

  lemma DeviceOpens(s: Scenario, i: nat, d: Draw)
    requires Valid(s)
    ensures Opening(s, DeviceSlots(s, i, d), i)
  {
    AftermathFollows(s, i, d);
    assert DeviceSlots(s, i, d)[1..] == Aftermath(s, i, d);
  }

  lemma OpeningOthers(s: Scenario, part: seq<Slot>, j: nat, i: nat)
    requires Opening(s, part, j) && i != j
    ensures Without(part, i)
  {
    forall k | 0 <= k < |part| ensures part[k].device == Some(j) {
      if k > 0 { assert part[k] == part[1..][k - 1]; }
    }
  }

  lemma WithoutBoth(a: seq<Slot>, b: seq<Slot>, i: nat)
    requires Without(a, i) && Without(b, i)
    ensures Without(a + b, i)
  {
  }

  lemma {:induction false} JoinedWithout(s: Scenario, first: seq<Slot>, parts: seq<seq<Slot>>, i: nat)
    requires Without(first, i) && i >= |parts| && forall j :: 0 <= j < |parts| ==> Opening(s, parts[j], j)
    ensures Without(Joined(first, parts), i)
  {
    if parts != [] {
      var n := |parts| - 1;
      JoinedWithout(s, first, parts[..n], i);
      OpeningOthers(s, parts[n], n, i);
      WithoutBoth(Joined(first, parts[..n]), parts[n], i);
    }
  }

  /** Among the joined slots each device has one install start, ahead of its other slots. */
  lemma {:induction false} StartsFirst(s: Scenario, first: seq<Slot>, parts: seq<seq<Slot>>, i: nat) returns (k: nat)
    requires Without(first, i) && i < |parts| && forall j :: 0 <= j < |parts| ==> Opening(s, parts[j], j)
    ensures StartsAt(Joined(first, parts), i, k)
  {
    var n := |parts| - 1;
    var before := Joined(first, parts[..n]);
    if i == n {
      JoinedWithout(s, first, parts[..n], i);
      StartsNew(s, before, parts[n][0], parts[n][1..], i);
      assert parts[n] == [parts[n][0]] + parts[n][1..];
      k := |before|;
    } else {
      k := StartsFirst(s, first, parts[..n], i);
      OpeningOthers(s, parts[n], n, i);
      StartsStay(before, parts[n], i, k);
    }
  }

  lemma GeneratedStarts(s: Scenario, o: Oracle, n: nat, i: nat) returns (k: nat)
    requires Valid(s) && i < n
    ensures StartsAt(Slots(s, o, n), i, k)
  {
    OutagesNoDevice(s, o);
    forall j | 0 <= j < n ensures Opening(s, Parts(s, o, n)[j], j) { DeviceOpens(s, j, o.device(j)); }
    k := StartsFirst(s, OutageSlots(s, o), Parts(s, o, n), i);
    SlotsAreJoined(s, o, n);
  }

  /** In every trace, each device starts its install exactly once, before anything else happens to it. */
  lemma InstallComesFirst(s: Scenario, o: Oracle, i: nat) returns (x: nat)
    requires Valid(s) && i < s.devices
    ensures var trace := Outcome(s, o).trace;
      && x < |trace| && trace[x].slot.kind == InstallStarted && trace[x].slot.device == Some(i)
      && forall y :: 0 <= y < |trace| && y != x && trace[y].slot.device == Some(i) ==> x < y && trace[y].slot.kind != InstallStarted
  {
    var trace, slots := Outcome(s, o).trace, Slots(s, o, s.devices);
    var events := Numbered(slots);
    TraceFacts(s, o);
    var k := GeneratedStarts(s, o, s.devices, i);
    assert events[k] in multiset(events) && events[k] in multiset(trace);
    x :| 0 <= x < |trace| && trace[x] == events[k];
    forall y | 0 <= y < |trace| && y != x && trace[y].slot.device == Some(i)
      ensures x < y && trace[y].slot.kind != InstallStarted
    {
      LaterInTrace(trace, slots, k, x, y);
    }
  }

  lemma LaterInTrace(trace: seq<Event>, slots: seq<Slot>, k: nat, x: nat, y: nat)
    requires Ascending(Before, trace) && multiset(trace) == multiset(Numbered(slots))
    requires k < |slots| && x < |trace| && y < |trace| && x != y && trace[x] == Numbered(slots)[k]
    requires trace[y].slot.device == slots[k].device
    requires forall j :: 0 <= j < |slots| && j != k && slots[j].device == slots[k].device ==>
      Before(Event(slots[k], k), Event(slots[j], j)) && slots[j].kind != InstallStarted
    ensures x < y && trace[y].slot.kind != InstallStarted
  {
    assert trace[y] in multiset(trace) && trace[y] in Numbered(slots);
    var j :| 0 <= j < |slots| && Numbered(slots)[j] == trace[y];
    assert !Before(trace[y], trace[x]);
  }

  // ---- counting ----

  /** How many of the first n devices have a property. */
  function Count(o: Oracle, n: nat, p: Draw -> bool): (c: nat)
    ensures c <= n
  {
    if n == 0 then 0 else Count(o, n - 1, p) + One(p(o.device(n - 1)))
  }

  predicate Failed(d: Draw) { d.failed }
  predicate Offline(d: Draw) { !d.online }
  predicate Unhealthy(d: Draw) { d.unhealthy }
  predicate Restarted(d: Draw) { d.restarted }
  predicate Lost(d: Draw) { d.lost }
  predicate Duplicated(d: Draw) { d.duplicated }
  predicate Delivered(d: Draw) { d.duplicated && !d.lost }
  predicate Reordered(d: Draw) { d.reordered }
  predicate WouldFlap(d: Draw) { d.flaps }

  lemma {:induction false} CountersCount(s: Scenario, o: Oracle, n: nat)
    ensures var t := TallyOf(s, o, n);
      && t.failures == Count(o, n, Failed) && t.offline == Count(o, n, Offline) && t.unhealthy == Count(o, n, Unhealthy)
      && t.restarts == Count(o, n, Restarted) && t.lost == Count(o, n, Lost) && t.duplicates == Count(o, n, Duplicated)
      && t.reordered == Count(o, n, Reordered) && t.flapping == (if s.flapping then Count(o, n, WouldFlap) else 0)
  {
    if n > 0 { CountersCount(s, o, n - 1); }
  }

  function Extras(s: Scenario, d: Draw): (n: nat) {
    One(Delivered(d)) + One(d.reordered) + One(d.restarted) + One(d.unhealthy) + One(!d.online) + 2 * One(Flaps(s, d))
  }

  lemma DeviceSlotCount(s: Scenario, i: nat, d: Draw)
    requires Valid(s)
    ensures |DeviceSlots(s, i, d)| == 2 + Extras(s, d)
  {
  }

  lemma OutageSlotCount(s: Scenario, o: Oracle)
    ensures |OutageSlots(s, o)| == 2 * (One(o.database) + One(o.controlPlane) + One(o.iot))
  {
  }

  function ExtrasSum(s: Scenario, o: Oracle, n: nat): nat {
    if n == 0 then 0 else ExtrasSum(s, o, n - 1) + Extras(s, o.device(n - 1))
  }

  lemma {:induction false} SlotCount(s: Scenario, o: Oracle, n: nat)
    requires Valid(s)
    ensures |Slots(s, o, n)| == |OutageSlots(s, o)| + 2 * n + ExtrasSum(s, o, n)
  {
    if n > 0 {
      var before, more := Slots(s, o, n - 1), DeviceSlots(s, n - 1, o.device(n - 1));
      SlotCount(s, o, n - 1);
      DeviceSlotCount(s, n - 1, o.device(n - 1));
      assert Slots(s, o, n) == before + more;
      assert |before + more| == |before| + |more|;
    }
  }

  lemma {:induction false} ExtrasAreCounted(s: Scenario, o: Oracle, n: nat)
    ensures var t := TallyOf(s, o, n);
      ExtrasSum(s, o, n) == Count(o, n, Delivered) + t.reordered + t.restarts + t.unhealthy + t.offline + 2 * t.flapping
  {
    if n > 0 { ExtrasAreCounted(s, o, n - 1); }
  }

  /** The event count is the exact sum the counters imply; duplicates whose report is lost are
      counted as duplicates but make no event. */
  lemma {:induction false} EventCountIsImplied(s: Scenario, o: Oracle)
    requires Valid(s)
    ensures var (m, n) := (Outcome(s, o).metrics, s.devices);
      && m.eventCount == |Outcome(s, o).trace|
      && m.eventCount == 2 * (One(o.database) + One(o.controlPlane) + One(o.iot)) + 2 * n + Count(o, n, Delivered)
           + m.tally.reordered + m.tally.restarts + m.tally.unhealthy + m.tally.offline + 2 * m.tally.flapping
      && Count(o, n, Delivered) <= m.tally.duplicates <= Count(o, n, Delivered) + m.tally.lost
  {
    TraceFacts(s, o);
    OutageSlotCount(s, o);
    SlotCount(s, o, s.devices);
    ExtrasAreCounted(s, o, s.devices);
    CountersCount(s, o, s.devices);
    DeliveredBounds(o, s.devices);
  }

  lemma {:induction false} DeliveredBounds(o: Oracle, n: nat)
    ensures Count(o, n, Delivered) <= Count(o, n, Duplicated) <= Count(o, n, Delivered) + Count(o, n, Lost)
  {
    if n > 0 { DeliveredBounds(o, n - 1); }
  }

  // ---- breakdowns ----

  ghost function Total(m: map<string, nat>): (n: nat)
    decreases |m|
  {
    if m == map[] then 0 else
      var k :| k in m;
      m[k] + Total(m - {k})
  }

  lemma {:induction false} TotalSplit(m: map<string, nat>, k: string)
    requires k in m
    ensures Total(m) == m[k] + Total(m - {k})
    decreases |m|
  {
    var j :| j in m && Total(m) == m[j] + Total(m - {j});
    if j != k {
      TotalSplit(m - {j}, k);
      TotalSplit(m - {k}, j);
      assert m - {j} - {k} == m - {k} - {j};
    }
  }

  lemma {:induction false} TotalBump(m: map<string, nat>, k: string)
    ensures Total(Bump(m, k)) == Total(m) + 1
  {
    TotalSplit(Bump(m, k), k);
    assert Bump(m, k) - {k} == m - {k};
    if k in m { TotalSplit(m, k); } else { assert m - {k} == m; }
  }

  function At(m: map<string, nat>, k: string): (n: nat) { if k in m then m[k] else 0 }

  ghost predicate Part(small: map<string, nat>, big: map<string, nat>) {
    forall k :: At(small, k) <= At(big, k)
  }

  lemma {:induction false} PartBumped(small: map<string, nat>, big: map<string, nat>, k: string, b: bool)
    requires Part(small, big)
    ensures Part(BumpIf(small, k, b), Bump(big, k))
    ensures Total(Bump(big, k)) == Total(big) + 1 && Total(BumpIf(small, k, b)) == Total(small) + One(b)
  {
    TotalBump(big, k);
    TotalBump(small, k);
    forall j ensures At(BumpIf(small, k, b), j) <= At(Bump(big, k), j) {
      assert At(small, j) <= At(big, j);
    }
  }

  lemma {:induction false} HardwareAddsUp(s: Scenario, o: Oracle, n: nat)
    ensures var t := TallyOf(s, o, n);
      Total(t.hardwareCounts) == n && Total(t.hardwareFailures) == t.failures && Part(t.hardwareFailures, t.hardwareCounts)
  {
    if n > 0 {
      HardwareAddsUp(s, o, n - 1);
      var t, d := TallyOf(s, o, n - 1), o.device(n - 1);
      PartBumped(t.hardwareFailures, t.hardwareCounts, d.hardware, d.failed);
    }
  }

  lemma {:induction false} RegionsAddUp(s: Scenario, o: Oracle, n: nat)
    ensures var t := TallyOf(s, o, n);
      Total(t.regionCounts) == n && Total(t.regionHealthFailures) == t.unhealthy && Part(t.regionHealthFailures, t.regionCounts)
  {
    if n > 0 {
      RegionsAddUp(s, o, n - 1);
      var t, d := TallyOf(s, o, n - 1), o.device(n - 1);
      PartBumped(t.regionHealthFailures, t.regionCounts, d.region, d.unhealthy);
    }
  }

  /** Per-hardware and per-region counts add up to the totals, and no group has more failures than devices. */
  lemma BreakdownsAddUp(s: Scenario, o: Oracle)
    requires Valid(s)
    ensures var t := Outcome(s, o).metrics.tally;
      && Total(t.hardwareCounts) == s.devices && Total(t.hardwareFailures) == t.failures
      && Total(t.regionCounts) == s.devices && Total(t.regionHealthFailures) == t.unhealthy
      && Part(t.hardwareFailures, t.hardwareCounts) && Part(t.regionHealthFailures, t.regionCounts)
  {
    HardwareAddsUp(s, o, s.devices);
    RegionsAddUp(s, o, s.devices);
  }

  // ---- outcomes ----

  /** Every device is converged or stranded; every rollback target recovers or fails; a rollback is
      never false, since only failures trigger one. */
  lemma OutcomesAddUp(s: Scenario, o: Oracle)
    requires Valid(s)
    ensures var m := Outcome(s, o).metrics;
      && m.converged + m.stranded == s.devices && 0 <= m.converged <= m.reachable <= s.devices
      && m.rollbackConverged + m.rollbackFailures == m.rollbackTarget && 0 <= m.rollbackConverged <= m.rollbackTarget <= s.devices
      && (m.rollbackTarget > 0 <==> m.rollbackTriggered)
      && (m.rollbackTriggered ==> m.pauseTriggered) && !m.falseRollback
  {
    CountersCount(s, o, s.devices);
  }

  predicate Sound(d: Draw) { d.online && !d.failed && !d.unhealthy && !d.lost }

  function Troubles(d: Draw): (n: nat) { One(!d.online) + One(d.failed) + One(d.unhealthy) + One(d.lost) }

  predicate AtMostOneTrouble(d: Draw) { Troubles(d) <= 1 }

  ghost predicate NoDoubleTrouble(o: Oracle, n: nat) { forall i: nat :: i < n ==> AtMostOneTrouble(o.device(i)) }

  function TroubleSum(o: Oracle, n: nat): nat {
    if n == 0 then 0 else TroubleSum(o, n - 1) + Troubles(o.device(n - 1))
  }

  lemma {:induction false} TroublesAreCounted(o: Oracle, n: nat)
    ensures TroubleSum(o, n) == Count(o, n, Offline) + Count(o, n, Failed) + Count(o, n, Unhealthy) + Count(o, n, Lost)
  {
    if n > 0 { TroublesAreCounted(o, n - 1); }
  }

  lemma {:induction false} TroublesCovered(o: Oracle, n: nat)
    ensures n - TroubleSum(o, n) <= Count(o, n, Sound)
    ensures n - TroubleSum(o, n) == Count(o, n, Sound) <==> NoDoubleTrouble(o, n)
  {
    if n > 0 {
      TroublesCovered(o, n - 1);
      assert NoDoubleTrouble(o, n) <==> NoDoubleTrouble(o, n - 1) && AtMostOneTrouble(o.device(n - 1));
    }
  }

  /** The converged figure never overstates: it is at most the number of devices without any trouble,
      and is that number exactly when no device has two troubles at once, or no device is sound. */
  lemma {:induction false} ConvergedExactly(s: Scenario, o: Oracle)
    requires Valid(s)
    ensures var (m, sound) := (Outcome(s, o).metrics, Count(o, s.devices, Sound));
      && m.converged <= sound
      && (m.converged == sound <==> sound == 0 || NoDoubleTrouble(o, s.devices))
  {
    CountersCount(s, o, s.devices);
    TroublesAreCounted(o, s.devices);
    TroublesCovered(o, s.devices);
  }

  /** Two devices, one sound and one both offline and failing. */
  lemma TwoDevices() returns (s: Scenario, o: Oracle)
    ensures Valid(s) && s.devices == 2 && Sound(o.device(0))
    ensures o.device(1).failed && !o.device(1).online && !o.device(1).unhealthy && !o.device(1).lost
  {
    var sound := Draw("", "", true, false, false, false, false, false, 0, 0, 0, false, false);
    var troubled := sound.(online := false, failed := true);
    s := Scenario(true, 2, 1, 1, 1, 1, 0, 0, 0, 0, false, false, 1);
    o := Oracle(false, false, false, (i: nat) => if i == 0 then sound else troubled, (i: nat) => false);
  }

  /** The second device is taken off twice, so that nobody counts as converged although one is sound. */
  lemma DoubleTroubleReached() returns (s: Scenario, o: Oracle)
    ensures Valid(s) && Count(o, s.devices, Sound) == 1 && Outcome(s, o).metrics.converged == 0
  {
    s, o := TwoDevices();
    CountersCount(s, o, 2);
    assert Count(o, 1, Sound) == 1 && Count(o, 1, Offline) == 0 && Count(o, 1, Failed) == 0;
  }
}
