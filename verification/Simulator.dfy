/**
 * The discrete-event simulator. Every random draw is read from an oracle, so that what is proved
 * holds for any generator; probabilities and strata only decide what the oracle answers.
 */
module Simulator {
  import opened Wrappers
  import opened Ordering

  datatype Kind =
    | DatabaseOutage | DatabaseRecovered | ControlPlaneRestart | ControlPlaneRecovered | IotOutage | IotRecovered
    | InstallStarted | ReportLost | InstallFailed | InstallSucceeded | DuplicateReport | ReorderedReport
    | DeviceRestart | HealthDegraded | Reconnect | ConnectivityLost

  /** An event before it has a place in the queue. */
  datatype Slot = Slot(at: int, priority: int, kind: Kind, device: Option<nat>)

  datatype Event = Event(slot: Slot, sequence: nat)

  datatype Scenario = Scenario(
    wellFormed: bool, devices: int, duration: int, meanOffline: int, installSeconds: int, recovery: int,
    controlPlaneAt: int, databaseAt: int, iotAt: int, healthDelay: int, fixedInstall: bool, flapping: bool, maxEvents: int)

  /** What the generator answers for one device. */
  datatype Draw = Draw(
    hardware: string, region: string, online: bool, failed: bool, unhealthy: bool, restarted: bool, reordered: bool,
    flaps: bool, installRaw: nat, lengthRaw: nat, delayRaw: nat, lost: bool, duplicated: bool)

  datatype Oracle = Oracle(database: bool, controlPlane: bool, iot: bool, device: nat -> Draw, recovers: nat -> bool)

  /** `wellFormed` stands for the schema version, the strata, the probabilities and the named modes. */
  predicate Valid(s: Scenario) {
    && s.wellFormed && 0 < s.devices <= 1_000_000 && s.duration > 0 && s.meanOffline > 0 && s.installSeconds > 0 && s.recovery > 0
    && 0 <= s.controlPlaneAt <= s.duration && 0 <= s.databaseAt <= s.duration && 0 <= s.iotAt <= s.duration
    && 0 < s.maxEvents <= 100_000_000
  }

  // ---- events ----

  /** The order in which the queue yields events. */
  predicate Before(a: Event, b: Event) {
    if a.slot.at != b.slot.at then a.slot.at < b.slot.at
    else if a.slot.priority != b.slot.priority then a.slot.priority < b.slot.priority
    else a.sequence < b.sequence
  }

  function When(happens: bool, slots: seq<Slot>): seq<Slot> { if happens then slots else [] }

  function Outage(s: Scenario, at: int, priority: int, begin: Kind, end: Kind): seq<Slot> {
    [Slot(at, priority, begin, None), Slot(Min(s.duration, at + s.recovery), priority, end, None)]
  }

  function OutageSlots(s: Scenario, o: Oracle): seq<Slot> {
    When(o.database, Outage(s, s.databaseAt, 1, DatabaseOutage, DatabaseRecovered))
    + When(o.controlPlane, Outage(s, s.controlPlaneAt, 1, ControlPlaneRestart, ControlPlaneRecovered))
    + When(o.iot, Outage(s, s.iotAt, 2, IotOutage, IotRecovered))
  }

  function InstallAt(s: Scenario, d: Draw): (at: int)
    requires Valid(s)
    ensures 0 <= at < s.duration
  {
    d.installRaw % s.duration
  }

  function ReportAt(s: Scenario, d: Draw): (at: int)
    requires Valid(s)
    ensures InstallAt(s, d) <= at <= s.duration
  {
    var length := if s.fixedInstall then s.installSeconds else 1 + d.lengthRaw % 300;
    Min(s.duration, InstallAt(s, d) + length + if d.reordered then 1 + d.delayRaw % 30 else 0)
  }

  predicate Flaps(s: Scenario, d: Draw) { s.flapping && d.flaps }

  /** What a device's events after its install start are. */
  function Aftermath(s: Scenario, i: nat, d: Draw): (slots: seq<Slot>)
    requires Valid(s)
  {
    var report := ReportAt(s, d);
    var flap := Min(s.duration, report + Max(1, s.meanOffline / 2));
    [Slot(report, 20, if d.lost then ReportLost else if d.failed then InstallFailed else InstallSucceeded, Some(i))]
    + When(d.duplicated && !d.lost, [Slot(report, 20, DuplicateReport, Some(i))])
    + When(d.reordered, [Slot(report, 21, ReorderedReport, Some(i))])
    + When(d.restarted, [Slot(Min(s.duration, report + 1), 22, DeviceRestart, Some(i))])
    + When(d.unhealthy, [Slot(Min(s.duration, report + Max(1, s.healthDelay)), 23, HealthDegraded, Some(i))])
    + When(!d.online, [Slot(Min(s.duration, report + s.meanOffline), 30, Reconnect, Some(i))])
    + When(Flaps(s, d), [Slot(flap, 25, ConnectivityLost, Some(i)), Slot(Min(s.duration, flap + s.meanOffline), 30, Reconnect, Some(i))])
  }

  function DeviceSlots(s: Scenario, i: nat, d: Draw): (slots: seq<Slot>)
    requires Valid(s)
  {
    [Slot(InstallAt(s, d), 10, InstallStarted, Some(i))] + Aftermath(s, i, d)
  }

  /** Everything generated for the outages and the first n devices, in the order it is pushed. */
  function Slots(s: Scenario, o: Oracle, n: nat): seq<Slot>
    requires Valid(s)
  {
    if n == 0 then OutageSlots(s, o) else Slots(s, o, n - 1) + DeviceSlots(s, n - 1, o.device(n - 1))
  }

  function Numbered(slots: seq<Slot>): (events: seq<Event>)
    ensures |events| == |slots|
  {
    seq(|slots|, k requires 0 <= k < |slots| => Event(slots[k], k))
  }

  // ---- counters ----

  datatype Tally = Tally(
    failures: nat, offline: nat, unhealthy: nat, restarts: nat, lost: nat, duplicates: nat, reordered: nat, flapping: nat,
    hardwareCounts: map<string, nat>, hardwareFailures: map<string, nat>,
    regionCounts: map<string, nat>, regionHealthFailures: map<string, nat>)

  const ZERO := Tally(0, 0, 0, 0, 0, 0, 0, 0, map[], map[], map[], map[])

  function One(b: bool): (n: nat) { if b then 1 else 0 }

  function Bump(m: map<string, nat>, key: string): map<string, nat> {
    m[key := if key in m then m[key] + 1 else 1]
  }

  function BumpIf(m: map<string, nat>, key: string, b: bool): map<string, nat> { if b then Bump(m, key) else m }

  function Add(t: Tally, s: Scenario, d: Draw): Tally {
    Tally(t.failures + One(d.failed), t.offline + One(!d.online), t.unhealthy + One(d.unhealthy), t.restarts + One(d.restarted),
          t.lost + One(d.lost), t.duplicates + One(d.duplicated), t.reordered + One(d.reordered), t.flapping + One(Flaps(s, d)),
          Bump(t.hardwareCounts, d.hardware), BumpIf(t.hardwareFailures, d.hardware, d.failed),
          Bump(t.regionCounts, d.region), BumpIf(t.regionHealthFailures, d.region, d.unhealthy))
  }

  function TallyOf(s: Scenario, o: Oracle, n: nat): Tally {
    if n == 0 then ZERO else Add(TallyOf(s, o, n - 1), s, o.device(n - 1))
  }

  function Recoveries(o: Oracle, n: nat): (c: nat)
    ensures c <= n
  {
    if n == 0 then 0 else Recoveries(o, n - 1) + One(o.recovers(n - 1))
  }

  datatype Metrics = Metrics(
    tally: Tally, reachable: int, converged: int, stranded: int, rollbackTriggered: bool, pauseTriggered: bool,
    falseRollback: bool, rollbackTarget: int, rollbackConverged: int, rollbackFailures: int, eventCount: nat)

  datatype Simulation = Simulation(trace: seq<Event>, metrics: Metrics)

  function Triggered(n: int, t: Tally): bool {
    t.failures > Max(0, n / 20) || t.unhealthy > Max(0, n / 10)
  }

  function Target(n: int, t: Tally): int {
    if Triggered(n, t) then Min(n, Max(t.offline, t.failures + t.unhealthy)) else 0
  }

  function Measure(s: Scenario, o: Oracle, t: Tally, events: nat): Metrics
    requires Valid(s)
  {
    var n := s.devices;
    var converged := Max(0, n - t.offline - t.failures - t.unhealthy - t.lost);
    var target := Target(n, t);
    var recovered := if target >= 0 then Recoveries(o, target) else 0;
    Metrics(t, n - t.offline, converged, Max(0, n - converged), Triggered(n, t),
            Triggered(n, t) || t.failures > Max(0, n / 100), Triggered(n, t) && t.failures == 0 && t.unhealthy == 0,
            target, recovered, target - recovered, events)
  }

  /** What a scenario that stays within its event limit amounts to. */
  function Outcome(s: Scenario, o: Oracle): Simulation
    requires Valid(s)
  {
    var slots := Slots(s, o, s.devices);
    Simulation(Sort(Before, Numbered(slots)), Measure(s, o, TallyOf(s, o, s.devices), |slots|))
  }

  // ---- the queue ----

  ghost predicate Unlike(events: seq<Event>) {
    forall i, j :: 0 <= i < j < |events| ==> events[i].sequence != events[j].sequence
  }

  lemma BeforeLinear(dom: set<Event>)
    requires forall a, b :: a in dom && b in dom && a.sequence == b.sequence ==> a == b
    ensures Linear(Before, dom)
  {
  }

  class EventQueue {
    var events: seq<Event>
    var sequence: nat

    constructor ()
      ensures events == [] && sequence == 0
    {
      events, sequence := [], 0;
    }

    method Push(slot: Slot)
      modifies this
      ensures sequence == old(sequence) + 1 && events == old(events) + [Event(slot, old(sequence))]
    {
      events, sequence := events + [Event(slot, sequence)], sequence + 1;
    }

    /** Removes the event that comes before all others. */
    method Pop() returns (top: Event)
      requires events != [] && Unlike(events)
      modifies this
      ensures Unlike(events) && |events| == |old(events)| - 1
      ensures multiset(old(events)) == multiset(events) + multiset{top}
      ensures forall e :: e in events ==> Before(top, e)
    {
      var best := 0;
      for i := 1 to |events|
        invariant best < i
        invariant forall k :: 0 <= k < i && k != best ==> Before(events[best], events[k])
      {
        if Before(events[i], events[best]) { best := i; }
      }
      top := events[best];
      ghost var before := events;
      assert events == events[..best] + [top] + events[best + 1..];
      events := events[..best] + events[best + 1..];
      forall e | e in events ensures Before(top, e) {
        var k :| 0 <= k < |events| && events[k] == e;
        assert e == if k < best then before[k] else before[k + 1];
      }
    }
  }

  // ---- the run ----

  ghost predicate Holds(q: EventQueue, slots: seq<Slot>)
    reads q
  {
    q.events == Numbered(slots) && q.sequence == |slots|
  }

  method PushEach(q: EventQueue, more: seq<Slot>, ghost slots: seq<Slot>)
    requires Holds(q, slots)
    modifies q
    ensures Holds(q, slots + more)
  {
    assert slots + more[..0] == slots;
    for k := 0 to |more|
      invariant Holds(q, slots + more[..k])
    {
      q.Push(more[k]);
      assert slots + more[..k + 1] == slots + more[..k] + [more[k]];
    }
    assert more[..|more|] == more;
  }

  method PushOutages(q: EventQueue, s: Scenario, o: Oracle)
    requires Holds(q, [])
    modifies q
    ensures Holds(q, OutageSlots(s, o))
  {
    ghost var slots: seq<Slot> := [];
    var database := When(o.database, Outage(s, s.databaseAt, 1, DatabaseOutage, DatabaseRecovered));
    PushEach(q, database, slots);
    slots := slots + database;
    var controlPlane := When(o.controlPlane, Outage(s, s.controlPlaneAt, 1, ControlPlaneRestart, ControlPlaneRecovered));
    PushEach(q, controlPlane, slots);
    slots := slots + controlPlane;
    PushEach(q, When(o.iot, Outage(s, s.iotAt, 2, IotOutage, IotRecovered)), slots);
    assert slots == database + controlPlane;
  }

  const INVALID := Error("INVALID_SCENARIO", 422)
  const CANCELLED := Error("SIMULATION_CANCELLED", 409)
  const TOO_MANY := Error("SCENARIO_TOO_MANY_EVENTS", 422)

  /** Generates, then drains. `cancel` is asked before generation, every 256 devices and every 1024 events. */
  method Run(s: Scenario, o: Oracle, cancel: nat -> bool) returns (r: Result<Simulation>)
    ensures !Valid(s) ==> r == Err(INVALID)
    ensures Valid(s) && r.Ok? ==> r.value == Outcome(s, o) && |Slots(s, o, s.devices)| <= s.maxEvents
    ensures Valid(s) && r.Err? ==>
      (r.error == TOO_MANY && |Slots(s, o, s.devices)| > s.maxEvents) || (r.error == CANCELLED && exists k :: cancel(k))
  {
    if !Valid(s) { return Err(INVALID); }
    if cancel(0) { return Err(CANCELLED); }
    var q := new EventQueue();
    PushOutages(q, s, o);
    var refused, tally, polls := Generate(q, s, o, cancel);
    if refused.Some? { return Err(refused.value); }
    var stopped, trace := Drain(q, cancel, polls);
    if stopped { return Err(CANCELLED); }
    DrainedIsSorted(Numbered(Slots(s, o, s.devices)), trace);
    r := Ok(Simulation(trace, Measure(s, o, tally, |trace|)));
  }

  /** All devices in turn, up to the event limit. */
  method Generate(q: EventQueue, s: Scenario, o: Oracle, cancel: nat -> bool)
    returns (refused: Option<Error>, tally: Tally, polls: nat)
    requires Valid(s) && Holds(q, OutageSlots(s, o))
    modifies q
    ensures refused.None? ==> Holds(q, Slots(s, o, s.devices)) && tally == TallyOf(s, o, s.devices)
    ensures refused.None? ==> |Slots(s, o, s.devices)| <= s.maxEvents
    ensures refused.Some? ==>
      (refused.value == TOO_MANY && |Slots(s, o, s.devices)| > s.maxEvents) || (refused.value == CANCELLED && exists k :: cancel(k))
  {
    refused, tally, polls := None, ZERO, 1;
    for i := 0 to s.devices
      invariant Holds(q, Slots(s, o, i)) && tally == TallyOf(s, o, i)
      invariant i > 0 ==> |Slots(s, o, i)| <= s.maxEvents
      invariant refused.None?
    {
      if i % 256 == 0 {
        if cancel(polls) { return Some(CANCELLED), tally, polls; }
        polls := polls + 1;
      }
      tally := Add(tally, s, o.device(i));
      PushEach(q, DeviceSlots(s, i, o.device(i)), Slots(s, o, i));
      if |q.events| > s.maxEvents {
        SlotsGrow(s, o, i + 1, s.devices);
        return Some(TOO_MANY), tally, polls;
      }
    }
  }

  /** Pops until the queue is empty. */
  method Drain(q: EventQueue, cancel: nat -> bool, asked: nat) returns (stopped: bool, trace: seq<Event>)
    requires Unlike(q.events)
    modifies q
    ensures stopped ==> exists k :: cancel(k)
    ensures !stopped ==> Ascending(Before, trace) && multiset(trace) == multiset(old(q.events))
  {
    trace := [];
    var polls := asked;
    while q.events != []
      invariant Unlike(q.events) && Ascending(Before, trace)
      invariant multiset(trace) + multiset(q.events) == multiset(old(q.events))
      invariant forall a, b :: a in trace && b in q.events ==> Before(a, b)
      decreases |q.events|
    {
      if |trace| % 1024 == 0 {
        if cancel(polls) { return true, trace; }
        polls := polls + 1;
      }
      ghost var rest := q.events;
      var top := q.Pop();
      Yields(trace, rest, q.events, top);
      trace := trace + [top];
    }
    stopped := false;
    assert multiset(q.events) == multiset{};
  }

  lemma Yields(trace: seq<Event>, rest: seq<Event>, after: seq<Event>, top: Event)
    requires Ascending(Before, trace) && forall a, b :: a in trace && b in rest ==> Before(a, b)
    requires multiset(rest) == multiset(after) + multiset{top} && forall e :: e in after ==> Before(top, e)
    ensures Ascending(Before, trace + [top])
    ensures forall a, b :: a in trace + [top] && b in after ==> Before(a, b)
  {
    assert top in multiset(rest);
    forall b | b in after ensures b in rest { assert b in multiset(rest); }
  }

  lemma {:induction false} SlotsGrow(s: Scenario, o: Oracle, i: nat, n: nat)
    requires Valid(s) && i <= n
    ensures |Slots(s, o, i)| <= |Slots(s, o, n)|
  {
    if i < n { SlotsGrow(s, o, i, n - 1); }
  }

  lemma {:induction false} DrainedIsSorted(events: seq<Event>, trace: seq<Event>)
    requires Unlike(events) && Ascending(Before, trace) && multiset(trace) == multiset(events)
    ensures trace == Sort(Before, events) && |trace| == |events|
  {
    assert |multiset(trace)| == |multiset(events)|;
    var dom := set e | e in events;
    assert Distinct(events);
    BeforeLinear(dom);
    SortAscends(Before, events, dom);
    SortKeeps(Before, events);
    forall e | e in trace ensures e in dom { assert e in multiset(events); }
    AscendingUnique(Before, trace, Sort(Before, events), dom);
  }
}
