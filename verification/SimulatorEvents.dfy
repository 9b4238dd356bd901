/** Exactly which events a simulation has, and what its verdicts mean, in terms of the draws. */
module SimulatorEvents {
  import opened Wrappers
  import opened Ordering
  import opened Simulator
  import opened SimulatorProperties

  // ---- the events of one device ----

  /** When the report of a device is due: its install, plus how long that takes, plus a delay if it is reordered. */
  predicate Due(s: Scenario, d: Draw, at: int)
    requires Valid(s)
  {
    var length := if s.fixedInstall then s.installSeconds else 1 + d.lengthRaw % 300;
    var delay := if d.reordered then 1 + d.delayRaw % 30 else 0;
    at == Until(s, d.installRaw % s.duration + length + delay)
  }

  /** Nothing happens after the end. */
  function Until(s: Scenario, at: int): int { if at <= s.duration then at else s.duration }

  /** An event of this kind, time and priority is among those the device's draws call for. */
  ghost predicate Happens(s: Scenario, d: Draw, kind: Kind, at: int, priority: int)
    requires Valid(s)
  {
    exists report :: Due(s, d, report) && Occurs(s, d, kind, at, priority, report)
  }

  predicate Occurs(s: Scenario, d: Draw, kind: Kind, at: int, priority: int, report: int)
    requires Valid(s)
  {
    var offline := if s.meanOffline >= 2 then s.meanOffline / 2 else 1;
    var lost := Until(s, report + offline);
    match kind
    case InstallStarted => at == d.installRaw % s.duration && priority == 10
    case ReportLost => d.lost && at == report && priority == 20
    case InstallFailed => !d.lost && d.failed && at == report && priority == 20
    case InstallSucceeded => !d.lost && !d.failed && at == report && priority == 20
    case DuplicateReport => d.duplicated && !d.lost && at == report && priority == 20
    case ReorderedReport => d.reordered && at == report && priority == 21
    case DeviceRestart => d.restarted && at == Until(s, report + 1) && priority == 22
    case HealthDegraded => d.unhealthy && at == Until(s, report + if s.healthDelay >= 1 then s.healthDelay else 1) && priority == 23
    case ConnectivityLost => s.flapping && d.flaps && at == lost && priority == 25
    case Reconnect =>
      priority == 30 && ((!d.online && at == Until(s, report + s.meanOffline)) || (s.flapping && d.flaps && at == Until(s, lost + s.meanOffline)))
    case _ => false
  }

  lemma DueIsReportAt(s: Scenario, d: Draw, at: int)
    requires Valid(s)
    ensures Due(s, d, at) <==> at == ReportAt(s, d)
  {
  }

  lemma InWhen(happens: bool, slots: seq<Slot>, x: Slot)
    ensures x in When(happens, slots) <==> happens && x in slots
  {
  }

  lemma InEither(a: seq<Slot>, b: seq<Slot>, x: Slot)
    ensures x in a + b <==> x in a || x in b
  {
  }

  /** x is one of the events a device has upon its report. */
  predicate Lands(s: Scenario, i: nat, d: Draw, report: int, x: Slot) {
    || x == Slot(report, 20, if d.lost then ReportLost else if d.failed then InstallFailed else InstallSucceeded, Some(i))
    || (d.duplicated && !d.lost && x == Slot(report, 20, DuplicateReport, Some(i)))
    || (d.reordered && x == Slot(report, 21, ReorderedReport, Some(i)))
    || (d.restarted && x == Slot(Min(s.duration, report + 1), 22, DeviceRestart, Some(i)))
  }

  /** x is one of the events a device has after its install start. */
  predicate Follows(s: Scenario, i: nat, d: Draw, report: int, x: Slot) {
    var flap := Min(s.duration, report + Max(1, s.meanOffline / 2));
    || Lands(s, i, d, report, x)
    || (d.unhealthy && x == Slot(Min(s.duration, report + Max(1, s.healthDelay)), 23, HealthDegraded, Some(i)))
    || (!d.online && x == Slot(Min(s.duration, report + s.meanOffline), 30, Reconnect, Some(i)))
    || (Flaps(s, d) && (x == Slot(flap, 25, ConnectivityLost, Some(i)) || x == Slot(Min(s.duration, flap + s.meanOffline), 30, Reconnect, Some(i))))
  }

  /** The events a device has upon its report. */
  function Landing(s: Scenario, i: nat, d: Draw): seq<Slot>
    requires Valid(s)
  {
    var report := ReportAt(s, d);
    [Slot(report, 20, if d.lost then ReportLost else if d.failed then InstallFailed else InstallSucceeded, Some(i))]
    + When(d.duplicated && !d.lost, [Slot(report, 20, DuplicateReport, Some(i))])
    + When(d.reordered, [Slot(report, 21, ReorderedReport, Some(i))])
    + When(d.restarted, [Slot(Min(s.duration, report + 1), 22, DeviceRestart, Some(i))])
  }

  lemma LandingParts(s: Scenario, i: nat, d: Draw, x: Slot)
    requires Valid(s)
    ensures x in Landing(s, i, d) <==> Lands(s, i, d, ReportAt(s, d), x)
  {
    var report := ReportAt(s, d);
    var done := [Slot(report, 20, if d.lost then ReportLost else if d.failed then InstallFailed else InstallSucceeded, Some(i))];
    var duplicate := When(d.duplicated && !d.lost, [Slot(report, 20, DuplicateReport, Some(i))]);
    var late := When(d.reordered, [Slot(report, 21, ReorderedReport, Some(i))]);
    var restart := When(d.restarted, [Slot(Min(s.duration, report + 1), 22, DeviceRestart, Some(i))]);
    InEither(done, duplicate, x);
    InEither(done + duplicate, late, x);
    InEither(done + duplicate + late, restart, x);
  }

  lemma AftermathParts(s: Scenario, i: nat, d: Draw, x: Slot)
    requires Valid(s)
    ensures x in Aftermath(s, i, d) <==> Follows(s, i, d, ReportAt(s, d), x)
  {
    var report := ReportAt(s, d);
    var flap := Min(s.duration, report + Max(1, s.meanOffline / 2));
    var landing := Landing(s, i, d);
    var degraded := When(d.unhealthy, [Slot(Min(s.duration, report + Max(1, s.healthDelay)), 23, HealthDegraded, Some(i))]);
    var back := When(!d.online, [Slot(Min(s.duration, report + s.meanOffline), 30, Reconnect, Some(i))]);
    var flaps := When(Flaps(s, d),
      [Slot(flap, 25, ConnectivityLost, Some(i)), Slot(Min(s.duration, flap + s.meanOffline), 30, Reconnect, Some(i))]);
    LandingParts(s, i, d, x);
    InEither(landing, degraded, x);
    InEither(landing + degraded, back, x);
    InEither(landing + degraded + back, flaps, x);
  }

  lemma KindByKind(s: Scenario, i: nat, d: Draw, x: Slot)
    requires Valid(s)
    ensures var report := ReportAt(s, d);
      x.device == Some(i) && Occurs(s, d, x.kind, x.at, x.priority, report) <==>
        x == Slot(InstallAt(s, d), 10, InstallStarted, Some(i)) || Follows(s, i, d, report, x)
  {
  }

  lemma OneDue(s: Scenario, d: Draw, x: Slot)
    requires Valid(s)
    ensures Happens(s, d, x.kind, x.at, x.priority) <==> Occurs(s, d, x.kind, x.at, x.priority, ReportAt(s, d))
  {
    DueIsReportAt(s, d, ReportAt(s, d));
    forall r | Due(s, d, r) ensures r == ReportAt(s, d) { DueIsReportAt(s, d, r); }
  }

  lemma DeviceSlotsExactly(s: Scenario, i: nat, d: Draw, x: Slot)
    requires Valid(s)
    ensures x in DeviceSlots(s, i, d) <==> x.device == Some(i) && Happens(s, d, x.kind, x.at, x.priority)
  {
    InEither([Slot(InstallAt(s, d), 10, InstallStarted, Some(i))], Aftermath(s, i, d), x);
    AftermathParts(s, i, d, x);
    KindByKind(s, i, d, x);
    OneDue(s, d, x);
  }

  // ---- the outages ----

  ghost predicate Breaks(s: Scenario, o: Oracle, kind: Kind, at: int, priority: int) {
    match kind
    case DatabaseOutage => o.database && at == s.databaseAt && priority == 1
    case DatabaseRecovered => o.database && at == Until(s, s.databaseAt + s.recovery) && priority == 1
    case ControlPlaneRestart => o.controlPlane && at == s.controlPlaneAt && priority == 1
    case ControlPlaneRecovered => o.controlPlane && at == Until(s, s.controlPlaneAt + s.recovery) && priority == 1
    case IotOutage => o.iot && at == s.iotAt && priority == 2
    case IotRecovered => o.iot && at == Until(s, s.iotAt + s.recovery) && priority == 2
    case _ => false
  }

  lemma OutagesExactly(s: Scenario, o: Oracle, x: Slot)
    ensures x in OutageSlots(s, o) <==> x.device == None && Breaks(s, o, x.kind, x.at, x.priority)
  {
    var a := When(o.database, Outage(s, s.databaseAt, 1, DatabaseOutage, DatabaseRecovered));
    var b := When(o.controlPlane, Outage(s, s.controlPlaneAt, 1, ControlPlaneRestart, ControlPlaneRecovered));
    var c := When(o.iot, Outage(s, s.iotAt, 2, IotOutage, IotRecovered));
    assert x in a + b <==> x in a || x in b;
    assert x in a + b + c <==> x in a + b || x in c;
    InWhen(o.database, Outage(s, s.databaseAt, 1, DatabaseOutage, DatabaseRecovered), x);
    InWhen(o.controlPlane, Outage(s, s.controlPlaneAt, 1, ControlPlaneRestart, ControlPlaneRecovered), x);
    InWhen(o.iot, Outage(s, s.iotAt, 2, IotOutage, IotRecovered), x);
  }

  // ---- the trace ----

  /** The draws of x's device, one of the first n, call for x, or those of the outages do. */
  ghost predicate CalledFor(s: Scenario, o: Oracle, n: nat, x: Slot)
    requires Valid(s)
  {
    if x.device.Some? then x.device.value < n && Happens(s, o.device(x.device.value), x.kind, x.at, x.priority)
    else Breaks(s, o, x.kind, x.at, x.priority)
  }

  lemma CalledOneMore(s: Scenario, o: Oracle, n: nat, x: Slot)
    requires Valid(s)
    ensures CalledFor(s, o, n + 1, x) <==>
      CalledFor(s, o, n, x) || (x.device == Some(n) && Happens(s, o.device(n), x.kind, x.at, x.priority))
  {
  }

  lemma {:induction false} SlotsExactly(s: Scenario, o: Oracle, n: nat, x: Slot)
    requires Valid(s)
    ensures x in Slots(s, o, n) <==> CalledFor(s, o, n, x)
  {
    if n == 0 {
      OutagesExactly(s, o, x);
    } else {
      var before, more := Slots(s, o, n - 1), DeviceSlots(s, n - 1, o.device(n - 1));
      SlotsExactly(s, o, n - 1, x);
      DeviceSlotsExactly(s, n - 1, o.device(n - 1), x);
      InEither(before, more, x);
      CalledOneMore(s, o, n - 1, x);
      assert Slots(s, o, n) == before + more;
    }
  }

  /** An event is in the trace exactly when the draws of its device, or of the outages, call for it. */
  lemma TraceExactly(s: Scenario, o: Oracle, x: Slot)
    requires Valid(s)
    ensures (exists e :: e in Outcome(s, o).trace && e.slot == x) <==> CalledFor(s, o, s.devices, x)
  {
    var trace, slots := Outcome(s, o).trace, Slots(s, o, s.devices);
    TraceFacts(s, o);
    SlotsExactly(s, o, s.devices, x);
    if x in slots {
      var k :| 0 <= k < |slots| && slots[k] == x;
      assert Numbered(slots)[k] in multiset(Numbered(slots)) && Numbered(slots)[k] in multiset(trace);
    }
    forall e | e in trace ensures e.slot in slots {
      assert e in multiset(trace) && e in Numbered(slots);
    }
  }

  // ---- the verdicts ----

  /** The devices among the first n whose rollback the generator lets succeed. */
  ghost function Recovering(o: Oracle, n: nat): set<nat> { set i: nat | i < n && o.recovers(i) }

  lemma RecoveringOneMore(o: Oracle, n: nat)
    ensures |Recovering(o, n + 1)| == |Recovering(o, n)| + One(o.recovers(n))
  {
    assert Recovering(o, n + 1) == if o.recovers(n) then Recovering(o, n) + {n} else Recovering(o, n);
  }

  lemma {:induction false} RecoveriesAre(o: Oracle, n: nat)
    ensures Recoveries(o, n) == |Recovering(o, n)|
  {
    if n > 0 {
      RecoveriesAre(o, n - 1);
      RecoveringOneMore(o, n - 1);
    }
  }

  lemma Thresholds(n: nat, failed: nat, unhealthy: nat)
    ensures failed > Max(0, n / 20) <==> 100 * failed > 5 * n
    ensures unhealthy > Max(0, n / 10) <==> 100 * unhealthy > 10 * n
    ensures failed > Max(0, n / 100) <==> 100 * failed > n
  {
  }

  /** More than 5 percent failing or more than 10 percent unhealthy trigger a rollback of whoever is offline
      or has failed either way, whichever are more; more than 1 percent failing is enough for a pause. */
  ghost predicate Judges(m: Metrics, o: Oracle, n: int, failed: int, unhealthy: int, offline: int) {
    && (m.rollbackTriggered <==> 100 * failed > 5 * n || 100 * unhealthy > 10 * n)
    && (m.pauseTriggered <==> m.rollbackTriggered || 100 * failed > n)
    && (!m.rollbackTriggered ==> m.rollbackTarget == 0)
    && (m.rollbackTriggered ==> m.rollbackTarget == Min(n, if failed + unhealthy > offline then failed + unhealthy else offline))
    && m.rollbackTarget >= 0 && m.rollbackConverged == |Recovering(o, m.rollbackTarget)|
    && m.reachable == n - offline
  }

  lemma MeasureJudges(s: Scenario, o: Oracle, t: Tally, events: nat)
    requires Valid(s)
    ensures Judges(Measure(s, o, t, events), o, s.devices, t.failures, t.unhealthy, t.offline)
  {
    Thresholds(s.devices, t.failures, t.unhealthy);
    RecoveriesAre(o, Target(s.devices, t));
  }

  /** The verdicts follow from how many devices are drawn as failing, unhealthy and offline. */
  lemma {:induction false} VerdictsExactly(s: Scenario, o: Oracle)
    requires Valid(s)
    ensures var n := s.devices;
      Judges(Outcome(s, o).metrics, o, n, Count(o, n, Failed), Count(o, n, Unhealthy), Count(o, n, Offline))
  {
    CountersCount(s, o, s.devices);
    MeasureJudges(s, o, TallyOf(s, o, s.devices), |Slots(s, o, s.devices)|);
  }

  // ---- the breakdowns ----

  function OfHardware(h: string): Draw -> bool { (d: Draw) => d.hardware == h }
  function FailedOf(h: string): Draw -> bool { (d: Draw) => d.hardware == h && d.failed }
  function OfRegion(g: string): Draw -> bool { (d: Draw) => d.region == g }
  function UnhealthyOf(g: string): Draw -> bool { (d: Draw) => d.region == g && d.unhealthy }

  lemma {:induction false} HardwareCounts(s: Scenario, o: Oracle, n: nat, h: string)
    ensures var t := TallyOf(s, o, n);
      At(t.hardwareCounts, h) == Count(o, n, OfHardware(h)) && At(t.hardwareFailures, h) == Count(o, n, FailedOf(h))
  {
    if n > 0 { HardwareCounts(s, o, n - 1, h); }
  }

  lemma {:induction false} RegionCounts(s: Scenario, o: Oracle, n: nat, g: string)
    ensures var t := TallyOf(s, o, n);
      At(t.regionCounts, g) == Count(o, n, OfRegion(g)) && At(t.regionHealthFailures, g) == Count(o, n, UnhealthyOf(g))
  {
    if n > 0 { RegionCounts(s, o, n - 1, g); }
  }

  /** Each hardware model counts its devices and those of them that fail, each region its devices and the unhealthy ones. */
  lemma {:induction false} BreakdownsExactly(s: Scenario, o: Oracle, h: string, g: string)
    requires Valid(s)
    ensures var (t, n) := (Outcome(s, o).metrics.tally, s.devices);
      && At(t.hardwareCounts, h) == Count(o, n, OfHardware(h)) && At(t.hardwareFailures, h) == Count(o, n, FailedOf(h))
      && At(t.regionCounts, g) == Count(o, n, OfRegion(g)) && At(t.regionHealthFailures, g) == Count(o, n, UnhealthyOf(g))
  {
    HardwareCounts(s, o, s.devices, h);
    RegionCounts(s, o, s.devices, g);
  }
}
