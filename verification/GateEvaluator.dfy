/**
 * The health-gate evaluator: threshold arithmetic with a fixed precedence.
 * Rates and percentages are exact reals here.
 */
module GateEvaluator {
  import opened Wrappers

  // `exposed` counts the assigned devices, `reporting` those with fresh evidence.
  datatype Metrics = Metrics(
    exposed: int, reporting: int, installFailures: int, healthFailures: int,
    rollbackFailures: int, converged: int, offline: int, crashFreePercent: real)

  datatype Thresholds = Thresholds(
    freshCoverage: real, installFailurePause: real, installFailureRollback: real,
    crashFreePausePercent: real, crashFreeRollbackPercent: real,
    healthFailurePause: real, healthFailureRollback: real,
    convergence: real, offlineFraction: real, rollbackFailure: real)

  const DEFAULTS := Thresholds(0.80, 0.01, 0.05, 99.5, 97.0, 0.02, 0.10, 0.98, 0.20, 0.05)

  datatype Decision = InsufficientEvidence | Pass | Pause | Abort | Rollback

  datatype Gate = FreshDeviceCoverage | InstallFailureRate | HealthFailureRate | CrashFreeRate
                | ConvergenceRate | OfflineFraction | RollbackFailureRate

  function Ceiling(x: real): int { -((-x).Floor) }

  predicate ExceedsRate(failures: int, denominator: int, rate: real) {
    if denominator <= 0 || rate < 0.0 then false
    else failures > (rate * denominator as real).Floor
  }

  function Evaluate(m: Metrics, t: Thresholds): Decision {
    if m.exposed <= 0 then InsufficientEvidence
    else if ExceedsRate(m.installFailures, m.exposed, t.installFailureRollback)
            || m.crashFreePercent < t.crashFreeRollbackPercent
            || ExceedsRate(m.healthFailures, m.exposed, t.healthFailureRollback)
            || ExceedsRate(m.rollbackFailures, m.exposed, t.rollbackFailure) then Rollback
    else if ExceedsRate(m.installFailures, m.exposed, t.installFailurePause)
            || m.crashFreePercent < t.crashFreePausePercent
            || ExceedsRate(m.healthFailures, m.exposed, t.healthFailurePause)
            || ExceedsRate(m.offline, m.exposed, t.offlineFraction)
            || m.converged < Ceiling(m.exposed as real * t.convergence) then Pause
    else if m.reporting < Ceiling(m.exposed as real * t.freshCoverage) then InsufficientEvidence
    else Pass
  }

  function When(fails: bool, gate: Gate): seq<Gate> { if fails then [gate] else [] }

  function FailedGates(m: Metrics, t: Thresholds): seq<Gate> {
    When(m.exposed <= 0 || m.reporting < Ceiling(t.freshCoverage * m.exposed as real), FreshDeviceCoverage)
    + When(m.exposed > 0 && ExceedsRate(m.installFailures, m.exposed, t.installFailurePause), InstallFailureRate)
    + When(m.exposed > 0 && ExceedsRate(m.healthFailures, m.exposed, t.healthFailurePause), HealthFailureRate)
    + When(m.crashFreePercent < t.crashFreePausePercent, CrashFreeRate)
    + When(m.exposed > 0 && m.converged < Ceiling(t.convergence * m.exposed as real), ConvergenceRate)
    + When(m.exposed > 0 && ExceedsRate(m.offline, m.exposed, t.offlineFraction), OfflineFraction)
    + When(m.exposed > 0 && ExceedsRate(m.rollbackFailures, m.exposed, t.rollbackFailure), RollbackFailureRate)
  }

  // ---- thresholds from a frozen policy ----

  /** The numeric entries of a policy's health gates; a missing or boolean entry is None. */
  datatype HealthGates = HealthGates(
    freshDeviceCoverage: Option<real>, installFailureRate: Option<real>, crashFreeRate: Option<real>,
    healthFailureRate: Option<real>, convergenceRate: Option<real>, offlineFraction: Option<real>,
    rollbackFailureRate: Option<real>)

  /** What policy validation admits. */
  predicate InRange(gate: Option<real>) { gate.Some? ==> 0.0 <= gate.value <= 100.0 }

  predicate Validated(g: HealthGates) {
    && InRange(g.freshDeviceCoverage) && InRange(g.installFailureRate) && InRange(g.crashFreeRate)
    && InRange(g.healthFailureRate) && InRange(g.convergenceRate) && InRange(g.offlineFraction)
    && InRange(g.rollbackFailureRate)
  }

  function PolicyRatio(gate: Option<real>, fallback: real): real {
    if gate.None? || gate.value < 0.0 then fallback
    else if gate.value > 1.0 then gate.value / 100.0
    else gate.value
  }

  function MaxR(x: real, y: real): real { if x < y then y else x }

  function MinR(x: real, y: real): real { if y < x then y else x }

  function ThresholdsFromPolicy(g: HealthGates): Thresholds {
    var install := PolicyRatio(g.installFailureRate, DEFAULTS.installFailurePause);
    var health := PolicyRatio(g.healthFailureRate, DEFAULTS.healthFailurePause);
    Thresholds(
      PolicyRatio(g.freshDeviceCoverage, DEFAULTS.freshCoverage),
      install, MaxR(DEFAULTS.installFailureRollback, MinR(1.0, install * 5.0)),
      if g.crashFreeRate.None? then DEFAULTS.crashFreePausePercent
      else if g.crashFreeRate.value <= 1.0 then g.crashFreeRate.value * 100.0 else g.crashFreeRate.value,
      DEFAULTS.crashFreeRollbackPercent,
      health, MaxR(DEFAULTS.healthFailureRollback, MinR(1.0, health * 5.0)),
      PolicyRatio(g.convergenceRate, DEFAULTS.convergence),
      PolicyRatio(g.offlineFraction, DEFAULTS.offlineFraction),
      PolicyRatio(g.rollbackFailureRate, DEFAULTS.rollbackFailure))
  }

  // ---- meaning ----

  /** Rounding down does not change a comparison against a whole number. */
  lemma ExceedsExactly(failures: int, denominator: int, rate: real)
    ensures ExceedsRate(failures, denominator, rate) <==> denominator > 0 && rate >= 0.0 && failures as real > rate * denominator as real
  {
  }

  lemma BelowCeiling(count: int, x: real)
    ensures count < Ceiling(x) <==> count as real < x
  {
  }

  /** No more than the given share of the assigned devices; a negative rate switches the gate off. */
  predicate Within(failures: int, exposed: int, rate: real) {
    rate >= 0.0 ==> failures as real <= rate * exposed as real
  }

  /** Everything a stage must show before it is promoted, in exact arithmetic. */
  predicate Healthy(m: Metrics, t: Thresholds) {
    && m.exposed > 0
    && m.reporting as real >= m.exposed as real * t.freshCoverage
    && m.converged as real >= m.exposed as real * t.convergence
    && m.crashFreePercent >= t.crashFreePausePercent
    && Within(m.installFailures, m.exposed, t.installFailurePause)
    && Within(m.healthFailures, m.exposed, t.healthFailurePause)
    && Within(m.offline, m.exposed, t.offlineFraction)
    && Within(m.rollbackFailures, m.exposed, t.rollbackFailure)
  }

  /** Nothing that calls for a rollback. */
  predicate Tolerable(m: Metrics, t: Thresholds) {
    && m.crashFreePercent >= t.crashFreeRollbackPercent
    && Within(m.installFailures, m.exposed, t.installFailureRollback)
    && Within(m.healthFailures, m.exposed, t.healthFailureRollback)
  }

  /** A stage passes exactly when it is healthy and nothing calls for a rollback. */
  lemma PassExactly(m: Metrics, t: Thresholds)
    ensures Evaluate(m, t) == Pass <==> Healthy(m, t) && Tolerable(m, t)
  {
    BelowCeiling(m.converged, m.exposed as real * t.convergence);
    BelowCeiling(m.reporting, m.exposed as real * t.freshCoverage);
  }

  /** The failed-gate list is empty exactly when the stage is healthy. */
  lemma NoFailedGateExactly(m: Metrics, t: Thresholds)
    ensures FailedGates(m, t) == [] <==> Healthy(m, t)
  {
    BelowCeiling(m.converged, t.convergence * m.exposed as real);
    BelowCeiling(m.reporting, t.freshCoverage * m.exposed as real);
    assert t.convergence * m.exposed as real == m.exposed as real * t.convergence;
    assert t.freshCoverage * m.exposed as real == m.exposed as real * t.freshCoverage;
    var gates := FailedGates(m, t);
    assert gates == [] <==>
      !(m.exposed <= 0 || m.reporting < Ceiling(t.freshCoverage * m.exposed as real))
      && !(m.exposed > 0 && ExceedsRate(m.installFailures, m.exposed, t.installFailurePause))
      && !(m.exposed > 0 && ExceedsRate(m.healthFailures, m.exposed, t.healthFailurePause))
      && !(m.crashFreePercent < t.crashFreePausePercent)
      && !(m.exposed > 0 && m.converged < Ceiling(t.convergence * m.exposed as real))
      && !(m.exposed > 0 && ExceedsRate(m.offline, m.exposed, t.offlineFraction))
      && !(m.exposed > 0 && ExceedsRate(m.rollbackFailures, m.exposed, t.rollbackFailure));
  }

  lemma ScaledRollbackLooser(pause: real, base: real)
    requires 0.0 <= pause <= 1.0
    ensures pause <= MaxR(base, MinR(1.0, pause * 5.0))
  {
  }

  lemma WithinLooser(failures: int, exposed: int, p: real, q: real)
    requires exposed > 0 && 0.0 <= p <= q && Within(failures, exposed, p)
    ensures Within(failures, exposed, q)
  {
    assert p * exposed as real <= q * exposed as real;
  }

  /**
   * A stage that passes has an empty failed-gate list. For a validated policy the empty list means
   * that it passes, exactly when the crash-free pause threshold is at least the fixed 97 percent
   * rollback threshold.
   */
  lemma EmptyFailedGatesMeansPass(g: HealthGates)
    requires Validated(g)
    ensures var t := ThresholdsFromPolicy(g);
      (forall m :: FailedGates(m, t) == [] ==> Evaluate(m, t) == Pass) <==> t.crashFreePausePercent >= 97.0
    ensures forall m, t :: Evaluate(m, t) == Pass ==> FailedGates(m, t) == []
  {
    forall m, t | Evaluate(m, t) == Pass ensures FailedGates(m, t) == [] {
      PassExactly(m, t);
      NoFailedGateExactly(m, t);
    }
    var t := ThresholdsFromPolicy(g);
    ScaledRollbackLooser(t.installFailurePause, DEFAULTS.installFailureRollback);
    ScaledRollbackLooser(t.healthFailurePause, DEFAULTS.healthFailureRollback);
    if t.crashFreePausePercent >= 97.0 {
      forall m | FailedGates(m, t) == [] ensures Evaluate(m, t) == Pass {
        NoFailedGateExactly(m, t);
        WithinLooser(m.installFailures, m.exposed, t.installFailurePause, t.installFailureRollback);
        WithinLooser(m.healthFailures, m.exposed, t.healthFailurePause, t.healthFailureRollback);
        PassExactly(m, t);
      }
    } else {
      var m := Metrics(1, 1, 0, 0, 0, 1, 0, t.crashFreePausePercent);
      NoFailedGateExactly(m, t);
      PassExactly(m, t);
      assert FailedGates(m, t) == [] && Evaluate(m, t) != Pass;
    }
  }

  /** A validated policy whose crash-free gate is 95 percent, and a wave of a hundred devices that did
      everything right but for 96 percent crash-free sessions. */
  lemma EmptyListRollsBack()
    ensures var gates := HealthGates(None, None, Some(95.0), None, None, None, None);
      var (m, t) := (Metrics(100, 100, 0, 0, 0, 100, 0, 96.0), ThresholdsFromPolicy(gates));
      Validated(gates) && FailedGates(m, t) == [] && Evaluate(m, t) == Rollback
  {
    var t := ThresholdsFromPolicy(HealthGates(None, None, Some(95.0), None, None, None, None));
    NoFailedGateExactly(Metrics(100, 100, 0, 0, 0, 100, 0, 96.0), t);
  }

  // ---- every decision, in exact arithmetic ----

  /** More than the given share of the assigned devices; a negative rate switches the gate off. */
  predicate Over(failures: int, exposed: int, rate: real) {
    rate >= 0.0 && failures as real > rate * exposed as real
  }

  /** What calls for a rollback. */
  predicate CallsForRollback(m: Metrics, t: Thresholds) {
    || m.crashFreePercent < t.crashFreeRollbackPercent
    || Over(m.installFailures, m.exposed, t.installFailureRollback)
    || Over(m.healthFailures, m.exposed, t.healthFailureRollback)
    || Over(m.rollbackFailures, m.exposed, t.rollbackFailure)
  }

  /** What calls for a pause. */
  predicate CallsForPause(m: Metrics, t: Thresholds) {
    || m.crashFreePercent < t.crashFreePausePercent
    || Over(m.installFailures, m.exposed, t.installFailurePause)
    || Over(m.healthFailures, m.exposed, t.healthFailurePause)
    || Over(m.offline, m.exposed, t.offlineFraction)
    || m.converged as real < t.convergence * m.exposed as real
  }

  predicate TooFewReport(m: Metrics, t: Thresholds) {
    m.reporting as real < t.freshCoverage * m.exposed as real
  }

  /** Nobody assigned is no evidence; then rollback goes before pause, pause before missing reports, and
      only what is left passes. Abort is never decided. */
  lemma DecisionExactly(m: Metrics, t: Thresholds)
    ensures Evaluate(m, t) == Rollback <==> m.exposed > 0 && CallsForRollback(m, t)
    ensures Evaluate(m, t) == Pause <==> m.exposed > 0 && !CallsForRollback(m, t) && CallsForPause(m, t)
    ensures Evaluate(m, t) == InsufficientEvidence <==>
      m.exposed <= 0 || (!CallsForRollback(m, t) && !CallsForPause(m, t) && TooFewReport(m, t))
    ensures Evaluate(m, t) == Pass <==>
      m.exposed > 0 && !CallsForRollback(m, t) && !CallsForPause(m, t) && !TooFewReport(m, t)
  {
    BelowCeiling(m.converged, m.exposed as real * t.convergence);
    BelowCeiling(m.reporting, m.exposed as real * t.freshCoverage);
    ExceedsExactly(m.installFailures, m.exposed, t.installFailureRollback);
    ExceedsExactly(m.healthFailures, m.exposed, t.healthFailureRollback);
    ExceedsExactly(m.rollbackFailures, m.exposed, t.rollbackFailure);
    ExceedsExactly(m.installFailures, m.exposed, t.installFailurePause);
    ExceedsExactly(m.healthFailures, m.exposed, t.healthFailurePause);
    ExceedsExactly(m.offline, m.exposed, t.offlineFraction);
  }

  // ---- the list of failed gates ----

  /** When a gate counts as failed. */
  predicate GateFails(gate: Gate, m: Metrics, t: Thresholds) {
    match gate
    case FreshDeviceCoverage => m.exposed <= 0 || TooFewReport(m, t)
    case InstallFailureRate => m.exposed > 0 && Over(m.installFailures, m.exposed, t.installFailurePause)
    case HealthFailureRate => m.exposed > 0 && Over(m.healthFailures, m.exposed, t.healthFailurePause)
    case CrashFreeRate => m.crashFreePercent < t.crashFreePausePercent
    case ConvergenceRate => m.exposed > 0 && m.converged as real < t.convergence * m.exposed as real
    case OfflineFraction => m.exposed > 0 && Over(m.offline, m.exposed, t.offlineFraction)
    case RollbackFailureRate => m.exposed > 0 && Over(m.rollbackFailures, m.exposed, t.rollbackFailure)
  }

  function Rank(gate: Gate): nat {
    match gate
    case FreshDeviceCoverage => 0
    case InstallFailureRate => 1
    case HealthFailureRate => 2
    case CrashFreeRate => 3
    case ConvergenceRate => 4
    case OfflineFraction => 5
    case RollbackFailureRate => 6
  }

  lemma FailsExactly(m: Metrics, t: Thresholds)
    ensures GateFails(FreshDeviceCoverage, m, t) <==> m.exposed <= 0 || m.reporting < Ceiling(t.freshCoverage * m.exposed as real)
    ensures GateFails(ConvergenceRate, m, t) <==> m.exposed > 0 && m.converged < Ceiling(t.convergence * m.exposed as real)
    ensures GateFails(InstallFailureRate, m, t) <==> m.exposed > 0 && ExceedsRate(m.installFailures, m.exposed, t.installFailurePause)
    ensures GateFails(HealthFailureRate, m, t) <==> m.exposed > 0 && ExceedsRate(m.healthFailures, m.exposed, t.healthFailurePause)
    ensures GateFails(OfflineFraction, m, t) <==> m.exposed > 0 && ExceedsRate(m.offline, m.exposed, t.offlineFraction)
    ensures GateFails(RollbackFailureRate, m, t) <==> m.exposed > 0 && ExceedsRate(m.rollbackFailures, m.exposed, t.rollbackFailure)
  {
    BelowCeiling(m.reporting, t.freshCoverage * m.exposed as real);
    BelowCeiling(m.converged, t.convergence * m.exposed as real);
    ExceedsExactly(m.installFailures, m.exposed, t.installFailurePause);
    ExceedsExactly(m.healthFailures, m.exposed, t.healthFailurePause);
    ExceedsExactly(m.offline, m.exposed, t.offlineFraction);
    ExceedsExactly(m.rollbackFailures, m.exposed, t.rollbackFailure);
  }

  /** In order of rank, exactly the failing gates of the first ranks. */
  ghost predicate ListsUpTo(gates: seq<Gate>, m: Metrics, t: Thresholds, rank: nat) {
    && (forall i, j :: 0 <= i < j < |gates| ==> Rank(gates[i]) < Rank(gates[j]))
    && (forall gate :: gate in gates <==> Rank(gate) < rank && GateFails(gate, m, t))
  }

  /** Nothing, or the gate alone if it fails. */
  ghost predicate Single(part: seq<Gate>, gate: Gate, m: Metrics, t: Thresholds) {
    |part| == (if GateFails(gate, m, t) then 1 else 0) && forall g :: g in part ==> g == gate
  }

  lemma WhenIsSingle(fails: bool, gate: Gate, m: Metrics, t: Thresholds)
    requires fails == GateFails(gate, m, t)
    ensures Single(When(fails, gate), gate, m, t)
  {
  }

  /** The next gate goes to the end of the list, or not. */
  lemma ListsNext(gates: seq<Gate>, part: seq<Gate>, m: Metrics, t: Thresholds, gate: Gate)
    requires ListsUpTo(gates, m, t, Rank(gate)) && Single(part, gate, m, t)
    ensures ListsUpTo(gates + part, m, t, Rank(gate) + 1)
  {
    var more := gates + part;
    forall g ensures g in more <==> Rank(g) < Rank(gate) + 1 && GateFails(g, m, t) {
      assert g in more <==> g in gates || g in part;
      if Rank(g) == Rank(gate) { SameRank(g, gate); }
      if |part| == 1 { assert part[0] in part; }
    }
    forall i, j | 0 <= i < j < |more| ensures Rank(more[i]) < Rank(more[j]) {
      assert more[i] == gates[i] && gates[i] in gates;
      if j >= |gates| { assert more[j] == part[j - |gates|] && part[j - |gates|] in part; }
    }
  }

  lemma SameRank(a: Gate, b: Gate)
    requires Rank(a) == Rank(b)
    ensures a == b
  {
  }

  lemma ListsAll(a: seq<Gate>, b: seq<Gate>, c: seq<Gate>, d: seq<Gate>, e: seq<Gate>, f: seq<Gate>, g: seq<Gate>, m: Metrics, t: Thresholds)
    requires Single(a, FreshDeviceCoverage, m, t) && Single(b, InstallFailureRate, m, t) && Single(c, HealthFailureRate, m, t)
    requires Single(d, CrashFreeRate, m, t) && Single(e, ConvergenceRate, m, t) && Single(f, OfflineFraction, m, t)
    requires Single(g, RollbackFailureRate, m, t)
    ensures ListsUpTo(a + b + c + d + e + f + g, m, t, 7)
  {
    ListsNext([], a, m, t, FreshDeviceCoverage);
    assert [] + a == a;
    ListsNext(a, b, m, t, InstallFailureRate);
    ListsNext(a + b, c, m, t, HealthFailureRate);
    ListsNext(a + b + c, d, m, t, CrashFreeRate);
    ListsNext(a + b + c + d, e, m, t, ConvergenceRate);
    ListsNext(a + b + c + d + e, f, m, t, OfflineFraction);
    ListsNext(a + b + c + d + e + f, g, m, t, RollbackFailureRate);
  }

  lemma FailedGatesListed(m: Metrics, t: Thresholds)
    ensures ListsUpTo(FailedGates(m, t), m, t, 7)
  {
    FailsExactly(m, t);
    var unheard := m.exposed <= 0 || m.reporting < Ceiling(t.freshCoverage * m.exposed as real);
    var install := m.exposed > 0 && ExceedsRate(m.installFailures, m.exposed, t.installFailurePause);
    var health := m.exposed > 0 && ExceedsRate(m.healthFailures, m.exposed, t.healthFailurePause);
    var crash := m.crashFreePercent < t.crashFreePausePercent;
    var convergence := m.exposed > 0 && m.converged < Ceiling(t.convergence * m.exposed as real);
    var offline := m.exposed > 0 && ExceedsRate(m.offline, m.exposed, t.offlineFraction);
    var rollback := m.exposed > 0 && ExceedsRate(m.rollbackFailures, m.exposed, t.rollbackFailure);
    WhenIsSingle(unheard, FreshDeviceCoverage, m, t);
    WhenIsSingle(install, InstallFailureRate, m, t);
    WhenIsSingle(health, HealthFailureRate, m, t);
    WhenIsSingle(crash, CrashFreeRate, m, t);
    WhenIsSingle(convergence, ConvergenceRate, m, t);
    WhenIsSingle(offline, OfflineFraction, m, t);
    WhenIsSingle(rollback, RollbackFailureRate, m, t);
    ListsAll(When(unheard, FreshDeviceCoverage), When(install, InstallFailureRate), When(health, HealthFailureRate),
             When(crash, CrashFreeRate), When(convergence, ConvergenceRate), When(offline, OfflineFraction),
             When(rollback, RollbackFailureRate), m, t);
  }

  /** The list names exactly the gates that fail, each once, in a fixed order. */
  lemma FailedGatesExactly(m: Metrics, t: Thresholds)
    ensures forall gate :: gate in FailedGates(m, t) <==> GateFails(gate, m, t)
    ensures var gates := FailedGates(m, t); forall i, j :: 0 <= i < j < |gates| ==> Rank(gates[i]) < Rank(gates[j])
  {
    FailedGatesListed(m, t);
    ListsEvery(FailedGates(m, t), m, t);
  }

  lemma ListsEvery(gates: seq<Gate>, m: Metrics, t: Thresholds)
    requires ListsUpTo(gates, m, t, 7)
    ensures forall gate :: gate in gates <==> GateFails(gate, m, t)
    ensures forall i, j :: 0 <= i < j < |gates| ==> Rank(gates[i]) < Rank(gates[j])
  {
    forall gate ensures Rank(gate) < 7 { }
  }

  // ---- what a policy's numbers come to ----

  /** A share given as a fraction or as a percentage, or not at all. */
  predicate ShareOf(gate: Option<real>, fallback: real, share: real) {
    match gate
    case None => share == fallback
    case Some(v) => (v <= 1.0 ==> share == v) && (v > 1.0 ==> 100.0 * share == v)
  }

  /** Five times the pause threshold, but at least the default and at most everybody. */
  predicate FiveTimes(pause: real, least: real, rollback: real) {
    && rollback >= least && (5.0 * pause >= 1.0 ==> rollback == 1.0)
    && (5.0 * pause <= least ==> rollback == least) && (least <= 5.0 * pause <= 1.0 ==> rollback == 5.0 * pause)
  }

  lemma PolicyThresholds(g: HealthGates)
    requires Validated(g)
    ensures var t := ThresholdsFromPolicy(g);
      && ShareOf(g.freshDeviceCoverage, 0.80, t.freshCoverage) && ShareOf(g.convergenceRate, 0.98, t.convergence)
      && ShareOf(g.offlineFraction, 0.20, t.offlineFraction) && ShareOf(g.rollbackFailureRate, 0.05, t.rollbackFailure)
      && ShareOf(g.installFailureRate, 0.01, t.installFailurePause) && ShareOf(g.healthFailureRate, 0.02, t.healthFailurePause)
      && FiveTimes(t.installFailurePause, 0.05, t.installFailureRollback)
      && FiveTimes(t.healthFailurePause, 0.10, t.healthFailureRollback)
      && t.crashFreeRollbackPercent == 97.0
      && (match g.crashFreeRate
          case None => t.crashFreePausePercent == 99.5
          case Some(v) => t.crashFreePausePercent == if v <= 1.0 then 100.0 * v else v)
  {
  }

  function Severity(d: Decision): nat {
    match d case Pass => 0 case InsufficientEvidence => 1 case Pause => 2 case Abort => 3 case Rollback => 3
  }

  /** `worse` has the same assignment with no better figure anywhere. */
  predicate NoBetter(worse: Metrics, m: Metrics) {
    && worse.exposed == m.exposed && worse.reporting <= m.reporting && worse.converged <= m.converged
    && worse.installFailures >= m.installFailures && worse.healthFailures >= m.healthFailures
    && worse.rollbackFailures >= m.rollbackFailures && worse.offline >= m.offline
    && worse.crashFreePercent <= m.crashFreePercent
  }

  lemma SeverityMonotone(m: Metrics, worse: Metrics, t: Thresholds)
    requires NoBetter(worse, m)
    ensures Severity(Evaluate(m, t)) <= Severity(Evaluate(worse, t))
  {
  }

  function Scale(m: Metrics, k: int): Metrics {
    Metrics(m.exposed * k, m.reporting * k, m.installFailures * k, m.healthFailures * k,
            m.rollbackFailures * k, m.converged * k, m.offline * k, m.crashFreePercent)
  }

  lemma ScaleCompare(count: int, whole: int, rate: real, k: int)
    requires k >= 1
    ensures ExceedsRate(count * k, whole * k, rate) <==> ExceedsRate(count, whole, rate)
    ensures count * k < Ceiling((whole * k) as real * rate) <==> count < Ceiling(whole as real * rate)
  {
    ExceedsExactly(count, whole, rate);
    ExceedsExactly(count * k, whole * k, rate);
    BelowCeiling(count, whole as real * rate);
    BelowCeiling(count * k, (whole * k) as real * rate);
    var gap := count as real - whole as real * rate;
    assert (count * k) as real == count as real * k as real && (whole * k) as real == whole as real * k as real;
    assert (count * k) as real - (whole * k) as real * rate == k as real * gap;
    assert gap > 0.0 <==> k as real * gap > 0.0;
    assert gap < 0.0 <==> k as real * gap < 0.0;
    assert whole * k > 0 <==> whole > 0;
    assert rate * (whole * k) as real == (whole * k) as real * rate && rate * whole as real == whole as real * rate;
  }

  /** The decision depends on proportions, not on the size of the wave. */
  lemma ScaleInvariant(m: Metrics, t: Thresholds, k: int)
    requires k >= 1
    ensures Evaluate(Scale(m, k), t) == Evaluate(m, t)
  {
    ScaleCompare(m.installFailures, m.exposed, t.installFailureRollback, k);
    ScaleCompare(m.healthFailures, m.exposed, t.healthFailureRollback, k);
    ScaleCompare(m.rollbackFailures, m.exposed, t.rollbackFailure, k);
    ScaleCompare(m.installFailures, m.exposed, t.installFailurePause, k);
    ScaleCompare(m.healthFailures, m.exposed, t.healthFailurePause, k);
    ScaleCompare(m.offline, m.exposed, t.offlineFraction, k);
    ScaleCompare(m.converged, m.exposed, t.convergence, k);
    ScaleCompare(m.reporting, m.exposed, t.freshCoverage, k);
    assert m.exposed * k > 0 <==> m.exposed > 0;
  }
}
