/**
 * Deterministic cohort planning: devices are grouped into strata by hardware and
 * architecture, ordered inside each stratum by a keyed hash, and exposed in
 * cumulative stages. The keyed hash and the final digest are uninterpreted.
 */
module CohortPlanner {
  import opened Wrappers
  import opened Ordering
  import opened Apportionment

  datatype Device = Device(
    id: string, stableKey: string, hardwareModel: string, architecture: string,
    labels: string, observedArtifactDigest: string, observedGeneration: int)

  /** A device with its keyed hash, before it has a place in the plan. */
  datatype Candidate = Candidate(device: Device, cohortHash: string)

  datatype Member = Member(device: Device, cohortHash: string, ordinal: nat, stage: nat)

  datatype Plan = Plan(members: seq<Member>, digest: string)

  type Keyed = (string, string) -> string

  function StratumKey(d: Device): string {
    d.hardwareModel + "\U{001F}" + d.architecture
  }

  /** Hash first, stable key second. */
  predicate Earlier(a: Candidate, b: Candidate) {
    if a.cohortHash == b.cohortHash then Below(a.device.stableKey, b.device.stableKey)
    else Below(a.cohortHash, b.cohortHash)
  }

  function Enrol(hmac: Keyed, releaseId: string, salt: string, d: Device): Candidate {
    Candidate(d, hmac(salt, releaseId + d.stableKey))
  }

  // ---- specification: what the plan is ----

  /** The ordered keys of the strata, as a sorted map would list them. */
  function StrataKeys(devices: seq<Device>): seq<string> {
    if devices == [] then []
    else
      var keys := StrataKeys(devices[..|devices| - 1]);
      var key := StratumKey(devices[|devices| - 1]);
      if key in keys then keys else Insert(Below, key, keys)
  }

  function Stratum(hmac: Keyed, releaseId: string, salt: string, devices: seq<Device>, key: string): seq<Candidate> {
    if devices == [] then []
    else
      var d := devices[|devices| - 1];
      var rest := Stratum(hmac, releaseId, salt, devices[..|devices| - 1], key);
      if StratumKey(d) == key then rest + [Enrol(hmac, releaseId, salt, d)] else rest
  }

  function Strata(hmac: Keyed, releaseId: string, salt: string, devices: seq<Device>, keys: seq<string>): (r: seq<seq<Candidate>>)
    ensures |r| == |keys|
  {
    seq(|keys|, k requires 0 <= k < |keys| => Sort(Earlier, Stratum(hmac, releaseId, salt, devices, keys[k])))
  }

  function Lengths(strata: seq<seq<Candidate>>): (r: seq<int>)
    ensures |r| == |strata|
  {
    seq(|strata|, k requires 0 <= k < |strata| => |strata[k]|)
  }

  function Rows(counts: seq<int>, percents: seq<int>): (r: seq<seq<int>>)
    requires Sum(counts) >= 0 && forall j :: 0 <= j < |percents| ==> 0 <= percents[j]
    ensures |r| == |percents|
  {
    seq(|percents|, j requires 0 <= j < |percents| => Row(counts, percents, j))
  }

  /** The first stage whose allocation reaches past `index`, counted from 1. */
  function StageOf(rows: seq<seq<int>>, stratum: nat, index: nat, from: nat): (stage: nat)
    requires from <= |rows| && forall j :: 0 <= j < |rows| ==> stratum < |rows[j]|
    ensures stage <= |rows|
    decreases |rows| - from
  {
    if from == |rows| then |rows|
    else if index < rows[from][stratum] then from + 1
    else StageOf(rows, stratum, index, from + 1)
  }

  function Seat(c: Candidate, rows: seq<seq<int>>, stratum: nat, index: nat, offset: nat): Member
    requires forall j :: 0 <= j < |rows| ==> stratum < |rows[j]|
  {
    Member(c.device, c.cohortHash, offset + index, StageOf(rows, stratum, index, 0))
  }

  /** The members of the first `upto` strata, one stratum after the other. */
  function Seating(strata: seq<seq<Candidate>>, rows: seq<seq<int>>, upto: nat): (r: seq<Member>)
    requires upto <= |strata| && forall j :: 0 <= j < |rows| ==> |strata| <= |rows[j]|
  {
    if upto == 0 then []
    else
      var before := Seating(strata, rows, upto - 1);
      before + seq(|strata[upto - 1]|, i requires 0 <= i < |strata[upto - 1]| => Seat(strata[upto - 1][i], rows, upto - 1, i, |before|))
  }

  function PlannedMembers(hmac: Keyed, releaseId: string, salt: string, devices: seq<Device>, percents: seq<int>): seq<Member>
    requires forall j :: 0 <= j < |percents| ==> 0 <= percents[j]
  {
    var strata := Strata(hmac, releaseId, salt, devices, StrataKeys(devices));
    LengthsNonNegative(strata);
    Seating(strata, Rows(Lengths(strata), percents), |strata|)
  }

  lemma {:induction false} LengthsNonNegative(strata: seq<seq<Candidate>>)
    ensures Sum(Lengths(strata)) >= 0
  {
    if strata != [] {
      var n := |strata| - 1;
      LengthsNonNegative(strata[..n]);
      assert Lengths(strata)[..n] == Lengths(strata[..n]);
    }
  }

  // ---- the planner itself ----

  /** One stage's floors, carried forward, and their remainders. */
  method Carry(prev: seq<int>, counts: seq<int>, percent: int) returns (row: seq<int>, remainders: seq<int>)
    requires |prev| == |counts|
    ensures row == Carried(prev, counts, percent) && remainders == Remainders(counts, percent)
  {
    row, remainders := [], [];
    for stratum := 0 to |counts|
      invariant |row| == |remainders| == stratum
      invariant row == Carried(prev, counts, percent)[..stratum]
      invariant remainders == Remainders(counts, percent)[..stratum]
    {
      var numerator := counts[stratum] * percent;
      var base := numerator / 100;
      remainders := remainders + [numerator % 100];
      row := row + [Max(prev[stratum], base)];
    }
  }

  /** The largest-remainder scan: full strata are skipped, ties go to the smaller key. */
  method Scan(keys: seq<string>, row: seq<int>, counts: seq<int>, remainders: seq<int>) returns (selected: nat)
    requires |keys| == |row| == |counts| == |remainders| && Ascending(Below, keys)
    ensures selected == Leader(row, counts, remainders, |row|)
  {
    selected := |keys|;
    for stratum := 0 to |keys|
      invariant selected == Leader(row, counts, remainders, stratum)
    {
      if row[stratum] >= counts[stratum] { continue; }
      if selected < |keys| {
        assert Below(keys[selected], keys[stratum]);
        BelowTrichotomy(keys[selected], keys[stratum]);
      }
      if selected == |keys| || remainders[stratum] > remainders[selected]
         || (remainders[stratum] == remainders[selected] && Below(keys[stratum], keys[selected])) {
        selected := stratum;
      }
    }
  }

  /** Hands single devices to the leading stratum until the stage reaches its target. */
  method Fill(keys: seq<string>, start: seq<int>, counts: seq<int>, shares: seq<int>, target: int) returns (row: seq<int>)
    requires |keys| == |start| == |counts| == |shares| && Ascending(Below, keys)
    requires target <= Sum(counts) && forall i :: 0 <= i < |start| ==> start[i] <= counts[i]
    ensures row == TopUp(start, counts, shares, target)
  {
    row := start;
    var remainders, placed := shares, Sum(start);
    while placed < target
      invariant |row| == |remainders| == |counts| && placed == Sum(row)
      invariant forall i :: 0 <= i < |row| ==> row[i] <= counts[i]
      invariant TopUp(row, counts, remainders, target) == TopUp(start, counts, shares, target)
      decreases target - placed
    {
      var selected := Scan(keys, row, counts, remainders);
      // Some stratum still has room, so the scan never comes up empty.
      ghost var slack := SomeSlack(row, counts);
      assert selected < |row|;
      if selected == |keys| { break; }
      SumUpdate(row, selected, row[selected] + 1);
      row := row[selected := row[selected] + 1];
      remainders := remainders[selected := 0];
      placed := placed + 1;
    }
  }

  /** The rows of the first stages, as the specification gives them. */
  ghost predicate Planned(rows: seq<seq<int>>, counts: seq<int>, percents: seq<int>) {
    && Sizes(counts) && counts != [] && ValidPercents(percents) && 1 <= Sum(counts) && |rows| <= |percents|
    && forall j :: 0 <= j < |rows| ==> rows[j] == Row(counts, percents, j)
  }

  function Latest(rows: seq<seq<int>>, width: nat): (r: seq<int>) {
    if rows == [] then seq(width, _ => 0) else rows[|rows| - 1]
  }

  lemma {:induction false} LatestIsRow(rows: seq<seq<int>>, counts: seq<int>, percents: seq<int>)
    requires Planned(rows, counts, percents)
    ensures Latest(rows, |counts|) == Row(counts, percents, |rows| - 1)
  {
  }

  lemma {:induction false} PlannedGrows(rows: seq<seq<int>>, row: seq<int>, counts: seq<int>, percents: seq<int>)
    requires Planned(rows, counts, percents) && |rows| < |percents| && row == Row(counts, percents, |rows|)
    ensures Planned(rows + [row], counts, percents)
  {
  }

  lemma PlannedReady(rows: seq<seq<int>>, counts: seq<int>, percents: seq<int>)
    requires Planned(rows, counts, percents) && |rows| < |percents|
    ensures StageReady(Latest(rows, |counts|), counts) && 1 <= percents[|rows|] <= 100
    ensures Planned(rows + [StageRow(Latest(rows, |counts|), counts, percents[|rows|])], counts, percents)
  {
    var row := Row(counts, percents, |rows|);
    EveryRowFits(counts, percents, |rows| - 1);
    LatestIsRow(rows, counts, percents);
    assert row == StageRow(Latest(rows, |counts|), counts, percents[|rows|]);
    PlannedGrows(rows, row, counts, percents);
  }

  /** A previous allocation that overflows no stratum. */
  ghost predicate StageReady(prev: seq<int>, counts: seq<int>) {
    |prev| == |counts| && forall i :: 0 <= i < |prev| ==> prev[i] <= counts[i]
  }

  method PlanStage(keys: seq<string>, prev: seq<int>, counts: seq<int>, percent: int) returns (row: seq<int>)
    requires |keys| == |counts| && Ascending(Below, keys) && Sizes(counts) && StageReady(prev, counts)
    requires 1 <= Sum(counts) && 1 <= percent <= 100
    ensures row == StageRow(prev, counts, percent)
  {
    var start, remainders := Carry(prev, counts, percent);
    TargetBound(Sum(counts), percent);
    forall i | 0 <= i < |start| ensures start[i] <= counts[i] {
      ShareBound(counts[i], percent);
    }
    row := Fill(keys, start, counts, remainders, StageTarget(Sum(counts), percent));
  }

  /** All stages of the apportionment, in the planner's own loops. */
  method Apportion(keys: seq<string>, counts: seq<int>, percents: seq<int>) returns (cumulative: seq<seq<int>>)
    requires |keys| == |counts| && Ascending(Below, keys)
    requires Sizes(counts) && counts != [] && ValidPercents(percents)
    ensures |cumulative| == |percents| && Planned(cumulative, counts, percents)
  {
    SizesTotal(counts);
    cumulative := [];
    for stage := 0 to |percents|
      invariant |cumulative| == stage && Planned(cumulative, counts, percents)
    {
      PlannedReady(cumulative, counts, percents);
      var row := PlanStage(keys, Latest(cumulative, |counts|), counts, percents[stage]);
      cumulative := cumulative + [row];
    }
  }

  method CheckPercents(percents: seq<int>) returns (ok: bool)
    ensures ok <==> ValidPercents(percents)
  {
    if percents == [] || percents[|percents| - 1] != 100 { return false; }
    for i := 0 to |percents|
      invariant forall j :: 0 <= j < i ==> 1 <= percents[j] <= 100
    {
      if percents[i] < 1 || percents[i] > 100 { return false; }
    }
    for i := 1 to |percents|
      invariant forall j, k :: 0 <= j < k < i ==> percents[j] < percents[k]
    {
      if percents[i] <= percents[i - 1] { return false; }
    }
    return true;
  }

  /** Files every device under its stratum, creating strata in key order. */
  method Group(hmac: Keyed, releaseId: string, salt: string, devices: seq<Device>)
    returns (keys: seq<string>, groups: map<string, seq<Candidate>>)
    ensures keys == StrataKeys(devices) && groups.Keys == (set k | k in keys)
    ensures forall k :: k in keys ==> groups[k] == Stratum(hmac, releaseId, salt, devices, k)
  {
    keys, groups := [], map[];
    for i := 0 to |devices|
      invariant keys == StrataKeys(devices[..i]) && groups.Keys == (set k | k in keys)
      invariant forall k :: k in keys ==> groups[k] == Stratum(hmac, releaseId, salt, devices[..i], k)
    {
      var key := StratumKey(devices[i]);
      assert devices[..i + 1][..i] == devices[..i];
      if key !in groups {
        InsertMembers(Below, key, keys);
        EmptyStratum(hmac, releaseId, salt, devices[..i], key);
        keys, groups := Insert(Below, key, keys), groups[key := []];
      }
      groups := groups[key := groups[key] + [Enrol(hmac, releaseId, salt, devices[i])]];
    }
    assert devices[..|devices|] == devices;
  }

  lemma {:induction false} KeysCover(devices: seq<Device>, d: Device)
    ensures d in devices ==> StratumKey(d) in StrataKeys(devices)
  {
    if devices != [] {
      var n := |devices| - 1;
      KeysCover(devices[..n], d);
      assert devices == devices[..n] + [devices[n]];
      var keys, key := StrataKeys(devices[..n]), StratumKey(devices[n]);
      InsertMembers(Below, key, keys);
    }
  }

  lemma {:induction false} EmptyStratum(hmac: Keyed, releaseId: string, salt: string, devices: seq<Device>, key: string)
    ensures key !in StrataKeys(devices) ==> Stratum(hmac, releaseId, salt, devices, key) == []
  {
    if devices != [] {
      var n := |devices| - 1;
      EmptyStratum(hmac, releaseId, salt, devices[..n], key);
      KeysCover(devices, devices[n]);
      var keys, last := StrataKeys(devices[..n]), StratumKey(devices[n]);
      InsertMembers(Below, last, keys);
    }
  }

  lemma BelowLinear(dom: set<string>)
    ensures Linear(Below, dom)
  {
    forall x, y ensures (Below(x, y) ==> !Below(y, x)) && (x != y ==> Below(x, y) || Below(y, x)) {
      BelowTrichotomy(x, y);
    }
    forall x, y, z | Below(x, y) && Below(y, z) ensures Below(x, z) {
      BelowTransitive(x, y, z);
    }
  }

  lemma {:induction false} KeysAscend(devices: seq<Device>)
    ensures Ascending(Below, StrataKeys(devices))
  {
    if devices != [] {
      var n := |devices| - 1;
      KeysAscend(devices[..n]);
      var keys, key := StrataKeys(devices[..n]), StratumKey(devices[n]);
      if key !in keys {
        var dom := (set k | k in keys) + {key};
        BelowLinear(dom);
        InsertAscends(Below, key, keys, dom);
      }
    }
  }

  lemma {:induction false} StrataPopulated(hmac: Keyed, releaseId: string, salt: string, devices: seq<Device>, key: string)
    ensures key in StrataKeys(devices) ==> Stratum(hmac, releaseId, salt, devices, key) != []
  {
    if devices != [] {
      var n := |devices| - 1;
      StrataPopulated(hmac, releaseId, salt, devices[..n], key);
      var keys, last := StrataKeys(devices[..n]), StratumKey(devices[n]);
      InsertMembers(Below, last, keys);
    }
  }

  /** A planned cohort always has populated, ordered strata to apportion over. */
  lemma {:induction false} StrataUsable(hmac: Keyed, releaseId: string, salt: string, devices: seq<Device>)
    requires devices != []
    ensures var keys := StrataKeys(devices);
      && keys != [] && Ascending(Below, keys)
      && Sizes(Lengths(Strata(hmac, releaseId, salt, devices, keys)))
  {
    var keys := StrataKeys(devices);
    KeysAscend(devices);
    KeysCover(devices, devices[0]);
    forall k | 0 <= k < |keys| ensures |Strata(hmac, releaseId, salt, devices, keys)[k]| > 0 {
      StrataPopulated(hmac, releaseId, salt, devices, keys[k]);
      SortKeeps(Earlier, Stratum(hmac, releaseId, salt, devices, keys[k]));
    }
  }

  method FirstStage(rows: seq<seq<int>>, stratum: nat, index: nat) returns (stage: nat)
    requires forall j :: 0 <= j < |rows| ==> stratum < |rows[j]|
    ensures stage == StageOf(rows, stratum, index, 0)
  {
    for j := 0 to |rows|
      invariant StageOf(rows, stratum, index, j) == StageOf(rows, stratum, index, 0)
    {
      if index < rows[j][stratum] { return j + 1; }
    }
    return |rows|;
  }

  /** Numbers the members stratum by stratum and gives each its first stage. */
  method Assign(strata: seq<seq<Candidate>>, rows: seq<seq<int>>) returns (members: seq<Member>)
    requires forall j :: 0 <= j < |rows| ==> |strata| <= |rows[j]|
    ensures members == Seating(strata, rows, |strata|)
  {
    members := [];
    for k := 0 to |strata|
      invariant members == Seating(strata, rows, k)
    {
      ghost var before := members;
      for i := 0 to |strata[k]|
        invariant |members| == |before| + i && members[..|before|] == before
        invariant forall x :: 0 <= x < i ==> members[|before| + x] == Seat(strata[k][x], rows, k, x, |before|)
      {
        var stage := FirstStage(rows, k, i);
        members := members + [Member(strata[k][i].device, strata[k][i].cohortHash, |members|, stage)];
      }
      assert members == Seating(strata, rows, k + 1);
    }
  }

  /** Sorts every stratum, in key order. */
  method Arrange(hmac: Keyed, releaseId: string, salt: string, devices: seq<Device>)
    returns (keys: seq<string>, strata: seq<seq<Candidate>>, counts: seq<int>)
    ensures keys == StrataKeys(devices)
    ensures strata == Strata(hmac, releaseId, salt, devices, keys) && counts == Lengths(strata)
  {
    var groups;
    keys, groups := Group(hmac, releaseId, salt, devices);
    strata, counts := [], [];
    for k := 0 to |keys|
      invariant strata == Strata(hmac, releaseId, salt, devices, keys)[..k] && counts == Lengths(strata)
    {
      strata := strata + [Sort(Earlier, groups[keys[k]])];
      counts := counts + [|strata[k]|];
    }
  }

  lemma PlannedIsRows(rows: seq<seq<int>>, counts: seq<int>, percents: seq<int>)
    requires Planned(rows, counts, percents) && |rows| == |percents|
    ensures rows == Rows(counts, percents)
  {
  }

  method MakePlan(hmac: Keyed, digest: seq<Member> -> string, releaseId: string, salt: string, devices: seq<Device>, percents: seq<int>)
    returns (r: Result<Plan>)
    ensures devices == [] ==> r == Err(Error("EMPTY_COHORT", 422))
    ensures devices != [] && !ValidPercents(percents) ==> r == Err(Error("INVALID_STAGE_PLAN", 422))
    ensures devices != [] && ValidPercents(percents) ==>
      var members := PlannedMembers(hmac, releaseId, salt, devices, percents);
      r == Ok(Plan(members, digest(members)))
  {
    if devices == [] { return Err(Error("EMPTY_COHORT", 422)); }
    var ok := CheckPercents(percents);
    if !ok { return Err(Error("INVALID_STAGE_PLAN", 422)); }
    var keys, strata, counts := Arrange(hmac, releaseId, salt, devices);
    StrataUsable(hmac, releaseId, salt, devices);
    var rows := Apportion(keys, counts, percents);
    PlannedIsRows(rows, counts, percents);
    var members := Assign(strata, rows);
    return Ok(Plan(members, digest(members)));
  }
}
