/** The order of a plan's members and which of them each stage takes, without the planner's own notions. */
module CohortOrder {
  import opened Wrappers
  import opened Ordering
  import opened Apportionment
  import opened CohortPlanner
  import opened CohortProperties
  import opened CohortAgreement

  /** Hardware and architecture first, then the keyed hash, then the stable key. */
  predicate Precedes(a: Member, b: Member) {
    var (p, q) := (Kind(a.device), Kind(b.device));
    if p != q then Below(p, q)
    else if a.cohortHash != b.cohortHash then Below(a.cohortHash, b.cohortHash)
    else Below(a.device.stableKey, b.device.stableKey)
  }

  /** Hardware model and architecture, joined by a unit separator. */
  function Kind(d: Device): string { d.hardwareModel + [31 as char] + d.architecture }

  // ---- who sits where ----

  lemma {:induction false} StratumFits(hmac: Keyed, releaseId: string, salt: string, devices: seq<Device>, key: string, c: Candidate)
    requires c in Stratum(hmac, releaseId, salt, devices, key)
    ensures Kind(c.device) == key && c.cohortHash == hmac(salt, releaseId + c.device.stableKey)
  {
    var n := |devices| - 1;
    if c in Stratum(hmac, releaseId, salt, devices[..n], key) {
      StratumFits(hmac, releaseId, salt, devices[..n], key, c);
    }
  }

  /** The candidates of one kind, in order. */
  ghost predicate Arranged(hmac: Keyed, releaseId: string, salt: string, stratum: seq<Candidate>, key: string) {
    && Ascending(Earlier, stratum)
    && forall i :: 0 <= i < |stratum| ==>
         Kind(stratum[i].device) == key && stratum[i].cohortHash == hmac(salt, releaseId + stratum[i].device.stableKey)
  }

  lemma {:induction false} StratumArranged(hmac: Keyed, releaseId: string, salt: string, devices: seq<Device>, key: string)
    requires DistinctKeys(devices)
    ensures Arranged(hmac, releaseId, salt, Sort(Earlier, Stratum(hmac, releaseId, salt, devices, key)), key)
  {
    var s := Stratum(hmac, releaseId, salt, devices, key);
    var sorted := Sort(Earlier, s);
    StratumKeysDistinct(hmac, releaseId, salt, devices, key);
    var dom := set c | c in s;
    EarlierLinear(s, dom);
    assert Distinct(s);
    SortAscends(Earlier, s, dom);
    SortKeeps(Earlier, s);
    forall i | 0 <= i < |sorted|
      ensures Kind(sorted[i].device) == key && sorted[i].cohortHash == hmac(salt, releaseId + sorted[i].device.stableKey)
    {
      assert sorted[i] in multiset(sorted) && sorted[i] in s;
      StratumFits(hmac, releaseId, salt, devices, key, sorted[i]);
    }
  }

  /** Strata of ascending kinds, each arranged. */
  ghost predicate WellArranged(hmac: Keyed, releaseId: string, salt: string, strata: seq<seq<Candidate>>, keys: seq<string>) {
    && |strata| == |keys| && Ascending(Below, keys)
    && forall k :: 0 <= k < |keys| ==> Arranged(hmac, releaseId, salt, strata[k], keys[k])
  }

  lemma {:induction false} StrataArranged(hmac: Keyed, releaseId: string, salt: string, devices: seq<Device>)
    requires DistinctKeys(devices)
    ensures WellArranged(hmac, releaseId, salt, Strata(hmac, releaseId, salt, devices, StrataKeys(devices)), StrataKeys(devices))
  {
    var keys := StrataKeys(devices);
    KeysAscend(devices);
    forall k | 0 <= k < |keys|
      ensures Arranged(hmac, releaseId, salt, Strata(hmac, releaseId, salt, devices, keys)[k], keys[k])
    {
      StratumArranged(hmac, releaseId, salt, devices, keys[k]);
    }
  }

  /** The place of an ordinal, and who sits there. */
  lemma {:induction false} SeatOf(strata: seq<seq<Candidate>>, rows: seq<seq<int>>, o: nat) returns (k: nat, i: nat)
    requires forall j :: 0 <= j < |rows| ==> |strata| <= |rows[j]|
    requires o < |Seating(strata, rows, |strata|)|
    ensures k < |strata| && i < |strata[k]| && Before(strata, k) >= 0 && o == Before(strata, k) + i
    ensures Seating(strata, rows, |strata|)[o] == Seat(strata[k][i], rows, k, i, Before(strata, k))
  {
    SeatingOrdinals(strata, rows, |strata|);
    k, i := PlaceOf(strata, |strata|, o);
    BeforeGrows(strata, k, k);
    SeatAt(strata, rows, |strata|, k, i);
  }

  // ---- the order ----

  lemma PlacesOrdered(hmac: Keyed, releaseId: string, salt: string, strata: seq<seq<Candidate>>, keys: seq<string>, k: nat, i: nat, l: nat, j: nat)
    requires WellArranged(hmac, releaseId, salt, strata, keys)
    requires k < |strata| && i < |strata[k]| && l < |strata| && j < |strata[l]| && Before(strata, k) + i < Before(strata, l) + j
    ensures k < l || (k == l && i < j)
  {
    if l < k {
      BeforeNext(strata, l);
      BeforeGrows(strata, l + 1, k);
    }
  }

  /** Whoever has the smaller ordinal precedes, and every member carries the keyed hash of release and stable key. */
  lemma {:induction false} PlanIsOrdered(hmac: Keyed, releaseId: string, salt: string, devices: seq<Device>, percents: seq<int>, a: nat, b: nat)
    requires DistinctKeys(devices) && forall j :: 0 <= j < |percents| ==> 0 <= percents[j]
    requires a < b < |PlannedMembers(hmac, releaseId, salt, devices, percents)|
    ensures var members := PlannedMembers(hmac, releaseId, salt, devices, percents);
      && Precedes(members[a], members[b])
      && members[a].cohortHash == hmac(salt, releaseId + members[a].device.stableKey)
      && members[b].cohortHash == hmac(salt, releaseId + members[b].device.stableKey)
  {
    var keys := StrataKeys(devices);
    var strata := Strata(hmac, releaseId, salt, devices, keys);
    LengthsNonNegative(strata);
    var rows := Rows(Lengths(strata), percents);
    StrataArranged(hmac, releaseId, salt, devices);
    var k, i := SeatOf(strata, rows, a);
    var l, j := SeatOf(strata, rows, b);
    PlacesOrdered(hmac, releaseId, salt, strata, keys, k, i, l, j);
    assert Arranged(hmac, releaseId, salt, strata[k], keys[k]) && Arranged(hmac, releaseId, salt, strata[l], keys[l]);
    if k < l {
      assert Below(keys[k], keys[l]);
      BelowTrichotomy(keys[k], keys[l]);
    } else {
      assert Earlier(strata[k][i], strata[k][j]);
    }
  }

  // ---- the stages ----

  /** The members of one kind are those of the ordinals from `first` on, `size` of them. */
  ghost predicate Run(members: seq<Member>, kind: string, first: int, size: int) {
    forall o :: 0 <= o < |members| ==> (Kind(members[o].device) == kind <==> first <= o < first + size)
  }

  lemma {:induction false} RunOf(hmac: Keyed, releaseId: string, salt: string, strata: seq<seq<Candidate>>, keys: seq<string>, rows: seq<seq<int>>, k: nat)
    requires WellArranged(hmac, releaseId, salt, strata, keys) && k < |strata|
    requires forall j :: 0 <= j < |rows| ==> |strata| <= |rows[j]|
    ensures Run(Seating(strata, rows, |strata|), keys[k], Before(strata, k), |strata[k]|)
  {
    var members := Seating(strata, rows, |strata|);
    forall o | 0 <= o < |members|
      ensures Kind(members[o].device) == keys[k] <==> Before(strata, k) <= o < Before(strata, k) + |strata[k]|
    {
      var l, i := SeatOf(strata, rows, o);
      assert Arranged(hmac, releaseId, salt, strata[l], keys[l]);
      BeforeNext(strata, k);
      BeforeNext(strata, l);
      if l < k {
        BelowTrichotomy(keys[l], keys[k]);
        BeforeGrows(strata, l + 1, k);
      } else if k < l {
        BelowTrichotomy(keys[k], keys[l]);
        BeforeGrows(strata, k + 1, l);
      }
    }
  }

  /** By any stage a stratum's run has given its first seats, as many as the stage's row allots it. */
  lemma {:induction false} SeatingTakesFirst(hmac: Keyed, releaseId: string, salt: string, strata: seq<seq<Candidate>>, keys: seq<string>,
                                             rows: seq<seq<int>>, stage: nat, o: nat) returns (k: nat)
    requires WellArranged(hmac, releaseId, salt, strata, keys) && Monotone(rows, Lengths(strata)) && stage < |rows|
    requires o < |Seating(strata, rows, |strata|)|
    ensures k < |strata| && Kind(Seating(strata, rows, |strata|)[o].device) == keys[k]
    ensures Run(Seating(strata, rows, |strata|), keys[k], Before(strata, k), |strata[k]|)
    ensures Seating(strata, rows, |strata|)[o].stage <= stage + 1 <==> o < Before(strata, k) + rows[stage][k]
  {
    var i;
    k, i := SeatOf(strata, rows, o);
    RunOf(hmac, releaseId, salt, strata, keys, rows, k);
    SeatStage(strata, rows, k, i, Before(strata, k), stage);
    assert Arranged(hmac, releaseId, salt, strata[k], keys[k]);
  }

  /** Every kind has a run of ordinals, as many as it has devices; by any stage exactly its first ones are
      taken, as many as the stage's row allots it. */
  lemma {:induction false} StageTakesFirst(hmac: Keyed, releaseId: string, salt: string, devices: seq<Device>, percents: seq<int>, stage: nat, o: nat)
    returns (k: nat, first: int)
    requires DistinctKeys(devices) && devices != [] && ValidPercents(percents) && stage < |percents| && o < |devices|
    ensures Sum(StratumSizes(devices)) >= 1 && k < |StrataKeys(devices)| == |Row(StratumSizes(devices), percents, stage)|
    ensures var members := PlannedMembers(hmac, releaseId, salt, devices, percents);
      && o < |members| && Kind(members[o].device) == StrataKeys(devices)[k]
      && Run(members, StrataKeys(devices)[k], first, StratumSizes(devices)[k])
      && (members[o].stage <= stage + 1 <==> o < first + Row(StratumSizes(devices), percents, stage)[k])
  {
    var keys := StrataKeys(devices);
    var strata := Strata(hmac, releaseId, salt, devices, keys);
    PlanIsPartition(hmac, releaseId, salt, devices, percents);
    StrataUsable(hmac, releaseId, salt, devices);
    StrataArranged(hmac, releaseId, salt, devices);
    SizesAreLengths(hmac, releaseId, salt, devices);
    RowsMonotone(Lengths(strata), percents);
    k := SeatingTakesFirst(hmac, releaseId, salt, strata, keys, Rows(Lengths(strata), percents), stage, o);
    first := Before(strata, k);
  }
}
