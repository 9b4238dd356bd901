/** What a cohort plan guarantees, whatever order the devices were listed in. */
module CohortProperties {
  import opened Wrappers
  import opened Ordering
  import opened Apportionment
  import opened CohortPlanner

  ghost predicate DistinctKeys(devices: seq<Device>) {
    forall i, j :: 0 <= i < j < |devices| ==> devices[i].stableKey != devices[j].stableKey
  }

  // ---- input order ----

  function Without<T>(s: seq<T>, i: nat): (r: seq<T>)
    requires i < |s|
    ensures |r| == |s| - 1
  {
    s[..i] + s[i + 1..]
  }

  lemma WithoutElement<T>(s: seq<T>, i: nat)
    requires i < |s|
    ensures multiset(s) == multiset(Without(s, i)) + multiset{s[i]}
  {
    assert s == s[..i] + [s[i]] + s[i + 1..];
  }

  /** Two arrangements of the same elements: drop the last of one and its match in the other. */
  lemma MatchLast<T>(a: seq<T>, b: seq<T>) returns (i: nat)
    requires multiset(a) == multiset(b) && a != []
    ensures i < |b| && b[i] == a[|a| - 1] && multiset(a[..|a| - 1]) == multiset(Without(b, i))
  {
    var n := |a| - 1;
    assert a[n] in multiset(b);
    i :| 0 <= i < |b| && b[i] == a[n];
    assert a == a[..n] + [a[n]];
    WithoutElement(b, i);
    assert multiset(a[..n]) == multiset(a) - multiset{a[n]};
    assert multiset(Without(b, i)) == multiset(b) - multiset{a[n]};
  }

  lemma {:induction false} StratumConcat(hmac: Keyed, releaseId: string, salt: string, a: seq<Device>, b: seq<Device>, key: string)
    ensures Stratum(hmac, releaseId, salt, a + b, key) == Stratum(hmac, releaseId, salt, a, key) + Stratum(hmac, releaseId, salt, b, key)
  {
    if b == [] {
      assert a + b == a;
    } else {
      var n := |b| - 1;
      StratumConcat(hmac, releaseId, salt, a, b[..n], key);
      assert (a + b)[..|a + b| - 1] == a + b[..n];
    }
  }

  lemma {:induction false} StratumWithout(hmac: Keyed, releaseId: string, salt: string, b: seq<Device>, i: nat, key: string)
    requires i < |b|
    ensures multiset(Stratum(hmac, releaseId, salt, b, key))
      == multiset(Stratum(hmac, releaseId, salt, Without(b, i), key)) + multiset(Stratum(hmac, releaseId, salt, [b[i]], key))
  {
    assert b == b[..i] + [b[i]] + b[i + 1..];
    StratumConcat(hmac, releaseId, salt, b[..i] + [b[i]], b[i + 1..], key);
    StratumConcat(hmac, releaseId, salt, b[..i], [b[i]], key);
    StratumConcat(hmac, releaseId, salt, b[..i], b[i + 1..], key);
  }

  /** What a stratum contains depends only on which devices there are. */
  lemma {:induction false} StratumOfSame(hmac: Keyed, releaseId: string, salt: string, a: seq<Device>, b: seq<Device>, key: string)
    requires multiset(a) == multiset(b)
    ensures multiset(Stratum(hmac, releaseId, salt, a, key)) == multiset(Stratum(hmac, releaseId, salt, b, key))
  {
    if a == [] {
      assert |multiset(a)| == |multiset(b)|;
    } else {
      var i := MatchLast(a, b);
      StratumOfSame(hmac, releaseId, salt, a[..|a| - 1], Without(b, i), key);
      StratumWithout(hmac, releaseId, salt, a, |a| - 1, key);
      assert Without(a, |a| - 1) == a[..|a| - 1];
      StratumWithout(hmac, releaseId, salt, b, i, key);
    }
  }

  lemma {:induction false} KeysComeFromDevices(devices: seq<Device>, key: string)
    requires key in StrataKeys(devices)
    ensures exists d :: d in devices && StratumKey(d) == key
  {
    var n := |devices| - 1;
    var keys, last := StrataKeys(devices[..n]), StratumKey(devices[n]);
    InsertMembers(Below, last, keys);
    if key == last {
      assert devices[n] in devices;
    } else {
      KeysComeFromDevices(devices[..n], key);
      var d :| d in devices[..n] && StratumKey(d) == key;
      assert d in devices;
    }
  }

  lemma {:induction false} KeysOfSameMembers(a: seq<Device>, b: seq<Device>, key: string)
    requires multiset(a) == multiset(b) && key in StrataKeys(a)
    ensures key in StrataKeys(b)
  {
    KeysComeFromDevices(a, key);
    var d :| d in a && StratumKey(d) == key;
    assert d in multiset(b);
    KeysCover(b, d);
  }

  lemma {:induction false} KeysOfSame(a: seq<Device>, b: seq<Device>)
    requires multiset(a) == multiset(b)
    ensures StrataKeys(a) == StrataKeys(b)
  {
    var s, t := StrataKeys(a), StrataKeys(b);
    KeysAscend(a);
    KeysAscend(b);
    var dom := set k | k in s;
    BelowLinear(dom + set k | k in t);
    assert Distinct(s) && Distinct(t);
    forall k ensures multiset(s)[k] == multiset(t)[k] {
      DistinctOnce(s, k);
      DistinctOnce(t, k);
      if k in s { KeysOfSameMembers(a, b, k); }
      if k in t { KeysOfSameMembers(b, a, k); }
    }
    BelowLinear(dom);
    AscendingUnique(Below, s, t, dom);
  }

  lemma {:induction false} StratumMember(hmac: Keyed, releaseId: string, salt: string, devices: seq<Device>, key: string, c: Candidate)
    requires c in Stratum(hmac, releaseId, salt, devices, key)
    ensures c.device in devices
  {
    var n := |devices| - 1;
    if c in Stratum(hmac, releaseId, salt, devices[..n], key) {
      StratumMember(hmac, releaseId, salt, devices[..n], key, c);
    }
  }

  ghost predicate KeysDiffer(s: seq<Candidate>) {
    forall i, j :: 0 <= i < j < |s| ==> s[i].device.stableKey != s[j].device.stableKey
  }

  lemma {:induction false} StratumKeysDistinct(hmac: Keyed, releaseId: string, salt: string, devices: seq<Device>, key: string)
    requires DistinctKeys(devices)
    ensures KeysDiffer(Stratum(hmac, releaseId, salt, devices, key))
  {
    if devices != [] {
      var n := |devices| - 1;
      StratumKeysDistinct(hmac, releaseId, salt, devices[..n], key);
      var rest := Stratum(hmac, releaseId, salt, devices[..n], key);
      forall i | 0 <= i < |rest| ensures rest[i].device.stableKey != devices[n].stableKey {
        StratumMember(hmac, releaseId, salt, devices[..n], key, rest[i]);
      }
    }
  }

  lemma EarlierLinear(s: seq<Candidate>, dom: set<Candidate>)
    requires KeysDiffer(s) && dom == set c | c in s
    ensures Linear(Earlier, dom)
  {
    forall x, y | x in dom && y in dom
      ensures (Earlier(x, y) ==> !Earlier(y, x)) && (x != y ==> Earlier(x, y) || Earlier(y, x))
    {
      BelowTrichotomy(x.cohortHash, y.cohortHash);
      BelowTrichotomy(x.device.stableKey, y.device.stableKey);
    }
    forall x, y, z | x in dom && y in dom && z in dom && Earlier(x, y) && Earlier(y, z) ensures Earlier(x, z) {
      EarlierTransitive(x, y, z);
    }
  }

  lemma EarlierTransitive(x: Candidate, y: Candidate, z: Candidate)
    requires Earlier(x, y) && Earlier(y, z)
    ensures Earlier(x, z)
  {
    if x.cohortHash == y.cohortHash == z.cohortHash {
      BelowTransitive(x.device.stableKey, y.device.stableKey, z.device.stableKey);
    } else if x.cohortHash != y.cohortHash && y.cohortHash != z.cohortHash {
      BelowTransitive(x.cohortHash, y.cohortHash, z.cohortHash);
      BelowTrichotomy(x.cohortHash, y.cohortHash);
    }
  }

  /**
   * Input-order independence: listing the same devices in any other order yields the same
   * members in the same places with the same ordinals and stages, whatever the keyed hash.
   */
  lemma InputOrderIndependent(hmac: Keyed, releaseId: string, salt: string, a: seq<Device>, b: seq<Device>, percents: seq<int>)
    requires DistinctKeys(a) && DistinctKeys(b) && multiset(a) == multiset(b)
    requires forall j :: 0 <= j < |percents| ==> 0 <= percents[j]
    ensures PlannedMembers(hmac, releaseId, salt, a, percents) == PlannedMembers(hmac, releaseId, salt, b, percents)
  {
    KeysOfSame(a, b);
    var keys := StrataKeys(a);
    forall k | 0 <= k < |keys|
      ensures Strata(hmac, releaseId, salt, a, keys)[k] == Strata(hmac, releaseId, salt, b, keys)[k]
    {
      var s, t := Stratum(hmac, releaseId, salt, a, keys[k]), Stratum(hmac, releaseId, salt, b, keys[k]);
      StratumOfSame(hmac, releaseId, salt, a, b, keys[k]);
      StratumKeysDistinct(hmac, releaseId, salt, a, keys[k]);
      StratumKeysDistinct(hmac, releaseId, salt, b, keys[k]);
      var dom := set c | c in s;
      EarlierLinear(s, dom);
      SortCanonical(Earlier, s, t, dom);
    }
    assert Strata(hmac, releaseId, salt, a, keys) == Strata(hmac, releaseId, salt, b, keys);
  }

  // ---- partition ----

  function DevicesOf(members: seq<Member>): (r: seq<Device>)
    ensures |r| == |members|
  {
    seq(|members|, i requires 0 <= i < |members| => members[i].device)
  }

  function CandidateDevices(cs: seq<Candidate>): (r: seq<Device>)
    ensures |r| == |cs|
  {
    seq(|cs|, i requires 0 <= i < |cs| => cs[i].device)
  }

  /** All devices of the strata together. */
  function Pool(strata: seq<seq<Candidate>>): multiset<Device> {
    if strata == [] then multiset{}
    else Pool(strata[..|strata| - 1]) + multiset(CandidateDevices(strata[|strata| - 1]))
  }

  lemma {:induction false} SeatingPool(strata: seq<seq<Candidate>>, rows: seq<seq<int>>, upto: nat)
    requires upto <= |strata| && forall j :: 0 <= j < |rows| ==> |strata| <= |rows[j]|
    ensures multiset(DevicesOf(Seating(strata, rows, upto))) == Pool(strata[..upto])
  {
    if upto > 0 {
      var n := upto - 1;
      SeatingPool(strata, rows, n);
      SeatedDevices(strata, rows, n);
      PoolNext(strata, n);
    }
  }

  lemma {:induction false} PoolNext(strata: seq<seq<Candidate>>, n: nat)
    requires n < |strata|
    ensures Pool(strata[..n + 1]) == Pool(strata[..n]) + multiset(CandidateDevices(strata[n]))
  {
    PoolSnoc(strata[..n], strata[n]);
    assert strata[..n + 1] == strata[..n] + [strata[n]];
  }

  /** One more stratum seats its candidates' devices in their order. */
  lemma SeatedDevices(strata: seq<seq<Candidate>>, rows: seq<seq<int>>, n: nat)
    requires n < |strata| && forall j :: 0 <= j < |rows| ==> |strata| <= |rows[j]|
    ensures DevicesOf(Seating(strata, rows, n + 1)) == DevicesOf(Seating(strata, rows, n)) + CandidateDevices(strata[n])
  {
    assert |Seating(strata, rows, n + 1)| == |Seating(strata, rows, n)| + |strata[n]|;
  }

  lemma {:induction false} SeatingOrdinals(strata: seq<seq<Candidate>>, rows: seq<seq<int>>, upto: nat)
    requires upto <= |strata| && forall j :: 0 <= j < |rows| ==> |strata| <= |rows[j]|
    ensures |Seating(strata, rows, upto)| == Sum(Lengths(strata)[..upto])
    ensures forall i :: 0 <= i < |Seating(strata, rows, upto)| ==> Seating(strata, rows, upto)[i].ordinal == i
  {
    if upto > 0 {
      SeatingOrdinals(strata, rows, upto - 1);
      assert Lengths(strata)[..upto][..upto - 1] == Lengths(strata)[..upto - 1];
    }
  }

  lemma {:induction false} CandidatesSame(a: seq<Candidate>, b: seq<Candidate>)
    requires multiset(a) == multiset(b)
    ensures multiset(CandidateDevices(a)) == multiset(CandidateDevices(b))
  {
    assert |multiset(a)| == |multiset(b)|;
    if a != [] {
      var n := |a| - 1;
      var i := MatchLast(a, b);
      CandidatesSame(a[..n], Without(b, i));
      assert CandidateDevices(a) == CandidateDevices(a[..n]) + [a[n].device];
      WithoutElement(CandidateDevices(b), i);
      assert Without(CandidateDevices(b), i) == CandidateDevices(Without(b, i));
    }
  }

  /** The unsorted strata. */
  function Piles(hmac: Keyed, releaseId: string, salt: string, devices: seq<Device>, keys: seq<string>): (r: seq<seq<Candidate>>)
    ensures |r| == |keys|
  {
    seq(|keys|, k requires 0 <= k < |keys| => Stratum(hmac, releaseId, salt, devices, keys[k]))
  }

  lemma {:induction false} PoolPointwise(a: seq<seq<Candidate>>, b: seq<seq<Candidate>>)
    requires |a| == |b| && forall k :: 0 <= k < |a| ==> multiset(a[k]) == multiset(b[k])
    ensures Pool(a) == Pool(b)
  {
    if a != [] {
      PoolPointwise(a[..|a| - 1], b[..|b| - 1]);
      CandidatesSame(a[|a| - 1], b[|b| - 1]);
    }
  }

  lemma {:induction false} PoolSnoc(strata: seq<seq<Candidate>>, last: seq<Candidate>)
    ensures Pool(strata + [last]) == Pool(strata) + multiset(CandidateDevices(last))
  {
    assert (strata + [last])[..|strata|] == strata;
  }

  lemma {:induction false} PoolGrown(before: seq<seq<Candidate>>, last: seq<Candidate>, c: Candidate)
    ensures Pool(before + [last + [c]]) == Pool(before + [last]) + multiset{c.device}
  {
    PoolSnoc(before, last);
    PoolSnoc(before, last + [c]);
    assert CandidateDevices(last + [c]) == CandidateDevices(last) + [c.device];
  }

  lemma {:induction false} PoolUpdate(strata: seq<seq<Candidate>>, k: nat, c: Candidate)
    requires k < |strata|
    ensures Pool(strata[k := strata[k] + [c]]) == Pool(strata) + multiset{c.device}
  {
    var n := |strata| - 1;
    var before, grown := strata[..n], strata[k] + [c];
    assert strata == before + [strata[n]];
    if k == n {
      assert strata[k := grown] == before + [grown];
      PoolGrown(before, strata[n], c);
    } else {
      PoolUpdate(before, k, c);
      assert strata[k := grown] == before[k := grown] + [strata[n]];
      PoolSnoc(before, strata[n]);
      PoolSnoc(before[k := grown], strata[n]);
    }
  }

  lemma {:induction false} PoolEmpty(strata: seq<seq<Candidate>>)
    requires forall k :: 0 <= k < |strata| ==> strata[k] == []
    ensures Pool(strata) == multiset{}
  {
    if strata != [] {
      PoolEmpty(strata[..|strata| - 1]);
    }
  }

  /** Filing every device under one of the listed keys loses and duplicates nobody. */
  lemma {:induction false} PilesPool(hmac: Keyed, releaseId: string, salt: string, devices: seq<Device>, keys: seq<string>)
    requires Distinct(keys) && forall d :: d in devices ==> StratumKey(d) in keys
    ensures Pool(Piles(hmac, releaseId, salt, devices, keys)) == multiset(devices)
  {
    if devices == [] {
      PoolEmpty(Piles(hmac, releaseId, salt, devices, keys));
    } else {
      var n := |devices| - 1;
      var d := devices[n];
      assert devices == devices[..n] + [d];
      PilesPool(hmac, releaseId, salt, devices[..n], keys);
      var k :| 0 <= k < |keys| && keys[k] == StratumKey(d);
      var piles := Piles(hmac, releaseId, salt, devices[..n], keys);
      var c := Enrol(hmac, releaseId, salt, d);
      PoolUpdate(piles, k, c);
      assert Piles(hmac, releaseId, salt, devices, keys) == piles[k := piles[k] + [c]];
    }
  }

  /** Every device is planned exactly once and ordinals are exactly 0, 1, ..., N-1. */
  lemma PlanIsPartition(hmac: Keyed, releaseId: string, salt: string, devices: seq<Device>, percents: seq<int>)
    requires forall j :: 0 <= j < |percents| ==> 0 <= percents[j]
    ensures var members := PlannedMembers(hmac, releaseId, salt, devices, percents);
      && multiset(DevicesOf(members)) == multiset(devices)
      && |members| == |devices|
      && forall i :: 0 <= i < |members| ==> members[i].ordinal == i
  {
    var keys := StrataKeys(devices);
    var strata := Strata(hmac, releaseId, salt, devices, keys);
    LengthsNonNegative(strata);
    SeatingPool(strata, Rows(Lengths(strata), percents), |strata|);
    SeatingOrdinals(strata, Rows(Lengths(strata), percents), |strata|);
    assert strata[..|strata|] == strata;
    forall k | 0 <= k < |keys| ensures multiset(strata[k]) == multiset(Stratum(hmac, releaseId, salt, devices, keys[k])) {
      SortKeeps(Earlier, Stratum(hmac, releaseId, salt, devices, keys[k]));
    }
    PoolPointwise(strata, Piles(hmac, releaseId, salt, devices, keys));
    KeysDistinct(devices);
    forall d | d in devices ensures StratumKey(d) in keys { KeysCover(devices, d); }
    PilesPool(hmac, releaseId, salt, devices, keys);
    var members := PlannedMembers(hmac, releaseId, salt, devices, percents);
    assert |multiset(DevicesOf(members))| == |multiset(devices)|;
  }

  lemma {:induction false} KeysDistinct(devices: seq<Device>)
    ensures Distinct(StrataKeys(devices))
  {
    var keys := StrataKeys(devices);
    KeysAscend(devices);
    forall i, j | 0 <= i < j < |keys| ensures keys[i] != keys[j] {
      BelowTrichotomy(keys[i], keys[j]);
    }
  }

  // ---- stages against allocations ----

  lemma {:induction false} StageMeansAllocation(rows: seq<seq<int>>, stratum: nat, index: nat, from: nat, stage: nat)
    requires from <= stage < |rows| && forall j :: 0 <= j < |rows| ==> stratum < |rows[j]|
    requires forall i, j :: 0 <= i <= j < |rows| ==> rows[i][stratum] <= rows[j][stratum]
    requires index < rows[|rows| - 1][stratum]
    ensures StageOf(rows, stratum, index, from) <= stage + 1 <==> index < rows[stage][stratum]
    decreases |rows| - from
  {
    if index < rows[from][stratum] {
      assert rows[from][stratum] <= rows[stage][stratum];
    } else if from < stage {
      StageMeansAllocation(rows, stratum, index, from + 1, stage);
    } else {
      StageAfter(rows, stratum, index, from + 1);
    }
  }

  lemma {:induction false} StageAfter(rows: seq<seq<int>>, stratum: nat, index: nat, from: nat)
    requires from <= |rows| && forall j :: 0 <= j < |rows| ==> stratum < |rows[j]|
    requires rows != [] && index < rows[|rows| - 1][stratum]
    requires from == |rows| ==> false
    ensures StageOf(rows, stratum, index, from) > from
    decreases |rows| - from
  {
    if index < rows[from][stratum] {
    } else {
      StageAfter(rows, stratum, index, from + 1);
    }
  }

  /** How many members are exposed by the end of a stage. */
  function Exposed(members: seq<Member>, stage: nat): nat {
    if members == [] then 0
    else Exposed(members[..|members| - 1], stage) + if members[|members| - 1].stage <= stage then 1 else 0
  }

  lemma {:induction false} ExposedConcat(a: seq<Member>, b: seq<Member>, stage: nat)
    ensures Exposed(a + b, stage) == Exposed(a, stage) + Exposed(b, stage)
  {
    if b == [] {
      assert a + b == a;
    } else {
      ExposedConcat(a, b[..|b| - 1], stage);
      assert (a + b)[..|a + b| - 1] == a + b[..|b| - 1];
    }
  }

  /** If exactly the first `cut` members carry a stage up to `stage`, that is how many are exposed. */
  lemma {:induction false} ExposedPrefix(members: seq<Member>, stage: nat, cut: int)
    requires 0 <= cut <= |members|
    requires forall i :: 0 <= i < |members| ==> (members[i].stage <= stage <==> i < cut)
    ensures Exposed(members, stage) == cut
  {
    if members != [] {
      ExposedPrefix(members[..|members| - 1], stage, Min(cut, |members| - 1));
    }
  }

  ghost predicate Ordered(rows: seq<seq<int>>, counts: seq<int>, i: nat, j: nat, k: nat)
    requires forall j :: 0 <= j < |rows| ==> |rows[j]| == |counts|
    requires i < |rows| && j < |rows| && k < |counts|
  {
    0 <= rows[i][k] <= rows[j][k] <= counts[k]
  }

  ghost predicate Monotone(rows: seq<seq<int>>, counts: seq<int>) {
    && rows != [] && (forall j :: 0 <= j < |rows| ==> |rows[j]| == |counts|)
    && (forall i, j, k :: 0 <= i <= j < |rows| && 0 <= k < |counts| ==> Ordered(rows, counts, i, j, k))
    && rows[|rows| - 1] == counts
  }

  lemma {:induction false} RowsOrdered(counts: seq<int>, percents: seq<int>, i: nat, j: nat, k: nat)
    requires Sizes(counts) && counts != [] && ValidPercents(percents)
    requires i <= j < |percents| && k < |counts|
    ensures Sum(counts) >= 1 && Ordered(Rows(counts, percents), counts, i, j, k)
  {
    RowsAscend(counts, percents, i, j, k);
    ApportionmentBound(counts, percents, i);
    ApportionmentBound(counts, percents, j);
  }

  lemma {:induction false} RowsMonotone(counts: seq<int>, percents: seq<int>)
    requires Sizes(counts) && counts != [] && ValidPercents(percents)
    ensures Sum(counts) >= 1 && Monotone(Rows(counts, percents), counts)
  {
    SizesTotal(counts);
    var rows := Rows(counts, percents);
    forall i, j, k | 0 <= i <= j < |rows| && 0 <= k < |counts| ensures Ordered(rows, counts, i, j, k) {
      RowsOrdered(counts, percents, i, j, k);
    }
    LastRowComplete(counts, percents);
  }

  /** Within a stratum, a seat carries a stage up to `stage` exactly when the allocation covers it. */
  lemma SeatStage(strata: seq<seq<Candidate>>, rows: seq<seq<int>>, k: nat, i: nat, offset: nat, stage: nat)
    requires Monotone(rows, Lengths(strata)) && k < |strata| && i < |strata[k]| && stage < |rows|
    ensures Seat(strata[k][i], rows, k, i, offset).stage <= stage + 1 <==> i < rows[stage][k]
  {
    forall a, b | 0 <= a <= b < |rows| ensures rows[a][k] <= rows[b][k] {
      assert Ordered(rows, Lengths(strata), a, b, k);
    }
    StageMeansAllocation(rows, k, i, 0, stage);
  }

  lemma {:induction false} ExposedSeating(strata: seq<seq<Candidate>>, rows: seq<seq<int>>, upto: nat, stage: nat)
    requires Monotone(rows, Lengths(strata)) && upto <= |strata| && stage < |rows|
    ensures Exposed(Seating(strata, rows, upto), stage + 1) == Sum(rows[stage][..upto])
  {
    if upto > 0 {
      var n := upto - 1;
      ExposedSeating(strata, rows, n, stage);
      var before := Seating(strata, rows, n);
      var here := seq(|strata[n]|, i requires 0 <= i < |strata[n]| => Seat(strata[n][i], rows, n, i, |before|));
      forall i | 0 <= i < |here| ensures here[i].stage <= stage + 1 <==> i < rows[stage][n] {
        SeatStage(strata, rows, n, i, |before|, stage);
      }
      assert Ordered(rows, Lengths(strata), stage, stage, n);
      ExposedPrefix(here, stage + 1, rows[stage][n]);
      ExposedConcat(before, here, stage + 1);
      assert rows[stage][..upto][..n] == rows[stage][..n];
    }
  }

  /**
   * The members exposed by the end of a stage are exactly as many as the apportionment
   * allocated, so their number obeys the apportionment bound.
   */
  lemma {:induction false} ExposureBound(hmac: Keyed, releaseId: string, salt: string, devices: seq<Device>, percents: seq<int>, stage: nat)
    requires devices != [] && ValidPercents(percents) && stage < |percents|
    ensures var exposed := Exposed(PlannedMembers(hmac, releaseId, salt, devices, percents), stage + 1);
      && Target(|devices|, percents[stage]) <= exposed
      && exposed <= |devices| * percents[stage] / 100 + |StrataKeys(devices)|
      && (percents[stage] == 100 ==> exposed == |devices|)
  {
    var strata := Strata(hmac, releaseId, salt, devices, StrataKeys(devices));
    StrataUsable(hmac, releaseId, salt, devices);
    PlanIsPartition(hmac, releaseId, salt, devices, percents);
    SeatingExposure(strata, percents, stage);
  }

  /** The seating has one member per device and exposes what the stage's row allocates. */
  lemma SeatingCounts(strata: seq<seq<Candidate>>, percents: seq<int>, stage: nat)
    requires strata != [] && Sizes(Lengths(strata)) && ValidPercents(percents) && stage < |percents|
    ensures Sum(Lengths(strata)) >= 1
    ensures var (counts, rows) := (Lengths(strata), Rows(Lengths(strata), percents));
      var members := Seating(strata, rows, |strata|);
      |members| == Sum(counts) && Exposed(members, stage + 1) == Sum(rows[stage])
  {
    var counts := Lengths(strata);
    RowsMonotone(counts, percents);
    var rows := Rows(counts, percents);
    ExposedSeating(strata, rows, |strata|, stage);
    assert rows[stage][..|strata|] == rows[stage];
    SeatingOrdinals(strata, rows, |strata|);
    assert counts[..|strata|] == counts;
  }

  lemma {:induction false} SeatingExposure(strata: seq<seq<Candidate>>, percents: seq<int>, stage: nat)
    requires strata != [] && Sizes(Lengths(strata)) && ValidPercents(percents) && stage < |percents|
    ensures Sum(Lengths(strata)) >= 1
    ensures var members := Seating(strata, Rows(Lengths(strata), percents), |strata|);
      && Target(|members|, percents[stage]) <= Exposed(members, stage + 1)
      && Exposed(members, stage + 1) <= |members| * percents[stage] / 100 + |strata|
      && (percents[stage] == 100 ==> Exposed(members, stage + 1) == |members|)
  {
    SeatingCounts(strata, percents, stage);
    ApportionmentBound(Lengths(strata), percents, stage);
    LastRowComplete(Lengths(strata), percents);
    HundredIsLast(percents, stage);
  }

  lemma HundredIsLast(percents: seq<int>, stage: nat)
    requires ValidPercents(percents) && stage < |percents|
    ensures percents[stage] == 100 ==> stage == |percents| - 1
  {
  }

  /**
   * With one stratum the planner's waves are the activator's prefixes: a member belongs to
   * a stage or an earlier one exactly when its ordinal is below the activator's target.
   */
  lemma {:induction false} SingleStratumAgreement(hmac: Keyed, releaseId: string, salt: string, devices: seq<Device>, percents: seq<int>, stage: nat, i: nat)
    requires |StrataKeys(devices)| == 1 && ValidPercents(percents) && stage < |percents| && i < |devices|
    ensures var members := PlannedMembers(hmac, releaseId, salt, devices, percents);
      && i < |members|
      && (members[i].stage <= stage + 1 <==> members[i].ordinal < TargetCount(|devices|, percents[stage]))
  {
    var strata := Strata(hmac, releaseId, salt, devices, StrataKeys(devices));
    StrataUsable(hmac, releaseId, salt, devices);
    PlanIsPartition(hmac, releaseId, salt, devices, percents);
    SingleStratumWave(strata, percents, stage, i);
  }

  /** A lone stratum is seated in order and each wave is exactly the activator's target. */
  lemma {:induction false} SingleStratumWave(strata: seq<seq<Candidate>>, percents: seq<int>, stage: nat, i: nat)
    requires |strata| == 1 && Sizes(Lengths(strata)) && ValidPercents(percents) && stage < |percents|
    ensures Sum(Lengths(strata)) >= 1
    ensures var members := Seating(strata, Rows(Lengths(strata), percents), 1);
      && |members| == |strata[0]|
      && (i < |members| ==> (members[i].stage <= stage + 1 <==> i < TargetCount(|members|, percents[stage])))
  {
    var counts := Lengths(strata);
    RowsMonotone(counts, percents);
    var rows := Rows(counts, percents);
    SingleStratumExact(counts, percents, stage);
    LoneTarget(counts[0], percents[stage]);
    LoneSeating(strata, rows, i);
    if i < |strata[0]| {
      SeatStage(strata, rows, 0, i, 0, stage);
    }
  }

  lemma LoneTarget(total: int, percent: int)
    requires 1 <= total && 1 <= percent <= 100
    ensures TargetCount(total, percent) == Target(total, percent)
  {
    TargetBound(total, percent);
  }

  lemma {:induction false} LoneSeating(strata: seq<seq<Candidate>>, rows: seq<seq<int>>, i: nat)
    requires |strata| == 1 && forall j :: 0 <= j < |rows| ==> 1 <= |rows[j]|
    ensures var members := Seating(strata, rows, 1);
      |members| == |strata[0]| && (i < |members| ==> members[i] == Seat(strata[0][i], rows, 0, i, 0))
  {
    assert Seating(strata, rows, 0) == [];
  }
}
