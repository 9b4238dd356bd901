/** Exactly when the planner's stages are the prefixes of ordinals that the activator opens. */
module CohortAgreement {
  import opened Wrappers
  import opened Ordering
  import opened Apportionment
  import opened CohortPlanner
  import opened CohortProperties

  /** Every stratum before k is taken whole, every stratum after k not at all. */
  ghost predicate FullUpTo(row: seq<int>, counts: seq<int>, k: nat)
    requires |row| == |counts|
  {
    && k < |row|
    && (forall s :: 0 <= s < k ==> row[s] == counts[s])
    && (forall s :: k < s < |row| ==> row[s] == 0)
  }

  /** The stage's row fills whole strata in key order, then part of one, and sums to the target. */
  ghost predicate FillsInOrder(row: seq<int>, counts: seq<int>, target: int)
    requires |row| == |counts|
  {
    Sum(row) == target && exists k: nat :: FullUpTo(row, counts, k)
  }

  /** Every member is planned by this stage exactly when its ordinal is below the target. */
  ghost predicate IsPrefix(members: seq<Member>, stage: nat, target: int) {
    forall o :: 0 <= o < |members| ==> (members[o].stage <= stage + 1 <==> members[o].ordinal < target)
  }

  // ---- where a member sits ----

  function Before(strata: seq<seq<Candidate>>, k: nat): int
    requires k <= |strata|
  {
    Sum(Lengths(strata)[..k])
  }

  lemma BeforeNext(strata: seq<seq<Candidate>>, k: nat)
    requires k < |strata|
    ensures Before(strata, k + 1) == Before(strata, k) + |strata[k]|
  {
    assert Lengths(strata)[..k + 1][..k] == Lengths(strata)[..k];
  }

  lemma {:induction false} BeforeGrows(strata: seq<seq<Candidate>>, j: nat, k: nat)
    requires j <= k <= |strata|
    ensures 0 <= Before(strata, j) <= Before(strata, k)
  {
    if j < k {
      BeforeGrows(strata, j, k - 1);
      BeforeNext(strata, k - 1);
    } else if j > 0 {
      BeforeGrows(strata, j - 1, j - 1);
      BeforeNext(strata, j - 1);
    }
  }

  /** The i-th member of stratum k has the ordinals of the strata before it behind it. */
  lemma {:induction false} SeatAt(strata: seq<seq<Candidate>>, rows: seq<seq<int>>, upto: nat, k: nat, i: nat)
    requires k < upto <= |strata| && i < |strata[k]| && forall j :: 0 <= j < |rows| ==> |strata| <= |rows[j]|
    ensures 0 <= Before(strata, k) && Before(strata, k) + i < |Seating(strata, rows, upto)|
    ensures Seating(strata, rows, upto)[Before(strata, k) + i] == Seat(strata[k][i], rows, k, i, Before(strata, k))
  {
    BeforeGrows(strata, k, k);
    SeatingOrdinals(strata, rows, upto - 1);
    if k < upto - 1 { SeatAt(strata, rows, upto - 1, k, i); }
  }

  /** Every ordinal belongs to some place of some stratum. */
  lemma {:induction false} PlaceOf(strata: seq<seq<Candidate>>, upto: nat, o: nat) returns (k: nat, i: nat)
    requires upto <= |strata| && o < Before(strata, upto)
    ensures k < upto && i < |strata[k]| && o == Before(strata, k) + i
  {
    BeforeGrows(strata, upto - 1, upto - 1);
    BeforeNext(strata, upto - 1);
    if o >= Before(strata, upto - 1) {
      k, i := upto - 1, o - Before(strata, upto - 1);
    } else {
      k, i := PlaceOf(strata, upto - 1, o);
    }
  }

  // ---- the shape and the prefix ----

  lemma {:induction false} SumOfShape(row: seq<int>, counts: seq<int>, k: nat)
    requires |row| == |counts| && FullUpTo(row, counts, k)
    ensures Sum(row) == Sum(counts[..k]) + row[k]
  {
    var n := |row| - 1;
    if k < n {
      SumOfShape(row[..n], counts[..n], k);
      assert counts[..n][..k] == counts[..k];
    } else {
      assert row[..n] == counts[..n];
    }
  }

  /** The planned members of one stage, place by place. */
  ghost predicate Placed(strata: seq<seq<Candidate>>, members: seq<Member>, row: seq<int>, stage: nat) {
    && |row| == |strata| && |members| == Before(strata, |strata|)
    && (forall o :: 0 <= o < |members| ==> members[o].ordinal == o)
    && (forall k :: 0 <= k < |strata| ==> 0 <= row[k] <= |strata[k]| && 0 < |strata[k]|)
    && (forall k: nat, i: nat :: k < |strata| && i < |strata[k]| ==> PlacedAt(strata, members, row, stage, k, i))
  }

  ghost predicate PlacedAt(strata: seq<seq<Candidate>>, members: seq<Member>, row: seq<int>, stage: nat, k: nat, i: nat)
    requires k < |strata| && i < |strata[k]| && |row| == |strata|
  {
    0 <= Before(strata, k) + i < |members| && (members[Before(strata, k) + i].stage <= stage + 1 <==> i < row[k])
  }

  lemma {:induction false} ShapeIsPrefix(strata: seq<seq<Candidate>>, members: seq<Member>, row: seq<int>, stage: nat, k: nat)
    requires Placed(strata, members, row, stage) && FullUpTo(row, Lengths(strata), k)
    ensures IsPrefix(members, stage, Sum(row))
  {
    SumOfShape(row, Lengths(strata), k);
    forall o | 0 <= o < |members| ensures members[o].stage <= stage + 1 <==> members[o].ordinal < Sum(row) {
      var s, i := PlaceOf(strata, |strata|, o);
      assert PlacedAt(strata, members, row, stage, s, i);
      if s < k {
        BeforeNext(strata, s);
        BeforeGrows(strata, s + 1, k);
      } else if s > k {
        BeforeNext(strata, k);
        BeforeGrows(strata, k + 1, s);
      }
    }
  }

  /** A prefix that ends inside stratum k takes the earlier strata whole and the later ones not at all. */
  lemma PrefixIsShape(strata: seq<seq<Candidate>>, members: seq<Member>, row: seq<int>, stage: nat, target: int) returns (k: nat)
    requires Placed(strata, members, row, stage) && IsPrefix(members, stage, target) && 1 <= target <= |members|
    ensures FullUpTo(row, Lengths(strata), k)
  {
    var last;
    k, last := PlaceOf(strata, |strata|, target - 1);
    forall s: nat | s < k ensures row[s] == |strata[s]| {
      BeforeNext(strata, s);
      BeforeGrows(strata, s + 1, k);
      assert PlacedAt(strata, members, row, stage, s, |strata[s]| - 1);
    }
    forall s: nat | k < s < |strata| ensures row[s] == 0 {
      BeforeNext(strata, k);
      BeforeGrows(strata, k + 1, s);
      assert PlacedAt(strata, members, row, stage, s, 0);
    }
  }

  lemma {:induction false} PrefixExposes(members: seq<Member>, stage: nat, target: int)
    requires IsPrefix(members, stage, target) && 0 <= target <= |members|
    requires forall o :: 0 <= o < |members| ==> members[o].ordinal == o
    ensures Exposed(members, stage + 1) == target
  {
    ExposedPrefix(members, stage + 1, target);
  }

  // ---- planned cohorts ----

  lemma {:induction false} SeatPlaced(strata: seq<seq<Candidate>>, rows: seq<seq<int>>, stage: nat, k: nat, i: nat)
    requires Monotone(rows, Lengths(strata)) && stage < |rows| && k < |strata| && i < |strata[k]|
    ensures PlacedAt(strata, Seating(strata, rows, |strata|), rows[stage], stage, k, i)
  {
    SeatAt(strata, rows, |strata|, k, i);
    SeatStage(strata, rows, k, i, Before(strata, k), stage);
  }

  lemma {:induction false} MonotoneIsPlaced(strata: seq<seq<Candidate>>, rows: seq<seq<int>>, stage: nat)
    requires Monotone(rows, Lengths(strata)) && stage < |rows| && Sizes(Lengths(strata))
    ensures Placed(strata, Seating(strata, rows, |strata|), rows[stage], stage)
  {
    var counts, members := Lengths(strata), Seating(strata, rows, |strata|);
    SeatingOrdinals(strata, rows, |strata|);
    forall k: nat, i: nat | k < |strata| && i < |strata[k]| ensures PlacedAt(strata, members, rows[stage], stage, k, i) {
      SeatPlaced(strata, rows, stage, k, i);
    }
    forall k: nat | k < |strata| ensures 0 <= rows[stage][k] <= |strata[k]| && 0 < |strata[k]| {
      assert Ordered(rows, counts, stage, stage, k) && counts[k] > 0;
    }
  }

  lemma {:induction false} PlannedIsPlaced(strata: seq<seq<Candidate>>, percents: seq<int>, stage: nat)
    requires strata != [] && Sizes(Lengths(strata)) && ValidPercents(percents) && stage < |percents|
    ensures Sum(Lengths(strata)) >= 1
    ensures var rows := Rows(Lengths(strata), percents);
      Placed(strata, Seating(strata, rows, |strata|), rows[stage], stage)
  {
    RowsMonotone(Lengths(strata), percents);
    MonotoneIsPlaced(strata, Rows(Lengths(strata), percents), stage);
  }

  lemma {:induction false} SeatingAgrees(strata: seq<seq<Candidate>>, percents: seq<int>, stage: nat)
    requires strata != [] && Sizes(Lengths(strata)) && ValidPercents(percents) && stage < |percents|
    ensures Sum(Lengths(strata)) >= 1
    ensures var rows := Rows(Lengths(strata), percents);
      var members := Seating(strata, rows, |strata|);
      var target := TargetCount(|members|, percents[stage]);
      |rows[stage]| == |strata|
      && (IsPrefix(members, stage, target) <==> FillsInOrder(rows[stage], Lengths(strata), target))
  {
    PlannedIsPlaced(strata, percents, stage);
    SeatingCounts(strata, percents, stage);
    var counts := Lengths(strata);
    var rows := Rows(counts, percents);
    var members := Seating(strata, rows, |strata|);
    var target := TargetCount(|members|, percents[stage]);
    if IsPrefix(members, stage, target) {
      PrefixExposes(members, stage, target);
      var k := PrefixIsShape(strata, members, rows[stage], stage, target);
    }
    if FillsInOrder(rows[stage], counts, target) {
      var k: nat :| FullUpTo(rows[stage], counts, k);
      ShapeIsPrefix(strata, members, rows[stage], stage, k);
    }
  }

  // ---- sizes known before planning ----

  function CountKey(devices: seq<Device>, key: string): (n: nat)
    ensures n <= |devices|
  {
    if devices == [] then 0
    else CountKey(devices[..|devices| - 1], key) + if StratumKey(devices[|devices| - 1]) == key then 1 else 0
  }

  /** How many devices each stratum has, in key order; neither the hash nor the salt matters. */
  function StratumSizes(devices: seq<Device>): (sizes: seq<int>)
    ensures |sizes| == |StrataKeys(devices)|
  {
    seq(|StrataKeys(devices)|, k requires 0 <= k < |StrataKeys(devices)| => CountKey(devices, StrataKeys(devices)[k]))
  }

  lemma {:induction false} StratumLength(hmac: Keyed, releaseId: string, salt: string, devices: seq<Device>, key: string)
    ensures |Stratum(hmac, releaseId, salt, devices, key)| == CountKey(devices, key)
  {
    if devices != [] { StratumLength(hmac, releaseId, salt, devices[..|devices| - 1], key); }
  }

  lemma {:induction false} SizesAreLengths(hmac: Keyed, releaseId: string, salt: string, devices: seq<Device>)
    ensures Lengths(Strata(hmac, releaseId, salt, devices, StrataKeys(devices))) == StratumSizes(devices)
  {
    var keys := StrataKeys(devices);
    forall k | 0 <= k < |keys| ensures |Strata(hmac, releaseId, salt, devices, keys)[k]| == CountKey(devices, keys[k]) {
      StratumLength(hmac, releaseId, salt, devices, keys[k]);
      SortKeeps(Earlier, Stratum(hmac, releaseId, salt, devices, keys[k]));
    }
  }

  /** For every cohort and every stage: the members planned by that stage are the ordinals the activator
      opens if and only if the stage's row fills strata in key order up to exactly the target. The
      condition depends on the stratum sizes and the percentages alone. */
  lemma {:induction false} AgreementExactly(hmac: Keyed, releaseId: string, salt: string, devices: seq<Device>, percents: seq<int>, stage: nat)
    requires devices != [] && ValidPercents(percents) && stage < |percents|
    ensures Sum(StratumSizes(devices)) >= 1
    ensures var row := Row(StratumSizes(devices), percents, stage);
      var target := TargetCount(|devices|, percents[stage]);
      |row| == |StratumSizes(devices)|
      && (IsPrefix(PlannedMembers(hmac, releaseId, salt, devices, percents), stage, target)
          <==> FillsInOrder(row, StratumSizes(devices), target))
  {
    var strata := Strata(hmac, releaseId, salt, devices, StrataKeys(devices));
    StrataUsable(hmac, releaseId, salt, devices);
    SizesAreLengths(hmac, releaseId, salt, devices);
    PlanIsPartition(hmac, releaseId, salt, devices, percents);
    SeatingAgrees(strata, percents, stage);
  }

  // ---- a cohort that disagrees ----

  function Unit(id: string, model: string): Device { Device(id, id, model, "", "", "", 0) }

  const PAIRS: seq<Device> := [Unit("1", "A"), Unit("2", "A"), Unit("3", "B"), Unit("4", "B")]

  lemma {:induction false} KeysSnoc(devices: seq<Device>, d: Device)
    ensures var (keys, key) := (StrataKeys(devices), StratumKey(d));
      StrataKeys(devices + [d]) == if key in keys then keys else Insert(Below, key, keys)
  {
    assert (devices + [d])[..|devices|] == devices;
  }

  lemma {:induction false} CountSnoc(devices: seq<Device>, d: Device, key: string)
    ensures CountKey(devices + [d], key) == CountKey(devices, key) + if StratumKey(d) == key then 1 else 0
  {
    assert (devices + [d])[..|devices|] == devices;
  }

  lemma PairsKeys(p: Device, q: Device, r: Device, s: Device)
    requires StratumKey(q) == StratumKey(p) && StratumKey(s) == StratumKey(r) && Below(StratumKey(p), StratumKey(r))
    requires StratumKey(p) != StratumKey(r)
    ensures StrataKeys([p, q, r, s]) == [StratumKey(p), StratumKey(r)]
  {
    var a, b := StratumKey(p), StratumKey(r);
    assert [] + [p] == [p] && [p] + [q] == [p, q] && [p, q] + [r] == [p, q, r] && [p, q, r] + [s] == [p, q, r, s];
    KeyFirst(p);
    KeyKnown([p], q);
    KeyNew([p, q], r, a);
    KeyKnown([p, q, r], s);
  }

  lemma KeyFirst(d: Device)
    ensures StrataKeys([] + [d]) == [StratumKey(d)]
  {
    KeysSnoc([], d);
  }

  lemma {:induction false} KeyKnown(devices: seq<Device>, d: Device)
    requires StratumKey(d) in StrataKeys(devices)
    ensures StrataKeys(devices + [d]) == StrataKeys(devices)
  {
    KeysSnoc(devices, d);
  }

  lemma {:induction false} KeyNew(devices: seq<Device>, d: Device, key: string)
    requires StrataKeys(devices) == [key] && StratumKey(d) != key && Below(key, StratumKey(d))
    ensures StrataKeys(devices + [d]) == [key, StratumKey(d)]
  {
    KeysSnoc(devices, d);
    InsertAfter(key, StratumKey(d));
  }

  lemma {:induction false} InsertAfter(key: string, later: string)
    requires Below(key, later)
    ensures Insert(Below, later, [key]) == [key, later]
  {
    assert [key][1..] == [];
  }

  lemma {:induction false} PairsCounts(p: Device, q: Device, r: Device, s: Device, key: string)
    ensures CountKey([p, q, r, s], key) ==
      (if StratumKey(p) == key then 1 else 0) + (if StratumKey(q) == key then 1 else 0)
      + (if StratumKey(r) == key then 1 else 0) + (if StratumKey(s) == key then 1 else 0)
  {
    CountSnoc([], p, key);
    CountSnoc([p], q, key);
    CountSnoc([p, q], r, key);
    CountSnoc([p, q, r], s, key);
    assert [] + [p] == [p] && [p] + [q] == [p, q] && [p, q] + [r] == [p, q, r] && [p, q, r] + [s] == [p, q, r, s];
  }

  lemma PairsSizes()
    ensures StratumSizes(PAIRS) == [2, 2]
  {
    var p, q, r, s := PAIRS[0], PAIRS[1], PAIRS[2], PAIRS[3];
    var a, b := StratumKey(p), StratumKey(r);
    assert a[0] == 'A' && b[0] == 'B';
    PairsKeys(p, q, r, s);
    PairsCounts(p, q, r, s, a);
    PairsCounts(p, q, r, s, b);
    assert PAIRS == [p, q, r, s];
  }

  lemma HalfOfPairs()
    ensures Sum([2, 2]) == 4 && Row([2, 2], [50, 100], 0) == [1, 1]
  {
    var counts := [2, 2];
    assert counts[..1] == [2] && [2][..0] == [];
    assert Sum([2]) == 2 && Sum(counts) == 4;
    assert Row(counts, [50, 100], -1) == [0, 0];
    assert Carried([0, 0], counts, 50) == [1, 1];
    assert [1, 1][..1] == [1] && [1][..0] == [];
    assert Sum([1]) == 1 && Sum([1, 1]) == 2;
  }

  /** Two pairs of devices at 50 percent, whatever hash orders them: some member is planned for the
      first stage but not opened in it, or the other way round. */
  lemma PairsDisagree(hmac: Keyed, releaseId: string, salt: string)
    ensures ValidPercents([50, 100])
    ensures var members := PlannedMembers(hmac, releaseId, salt, PAIRS, [50, 100]);
      exists o :: 0 <= o < |members| && (members[o].stage <= 1) != (members[o].ordinal < TargetCount(4, 50))
  {
    var percents := [50, 100];
    PairsSizes();
    HalfOfPairs();
    AgreementExactly(hmac, releaseId, salt, PAIRS, percents, 0);
    forall k: nat ensures !FullUpTo([1, 1], [2, 2], k) {
      if k == 0 { assert [1, 1][1] != 0; }
      if k == 1 { assert [1, 1][0] != [2, 2][0]; }
    }
    assert !IsPrefix(PlannedMembers(hmac, releaseId, salt, PAIRS, percents), 0, TargetCount(4, 50));
  }
}
