/**
 * The cumulative multi-stage apportionment at the heart of the cohort planner.
 * `counts[k]` is the size of stratum k, `percents[j]` the cumulative target of
 * stage j, and a row gives how many members of each stratum are exposed once
 * that stage has been planned.
 */
module Apportionment {
  import opened Wrappers

  function Sum(s: seq<int>): int {
    if s == [] then 0 else Sum(s[..|s| - 1]) + s[|s| - 1]
  }

  function Pointwise(s: seq<int>, t: seq<int>): (r: seq<int>)
    requires |s| == |t|
  {
    seq(|s|, i requires 0 <= i < |s| => s[i] + t[i])
  }

  lemma {:induction false} SumMonotone(s: seq<int>, t: seq<int>)
    requires |s| == |t| && forall i :: 0 <= i < |s| ==> s[i] <= t[i]
    ensures Sum(s) <= Sum(t)
  {
    if s != [] {
      SumMonotone(s[..|s| - 1], t[..|t| - 1]);
    }
  }

  lemma {:induction false} SumPointwise(s: seq<int>, t: seq<int>)
    requires |s| == |t|
    ensures Sum(Pointwise(s, t)) == Sum(s) + Sum(t)
  {
    if s != [] {
      var n := |s| - 1;
      SumPointwise(s[..n], t[..n]);
      assert Pointwise(s, t)[..n] == Pointwise(s[..n], t[..n]);
    }
  }

  lemma {:induction false} SumUpdate(s: seq<int>, i: nat, x: int)
    requires i < |s|
    ensures Sum(s[i := x]) == Sum(s) - s[i] + x
  {
    var n := |s| - 1;
    if i < n {
      SumUpdate(s[..n], i, x);
      assert s[i := x][..n] == s[..n][i := x];
    } else {
      assert s[i := x][..n] == s[..n];
    }
  }

  /** A smaller total over no larger entries leaves some entry strictly smaller. */
  lemma {:induction false} SomeSlack(s: seq<int>, t: seq<int>) returns (i: nat)
    requires |s| == |t| && Sum(s) < Sum(t)
    ensures i < |s| && s[i] < t[i]
  {
    var n := |s| - 1;
    if s[n] < t[n] {
      i := n;
    } else {
      i := SomeSlack(s[..n], t[..n]);
    }
  }

  lemma {:induction false} SumFlat(s: seq<int>, t: seq<int>)
    requires |s| == |t| && Sum(s) == Sum(t)
    requires forall i :: 0 <= i < |s| ==> s[i] <= t[i]
    ensures s == t
  {
    if s != [] {
      var n := |s| - 1;
      SumMonotone(s[..n], t[..n]);
      SumFlat(s[..n], t[..n]);
      assert s == s[..n] + [s[n]] && t == t[..n] + [t[n]];
    }
  }

  // ---- the targets ----

  /** The smallest whole number of devices that is at least `percent` of `total`. */
  function Target(total: nat, percent: int): (t: int)
    requires 0 <= percent
    ensures 100 * t >= total * percent && 100 * (t - 1) < total * percent
  {
    (total * percent + 99) / 100
  }

  /** What the planner aims for: the rounded-up share, but never nobody. */
  function StageTarget(total: nat, percent: int): (t: int)
    requires 0 <= percent
  {
    Max(1, Target(total, percent))
  }

  /** How many of the frozen members the stage activator exposes at a percentage. */
  function TargetCount(eligible: nat, percentage: int): (t: nat)
    ensures t <= eligible && (eligible > 0 ==> t >= 1)
  {
    if eligible == 0 then 0
    else
      Min(eligible, Max(1, Target(eligible, Clamp(percentage))))
  }

  function Clamp(percentage: int): (p: int)
    ensures 1 <= p <= 100
  {
    Max(1, Min(100, percentage))
  }

  lemma TargetGrows(total: int, p: int, q: int)
    requires 0 <= total && 0 <= p <= q
    ensures 0 <= Target(total, p) <= Target(total, q)
    ensures total * q / 100 <= Target(total, q)
  {
    assert total * q == total * p + total * (q - p);
  }

  /** The activator's prefix never shrinks as the percentage grows, and ends with everybody. */
  lemma TargetCountGrows(eligible: nat, p: int, q: int)
    requires p <= q
    ensures TargetCount(eligible, p) <= TargetCount(eligible, q)
    ensures TargetCount(eligible, 100) == eligible
  {
    TargetGrows(eligible, Clamp(p), Clamp(q));
  }

  ghost predicate ValidPercents(percents: seq<int>) {
    && percents != [] && percents[|percents| - 1] == 100
    && (forall j :: 0 <= j < |percents| ==> 1 <= percents[j] <= 100)
    && (forall i, j :: 0 <= i < j < |percents| ==> percents[i] < percents[j])
  }

  ghost predicate Sizes(counts: seq<int>) {
    forall k :: 0 <= k < |counts| ==> counts[k] > 0
  }

  lemma {:induction false} SizesTotal(counts: seq<int>)
    requires Sizes(counts)
    ensures Sum(counts) >= |counts|
  {
    if counts != [] {
      SizesTotal(counts[..|counts| - 1]);
    }
  }

  // ---- one stage ----

  function Floors(counts: seq<int>, percent: int): (r: seq<int>)
    ensures |r| == |counts|
  {
    seq(|counts|, i requires 0 <= i < |counts| => counts[i] * percent / 100)
  }

  function Remainders(counts: seq<int>, percent: int): (r: seq<int>)
    ensures |r| == |counts|
  {
    seq(|counts|, i requires 0 <= i < |counts| => counts[i] * percent % 100)
  }

  /** The floor of each share, or the previous stage's allocation if that is larger. */
  function Carried(prev: seq<int>, counts: seq<int>, percent: int): (r: seq<int>)
    requires |prev| == |counts|
    ensures |r| == |counts|
  {
    seq(|counts|, i requires 0 <= i < |counts| => Max(prev[i], counts[i] * percent / 100))
  }

  /** `pick` may take one more device and has the largest remainder, the earliest of equals. */
  ghost predicate Leads(pick: nat, row: seq<int>, counts: seq<int>, remainders: seq<int>, upto: nat)
    requires |row| == |counts| == |remainders| && upto <= |row|
  {
    && pick < upto && row[pick] < counts[pick]
    && (forall i :: 0 <= i < upto && row[i] < counts[i] ==> remainders[i] <= remainders[pick])
    && (forall i :: 0 <= i < pick && row[i] < counts[i] ==> remainders[i] < remainders[pick])
  }

  /** The stratum the largest-remainder scan ends on, or |row| if every stratum is full. */
  function Leader(row: seq<int>, counts: seq<int>, remainders: seq<int>, upto: nat): (pick: nat)
    requires |row| == |counts| == |remainders| && upto <= |row|
    ensures pick == |row| || Leads(pick, row, counts, remainders, upto)
    ensures pick == |row| ==> forall i :: 0 <= i < upto ==> row[i] >= counts[i]
  {
    if upto == 0 then |row|
    else
      var best := Leader(row, counts, remainders, upto - 1);
      if row[upto - 1] >= counts[upto - 1] then best
      else if best == |row| || remainders[upto - 1] > remainders[best] then upto - 1
      else best
  }

  /** Hands out single devices to the leading stratum until the total reaches `target`. */
  function TopUp(row: seq<int>, counts: seq<int>, remainders: seq<int>, target: int): (r: seq<int>)
    requires |row| == |counts| == |remainders|
    ensures |r| == |counts|
    decreases target - Sum(row)
  {
    if Sum(row) >= target then row
    else
      var pick := Leader(row, counts, remainders, |row|);
      if pick == |row| then row
      else
        SumUpdate(row, pick, row[pick] + 1);
        TopUp(row[pick := row[pick] + 1], counts, remainders[pick := 0], target)
  }

  function StageRow(prev: seq<int>, counts: seq<int>, percent: int): (r: seq<int>)
    requires |prev| == |counts| && 0 <= percent && Sum(counts) >= 0
    ensures |r| == |counts|
  {
    TopUp(Carried(prev, counts, percent), counts, Remainders(counts, percent), StageTarget(Sum(counts), percent))
  }

  /** The allocation after stage `stage`; before the first stage nobody is allocated. */
  function Row(counts: seq<int>, percents: seq<int>, stage: int): (r: seq<int>)
    requires -1 <= stage < |percents| && Sum(counts) >= 0
    requires forall j :: 0 <= j < |percents| ==> 0 <= percents[j]
    ensures |r| == |counts|
    decreases stage + 1
  {
    if stage == -1 then seq(|counts|, _ => 0)
    else StageRow(Row(counts, percents, stage - 1), counts, percents[stage])
  }

  // ---- the bounds ----

  /** As long as the target does not exceed the population the scan never comes up empty,
      nothing is taken back, no stratum overflows, and the target is met exactly unless
      the carried allocation already exceeded it. */
  lemma {:induction false} TopUpReaches(row: seq<int>, counts: seq<int>, remainders: seq<int>, target: int)
    requires |row| == |counts| == |remainders| && target <= Sum(counts)
    requires forall i :: 0 <= i < |row| ==> row[i] <= counts[i]
    ensures var r := TopUp(row, counts, remainders, target);
      && Sum(r) == Max(Sum(row), target)
      && (forall i :: 0 <= i < |row| ==> row[i] <= r[i] <= counts[i])
    decreases target - Sum(row)
  {
    if Sum(row) < target {
      var slack := SomeSlack(row, counts);
      var pick := Leader(row, counts, remainders, |row|);
      SumUpdate(row, pick, row[pick] + 1);
      TopUpReaches(row[pick := row[pick] + 1], counts, remainders[pick := 0], target);
    }
  }

  lemma {:induction false} SumFloors(counts: seq<int>, percent: int)
    requires 0 <= percent
    ensures 100 * Sum(Floors(counts, percent)) <= Sum(counts) * percent
    ensures Sum(counts) * percent <= 100 * Sum(Floors(counts, percent)) + 99 * |counts|
  {
    if counts != [] {
      var n := |counts| - 1;
      SumFloors(counts[..n], percent);
      assert Floors(counts, percent)[..n] == Floors(counts[..n], percent);
      assert Sum(counts) * percent == Sum(counts[..n]) * percent + counts[n] * percent;
    }
  }

  lemma FloorsMonotone(count: int, p: int, q: int)
    requires 0 <= count && 0 <= p <= q
    ensures count * p / 100 <= count * q / 100
  {
    assert count * q == count * p + count * (q - p);
  }

  lemma ShareBound(count: int, p: int)
    requires 0 <= count && 0 <= p <= 100
    ensures 0 <= count * p / 100 <= count
  {
    assert 0 <= count * p <= count * 100;
  }

  lemma TargetBound(total: int, p: int)
    requires 1 <= total && 1 <= p <= 100
    ensures StageTarget(total, p) == Target(total, p) && 1 <= Target(total, p) <= total
  {
    assert 1 <= total * p <= total * 100;
  }

  /** Rounding the whole share up exceeds the summed floors by at most one per stratum. */
  lemma {:induction false} TargetNearFloors(counts: seq<int>, p: int)
    requires 0 <= p && 0 <= Sum(counts)
    ensures Target(Sum(counts), p) <= Sum(Floors(counts, p)) + |counts|
    ensures Sum(Floors(counts, p)) <= Sum(counts) * p / 100
  {
    SumFloors(counts, p);
    var share := Sum(counts) * p;
    assert 100 * Target(Sum(counts), p) <= share + 99;
  }

  /** Carrying an allocation into a larger percentage never widens its excess over the floors. */
  lemma {:induction false} CarryKeepsExcess(prev: seq<int>, counts: seq<int>, p: int, q: int)
    requires |prev| == |counts| && 0 <= p <= q && Sizes(counts)
    requires forall i :: 0 <= i < |prev| ==> counts[i] * p / 100 <= prev[i]
    ensures Sum(Carried(prev, counts, q)) - Sum(Floors(counts, q)) <= Sum(prev) - Sum(Floors(counts, p))
  {
    var left := Pointwise(Carried(prev, counts, q), Floors(counts, p));
    var right := Pointwise(prev, Floors(counts, q));
    forall i | 0 <= i < |prev| ensures left[i] <= right[i] {
      FloorsMonotone(counts[i], p, q);
    }
    SumMonotone(left, right);
    SumPointwise(Carried(prev, counts, q), Floors(counts, p));
    SumPointwise(prev, Floors(counts, q));
  }

  /** What one stage must deliver, given what the previous one delivered. */
  ghost predicate Fits(row: seq<int>, counts: seq<int>, percent: int) {
    && |row| == |counts| && 0 <= percent
    && (forall i :: 0 <= i < |row| ==> counts[i] * percent / 100 <= row[i] <= counts[i])
    && Sum(row) <= Sum(Floors(counts, percent)) + |counts|
  }

  lemma {:induction false} StageFits(prev: seq<int>, counts: seq<int>, p: int, q: int)
    requires Sizes(counts) && counts != [] && 0 <= p <= q && 1 <= q <= 100 && Fits(prev, counts, p)
    ensures Sum(counts) >= 1
    ensures var row := StageRow(prev, counts, q);
      && Fits(row, counts, q)
      && (forall i :: 0 <= i < |row| ==> prev[i] <= row[i])
      && Target(Sum(counts), q) <= Sum(row)
  {
    SizesTotal(counts);
    var total := Sum(counts);
    TargetBound(total, q);
    var start := Carried(prev, counts, q);
    forall i | 0 <= i < |counts| ensures counts[i] * q / 100 <= start[i] <= counts[i] && prev[i] <= start[i] {
      ShareBound(counts[i], q);
    }
    TopUpReaches(start, counts, Remainders(counts, q), Target(total, q));
    CarryKeepsExcess(prev, counts, p, q);
    TargetNearFloors(counts, q);
  }

  lemma {:induction false} EveryRowFits(counts: seq<int>, percents: seq<int>, stage: int)
    requires Sizes(counts) && counts != [] && ValidPercents(percents)
    requires -1 <= stage < |percents|
    ensures Sum(counts) >= 1
    ensures Fits(Row(counts, percents, stage), counts, if stage == -1 then 0 else percents[stage])
    decreases stage + 1
  {
    SizesTotal(counts);
    if stage == -1 {
      var zero := Row(counts, percents, -1);
      var floors := Floors(counts, 0);
      assert forall i :: 0 <= i < |zero| ==> zero[i] == 0 && floors[i] == 0;
      assert zero == floors;
    } else {
      EveryRowFits(counts, percents, stage - 1);
      StageFits(Row(counts, percents, stage - 1), counts, if stage == 0 then 0 else percents[stage - 1], percents[stage]);
    }
  }

  /**
   * The apportionment bound, for every stage: the total lies between the rounded-up share
   * and the rounded-down share plus one device per stratum; no stratum shrinks between
   * stages or exceeds its size.
   */
  lemma ApportionmentBound(counts: seq<int>, percents: seq<int>, stage: nat)
    requires Sizes(counts) && counts != [] && ValidPercents(percents) && stage < |percents|
    ensures Sum(counts) >= 1
    ensures var total := Sum(Row(counts, percents, stage));
      && Target(Sum(counts), percents[stage]) <= total
      && total <= Sum(counts) * percents[stage] / 100 + |counts|
    ensures forall k :: 0 <= k < |counts| ==>
      0 <= Row(counts, percents, stage - 1)[k] <= Row(counts, percents, stage)[k] <= counts[k]
  {
    SizesTotal(counts);
    var prev, p := Row(counts, percents, stage - 1), if stage == 0 then 0 else percents[stage - 1];
    EveryRowFits(counts, percents, stage - 1);
    StageFits(prev, counts, p, percents[stage]);
    TargetNearFloors(counts, percents[stage]);
    forall k | 0 <= k < |counts| ensures 0 <= prev[k] {
      ShareBound(counts[k], p);
    }
  }

  lemma {:induction false} RowsAscend(counts: seq<int>, percents: seq<int>, i: nat, j: nat, k: nat)
    requires Sizes(counts) && counts != [] && ValidPercents(percents)
    requires i <= j < |percents| && k < |counts|
    ensures Sum(counts) >= 1
    ensures Row(counts, percents, i)[k] <= Row(counts, percents, j)[k]
    decreases j
  {
    SizesTotal(counts);
    if i < j {
      RowsAscend(counts, percents, i, j - 1, k);
      ApportionmentBound(counts, percents, j);
    }
  }

  /** The last stage takes everybody. */
  lemma {:induction false} LastRowComplete(counts: seq<int>, percents: seq<int>)
    requires Sizes(counts) && counts != [] && ValidPercents(percents)
    ensures Sum(counts) >= 1
    ensures Row(counts, percents, |percents| - 1) == counts
  {
    SizesTotal(counts);
    var last := |percents| - 1;
    ApportionmentBound(counts, percents, last);
    var row := Row(counts, percents, last);
    SumMonotone(row, counts);
    assert Target(Sum(counts), 100) == Sum(counts);
    SumFlat(row, counts);
  }

  /** With one stratum there is nothing to round between: the wave is exactly the target. */
  lemma {:induction false} SingleStratumExact(counts: seq<int>, percents: seq<int>, stage: nat)
    requires Sizes(counts) && |counts| == 1 && ValidPercents(percents) && stage < |percents|
    ensures Sum(counts) == counts[0]
    ensures Row(counts, percents, stage)[0] == Target(counts[0], percents[stage])
    decreases stage
  {
    assert counts[..0] == [];
    assert Sum(counts) == counts[0];
    var total, q := counts[0], percents[stage];
    var p := if stage == 0 then 0 else percents[stage - 1];
    var prev := Row(counts, percents, stage - 1);
    if stage > 0 {
      SingleStratumExact(counts, percents, stage - 1);
    }
    EveryRowFits(counts, percents, stage - 1);
    TargetGrows(total, p, q);
    var start := Carried(prev, counts, q);
    assert start == [start[0]] && start[..0] == [];
    TargetBound(total, q);
    ShareBound(total, q);
    TopUpReaches(start, counts, Remainders(counts, q), Target(total, q));
    var row := Row(counts, percents, stage);
    assert row[..0] == [] && Sum(row) == row[0];
  }
}
