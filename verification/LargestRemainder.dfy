/** Who gets the next device: the planner's row is the one row the largest-remainder rule allows. */
module LargestRemainder {
  import opened Wrappers
  import opened Apportionment

  /** What the rule says about a stratum that was given more and another one that still has room. */
  ghost predicate PairFair(start: seq<int>, row: seq<int>, counts: seq<int>, shares: seq<int>, i: nat, k: nat)
    requires |start| == |row| == |counts| == |shares| && i < |row| && k < |row|
  {
    row[k] < counts[k] ==>
      && (row[i] > start[i] && row[k] == start[k] ==> shares[i] > shares[k] || (shares[i] == shares[k] && i < k))
      && (row[i] > start[i] && (row[i] > start[i] + 1 || shares[i] == 0) ==> i < k && (row[k] > start[k] || shares[k] == 0))
  }

  ghost predicate FairTo(start: seq<int>, row: seq<int>, counts: seq<int>, shares: seq<int>)
    requires |start| == |row| == |counts| == |shares|
  {
    forall i: nat, k: nat :: i < |row| && k < |row| && i != k ==> PairFair(start, row, counts, shares, i, k)
  }

  /** The first device goes to the leader, and whatever follows is fair from there. */
  lemma PairAfterFirst(start: seq<int>, row: seq<int>, counts: seq<int>, shares: seq<int>, pick: nat, i: nat, k: nat)
    requires |start| == |row| == |counts| == |shares| && Leads(pick, start, counts, shares, |start|)
    requires forall j :: 0 <= j < |start| ==> start[j] <= row[j] && shares[j] >= 0
    requires row[pick] > start[pick] && i < |row| && k < |row| && i != k
    requires PairFair(start[pick := start[pick] + 1], row, counts, shares[pick := 0], i, k)
    ensures PairFair(start, row, counts, shares, i, k)
  {
  }

  lemma {:induction false} TopUpFair(start: seq<int>, counts: seq<int>, shares: seq<int>, target: int)
    requires |start| == |counts| == |shares| && target <= Sum(counts)
    requires forall i :: 0 <= i < |start| ==> start[i] <= counts[i] && shares[i] >= 0
    ensures FairTo(start, TopUp(start, counts, shares, target), counts, shares)
    decreases target - Sum(start)
  {
    var row := TopUp(start, counts, shares, target);
    TopUpReaches(start, counts, shares, target);
    if Sum(start) < target {
      var slack := SomeSlack(start, counts);
      var pick := Leader(start, counts, shares, |start|);
      var next, left := start[pick := start[pick] + 1], shares[pick := 0];
      SumUpdate(start, pick, start[pick] + 1);
      TopUpFair(next, counts, left, target);
      TopUpReaches(next, counts, left, target);
      forall i: nat, k: nat | i < |row| && k < |row| && i != k ensures PairFair(start, row, counts, shares, i, k) {
        PairAfterFirst(start, row, counts, shares, pick, i, k);
      }
    }
  }

  // ---- one stage, in the source's own numbers ----

  /** Stratum i was raised above what it starts the stage with, stratum k still has room: then either k
      was raised too, or i's remainder is larger, or equal with i earlier. A second device, or one for
      no remainder at all, only goes to a stratum before every other one with room, and only once
      those have had theirs or have no remainder. */
  ghost predicate Ranked(prev: seq<int>, counts: seq<int>, percent: int, row: seq<int>, i: nat, k: nat)
    requires |prev| == |row| == |counts| && i < |row| && k < |row|
  {
    var (baseI, baseK) := (Max(prev[i], counts[i] * percent / 100), Max(prev[k], counts[k] * percent / 100));
    var (remI, remK) := (counts[i] * percent % 100, counts[k] * percent % 100);
    row[k] < counts[k] ==>
      && (row[i] > baseI && row[k] == baseK ==> remI > remK || (remI == remK && i < k))
      && (row[i] > baseI && (row[i] > baseI + 1 || remI == 0) ==> i < k && (row[k] > baseK || remK == 0))
  }

  /** A row that starts from the carried floors, overflows no stratum, totals what the stage is due and
      follows the largest remainders. */
  ghost predicate Due(prev: seq<int>, counts: seq<int>, percent: int, row: seq<int>)
    requires |prev| == |counts| && 0 <= percent && Sum(counts) >= 0
  {
    && |row| == |counts|
    && Sum(row) == Max(Sum(Carried(prev, counts, percent)), Max(1, (Sum(counts) * percent + 99) / 100))
    && (forall i :: 0 <= i < |row| ==> Max(prev[i], counts[i] * percent / 100) <= row[i] <= counts[i])
    && (forall i: nat, k: nat :: i < |row| && k < |row| && i != k ==> Ranked(prev, counts, percent, row, i, k))
  }

  lemma RankedIsFair(prev: seq<int>, counts: seq<int>, percent: int, row: seq<int>, i: nat, k: nat)
    requires |prev| == |row| == |counts| && i < |row| && k < |row|
    ensures Ranked(prev, counts, percent, row, i, k)
        <==> PairFair(Carried(prev, counts, percent), row, counts, Remainders(counts, percent), i, k)
  {
  }

  ghost predicate Stageable(prev: seq<int>, counts: seq<int>, percent: int) {
    && |prev| == |counts| && Sizes(counts) && 1 <= percent <= 100 && 1 <= Sum(counts)
    && forall i :: 0 <= i < |prev| ==> prev[i] <= counts[i]
  }

  lemma CarriedFits(prev: seq<int>, counts: seq<int>, percent: int)
    requires Stageable(prev, counts, percent)
    ensures forall i :: 0 <= i < |counts| ==> Carried(prev, counts, percent)[i] <= counts[i]
  {
    forall i | 0 <= i < |counts| ensures Carried(prev, counts, percent)[i] <= counts[i] {
      ShareBound(counts[i], percent);
    }
  }

  lemma {:induction false} StageRowIsDue(prev: seq<int>, counts: seq<int>, percent: int)
    requires Stageable(prev, counts, percent)
    ensures Due(prev, counts, percent, StageRow(prev, counts, percent))
  {
    var start, shares, row := Carried(prev, counts, percent), Remainders(counts, percent), StageRow(prev, counts, percent);
    CarriedFits(prev, counts, percent);
    TargetBound(Sum(counts), percent);
    TopUpReaches(start, counts, shares, StageTarget(Sum(counts), percent));
    TopUpFair(start, counts, shares, StageTarget(Sum(counts), percent));
    forall i: nat, k: nat | i < |row| && k < |row| && i != k ensures Ranked(prev, counts, percent, row, i, k) {
      assert PairFair(start, row, counts, shares, i, k);
      RankedIsFair(prev, counts, percent, row, i, k);
    }
  }

  // ---- there is only one such row ----

  lemma {:induction false} SumStrict(s: seq<int>, t: seq<int>)
    requires |s| == |t| && s != t && forall i :: 0 <= i < |s| ==> s[i] <= t[i]
    ensures Sum(s) < Sum(t)
  {
    var n := |s| - 1;
    SumMonotone(s[..n], t[..n]);
    if s[..n] != t[..n] {
      SumStrict(s[..n], t[..n]);
    } else {
      assert s == s[..n] + [s[n]] && t == t[..n] + [t[n]];
    }
  }

  /** Two rows of one total that differ: each is ahead somewhere. */
  lemma Crossing(s: seq<int>, t: seq<int>) returns (i: nat, k: nat)
    requires |s| == |t| && s != t && Sum(s) == Sum(t)
    ensures i < |s| && k < |s| && s[i] > t[i] && s[k] < t[k]
  {
    if forall j :: 0 <= j < |s| ==> s[j] <= t[j] { SumStrict(s, t); }
    if forall j :: 0 <= j < |s| ==> s[j] >= t[j] { SumStrict(t, s); }
    i :| i < |s| && s[i] > t[i];
    k :| k < |s| && s[k] < t[k];
  }

  lemma NoTwoFair(start: seq<int>, s: seq<int>, t: seq<int>, counts: seq<int>, shares: seq<int>, i: nat, k: nat)
    requires |start| == |s| == |t| == |counts| == |shares| && i < |s| && k < |s| && s[i] > t[i] && s[k] < t[k]
    requires start[i] <= t[i] && start[k] <= s[k] && s[i] <= counts[i] && t[k] <= counts[k]
    ensures !(PairFair(start, s, counts, shares, i, k) && PairFair(start, t, counts, shares, k, i))
  {
  }

  lemma DueIsUnique(prev: seq<int>, counts: seq<int>, percent: int, s: seq<int>, t: seq<int>)
    requires Stageable(prev, counts, percent) && Due(prev, counts, percent, s) && Due(prev, counts, percent, t)
    ensures s == t
  {
    if s != t {
      var i, k := Crossing(s, t);
      assert Ranked(prev, counts, percent, s, i, k) && Ranked(prev, counts, percent, t, k, i);
      RankedIsFair(prev, counts, percent, s, i, k);
      RankedIsFair(prev, counts, percent, t, k, i);
      NoTwoFair(Carried(prev, counts, percent), s, t, counts, Remainders(counts, percent), i, k);
    }
  }

  /** The stage's row is the only one that is due. */
  lemma StageRowExactly(prev: seq<int>, counts: seq<int>, percent: int, row: seq<int>)
    requires Stageable(prev, counts, percent)
    ensures row == StageRow(prev, counts, percent) <==> Due(prev, counts, percent, row)
  {
    StageRowIsDue(prev, counts, percent);
    if Due(prev, counts, percent, row) { DueIsUnique(prev, counts, percent, row, StageRow(prev, counts, percent)); }
  }

  /** And so for every stage of a plan, whatever the strata and percentages. */
  lemma RowExactly(counts: seq<int>, percents: seq<int>, stage: nat, row: seq<int>)
    requires Sizes(counts) && counts != [] && ValidPercents(percents) && stage < |percents|
    ensures Sum(counts) >= 1
    ensures row == Row(counts, percents, stage) <==> Due(Row(counts, percents, stage - 1), counts, percents[stage], row)
  {
    SizesTotal(counts);
    EveryRowFits(counts, percents, stage - 1);
    StageRowExactly(Row(counts, percents, stage - 1), counts, percents[stage], row);
  }
}
