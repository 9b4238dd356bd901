/** When the order, loss-free duplication and overtaking of device reports do not matter. */
module ReportConfluence {
  import opened Wrappers
  import opened Fleet

  function Deliver(f: Fleet, order: seq<Report>): Fleet {
    if order == [] then f else Receive(Deliver(f, order[..|order| - 1]), order[|order| - 1])
  }

  /** Each report is delivered at least once, in any order, with any repetition. */
  ghost predicate Covers(order: seq<Report>, batch: set<Report>) {
    forall r :: r in order <==> r in batch
  }

  /** Reports from one device, distinct in identifier and sequence, that the fleet has not seen. */
  ghost predicate Batch(f: Fleet, batch: set<Report>, device: nat) {
    && (forall r :: r in batch ==> r.device == device && Acceptable(f, r))
    && (forall r, q :: r in batch && q in batch && (r.sequence == q.sequence || r.reportId == q.reportId) ==> r == q)
  }

  ghost predicate OrderFree(f: Fleet, batch: set<Report>, device: nat)
    requires device < |f.devices|
  {
    forall a, b :: Covers(a, batch) && Covers(b, batch) ==> Row(Deliver(f, a), device) == Row(Deliver(f, b), device)
  }

  function Row(f: Fleet, device: nat): Option<Device> {
    if device < |f.devices| then Some(f.devices[device]) else None
  }

  /** The report would move this device row, in some order. */
  predicate Live(f: Fleet, device: nat, r: Report)
    requires device < |f.devices|
  {
    Advances(f.devices[device], r, HighestCommand(f.commands, device))
  }

  /** Delivering r before top leaves nothing that delivering top alone would not. */
  predicate Yields(d: Device, top: Report, r: Report) {
    || r.generation <= top.generation
    || (d.observed.Some? && (r.generation < d.observed.value || (r.generation == d.observed.value && r.digest == d.observedDigest)))
  }

  // ---- the device row alone ----

  function Step(d: Device, r: Report, highest: int): Device {
    if Advances(d, r, highest) then Project(d, r) else d
  }

  function Fold(d: Device, order: seq<Report>, highest: int): Device {
    if order == [] then d else Step(Fold(d, order[..|order| - 1], highest), order[|order| - 1], highest)
  }

  lemma {:induction false} FoldPrefix(d: Device, a: seq<Report>, b: seq<Report>, highest: int)
    ensures Fold(d, a + b, highest) == Fold(Fold(d, a, highest), b, highest)
  {
    if b == [] {
      assert a + b == a;
    } else {
      FoldPrefix(d, a, b[..|b| - 1], highest);
      assert (a + b)[..|a + b| - 1] == a + b[..|b| - 1];
    }
  }

  /** Every report already folded in is behind the row, or names a generation nobody commanded. */
  lemma {:induction false} FoldPasses(d: Device, order: seq<Report>, highest: int)
    ensures d.lastSequence <= Fold(d, order, highest).lastSequence
    ensures forall r :: r in order ==> !Advances(Fold(d, order, highest), r, highest)
  {
    if order != [] {
      assert order == order[..|order| - 1] + [order[|order| - 1]];
      FoldPasses(d, order[..|order| - 1], highest);
    }
  }

  lemma {:induction false} FoldIdle(d: Device, order: seq<Report>, highest: int)
    requires forall r :: r in order ==> !Advances(d, r, highest)
    ensures Fold(d, order, highest) == d
  {
    if order != [] {
      FoldIdle(d, order[..|order| - 1], highest);
    }
  }

  /** The rows met on the way to top: either still below it, or untouched and above it. */
  predicate Before(d: Device, e: Device, top: Report) {
    && e.lastSequence < top.sequence && e.desired == d.desired && e.eligible == d.eligible
    && (if d.observed.None? || d.observed.value <= top.generation
        then e.observed.None? || e.observed.value <= top.generation
        else e.observed == d.observed && e.observedDigest == d.observedDigest)
  }

  lemma {:induction false} FoldEndsAtTop(d: Device, order: seq<Report>, top: Report, highest: int)
    requires Advances(d, top, highest)
    requires forall r :: r in order && Advances(d, r, highest) ==> (r == top || r.sequence < top.sequence) && Yields(d, top, r)
    ensures var e := Fold(d, order, highest); if top in order then e == Project(d, top) else Before(d, e, top)
  {
    if order != [] {
      var last := order[|order| - 1];
      FoldEndsAtTop(d, order[..|order| - 1], top, highest);
      FoldPasses(d, order[..|order| - 1], highest);
    }
  }

  // ---- the fleet's row is that fold ----

  lemma {:induction false} DeliverFolds(f: Fleet, batch: set<Report>, device: nat, order: seq<Report>)
    requires device < |f.devices| && Batch(f, batch, device)
    requires forall r :: r in order ==> r in batch
    ensures var g := Deliver(f, order);
      && g.commands == f.commands && |g.devices| == |f.devices| && f.reports <= g.reports
      && (forall k :: |f.reports| <= k < |g.reports| ==> g.reports[k] in order)
      && g.devices[device] == Fold(f.devices[device], order, HighestCommand(f.commands, device))
  {
    if order != [] {
      var before, last := order[..|order| - 1], order[|order| - 1];
      var highest := HighestCommand(f.commands, device);
      DeliverFolds(f, batch, device, before);
      var g := Deliver(f, before);
      FoldPasses(f.devices[device], before, highest);
      assert last in batch && Acceptable(f, last);
      if !Acceptable(g, last) {
        assert last in before by { Repeated(f, g, batch, device, last); }
      }
    }
  }

  /** Only a report delivered before is turned away. */
  lemma Repeated(f: Fleet, g: Fleet, batch: set<Report>, device: nat, r: Report)
    requires Batch(f, batch, device) && r in batch && f.reports <= g.reports
    requires g.commands == f.commands && |g.devices| == |f.devices| && !Acceptable(g, r)
    requires forall k :: |f.reports| <= k < |g.reports| ==> g.reports[k] in batch
    ensures exists k :: |f.reports| <= k < |g.reports| && g.reports[k] == r
  {
    assert Acceptable(f, r);
    assert forall k :: 0 <= k < |f.reports| ==> g.reports[k] == f.reports[k];
    var i :| 0 <= i < |g.reports| && g.reports[i].device == r.device
      && (g.reports[i].reportId == r.reportId || g.reports[i].sequence == r.sequence);
    assert i >= |f.reports|;
  }

  // ---- the main results ----

  /** With a live report, every delivery ends in the same row exactly when no live report
      overtakes the highest-sequence one in generation; the row is then that report's. */
  lemma {:induction false} ConfluentExactly(f: Fleet, batch: set<Report>, device: nat, top: Report)
    requires device < |f.devices| && Batch(f, batch, device) && top in batch && Live(f, device, top)
    requires forall r :: r in batch && Live(f, device, r) ==> r.sequence <= top.sequence
    ensures OrderFree(f, batch, device) <==> forall r :: r in batch && Live(f, device, r) ==> Yields(f.devices[device], top, r)
    ensures OrderFree(f, batch, device) ==> forall order :: Covers(order, batch) ==>
      Row(Deliver(f, order), device) == Some(Project(f.devices[device], top))
  {
    if forall r :: r in batch && Live(f, device, r) ==> Yields(f.devices[device], top, r) {
      forall order | Covers(order, batch) ensures Row(Deliver(f, order), device) == Some(Project(f.devices[device], top)) {
        AllAtTop(f, batch, device, top, order);
      }
    } else {
      var r :| r in batch && Live(f, device, r) && !Yields(f.devices[device], top, r);
      Overtaken(f, batch, device, top, r);
    }
  }

  lemma {:induction false} AllAtTop(f: Fleet, batch: set<Report>, device: nat, top: Report, order: seq<Report>)
    requires device < |f.devices| && Batch(f, batch, device) && top in batch && Live(f, device, top)
    requires forall r :: r in batch && Live(f, device, r) ==> r.sequence <= top.sequence
    requires forall r :: r in batch && Live(f, device, r) ==> Yields(f.devices[device], top, r)
    requires Covers(order, batch)
    ensures Row(Deliver(f, order), device) == Some(Project(f.devices[device], top))
  {
    DeliverFolds(f, batch, device, order);
    FoldEndsAtTop(f.devices[device], order, top, HighestCommand(f.commands, device));
  }

  lemma {:induction false} OvertakenRow(d: Device, top: Report, r: Report, rest: seq<Report>, highest: int)
    requires Advances(d, top, highest) && Advances(d, r, highest) && !Yields(d, top, r)
    requires r.sequence < top.sequence
    requires forall q :: q in rest && Advances(d, q, highest) ==> q.sequence <= top.sequence
    ensures Fold(d, [top] + rest, highest) != Fold(d, [r, top] + rest, highest)
  {
    var first, second := Project(d, top), Project(Project(d, r), top);
    assert Fold(d, [top], highest) == first;
    FoldPrefix(d, [top], rest, highest);
    FoldIdle(first, rest, highest);
    assert [r, top][..1] == [r];
    assert Fold(d, [r], highest) == Project(d, r);
    assert Fold(d, [r, top], highest) == second;
    FoldPrefix(d, [r, top], rest, highest);
    FoldIdle(second, rest, highest);
  }

  /** A report that does not yield to top, delivered just before it, leaves a trace that
      delivering top first does not. */
  lemma Overtaken(f: Fleet, batch: set<Report>, device: nat, top: Report, r: Report)
    requires device < |f.devices| && Batch(f, batch, device) && top in batch && r in batch
    requires Live(f, device, top) && Live(f, device, r) && !Yields(f.devices[device], top, r)
    requires forall q :: q in batch && Live(f, device, q) ==> q.sequence <= top.sequence
    ensures !OrderFree(f, batch, device)
  {
    var rest := Listed(batch);
    var a, b := [top] + rest, [r, top] + rest;
    assert r.sequence < top.sequence by { assert r != top; }
    assert Covers(a, batch) && Covers(b, batch);
    OvertakenRow(f.devices[device], top, r, rest, HighestCommand(f.commands, device));
    DeliveredRow(f, batch, device, a);
    DeliveredRow(f, batch, device, b);
    Differ(f, batch, device, a, b);
  }

  lemma {:induction false} Differ(f: Fleet, batch: set<Report>, device: nat, a: seq<Report>, b: seq<Report>)
    requires device < |f.devices| && Covers(a, batch) && Covers(b, batch)
    requires Row(Deliver(f, a), device) != Row(Deliver(f, b), device)
    ensures !OrderFree(f, batch, device)
  {
  }

  lemma {:induction false} DeliveredRow(f: Fleet, batch: set<Report>, device: nat, order: seq<Report>)
    requires device < |f.devices| && Batch(f, batch, device) && Covers(order, batch)
    ensures Row(Deliver(f, order), device) == Some(Fold(f.devices[device], order, HighestCommand(f.commands, device)))
  {
    DeliverFolds(f, batch, device, order);
  }

  ghost function Listed(batch: set<Report>): (order: seq<Report>)
    ensures Covers(order, batch)
  {
    if batch == {} then [] else
      var r :| r in batch;
      [r] + Listed(batch - {r})
  }

  /** Generations that never fall as sequences rise, the discipline of an agent that only
      moves forward, are enough, whatever the device has reported before. */
  lemma {:induction false} OrderlyAgentsConverge(f: Fleet, batch: set<Report>, device: nat, top: Report, order: seq<Report>)
    requires device < |f.devices| && Batch(f, batch, device) && top in batch && Live(f, device, top)
    requires forall r :: r in batch ==> r.sequence <= top.sequence
    requires forall r, q :: r in batch && q in batch && r.sequence <= q.sequence ==> r.generation <= q.generation
    requires Covers(order, batch)
    ensures Row(Deliver(f, order), device) == Some(Project(f.devices[device], top))
  {
    ConfluentExactly(f, batch, device, top);
  }

  /** Without a live report no delivery touches the row. */
  lemma {:induction false} StaleReportsChangeNothing(f: Fleet, batch: set<Report>, device: nat, order: seq<Report>)
    requires device < |f.devices| && Batch(f, batch, device) && Covers(order, batch)
    requires forall r :: r in batch ==> !Live(f, device, r)
    ensures Row(Deliver(f, order), device) == Some(f.devices[device])
  {
    DeliverFolds(f, batch, device, order);
    FoldIdle(f.devices[device], order, HighestCommand(f.commands, device));
  }
}
