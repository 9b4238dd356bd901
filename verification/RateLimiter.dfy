/**
 * The fixed-window request limiter. Times are nanoseconds of a steady clock that never shows
 * zero or less; a bucket whose window started at zero has not been used yet.
 */
module RateLimiter {
  import opened Wrappers

  datatype Key = Key(tenant: string, client: string, verb: string, path: string)

  datatype Quota = Quota(limit: nat, windowSeconds: nat)

  datatype Bucket = Bucket(windowStarted: int, requests: nat)

  datatype Verdict = Admitted | Rejected(retryAfter: int)

  const SECOND := 1_000_000_000
  const HOUR := 3600 * SECOND
  const CAPACITY := 4096

  predicate StartsWith(s: string, prefix: string) { prefix <= s }

  predicate EndsWith(s: string, suffix: string) { |s| >= |suffix| && s[|s| - |suffix|..] == suffix }

  /** The allowance of a route. */
  function QuotaOf(k: Key): (q: Quota)
    ensures 2 <= q.limit <= 240 && q.windowSeconds in {60, 3600}
  {
    if k.path == "/api/tenants/register" then Quota(5, 60)
    else if k.path == "/auth/session" then Quota(10, 60)
    else if k.path == "/api/benchmarks" && k.verb == "POST" then Quota(2, 3600)
    else if k.path == "/api/agent/v1/desired-state" then Quota(12, 60)
    else if k.path == "/api/agent/v1/credential-rotation/ack" then Quota(10, 60)
    else if k.path == "/api/agent/v1/reports" then Quota(120, 60)
    else if StartsWith(k.path, "/api/agent/v1/artifacts/") then Quota(240, 60)
    else if k.path == "/api/evidence/verify" then Quota(5, 60)
    else if StartsWith(k.path, "/api/releases/") && EndsWith(k.path, "/gates") && k.verb == "GET" then Quota(120, 60)
    else Quota(if k.verb == "GET" then 120 else 30, 60)
  }

  function Window(k: Key): (w: int)
    ensures 0 < w <= HOUR
  {
    QuotaOf(k).windowSeconds * SECOND
  }

  function Limit(k: Key): (l: nat)
    ensures l >= 2
  {
    QuotaOf(k).limit
  }

  // ---- one request ----

  type Buckets = map<Key, Bucket>

  /** The bucket a request is counted in: a new window if there was none or it is over. */
  function Opened(buckets: Buckets, k: Key, now: int): Bucket {
    if k !in buckets || buckets[k].windowStarted == 0 || now - buckets[k].windowStarted >= Window(k) then Bucket(now, 0)
    else buckets[k]
  }

  function RetryAfter(b: Bucket, k: Key, now: int): (seconds: int)
    ensures seconds >= 1
  {
    Max(1, QuotaOf(k).windowSeconds - (now - b.windowStarted) / SECOND)
  }

  function Decide(buckets: Buckets, k: Key, now: int): Verdict {
    var b := Opened(buckets, k, now);
    if b.requests >= Limit(k) then Rejected(RetryAfter(b, k, now)) else Admitted
  }

  function Count(buckets: Buckets, k: Key, now: int): Buckets {
    var b := Opened(buckets, k, now);
    if b.requests >= Limit(k) then buckets[k := b] else buckets[k := b.(requests := b.requests + 1)]
  }

  /** Forgets windows that started an hour ago or more. */
  function Prune(buckets: Buckets, now: int): Buckets {
    map k | k in buckets && now - buckets[k].windowStarted < HOUR :: buckets[k]
  }

  function Serve(buckets: Buckets, k: Key, now: int): Buckets {
    var counted := Count(buckets, k, now);
    if Decide(buckets, k, now).Admitted? && |counted| > CAPACITY then Prune(counted, now) else counted
  }

  class Limiter {
    var buckets: Buckets

    constructor ()
      ensures buckets == map[]
    {
      buckets := map[];
    }

    method Admit(k: Key, now: int) returns (v: Verdict)
      modifies this
      ensures v == Decide(old(buckets), k, now) && buckets == Serve(old(buckets), k, now)
    {
      var b := if k in buckets then buckets[k] else Bucket(0, 0);
      if b.windowStarted == 0 || now - b.windowStarted >= Window(k) {
        b := Bucket(now, 0);
      }
      if b.requests >= Limit(k) {
        buckets := buckets[k := b];
        return Rejected(RetryAfter(b, k, now));
      }
      buckets := buckets[k := b.(requests := b.requests + 1)];
      if |buckets| > CAPACITY { PruneOld(now); }
      v := Admitted;
    }

    method PruneOld(now: int)
      modifies this
      ensures buckets == Prune(old(buckets), now)
    {
      var all, todo := buckets, buckets.Keys;
      while todo != {}
        invariant todo <= all.Keys
        invariant buckets == map k | k in all && (k in todo || now - all[k].windowStarted < HOUR) :: all[k]
        decreases |todo|
      {
        var k :| k in todo;
        if now - all[k].windowStarted >= HOUR { buckets := buckets - {k}; }
        todo := todo - {k};
      }
    }
  }

  // ---- runs ----

  datatype Request = Request(key: Key, now: int)

  /** The clock is positive and never goes back. */
  ghost predicate Steady(log: seq<Request>) {
    && (forall i :: 0 <= i < |log| ==> log[i].now > 0)
    && (forall i, j :: 0 <= i < j < |log| ==> log[i].now <= log[j].now)
  }

  function After(log: seq<Request>): Buckets {
    if log == [] then map[] else Serve(After(log[..|log| - 1]), log[|log| - 1].key, log[|log| - 1].now)
  }

  function Verdicts(log: seq<Request>): (v: seq<Verdict>)
    ensures |v| == |log|
  {
    if log == [] then []
    else Verdicts(log[..|log| - 1]) + [Decide(After(log[..|log| - 1]), log[|log| - 1].key, log[|log| - 1].now)]
  }

  // ---- the limiter that never forgets ----

  function AfterAll(log: seq<Request>): Buckets {
    if log == [] then map[] else Count(AfterAll(log[..|log| - 1]), log[|log| - 1].key, log[|log| - 1].now)
  }

  function VerdictsAll(log: seq<Request>): (v: seq<Verdict>)
    ensures |v| == |log|
  {
    if log == [] then []
    else VerdictsAll(log[..|log| - 1]) + [Decide(AfterAll(log[..|log| - 1]), log[|log| - 1].key, log[|log| - 1].now)]
  }

  /** The forgetful table agrees with the full one except on windows that are long over. */
  ghost predicate Forgets(small: Buckets, full: Buckets, now: int) {
    && (forall k :: k in small ==> k in full && small[k] == full[k])
    && (forall k :: k in full && k !in small ==> now - full[k].windowStarted >= HOUR)
  }

  lemma SameDecision(small: Buckets, full: Buckets, before: int, k: Key, now: int)
    requires Forgets(small, full, before) && before <= now
    ensures Opened(small, k, now) == Opened(full, k, now) && Decide(small, k, now) == Decide(full, k, now)
  {
  }

  lemma StillForgets(small: Buckets, full: Buckets, before: int, k: Key, now: int)
    requires Forgets(small, full, before) && before <= now
    ensures Forgets(Serve(small, k, now), Count(full, k, now), now)
  {
    SameDecision(small, full, before, k, now);
  }

  /** Pruning is invisible: every request of every run gets the same verdict, retry time included,
      as from a limiter that never forgets a bucket. */
  lemma {:induction false} PruningIsInvisible(log: seq<Request>)
    requires Steady(log)
    ensures Verdicts(log) == VerdictsAll(log)
    ensures log != [] ==> Forgets(After(log), AfterAll(log), log[|log| - 1].now)
  {
    if log != [] {
      var n := |log| - 1;
      PruningIsInvisible(log[..n]);
      var before := if n == 0 then log[n].now else log[n - 1].now;
      SameDecision(After(log[..n]), AfterAll(log[..n]), before, log[n].key, log[n].now);
      StillForgets(After(log[..n]), AfterAll(log[..n]), before, log[n].key, log[n].now);
    }
  }

  // ---- how many requests get through ----

  /** Admitted requests of a key in the half-open interval of one window from `from`. */
  function Passed(log: seq<Request>, k: Key, from: int): (n: nat) {
    if log == [] then 0
    else
      var last := log[|log| - 1];
      var admitted := Decide(AfterAll(log[..|log| - 1]), last.key, last.now).Admitted?;
      Passed(log[..|log| - 1], k, from) + if last.key == k && admitted && from <= last.now < from + Window(k) then 1 else 0
  }

  /** What the current bucket of a key says about the interval starting at `from`. */
  ghost predicate Bounded(log: seq<Request>, k: Key, from: int) {
    var (full, n) := (AfterAll(log), Passed(log, k, from));
    if k !in full then n == 0
    else
      var b := full[k];
      && 1 <= b.requests <= Limit(k) && 0 < b.windowStarted <= log[|log| - 1].now
      && (log[|log| - 1].now < from ==> n == 0)
      && (b.windowStarted < from ==> n <= b.requests - 1)
      && (from <= b.windowStarted < from + Window(k) ==> n <= Limit(k) - 1 + b.requests)
      && n <= 2 * Limit(k) - 1
  }

  lemma {:induction false} NothingBefore(log: seq<Request>, k: Key, from: int)
    requires forall i :: 0 <= i < |log| ==> log[i].now < from
    ensures Passed(log, k, from) == 0
  {
    if log != [] { NothingBefore(log[..|log| - 1], k, from); }
  }

  lemma {:induction false} BoundedElsewhere(log: seq<Request>, k: Key, from: int)
    requires Steady(log) && log != [] && log[|log| - 1].key != k
    requires |log| == 1 || Bounded(log[..|log| - 1], k, from)
    requires log[|log| - 1].now < from ==> Passed(log, k, from) == 0
    ensures Bounded(log, k, from)
  {
  }

  lemma {:induction false} BoundedHere(log: seq<Request>, k: Key, from: int)
    requires Steady(log) && log != [] && log[|log| - 1].key == k
    requires |log| == 1 || Bounded(log[..|log| - 1], k, from)
    requires log[|log| - 1].now < from ==> Passed(log, k, from) == 0
    ensures Bounded(log, k, from)
  {
  }

  lemma {:induction false} AlwaysBounded(log: seq<Request>, k: Key, from: int)
    requires Steady(log)
    ensures log == [] || Bounded(log, k, from)
  {
    if log != [] {
      var n := |log| - 1;
      AlwaysBounded(log[..n], k, from);
      if log[n].now < from { NothingBefore(log, k, from); }
      if log[n].key == k { BoundedHere(log, k, from); } else { BoundedElsewhere(log, k, from); }
    }
  }

  /** The same count, from the verdicts a limiter gave. */
  function Through(log: seq<Request>, verdicts: seq<Verdict>, k: Key, from: int): (n: nat)
    requires |verdicts| == |log|
  {
    if log == [] then 0
    else
      var i := |log| - 1;
      Through(log[..i], verdicts[..i], k, from)
      + if log[i].key == k && verdicts[i].Admitted? && from <= log[i].now < from + Window(k) then 1 else 0
  }

  lemma {:induction false} ThroughIsPassed(log: seq<Request>, k: Key, from: int)
    ensures Through(log, VerdictsAll(log), k, from) == Passed(log, k, from)
  {
    if log != [] {
      var i := |log| - 1;
      ThroughIsPassed(log[..i], k, from);
      assert VerdictsAll(log)[..i] == VerdictsAll(log[..i]);
    }
  }

  /** However requests are timed, no half-open interval of one window lets more than twice the
      limit less one through: the bursts of two adjacent windows, less the request that opened the first. */
  lemma {:induction false} AtMostTwice(log: seq<Request>, k: Key, from: int)
    requires Steady(log)
    ensures Through(log, Verdicts(log), k, from) <= 2 * Limit(k) - 1
  {
    PruningIsInvisible(log);
    ThroughIsPassed(log, k, from);
    AlwaysBounded(log, k, from);
  }

  // ---- and that many can get through ----

  function Burst(k: Key, now: int, n: nat): (log: seq<Request>)
    ensures |log| == n && forall i :: 0 <= i < n ==> log[i] == Request(k, now)
  {
    if n == 0 then [] else Burst(k, now, n - 1) + [Request(k, now)]
  }

  /** The key's window started at `start` and has let `used` requests through, `passed` of them in the interval. */
  ghost predicate Filled(log: seq<Request>, k: Key, now: int, start: int, used: nat, passed: nat, from: int) {
    Opened(AfterAll(log), k, now) == Bucket(start, used) && Passed(log, k, from) == passed
  }

  lemma {:induction false} OneMore(log: seq<Request>, k: Key, now: int, start: int, used: nat, passed: nat, from: int)
    requires now > 0 && used < Limit(k) && Filled(log, k, now, start, used, passed, from)
    ensures Filled(log + [Request(k, now)], k, now, start, used + 1, passed + if from <= now < from + Window(k) then 1 else 0, from)
    ensures k in AfterAll(log + [Request(k, now)]) && AfterAll(log + [Request(k, now)])[k] == Bucket(start, used + 1)
  {
    var more := log + [Request(k, now)];
    assert more[..|log|] == log;
  }

  lemma BurstSnoc(log: seq<Request>, k: Key, now: int, n: nat)
    requires n >= 1
    ensures log + Burst(k, now, n) == (log + Burst(k, now, n - 1)) + [Request(k, now)]
    ensures n == 1 ==> log + Burst(k, now, n - 1) == log
  {
  }

  lemma {:induction false} BurstPasses(log: seq<Request>, k: Key, now: int, n: nat, start: int, used: nat, passed: nat, from: int)
    requires n >= 1 && now > 0 && used + n <= Limit(k) && Filled(log, k, now, start, used, passed, from)
    ensures Filled(log + Burst(k, now, n), k, now, start, used + n, passed + if from <= now < from + Window(k) then n else 0, from)
    ensures k in AfterAll(log + Burst(k, now, n)) && AfterAll(log + Burst(k, now, n))[k] == Bucket(start, used + n)
  {
    var mid, inside := log + Burst(k, now, n - 1), from <= now < from + Window(k);
    BurstSnoc(log, k, now, n);
    if n > 1 { BurstPasses(log, k, now, n - 1, start, used, passed, from); }
    OneMore(mid, k, now, start, used + n - 1, passed + if inside then n - 1 else 0, from);
  }

  /** A key's first request, the rest of its window's allowance at the very end, a full one right after. */
  function Extreme(k: Key): seq<Request> {
    Burst(k, 1, 1) + Burst(k, Window(k), Limit(k) - 1) + Burst(k, Window(k) + 1, Limit(k))
  }

  lemma ExtremeIsSteady(k: Key)
    ensures Steady(Extreme(k))
  {
  }

  lemma {:induction false} ExtremePasses(k: Key, w: int, l: nat)
    requires w == Window(k) && l == Limit(k)
    ensures Passed(Extreme(k), k, 2) == 2 * l - 1
  {
    var first := Burst(k, 1, 1);
    assert [] + first == first;
    BurstPasses([], k, 1, 1, 1, 0, 0, 2);
    var second := first + Burst(k, w, l - 1);
    assert w >= SECOND;
    BurstPasses(first, k, w, l - 1, 1, 1, 0, 2);
    BurstPasses(second, k, w + 1, l, w + 1, 0, l - 1, 2);
  }

  /** The bound is met on every route. */
  lemma {:induction false} TwiceIsReached(k: Key)
    ensures Steady(Extreme(k)) && Through(Extreme(k), Verdicts(Extreme(k)), k, 2) == 2 * Limit(k) - 1
  {
    ExtremeIsSteady(k);
    ExtremePasses(k, Window(k), Limit(k));
    PruningIsInvisible(Extreme(k));
    ThroughIsPassed(Extreme(k), k, 2);
  }

  // ---- what a rejection means ----

  /** A key's bucket holds only requests that were admitted since its window started. */
  ghost predicate Earned(log: seq<Request>, k: Key) {
    var full := AfterAll(log);
    k in full ==>
      && 0 < full[k].windowStarted && log != [] && full[k].windowStarted <= log[|log| - 1].now
      && full[k].requests <= Passed(log, k, full[k].windowStarted)
  }

  lemma {:induction false} EarnedElsewhere(log: seq<Request>, k: Key)
    requires Steady(log) && log != [] && log[|log| - 1].key != k && Earned(log[..|log| - 1], k)
    ensures Earned(log, k)
  {
    assert |log| > 1 ==> log[|log| - 2].now <= log[|log| - 1].now;
  }

  lemma {:induction false} EarnedHere(log: seq<Request>, k: Key)
    requires Steady(log) && log != [] && log[|log| - 1].key == k && Earned(log[..|log| - 1], k)
    ensures Earned(log, k)
  {
    var last, before := log[|log| - 1], AfterAll(log[..|log| - 1]);
    assert |log| > 1 ==> log[|log| - 2].now <= last.now;
    var b := Opened(before, k, last.now);
    assert b.windowStarted <= last.now < b.windowStarted + Window(k);
  }

  lemma {:induction false} AlwaysEarned(log: seq<Request>, k: Key)
    requires Steady(log)
    ensures Earned(log, k)
  {
    if log != [] {
      AlwaysEarned(log[..|log| - 1], k);
      if log[|log| - 1].key == k { EarnedHere(log, k); } else { EarnedElsewhere(log, k); }
    }
  }

  /** Nobody is rejected who did not get the whole limit through in less than one window. */
  lemma RejectionIsEarned(log: seq<Request>, k: Key, now: int) returns (from: int)
    requires Steady(log + [Request(k, now)]) && Decide(After(log), k, now).Rejected?
    ensures now - Window(k) < from && Through(log, Verdicts(log), k, from) >= Limit(k)
  {
    SteadyPrefix(log, [Request(k, now)]);
    SameBeforeNext(log, k, now);
    AlwaysEarned(log, k);
    ThroughIsPassed(log, k, AfterAll(log)[k].windowStarted);
    from := AfterAll(log)[k].windowStarted;
  }

  lemma SteadyPrefix(log: seq<Request>, more: seq<Request>)
    requires Steady(log + more)
    ensures Steady(log)
  {
    assert forall i :: 0 <= i < |log| ==> (log + more)[i] == log[i];
  }

  /** The next request meets the same bucket whether or not the limiter ever forgot one. */
  lemma {:induction false} SameBeforeNext(log: seq<Request>, k: Key, now: int)
    requires Steady(log + [Request(k, now)])
    ensures Opened(After(log), k, now) == Opened(AfterAll(log), k, now) && Verdicts(log) == VerdictsAll(log)
  {
    SteadyPrefix(log, [Request(k, now)]);
    PruningIsInvisible(log);
    if log != [] {
      var n := |log| - 1;
      assert (log + [Request(k, now)])[n].now <= (log + [Request(k, now)])[n + 1].now;
      SameDecision(After(log), AfterAll(log), log[n].now, k, now);
    }
  }

  lemma {:induction false} OthersDoNotCount(log: seq<Request>, more: seq<Request>, k: Key)
    requires k in AfterAll(log) && forall i :: 0 <= i < |more| ==> more[i].key != k
    ensures k in AfterAll(log + more) && AfterAll(log + more)[k] == AfterAll(log)[k]
  {
    if more == [] {
      assert log + more == log;
    } else {
      var n := |more| - 1;
      OthersDoNotCount(log, more[..n], k);
      assert (log + more)[..|log + more| - 1] == log + more[..n];
    }
  }

  /** A window opened at `start` is over once the rounded-up rest of it has passed, and not a whole second sooner. */
  lemma RestOfWindow(w: int, start: int, now: int, later: int)
    requires 0 <= now - start < w * SECOND
    ensures var told := w - (now - start) / SECOND;
      && told >= 1
      && (later >= now + told * SECOND ==> later - start >= w * SECOND)
      && (later <= now + (told - 1) * SECOND ==> later - start < w * SECOND)
  {
  }

  /** A rejection leaves its full bucket behind, and the others leave it alone. */
  lemma FullBucketStays(log: seq<Request>, k: Key, now: int, more: seq<Request>) returns (b: Bucket)
    requires Steady(log + [Request(k, now)]) && Decide(After(log), k, now).Rejected?
    requires forall i :: 0 <= i < |more| ==> more[i].key != k
    ensures b == Opened(After(log), k, now) && b.requests >= Limit(k) && b.windowStarted > 0 && 0 <= now - b.windowStarted < Window(k)
    ensures k in AfterAll(log + [Request(k, now)] + more) && AfterAll(log + [Request(k, now)] + more)[k] == b
  {
    var asked := log + [Request(k, now)];
    SteadyPrefix(log, [Request(k, now)]);
    SameBeforeNext(log, k, now);
    AlwaysEarned(log, k);
    b := Opened(AfterAll(log), k, now);
    assert log != [] ==> asked[|log| - 1].now <= asked[|log|].now;
    assert asked[..|log|] == log;
    OthersDoNotCount(asked, more, k);
  }

  /** Whoever comes back no sooner than told is admitted, whatever the others do meanwhile; a second less is in vain. */
  lemma {:induction false} RetryAfterExactly(log: seq<Request>, k: Key, now: int, more: seq<Request>, later: int)
    requires Steady(log + [Request(k, now)] + more + [Request(k, later)])
    requires forall i :: 0 <= i < |more| ==> more[i].key != k
    requires Decide(After(log), k, now).Rejected?
    ensures var seconds := Decide(After(log), k, now).retryAfter;
      && (later >= now + seconds * SECOND ==> Decide(After(log + [Request(k, now)] + more), k, later).Admitted?)
      && (later <= now + (seconds - 1) * SECOND ==> Decide(After(log + [Request(k, now)] + more), k, later).Rejected?)
  {
    var asked := log + [Request(k, now)];
    assert asked + more + [Request(k, later)] == asked + (more + [Request(k, later)]);
    SteadyPrefix(asked, more + [Request(k, later)]);
    var b := FullBucketStays(log, k, now, more);
    SameBeforeNext(asked + more, k, later);
    RestOfWindow(QuotaOf(k).windowSeconds, b.windowStarted, now, later);
  }
}
