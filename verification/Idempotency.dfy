/**
 * The envelope around every mutating request. What the routes do is a parameter: any function
 * of the stored world and the request, whose nonce stands for clocks and generated identifiers.
 */
module Idempotency {
  import opened Wrappers

  datatype Key = Key(tenant: string, actor: string, route: string, token: string)

  datatype Request = Request(key: Key, digest: string, nonce: nat)

  datatype Response = Response(status: int, body: string)

  datatype Record = Record(digest: string, response: Response)

  datatype Store<W> = Store(world: W, records: map<Key, Record>)

  /** `dispatch` runs the route; `audit` writes the evidence and deliveries of an accepted mutation, or fails. */
  datatype Routes<!W> = Routes(dispatch: (W, Request) -> (W, Response), audit: (W, Request, Response) -> Option<W>)

  const REUSED := Response(409, "IDEMPOTENCY_KEY_REUSED")
  const ROLLED_BACK := Response(500, "MUTATION_ROLLED_BACK")

  /** Server errors undo the transaction, except insufficient storage. */
  predicate Undone(status: int) { status >= 500 && status != 507 }

  /** The transaction: run the route, record the answer, audit what was accepted. */
  function Transact<W>(routes: Routes<W>, s: Store<W>, r: Request): Option<(Store<W>, Response)> {
    var (world, response) := routes.dispatch(s.world, r);
    if Undone(response.status) || r.key in s.records then None
    else
      var recorded := Store(world, s.records[r.key := Record(r.digest, response)]);
      if response.status >= 400 then Some((recorded, response))
      else match routes.audit(world, r, response)
        case None => None
        case Some(audited) => Some((recorded.(world := audited), response))
  }

  /** `early` says the lookup was made before another request recorded the same key. */
  function Handle<W>(routes: Routes<W>, s: Store<W>, r: Request, early: bool): (Store<W>, Response) {
    if !early && r.key in s.records then
      (s, if s.records[r.key].digest == r.digest then s.records[r.key].response else REUSED)
    else match Transact(routes, s, r)
      case None => (s, ROLLED_BACK)
      case Some(done) => done
  }

  // ---- the envelope itself ----

  class Envelope<!W> {
    var world: W
    var records: map<Key, Record>

    function Contents(): Store<W>
      reads this
    {
      Store(world, records)
    }

    constructor (world: W)
      ensures Contents() == Store(world, map[])
    {
      this.world, records := world, map[];
    }

    method Run(routes: Routes<W>, r: Request) returns (committed: bool, response: Response)
      modifies this
      ensures committed == Transact(routes, old(Contents()), r).Some?
      ensures committed ==> Transact(routes, old(Contents()), r).value == (Contents(), response)
      ensures !committed ==> Contents() == old(Contents())
    {
      var before, kept := world, records;
      var (after, answer) := routes.dispatch(world, r);
      world, response := after, answer;
      committed := !Undone(response.status) && r.key !in records;
      if committed {
        records := records[r.key := Record(r.digest, response)];
        if response.status < 400 {
          var audited := routes.audit(world, r, response);
          if audited.Some? { world := audited.value; } else { committed := false; }
        }
      }
      if !committed { world, records := before, kept; }
    }

    method Serve(routes: Routes<W>, r: Request) returns (response: Response)
      modifies this
      ensures (Contents(), response) == Handle(routes, old(Contents()), r, false)
    {
      if r.key in records {
        return if records[r.key].digest == r.digest then records[r.key].response else REUSED;
      }
      var committed;
      committed, response := Run(routes, r);
      if !committed { response := ROLLED_BACK; }
    }
  }

  // ---- logs ----

  datatype Event<!W> =
    | Call(request: Request, early: bool)
    | Background(change: W -> W)
    | Cleanup(gone: set<Key>)

  function Step<W>(routes: Routes<W>, s: Store<W>, e: Event<W>): Store<W> {
    match e
    case Call(r, early) => Handle(routes, s, r, early).0
    case Background(change) => s.(world := change(s.world))
    case Cleanup(gone) => s.(records := map k | k in s.records && k !in gone :: s.records[k])
  }

  function Play<W>(routes: Routes<W>, s: Store<W>, log: seq<Event<W>>): Store<W>
    decreases |log|
  {
    if log == [] then s else Play(routes, Step(routes, s, log[0]), log[1..])
  }

  /** A call whose key is recorded when it arrives. */
  predicate Retry<W>(s: Store<W>, e: Event<W>) { e.Call? && e.request.key in s.records }

  /** The log without its retries. */
  function Pruned<W>(routes: Routes<W>, s: Store<W>, log: seq<Event<W>>): seq<Event<W>>
    decreases |log|
  {
    if log == [] then []
    else if Retry(s, log[0]) then Pruned(routes, s, log[1..])
    else [log[0]] + Pruned(routes, Step(routes, s, log[0]), log[1..])
  }

  /** A retry never changes anything, whether its digest matches, differs, or it lost a race. */
  lemma RetryChangesNothing<W>(routes: Routes<W>, s: Store<W>, e: Event<W>)
    requires Retry(s, e)
    ensures Step(routes, s, e) == s
    ensures Handle(routes, s, e.request, e.early).1 ==
      if e.early then ROLLED_BACK
      else if s.records[e.request.key].digest == e.request.digest then s.records[e.request.key].response
      else REUSED
  {
  }

  /** Deleting every retry from a log leaves the final store unchanged. */
  lemma {:induction false} RetriesAreTransparent<W>(routes: Routes<W>, s: Store<W>, log: seq<Event<W>>)
    ensures Play(routes, s, Pruned(routes, s, log)) == Play(routes, s, log)
    decreases |log|
  {
    if log != [] {
      if Retry(s, log[0]) {
        RetryChangesNothing(routes, s, log[0]);
        RetriesAreTransparent(routes, s, log[1..]);
      } else {
        var next := Step(routes, s, log[0]);
        RetriesAreTransparent(routes, next, log[1..]);
        var rest := Pruned(routes, next, log[1..]);
        assert ([log[0]] + rest)[1..] == rest;
      }
    }
  }

  /** No call of a pruned log is a retry, so each key takes effect at most once between cleanups. */
  predicate RetryFree<W>(routes: Routes<W>, s: Store<W>, log: seq<Event<W>>)
    decreases |log|
  {
    log == [] || (!Retry(s, log[0]) && RetryFree(routes, Step(routes, s, log[0]), log[1..]))
  }

  lemma {:induction false} PrunedIsRetryFree<W>(routes: Routes<W>, s: Store<W>, log: seq<Event<W>>)
    ensures RetryFree(routes, s, Pruned(routes, s, log))
    decreases |log|
  {
    if log != [] {
      if Retry(s, log[0]) {
        PrunedIsRetryFree(routes, s, log[1..]);
      } else {
        var next := Step(routes, s, log[0]);
        PrunedIsRetryFree(routes, next, log[1..]);
        var rest := Pruned(routes, next, log[1..]);
        assert ([log[0]] + rest)[1..] == rest;
      }
    }
  }

  /** A call under a fresh key either leaves no trace and is answered with a rollback, or takes effect and is
      recorded under its key alone: server errors but 507 leave none, an accepted one whose audit fails neither. */
  lemma TakesEffectExactly<W>(routes: Routes<W>, s: Store<W>, r: Request, early: bool)
    requires r.key !in s.records
    ensures var (t, answer) := Handle(routes, s, r, early);
      var (world, given) := routes.dispatch(s.world, r);
      var audited := routes.audit(world, r, given);
      if (given.status < 400 && audited.None?) || 500 <= given.status < 507 || 507 < given.status
      then t == s && answer == Response(500, "MUTATION_ROLLED_BACK")
      else
        && answer == given && t.world == (if given.status < 400 then audited.value else world)
        && r.key in t.records && t.records[r.key] == Record(r.digest, given)
        && (forall k :: k in t.records && k != r.key <==> k in s.records)
        && forall k :: k in s.records ==> t.records[k] == s.records[k]
  {
  }

  /** A record stays exactly as it was written until a cleanup takes it. */
  lemma {:induction false} RecordStays<W>(routes: Routes<W>, s: Store<W>, log: seq<Event<W>>, key: Key)
    requires key in s.records && forall e :: e in log && e.Cleanup? ==> key !in e.gone
    ensures var t := Play(routes, s, log); key in t.records && t.records[key] == s.records[key]
    decreases |log|
  {
    if log != [] {
      assert log[0] in log;
      assert forall e :: e in log[1..] ==> e in log;
      RecordStays(routes, Step(routes, s, log[0]), log[1..], key);
    }
  }

  /** Whatever happens in between, a retry of a committed request gets the first answer's status
      and body; with a different digest it gets the conflict. */
  lemma RetryGetsFirstAnswer<W>(routes: Routes<W>, s: Store<W>, first: Request, log: seq<Event<W>>, again: Request)
    requires Transact(routes, s, first).Some? && again.key == first.key
    requires forall e :: e in log && e.Cleanup? ==> first.key !in e.gone
    ensures var (t, answer) := Handle(routes, s, first, true);
      var u := Play(routes, t, log);
      Handle(routes, u, again, false) == (u, if again.digest == first.digest then answer else REUSED)
  {
    var (t, answer) := Handle(routes, s, first, true);
    assert t.records[first.key] == Record(first.digest, answer);
    RecordStays(routes, t, log, first.key);
  }
}
