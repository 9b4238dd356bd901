/**
 * The append-only, hash-linked evidence of one tenant. The digest of a canonical event is
 * a parameter; results that need it to be collision-free say so.
 */
module EvidenceChain {

  /** Everything in an event but its number, its link and its own hash. */
  datatype Body = Body(
    id: string, aggregateType: string, aggregateId: string, eventType: string,
    actorType: string, actorId: string, payload: string, occurredAt: string, traceId: string)

  datatype Event = Event(sequence: int, body: Body, previousHash: string, eventHash: string)

  type Digest = (int, Body, string) -> string

  datatype Verification = Verification(valid: bool, checked: nat, firstBroken: int)

  function Zeros(n: nat): (s: string)
    ensures |s| == n && forall i :: 0 <= i < n ==> s[i] == '0'
  {
    if n == 0 then "" else Zeros(n - 1) + "0"
  }

  /** What the first event links to: 64 zero digits. */
  function Genesis(): (s: string)
    ensures |s| == 64 && forall i :: 0 <= i < 64 ==> s[i] == '0'
  {
    Zeros(64)
  }

  /** A 64-bit sequence number narrowed to a 32-bit integer. */
  function Narrow(x: int): (y: int)
    ensures -0x8000_0000 <= y < 0x8000_0000 && (x - y) % 0x1_0000_0000 == 0
  {
    (x + 0x8000_0000) % 0x1_0000_0000 - 0x8000_0000
  }

  function Head(rows: seq<Event>): string {
    if rows == [] then Genesis() else rows[|rows| - 1].eventHash
  }

  /** The row carries its predecessor's hash and the hash of its own contents. */
  predicate Linked(digest: Digest, rows: seq<Event>, k: nat)
    requires k < |rows|
  {
    && rows[k].previousHash == Head(rows[..k])
    && rows[k].eventHash == digest(rows[k].sequence, rows[k].body, rows[k].previousHash)
  }

  ghost predicate Intact(digest: Digest, rows: seq<Event>) {
    forall k: nat :: k < |rows| ==> Linked(digest, rows, k)
  }

  ghost predicate FirstBreak(digest: Digest, rows: seq<Event>, k: nat) {
    k < |rows| && !Linked(digest, rows, k) && forall j: nat :: j < k ==> Linked(digest, rows, j)
  }

  function Next(digest: Digest, rows: seq<Event>, body: Body): Event {
    var sequence := if rows == [] then 1 else rows[|rows| - 1].sequence + 1;
    Event(sequence, body, Head(rows), digest(sequence, body, Head(rows)))
  }

  function Appended(digest: Digest, rows: seq<Event>, bodies: seq<Body>): seq<Event> {
    if bodies == [] then rows
    else
      var before := Appended(digest, rows, bodies[..|bodies| - 1]);
      before + [Next(digest, before, bodies[|bodies| - 1])]
  }

  /** The stored rows of a tenant, in sequence order. */
  class EvidenceLog {
    const digest: Digest
    var rows: seq<Event>

    constructor (digest: Digest)
      ensures rows == [] && this.digest == digest
    {
      this.digest, rows := digest, [];
    }

    method Append(body: Body) returns (event: Event)
      modifies this
      ensures event == Next(digest, old(rows), body) && rows == old(rows) + [event]
    {
      var sequence, previousHash := 1, Genesis();
      if rows != [] {
        var previous := rows[|rows| - 1];
        sequence, previousHash := previous.sequence + 1, previous.eventHash;
      }
      event := Event(sequence, body, previousHash, digest(sequence, body, previousHash));
      rows := rows + [event];
    }

    /** Walks the chain up to the first row that does not fit. */
    method Verify() returns (v: Verification)
      ensures Intact(digest, rows) ==> v == Verification(true, |rows|, 0)
      ensures forall k: nat :: FirstBreak(digest, rows, k) ==>
        v == Verification(Narrow(rows[k].sequence) == 0, k + 1, Narrow(rows[k].sequence))
      ensures v.valid <==> Trusted(digest, rows)
    {
      var previous, broken, checked := Genesis(), 0, 0;
      ghost var stopped := false;
      for i := 0 to |rows|
        invariant previous == Head(rows[..i]) && broken == 0 && checked == i && !stopped
        invariant forall j: nat :: j < i ==> Linked(digest, rows, j)
      {
        var row := rows[i];
        checked := checked + 1;
        if row.previousHash != previous || row.eventHash != digest(row.sequence, row.body, row.previousHash) {
          broken := Narrow(row.sequence);
          stopped := true;
          assert FirstBreak(digest, rows, i);
          break;
        }
        previous := row.eventHash;
        assert rows[..i + 1][i] == row;
      }
      if stopped {
        assert FirstBreak(digest, rows, checked - 1);
      } else {
        assert Intact(digest, rows);
      }
      v := Verification(broken == 0, checked, broken);
    }
  }

  /** What a verification without a complaint amounts to: intact, or first broken at a row whose
      number narrows to zero. */
  ghost predicate Trusted(digest: Digest, rows: seq<Event>) {
    Intact(digest, rows) || exists k: nat :: FirstBreak(digest, rows, k) && Narrow(rows[k].sequence) == 0
  }

  // ---- what verification finds ----

  lemma {:induction false} SomeBreak(digest: Digest, rows: seq<Event>, upto: nat) returns (k: nat)
    requires upto <= |rows| && exists j: nat :: j < upto && !Linked(digest, rows, j)
    ensures FirstBreak(digest, rows, k) && k < upto
  {
    if exists j: nat :: j < upto - 1 && !Linked(digest, rows, j) {
      k := SomeBreak(digest, rows, upto - 1);
    } else {
      k := upto - 1;
    }
  }

  lemma NarrowsToZero(x: int)
    ensures Narrow(x) == 0 <==> x % 0x1_0000_0000 == 0
  {
  }

  /** There is one first break, and it alone decides what the report says. */
  lemma BreakDecides(digest: Digest, rows: seq<Event>, k: nat)
    requires FirstBreak(digest, rows, k)
    ensures !Intact(digest, rows) && (Trusted(digest, rows) <==> Narrow(rows[k].sequence) == 0)
    ensures forall j: nat :: FirstBreak(digest, rows, j) ==> j == k
  {
  }

  /** A clean report means an intact chain exactly when the first row that does not fit, if any,
      has a number that is no multiple of 2^32. */
  lemma CleanMeansIntactExactly(digest: Digest, rows: seq<Event>)
    ensures (Trusted(digest, rows) ==> Intact(digest, rows))
       <==> forall k: nat :: FirstBreak(digest, rows, k) ==> rows[k].sequence % 0x1_0000_0000 != 0
  {
    if !Intact(digest, rows) {
      var k := SomeBreak(digest, rows, |rows|);
      BreakDecides(digest, rows, k);
      NarrowsToZero(rows[k].sequence);
    }
  }

  /** In particular for every chain whose numbers are those of a chain of fewer than 2^32 events. */
  lemma CleanMeansIntact(digest: Digest, rows: seq<Event>)
    requires forall k :: 0 <= k < |rows| ==> 1 <= rows[k].sequence < 0x1_0000_0000
    ensures Trusted(digest, rows) <==> Intact(digest, rows)
  {
    CleanMeansIntactExactly(digest, rows);
  }

  /** A forged row numbered 2^32 is reported as valid. */
  lemma ForgedRowPasses(digest: Digest, body: Body)
    ensures var rows := [Event(0x1_0000_0000, body, "forged", "forged")];
      Trusted(digest, rows) && !Intact(digest, rows)
  {
    var rows := [Event(0x1_0000_0000, body, "forged", "forged")];
    assert |rows[0].previousHash| != |Genesis()|;
    assert FirstBreak(digest, rows, 0);
  }

  // ---- chains built by appending ----

  lemma LinkedPrefix(digest: Digest, rows: seq<Event>, more: seq<Event>, k: nat)
    requires k < |rows| && rows <= more
    ensures Linked(digest, more, k) == Linked(digest, rows, k)
  {
    assert more[..k] == rows[..k];
  }

  /** Every chain built by appends verifies and is numbered 1, 2, ..., n. */
  lemma {:induction false} AppendedIsIntact(digest: Digest, bodies: seq<Body>)
    ensures var rows := Appended(digest, [], bodies);
      && Intact(digest, rows) && |rows| == |bodies|
      && forall k :: 0 <= k < |rows| ==> rows[k].sequence == k + 1 && rows[k].body == bodies[k]
  {
    if bodies != [] {
      var n := |bodies| - 1;
      AppendedIsIntact(digest, bodies[..n]);
      var before, rows := Appended(digest, [], bodies[..n]), Appended(digest, [], bodies);
      forall k: nat | k < |rows| ensures Linked(digest, rows, k) {
        if k < n { LinkedPrefix(digest, before, rows, k); } else { assert rows[..n] == before; }
      }
    }
  }

  // ---- the head hash pins the whole chain ----

  ghost predicate CollisionFree(digest: Digest) {
    && (forall s, b, p, s', b', p' :: digest(s, b, p) == digest(s', b', p') ==> s == s' && b == b' && p == p')
    && (forall s, b, p :: digest(s, b, p) != Genesis())
  }

  lemma IntactPrefix(digest: Digest, rows: seq<Event>, k: nat)
    requires Intact(digest, rows) && k <= |rows|
    ensures Intact(digest, rows[..k])
  {
    forall j: nat | j < k ensures Linked(digest, rows[..k], j) {
      LinkedPrefix(digest, rows[..k], rows, j);
      assert Linked(digest, rows, j);
    }
  }

  /** Two verifying chains with the same head are the same chain, row by row. */
  lemma {:induction false} HeadPinsChain(digest: Digest, a: seq<Event>, b: seq<Event>)
    requires CollisionFree(digest) && Intact(digest, a) && Intact(digest, b) && Head(a) == Head(b)
    ensures a == b
  {
    HeadOfIntact(digest, a);
    HeadOfIntact(digest, b);
    if a != [] {
      var m, n := |a| - 1, |b| - 1;
      assert Linked(digest, a, m) && Linked(digest, b, n);
      IntactPrefix(digest, a, m);
      IntactPrefix(digest, b, n);
      HeadPinsChain(digest, a[..m], b[..n]);
      assert a == a[..m] + [a[m]] && b == b[..n] + [b[n]];
    }
  }

  lemma HeadOfIntact(digest: Digest, rows: seq<Event>)
    requires CollisionFree(digest) && Intact(digest, rows)
    ensures Head(rows) == Genesis() <==> rows == []
  {
    if rows != [] {
      assert Linked(digest, rows, |rows| - 1);
    }
  }

  /** So whoever kept the head of an appended log can tell any other clean chain from it. */
  lemma {:induction false} TamperingShows(digest: Digest, bodies: seq<Body>, forged: seq<Event>)
    requires CollisionFree(digest) && forged != Appended(digest, [], bodies)
    requires forall k :: 0 <= k < |forged| ==> 1 <= forged[k].sequence < 0x1_0000_0000
    ensures Head(forged) != Head(Appended(digest, [], bodies)) || !Trusted(digest, forged)
  {
    AppendedIsIntact(digest, bodies);
    CleanMeansIntact(digest, forged);
    if Trusted(digest, forged) && Head(forged) == Head(Appended(digest, [], bodies)) {
      HeadPinsChain(digest, forged, Appended(digest, [], bodies));
    }
  }

  /** Without the head, dropping the newest events is not noticed. */
  lemma TruncationPasses(digest: Digest, rows: seq<Event>, k: nat)
    requires Intact(digest, rows) && k <= |rows|
    ensures Trusted(digest, rows[..k])
  {
    IntactPrefix(digest, rows, k);
  }
}
