/** Keyset pagination: newest first, one row more than the page to see whether there is another. */
module Pagination {
  import opened Wrappers
  import opened Ordering

  datatype Row = Row(id: string, createdAt: string, environment: string, status: string)

  /** Every query parameter but the cursor; an empty filter matches everything. */
  datatype Filters = Filters(environment: string, status: string, limit: Option<int>)

  datatype Payload = Payload(kind: string, sort: string, id: string, filters: Filters)

  datatype Token = Token(payload: Payload, signature: string)

  type Hmac = Payload -> string

  /** `limit` is what the parameter reads as, None when it is no number. */
  function PageLimit(limit: Option<int>): (n: nat)
    ensures 1 <= n <= 200
  {
    if limit.None? then 50 else Max(1, Min(200, limit.value))
  }

  function MakeCursor(hmac: Hmac, kind: string, filters: Filters, last: Row): Token {
    var payload := Payload(kind, last.createdAt, last.id, filters);
    Token(payload, hmac(payload))
  }

  /** A cursor is accepted only unaltered, for its own list, its own filters and with both keys. */
  function ReadCursor(hmac: Hmac, kind: string, filters: Filters, token: Token): Result<Payload> {
    if token.payload.kind != kind || token.payload.filters != filters || token.signature != hmac(token.payload)
       || token.payload.sort == "" || token.payload.id == ""
    then Err(Error("CURSOR_INVALID", 400)) else Ok(token.payload)
  }

  // ---- the query ----

  /** ORDER BY created_at DESC, id DESC. */
  predicate Newer(a: Row, b: Row) {
    Below(b.createdAt, a.createdAt) || (a.createdAt == b.createdAt && Below(b.id, a.id))
  }

  /** The WHERE clause a cursor adds. */
  predicate Beyond(from: Option<Payload>, r: Row) {
    from.None? || Below(r.createdAt, from.value.sort) || (r.createdAt == from.value.sort && Below(r.id, from.value.id))
  }

  predicate Matches(f: Filters, r: Row) {
    (f.environment == "" || r.environment == f.environment) && (f.status == "" || r.status == f.status)
  }

  function Select(table: seq<Row>, f: Filters, from: Option<Payload>): (rows: seq<Row>)
    ensures forall r :: r in rows <==> r in table && Matches(f, r) && Beyond(from, r)
  {
    if table == [] then []
    else
      var n := |table| - 1;
      assert table == table[..n] + [table[n]];
      Select(table[..n], f, from) + if Matches(f, table[n]) && Beyond(from, table[n]) then [table[n]] else []
  }

  function List(table: seq<Row>, f: Filters, from: Option<Payload>): seq<Row> {
    Sort(Newer, Select(table, f, from))
  }

  datatype Page = Page(items: seq<Row>, next: Option<Token>)

  /** The route: at most `limit` rows, and a cursor at the last of them if there are more. */
  function FetchPage(hmac: Hmac, table: seq<Row>, f: Filters, token: Option<Token>): Result<Page> {
    var read := if token.None? then Ok(None) else
      match ReadCursor(hmac, "fleets", f, token.value)
      case Ok(p) => Ok(Some(p))
      case Err(e) => Err(e);
    match read
    case Err(e) => Err(e)
    case Ok(from) =>
      var limit := PageLimit(f.limit);
      var rows := List(table, f, from);
      if |rows| > limit then Ok(Page(rows[..limit], Some(MakeCursor(hmac, "fleets", f, rows[limit - 1])))) else Ok(Page(rows, None))
  }

  /** Following cursors, one page from each successive state of the table. */
  datatype Walked = Walked(items: seq<Row>, finished: bool, refused: bool)

  function Walk(hmac: Hmac, tables: seq<seq<Row>>, f: Filters, token: Option<Token>): Walked {
    if tables == [] then Walked([], false, false)
    else match FetchPage(hmac, tables[0], f, token)
      case Err(_) => Walked([], false, true)
      case Ok(page) =>
        if page.next.None? then Walked(page.items, true, false)
        else var rest := Walk(hmac, tables[1..], f, page.next); rest.(items := page.items + rest.items)
  }

  // ---- rows and their order ----

  ghost predicate Keyed(dom: set<Row>) {
    && (forall r, q :: r in dom && q in dom && r.id == q.id ==> r == q)
    && (forall r :: r in dom ==> r.id != "" && r.createdAt != "")
  }

  ghost predicate Table(table: seq<Row>, dom: set<Row>) {
    Distinct(table) && forall r :: r in table ==> r in dom
  }

  /** Rows are only inserted from one page to the next. */
  ghost predicate Growing(tables: seq<seq<Row>>, dom: set<Row>) {
    && (forall i :: 0 <= i < |tables| ==> Table(tables[i], dom))
    && (forall i, j :: 0 <= i <= j < |tables| ==> Contains(tables[j], tables[i]))
  }

  ghost predicate Contains(big: seq<Row>, small: seq<Row>) { forall r :: r in small ==> r in big }

  lemma NewerLinear(dom: set<Row>)
    requires Keyed(dom)
    ensures Linear(Newer, dom)
  {
    forall x, y | x in dom && y in dom && Newer(x, y) ensures !Newer(y, x) {
      BelowTrichotomy(x.createdAt, y.createdAt);
      BelowTrichotomy(x.id, y.id);
    }
    forall x, y | x in dom && y in dom && x != y ensures Newer(x, y) || Newer(y, x) {
      BelowTrichotomy(x.createdAt, y.createdAt);
      BelowTrichotomy(x.id, y.id);
    }
    forall x, y, z | x in dom && y in dom && z in dom && Newer(x, y) && Newer(y, z) ensures Newer(x, z) {
      NewerTransitive(x, y, z);
    }
  }

  lemma NewerTransitive(x: Row, y: Row, z: Row)
    requires Newer(x, y) && Newer(y, z)
    ensures Newer(x, z)
  {
    BelowTrichotomy(x.createdAt, x.createdAt);
    BelowTrichotomy(y.createdAt, y.createdAt);
    if x.createdAt == y.createdAt == z.createdAt {
      BelowTransitive(z.id, y.id, x.id);
    } else if x.createdAt != y.createdAt && y.createdAt != z.createdAt {
      BelowTransitive(z.createdAt, y.createdAt, x.createdAt);
    }
  }

  lemma {:induction false} SelectDistinct(table: seq<Row>, f: Filters, from: Option<Payload>)
    requires Distinct(table)
    ensures Distinct(Select(table, f, from))
  {
    if table != [] { SelectDistinct(table[..|table| - 1], f, from); }
  }

  lemma ListFacts(table: seq<Row>, f: Filters, from: Option<Payload>, dom: set<Row>)
    requires Keyed(dom) && Table(table, dom)
    ensures Ascending(Newer, List(table, f, from))
    ensures forall r :: r in List(table, f, from) <==> r in table && Matches(f, r) && Beyond(from, r)
  {
    var rows := Select(table, f, from);
    SelectDistinct(table, f, from);
    NewerLinear(dom);
    SortAscends(Newer, rows, dom);
    SortKeeps(Newer, rows);
    forall r ensures r in Sort(Newer, rows) <==> r in rows {
      assert r in Sort(Newer, rows) <==> r in multiset(Sort(Newer, rows));
    }
  }

  // ---- following cursors ----

  /** A cursor the server made for these filters, at a row with both keys. */
  ghost predicate Genuine(hmac: Hmac, f: Filters, token: Option<Token>) {
    token.Some? ==> ReadCursor(hmac, "fleets", f, token.value) == Ok(token.value.payload)
  }

  function From(token: Option<Token>): Option<Payload> {
    if token.None? then None else Some(token.value.payload)
  }

  ghost predicate Covers(items: seq<Row>, table: seq<Row>, f: Filters, from: Option<Payload>) {
    forall r :: r in table && Matches(f, r) && Beyond(from, r) ==> r in items
  }

  ghost predicate Within(items: seq<Row>, table: seq<Row>, f: Filters, from: Option<Payload>) {
    forall r :: r in items ==> r in table && Matches(f, r) && Beyond(from, r)
  }

  /** A page is an initial piece of the list, and a genuine cursor to what follows. */
  lemma PageFacts(hmac: Hmac, table: seq<Row>, f: Filters, token: Option<Token>, dom: set<Row>)
    requires Keyed(dom) && Table(table, dom) && Genuine(hmac, f, token)
    ensures var page := FetchPage(hmac, table, f, token); page.Ok? && GoodPage(hmac, table, f, token, page.value)
  {
    var rows := List(table, f, From(token));
    ListFacts(table, f, From(token), dom);
    var limit := PageLimit(f.limit);
    if |rows| > limit {
      var last := rows[limit - 1];
      assert last in rows;
      NextFacts(hmac, f, rows, limit);
    }
  }

  lemma NextFacts(hmac: Hmac, f: Filters, rows: seq<Row>, limit: nat)
    requires Ascending(Newer, rows) && 1 <= limit < |rows|
    ensures var next := Some(MakeCursor(hmac, "fleets", f, rows[limit - 1]).payload);
      && (forall r :: r in rows && r !in rows[..limit] ==> Beyond(next, r))
      && (forall r, q :: r in rows[..limit] && Beyond(next, q) ==> Newer(r, q))
  {
    var last := rows[limit - 1];
    assert forall k :: 0 <= k < limit ==> rows[k] in rows[..limit];
    forall r | r in rows && r !in rows[..limit] ensures Newer(last, r) {
      var i :| 0 <= i < |rows| && rows[i] == r;
    }
    forall r, q | r in rows[..limit] && Newer(last, q) ensures Newer(r, q) {
      var i :| 0 <= i < limit && rows[i] == r;
      if i < limit - 1 { NewerTransitive(r, last, q); }
    }
  }

  lemma AscendingConcat(a: seq<Row>, b: seq<Row>)
    requires Ascending(Newer, a) && Ascending(Newer, b) && forall r, q :: r in a && q in b ==> Newer(r, q)
    ensures Ascending(Newer, a + b)
  {
    forall i, j | 0 <= i < j < |a + b| ensures Newer((a + b)[i], (a + b)[j]) {
      if i < |a| <= j { assert (a + b)[i] in a && (a + b)[j] in b; }
    }
  }

  lemma BeyondMore(hmac: Hmac, f: Filters, token: Option<Token>, last: Row, r: Row)
    requires Beyond(From(token), last) && Newer(last, r)
    ensures Beyond(From(token), r)
  {
    if token.Some? {
      NewerTransitive(Row(token.value.payload.id, token.value.payload.sort, "", ""), last, r);
    }
  }

  lemma GrowingTail(tables: seq<seq<Row>>, dom: set<Row>)
    requires tables != [] && Growing(tables, dom)
    ensures Growing(tables[1..], dom)
  {
    forall i, j | 0 <= i <= j < |tables[1..]| ensures Contains(tables[1..][j], tables[1..][i]) {
      assert Contains(tables[j + 1], tables[i + 1]);
    }
  }

  ghost predicate GoodPage(hmac: Hmac, table: seq<Row>, f: Filters, token: Option<Token>, page: Page) {
    && Genuine(hmac, f, page.next)
    && Ascending(Newer, page.items) && Within(page.items, table, f, From(token))
    && (page.next.None? ==> Covers(page.items, table, f, From(token)))
    && (page.next.Some? ==>
          && |page.items| == PageLimit(f.limit)
          && (forall r :: r in table && Matches(f, r) && Beyond(From(token), r) && r !in page.items ==> Beyond(From(page.next), r))
          && (forall r, q :: r in page.items && Beyond(From(page.next), q) ==> Newer(r, q)))
  }

  ghost predicate GoodWalk(tables: seq<seq<Row>>, f: Filters, token: Option<Token>, w: Walked)
    requires tables != []
  {
    && !w.refused && Ascending(Newer, w.items) && Within(w.items, tables[|tables| - 1], f, From(token))
    && (w.finished ==> Covers(w.items, tables[0], f, From(token)))
    && (!w.finished ==> |w.items| == PageLimit(f.limit) * |tables|)
  }

  /** Every walk: strictly newest first, only matching rows, nothing refused, and each row that was
      there when the walk began is met if the walk finishes. */
  lemma {:induction false} WalkFacts(hmac: Hmac, tables: seq<seq<Row>>, f: Filters, token: Option<Token>, dom: set<Row>)
    requires Keyed(dom) && Growing(tables, dom) && tables != [] && Genuine(hmac, f, token)
    ensures GoodWalk(tables, f, token, Walk(hmac, tables, f, token))
  {
    assert Table(tables[0], dom);
    PageFacts(hmac, tables[0], f, token, dom);
    var page := FetchPage(hmac, tables[0], f, token).value;
    if page.next.None? {
      LastPage(hmac, tables, f, token, page, dom);
    } else if |tables| == 1 {
      assert Walk(hmac, tables[1..], f, page.next) == Walked([], false, false);
      assert page.items + [] == page.items;
    } else {
      GrowingTail(tables, dom);
      WalkFacts(hmac, tables[1..], f, page.next, dom);
      Grown(tables, dom);
      WalkJoins(hmac, tables, f, token, page, Walk(hmac, tables[1..], f, page.next));
    }
  }

  lemma Grown(tables: seq<seq<Row>>, dom: set<Row>)
    requires tables != [] && Growing(tables, dom)
    ensures Contains(tables[|tables| - 1], tables[0]) && (|tables| > 1 ==> Contains(tables[1], tables[0]))
  {
  }

  lemma LastPage(hmac: Hmac, tables: seq<seq<Row>>, f: Filters, token: Option<Token>, page: Page, dom: set<Row>)
    requires tables != [] && Growing(tables, dom) && page.next.None?
    requires GoodPage(hmac, tables[0], f, token, page)
    ensures GoodWalk(tables, f, token, Walked(page.items, true, false))
  {
    Grown(tables, dom);
  }

  lemma WalkJoins(hmac: Hmac, tables: seq<seq<Row>>, f: Filters, token: Option<Token>, page: Page, rest: Walked)
    requires |tables| > 1 && page.next.Some? && GoodPage(hmac, tables[0], f, token, page)
    requires Contains(tables[|tables| - 1], tables[0]) && Contains(tables[1], tables[0])
    requires GoodWalk(tables[1..], f, page.next, rest)
    ensures GoodWalk(tables, f, token, rest.(items := page.items + rest.items))
  {
    AscendingConcat(page.items, rest.items);
    forall r | r in rest.items ensures Beyond(From(token), r) {
      var last := page.items[|page.items| - 1];
      assert last in page.items;
      BeyondMore(hmac, f, token, last, r);
    }
  }

  // ---- the main results ----

  lemma {:induction false} DistinctFits<T>(s: seq<T>, t: seq<T>)
    requires Distinct(s) && forall x :: x in s ==> x in t
    ensures |s| <= |t|
  {
    if s != [] {
      var n := |s| - 1;
      assert s[n] in s;
      var k :| 0 <= k < |t| && t[k] == s[n];
      var rest := t[..k] + t[k + 1..];
      forall x | x in s[..n] ensures x in rest {
        assert x in s;
        var j :| 0 <= j < |t| && t[j] == x;
        assert if j < k then rest[j] == x else rest[j - 1] == x;
      }
      DistinctFits(s[..n], rest);
    }
  }

  /** Rows inserted between pages never make a row be skipped or repeated: a finished walk is
      strictly newest first and holds every row that was there at its start exactly once. */
  lemma {:induction false} NothingSkippedOrRepeated(hmac: Hmac, tables: seq<seq<Row>>, f: Filters, dom: set<Row>, r: Row)
    requires Keyed(dom) && Growing(tables, dom) && tables != []
    requires Walk(hmac, tables, f, None).finished
    ensures var items := Walk(hmac, tables, f, None).items;
      && Ascending(Newer, items)
      && multiset(items)[r] <= 1
      && (r in tables[0] && Matches(f, r) ==> multiset(items)[r] == 1)
      && (r in items ==> r in tables[|tables| - 1] && Matches(f, r))
  {
    var items := Walk(hmac, tables, f, None).items;
    WalkFacts(hmac, tables, f, None, dom);
    WalkDistinct(tables, f, Walk(hmac, tables, f, None), dom);
    DistinctOnce(items, r);
  }

  lemma {:induction false} WalkDistinct(tables: seq<seq<Row>>, f: Filters, w: Walked, dom: set<Row>)
    requires Keyed(dom) && Growing(tables, dom) && tables != [] && GoodWalk(tables, f, None, w)
    ensures Distinct(w.items) && forall r :: r in w.items ==> r in Select(tables[|tables| - 1], f, None)
  {
    NewerLinear(dom);
    assert Table(tables[|tables| - 1], dom);
    AscendingDistinct(Newer, w.items, dom);
  }

  /** A walk ends as soon as its pages could hold more rows than match. */
  lemma WalkEnds(hmac: Hmac, tables: seq<seq<Row>>, f: Filters, dom: set<Row>)
    requires Keyed(dom) && Growing(tables, dom) && tables != []
    requires PageLimit(f.limit) * |tables| > |Select(tables[|tables| - 1], f, None)|
    ensures Walk(hmac, tables, f, None).finished
  {
    WalkFacts(hmac, tables, f, None, dom);
    var w := Walk(hmac, tables, f, None);
    if !w.finished {
      WalkDistinct(tables, f, w, dom);
      DistinctFits(w.items, Select(tables[|tables| - 1], f, None));
    }
  }

  function Copies(table: seq<Row>, n: nat): (tables: seq<seq<Row>>)
    ensures |tables| == n && forall i :: 0 <= i < n ==> tables[i] == table
  {
    if n == 0 then [] else [table] + Copies(table, n - 1)
  }

  /** On a table at rest, following cursors with any page limit ends and returns exactly the whole
      filtered list in order. */
  lemma {:induction false} FollowingCursorsIsTheList(hmac: Hmac, table: seq<Row>, f: Filters, pages: nat, dom: set<Row>)
    requires Keyed(dom) && Table(table, dom) && pages > |Select(table, f, None)|
    ensures var w := Walk(hmac, Copies(table, pages), f, None);
      w.finished && w.items == List(table, f, None) && NewestFirst(w.items) && Selects(w.items, table, f)
  {
    CopiesGrow(table, pages, dom);
    WalkOfResting(hmac, table, Copies(table, pages), f, dom);
    ListFacts(table, f, None, dom);
  }

  /** Later creation first, and the higher identifier first among rows of one moment. */
  ghost predicate NewestFirst(items: seq<Row>) {
    forall i, j :: 0 <= i < j < |items| ==>
      Below(items[j].createdAt, items[i].createdAt) || (items[j].createdAt == items[i].createdAt && Below(items[j].id, items[i].id))
  }

  /** The rows of the table that have every property the filters name. */
  ghost predicate Selects(items: seq<Row>, table: seq<Row>, f: Filters) {
    forall r :: r in items <==>
      r in table && (f.environment in {"", r.environment}) && (f.status in {"", r.status})
  }

  /** A page has as many rows as were asked for, 50 if nothing was, at least 1 and at most 200, unless fewer
      are left; it has a cursor exactly when more are left, and that cursor is at its last row. */
  lemma PageExactly(hmac: Hmac, table: seq<Row>, f: Filters, token: Option<Token>, dom: set<Row>)
    requires Keyed(dom) && Table(table, dom) && Genuine(hmac, f, token)
    ensures var page := FetchPage(hmac, table, f, token).value;
      var asked := if f.limit.None? then 50 else f.limit.value;
      var (left, most) := (List(table, f, From(token)), if asked < 1 then 1 else if asked > 200 then 200 else asked);
      && page.items == (if |left| < most then left else left[..most])
      && (page.next.Some? <==> |left| > most)
      && (page.next.Some? ==> page.next == Some(MakeCursor(hmac, "fleets", f, page.items[most - 1])))
      && NewestFirst(left) && forall r :: r in left <==> r in table && Matches(f, r) && Beyond(From(token), r)
  {
    ListFacts(table, f, From(token), dom);
  }

  /** A cursor is accepted exactly when the server made it, for this list and these filters, at a row with
      both keys; its signature stands for whatever the server's key would sign. */
  lemma CursorExactly(hmac: Hmac, kind: string, f: Filters, token: Token)
    ensures ReadCursor(hmac, kind, f, token).Ok? <==>
      exists row: Row :: row.createdAt != "" && row.id != "" && token == MakeCursor(hmac, kind, f, row)
    ensures ReadCursor(hmac, kind, f, token).Ok? ==> ReadCursor(hmac, kind, f, token).value == token.payload
  {
    if ReadCursor(hmac, kind, f, token).Ok? {
      assert token == MakeCursor(hmac, kind, f, Row(token.payload.id, token.payload.sort, "", ""));
    }
  }

  lemma {:induction false} WalkOfResting(hmac: Hmac, table: seq<Row>, tables: seq<seq<Row>>, f: Filters, dom: set<Row>)
    requires Keyed(dom) && Growing(tables, dom) && tables != [] && tables[0] == table == tables[|tables| - 1]
    requires |tables| > |Select(table, f, None)|
    ensures Walk(hmac, tables, f, None).finished && Walk(hmac, tables, f, None).items == List(table, f, None)
  {
    assert Table(tables[0], dom);
    EnoughPages(PageLimit(f.limit), |tables|);
    WalkEnds(hmac, tables, f, dom);
    WalkFacts(hmac, tables, f, None, dom);
    RestingWalk(table, tables, f, Walk(hmac, tables, f, None), dom);
  }

  lemma RestingWalk(table: seq<Row>, tables: seq<seq<Row>>, f: Filters, w: Walked, dom: set<Row>)
    requires Keyed(dom) && Table(table, dom) && tables != [] && tables[0] == table == tables[|tables| - 1]
    requires GoodWalk(tables, f, None, w) && w.finished
    ensures w.items == List(table, f, None)
  {
    ListFacts(table, f, None, dom);
    NewerLinear(dom);
    SameMembersSameOrder(Newer, List(table, f, None), w.items, dom);
  }

  lemma {:induction false} CopiesGrow(table: seq<Row>, n: nat, dom: set<Row>)
    requires Table(table, dom)
    ensures Growing(Copies(table, n), dom)
  {
    assert Contains(table, table);
  }

  lemma EnoughPages(limit: nat, n: nat)
    requires limit >= 1
    ensures limit * n >= n
  {
    assert (limit - 1) * n >= 0;
  }
}
