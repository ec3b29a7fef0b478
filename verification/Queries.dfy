/** Paginated audit queries (services/audit_query_service.py). */
module Queries {
  import opened Wrappers
  import opened Json
  import opened Timestamps

  /** The columns the queries read. */
  datatype Row = Row(eventId: string, timestamp: int, userId: Option<string>, organizationId: Option<string>,
                     tenantScope: string, service: string, eventType: string, decision: Option<string>,
                     integrityStatus: string)

  datatype Column = UserId | OrganizationId | TenantScope | Service | EventType | Decision | IntegrityStatus

  function Cell(r: Row, column: Column): Option<string> {
    match column
    case UserId => r.userId
    case OrganizationId => r.organizationId
    case TenantScope => Some(r.tenantScope)
    case Service => Some(r.service)
    case EventType => Some(r.eventType)
    case Decision => r.decision
    case IntegrityStatus => Some(r.integrityStatus)
  }

  /** One `query.filter(...)` argument. Comparing with None asks for NULL; a bound is taken by its wall clock,
      since the driver drops an offset without converting. */
  datatype Condition = Equals(column: Column, value: Option<string>) | NotBefore(t: Datetime) | NotAfter(t: Datetime)

  predicate Meets(r: Row, cond: Condition) {
    match cond
    case Equals(column, value) => Cell(r, column) == value
    case NotBefore(t) => r.timestamp >= t.wall
    case NotAfter(t) => r.timestamp <= t.wall
  }

  predicate MeetsAll(r: Row, query: seq<Condition>) { forall q :: q in query ==> Meets(r, q) }

  function Select(table: seq<Row>, query: seq<Condition>): seq<Row> {
    if table == [] then []
    else (if MeetsAll(table[0], query) then [table[0]] else []) + Select(table[1..], query)
  }

  // ----- order and pages -----

  /** ORDER BY timestamp DESC, event_id DESC. */
  predicate Precedes(a: Row, b: Row) {
    a.timestamp > b.timestamp || (a.timestamp == b.timestamp && Before(b.eventId, a.eventId))
  }

  function Insert(r: Row, rows: seq<Row>): seq<Row> {
    if rows == [] || !Precedes(rows[0], r) then [r] + rows else [rows[0]] + Insert(r, rows[1..])
  }

  function Ordered(rows: seq<Row>): seq<Row> {
    if rows == [] then [] else Insert(rows[0], Ordered(rows[1..]))
  }

  /** OFFSET (page - 1) * size LIMIT size. */
  function Page(rows: seq<Row>, page: nat, size: nat): seq<Row>
    requires page >= 1
  {
    var offset := (page - 1) * size;
    if offset >= |rows| then [] else if offset + size >= |rows| then rows[offset..] else rows[offset..offset + size]
  }

  /** `(total + page_size - 1) // page_size if total else 0`. */
  function TotalPages(total: nat, size: nat): nat
    requires size >= 1
  {
    if total == 0 then 0 else (total + size - 1) / size
  }

  // ----- the ordering is the only one -----

  predicate DistinctIds(rows: seq<Row>) {
    forall i, j :: 0 <= i < j < |rows| ==> rows[i].eventId != rows[j].eventId
  }

  predicate StrictlyOrdered(rows: seq<Row>) {
    forall i, j :: 0 <= i < j < |rows| ==> Precedes(rows[i], rows[j])
  }

  lemma PrecedesTransitive(a: Row, b: Row, c: Row)
    requires Precedes(a, b) && Precedes(b, c)
    ensures Precedes(a, c)
  {
    if a.timestamp == b.timestamp == c.timestamp { BeforeTransitive(c.eventId, b.eventId, a.eventId); }
  }

  lemma PrecedesTotal(a: Row, b: Row)
    ensures Precedes(a, b) || Precedes(b, a) || a.eventId == b.eventId
  {
    BeforeTotal(a.eventId, b.eventId);
  }

  lemma PrecedesIrreflexive(a: Row)
    ensures !Precedes(a, a)
  {
    BeforeIrreflexive(a.eventId);
  }

  lemma {:induction false} InsertKeepsRows(r: Row, rows: seq<Row>)
    ensures multiset(Insert(r, rows)) == multiset(rows) + multiset{r}
  {
    if rows != [] {
      assert rows == [rows[0]] + rows[1..];
      if Precedes(rows[0], r) { InsertKeepsRows(r, rows[1..]); }
    }
  }

  lemma {:induction false} OrderedKeepsRows(rows: seq<Row>)
    ensures multiset(Ordered(rows)) == multiset(rows)
  {
    if rows != [] {
      OrderedKeepsRows(rows[1..]);
      InsertKeepsRows(rows[0], Ordered(rows[1..]));
      assert rows == [rows[0]] + rows[1..];
    }
  }

  lemma SameMembers(a: seq<Row>, b: seq<Row>, r: Row)
    requires multiset(a) == multiset(b)
    ensures r in a <==> r in b
  {
    assert r in a <==> r in multiset(a);
    assert r in b <==> r in multiset(b);
  }

  lemma {:induction false} InsertOrdered(r: Row, rows: seq<Row>)
    requires StrictlyOrdered(rows) && forall x :: x in rows ==> x.eventId != r.eventId
    ensures StrictlyOrdered(Insert(r, rows))
  {
    if rows == [] {
    } else if !Precedes(rows[0], r) {
      PrecedesTotal(rows[0], r);
      assert rows[0] in rows;
      forall i | 0 < i < |rows| ensures Precedes(r, rows[i]) { PrecedesTransitive(r, rows[0], rows[i]); }
      ConsOrdered(r, rows);
    } else {
      var rest := rows[1..];
      InsertOrdered(r, rest);
      InsertKeepsRows(r, rest);
      forall x | x in Insert(r, rest) ensures Precedes(rows[0], x) {
        assert x in multiset(Insert(r, rest));
        assert x == r || x in rest;
      }
      forall i | 0 <= i < |Insert(r, rest)| ensures Precedes(rows[0], Insert(r, rest)[i]) {}
      ConsOrdered(rows[0], Insert(r, rest));
    }
  }

  lemma ConsOrdered(r: Row, rows: seq<Row>)
    requires StrictlyOrdered(rows) && forall i :: 0 <= i < |rows| ==> Precedes(r, rows[i])
    ensures StrictlyOrdered([r] + rows)
  {
    forall i, j | 0 <= i < j < |[r] + rows| ensures Precedes(([r] + rows)[i], ([r] + rows)[j]) {
      assert ([r] + rows)[j] == rows[j - 1];
    }
  }

  /** Distinct event ids make the order strict. */
  lemma {:induction false} OrderedIsStrict(rows: seq<Row>)
    requires DistinctIds(rows)
    ensures StrictlyOrdered(Ordered(rows))
  {
    if rows != [] {
      var rest := rows[1..];
      assert forall i :: 0 <= i < |rest| ==> rest[i] == rows[i + 1];
      OrderedIsStrict(rest);
      OrderedKeepsRows(rest);
      forall x | x in Ordered(rest) ensures x.eventId != rows[0].eventId {
        SameMembers(Ordered(rest), rest, x);
      }
      InsertOrdered(rows[0], Ordered(rest));
    }
  }

  lemma RestMembers(rows: seq<Row>, r: Row)
    requires StrictlyOrdered(rows) && rows != []
    ensures r in rows[1..] <==> r in rows && r != rows[0]
  {
    PrecedesIrreflexive(rows[0]);
    if r in rows[1..] {
      var i :| 0 <= i < |rows| - 1 && rows[1..][i] == r;
      assert rows[i + 1] == r;
    }
    if r in rows && r != rows[0] {
      var i :| 0 <= i < |rows| && rows[i] == r;
      assert rows[1..][i - 1] == r;
    }
  }

  /** A strict order on the same rows is one list: the listing does not depend on how the rows are stored. */
  lemma {:induction false} StrictOrderUnique(a: seq<Row>, b: seq<Row>)
    requires StrictlyOrdered(a) && StrictlyOrdered(b) && forall r :: r in a <==> r in b
    ensures a == b
  {
    assert (a != [] ==> a[0] in a) && (b != [] ==> b[0] in b);
    if a != [] && b != [] {
      assert a[0] in b;
      assert b[0] in a;
      if a[0] != b[0] {
        FirstPrecedes(a, b[0]);
        FirstPrecedes(b, a[0]);
        PrecedesTransitive(a[0], b[0], a[0]);
        PrecedesIrreflexive(a[0]);
      }
      forall r ensures r in a[1..] <==> r in b[1..] {
        RestMembers(a, r);
        RestMembers(b, r);
      }
      StrictOrderUnique(a[1..], b[1..]);
      assert a == [a[0]] + a[1..] && b == [b[0]] + b[1..];
    }
  }

  lemma FirstPrecedes(rows: seq<Row>, r: Row)
    requires StrictlyOrdered(rows) && rows != [] && r in rows && r != rows[0]
    ensures Precedes(rows[0], r)
  {
    var i :| 0 <= i < |rows| && rows[i] == r;
  }

  lemma {:induction false} SelectKeepsDistinct(table: seq<Row>, query: seq<Condition>)
    requires DistinctIds(table)
    ensures DistinctIds(Select(table, query))
    ensures forall r :: r in Select(table, query) <==> r in table && MeetsAll(r, query)
  {
    if table != [] {
      var rest := table[1..];
      assert forall i :: 0 <= i < |rest| ==> rest[i] == table[i + 1];
      SelectKeepsDistinct(rest, query);
      assert table == [table[0]] + rest;
      forall r | r in Select(rest, query) ensures r.eventId != table[0].eventId {
        var i :| 0 <= i < |rest| && rest[i] == r;
        assert table[i + 1] == r;
      }
    }
  }

  // ----- pages -----

  /** Pages 1 to n, one after the other. */
  function FirstPages(rows: seq<Row>, size: nat, n: nat): seq<Row> {
    if n == 0 then [] else FirstPages(rows, size, n - 1) + Page(rows, n, size)
  }

  lemma {:induction false} FirstPagesPrefix(rows: seq<Row>, size: nat, n: nat)
    ensures FirstPages(rows, size, n) == if n * size >= |rows| then rows else rows[..n * size]
  {
    if n == 0 {
      assert n * size == 0;
    } else {
      FirstPagesPrefix(rows, size, n - 1);
      assert n * size == (n - 1) * size + size;
    }
  }

  /** The pages in order are the whole listing, each row once, and later pages are empty. */
  lemma PagesCover(rows: seq<Row>, size: nat)
    requires size >= 1
    ensures FirstPages(rows, size, TotalPages(|rows|, size)) == rows
    ensures forall page: nat :: page > TotalPages(|rows|, size) ==> Page(rows, page, size) == []
  {
    var n := TotalPages(|rows|, size);
    assert n * size >= |rows| by { LastPageReaches(|rows|, size); }
    FirstPagesPrefix(rows, size, n);
    forall page: nat | page > n ensures Page(rows, page, size) == [] {
      assert (page - 1) * size >= n * size by { Scale(n, page - 1, size); }
    }
  }

  /** None of them is empty, so `total_pages` is the least number of pages that holds every row. */
  lemma PagesNotEmpty(rows: seq<Row>, size: nat, page: nat)
    requires size >= 1 && 1 <= page
    ensures page <= TotalPages(|rows|, size) <==> Page(rows, page, size) != []
    ensures page <= TotalPages(|rows|, size) <==> (page - 1) * size < |rows|
  {
    var n := TotalPages(|rows|, size);
    LastPageReaches(|rows|, size);
    if page <= n {
      Scale(page - 1, n - 1, size);
    } else {
      Scale(n, page - 1, size);
    }
  }

  lemma Scale(a: nat, b: nat, size: nat)
    requires a <= b
    ensures a * size <= b * size
  {
    assert b * size == a * size + (b - a) * size;
  }

  /** The least number of pages of that size that holds `total` rows. */
  predicate LeastPages(total: nat, size: nat, pages: nat) {
    pages * size >= total && (pages > 0 ==> (pages - 1) * size < total)
  }

  lemma LastPageReaches(total: nat, size: nat)
    requires size >= 1
    ensures LeastPages(total, size, TotalPages(total, size))
  {
    if total > 0 {
      var q, r := (total + size - 1) / size, (total + size - 1) % size;
      assert total + size - 1 == size * q + r && r <= size - 1;
      assert q * size == size * q && (q - 1) * size == q * size - size;
    }
  }

  // ----- the services -----

  datatype Filters = Filters(userId: Option<string>, organizationId: Option<string>, service: Option<string>,
                             eventType: Option<string>, decision: Option<string>, from: Option<Datetime>, to: Option<Datetime>,
                             integrityStatus: Option<string>)

  predicate Admits(f: Option<string>, cell: Option<string>) { f.Some? ==> cell == f }

  predicate InRange(from: Option<Datetime>, to: Option<Datetime>, r: Row) {
    (from.Some? ==> r.timestamp >= from.value.wall) && (to.Some? ==> r.timestamp <= to.value.wall)
  }

  /** The stored timestamps are UTC, so a bound means the instant it names exactly when it has no offset or a
      zero one. */
  lemma BoundMeansInstantIff(t: Datetime)
    ensures (forall r: Row :: Meets(r, NotBefore(t)) <==> r.timestamp >= InstantOf(t)) <==> t.offset.None? || t.offset.value == 0
    ensures (forall r: Row :: Meets(r, NotAfter(t)) <==> r.timestamp <= InstantOf(t)) <==> t.offset.None? || t.offset.value == 0
  {
    if t.wall != InstantOf(t) {
      var (lower, upper) := if t.wall < InstantOf(t) then (t.wall, InstantOf(t)) else (InstantOf(t), t.wall);
      var early, late := RowAt(lower), RowAt(upper);
      assert Meets(early, NotBefore(t)) != (early.timestamp >= InstantOf(t));
      assert Meets(late, NotAfter(t)) != (late.timestamp <= InstantOf(t));
    }
  }

  function RowAt(timestamp: int): Row { Row("", timestamp, None, None, "", "", "", None, "") }

  /** What a caller asks for: every filter that is given holds. */
  predicate Wanted(f: Filters, r: Row) {
    && Admits(f.userId, r.userId) && Admits(f.organizationId, r.organizationId)
    && Admits(f.service, Some(r.service)) && Admits(f.eventType, Some(r.eventType))
    && Admits(f.decision, r.decision) && Admits(f.integrityStatus, Some(r.integrityStatus))
    && InRange(f.from, f.to, r)
  }

  /** The rows `p` picks out of a table, as one list in listing order: what a page is a slice of. */
  ghost predicate IsListing(table: seq<Row>, p: Row -> bool, out: seq<Row>) {
    StrictlyOrdered(out) && forall r :: r in out <==> r in table && p(r)
  }

  /** What one call must answer: a page of the listing, and the listing's length. */
  ghost predicate IsPage(table: seq<Row>, p: Row -> bool, page: nat, size: nat, rows: seq<Row>, total: nat)
    requires page >= 1
  {
    exists listing :: IsListing(table, p, listing) && rows == Page(listing, page, size) && total == |listing|
  }

  lemma SamePage(table: seq<Row>, p: Row -> bool, q: Row -> bool, page: nat, size: nat, rows: seq<Row>, total: nat)
    requires page >= 1 && IsPage(table, p, page, size, rows, total) && forall r :: p(r) <==> q(r)
    ensures IsPage(table, q, page, size, rows, total)
  {
    var listing :| IsListing(table, p, listing) && rows == Page(listing, page, size) && total == |listing|;
    assert IsListing(table, q, listing);
  }

  function Flatten(pages: seq<seq<Row>>): seq<Row> {
    if pages == [] then [] else Flatten(pages[..|pages| - 1]) + pages[|pages| - 1]
  }

  /** Every answer is a page of the same listing. */
  lemma PageOf(table: seq<Row>, p: Row -> bool, page: nat, size: nat, rows: seq<Row>, total: nat, listing: seq<Row>)
    requires page >= 1 && IsPage(table, p, page, size, rows, total) && IsListing(table, p, listing)
    ensures rows == Page(listing, page, size) && total == |listing|
  {
    var other :| IsListing(table, p, other) && rows == Page(other, page, size) && total == |other|;
    ListingUnique(table, table, p, listing, other);
  }

  /** Answers to calls for pages 1, 2, ... of one query. */
  ghost predicate Answers(table: seq<Row>, p: Row -> bool, size: nat, pages: seq<seq<Row>>, total: nat) {
    pages != [] ==>
      var n := |pages| - 1;
      IsPage(table, p, n + 1, size, pages[n], total) && Answers(table, p, size, pages[..n], total)
  }

  lemma {:induction false} AllPagesOf(table: seq<Row>, p: Row -> bool, size: nat, pages: seq<seq<Row>>, total: nat, listing: seq<Row>)
    requires Answers(table, p, size, pages, total) && IsListing(table, p, listing)
    ensures Flatten(pages) == FirstPages(listing, size, |pages|)
  {
    if pages != [] {
      var n := |pages| - 1;
      AllPagesOf(table, p, size, pages[..n], total, listing);
      PageOf(table, p, n + 1, size, pages[n], total, listing);
    }
  }

  /** Answers to calls for pages 1 to total_pages, put together, are the listing: every matching row, once, in
      order. */
  lemma PagesGiveListing(table: seq<Row>, p: Row -> bool, size: nat, first: seq<Row>, total: nat, pages: seq<seq<Row>>)
    requires size >= 1 && IsPage(table, p, 1, size, first, total) && |pages| == TotalPages(total, size)
    requires Answers(table, p, size, pages, total)
    ensures IsListing(table, p, Flatten(pages)) && |Flatten(pages)| == total
  {
    var listing :| IsListing(table, p, listing) && first == Page(listing, 1, size) && total == |listing|;
    AllPagesOf(table, p, size, pages, total, listing);
    PagesCover(listing, size);
  }

  /** Where in the listing a row of a page is. */
  function PageIndex(rows: seq<Row>, page: nat, size: nat, i: nat): (k: nat)
    requires page >= 1 && i < |Page(rows, page, size)|
    ensures k < |rows| && i < size && Page(rows, page, size)[i] == rows[k]
  {
    (page - 1) * size + i
  }

  lemma OffsetsApart(page: nat, later: nat, size: nat)
    requires 1 <= page < later
    ensures (page - 1) * size + size <= (later - 1) * size
  {
    Scale(page, later - 1, size);
    assert page * size == (page - 1) * size + size;
  }

  lemma IndicesApart(size: nat, page: nat, i: nat, later: nat, j: nat)
    requires 1 <= page <= later && i < size && (page < later || i < j)
    ensures (page - 1) * size + i < (later - 1) * size + j
  {
    if page < later { OffsetsApart(page, later, size); }
  }

  lemma RowsInOrder(rows: seq<Row>, size: nat, page: nat, i: nat, later: nat, j: nat)
    requires 1 <= page <= later && StrictlyOrdered(rows) && i < |Page(rows, page, size)| && j < |Page(rows, later, size)|
    requires page < later || i < j
    ensures var a, b := Page(rows, page, size)[i], Page(rows, later, size)[j];
      b.timestamp < a.timestamp || (b.timestamp == a.timestamp && Before(b.eventId, a.eventId))
  {
    var a, b := PageIndex(rows, page, size, i), PageIndex(rows, later, size, j);
    IndicesApart(size, page, i, later, j);
    assert Precedes(rows[a], rows[b]);
  }

  /** Answers are newest first, within a page and from one page to a later one. */
  lemma NewestFirst(table: seq<Row>, p: Row -> bool, size: nat, page: nat, rows: seq<Row>, later: nat, older: seq<Row>, total: nat)
    requires 1 <= page <= later && IsPage(table, p, page, size, rows, total) && IsPage(table, p, later, size, older, total)
    ensures forall i, j :: 0 <= i < |rows| && 0 <= j < |older| && (page < later || i < j) ==>
      older[j].timestamp < rows[i].timestamp || (older[j].timestamp == rows[i].timestamp && Before(older[j].eventId, rows[i].eventId))
  {
    var listing :| IsListing(table, p, listing) && rows == Page(listing, page, size) && total == |listing|;
    PageOf(table, p, later, size, older, total, listing);
    forall i, j | 0 <= i < |rows| && 0 <= j < |older| && (page < later || i < j)
      ensures older[j].timestamp < rows[i].timestamp || (older[j].timestamp == rows[i].timestamp && Before(older[j].eventId, rows[i].eventId))
    {
      RowsInOrder(listing, size, page, i, later, j);
    }
  }

  /** A call for a later page answers with no rows and the same total. */
  lemma LaterPagesEmpty(table: seq<Row>, p: Row -> bool, size: nat, page: nat, rows: seq<Row>, total: nat)
    requires size >= 1 && page > TotalPages(total, size) && IsPage(table, p, page, size, rows, total)
    ensures rows == [] && forall listing :: IsListing(table, p, listing) ==> |listing| == total
  {
    var listing :| IsListing(table, p, listing) && rows == Page(listing, page, size) && total == |listing|;
    PagesCover(listing, size);
    forall other | IsListing(table, p, other) ensures |other| == total {
      ListingUnique(table, table, p, listing, other);
    }
  }

  /** There is only one listing, whatever order the table is stored in. */
  lemma ListingUnique(table: seq<Row>, other: seq<Row>, p: Row -> bool, a: seq<Row>, b: seq<Row>)
    requires IsListing(table, p, a) && IsListing(other, p, b) && forall r :: r in table <==> r in other
    ensures a == b
  {
    StrictOrderUnique(a, b);
  }

  /** Running a query gives the listing of its conditions. */
  lemma QueryIsListing(table: seq<Row>, query: seq<Condition>)
    requires DistinctIds(table)
    ensures IsListing(table, r => MeetsAll(r, query), Ordered(Select(table, query)))
    ensures |Ordered(Select(table, query))| == |Select(table, query)|
  {
    var picked := Select(table, query);
    SelectKeepsDistinct(table, query);
    OrderedIsStrict(picked);
    OrderedKeepsRows(picked);
    assert |multiset(Ordered(picked))| == |multiset(picked)|;
    forall r ensures r in Ordered(picked) <==> r in table && MeetsAll(r, query) {
      SameMembers(Ordered(picked), picked, r);
    }
  }

  /** `query.filter(condition)`. */
  function Filter(query: seq<Condition>, cond: Condition): (q: seq<Condition>)
    ensures forall r :: MeetsAll(r, q) <==> MeetsAll(r, query) && Meets(r, cond)
  {
    assert forall r :: MeetsAll(r, query + [cond]) ==> Meets(r, cond) by { assert cond in query + [cond]; }
    assert forall q :: q in query ==> q in query + [cond];
    query + [cond]
  }

  /** `if value is not None: query = query.filter(column == value)`. */
  function FilterGiven(query: seq<Condition>, column: Column, value: Option<string>): (q: seq<Condition>)
    ensures forall r :: MeetsAll(r, q) <==> MeetsAll(r, query) && Admits(value, Cell(r, column))
  {
    if value.Some? then Filter(query, Equals(column, value)) else query
  }

  function FilterRange(query: seq<Condition>, from: Option<Datetime>, to: Option<Datetime>): (q: seq<Condition>)
    ensures forall r :: MeetsAll(r, q) <==> MeetsAll(r, query) && InRange(from, to, r)
  {
    var q := if from.Some? then Filter(query, NotBefore(from.value)) else query;
    if to.Some? then Filter(q, NotAfter(to.value)) else q
  }

  /** The filters of `list_audit_events`, one by one. */
  method BuildQuery(f: Filters) returns (query: seq<Condition>)
    ensures forall r :: MeetsAll(r, query) <==> Wanted(f, r)
  {
    query := [];
    query := FilterGiven(query, UserId, f.userId);
    query := FilterGiven(query, OrganizationId, f.organizationId);
    query := FilterGiven(query, Service, f.service);
    query := FilterGiven(query, EventType, f.eventType);
    query := FilterGiven(query, Decision, f.decision);
    query := FilterRange(query, f.from, f.to);
    query := FilterGiven(query, IntegrityStatus, f.integrityStatus);
  }

  /** Count, order, offset and limit. */
  method RunQuery(table: seq<Row>, query: seq<Condition>, page: nat, pageSize: nat) returns (rows: seq<Row>, total: nat)
    requires DistinctIds(table) && page >= 1 && pageSize >= 1
    ensures IsPage(table, r => MeetsAll(r, query), page, pageSize, rows, total)
  {
    var picked := Select(table, query);
    total := |picked|;
    rows := Page(Ordered(picked), page, pageSize);
    QueryIsListing(table, query);
  }

  /** `list_audit_events`: the requested page of the one listing of the wanted rows, and its length. */
  method ListAuditEvents(table: seq<Row>, page: nat, pageSize: nat, f: Filters) returns (rows: seq<Row>, total: nat)
    requires DistinctIds(table) && page >= 1 && pageSize >= 1
    ensures IsPage(table, r => Wanted(f, r), page, pageSize, rows, total)
  {
    var query := BuildQuery(f);
    rows, total := RunQuery(table, query, page, pageSize);
    SamePage(table, r => MeetsAll(r, query), r => Wanted(f, r), page, pageSize, rows, total);
  }
}
