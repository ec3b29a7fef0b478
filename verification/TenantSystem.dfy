/** The read API on the tables the workers leave: what their tenant invariant gives an organization's callers. */
module TenantSystem {
  import opened Wrappers
  import opened Timestamps
  import opened RecordIntegrity
  import opened Events
  import opened Sinks
  import opened Delivery
  import opened AuditSystem
  import Queries
  import Signing
  import TenantReads

  function TextOf(v: Value): Option<string> { if v.Text? then Some(v.s) else None }

  function OrEmpty(o: Option<string>): string { if o.Some? then o.value else "" }

  /** A stored row as the query service reads it. */
  function RowOf(r: Record): Queries.Row {
    var moment := Get(r, "timestamp");
    Queries.Row(
      OrEmpty(TextOf(Get(r, "event_id"))), if moment.Moment? then moment.t.wall else 0, TextOf(Get(r, "user_id")),
      TextOf(Get(r, "organization_id")), OrEmpty(TextOf(Get(r, "tenant_scope"))), OrEmpty(TextOf(Get(r, "service"))),
      OrEmpty(TextOf(Get(r, "event_type"))), TextOf(Get(r, "decision")), OrEmpty(TextOf(Get(r, "integrity_status"))))
  }

  function RowsOf(rows: seq<Record>): (t: seq<Queries.Row>)
    ensures |t| == |rows| && forall i :: 0 <= i < |t| ==> t[i] == RowOf(rows[i])
  {
    seq(|rows|, i requires 0 <= i < |rows| => RowOf(rows[i]))
  }

  /** A plain column is read as it was written. */
  lemma PlainColumn(store: Store, row: Record, read: Record, field: string)
    requires ReadsAs(store, row, read) && field != "timestamp" && field != "context"
    ensures Get(read, field) == Get(row, field)
  {
    if field in row { assert ColumnReadsAs(store, field, row[field], read[field]); }
  }

  /** After every run a stored row, as the query service reads it from either store, says what the event its entry
      parses to says, and how that entry was signed. */
  lemma StoredRowTells(u: Setup, n: nat, ls: seq<Label>, s: State, store: Store, id: string, read: Record)
    returns (k: nat, freshId: string, utcNow: Datetime, e: AuditEvent)
    requires Run(WorkerConfig(u), Initial(n), ls) == Some(s) && id in s.events && ReadsAs(store, s.events[id], read)
    ensures k < |s.stream| && s.stream[k].data.Some? && ParseEvent(u.loads, s.stream[k].data, freshId, utcNow) == Some(e)
    ensures IsDatetime(e.timestamp) && TenantConsistent(e)
    ensures var row := RowOf(read);
      && row.eventId == e.eventId == id && row.timestamp == Timestamps.Stored(store, InstantOf(e.timestamp))
      && row.userId == e.userId && row.organizationId == e.organizationId && row.tenantScope == e.tenantScope
      && row.service == e.service && row.eventType == e.eventType && row.decision == e.decision
      && SignedAs(u, e.service, s.stream[k], row.integrityStatus)
  {
    k, freshId, utcNow, e := EventSource(u, n, ls, s, id);
    var data, sig := s.stream[k].data.value, s.stream[k].sig;
    var status := Signing.IntegrityStatus(u.signingMac, e.service, sig, data);
    EventColumns(u.mac, u.key, e, status, s.events[id]);
    ReadColumns(store, s.events[id], read, e, status);
    Signing.ValidIffSigned(u.signingMac, e.service, sig, data);
  }

  /** The status of an entry: "unsigned" without a signature, "valid" with exactly the signer's, else "invalid". */
  predicate SignedAs(u: Setup, service: string, entry: Entry, status: string)
    requires entry.data.Some?
  {
    if entry.sig.None? || entry.sig.value == "" then status == "unsigned"
    else if Signing.Sign(u.signingMac, service, entry.data.value) == entry.sig then status == "valid"
    else status == "invalid"
  }

  /** The columns the query service reads. */
  lemma ReadColumns(store: Store, row: Record, read: Record, e: AuditEvent, status: string)
    requires ReadsAs(store, row, read)
    requires Get(row, "event_id") == Text(e.eventId) && Get(row, "timestamp") == Moment(Datetime(InstantOf(e.timestamp), None))
    requires Says(Get(row, "user_id"), e.userId) && Says(Get(row, "organization_id"), e.organizationId)
    requires Get(row, "tenant_scope") == Text(e.tenantScope) && Get(row, "service") == Text(e.service)
    requires Get(row, "event_type") == Text(e.eventType) && Says(Get(row, "decision"), e.decision)
    requires Get(row, "integrity_status") == Text(status)
    ensures RowOf(read) == Queries.Row(
      e.eventId, Timestamps.Stored(store, InstantOf(e.timestamp)), e.userId, e.organizationId, e.tenantScope, e.service,
      e.eventType, e.decision, status)
  {
    PlainColumn(store, row, read, "event_id");
    PlainColumn(store, row, read, "user_id");
    PlainColumn(store, row, read, "organization_id");
    PlainColumn(store, row, read, "tenant_scope");
    PlainColumn(store, row, read, "service");
    PlainColumn(store, row, read, "event_type");
    PlainColumn(store, row, read, "decision");
    PlainColumn(store, row, read, "integrity_status");
    assert "timestamp" in row && ColumnReadsAs(store, "timestamp", row["timestamp"], read["timestamp"]);
  }

  /** After every run, however the store hands the rows back and under any filters: the query service may page
      through the table, and an organization's view is the platform-wide view filtered to it. */
  lemma OrganizationViewAfterEveryRun(u: Setup, n: nat, ls: seq<Label>, s: State, store: Store, ids: seq<string>, rows: seq<Record>,
                                      organization: string, f: Queries.Filters, own: seq<Queries.Row>, platform: seq<Queries.Row>)
    requires Run(WorkerConfig(u), Initial(n), ls) == Some(s) && ReadsTable(store, s.events, ids, rows)
    requires Queries.IsListing(RowsOf(rows), r => TenantReads.Shown(TenantReads.Organization(organization), f.(organizationId := None), r), own)
    requires Queries.IsListing(RowsOf(rows), r => TenantReads.Shown(TenantReads.PlatformWide, f.(organizationId := Some(organization)), r), platform)
    ensures Queries.DistinctIds(RowsOf(rows)) && own == platform
  {
    forall i | 0 <= i < |rows|
      ensures RowOf(rows[i]).eventId == ids[i]
      ensures RowOf(rows[i]).tenantScope == "organization" <==> RowOf(rows[i]).organizationId.Some?
    {
      var k, f, t, e := StoredRowTells(u, n, ls, s, store, ids[i], rows[i]);
    }
    TenantReads.ConsistentViewsAgree(organization, f, RowsOf(rows), own, platform);
  }
}
