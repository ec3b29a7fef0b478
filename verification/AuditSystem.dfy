/**
 The whole write path put together: the delivery protocol run with the real row builders, and what the
 integrity verifier then says about the tables any such run leaves behind.
 */
module AuditSystem {
  import opened Wrappers
  import opened Decimal
  import opened Json
  import opened Timestamps
  import opened Lines
  import opened RecordIntegrity
  import opened RecordIntegrityLaws
  import opened Events
  import opened Sinks
  import opened Delivery
  import Safety = DeliverySafety
  import Signing
  import opened Verifier
  import opened Tables

  /** What the worker is configured with: thresholds, parser, record key and signing key. */
  datatype Setup = Setup(minIdle: nat, maxDeliveries: nat, batch: nat,
                         loads: Loader, mac: Mac, key: Key, signingMac: Signing.SigningMac)

  /** What the parser yields is typed as the schema types it, and a hash is never empty text. */
  ghost predicate IsSetup(u: Setup) {
    && (forall raw :: u.loads(raw).Object? && u.loads(raw).draft.Some? ==> IsDraft(u.loads(raw).draft.value))
    && (forall k, m :: u.mac(k, m) != "")
  }

  /** The `Sink.write` call of `handle_message`: parse, classify the signature, build the row. */
  function BuildEventRow(u: Setup, entry: Entry, freshId: string, utcNow: Datetime): Option<(string, Record)> {
    match ParseEvent(u.loads, entry.data, freshId, utcNow)
    case None => None
    case Some(e) =>
      if entry.data.None? || !IsEvent(e) then None
      else
        var status := Signing.IntegrityStatus(u.signingMac, e.service, entry.sig, entry.data.value);
        match EventRow(u.mac, u.key, e, status)
        case None => None
        case Some(row) => Some((e.eventId, row))
  }

  function IdText(id: nat): (s: string)
    ensures s != ""
  {
    NatText(id) + "-0"
  }

  function BuildQuarantineRow(u: Setup, id: nat, entry: Entry, attempts: nat): Record {
    QuarantineRow(u.mac, u.key,
                  QuarantineRecord(IdText(id), entry.data, entry.sig, PoisonReason(u.loads, entry.data), attempts))
  }

  function WorkerConfig(u: Setup): Config {
    Config(u.minIdle, u.maxDeliveries, u.batch,
           (entry: Entry) => Parses(u.loads, entry.data),
           (entry: Entry) => CarriedId(u.loads, entry.data),
           (entry, freshId, utcNow) => BuildEventRow(u, entry, freshId, utcNow),
           (id: nat, entry: Entry, attempts: nat) => BuildQuarantineRow(u, id, entry, attempts))
  }

  lemma WorkerConfigOk(u: Setup)
    ensures IsConfig(WorkerConfig(u))
    ensures var c := WorkerConfig(u); c.minIdle == u.minIdle && c.maxDeliveries == u.maxDeliveries && c.batch == u.batch
  {
    var c := WorkerConfig(u);
    forall entry, freshId, utcNow | c.eventRow(entry, freshId, utcNow).Some?
      ensures c.parses(entry)
      ensures c.eventRow(entry, freshId, utcNow).value.0 == if c.carriedId(entry).Some? then c.carriedId(entry).value else freshId
    {
      BuiltFromEvent(u, entry, freshId, utcNow);
    }
  }

  /** A row that could be built comes from an event the entry parses to. */
  lemma BuiltFromEvent(u: Setup, entry: Entry, freshId: string, utcNow: Datetime)
    requires BuildEventRow(u, entry, freshId, utcNow).Some?
    ensures Parses(u.loads, entry.data)
    ensures var id := CarriedId(u.loads, entry.data);
      BuildEventRow(u, entry, freshId, utcNow).value.0 == if id.Some? then id.value else freshId
    ensures ParseEvent(u.loads, entry.data, freshId, utcNow).Some? && entry.data.Some?
    ensures var e, (id, row) := ParseEvent(u.loads, entry.data, freshId, utcNow).value, BuildEventRow(u, entry, freshId, utcNow).value;
      && IsEvent(e) && TenantConsistent(e) && e.eventId == id
      && EventRow(u.mac, u.key, e, Signing.IntegrityStatus(u.signingMac, e.service, entry.sig, entry.data.value)) == Some(row)
  {
    MalformedNeverParses(u.loads, entry.data, freshId, utcNow);
  }

  // ----- quarantine rows say what happened -----

  /** In every run a quarantine row holds the entry's exact data and signature and at least the limit as its
      count, and if it is filed as malformed no step of that run ever wrote an audit_events row for the entry. */
  lemma QuarantineTellsTheEntry(u: Setup, n: nat, ls: seq<Label>, s: State, id: nat, i: nat)
    requires Run(WorkerConfig(u), Initial(n), ls) == Some(s) && id in s.quarantine && i < |ls|
    ensures
      && id < |s.stream|
      && HoldsEntry(s.quarantine[id], s.stream[id], u.maxDeliveries) && FiledFor(u, s.stream[id].data, s.quarantine[id])
      && (Get(s.quarantine[id], "failure_category") == Text("malformed") ==>
            !Safety.WritesFor(WorkerConfig(u), Initial(n), ls, i, id))
  {
    var c := WorkerConfig(u);
    WorkerConfigOk(u);
    Safety.QuarantineFaithful(c, n, ls, id);
    var k: nat :| k >= c.maxDeliveries && s.quarantine[id] == c.quarantineRow(id, s.stream[id], k);
    QuarantineColumns(u, id, s.stream[id], k);
    if Safety.WritesFor(c, Initial(n), ls, i, id) {
      Safety.WrittenEntriesParse(c, n, ls, id, i);
      MalformedNeverParses(u.loads, s.stream[id].data, "", Datetime(0, None));
    }
  }

  /** Why a payload failed: no data, text that is no JSON, JSON that is no object, or an object no attempt stored,
      whose service is kept if it is text. */
  predicate FiledFor(u: Setup, data: Option<string>, row: Record) {
    var category, service, detail := Get(row, "failure_category"), Get(row, "service"), Get(row, "failure_detail");
    if data.None? then category == Text("malformed") && service == Absent && detail == Text("MissingDataField")
    else
      match u.loads(data.value)
      case Raises(kind) => category == Text("malformed") && service == Absent && detail == Text(kind)
      case NotAnObject => category == Text("malformed") && service == Absent && detail == Text("NotAJsonObject")
      case Object(name, _) => category == Text("persistence_exhausted") && Says(service, name) && detail == Absent
  }

  predicate HoldsEntry(row: Record, entry: Entry, limit: nat) {
    && Get(row, "raw_data") == Nullable(entry.data) && Get(row, "raw_signature") == Nullable(entry.sig)
    && Get(row, "delivery_attempts").Number? && Get(row, "delivery_attempts").n >= limit
  }

  /** The hash columns are none of those that describe the entry. */
  lemma SealKeeps(row: Record, record: Record)
    requires forall f :: f != HASH && f != KEY_NAME ==> Get(row, f) == Get(record, f)
    ensures Get(row, "raw_data") == Get(record, "raw_data") && Get(row, "raw_signature") == Get(record, "raw_signature")
    ensures Get(row, "delivery_attempts") == Get(record, "delivery_attempts")
    ensures Get(row, "failure_category") == Get(record, "failure_category")
    ensures Get(row, "stream_message_id") == Get(record, "stream_message_id")
    ensures Get(row, "service") == Get(record, "service") && Get(row, "failure_detail") == Get(record, "failure_detail")
  {
    assert |HASH| == 21 && |KEY_NAME| == 16 && KEY_NAME[0] == 'i';
  }

  lemma ReasonColumns(u: Setup, id: nat, entry: Entry, k: nat)
    ensures FiledFor(u, entry.data, QuarantineRecord(IdText(id), entry.data, entry.sig, PoisonReason(u.loads, entry.data), k))
  {
  }

  lemma QuarantineColumns(u: Setup, id: nat, entry: Entry, k: nat)
    ensures var row := BuildQuarantineRow(u, id, entry, k);
      && HoldsEntry(row, entry, k)
      && Get(row, "failure_category") == Text(PoisonReason(u.loads, entry.data).0)
      && Get(row, "stream_message_id") == Text(IdText(id)) && FiledFor(u, entry.data, row)
  {
    var record := QuarantineRecord(IdText(id), entry.data, entry.sig, PoisonReason(u.loads, entry.data), k);
    assert Get(record, "raw_data") == Nullable(entry.data) && Get(record, "raw_signature") == Nullable(entry.sig);
    assert Get(record, "delivery_attempts") == Number(k) && Get(record, "stream_message_id") == Text(IdText(id));
    ReasonColumns(u, id, entry, k);
    SealKeeps(BuildQuarantineRow(u, id, entry, k), record);
  }

  // ----- what the verifier says about a run -----

  /** A reading of a whole table: every row once, in any order, each as the store hands it back. */
  ghost predicate ReadsTable<K(!new)>(store: Store, table: map<K, Record>, keys: seq<K>, rows: seq<Record>) {
    && |keys| == |rows| && (forall i :: 0 <= i < |keys| ==> keys[i] in table && ReadsAs(store, table[keys[i]], rows[i]))
    && (forall i, j :: 0 <= i < j < |keys| ==> keys[i] != keys[j]) && forall k :: k in table ==> k in keys
  }

  /** The row is the one built from this event. */
  ghost predicate RowFor(u: Setup, e: AuditEvent, row: Record) {
    IsEvent(e) && exists status :: EventRow(u.mac, u.key, e, status) == Some(row)
  }

  /** The event was committed, and its row is the stored one. */
  ghost predicate Stores(u: Setup, s: State, e: AuditEvent) { e.eventId in s.events && RowFor(u, e, s.events[e.eventId]) }

  /** In every run each row of audit_events is the one built for the event some entry of the stream parses to,
      classified by that entry's own signature over its own bytes. */
  lemma EventSource(u: Setup, n: nat, ls: seq<Label>, s: State, id: string)
    returns (k: nat, freshId: string, utcNow: Datetime, e: AuditEvent)
    requires Run(WorkerConfig(u), Initial(n), ls) == Some(s) && id in s.events
    ensures k < |s.stream| && s.stream[k].data.Some? && ParseEvent(u.loads, s.stream[k].data, freshId, utcNow) == Some(e)
    ensures IsEvent(e) && TenantConsistent(e) && e.eventId == id
    ensures EventRow(u.mac, u.key, e, Signing.IntegrityStatus(u.signingMac, e.service, s.stream[k].sig, s.stream[k].data.value))
         == Some(s.events[id])
  {
    var c := WorkerConfig(u);
    WorkerConfigOk(u);
    Safety.RunKeeps(c, n, ls);
    k, freshId, utcNow :| k < |s.stream| && c.eventRow(s.stream[k], freshId, utcNow) == Some((id, s.events[id]));
    BuiltFromEvent(u, s.stream[k], freshId, utcNow);
    e := ParseEvent(u.loads, s.stream[k].data, freshId, utcNow).value;
  }

  lemma EventsWritten(u: Setup, n: nat, ls: seq<Label>, s: State, id: string) returns (e: AuditEvent)
    requires Run(WorkerConfig(u), Initial(n), ls) == Some(s) && id in s.events
    ensures e.eventId == id && TenantConsistent(e) && Stores(u, s, e)
  {
    var k, f, t;
    k, f, t, e := EventSource(u, n, ls, s, id);
  }

  /** The worker's rows keep the tenant invariant. */
  lemma RowsTenantConsistent(u: Setup, n: nat, ls: seq<Label>, s: State, id: string)
    requires Run(WorkerConfig(u), Initial(n), ls) == Some(s) && id in s.events
    ensures Get(s.events[id], "tenant_scope") == Text("organization") <==> Get(s.events[id], "organization_id") != Absent
  {
    var e := EventsWritten(u, n, ls, s, id);
    RowForColumns(u, e, s.events[id]);
  }

  lemma RowForColumns(u: Setup, e: AuditEvent, row: Record)
    requires RowFor(u, e, row)
    ensures Get(row, "event_id") == Text(e.eventId) && Get(row, "tenant_scope") == Text(e.tenantScope)
    ensures Says(Get(row, "organization_id"), e.organizationId) && Get(row, KEY_NAME) == Text(u.key.id)
  {
    var status :| EventRow(u.mac, u.key, e, status) == Some(row);
    EventColumns(u.mac, u.key, e, status, row);
  }

  lemma TextColumnSurvives(store: Store, row: Record, read: Record, field: string, text: string)
    requires ReadsAs(store, row, read) && Get(row, field) == Text(text)
    ensures Get(read, field) == Text(text)
  {
    assert field in row && ColumnReadsAs(store, field, row[field], read[field]);
  }

  /** The fields the verifier requires, on the event itself. */
  predicate FilledIn(e: AuditEvent) { e.eventId != "" && e.service != "" && e.eventType != "" && e.action != "" }

  lemma CompleteIffFilledIn(u: Setup, store: Store, e: AuditEvent, row: Record, read: Record)
    requires RowFor(u, e, row) && ReadsAs(store, row, read)
    ensures Complete(AuditEvents, read) <==> FilledIn(e)
  {
    RowForColumns(u, e, row);
    RowForRequired(u, e, row);
    ReadRequired(store, row, read, e);
    FilledColumns(read, e);
  }

  lemma RowForRequired(u: Setup, e: AuditEvent, row: Record)
    requires RowFor(u, e, row)
    ensures Get(row, "timestamp").Moment? && Get(row, "service") == Text(e.service)
    ensures Get(row, "event_type") == Text(e.eventType) && Get(row, "action") == Text(e.action)
  {
    var status :| EventRow(u.mac, u.key, e, status) == Some(row);
    EventColumns(u.mac, u.key, e, status, row);
  }

  lemma FilledColumns(row: Record, e: AuditEvent)
    requires Get(row, "event_id") == Text(e.eventId) && Get(row, "timestamp").Moment? && Get(row, "service") == Text(e.service)
    requires Get(row, "event_type") == Text(e.eventType) && Get(row, "action") == Text(e.action)
    ensures Complete(AuditEvents, row) <==> FilledIn(e)
  {
    CompleteColumns(row);
  }

  lemma ReadRequired(store: Store, row: Record, read: Record, e: AuditEvent)
    requires ReadsAs(store, row, read) && Get(row, "event_id") == Text(e.eventId) && Get(row, "timestamp").Moment?
    requires Get(row, "service") == Text(e.service) && Get(row, "event_type") == Text(e.eventType) && Get(row, "action") == Text(e.action)
    ensures Get(read, "event_id") == Text(e.eventId) && Get(read, "timestamp").Moment? && Get(read, "service") == Text(e.service)
    ensures Get(read, "event_type") == Text(e.eventType) && Get(read, "action") == Text(e.action)
  {
    TextColumnSurvives(store, row, read, "event_id", e.eventId);
    TextColumnSurvives(store, row, read, "service", e.service);
    TextColumnSurvives(store, row, read, "event_type", e.eventType);
    TextColumnSurvives(store, row, read, "action", e.action);
    assert "timestamp" in row && ColumnReadsAs(store, "timestamp", row["timestamp"], read["timestamp"]);
  }

  lemma CompleteColumns(row: Record)
    ensures Complete(AuditEvents, row) <==>
      && Filled(Get(row, "event_id")) && Filled(Get(row, "timestamp")) && Filled(Get(row, "service"))
      && Filled(Get(row, "event_type")) && Filled(Get(row, "action"))
  {
    var required := RequiredFields(AuditEvents);
    assert required[0] in required && required[1] in required && required[2] in required && required[3] in required && required[4] in required;
  }

  lemma VerifiedRowSound(u: Setup, read: Record, keys: map<string, string>)
    requires IsRecord(read) && EventVerifies(u.mac, read, u.key.secret, Some(u.key.id))
    requires Get(read, KEY_NAME) == Text(u.key.id) && Lookup(keys, u.key.id) == Some(u.key.secret)
    ensures Sound(AuditEvents, u.mac, read, Ring(keys)) <==> Complete(AuditEvents, read)
  {
  }

  lemma ReadRowSound(u: Setup, store: Store, e: AuditEvent, row: Record, read: Record, keys: map<string, string>)
    requires IsSetup(u) && RowFor(u, e, row) && ReadsAs(store, row, read) && Lookup(keys, u.key.id) == Some(u.key.secret)
    ensures IsRecord(read) && Get(read, "event_id") == Text(e.eventId)
    ensures Sound(AuditEvents, u.mac, read, Ring(keys)) <==> FilledIn(e)
  {
    var status :| EventRow(u.mac, u.key, e, status) == Some(row);
    WriteReadRoundTrip(u.mac, u.key, e, status, row, store, read);
    RowForColumns(u, e, row);
    TextColumnSurvives(store, row, read, "event_id", e.eventId);
    TextColumnSurvives(store, row, read, KEY_NAME, u.key.id);
    VerifiedRowSound(u, read, keys);
    CompleteIffFilledIn(u, store, e, row, read);
  }

  lemma IdTextInjective(a: nat, b: nat)
    requires IdText(a) == IdText(b)
    ensures a == b
  {
    assert NatText(a) == IdText(a)[..|IdText(a)| - 2] && NatText(b) == IdText(b)[..|IdText(b)| - 2];
    ReadNatText(a);
    ReadNatText(b);
  }

  /** A row with neither a timestamp nor a document reads back as it was written. */
  lemma PlainReadsSame(store: Store, row: Record, read: Record)
    requires Plain(row) && ReadsAs(store, row, read)
    ensures read == row
  {
    assert forall f :: f in row ==> ColumnReadsAs(store, f, row[f], read[f]);
  }

  lemma CompleteWhenFilled(row: Record, id: string, category: string)
    requires Get(row, "stream_message_id") == Text(id) && id != ""
    requires Get(row, "failure_category") == Text(category) && category != "" && Get(row, "delivery_attempts").Number?
    ensures Complete(QuarantinedAuditEvents, row)
  {
  }

  lemma QuarantineComplete(u: Setup, id: nat, entry: Entry, k: nat)
    ensures Complete(QuarantinedAuditEvents, BuildQuarantineRow(u, id, entry, k))
  {
    QuarantineColumns(u, id, entry, k);
    CompleteWhenFilled(BuildQuarantineRow(u, id, entry, k), IdText(id), PoisonReason(u.loads, entry.data).0);
  }

  lemma VerifiedQuarantineSound(u: Setup, row: Record, keys: map<string, string>)
    requires IsRecord(row) && QuarantineVerifies(u.mac, row, u.key.secret, Some(u.key.id)) && Complete(QuarantinedAuditEvents, row)
    requires Get(row, KEY_NAME) == Text(u.key.id) && Lookup(keys, u.key.id) == Some(u.key.secret)
    ensures Sound(QuarantinedAuditEvents, u.mac, row, Ring(keys))
  {
  }

  lemma QuarantineSound(u: Setup, store: Store, id: nat, entry: Entry, k: nat, row: Record, read: Record, keys: map<string, string>)
    requires IsSetup(u) && Lookup(keys, u.key.id) == Some(u.key.secret)
    requires row == BuildQuarantineRow(u, id, entry, k) && ReadsAs(store, row, read)
    ensures IsRecord(read) && Get(read, "stream_message_id") == Text(IdText(id))
    ensures Sound(QuarantinedAuditEvents, u.mac, read, Ring(keys))
  {
    PlainReadsSame(store, row, read);
    QuarantineRowVerifies(u.mac, u.key, IdText(id), entry.data, entry.sig, PoisonReason(u.loads, entry.data), k);
    QuarantineComplete(u, id, entry, k);
    QuarantineColumns(u, id, entry, k);
    VerifiedQuarantineSound(u, row, keys);
  }

  /** A full reading of audit_events is clean exactly when every stored event has its required fields. */
  lemma EventsCleanIff(u: Setup, n: nat, ls: seq<Label>, s: State, store: Store, keys: map<string, string>,
                       ids: seq<string>, rows: seq<Record>)
    requires IsSetup(u) && Run(WorkerConfig(u), Initial(n), ls) == Some(s) && ReadsTable(store, s.events, ids, rows)
    requires Lookup(keys, u.key.id) == Some(u.key.secret)
    ensures AreRecords(rows)
    ensures Clean(AuditEvents, u.mac, rows, Ring(keys)) <==> forall e :: Stores(u, s, e) ==> FilledIn(e)
  {
    EventRowsRead(u, n, ls, s, store, keys, ids, rows);
    if Clean(AuditEvents, u.mac, rows, Ring(keys)) {
      forall e | Stores(u, s, e) ensures FilledIn(e) {
        var i :| 0 <= i < |ids| && ids[i] == e.eventId;
        ReadRowSound(u, store, e, s.events[ids[i]], rows[i], keys);
      }
    }
    if forall e :: Stores(u, s, e) ==> FilledIn(e) {
      forall i | 0 <= i < |rows| ensures Sound(AuditEvents, u.mac, rows[i], Ring(keys)) {
        var e := EventsWritten(u, n, ls, s, ids[i]);
        ReadRowSound(u, store, e, s.events[ids[i]], rows[i], keys);
      }
    }
  }

  lemma EventRowsRead(u: Setup, n: nat, ls: seq<Label>, s: State, store: Store, keys: map<string, string>,
                      ids: seq<string>, rows: seq<Record>)
    requires IsSetup(u) && Run(WorkerConfig(u), Initial(n), ls) == Some(s) && ReadsTable(store, s.events, ids, rows)
    requires Lookup(keys, u.key.id) == Some(u.key.secret)
    ensures AreRecords(rows) && DistinctIds(AuditEvents, rows)
  {
    forall i | 0 <= i < |rows| ensures IsRecord(rows[i]) && Get(rows[i], "event_id") == Text(ids[i]) {
      var e := EventsWritten(u, n, ls, s, ids[i]);
      ReadRowSound(u, store, e, s.events[ids[i]], rows[i], keys);
    }
  }

  lemma QuarantineClean(u: Setup, n: nat, ls: seq<Label>, s: State, store: Store, keys: map<string, string>,
                        ids: seq<nat>, rows: seq<Record>)
    requires IsSetup(u) && Run(WorkerConfig(u), Initial(n), ls) == Some(s) && ReadsTable(store, s.quarantine, ids, rows)
    requires Lookup(keys, u.key.id) == Some(u.key.secret)
    ensures AreRecords(rows) && Clean(QuarantinedAuditEvents, u.mac, rows, Ring(keys))
  {
    var c := WorkerConfig(u);
    WorkerConfigOk(u);
    forall i | 0 <= i < |rows|
      ensures IsRecord(rows[i]) && Get(rows[i], "stream_message_id") == Text(IdText(ids[i]))
      ensures Sound(QuarantinedAuditEvents, u.mac, rows[i], Ring(keys))
    {
      var id := ids[i];
      Safety.QuarantineFaithful(c, n, ls, id);
      var k: nat :| k >= c.maxDeliveries && s.quarantine[id] == c.quarantineRow(id, s.stream[id], k);
      QuarantineSound(u, store, id, s.stream[id], k, s.quarantine[id], rows[i], keys);
    }
    forall i, j | 0 <= i < j < |rows| ensures Get(rows[i], "stream_message_id") != Get(rows[j], "stream_message_id") {
      if IdText(ids[i]) == IdText(ids[j]) { IdTextInjective(ids[i], ids[j]); }
    }
  }

  /** After every run of any number of workers, with any failures and redeliveries, and however the stores
      hand the rows back, the quarantine table passes the verifier's check under the configured key, and
      audit_events passes it exactly when no stored event has an empty id, service, event type or action. */
  lemma EveryRunVerifies(u: Setup, n: nat, ls: seq<Label>, s: State, store: Store, keys: map<string, string>,
                         eventIds: seq<string>, events: seq<Record>, entryIds: seq<nat>, quarantined: seq<Record>)
    requires IsSetup(u) && Run(WorkerConfig(u), Initial(n), ls) == Some(s)
    requires ReadsTable(store, s.events, eventIds, events) && ReadsTable(store, s.quarantine, entryIds, quarantined)
    requires Lookup(keys, u.key.id) == Some(u.key.secret)
    ensures AreRecords(events) && AreRecords(quarantined)
    ensures Clean(QuarantinedAuditEvents, u.mac, quarantined, Ring(keys))
    ensures Clean(AuditEvents, u.mac, events, Ring(keys)) <==> forall e :: Stores(u, s, e) ==> FilledIn(e)
  {
    EventsCleanIff(u, n, ls, s, store, keys, eventIds, events);
    QuarantineClean(u, n, ls, s, store, keys, entryIds, quarantined);
  }

  /** An event with the default action: one delivery later no full reading of the table is clean. */
  lemma DefaultActionReported(u: Setup, entry: Entry, freshId: string, utcNow: Datetime, store: Store, keys: map<string, string>,
                              ids: seq<string>, rows: seq<Record>)
    returns (ls: seq<Label>, s: State)
    requires IsSetup(u) && BuildEventRow(u, entry, freshId, utcNow).Some? && Lookup(keys, u.key.id) == Some(u.key.secret)
    requires ParseEvent(u.loads, entry.data, freshId, utcNow).value.action == ""
    ensures Run(WorkerConfig(u), Initial(1), ls) == Some(s)
    ensures ReadsTable(store, s.events, ids, rows) ==> AreRecords(rows) && !Clean(AuditEvents, u.mac, rows, Ring(keys))
  {
    var c := WorkerConfig(u);
    WorkerConfigOk(u);
    var (id, row) := BuildEventRow(u, entry, freshId, utcNow).value;
    ls, s := OneCommit(c, entry, freshId, utcNow, id, row);
    if ReadsTable(store, s.events, ids, rows) {
      EventsCleanIff(u, 1, ls, s, store, keys, ids, rows);
      var e := ParseEvent(u.loads, entry.data, freshId, utcNow).value;
      var status := Signing.IntegrityStatus(u.signingMac, e.service, entry.sig, entry.data.value);
      assert EventRow(u.mac, u.key, e, status) == Some(row);
      assert Stores(u, s, e);
    }
  }

  /** One entry produced, delivered and persisted. */
  lemma OneCommit(c: Config, entry: Entry, freshId: string, utcNow: Datetime, id: string, row: Record)
    returns (ls: seq<Label>, s: State)
    requires IsConfig(c) && c.eventRow(entry, freshId, utcNow) == Some((id, row))
    ensures Run(c, Initial(1), ls) == Some(s) && s.events == map[id := row]
  {
    var s1 := Initial(1).(stream := [entry]);
    var jobs := [Handle(0, entry, 0)];
    var s2 := s1.(cursor := 1, pel := Delivered(map[], 0, 0, 0, 1), workers := [Busy(Start, jobs)]);
    s := s2.(events := map[id := row], workers := [Busy(Durable, jobs)]);
    RunOne(c, Initial(1), Produce(entry));
    assert [] + [entry] == [entry];
    assert NewJobs([entry], 0, 0, 1) == jobs;
    assert Initial(1).workers == [Idle] && [Idle][0 := Busy(Start, jobs)] == [Busy(Start, jobs)];
    Then(c, Initial(1), [Produce(entry)], s1, Read(0, 1), s2);
    assert [Busy(Start, jobs)][0 := Busy(Durable, jobs)] == [Busy(Durable, jobs)];
    assert InsertIfAbsent(map[], id, row) == map[id := row];
    var write := Persist(0, freshId, utcNow, Landed);
    Then(c, Initial(1), [Produce(entry)] + [Read(0, 1)], s2, write, s);
    ls := [Produce(entry)] + [Read(0, 1)] + [write];
  }
}
