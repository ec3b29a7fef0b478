/** The rows the two sinks insert (consumers/sink.py, consumers/quarantine.py) and what a store
    hands back for them. */
module Sinks {
  import opened Wrappers
  import opened Json
  import opened JsonLaws
  import opened Timestamps
  import opened Lines
  import opened RecordIntegrity
  import opened RecordIntegrityLaws
  import opened Events

  /** The key and key id `require_record_integrity_key` returns. */
  datatype Key = Key(secret: string, id: string)

  function Nullable(o: Option<string>): Value {
    match o
    case None => Absent
    case Some(s) => Text(s)
  }

  /** A record ready to hash: its one datetime is the naive UTC timestamp, its document an object. */
  predicate Hashable(r: Record, utc: int) {
    && IsRecord(r) && (forall f :: f in r ==> r[f].Document? ==> r[f].doc.Obj?)
    && InCalendar(utc) && Get(r, "timestamp") == Moment(Datetime(utc, None))
    && (forall f :: f in r && f != "timestamp" ==> !r[f].Moment?)
    && HASH !in r && KEY_NAME !in r
  }

  /** The dictionary `Sink.write` hashes, timestamp already naive UTC. */
  function EventRecord(e: AuditEvent, utc: int, status: string): (r: Record)
    requires InCalendar(utc) && IsEvent(e)
    ensures IsRecord(r)
  {
    map[
      "event_id" := Text(e.eventId), "timestamp" := Moment(Datetime(utc, None)), "service" := Text(e.service),
      "event_type" := Text(e.eventType), "user_id" := Nullable(e.userId),
      "organization_id" := Nullable(e.organizationId), "tenant_scope" := Text(e.tenantScope),
      "action" := Text(e.action), "resource" := Nullable(e.resource), "decision" := Nullable(e.decision),
      "reason" := Nullable(e.reason), "trace_id" := Nullable(e.traceId), "context" := Document(e.context),
      "integrity_status" := Text(status)]
  }

  lemma EventRecordHashable(e: AuditEvent, utc: int, status: string)
    requires InCalendar(utc) && IsEvent(e)
    ensures Hashable(EventRecord(e, utc, status), utc)
  {
  }

  /** A record with its hash and key id columns. */
  function Sealed(record: Record, hash: string, id: string): (row: Record)
    requires IsRecord(record)
    ensures IsRecord(row) && Get(row, HASH) == Text(hash) && Get(row, KEY_NAME) == Text(id)
    ensures forall f :: f != HASH && f != KEY_NAME ==> Get(row, f) == Get(record, f)
    ensures forall f :: f in row ==> (f in record && row[f] == record[f]) || row[f].Text?
  {
    record[HASH := Text(hash)][KEY_NAME := Text(id)]
  }

  /** The row `Sink.write` adds to the session; None when building it raises. */
  function EventRow(mac: Mac, key: Key, e: AuditEvent, status: string): (r: Option<Record>)
    requires IsEvent(e)
    ensures r.Some? ==> IsRecord(r.value) && Get(r.value, KEY_NAME) == Text(key.id)
    ensures r.Some? ==> ToNaiveUtc(e.timestamp).Some?
    ensures r.Some? ==> forall f :: f != HASH && f != KEY_NAME ==>
      Get(r.value, f) == Get(EventRecord(e, ToNaiveUtc(e.timestamp).value, status), f)
    ensures r.Some? ==>
      && Get(r.value, HASH).Text?
      && HashOf(mac, EventRecord(e, ToNaiveUtc(e.timestamp).value, status), AUDIT_EVENT_FIELDS, key.secret, Some(key.id))
         == Some(Get(r.value, HASH).s)
  {
    match ToNaiveUtc(e.timestamp)
    case None => None
    case Some(utc) =>
      match HashOf(mac, EventRecord(e, utc, status), AUDIT_EVENT_FIELDS, key.secret, Some(key.id))
      case None => None
      case Some(h) => Some(Sealed(EventRecord(e, utc, status), h, key.id))
  }

  /** A nullable text column holds what an optional field says. */
  predicate Says(v: Value, field: Option<string>) { if field.Some? then v == Text(field.value) else v == Absent }

  /** Every column of the row `Sink.write` adds, from the event itself: the timestamp is its instant in UTC, and
      the hash is over the canonical message of the row's own columns, under the key its key id column names. */
  lemma EventColumns(mac: Mac, key: Key, e: AuditEvent, status: string, row: Record)
    requires IsEvent(e) && EventRow(mac, key, e, status) == Some(row)
    ensures Get(row, "event_id") == Text(e.eventId) && Get(row, "timestamp") == Moment(Datetime(InstantOf(e.timestamp), None))
    ensures Get(row, "service") == Text(e.service) && Get(row, "event_type") == Text(e.eventType)
    ensures Says(Get(row, "user_id"), e.userId) && Says(Get(row, "organization_id"), e.organizationId)
    ensures Get(row, "tenant_scope") == Text(e.tenantScope) && Get(row, "action") == Text(e.action)
    ensures Says(Get(row, "resource"), e.resource) && Says(Get(row, "decision"), e.decision)
    ensures Says(Get(row, "reason"), e.reason) && Says(Get(row, "trace_id"), e.traceId)
    ensures Get(row, "context") == Document(e.context) && Get(row, "integrity_status") == Text(status)
    ensures Get(row, KEY_NAME) == Text(key.id)
    ensures HashOf(mac, row, AUDIT_EVENT_FIELDS, key.secret, Some(key.id)).Some?
    ensures Get(row, HASH) == Text(HashOf(mac, row, AUDIT_EVENT_FIELDS, key.secret, Some(key.id)).value)
  {
    var utc := ToNaiveUtc(e.timestamp).value;
    NotHashColumns();
    SubjectColumns(e, utc, status);
    DecisionColumns(e, utc, status);
    HashColumnsNotCovered();
    MessageIgnoresHash(EventRecord(e, utc, status), AUDIT_EVENT_FIELDS, Some(key.id), Get(row, HASH).s, key.id);
  }

  lemma SubjectColumns(e: AuditEvent, utc: int, status: string)
    requires InCalendar(utc) && IsEvent(e)
    ensures var r := EventRecord(e, utc, status);
      && Get(r, "event_id") == Text(e.eventId) && Get(r, "timestamp") == Moment(Datetime(utc, None))
      && Get(r, "service") == Text(e.service) && Get(r, "event_type") == Text(e.eventType)
      && Says(Get(r, "user_id"), e.userId) && Says(Get(r, "organization_id"), e.organizationId)
      && Get(r, "tenant_scope") == Text(e.tenantScope)
  {
  }

  lemma DecisionColumns(e: AuditEvent, utc: int, status: string)
    requires InCalendar(utc) && IsEvent(e)
    ensures var r := EventRecord(e, utc, status);
      && Get(r, "action") == Text(e.action) && Says(Get(r, "resource"), e.resource) && Says(Get(r, "decision"), e.decision)
      && Says(Get(r, "reason"), e.reason) && Says(Get(r, "trace_id"), e.traceId)
      && Get(r, "context") == Document(e.context) && Get(r, "integrity_status") == Text(status)
  {
  }

  /** No column of the event is the hash or the key id. */
  lemma NotHashColumns()
    ensures forall f :: f in AUDIT_EVENT_FIELDS ==> f != HASH && f != KEY_NAME
    ensures "event_id" in AUDIT_EVENT_FIELDS && "timestamp" in AUDIT_EVENT_FIELDS && "service" in AUDIT_EVENT_FIELDS
    ensures "event_type" in AUDIT_EVENT_FIELDS && "user_id" in AUDIT_EVENT_FIELDS && "organization_id" in AUDIT_EVENT_FIELDS
    ensures "tenant_scope" in AUDIT_EVENT_FIELDS && "action" in AUDIT_EVENT_FIELDS && "resource" in AUDIT_EVENT_FIELDS
    ensures "decision" in AUDIT_EVENT_FIELDS && "reason" in AUDIT_EVENT_FIELDS && "trace_id" in AUDIT_EVENT_FIELDS
    ensures "context" in AUDIT_EVENT_FIELDS && "integrity_status" in AUDIT_EVENT_FIELDS
  {
    HashColumnsNotCovered();
    var fs := AUDIT_EVENT_FIELDS;
    assert fs[0] in fs && fs[1] in fs && fs[2] in fs && fs[3] in fs && fs[4] in fs && fs[5] in fs && fs[6] in fs;
    assert fs[7] in fs && fs[8] in fs && fs[9] in fs && fs[10] in fs && fs[11] in fs && fs[12] in fs && fs[13] in fs;
  }

  /** A record with neither a timestamp nor a document. */
  predicate Plain(row: Record) { forall f :: f in row ==> !row[f].Moment? && !row[f].Document? }

  function QuarantineRecord(id: string, data: Option<string>, sig: Option<string>,
                            reason: (string, Option<string>, Option<string>), attempts: nat): (r: Record)
    ensures IsRecord(r) && Plain(r)
  {
    map[
      "stream_message_id" := Text(id), "raw_data" := Nullable(data), "raw_signature" := Nullable(sig),
      "service" := Nullable(reason.1), "failure_category" := Text(reason.0),
      "failure_detail" := Nullable(reason.2), "delivery_attempts" := Number(attempts)]
  }

  /** The row `QuarantineSink.write` adds to the session; it has no timestamp, so nothing raises. */
  function QuarantineRow(mac: Mac, key: Key, record: Record): (r: Record)
    requires IsRecord(record)
    ensures IsRecord(r) && (Plain(record) ==> Plain(r))
    ensures forall f :: f != HASH && f != KEY_NAME ==> Get(r, f) == Get(record, f)
  {
    match HashOf(mac, record, QUARANTINE_RECORD_FIELDS, key.secret, Some(key.id))
    case None => record
    case Some(h) => Sealed(record, h, key.id)
  }

  // ----- reading back -----

  /** A column read back: the store may have rounded the timestamp, and may return the document as
      an object or as text, its keys in any order at any depth. */
  ghost predicate ColumnReadsAs(store: Store, field: string, written: Value, read: Value) {
    if field == "timestamp" && written.Moment? then
      read == Moment(Datetime(Stored(store, written.t.wall), None))
    else if field == "context" && written.Document? then
      match read
      case Document(doc) => WellFormed(doc) && MeaningOf(doc) == MeaningOf(written.doc)
      case Text(s) => Loads(s).Some? && MeaningOf(Loads(s).value) == MeaningOf(written.doc)
      case _ => false
    else read == written
  }

  ghost predicate ReadsAs(store: Store, row: Record, read: Record) {
    row.Keys == read.Keys && forall f :: f in row ==> ColumnReadsAs(store, f, row[f], read[f])
  }

  lemma ColumnTextSurvives(store: Store, field: string, written: Value, read: Value)
    requires Typed(field, written) && (written.Moment? ==> written.t.offset.None?) && (written.Document? ==> written.doc.Obj?)
    requires FieldText(field, written, false).Some? && ColumnReadsAs(store, field, written, read)
    ensures Typed(field, read) && FieldText(field, read, false) == FieldText(field, written, false)
  {
    if field == "timestamp" && written.Moment? {
      StoredRoundsAlike(store, written.t.wall);
    } else if field == "context" && written.Document? {
      if read.Text? { LoadsWellFormed(read.s); }
      CanonicalIffSameMeaning(written.doc, ContextOf(read));
    }
  }

  lemma MessageSurvives(store: Store, row: Record, read: Record, fields: seq<string>, keyId: Option<string>)
    requires IsRecord(row) && ReadsAs(store, row, read)
    requires forall f :: f in row ==> row[f].Moment? ==> row[f].t.offset.None?
    requires forall f :: f in row ==> row[f].Document? ==> row[f].doc.Obj?
    requires forall f :: f in row ==> FieldText(f, row[f], false).Some?
    ensures IsRecord(read)
    ensures CanonicalMessage(read, fields, false, keyId) == CanonicalMessage(row, fields, false, keyId)
  {
    forall f | f in row ensures Typed(f, read[f]) && FieldText(f, read[f], false) == FieldText(f, row[f], false) {
      ColumnTextSurvives(store, f, row[f], read[f]);
    }
    FieldTextsAgree(read, row, fields, false);
  }

  /** Adding the hash and key id columns leaves the message as it was. */
  lemma MessageIgnoresHash(record: Record, fields: seq<string>, keyId: Option<string>, hash: string, id: string)
    requires IsRecord(record) && HASH !in fields && KEY_NAME !in fields
    ensures CanonicalMessage(Sealed(record, hash, id), fields, false, keyId) == CanonicalMessage(record, fields, false, keyId)
  {
    FieldTextsAgree(Sealed(record, hash, id), record, fields, false);
  }

  lemma HashExistsIff(mac: Mac, key: Key, r: Record, utc: int)
    requires Hashable(r, utc)
    ensures HashOf(mac, r, AUDIT_EVENT_FIELDS, key.secret, Some(key.id)).Some? <==> RoundToSecond(utc).Some?
    ensures RoundToSecond(utc).Some? ==> forall f :: f in r ==> FieldText(f, r[f], false).Some?
  {
    assert AUDIT_EVENT_FIELDS[1] == "timestamp";
    if FieldTexts(r, AUDIT_EVENT_FIELDS, false).Some? {
      FieldTextAt(r, AUDIT_EVENT_FIELDS, false, 1);
    }
    if RoundToSecond(utc).Some? {
      TextsExist(r, AUDIT_EVENT_FIELDS);
    }
  }

  lemma HashColumnsNotCovered()
    ensures HASH !in AUDIT_EVENT_FIELDS && KEY_NAME !in AUDIT_EVENT_FIELDS
    ensures HASH !in QUARANTINE_RECORD_FIELDS && KEY_NAME !in QUARANTINE_RECORD_FIELDS
  {
    assert forall i :: 0 <= i < |AUDIT_EVENT_FIELDS| ==> |AUDIT_EVENT_FIELDS[i]| <= 16;
    assert forall i :: 0 <= i < |QUARANTINE_RECORD_FIELDS| ==> |QUARANTINE_RECORD_FIELDS[i]| <= 17;
    assert AUDIT_EVENT_FIELDS[13] == "integrity_status" && KEY_NAME[10] == 'k';
  }

  lemma RecordRoundTrip(mac: Mac, key: Key, r: Record, utc: int, hash: string, store: Store, read: Record)
    requires Hashable(r, utc) && HashOf(mac, r, AUDIT_EVENT_FIELDS, key.secret, Some(key.id)) == Some(hash)
    requires ReadsAs(store, Sealed(r, hash, key.id), read) && hash != ""
    ensures IsRecord(read)
    ensures CanonicalMessage(read, AUDIT_EVENT_FIELDS, false, Some(key.id))
         == CanonicalMessage(r, AUDIT_EVENT_FIELDS, false, Some(key.id))
    ensures EventVerifies(mac, read, key.secret, Some(key.id))
  {
    var row := Sealed(r, hash, key.id);
    HashExistsIff(mac, key, r, utc);
    HashColumnsNotCovered();
    MessageSurvives(store, row, read, AUDIT_EVENT_FIELDS, Some(key.id));
    MessageIgnoresHash(r, AUDIT_EVENT_FIELDS, Some(key.id), hash, key.id);
    assert read[HASH] == row[HASH];
  }

  /** Write and read: whatever the event and its offset, whichever store, and however the document
      comes back, the row read has the message that was hashed and verifies under the key that wrote it. */
  lemma WriteReadRoundTrip(mac: Mac, key: Key, e: AuditEvent, status: string, row: Record, store: Store, read: Record)
    requires IsEvent(e)
    requires EventRow(mac, key, e, status) == Some(row) && ReadsAs(store, row, read)
    requires forall m :: mac(key.secret, m) != ""
    ensures IsRecord(read)
    ensures CanonicalMessage(read, AUDIT_EVENT_FIELDS, false, Some(key.id))
         == CanonicalMessage(EventRecord(e, ToNaiveUtc(e.timestamp).value, status), AUDIT_EVENT_FIELDS, false, Some(key.id))
    ensures EventVerifies(mac, read, key.secret, Some(key.id))
  {
    var utc := ToNaiveUtc(e.timestamp).value;
    var r := EventRecord(e, utc, status);
    var hash := HashOf(mac, r, AUDIT_EVENT_FIELDS, key.secret, Some(key.id)).value;
    EventRecordHashable(e, utc, status);
    RecordRoundTrip(mac, key, r, utc, hash, store, read);
  }

  /** The sink refuses an event exactly when its instant, in UTC and to the nearest second, is
      outside the calendar. */
  lemma RowExistsIff(mac: Mac, key: Key, e: AuditEvent, status: string)
    requires IsEvent(e)
    ensures EventRow(mac, key, e, status).Some? <==> SecondOf(e.timestamp).Some?
  {
    if ToNaiveUtc(e.timestamp).Some? {
      var utc := ToNaiveUtc(e.timestamp).value;
      EventRecordHashable(e, utc, status);
      HashExistsIff(mac, key, EventRecord(e, utc, status), utc);
    }
  }

  lemma {:induction false} TextsExist(record: Record, fields: seq<string>)
    requires IsRecord(record) && forall f :: f in fields ==> FieldText(f, Get(record, f), false).Some?
    ensures FieldTexts(record, fields, false).Some?
  {
    if fields != [] {
      TextsExist(record, fields[..|fields| - 1]);
    }
  }

  lemma QuarantineRowVerifies(mac: Mac, key: Key, id: string, data: Option<string>, sig: Option<string>,
                              reason: (string, Option<string>, Option<string>), attempts: nat)
    requires forall m :: mac(key.secret, m) != ""
    ensures var row := QuarantineRow(mac, key, QuarantineRecord(id, data, sig, reason, attempts));
      Get(row, KEY_NAME) == Text(key.id) && QuarantineVerifies(mac, row, key.secret, Some(key.id))
  {
    var record := QuarantineRecord(id, data, sig, reason, attempts);
    HashColumnsNotCovered();
    TextsExist(record, QUARANTINE_RECORD_FIELDS);
    var h := HashOf(mac, record, QUARANTINE_RECORD_FIELDS, key.secret, Some(key.id)).value;
    MessageIgnoresHash(record, QUARANTINE_RECORD_FIELDS, Some(key.id), h, key.id);
  }
}
