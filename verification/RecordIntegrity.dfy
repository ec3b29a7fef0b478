/**
 Stored-record integrity (audit/record_integrity.py): the canonical message of a record, its
 hash and its verification. The keyed hash is a parameter `mac(secret, message)`.
 */
module RecordIntegrity {
  import opened Wrappers
  import opened Decimal
  import opened Json
  import opened Timestamps
  import opened Lines

  /** What a column can hold: NULL, text, an integer, a datetime, or a decoded JSON document. */
  datatype Value = Absent | Text(s: string) | Number(n: int) | Moment(t: Datetime) | Document(doc: Json)

  type Record = map<string, Value>

  type Mac = (string, string) -> string

  const AUDIT_EVENT_FIELDS: seq<string> := [
    "event_id", "timestamp", "service", "event_type", "user_id",
    "organization_id", "tenant_scope", "action", "resource", "decision",
    "reason", "trace_id", "context", "integrity_status"]

  const QUARANTINE_RECORD_FIELDS: seq<string> := [
    "stream_message_id", "raw_data", "raw_signature", "service",
    "failure_category", "failure_detail", "delivery_attempts"]

  const HASH := "record_integrity_hash"

  function Get(record: Record, field: string): Value {
    if field in record then record[field] else Absent
  }

  /** The column types: only `timestamp` is a datetime, only `context` a document. */
  predicate Typed(field: string, v: Value) {
    && (v.Moment? ==> field == "timestamp" && IsDatetime(v.t))
    && (v.Document? ==> field == "context" && WellFormed(v.doc))
  }

  predicate IsRecord(record: Record) {
    forall field :: field in record ==> Typed(field, record[field])
  }

  /** `_canonical_json` of a Python string: text that parses is what it parses to, other text is a
      JSON string. */
  function OfText(s: string): Json { if Loads(s).Some? then Loads(s).value else Str(s) }

  /** The document a context column stands for. A decoded JSON string is a Python string too, so it
      is parsed once more; NULL is the empty object. */
  function ContextOf(v: Value): Json {
    match v
    case Document(doc) => if doc.Str? then OfText(doc.s) else doc
    case Text(s) => OfText(s)
    case Number(n) => Int(n)
    case _ => Obj(NoMembers)
  }

  /** `str(value)`. */
  function PlainText(v: Value): string {
    match v
    case Text(s) => s
    case Number(n) => IntText(n)
    case _ => "None"
  }

  /** The text of one field in the canonical message; None when Python raises. */
  function FieldText(field: string, v: Value, legacy: bool): Option<string>
    requires Typed(field, v)
  {
    if field == "context" then Some(Dumps(ContextOf(v)))
    else if v.Moment? then CanonicalTime(v.t, legacy)
    else Some(PlainText(v))
  }

  function FieldTexts(record: Record, fields: seq<string>, legacy: bool): (r: Option<seq<string>>)
    requires IsRecord(record)
    ensures r.Some? ==> |r.value| == |fields|
  {
    if fields == [] then Some([])
    else
      var n := |fields| - 1;
      match (FieldTexts(record, fields[..n], legacy), FieldText(fields[n], Get(record, fields[n]), legacy))
      case (Some(texts), Some(text)) => Some(texts + [text])
      case _ => None
  }

  function CanonicalMessage(record: Record, fields: seq<string>, legacy: bool, keyId: Option<string>): Option<string>
    requires IsRecord(record)
  {
    match FieldTexts(record, fields, legacy)
    case None => None
    case Some(texts) => Some(Message(fields, texts, keyId))
  }

  lemma FieldTextsNext(record: Record, fields: seq<string>, legacy: bool, i: nat)
    requires IsRecord(record) && i < |fields|
    ensures FieldTexts(record, fields[..i + 1], legacy) ==
      match (FieldTexts(record, fields[..i], legacy), FieldText(fields[i], Get(record, fields[i]), legacy))
      case (Some(texts), Some(text)) => Some(texts + [text])
      case _ => None
  {
    assert fields[..i + 1][..i] == fields[..i];
  }

  lemma LabelledNext(fields: seq<string>, texts: seq<string>, i: nat, text: string)
    requires |texts| == i < |fields|
    ensures Labelled(fields[..i + 1], texts + [text]) == Labelled(fields[..i], texts) + [fields[i] + "=" + text]
  {
  }

  /** `_canonical_message`, part by part. */
  method BuildCanonicalMessage(record: Record, fields: seq<string>, legacy: bool, keyId: Option<string>)
    returns (message: Option<string>)
    requires IsRecord(record)
    ensures message == CanonicalMessage(record, fields, legacy, keyId)
  {
    var parts: seq<string> := [];
    ghost var texts: seq<string> := [];
    for i := 0 to |fields|
      invariant |texts| == i && FieldTexts(record, fields[..i], legacy) == Some(texts)
      invariant parts == Labelled(fields[..i], texts)
    {
      FieldTextsNext(record, fields, legacy, i);
      var value := FieldText(fields[i], Get(record, fields[i]), legacy);
      if value.None? {
        PrefixRaises(record, fields, legacy, i + 1);
        return None;
      }
      LabelledNext(fields, texts, i, value.value);
      parts := parts + [fields[i] + "=" + value.value];
      texts := texts + [value.value];
    }
    assert fields[..|fields|] == fields;
    if keyId.Some? {
      parts := parts + [KEY_NAME + "=" + keyId.value];
    }
    assert parts == Labelled(fields, texts) + KeyLine(keyId);
    return Some(Join(parts));
  }

  lemma {:induction false} PrefixRaises(record: Record, fields: seq<string>, legacy: bool, i: nat)
    requires IsRecord(record) && i <= |fields| && FieldTexts(record, fields[..i], legacy).None?
    ensures FieldTexts(record, fields, legacy).None?
  {
    if i == |fields| {
      assert fields[..i] == fields;
    } else {
      assert fields[..|fields| - 1][..i] == fields[..i];
      PrefixRaises(record, fields[..|fields| - 1], legacy, i);
    }
  }

  // ----- hashes -----

  function HashOf(mac: Mac, record: Record, fields: seq<string>, secret: string, keyId: Option<string>): Option<string>
    requires IsRecord(record)
  {
    match CanonicalMessage(record, fields, false, keyId)
    case None => None
    case Some(m) => Some(mac(secret, m))
  }

  /** `audit_event_hash_matches_legacy_utc_form`. */
  predicate MatchesLegacyForm(mac: Mac, record: Record, secret: string)
    requires IsRecord(record)
  {
    var stored := Get(record, HASH);
    match CanonicalMessage(record, AUDIT_EVENT_FIELDS, true, None)
    case None => false
    case Some(m) => stored.Text? && stored.s != "" && stored.s == mac(secret, m)
  }

  /** `verify_audit_event_hash`: the current form, or for a record without a key id the legacy one. */
  predicate EventVerifies(mac: Mac, record: Record, secret: string, keyId: Option<string>)
    requires IsRecord(record)
  {
    var stored := Get(record, HASH);
    && stored.Text? && stored.s != ""
    && match HashOf(mac, record, AUDIT_EVENT_FIELDS, secret, keyId)
       case None => false
       case Some(h) => stored.s == h || (keyId.None? && MatchesLegacyForm(mac, record, secret))
  }

  /** `verify_quarantine_record_hash`. */
  predicate QuarantineVerifies(mac: Mac, record: Record, secret: string, keyId: Option<string>)
    requires IsRecord(record)
  {
    var stored := Get(record, HASH);
    && stored.Text? && stored.s != ""
    && HashOf(mac, record, QUARANTINE_RECORD_FIELDS, secret, keyId) == Some(stored.s)
  }
}
