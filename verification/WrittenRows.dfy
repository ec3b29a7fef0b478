/** Tamper evidence for the rows the two sinks write, in terms of what was written. */
module WrittenRows {
  import opened Wrappers
  import opened Lines
  import opened RecordIntegrity
  import opened RecordIntegrityLaws
  import opened Readings
  import opened Tampering
  import opened TamperEvidence
  import opened Events
  import opened Sinks
  import opened Timestamps
  import opened Verifier
  import opened Tables

  // ----- what the sinks write is a written row -----

  lemma EventRecordIsRow(e: AuditEvent, utc: int, status: string)
    requires InCalendar(utc) && IsEvent(e)
    ensures InTable(EventRecord(e, utc, status), AUDIT_EVENT_FIELDS)
  {
    FittingRecord(e, utc, status);
    NoAttempts();
  }

  lemma FittingRecord(e: AuditEvent, utc: int, status: string)
    requires InCalendar(utc) && IsEvent(e)
    ensures IsRow(EventRecord(e, utc, status)) && Get(EventRecord(e, utc, status), "timestamp").Moment?
  {
  }

  lemma NoAttempts()
    ensures ATTEMPTS !in AUDIT_EVENT_FIELDS && "timestamp" !in QUARANTINE_RECORD_FIELDS
  {
    assert Mark(ATTEMPTS) == 17100 && Mark("timestamp") == 9116;
    forall i | 0 <= i < |AUDIT_EVENT_FIELDS| ensures AUDIT_EVENT_FIELDS[i] != ATTEMPTS { EventMarks(i); }
    forall i | 0 <= i < |QUARANTINE_RECORD_FIELDS| ensures QUARANTINE_RECORD_FIELDS[i] != "timestamp" { QuarantineMarks(i); }
  }

  lemma SealedIsRow(r: Record, hash: string, id: string)
    requires IsRow(r)
    ensures IsRow(Sealed(r, hash, id))
  {
    assert HASH !in FIXED && KEY_NAME !in FIXED by {
      assert |HASH| == 21 && |KEY_NAME| == 16;
    }
  }

  ghost predicate InRing(mac: Mac, key: Key, byId: map<string, string>) {
    && key.id in byId && byId[key.id] == key.secret && key.id != LEGACY_KEY_ID
    && (forall k :: k in byId ==> OneLine(k)) && NoCollisions(mac) && forall m :: mac(key.secret, m) != ""
  }

  lemma SealedIsWritten(table: Table, mac: Mac, key: Key, r: Record, hash: string, byId: map<string, string>)
    requires InRing(mac, key, byId) && InTable(r, FieldsOf(table)) && HashOf(mac, r, FieldsOf(table), key.secret, Some(key.id)) == Some(hash)
    ensures Written(table, mac, Sealed(r, hash, key.id), key.id, byId)
  {
    HashColumnsNotCovered();
    SealedIsRow(r, hash, key.id);
    MessageIgnoresHash(r, FieldsOf(table), Some(key.id), hash, key.id);
  }

  lemma EventRowWritten(mac: Mac, key: Key, e: AuditEvent, status: string, row: Record, byId: map<string, string>)
    requires IsEvent(e) && EventRow(mac, key, e, status) == Some(row) && InRing(mac, key, byId)
    ensures Written(AuditEvents, mac, row, key.id, byId)
  {
    var utc := ToNaiveUtc(e.timestamp).value;
    var r := EventRecord(e, utc, status);
    EventRecordIsRow(e, utc, status);
    SealedIsWritten(AuditEvents, mac, key, r, HashOf(mac, r, AUDIT_EVENT_FIELDS, key.secret, Some(key.id)).value, byId);
  }

  type Reason = (string, Option<string>, Option<string>)

  lemma QuarantineRecordIsRow(id: string, data: Option<string>, sig: Option<string>, reason: Reason, attempts: nat)
    ensures InTable(QuarantineRecord(id, data, sig, reason, attempts), QUARANTINE_RECORD_FIELDS)
  {
    NoAttempts();
  }

  lemma QuarantineRowWritten(mac: Mac, key: Key, id: string, data: Option<string>, sig: Option<string>, reason: Reason,
                             attempts: nat, byId: map<string, string>)
    requires InRing(mac, key, byId)
    ensures Written(QuarantinedAuditEvents, mac, QuarantineRow(mac, key, QuarantineRecord(id, data, sig, reason, attempts)), key.id, byId)
  {
    var r := QuarantineRecord(id, data, sig, reason, attempts);
    TextsExist(r, QUARANTINE_RECORD_FIELDS);
    QuarantineRecordIsRow(id, data, sig, reason, attempts);
    SealedIsWritten(QuarantinedAuditEvents, mac, key, r, HashOf(mac, r, QUARANTINE_RECORD_FIELDS, key.secret, Some(key.id)).value, byId);
  }

  // ----- text on one line is always safe -----

  lemma LabelHasLine(col: Column, x: string)
    requires Holds(FormOf, col, x)
    ensures !OneLine(x)
  {
    var i, j :| 0 <= i <= j <= |x| && Label(FormOf, col, x[i..j]);
    assert x[i] == x[i..j][0] == '\n';
  }

  /** A row whose free texts are single lines spells no label. */
  lemma OneLineUnspelled(fields: seq<string>, r: Record)
    requires IsFieldList(fields) && forall i :: 0 <= i < |fields| && fields[i] !in FIXED ==> OneLine(TextAt(r, fields[i]))
    ensures Unspelled(r, fields)
  {
    var cols := Columned(fields[1..]);
    forall i | 0 <= i < |cols|
      ensures !Holds(FormOf, cols[i], TextAt(r, Preceding(fields[0], cols, i))) && !Holds(FormOf, cols[i], TextAt(r, cols[i].name))
    {
      AroundLabel(fields, cols, i);
      if Holds(FormOf, cols[i], TextAt(r, Preceding(fields[0], cols, i))) { LabelHasLine(cols[i], TextAt(r, Preceding(fields[0], cols, i))); }
      if Holds(FormOf, cols[i], TextAt(r, cols[i].name)) { LabelHasLine(cols[i], TextAt(r, cols[i].name)); }
    }
  }

  /** An event whose texts are single lines is protected under every keyring whose legacy secret is its own. */
  lemma OneLineEventProtected(mac: Mac, key: Key, e: AuditEvent, status: string, row: Record, byId: map<string, string>)
    requires IsEvent(e) && EventRow(mac, key, e, status) == Some(row) && InRing(mac, key, byId) && IsKeyring(byId)
    requires forall i :: 0 <= i < |AUDIT_EVENT_FIELDS| && AUDIT_EVENT_FIELDS[i] !in FIXED ==> OneLine(TextAt(row, AUDIT_EVENT_FIELDS[i]))
    ensures Protected(AuditEvents, mac, row, byId)
  {
    EventRowWritten(mac, key, e, status, row, byId);
    EventFieldList();
    OneLineUnspelled(AUDIT_EVENT_FIELDS, row);
    EventProtectedIff(mac, row, key.id, byId);
  }

  // ----- text that spells the next label -----

  /** The same row with text moved from a column that spells the next column's label to that column. */
  function Spilled(r: Record, f: string, g: string, a: string, b: string, c: string): Record {
    r[f := Text(a)][g := Text(b + Start(g) + c)]
  }

  /** Rows that differ in two neighbouring columns, by text moved across the second one's label. */
  lemma SpillTail(fields: seq<string>, r: Record, now: Record, i: nat, a: string, b: string, c: string)
    requires i < |fields| - 1 && fields[i] !in FIXED && fields[i + 1] !in FIXED
    requires forall k :: 0 <= k < |fields| && k != i && k != i + 1 ==> Get(now, fields[k]) == Get(r, fields[k])
    requires Get(r, fields[i]) == Text(a + Start(fields[i + 1]) + b) && Get(r, fields[i + 1]) == Text(c)
    requires Get(now, fields[i]) == Text(a) && Get(now, fields[i + 1]) == Text(b + Start(fields[i + 1]) + c)
    ensures Tail(LinesOf(fields, TextsOf(now))) == Tail(LinesOf(fields, TextsOf(r)))
  {
    var f, g := fields[i], fields[i + 1];
    var x, y := LinesOf(fields, TextsOf(r)), LinesOf(fields, TextsOf(now));
    assert x[..i] == y[..i] && x[i + 2..] == y[i + 2..];
    TailTwo(x, i);
    TailTwo(y, i);
    MovedLines(f, g, a, b, c);
    assert TextAt(r, f) == a + Start(g) + b && TextAt(r, g) == c;
    assert TextAt(now, f) == a && TextAt(now, g) == b + Start(g) + c;
  }

  lemma SpilledRow(fields: seq<string>, r: Record, i: nat, a: string, b: string, c: string)
    requires IsFieldList(fields) && IsRow(r) && Printed(r, fields) && i < |fields| - 1 && fields[i] !in FIXED && fields[i + 1] !in FIXED
    ensures var now := Spilled(r, fields[i], fields[i + 1], a, b, c);
      && IsRow(now) && Printed(now, fields)
      && Get(now, fields[i]) == Text(a) && Get(now, fields[i + 1]) == Text(b + Start(fields[i + 1]) + c)
      && forall k :: 0 <= k < |fields| && k != i && k != i + 1 ==> Get(now, fields[k]) == Get(r, fields[k])
  {
  }

  lemma SpilledLines(fields: seq<string>, r: Record, i: nat, a: string, b: string, c: string)
    requires IsFieldList(fields) && IsRow(r) && Printed(r, fields) && i < |fields| - 1 && fields[i] !in FIXED && fields[i + 1] !in FIXED
    requires Get(r, fields[i]) == Text(a + Start(fields[i + 1]) + b) && Get(r, fields[i + 1]) == Text(c)
    ensures var now := Spilled(r, fields[i], fields[i + 1], a, b, c);
      && IsRow(now) && Printed(now, fields) && !SaysSameRow(fields, r, now)
      && Tail(LinesOf(fields, TextsOf(now))) == Tail(LinesOf(fields, TextsOf(r)))
  {
    var now := Spilled(r, fields[i], fields[i + 1], a, b, c);
    SpilledRow(fields, r, i, a, b, c);
    SpillTail(fields, r, now, i, a, b, c);
    LongerText(fields, i, r, now);
  }

  lemma LongerText(fields: seq<string>, i: nat, r: Record, now: Record)
    requires i < |fields| && IsRow(r) && IsRow(now) && Printed(r, fields) && Printed(now, fields)
    requires |TextAt(r, fields[i])| > |TextAt(now, fields[i])|
    ensures !SaysSameRow(fields, r, now)
  {
    SaysSameIff(fields[i], Get(r, fields[i]), Get(now, fields[i]));
  }

  lemma TailTwo(lines: seq<string>, i: nat)
    requires i < |lines| - 1
    ensures Tail(lines) == Tail(lines[..i]) + ("\n" + lines[i] + "\n" + lines[i + 1]) + Tail(lines[i + 2..])
  {
    TailAround(lines, i);
    var rest := lines[i + 1..];
    assert rest[0] == lines[i + 1] && rest[1..] == lines[i + 2..];
    Regroup("\n" + lines[i], "\n", lines[i + 1]);
    Regroup(Tail(lines[..i]), "\n" + lines[i], "\n" + lines[i + 1]);
    Regroup(Tail(lines[..i]) + ("\n" + lines[i]), "\n" + lines[i + 1], Tail(lines[i + 2..]));
  }

  lemma MovedLines(f: string, g: string, a: string, b: string, c: string)
    ensures "\n" + (f + "=" + (a + Start(g) + b)) + "\n" + (g + "=" + c) == "\n" + (f + "=" + a) + "\n" + (g + "=" + (b + Start(g) + c))
  {
    var left := "\n" + (f + "=" + (a + Start(g) + b)) + "\n" + (g + "=" + c);
    var right := "\n" + (f + "=" + a) + "\n" + (g + "=" + (b + Start(g) + c));
    var middle := "\n" + f + "=" + a + "\n" + g + "=" + b + "\n" + g + "=" + c;
    assert left == middle;
    assert right == middle;
  }

  /** A written event with `reason` "a", then a line that starts with the name of the next column: the row
      with that line moved to `trace_id` has another reason, and the verifier still calls it valid. */
  lemma ReasonSpillsIntoTrace(mac: Mac, key: Key, e: AuditEvent, status: string, row: Record, byId: map<string, string>,
                              a: string, b: string, c: string)
    requires IsEvent(e) && EventRow(mac, key, e, status) == Some(row) && InRing(mac, key, byId)
    requires e.reason == Some(a + Start("trace_id") + b) && e.traceId == Some(c)
    ensures var now := row["reason" := Text(a)]["trace_id" := Text(b + Start("trace_id") + c)];
      Accepted(AuditEvents, mac, row, now, byId) && !SaysSameRow(AUDIT_EVENT_FIELDS, row, now)
  {
    var fields := AUDIT_EVENT_FIELDS;
    EventFieldList();
    EventRowWritten(mac, key, e, status, row, byId);
    MessageOfRow(row, fields, Some(key.id));
    ReasonColumns(mac, key, e, status, row);
    SpilledLines(fields, row, 10, a, b, c);
    SpillAccepted(AuditEvents, mac, row, 10, a, b, c, key.id, byId);
  }

  lemma SpillAccepted(table: Table, mac: Mac, row: Record, i: nat, a: string, b: string, c: string, id: string, byId: map<string, string>)
    requires Written(table, mac, row, id, byId) && i < |FieldsOf(table)| - 1
    requires var now := Spilled(row, FieldsOf(table)[i], FieldsOf(table)[i + 1], a, b, c);
      && IsRow(now) && Printed(now, FieldsOf(table))
      && Tail(LinesOf(FieldsOf(table), TextsOf(now))) == Tail(LinesOf(FieldsOf(table), TextsOf(row)))
    ensures Accepted(table, mac, row, Spilled(row, FieldsOf(table)[i], FieldsOf(table)[i + 1], a, b, c), byId)
  {
    var f, g := FieldsOf(table)[i], FieldsOf(table)[i + 1];
    HashColumnsNotCovered();
    assert f in FieldsOf(table) && g in FieldsOf(table);
    SameLinesAccepted(table, mac, row, Spilled(row, f, g, a, b, c), id, byId);
  }

  lemma ReasonColumns(mac: Mac, key: Key, e: AuditEvent, status: string, row: Record)
    requires IsEvent(e) && EventRow(mac, key, e, status) == Some(row)
    ensures Get(row, "reason") == Nullable(e.reason) && Get(row, "trace_id") == Nullable(e.traceId)
    ensures AUDIT_EVENT_FIELDS[10] == "reason" && AUDIT_EVENT_FIELDS[11] == "trace_id"
    ensures "reason" !in FIXED && "trace_id" !in FIXED
  {
    ReasonNames();
    RecordReason(e, ToNaiveUtc(e.timestamp).value, status);
  }

  lemma RecordReason(e: AuditEvent, utc: int, status: string)
    requires InCalendar(utc) && IsEvent(e)
    ensures var r := EventRecord(e, utc, status);
      Get(r, "reason") == Nullable(e.reason) && Get(r, "trace_id") == Nullable(e.traceId)
  {
  }

  lemma ReasonNames()
    ensures "reason" !in FIXED && "reason" != HASH && "reason" != KEY_NAME
    ensures "trace_id" !in FIXED && "trace_id" != HASH && "trace_id" != KEY_NAME
  {
    assert |HASH| == 21 && |KEY_NAME| == 16;
  }

  // ----- quarantine, column by column -----

  /** A later line of the text starts with the column's name and "=". */
  ghost predicate Spells(x: string, name: string) {
    exists i, j :: 0 <= i <= j <= |x| && x[i..j] == Start(name)
  }

  lemma OneLineSpellsNothing(x: string, name: string)
    requires OneLine(x)
    ensures !Spells(x, name)
  {
    forall i, j | 0 <= i <= j <= |x| ensures x[i..j] != Start(name) {
      if i < j { assert x[i..j][0] == x[i]; }
    }
  }

  lemma {:induction false} SimpleColumns(fields: seq<string>)
    requires forall i :: 0 <= i < |fields| ==> fields[i] !in FIXED
    ensures |Columned(fields)| == |fields| && forall i :: 0 <= i < |fields| ==> Columned(fields)[i] == Column(None, fields[i])
  {
    if fields != [] { SimpleColumns(fields[1..]); }
  }

  ghost predicate SpellsNone(r: Record, fields: seq<string>, i: nat)
    requires 1 <= i < |fields|
  {
    !Spells(TextAt(r, fields[i - 1]), fields[i]) && !Spells(TextAt(r, fields[i]), fields[i])
  }

  lemma UnspelledSimple(fields: seq<string>, r: Record)
    requires fields != [] && forall i :: 0 <= i < |fields| ==> fields[i] !in FIXED
    ensures Unspelled(r, fields) <==> forall i :: 1 <= i < |fields| ==> SpellsNone(r, fields, i)
  {
    var rest, cols := fields[1..], Columned(fields[1..]);
    SimpleColumns(rest);
    forall k | 0 <= k < |cols|
      ensures Holds(FormOf, cols[k], TextAt(r, Preceding(fields[0], cols, k))) <==> Spells(TextAt(r, fields[k]), fields[k + 1])
      ensures Holds(FormOf, cols[k], TextAt(r, cols[k].name)) <==> Spells(TextAt(r, fields[k + 1]), fields[k + 1])
    {
      assert cols[k] == Column(None, fields[k + 1]);
      if k > 0 { assert cols[k - 1] == Column(None, fields[k]); }
    }
    if Unspelled(r, fields) {
      forall i | 1 <= i < |fields| ensures SpellsNone(r, fields, i) {
        assert 0 <= i - 1 < |cols|;
      }
    } else {
      var k :| 0 <= k < |cols|
        && (Holds(FormOf, cols[k], TextAt(r, Preceding(fields[0], cols, k))) || Holds(FormOf, cols[k], TextAt(r, cols[k].name)));
      assert !SpellsNone(r, fields, k + 1);
    }
  }

  function OrNone(o: Option<string>): string { if o.Some? then o.value else "None" }

  lemma QuarantineNames()
    ensures QUARANTINE_RECORD_FIELDS[..6] == ["stream_message_id", "raw_data", "raw_signature", "service", "failure_category", "failure_detail"]
    ensures forall i :: 0 <= i < 6 ==> QUARANTINE_RECORD_FIELDS[i] != HASH && QUARANTINE_RECORD_FIELDS[i] != KEY_NAME
  {
    HashColumnsNotCovered();
  }

  lemma QuarantineRecordTexts(r: Record, id: string, data: Option<string>, sig: Option<string>, reason: Reason, attempts: nat)
    requires r == QuarantineRecord(id, data, sig, reason, attempts)
    ensures TextAt(r, "stream_message_id") == id && TextAt(r, "raw_data") == OrNone(data) && TextAt(r, "raw_signature") == OrNone(sig)
    ensures TextAt(r, "service") == OrNone(reason.1) && TextAt(r, "failure_category") == reason.0
    ensures TextAt(r, "failure_detail") == OrNone(reason.2)
  {
  }

  lemma QuarantineTexts(mac: Mac, key: Key, id: string, data: Option<string>, sig: Option<string>, reason: Reason, attempts: nat)
    ensures var row := QuarantineRow(mac, key, QuarantineRecord(id, data, sig, reason, attempts));
      && TextAt(row, TEXT_FIELDS[0]) == id && TextAt(row, TEXT_FIELDS[1]) == OrNone(data) && TextAt(row, TEXT_FIELDS[2]) == OrNone(sig)
      && TextAt(row, TEXT_FIELDS[3]) == OrNone(reason.1) && TextAt(row, TEXT_FIELDS[4]) == reason.0
      && TextAt(row, TEXT_FIELDS[5]) == OrNone(reason.2)
  {
    var r := QuarantineRecord(id, data, sig, reason, attempts);
    var row := QuarantineRow(mac, key, r);
    QuarantineNames();
    QuarantineRecordTexts(r, id, data, sig, reason, attempts);
    SealedTexts(row, r);
  }

  lemma SealedTexts(row: Record, r: Record)
    requires forall f :: f != HASH && f != KEY_NAME ==> Get(row, f) == Get(r, f)
    ensures forall i :: 0 <= i < 6 ==> TextAt(row, TEXT_FIELDS[i]) == TextAt(r, TEXT_FIELDS[i])
  {
    QuarantineNames();
    assert forall i :: 0 <= i < 6 ==> TEXT_FIELDS[i] == QUARANTINE_RECORD_FIELDS[i];
  }

  /** None of the four free texts of a quarantine row spells its own column's name or the next one's. */
  ghost predicate Unforgeable(data: string, sig: string, service: string, detail: string) {
    && !Spells(data, "raw_data") && !Spells(data, "raw_signature")
    && !Spells(sig, "raw_signature") && !Spells(sig, "service")
    && !Spells(service, "service") && !Spells(service, "failure_category")
    && !Spells(detail, "failure_detail")
  }

  lemma UnforgeableIff(r: Record, data: string, sig: string, service: string, detail: string)
    requires OneLine(TextAt(r, TEXT_FIELDS[0])) && TextAt(r, TEXT_FIELDS[1]) == data && TextAt(r, TEXT_FIELDS[2]) == sig
    requires TextAt(r, TEXT_FIELDS[3]) == service && OneLine(TextAt(r, TEXT_FIELDS[4])) && TextAt(r, TEXT_FIELDS[5]) == detail
    ensures (forall i :: 1 <= i < |TEXT_FIELDS| ==> SpellsNone(r, TEXT_FIELDS, i)) <==> Unforgeable(data, sig, service, detail)
  {
    QuarantineNames();
    OneLineSpellsNothing(TextAt(r, TEXT_FIELDS[0]), "raw_data");
    OneLineSpellsNothing(TextAt(r, TEXT_FIELDS[4]), "failure_category");
    OneLineSpellsNothing(TextAt(r, TEXT_FIELDS[4]), "failure_detail");
    if forall i :: 1 <= i < |TEXT_FIELDS| ==> SpellsNone(r, TEXT_FIELDS, i) {
      assert SpellsNone(r, TEXT_FIELDS, 1) && SpellsNone(r, TEXT_FIELDS, 2) && SpellsNone(r, TEXT_FIELDS, 3);
      assert SpellsNone(r, TEXT_FIELDS, 4) && SpellsNone(r, TEXT_FIELDS, 5);
    }
  }

  /** The exact condition on what was quarantined: every change of the row is noticed if and only if the data,
      the signature, the service and the detail spell no label. */
  lemma QuarantineRowProtectedIff(mac: Mac, key: Key, id: string, data: Option<string>, sig: Option<string>, reason: Reason,
                                  attempts: nat, byId: map<string, string>)
    requires InRing(mac, key, byId) && OneLine(id) && OneLine(reason.0)
    ensures Protected(QuarantinedAuditEvents, mac, QuarantineRow(mac, key, QuarantineRecord(id, data, sig, reason, attempts)), byId)
      <==> Unforgeable(OrNone(data), OrNone(sig), OrNone(reason.1), OrNone(reason.2))
  {
    var row := QuarantineRow(mac, key, QuarantineRecord(id, data, sig, reason, attempts));
    QuarantineRowWritten(mac, key, id, data, sig, reason, attempts, byId);
    QuarantineProtectedIff(mac, row, key.id, byId);
    QuarantineFieldList();
    UnspelledSimple(TEXT_FIELDS, row);
    QuarantineTexts(mac, key, id, data, sig, reason, attempts);
    UnforgeableIff(row, OrNone(data), OrNone(sig), OrNone(reason.1), OrNone(reason.2));
  }

  /** A row the code can write and its double: data that spells the signature's label. */
  lemma DataSpillsIntoSignature(id: string, x: string, y: string, z: string, reason: Reason, attempts: nat, keyId: Option<string>)
    ensures CanonicalMessage(QuarantineRecord(id, Some(x + Start("raw_signature") + y), Some(z), reason, attempts), QUARANTINE_RECORD_FIELDS, false, keyId)
         == CanonicalMessage(QuarantineRecord(id, Some(x), Some(y + Start("raw_signature") + z), reason, attempts), QUARANTINE_RECORD_FIELDS, false, keyId)
  {
    var fields := QUARANTINE_RECORD_FIELDS;
    var sig := y + Start("raw_signature") + z;
    var r := QuarantineRecord(id, Some(x + Start("raw_signature") + y), Some(z), reason, attempts);
    var now := QuarantineRecord(id, Some(x), Some(sig), reason, attempts);
    QuarantineDoubles(r, now, x, y, z);
    QuarantineRecordIsRow(id, Some(x + Start("raw_signature") + y), Some(z), reason, attempts);
    QuarantineRecordIsRow(id, Some(x), Some(sig), reason, attempts);
    SameLinesSameMessage(fields, r, now, keyId);
  }

  lemma SameLinesSameMessage(fields: seq<string>, a: Record, b: Record, keyId: Option<string>)
    requires InTable(a, fields) && InTable(b, fields) && (forall f :: f in fields ==> FieldText(f, Get(a, f), false).Some? && FieldText(f, Get(b, f), false).Some?)
    requires Tail(LinesOf(fields, TextsOf(a))) == Tail(LinesOf(fields, TextsOf(b)))
    ensures CanonicalMessage(a, fields, false, keyId) == CanonicalMessage(b, fields, false, keyId)
  {
    TextsExist(a, fields);
    TextsExist(b, fields);
    MessageOfRow(a, fields, keyId);
    MessageOfRow(b, fields, keyId);
    SameTailSameJoin(LinesOf(fields, TextsOf(a)), LinesOf(fields, TextsOf(b)), keyId);
  }

  lemma QuarantineDoubles(r: Record, now: Record, x: string, y: string, z: string)
    requires forall f :: f != "raw_data" && f != "raw_signature" ==> Get(now, f) == Get(r, f)
    requires Get(r, "raw_data") == Text(x + Start("raw_signature") + y) && Get(r, "raw_signature") == Text(z)
    requires Get(now, "raw_data") == Text(x) && Get(now, "raw_signature") == Text(y + Start("raw_signature") + z)
    ensures Tail(LinesOf(QUARANTINE_RECORD_FIELDS, TextsOf(r))) == Tail(LinesOf(QUARANTINE_RECORD_FIELDS, TextsOf(now)))
  {
    DataColumns();
    SpillTail(QUARANTINE_RECORD_FIELDS, r, now, 1, x, y, z);
  }

  lemma DataColumns()
    ensures QUARANTINE_RECORD_FIELDS[1] == "raw_data" && QUARANTINE_RECORD_FIELDS[2] == "raw_signature"
    ensures "raw_data" !in FIXED && "raw_signature" !in FIXED
    ensures forall i :: 0 <= i < |QUARANTINE_RECORD_FIELDS| && i != 1 && i != 2 ==>
      QUARANTINE_RECORD_FIELDS[i] != "raw_data" && QUARANTINE_RECORD_FIELDS[i] != "raw_signature"
  {
    QuarantineMarks(1);
    QuarantineMarks(2);
    forall i | 0 <= i < |QUARANTINE_RECORD_FIELDS| && i != 1 && i != 2
      ensures QUARANTINE_RECORD_FIELDS[i] != "raw_data" && QUARANTINE_RECORD_FIELDS[i] != "raw_signature"
    {
      QuarantineMarks(i);
    }
  }
}
