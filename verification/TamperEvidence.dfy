/**
 The verifier against an altered table: which changes of a row, of any column and to any values,
 its verdict "valid" rules out.
 */
module TamperEvidence {
  import opened Wrappers
  import opened Lines
  import opened RecordIntegrity
  import opened RecordIntegrityLaws
  import opened Readings
  import opened Tampering
  import opened Events
  import opened Sinks
  import opened Verifier
  import opened Tables

  /** An ideal keyed hash: equal hashes come from one key and one message. */
  ghost predicate NoCollisions(mac: Mac) {
    forall k, m, k', m' :: mac(k, m) == mac(k', m') ==> k == k' && m == m'
  }

  function FieldsOf(table: Table): seq<string> {
    if table.AuditEvents? then AUDIT_EVENT_FIELDS else QUARANTINE_RECORD_FIELDS
  }

  /** A row of a table as written under a key of the ring: its hash and key id columns are its own. */
  ghost predicate Written(table: Table, mac: Mac, was: Record, id: string, byId: map<string, string>) {
    && InTable(was, FieldsOf(table)) && id in byId && id != LEGACY_KEY_ID && Get(was, KEY_NAME) == Text(id)
    && HasHash(was) && HashOf(mac, was, FieldsOf(table), byId[id], Some(id)) == Some(Get(was, HASH).s)
  }

  /** Any row, however it came about, with the hash of `was` and called valid. */
  ghost predicate Accepted(table: Table, mac: Mac, was: Record, now: Record, byId: map<string, string>) {
    InTable(now, FieldsOf(table)) && Get(now, HASH) == Get(was, HASH) && VerdictOf(table, mac, now, Ring(byId)) == Valid
  }

  /** The same content under the same key. */
  ghost predicate Unchanged(table: Table, was: Record, now: Record) {
    Get(now, KEY_NAME) == Get(was, KEY_NAME) && SaysSameRow(FieldsOf(table), was, now)
  }

  /** Every change of the row is noticed. */
  ghost predicate Protected(table: Table, mac: Mac, was: Record, byId: map<string, string>) {
    forall now :: Accepted(table, mac, was, now, byId) ==> Unchanged(table, was, now)
  }

  // ----- the key line -----

  lemma KeyLineAgrees(a: seq<string>, b: seq<string>, k: string, k': string)
    requires OneLine(k) && OneLine(k') && Join(a + KeyLine(Some(k))) == Join(b + KeyLine(Some(k')))
    ensures k == k' && Tail(a) == Tail(b)
  {
    KeyIsName();
    NamedLastLine(KEY_NAME, a, k, b, k');
  }

  lemma NamedLastLine(name: string, a: seq<string>, x: string, b: seq<string>, y: string)
    requires IsName(name) && OneLine(x) && OneLine(y) && Join(a + [name + "=" + x]) == Join(b + [name + "=" + y])
    ensures x == y && Tail(a) == Tail(b)
  {
    LineOfOneLine(name, x);
    LineOfOneLine(name, y);
    LastLineSplit(a, name + "=" + x, b, name + "=" + y);
    BeforeEquals(name, name, x, y);
  }

  lemma SameTailSameJoin(a: seq<string>, b: seq<string>, keyId: Option<string>)
    requires Tail(a) == Tail(b) && |a| == |b|
    ensures Join(a + KeyLine(keyId)) == Join(b + KeyLine(keyId))
  {
    var x, y := a + KeyLine(keyId), b + KeyLine(keyId);
    TailOfConcat(a, KeyLine(keyId));
    TailOfConcat(b, KeyLine(keyId));
    if x != [] {
      JoinIsTail(x);
      JoinIsTail(y);
    }
  }

  // ----- what the verifier checked -----

  /** An accepted row that names a key has the written message, under the written key. */
  lemma AcceptedKeyed(table: Table, mac: Mac, was: Record, now: Record, id: string, byId: map<string, string>, k: string)
    requires NoCollisions(mac) && Written(table, mac, was, id, byId) && Accepted(table, mac, was, now, byId)
    requires Get(now, KEY_NAME) == Text(k)
    ensures k in byId && CanonicalMessage(now, FieldsOf(table), false, Some(k)).Some?
    ensures CanonicalMessage(now, FieldsOf(table), false, Some(k)) == CanonicalMessage(was, FieldsOf(table), false, Some(id))
  {
  }

  /** One that names none is checked under the legacy key, in the current or, for an event, the legacy form. */
  lemma AcceptedUnkeyed(table: Table, mac: Mac, was: Record, now: Record, id: string, byId: map<string, string>)
    requires NoCollisions(mac) && Written(table, mac, was, id, byId) && Accepted(table, mac, was, now, byId)
    requires !Get(now, KEY_NAME).Text?
    ensures LEGACY_KEY_ID in byId && byId[LEGACY_KEY_ID] == byId[id]
    ensures table.QuarantinedAuditEvents? ==>
      && CanonicalMessage(now, FieldsOf(table), false, None).Some?
      && CanonicalMessage(now, FieldsOf(table), false, None) == CanonicalMessage(was, FieldsOf(table), false, Some(id))
  {
  }

  /** A row with the lines, hash and key id of a written row is accepted. */
  lemma SameLinesAccepted(table: Table, mac: Mac, was: Record, now: Record, id: string, byId: map<string, string>)
    requires Written(table, mac, was, id, byId) && IsRow(now) && Printed(now, FieldsOf(table))
    requires Get(now, HASH) == Get(was, HASH) && Get(now, KEY_NAME) == Get(was, KEY_NAME)
    requires Tail(LinesOf(FieldsOf(table), TextsOf(was))) == Tail(LinesOf(FieldsOf(table), TextsOf(now)))
    ensures Accepted(table, mac, was, now, byId)
  {
    var fields := FieldsOf(table);
    TextsExist(now, fields);
    MessageOfRow(was, fields, Some(id));
    MessageOfRow(now, fields, Some(id));
    SameTailSameJoin(LinesOf(fields, TextsOf(was)), LinesOf(fields, TextsOf(now)), Some(id));
  }

  // ----- field lists -----

  /** Length and first letter tell the names of a table apart. */
  function Mark(name: string): int { if name == "" then 0 else |name| * 1000 + name[0] as int }

  lemma EventMarks(i: nat)
    requires i < |AUDIT_EVENT_FIELDS|
    ensures Mark(AUDIT_EVENT_FIELDS[i]) == [8101, 9116, 7115, 10101, 7117, 15111, 12116, 6097, 8114, 8100, 6114, 8116, 7099, 16105][i]
  {
  }

  lemma EventFieldList()
    ensures IsFieldList(AUDIT_EVENT_FIELDS) && HASH !in AUDIT_EVENT_FIELDS && KEY_NAME !in AUDIT_EVENT_FIELDS
  {
    EventFieldsAreNames();
    HashColumnsNotCovered();
    forall i, j | 0 <= i < j < |AUDIT_EVENT_FIELDS| ensures AUDIT_EVENT_FIELDS[i] != AUDIT_EVENT_FIELDS[j] {
      EventMarks(i);
      EventMarks(j);
    }
    forall i | 0 <= i < |AUDIT_EVENT_FIELDS| && AUDIT_EVENT_FIELDS[i] in FIXED
      ensures i < |AUDIT_EVENT_FIELDS| - 1 && AUDIT_EVENT_FIELDS[i + 1] !in FIXED
    {
      EventMarks(i);
      FixedMarks(AUDIT_EVENT_FIELDS[i]);
    }
  }

  lemma FixedMarks(f: string)
    requires f in FIXED
    ensures Mark(f) in {9116, 7099, 17100}
  {
  }

  lemma QuarantineMarks(i: nat)
    requires i < |QUARANTINE_RECORD_FIELDS|
    ensures Mark(QUARANTINE_RECORD_FIELDS[i]) == [17115, 8114, 13114, 7115, 16102, 14102, 17100][i]
  {
  }

  /** All quarantine columns but the last, which is a number. */
  const TEXT_FIELDS: seq<string> := QUARANTINE_RECORD_FIELDS[..6]

  lemma QuarantineFieldList()
    ensures IsFieldList(TEXT_FIELDS) && (forall i :: 0 <= i < |TEXT_FIELDS| ==> TEXT_FIELDS[i] !in FIXED)
    ensures HASH !in QUARANTINE_RECORD_FIELDS && KEY_NAME !in QUARANTINE_RECORD_FIELDS
  {
    QuarantineFieldsAreNames();
    HashColumnsNotCovered();
    forall i, j | 0 <= i < j < |TEXT_FIELDS| ensures TEXT_FIELDS[i] != TEXT_FIELDS[j] {
      QuarantineMarks(i);
      QuarantineMarks(j);
    }
    forall i | 0 <= i < |TEXT_FIELDS| ensures TEXT_FIELDS[i] !in FIXED {
      QuarantineMarks(i);
      if TEXT_FIELDS[i] in FIXED { FixedMarks(TEXT_FIELDS[i]); }
    }
  }

  // ----- events -----

  lemma EventKept(mac: Mac, was: Record, now: Record, id: string, byId: map<string, string>, k: string)
    requires NoCollisions(mac) && Written(AuditEvents, mac, was, id, byId) && Accepted(AuditEvents, mac, was, now, byId)
    requires OneLine(id) && OneLine(k) && Get(now, KEY_NAME) == Text(k) && Unspelled(was, AUDIT_EVENT_FIELDS)
    ensures Unchanged(AuditEvents, was, now)
  {
    var fields := AUDIT_EVENT_FIELDS;
    EventFieldList();
    AcceptedKeyed(AuditEvents, mac, was, now, id, byId, k);
    MessageOfRow(was, fields, Some(id));
    MessageOfRow(now, fields, Some(k));
    KeyLineAgrees(LinesOf(fields, TextsOf(was)), LinesOf(fields, TextsOf(now)), id, k);
    RowsAgree(fields, was, now);
  }

  lemma EventForged(mac: Mac, was: Record, id: string, byId: map<string, string>) returns (now: Record)
    requires Written(AuditEvents, mac, was, id, byId) && !Unspelled(was, AUDIT_EVENT_FIELDS)
    ensures Accepted(AuditEvents, mac, was, now, byId) && !SaysSameRow(AUDIT_EVENT_FIELDS, was, now)
  {
    EventFieldList();
    MessageOfRow(was, AUDIT_EVENT_FIELDS, Some(id));
    now := RowRespelled(AUDIT_EVENT_FIELDS, was);
    SameLinesAccepted(AuditEvents, mac, was, now, id, byId);
  }

  /** The last event column, with the key line made part of its text. */
  function KeyAbsorbed(was: Record, id: string): Record {
    was[STATUS := Text(TextAt(was, STATUS) + Start(KEY_NAME) + id)][KEY_NAME := Absent]
  }

  const STATUS := "integrity_status"

  lemma KeyAbsorbedRow(was: Record, id: string)
    requires IsRow(was)
    ensures var now := KeyAbsorbed(was, id);
      && IsRow(now) && (forall f :: f != STATUS && f != KEY_NAME ==> Get(now, f) == Get(was, f))
      && Get(now, STATUS) == Text(TextAt(was, STATUS) + Start(KEY_NAME) + id) && Get(now, HASH) == Get(was, HASH)
      && Get(now, KEY_NAME) == Absent
  {
    assert |HASH| == 21 && |STATUS| == 16 && |KEY_NAME| == 16 && STATUS[10] == 's' && KEY_NAME[10] == 'k';
  }

  /** Two rows that agree on all columns but the last. */
  lemma AbsorbedLines(fields: seq<string>, was: Record, now: Record, line: string)
    requires IsFieldList(fields) && IsRow(was) && IsRow(now) && fields[|fields| - 1] !in FIXED
    requires forall i :: 0 <= i < |fields| - 1 ==> Get(now, fields[i]) == Get(was, fields[i])
    requires Get(now, fields[|fields| - 1]) == Text(TextAt(was, fields[|fields| - 1]) + "\n" + line)
    ensures Join(LinesOf(fields, TextsOf(now))) == Join(LinesOf(fields, TextsOf(was)) + [line])
  {
    var n, last := |fields| - 1, fields[|fields| - 1];
    var a, b := LinesOf(fields, TextsOf(was)), LinesOf(fields, TextsOf(now));
    assert a[..n] == b[..n];
    Regroup(last + "=", TextAt(was, last), "\n" + line);
    Regroup(TextAt(was, last), "\n", line);
    Regroup(a[n], "\n", line);
    AbsorbLine(a, b, line);
  }

  lemma KeyAbsorbedLines(was: Record, id: string)
    requires IsRow(was) && Printed(was, AUDIT_EVENT_FIELDS)
    ensures var now := KeyAbsorbed(was, id);
      && IsRow(now) && Printed(now, AUDIT_EVENT_FIELDS) && !SaysSameRow(AUDIT_EVENT_FIELDS, was, now)
      && Get(now, HASH) == Get(was, HASH) && Get(now, KEY_NAME) == Absent
      && Join(LinesOf(AUDIT_EVENT_FIELDS, TextsOf(now))) == Join(LinesOf(AUDIT_EVENT_FIELDS, TextsOf(was)) + KeyLine(Some(id)))
  {
    var fields, now := AUDIT_EVENT_FIELDS, KeyAbsorbed(was, id);
    EventFieldList();
    KeyAbsorbedRow(was, id);
    assert fields[13] == STATUS;
    Regroup(TextAt(was, STATUS), Start(KEY_NAME), id);
    Regroup("\n", KEY_NAME + "=", id);
    Regroup("\n", KEY_NAME, "=");
    Regroup(TextAt(was, STATUS), "\n", KEY_NAME + "=" + id);
    StatusOnly(was, now);
    AbsorbedLines(fields, was, now, KEY_NAME + "=" + id);
  }

  lemma StatusOnly(was: Record, now: Record)
    requires IsRow(was) && IsRow(now) && Printed(was, AUDIT_EVENT_FIELDS) && Get(now, STATUS).Text?
    requires forall f :: f != STATUS && f != KEY_NAME ==> Get(now, f) == Get(was, f)
    requires TextAt(now, STATUS) != TextAt(was, STATUS)
    ensures Printed(now, AUDIT_EVENT_FIELDS) && !SaysSameRow(AUDIT_EVENT_FIELDS, was, now)
    ensures forall i :: 0 <= i < |AUDIT_EVENT_FIELDS| - 1 ==> Get(now, AUDIT_EVENT_FIELDS[i]) == Get(was, AUDIT_EVENT_FIELDS[i])
  {
    var fields := AUDIT_EVENT_FIELDS;
    EventFieldList();
    assert fields[13] == STATUS;
    SaysSameIff(fields[13], Get(was, fields[13]), Get(now, fields[13]));
  }

  lemma AbsorbLine(a: seq<string>, b: seq<string>, line: string)
    requires a != [] && |a| == |b| && a[..|a| - 1] == b[..|a| - 1] && b[|a| - 1] == a[|a| - 1] + "\n" + line
    ensures Join(b) == Join(a + [line])
  {
    SplitLast(a);
    SplitLast(b);
    SplitLast(a + [line]);
    assert (a + [line])[..|a|] == a;
    JoinIsTail(b);
    JoinIsTail(a + [line]);
    Regroup("\n", a[|a| - 1], "\n" + line);
    Regroup(a[|a| - 1], "\n", line);
    Regroup(Tail(a[..|a| - 1]), "\n" + a[|a| - 1], "\n" + line);
  }

  /** If the legacy key has the written key's secret, a row without a key id passes with another status. */
  lemma SharedLegacySecret(mac: Mac, was: Record, id: string, byId: map<string, string>)
    requires Written(AuditEvents, mac, was, id, byId) && LEGACY_KEY_ID in byId && byId[LEGACY_KEY_ID] == byId[id]
    ensures var now := KeyAbsorbed(was, id);
      Accepted(AuditEvents, mac, was, now, byId) && !SaysSameRow(AUDIT_EVENT_FIELDS, was, now)
  {
    var now := KeyAbsorbed(was, id);
    MessageOfRow(was, AUDIT_EVENT_FIELDS, Some(id));
    KeyAbsorbedLines(was, id);
    UnkeyedMessage(now);
    UnkeyedAccepted(mac, was, now, id, byId);
  }

  lemma UnkeyedMessage(now: Record)
    requires IsRow(now) && Printed(now, AUDIT_EVENT_FIELDS)
    ensures CanonicalMessage(now, AUDIT_EVENT_FIELDS, false, None) == Some(Join(LinesOf(AUDIT_EVENT_FIELDS, TextsOf(now))))
  {
    TextsExist(now, AUDIT_EVENT_FIELDS);
    MessageOfRow(now, AUDIT_EVENT_FIELDS, None);
    var lines := LinesOf(AUDIT_EVENT_FIELDS, TextsOf(now));
    assert lines + KeyLine(None) == lines;
  }

  lemma UnkeyedAccepted(mac: Mac, was: Record, now: Record, id: string, byId: map<string, string>)
    requires Written(AuditEvents, mac, was, id, byId) && LEGACY_KEY_ID in byId && byId[LEGACY_KEY_ID] == byId[id]
    requires InTable(now, AUDIT_EVENT_FIELDS) && Get(now, HASH) == Get(was, HASH) && Get(now, KEY_NAME) == Absent
    requires CanonicalMessage(now, AUDIT_EVENT_FIELDS, false, None) == CanonicalMessage(was, AUDIT_EVENT_FIELDS, false, Some(id))
    ensures Accepted(AuditEvents, mac, was, now, byId)
  {
  }

  /** The exact condition for audit_events: any change of any column is noticed if and only if the written
      texts spell no label beside a column, and the legacy key does not share the written key's secret. */
  lemma EventProtectedIff(mac: Mac, was: Record, id: string, byId: map<string, string>)
    requires NoCollisions(mac) && Written(AuditEvents, mac, was, id, byId) && forall k :: k in byId ==> OneLine(k)
    ensures Protected(AuditEvents, mac, was, byId) <==>
      Unspelled(was, AUDIT_EVENT_FIELDS) && (LEGACY_KEY_ID in byId ==> byId[LEGACY_KEY_ID] != byId[id])
  {
    if !Unspelled(was, AUDIT_EVENT_FIELDS) {
      var now := EventForged(mac, was, id, byId);
      assert !Unchanged(AuditEvents, was, now);
    } else if LEGACY_KEY_ID in byId && byId[LEGACY_KEY_ID] == byId[id] {
      SharedLegacySecret(mac, was, id, byId);
      assert !Unchanged(AuditEvents, was, KeyAbsorbed(was, id));
    } else {
      forall now | Accepted(AuditEvents, mac, was, now, byId) ensures Unchanged(AuditEvents, was, now) {
        NamesItsKey(mac, was, now, id, byId);
        EventKept(mac, was, now, id, byId, Get(now, KEY_NAME).s);
      }
    }
  }

  lemma NamesItsKey(mac: Mac, was: Record, now: Record, id: string, byId: map<string, string>)
    requires NoCollisions(mac) && Written(AuditEvents, mac, was, id, byId) && Accepted(AuditEvents, mac, was, now, byId)
    requires LEGACY_KEY_ID in byId ==> byId[LEGACY_KEY_ID] != byId[id]
    ensures Get(now, KEY_NAME).Text? && Get(now, KEY_NAME).s in byId
  {
    if Get(now, KEY_NAME).Text? {
      AcceptedKeyed(AuditEvents, mac, was, now, id, byId, Get(now, KEY_NAME).s);
    } else {
      AcceptedUnkeyed(AuditEvents, mac, was, now, id, byId);
    }
  }

  /** With a keyring the script itself resolves, the condition is on the row alone. */
  lemma ResolvedKeyringProtects(mac: Mac, was: Record, id: string, settings: KeySettings)
    requires NoCollisions(mac) && ResolveKeyring(settings).Some?
    requires Written(AuditEvents, mac, was, id, ResolveKeyring(settings).value)
    ensures Protected(AuditEvents, mac, was, ResolveKeyring(settings).value) <==> Unspelled(was, AUDIT_EVENT_FIELDS)
  {
    EventProtectedIff(mac, was, id, ResolveKeyring(settings).value);
  }

  // ----- quarantine -----

  const ATTEMPTS := "delivery_attempts"

  function AttemptsLine(r: Record): string { ATTEMPTS + "=" + TextAt(r, ATTEMPTS) }

  lemma QuarantineLines(r: Record)
    ensures LinesOf(QUARANTINE_RECORD_FIELDS, TextsOf(r)) == LinesOf(TEXT_FIELDS, TextsOf(r)) + [AttemptsLine(r)]
  {
    assert QUARANTINE_RECORD_FIELDS[6] == ATTEMPTS;
  }

  lemma AttemptsOneLine(r: Record)
    requires IsRow(r) && Printed(r, QUARANTINE_RECORD_FIELDS)
    ensures Printed(r, TEXT_FIELDS) && FieldText(ATTEMPTS, Get(r, ATTEMPTS), false) == Some(TextAt(r, ATTEMPTS))
    ensures Fits(ATTEMPTS, Get(r, ATTEMPTS)) && OneLine(TextAt(r, ATTEMPTS)) && OneLine(AttemptsLine(r))
  {
    assert QUARANTINE_RECORD_FIELDS[6] == ATTEMPTS;
    assert Fits(ATTEMPTS, Get(r, ATTEMPTS));
    FixedOneLine(ATTEMPTS, TextAt(r, ATTEMPTS));
    FailureNames();
    LineOfOneLine(ATTEMPTS, TextAt(r, ATTEMPTS));
  }

  lemma LastLineOf(a: seq<string>, x: string, b: seq<string>, y: string)
    requires OneLine(x) && OneLine(y) && Tail(a + [x]) == Tail(b + [y])
    ensures x == y && Tail(a) == Tail(b)
  {
    JoinIsTail(a + [x]);
    JoinIsTail(b + [y]);
    LastLineSplit(a, x, b, y);
  }

  /** A quarantine row without a key id never has the message of one with a key id. */
  lemma QuarantineNamesItsKey(mac: Mac, was: Record, now: Record, id: string, byId: map<string, string>)
    requires NoCollisions(mac) && OneLine(id)
    requires Written(QuarantinedAuditEvents, mac, was, id, byId) && Accepted(QuarantinedAuditEvents, mac, was, now, byId)
    ensures Get(now, KEY_NAME).Text? && Get(now, KEY_NAME).s in byId
  {
    if Get(now, KEY_NAME).Text? {
      AcceptedKeyed(QuarantinedAuditEvents, mac, was, now, id, byId, Get(now, KEY_NAME).s);
    } else {
      AcceptedUnkeyed(QuarantinedAuditEvents, mac, was, now, id, byId);
      MessageOfRow(was, QUARANTINE_RECORD_FIELDS, Some(id));
      MessageOfRow(now, QUARANTINE_RECORD_FIELDS, None);
      AttemptsOneLine(now);
      QuarantineLines(now);
      UnkeyedDiffers(LinesOf(QUARANTINE_RECORD_FIELDS, TextsOf(was)), id, LinesOf(TEXT_FIELDS, TextsOf(now)), TextAt(now, ATTEMPTS));
    }
  }

  lemma UnkeyedDiffers(a: seq<string>, id: string, b: seq<string>, attempts: string)
    requires OneLine(id) && OneLine(attempts)
    ensures Join(a + KeyLine(Some(id))) != Join(b + [ATTEMPTS + "=" + attempts] + KeyLine(None))
  {
    var y := b + [ATTEMPTS + "=" + attempts];
    assert y + KeyLine(None) == y;
    KeyIsName();
    FailureNames();
    assert |KEY_NAME| == 16 && |ATTEMPTS| == 17;
    OtherLastLine(KEY_NAME, ATTEMPTS, a, id, b, attempts);
  }

  lemma QuarantineKept(mac: Mac, was: Record, now: Record, id: string, byId: map<string, string>, k: string)
    requires NoCollisions(mac) && OneLine(id) && OneLine(k) && Get(now, KEY_NAME) == Text(k) && Unspelled(was, TEXT_FIELDS)
    requires Written(QuarantinedAuditEvents, mac, was, id, byId) && Accepted(QuarantinedAuditEvents, mac, was, now, byId)
    ensures Unchanged(QuarantinedAuditEvents, was, now)
  {
    var fields := QUARANTINE_RECORD_FIELDS;
    AcceptedKeyed(QuarantinedAuditEvents, mac, was, now, id, byId, k);
    MessageOfRow(was, fields, Some(id));
    MessageOfRow(now, fields, Some(k));
    KeyLineAgrees(LinesOf(fields, TextsOf(was)), LinesOf(fields, TextsOf(now)), id, k);
    SameQuarantineRow(was, now);
  }

  lemma SameQuarantineRow(was: Record, now: Record)
    requires IsRow(was) && IsRow(now) && Printed(was, QUARANTINE_RECORD_FIELDS) && Printed(now, QUARANTINE_RECORD_FIELDS)
    requires Unspelled(was, TEXT_FIELDS)
    requires Tail(LinesOf(QUARANTINE_RECORD_FIELDS, TextsOf(was))) == Tail(LinesOf(QUARANTINE_RECORD_FIELDS, TextsOf(now)))
    ensures SaysSameRow(QUARANTINE_RECORD_FIELDS, was, now)
  {
    QuarantineFieldList();
    QuarantineLines(was);
    QuarantineLines(now);
    AttemptsOneLine(was);
    AttemptsOneLine(now);
    LastLineOf(LinesOf(TEXT_FIELDS, TextsOf(was)), AttemptsLine(was), LinesOf(TEXT_FIELDS, TextsOf(now)), AttemptsLine(now));
    SameRest(ATTEMPTS + "=", TextAt(was, ATTEMPTS), TextAt(now, ATTEMPTS));
    SaysSameIff(ATTEMPTS, Get(was, ATTEMPTS), Get(now, ATTEMPTS));
    RowsAgree(TEXT_FIELDS, was, now);
    LastFieldToo(was, now);
  }

  lemma LastFieldToo(was: Record, now: Record)
    requires IsRow(was) && IsRow(now) && SaysSameRow(TEXT_FIELDS, was, now) && SaysSame(ATTEMPTS, Get(was, ATTEMPTS), Get(now, ATTEMPTS))
    ensures SaysSameRow(QUARANTINE_RECORD_FIELDS, was, now)
  {
    var fields := QUARANTINE_RECORD_FIELDS;
    assert fields[6] == ATTEMPTS;
    forall i | 0 <= i < |fields| ensures SaysSame(fields[i], Get(was, fields[i]), Get(now, fields[i])) {
      if i < 6 { assert fields[i] == TEXT_FIELDS[i]; }
    }
  }

  lemma QuarantineForged(mac: Mac, was: Record, id: string, byId: map<string, string>) returns (now: Record)
    requires Written(QuarantinedAuditEvents, mac, was, id, byId) && !Unspelled(was, TEXT_FIELDS)
    ensures Accepted(QuarantinedAuditEvents, mac, was, now, byId) && !SaysSameRow(QUARANTINE_RECORD_FIELDS, was, now)
  {
    QuarantineFieldList();
    MessageOfRow(was, QUARANTINE_RECORD_FIELDS, Some(id));
    AttemptsOneLine(was);
    now := RowRespelled(TEXT_FIELDS, was);
    TextFieldsMoved(was, now);
    SameLinesAccepted(QuarantinedAuditEvents, mac, was, now, id, byId);
  }

  lemma TextFieldsMoved(was: Record, now: Record)
    requires IsRow(was) && IsRow(now) && Printed(was, QUARANTINE_RECORD_FIELDS) && Printed(now, TEXT_FIELDS)
    requires Tail(LinesOf(TEXT_FIELDS, TextsOf(was))) == Tail(LinesOf(TEXT_FIELDS, TextsOf(now)))
    requires forall f :: f !in TEXT_FIELDS ==> Get(now, f) == Get(was, f)
    ensures Printed(now, QUARANTINE_RECORD_FIELDS) && Get(now, HASH) == Get(was, HASH) && Get(now, KEY_NAME) == Get(was, KEY_NAME)
    ensures Tail(LinesOf(QUARANTINE_RECORD_FIELDS, TextsOf(was))) == Tail(LinesOf(QUARANTINE_RECORD_FIELDS, TextsOf(now)))
    ensures SaysSameRow(QUARANTINE_RECORD_FIELDS, was, now) ==> SaysSameRow(TEXT_FIELDS, was, now)
  {
    QuarantineFieldList();
    AttemptsApart();
    TextLinesMoved(was, now);
    var fields := QUARANTINE_RECORD_FIELDS;
    assert fields[6] == ATTEMPTS && forall i :: 0 <= i < 6 ==> fields[i] == TEXT_FIELDS[i];
  }

  lemma TextLinesMoved(was: Record, now: Record)
    requires IsRow(was) && IsRow(now) && Printed(was, QUARANTINE_RECORD_FIELDS) && Printed(now, TEXT_FIELDS)
    requires Tail(LinesOf(TEXT_FIELDS, TextsOf(was))) == Tail(LinesOf(TEXT_FIELDS, TextsOf(now)))
    requires Get(now, ATTEMPTS) == Get(was, ATTEMPTS)
    ensures Tail(LinesOf(QUARANTINE_RECORD_FIELDS, TextsOf(was))) == Tail(LinesOf(QUARANTINE_RECORD_FIELDS, TextsOf(now)))
  {
    QuarantineFieldList();
    QuarantineLines(was);
    QuarantineLines(now);
    TailOfConcat(LinesOf(TEXT_FIELDS, TextsOf(was)), [AttemptsLine(was)]);
    TailOfConcat(LinesOf(TEXT_FIELDS, TextsOf(now)), [AttemptsLine(now)]);
  }

  lemma AttemptsApart()
    ensures ATTEMPTS !in TEXT_FIELDS && HASH !in TEXT_FIELDS && KEY_NAME !in TEXT_FIELDS
  {
    QuarantineFieldList();
    assert ATTEMPTS in FIXED;
  }

  /** The exact condition for the quarantine table. A row without a key id is of no use here, since the last
      column is a number. */
  lemma QuarantineProtectedIff(mac: Mac, was: Record, id: string, byId: map<string, string>)
    requires NoCollisions(mac) && Written(QuarantinedAuditEvents, mac, was, id, byId) && forall k :: k in byId ==> OneLine(k)
    ensures Protected(QuarantinedAuditEvents, mac, was, byId) <==> Unspelled(was, TEXT_FIELDS)
  {
    if Unspelled(was, TEXT_FIELDS) {
      forall now | Accepted(QuarantinedAuditEvents, mac, was, now, byId) ensures Unchanged(QuarantinedAuditEvents, was, now) {
        QuarantineNamesItsKey(mac, was, now, id, byId);
        QuarantineKept(mac, was, now, id, byId, Get(now, KEY_NAME).s);
      }
    } else {
      var now := QuarantineForged(mac, was, id, byId);
      assert !Unchanged(QuarantinedAuditEvents, was, now);
    }
  }
}
