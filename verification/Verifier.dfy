/** The read-only integrity check of both tables (scripts/verify_audit_integrity.py). */
module Verifier {
  import opened Wrappers
  import opened Lines
  import opened RecordIntegrity
  import opened RecordIntegrityLaws
  import opened Tables

  const LEGACY_KEY_ID := "__legacy__"

  /** A keyring by key id, or the one secret a direct caller may pass. */
  datatype Keys = Ring(byId: map<string, string>) | Single(secret: string)

  function IdField(table: Table): string {
    if table.AuditEvents? then "event_id" else "stream_message_id"
  }

  function RequiredFields(table: Table): seq<string> {
    if table.AuditEvents? then ["event_id", "timestamp", "service", "event_type", "action"]
    else ["stream_message_id", "failure_category", "delivery_attempts"]
  }

  function Lookup(keys: map<string, string>, id: string): Option<string> {
    if id in keys then Some(keys[id]) else None
  }

  /** The environment settings the keyring is made from. */
  datatype KeySettings = KeySettings(legacy: Option<string>, keyId: Option<string>, current: Option<string>)

  /** Set and not empty. */
  predicate Given(setting: Option<string>) { setting.Some? && setting.value != "" }

  predicate KeyIdChar(c: char) { 'A' <= c <= 'Z' || 'a' <= c <= 'z' || '0' <= c <= '9' || c in {'.', '_', '-'} }

  predicate KeyIdAllowed(id: string) { 1 <= |id| <= 64 && forall i :: 0 <= i < |id| ==> KeyIdChar(id[i]) }

  function Utf8Length(s: string): nat {
    if s == "" then 0
    else
      var c := s[0] as int;
      (if c < 0x80 then 1 else if c < 0x800 then 2 else if c < 0x10000 then 3 else 4) + Utf8Length(s[1..])
  }

  /** From one to four bytes for each character, and one for each exactly when all are ASCII. */
  lemma {:induction false} Utf8Bounds(s: string)
    ensures |s| <= Utf8Length(s) <= 4 * |s|
    ensures Utf8Length(s) == |s| <==> forall i :: 0 <= i < |s| ==> s[i] as int < 0x80
  {
    if s != "" {
      Utf8Bounds(s[1..]);
      assert forall i :: 1 <= i < |s| ==> s[i] == s[1..][i - 1];
    }
  }

  /** What every keyring that can be resolved satisfies: key ids are single lines, and no other key has the
      legacy key's secret. */
  predicate IsKeyring(byId: map<string, string>) {
    && (forall k :: k in byId ==> OneLine(k))
    && (LEGACY_KEY_ID in byId ==> forall k :: k in byId && k != LEGACY_KEY_ID ==> byId[k] != byId[LEGACY_KEY_ID])
  }

  /** `_resolve_keyring`; None when the script exits. */
  function ResolveKeyring(e: KeySettings): (r: Option<map<string, string>>)
    ensures r.Some? ==> r.value != map[] && IsKeyring(r.value)
    ensures r.Some? ==> forall k :: k in r.value && k != LEGACY_KEY_ID ==> KeyIdAllowed(k) && Utf8Length(r.value[k]) >= 32
    ensures r.Some? ==> forall k :: k in r.value <==>
      (k == LEGACY_KEY_ID && Given(e.legacy)) || (Given(e.current) && e.keyId == Some(k))
    ensures r.Some? && Given(e.legacy) ==> r.value[LEGACY_KEY_ID] == e.legacy.value
    ensures r.Some? <==> if !Given(e.current) then Given(e.legacy) else
      && e.keyId.Some? && e.keyId.value != "__legacy__" && 1 <= |e.keyId.value| <= 64
      && (forall i :: 0 <= i < |e.keyId.value| ==>
            var c := e.keyId.value[i]; 'A' <= c <= 'Z' || 'a' <= c <= 'z' || '0' <= c <= '9' || c == '.' || c == '_' || c == '-')
      && Utf8Length(e.current.value) >= 32 && e.legacy != e.current
    ensures r.Some? && Given(e.current) ==> r.value[e.keyId.value] == e.current.value
  {
    assert OneLine(LEGACY_KEY_ID);
    var legacy := if Given(e.legacy) then map[LEGACY_KEY_ID := e.legacy.value] else map[];
    assert Given(e.legacy) ==> LEGACY_KEY_ID in legacy;
    if !Given(e.current) then if legacy == map[] then None else Some(legacy)
    else if !Given(e.keyId) || e.keyId.value == LEGACY_KEY_ID then None
    else if Utf8Length(e.current.value) < 32 || !KeyIdAllowed(e.keyId.value) then None
    else if Given(e.legacy) && e.legacy.value == e.current.value then None
    else
      AllowedOneLine(e.keyId.value);
      var ring := legacy[e.keyId.value := e.current.value];
      assert e.keyId.value in ring;
      Some(ring)
  }

  /** An empty setting counts as one that is not set. */
  lemma EmptyIsUnset(e: KeySettings)
    ensures ResolveKeyring(e.(legacy := Some(""))) == ResolveKeyring(e.(legacy := None))
    ensures ResolveKeyring(e.(keyId := Some(""))) == ResolveKeyring(e.(keyId := None))
    ensures ResolveKeyring(e.(current := Some(""))) == ResolveKeyring(e.(current := None))
  {
  }

  lemma AllowedOneLine(id: string)
    requires KeyIdAllowed(id)
    ensures OneLine(id)
  {
  }

  /** `_selected_key`: the secret, if configured, and the key id to hash with. */
  function SelectedKey(row: Record, keys: Keys): (Option<string>, Option<string>) {
    var keyId := match Get(row, KEY_NAME) { case Text(k) => Some(k) case _ => None };
    match keys
    case Single(secret) => (Some(secret), keyId)
    case Ring(byId) =>
      match keyId
      case None => (Lookup(byId, LEGACY_KEY_ID), None)
      case Some(k) => (Lookup(byId, k), Some(k))
  }

  predicate HasHash(row: Record) { Get(row, HASH).Text? && Get(row, HASH).s != "" }

  predicate Verifies(table: Table, mac: Mac, row: Record, secret: string, keyId: Option<string>)
    requires IsRecord(row)
  {
    if table.AuditEvents? then EventVerifies(mac, row, secret, keyId) else QuarantineVerifies(mac, row, secret, keyId)
  }

  datatype Verdict = NoBaseline | Unverifiable | Valid | Invalid

  function VerdictOf(table: Table, mac: Mac, row: Record, keys: Keys): Verdict
    requires IsRecord(row)
  {
    var (secret, keyId) := SelectedKey(row, keys);
    if !HasHash(row) then NoBaseline
    else if secret.None? then Unverifiable
    else if Verifies(table, mac, row, secret.value, keyId) then Valid
    else Invalid
  }

  predicate Filled(v: Value) { v != Absent && v != Text("") }

  datatype Problem = DuplicateId(id: Value) | MissingField(id: Value, field: string)

  datatype Stats = Stats(checked: nat, valid: nat, invalid: seq<Value>, unverifiable: seq<Value>,
                         noBaseline: nat, structural: seq<Problem>, validLegacy: nat)

  // ----- the declarative side -----

  predicate AreRecords(rows: seq<Record>) { forall i :: 0 <= i < |rows| ==> IsRecord(rows[i]) }

  /** The ids of the rows with a verdict, in table order. */
  function IdsOf(table: Table, mac: Mac, rows: seq<Record>, keys: Keys, verdict: Verdict): seq<Value>
    requires AreRecords(rows)
  {
    if rows == [] then []
    else
      var n := |rows| - 1;
      IdsOf(table, mac, rows[..n], keys, verdict)
      + if VerdictOf(table, mac, rows[n], keys) == verdict then [Get(rows[n], IdField(table))] else []
  }

  /** A valid event row without a key id whose hash is that of the legacy form. */
  predicate LegacyValid(table: Table, mac: Mac, row: Record, keys: Keys)
    requires IsRecord(row)
  {
    var (secret, keyId) := SelectedKey(row, keys);
    table.AuditEvents? && VerdictOf(table, mac, row, keys) == Valid && keyId.None? && MatchesLegacyForm(mac, row, secret.value)
  }

  function LegacyCount(table: Table, mac: Mac, rows: seq<Record>, keys: Keys): nat
    requires AreRecords(rows)
  {
    if rows == [] then 0
    else
      var n := |rows| - 1;
      LegacyCount(table, mac, rows[..n], keys) + if LegacyValid(table, mac, rows[n], keys) then 1 else 0
  }

  /** The secret that checks a row without a key id. */
  predicate Unkeyed(row: Record, keys: Keys, secret: string) {
    Get(row, KEY_NAME) == Absent && (keys == Single(secret) || (keys.Ring? && LEGACY_KEY_ID in keys.byId && keys.byId[LEGACY_KEY_ID] == secret))
  }

  /** The verdict on an event row without a key id, from the texts of its columns: valid in the current form or in
      the one whose timestamp ends in the UTC offset, and counted as legacy in exactly the second. */
  lemma UnkeyedVerdict(mac: Mac, row: Record, keys: Keys, secret: string, texts: seq<string>)
    requires IsRecord(row) && Unkeyed(row, keys, secret) && HasHash(row)
    requires Get(row, "timestamp").Moment? && FieldTexts(row, AUDIT_EVENT_FIELDS, false) == Some(texts)
    ensures |texts| == |AUDIT_EVENT_FIELDS|
    ensures var hash, current := Get(row, HASH).s, mac(secret, Message(AUDIT_EVENT_FIELDS, texts, None));
      var legacy := mac(secret, Message(AUDIT_EVENT_FIELDS, texts[1 := texts[1] + "+00:00"], None));
      && VerdictOf(AuditEvents, mac, row, keys) == (if hash == current || hash == legacy then Valid else Invalid)
      && (LegacyValid(AuditEvents, mac, row, keys) <==> hash == legacy)
  {
    LegacyTexts(row, texts);
  }

  /** With a hash free of collisions the two forms are told apart: a row in the current form is valid and not
      counted as legacy. */
  lemma CurrentFormNotLegacy(mac: Mac, row: Record, keys: Keys, secret: string, texts: seq<string>)
    requires IsRecord(row) && Unkeyed(row, keys, secret) && HasHash(row)
    requires Get(row, "timestamp").Moment? && FieldTexts(row, AUDIT_EVENT_FIELDS, false) == Some(texts)
    requires Get(row, HASH).s == mac(secret, Message(AUDIT_EVENT_FIELDS, texts, None))
    requires forall m, m' :: mac(secret, m) == mac(secret, m') ==> m == m'
    ensures VerdictOf(AuditEvents, mac, row, keys) == Valid && !LegacyValid(AuditEvents, mac, row, keys)
  {
    UnkeyedVerdict(mac, row, keys, secret, texts);
    MessageLonger(AUDIT_EVENT_FIELDS, texts, None, 1, "+00:00");
  }

  /** What the verifier's legacy counter counts in a table of rows without key ids: those whose hash is that of
      the legacy form. */
  lemma {:induction false} LegacyCounted(mac: Mac, rows: seq<Record>, row: Record, keys: Keys, secret: string, texts: seq<string>)
    requires AreRecords(rows) && IsRecord(row) && Unkeyed(row, keys, secret) && HasHash(row)
    requires Get(row, "timestamp").Moment? && FieldTexts(row, AUDIT_EVENT_FIELDS, false) == Some(texts)
    requires |texts| == |AUDIT_EVENT_FIELDS|
    ensures AreRecords(rows + [row])
    ensures LegacyCount(AuditEvents, mac, rows + [row], keys) == LegacyCount(AuditEvents, mac, rows, keys)
      + if Get(row, HASH).s == mac(secret, Message(AUDIT_EVENT_FIELDS, texts[1 := texts[1] + "+00:00"], None)) then 1 else 0
  {
    UnkeyedVerdict(mac, row, keys, secret, texts);
    assert (rows + [row])[..|rows|] == rows;
  }

  /** And on a row with one: only the current form with its key line, under the key its id selects. */
  lemma KeyedVerdict(mac: Mac, row: Record, byId: map<string, string>, id: string, texts: seq<string>)
    requires IsRecord(row) && Get(row, KEY_NAME) == Text(id) && HasHash(row)
    requires FieldTexts(row, AUDIT_EVENT_FIELDS, false) == Some(texts)
    ensures !LegacyValid(AuditEvents, mac, row, Ring(byId))
    ensures VerdictOf(AuditEvents, mac, row, Ring(byId)) ==
      if id !in byId then Unverifiable
      else if Get(row, HASH).s == mac(byId[id], Message(AUDIT_EVENT_FIELDS, texts, Some(id))) then Valid else Invalid
  {
  }

  /** The fields a quarantine row must have. */
  lemma QuarantineCompleteIff(row: Record)
    ensures Complete(QuarantinedAuditEvents, row) <==>
      Filled(Get(row, "stream_message_id")) && Filled(Get(row, "failure_category")) && Filled(Get(row, "delivery_attempts"))
  {
    var fs := RequiredFields(QuarantinedAuditEvents);
    assert fs[0] in fs && fs[1] in fs && fs[2] in fs;
  }

  predicate DistinctIds(table: Table, rows: seq<Record>) {
    forall i, j :: 0 <= i < j < |rows| ==> Get(rows[i], IdField(table)) != Get(rows[j], IdField(table))
  }

  predicate Complete(table: Table, row: Record) {
    forall f :: f in RequiredFields(table) ==> Filled(Get(row, f))
  }

  /** A row nothing is wrong with: complete, hashed, its key known, its hash right. */
  predicate Sound(table: Table, mac: Mac, row: Record, keys: Keys)
    requires IsRecord(row)
  {
    var (secret, keyId) := SelectedKey(row, keys);
    Complete(table, row) && HasHash(row) && secret.Some? && Verifies(table, mac, row, secret.value, keyId)
  }

  predicate Clean(table: Table, mac: Mac, rows: seq<Record>, keys: Keys)
    requires AreRecords(rows)
  {
    DistinctIds(table, rows) && forall i :: 0 <= i < |rows| ==> Sound(table, mac, rows[i], keys)
  }

  /** Every row has one verdict, so the four counts add up to the rows checked. */
  lemma {:induction false} VerdictsPartition(table: Table, mac: Mac, rows: seq<Record>, keys: Keys)
    requires AreRecords(rows)
    ensures |IdsOf(table, mac, rows, keys, Valid)| + |IdsOf(table, mac, rows, keys, Invalid)|
      + |IdsOf(table, mac, rows, keys, Unverifiable)| + |IdsOf(table, mac, rows, keys, NoBaseline)| == |rows|
  {
    if rows != [] {
      VerdictsPartition(table, mac, rows[..|rows| - 1], keys);
    }
  }

  lemma {:induction false} NoIdsIff(table: Table, mac: Mac, rows: seq<Record>, keys: Keys, verdict: Verdict)
    requires AreRecords(rows)
    ensures IdsOf(table, mac, rows, keys, verdict) == [] <==>
      forall i :: 0 <= i < |rows| ==> VerdictOf(table, mac, rows[i], keys) != verdict
  {
    if rows != [] {
      var n := |rows| - 1;
      NoIdsIff(table, mac, rows[..n], keys, verdict);
      assert forall i :: 0 <= i < n ==> rows[..n][i] == rows[i];
    }
  }

  // ----- the loops -----

  /** A required field the row lacks. */
  predicate Lacks(table: Table, row: Record, p: Problem) {
    p.MissingField? && p.id == Get(row, IdField(table)) && p.field in RequiredFields(table) && !Filled(Get(row, p.field))
  }

  /** The required-field loop: it reports exactly the fields that are missing. */
  method MissingFields(table: Table, row: Record) returns (problems: seq<Problem>)
    ensures problems == [] <==> Complete(table, row)
    ensures forall p :: p in problems <==> Lacks(table, row, p)
  {
    problems := [];
    var required := RequiredFields(table);
    for i := 0 to |required|
      invariant problems == [] <==> forall j :: 0 <= j < i ==> Filled(Get(row, required[j]))
      invariant forall p :: p in problems <==> Lacks(table, row, p) && p.field in required[..i]
    {
      assert required[..i + 1] == required[..i] + [required[i]];
      if !Filled(Get(row, required[i])) {
        problems := problems + [MissingField(Get(row, IdField(table)), required[i])];
      }
    }
    assert required[..|required|] == required;
  }

  /** The counters agree with the verdicts on `rows`. */
  predicate Counted(table: Table, mac: Mac, rows: seq<Record>, keys: Keys, stats: Stats)
    requires AreRecords(rows)
  {
    && stats.checked == |rows| && stats.validLegacy == LegacyCount(table, mac, rows, keys) <= stats.valid
    && stats.valid == |IdsOf(table, mac, rows, keys, Valid)|
    && stats.invalid == IdsOf(table, mac, rows, keys, Invalid)
    && stats.unverifiable == IdsOf(table, mac, rows, keys, Unverifiable)
    && stats.noBaseline == |IdsOf(table, mac, rows, keys, NoBaseline)|
  }

  /** The hash part of one loop iteration. */
  method CheckHash(table: Table, mac: Mac, rows: seq<Record>, keys: Keys, n: nat, before: Stats) returns (stats: Stats)
    requires AreRecords(rows) && n < |rows| && AreRecords(rows[..n]) && Counted(table, mac, rows[..n], keys, before)
    ensures AreRecords(rows[..n + 1]) && Counted(table, mac, rows[..n + 1], keys, stats)
    ensures stats.structural == before.structural
  {
    var row := rows[n];
    var id := Get(row, IdField(table));
    ghost var v := VerdictOf(table, mac, row, keys);
    assert rows[..n + 1][..n] == rows[..n] && rows[..n + 1][n] == row;
    stats := before.(checked := before.checked + 1);
    var (secret, keyId) := SelectedKey(row, keys);
    if !HasHash(row) {
      stats := stats.(noBaseline := stats.noBaseline + 1);
    } else if secret.None? {
      stats := stats.(unverifiable := stats.unverifiable + [id]);
    } else if Verifies(table, mac, row, secret.value, keyId) {
      stats := stats.(valid := stats.valid + 1);
      if table.AuditEvents? && keyId.None? && MatchesLegacyForm(mac, row, secret.value) {
        stats := stats.(validLegacy := stats.validLegacy + 1);
      }
    } else {
      stats := stats.(invalid := stats.invalid + [id]);
    }
  }

  /** No id seen twice and no required field missing, so far. */
  predicate WellStructured(table: Table, rows: seq<Record>) {
    DistinctIds(table, rows) && forall i :: 0 <= i < |rows| ==> Complete(table, rows[i])
  }

  lemma ExtendStructure(table: Table, rows: seq<Record>, n: nat)
    requires n < |rows|
    ensures WellStructured(table, rows[..n + 1]) <==>
      && WellStructured(table, rows[..n]) && Complete(table, rows[n])
      && forall i :: 0 <= i < n ==> Get(rows[i], IdField(table)) != Get(rows[n], IdField(table))
  {
    var a, b := rows[..n], rows[..n + 1];
    assert b[n] == rows[n] && forall i :: 0 <= i < n ==> a[i] == b[i] == rows[i];
    if WellStructured(table, b) {
      assert forall i :: 0 <= i < n ==> Complete(table, b[i]);
    }
  }

  /** `seen` holds the ids of the first n rows. */
  ghost predicate Seen(table: Table, rows: seq<Record>, n: nat, seen: set<Value>)
    requires n <= |rows|
  {
    forall v :: v in seen <==> exists i :: 0 <= i < n && Get(rows[i], IdField(table)) == v
  }

  /** What is wrong with the structure of a table: an id of two rows, or a required field some row lacks. */
  ghost predicate IsProblem(table: Table, rows: seq<Record>, p: Problem) {
    match p
    case DuplicateId(id) => exists i, j :: 0 <= i < j < |rows| && Get(rows[i], IdField(table)) == id && Get(rows[j], IdField(table)) == id
    case MissingField(_, _) => exists i :: 0 <= i < |rows| && Lacks(table, rows[i], p)
  }

  /** What the next row adds to it. */
  ghost predicate NewProblem(table: Table, rows: seq<Record>, n: nat, p: Problem)
    requires n < |rows|
  {
    match p
    case DuplicateId(id) => id == Get(rows[n], IdField(table)) && exists i :: 0 <= i < n && Get(rows[i], IdField(table)) == id
    case MissingField(_, _) => Lacks(table, rows[n], p)
  }

  lemma ProblemsNext(table: Table, rows: seq<Record>, n: nat, p: Problem)
    requires n < |rows|
    ensures IsProblem(table, rows[..n + 1], p) <==> IsProblem(table, rows[..n], p) || NewProblem(table, rows, n, p)
  {
    var a, b := rows[..n], rows[..n + 1];
    assert b[n] == rows[n] && forall i :: 0 <= i < n ==> a[i] == b[i] == rows[i];
    if p.DuplicateId? && IsProblem(table, a, p) {
      var i, j :| 0 <= i < j < n && Get(a[i], IdField(table)) == p.id && Get(a[j], IdField(table)) == p.id;
      assert b[i] == a[i] && b[j] == a[j];
    }
    if p.DuplicateId? && NewProblem(table, rows, n, p) {
      var i :| 0 <= i < n && Get(rows[i], IdField(table)) == p.id;
      assert b[i] == rows[i];
    }
    if p.MissingField? && IsProblem(table, a, p) {
      var i :| 0 <= i < n && Lacks(table, a[i], p);
      assert b[i] == a[i];
    }
  }

  /** The structural part of one loop iteration. */
  method CheckStructure(table: Table, rows: seq<Record>, n: nat, before: set<Value>)
    returns (problems: seq<Problem>, seen: set<Value>)
    requires n < |rows| && Seen(table, rows, n, before)
    ensures Seen(table, rows, n + 1, seen)
    ensures WellStructured(table, rows[..n + 1]) <==> WellStructured(table, rows[..n]) && problems == []
    ensures forall p :: p in problems <==> NewProblem(table, rows, n, p)
  {
    var id := Get(rows[n], IdField(table));
    var duplicate := if id in before then [DuplicateId(id)] else [];
    seen := before + {id};
    var missing := MissingFields(table, rows[n]);
    problems := duplicate + missing;
    ExtendStructure(table, rows, n);
  }

  /** `verify_audit_events` and `verify_quarantine_records`. */
  method VerifyTable(table: Table, mac: Mac, rows: seq<Record>, keys: Keys) returns (stats: Stats)
    requires AreRecords(rows)
    ensures Counted(table, mac, rows, keys, stats)
    ensures stats.structural == [] <==> WellStructured(table, rows)
    ensures forall p :: p in stats.structural <==> IsProblem(table, rows, p)
    ensures stats.checked == stats.valid + |stats.invalid| + |stats.unverifiable| + stats.noBaseline
  {
    stats := Stats(0, 0, [], [], 0, [], 0);
    var seenIds: set<Value> := {};
    for n := 0 to |rows|
      invariant AreRecords(rows[..n]) && Counted(table, mac, rows[..n], keys, stats)
      invariant Seen(table, rows, n, seenIds)
      invariant stats.structural == [] <==> WellStructured(table, rows[..n])
      invariant forall p :: p in stats.structural <==> IsProblem(table, rows[..n], p)
    {
      forall p { ProblemsNext(table, rows, n, p); }
      var problems;
      problems, seenIds := CheckStructure(table, rows, n, seenIds);
      var counted := CheckHash(table, mac, rows, keys, n, stats);
      stats := counted.(structural := stats.structural + problems);
    }
    assert rows[..|rows|] == rows;
    VerdictsPartition(table, mac, rows, keys);
  }

  /** `_report`. */
  method Report(stats: Stats) returns (ok: bool)
    ensures ok <==> stats.invalid == [] && stats.structural == [] && stats.unverifiable == [] && stats.noBaseline == 0
  {
    ok := true;
    if stats.invalid != [] { ok := false; }
    if stats.structural != [] { ok := false; }
    if stats.unverifiable != [] { ok := false; }
    if stats.noBaseline != 0 { ok := false; }
  }

  /** The decision in `main`: exit code 0 exactly when both tables are clean. */
  method ExitCode(mac: Mac, events: seq<Record>, quarantined: seq<Record>, keys: Keys) returns (code: nat)
    requires AreRecords(events) && AreRecords(quarantined)
    ensures code ==
      if Clean(AuditEvents, mac, events, keys) && Clean(QuarantinedAuditEvents, mac, quarantined, keys) then 0 else 1
  {
    var eventsStats := VerifyTable(AuditEvents, mac, events, keys);
    var quarantineStats := VerifyTable(QuarantinedAuditEvents, mac, quarantined, keys);
    var eventsOk := Report(eventsStats);
    var quarantineOk := Report(quarantineStats);
    CleanIff(AuditEvents, mac, events, keys);
    CleanIff(QuarantinedAuditEvents, mac, quarantined, keys);
    code := if eventsOk && quarantineOk then 0 else 1;
  }

  lemma CleanIff(table: Table, mac: Mac, rows: seq<Record>, keys: Keys)
    requires AreRecords(rows)
    ensures Clean(table, mac, rows, keys) <==>
      && IdsOf(table, mac, rows, keys, Invalid) == [] && IdsOf(table, mac, rows, keys, Unverifiable) == []
      && IdsOf(table, mac, rows, keys, NoBaseline) == []
      && WellStructured(table, rows)
  {
    NoIdsIff(table, mac, rows, keys, Invalid);
    NoIdsIff(table, mac, rows, keys, Unverifiable);
    NoIdsIff(table, mac, rows, keys, NoBaseline);
    if Clean(table, mac, rows, keys) {
      forall i | 0 <= i < |rows| ensures VerdictOf(table, mac, rows[i], keys) == Valid {
        assert Sound(table, mac, rows[i], keys);
      }
    }
  }
}
