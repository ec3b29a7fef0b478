/** What the canonical message keeps: everything a record says, under an exact condition. */
module RecordIntegrityLaws {
  import opened Wrappers
  import opened Decimal
  import opened Json
  import opened JsonLaws
  import opened Timestamps
  import opened Lines
  import opened RecordIntegrity

  lemma {:induction false} FieldTextAt(record: Record, fields: seq<string>, legacy: bool, i: nat)
    requires IsRecord(record) && i < |fields| && FieldTexts(record, fields, legacy).Some?
    ensures FieldText(fields[i], Get(record, fields[i]), legacy) == Some(FieldTexts(record, fields, legacy).value[i])
  {
    var n := |fields| - 1;
    if i < n {
      FieldTextAt(record, fields[..n], legacy, i);
    }
  }

  lemma {:induction false} FieldTextsAgree(a: Record, b: Record, fields: seq<string>, legacy: bool)
    requires IsRecord(a) && IsRecord(b)
    requires forall i :: 0 <= i < |fields| ==>
      FieldText(fields[i], Get(a, fields[i]), legacy) == FieldText(fields[i], Get(b, fields[i]), legacy)
    ensures FieldTexts(a, fields, legacy) == FieldTexts(b, fields, legacy)
  {
    if fields != [] {
      var n := |fields| - 1;
      forall i | 0 <= i < n
        ensures FieldText(fields[..n][i], Get(a, fields[..n][i]), legacy) == FieldText(fields[..n][i], Get(b, fields[..n][i]), legacy)
      {
        assert fields[..n][i] == fields[i];
      }
      FieldTextsAgree(a, b, fields[..n], legacy);
    }
  }

  // ----- the legacy form -----

  lemma {:induction false} TextsAre(record: Record, fields: seq<string>, legacy: bool, texts: seq<string>)
    requires IsRecord(record) && |texts| == |fields|
    requires forall i :: 0 <= i < |fields| ==> FieldText(fields[i], Get(record, fields[i]), legacy) == Some(texts[i])
    ensures FieldTexts(record, fields, legacy) == Some(texts)
  {
    if fields != [] {
      var n := |fields| - 1;
      TextsAre(record, fields[..n], legacy, texts[..n]);
      assert texts == texts[..n] + [texts[n]];
    }
  }

  lemma OnlyTimestamp()
    ensures forall i :: 0 <= i < |AUDIT_EVENT_FIELDS| ==> (AUDIT_EVENT_FIELDS[i] == "timestamp" <==> i == 1)
  {
    var fs := AUDIT_EVENT_FIELDS;
    assert fs[1] == "timestamp" && |fs[0]| == 8 && |fs[2]| == 7 && |fs[3]| == 10 && |fs[4]| == 7 && |fs[5]| == 15;
    assert |fs[6]| == 12 && |fs[7]| == 6 && |fs[8]| == 8 && |fs[9]| == 8 && |fs[10]| == 6 && |fs[11]| == 8;
    assert |fs[12]| == 7 && |fs[13]| == 16 && |"timestamp"| == 9;
  }

  /** The legacy form of an event's texts differs from the current one in the timestamp alone, which ends in the
      offset of an aware UTC datetime. */
  lemma LegacyTexts(record: Record, texts: seq<string>)
    requires IsRecord(record) && Get(record, "timestamp").Moment? && FieldTexts(record, AUDIT_EVENT_FIELDS, false) == Some(texts)
    ensures |texts| == |AUDIT_EVENT_FIELDS|
    ensures FieldTexts(record, AUDIT_EVENT_FIELDS, true) == Some(texts[1 := texts[1] + "+00:00"])
  {
    var fs, legacy := AUDIT_EVENT_FIELDS, texts[1 := texts[1] + "+00:00"];
    OnlyTimestamp();
    forall i | 0 <= i < |fs| ensures FieldText(fs[i], Get(record, fs[i]), true) == Some(legacy[i]) {
      FieldTextAt(record, fs, false, i);
    }
    TextsAre(record, fs, true, legacy);
  }

  /** Ways to hold one document: NULL is the empty object, text that is JSON is what it parses to, also when a store
      hands it back as a decoded string, and other text is a JSON string. */
  lemma ContextForms(s: string, legacy: bool)
    ensures FieldText("context", Absent, legacy) == Some("{}")
    ensures FieldText("context", Document(Str(s)), legacy) == FieldText("context", Text(s), legacy)
    ensures Loads(s).Some? && !Loads(s).value.Str? ==>
      WellFormed(Loads(s).value) && FieldText("context", Text(s), legacy) == FieldText("context", Document(Loads(s).value), legacy)
    ensures Loads(s).None? ==> FieldText("context", Text(s), legacy) == Some(Quoted(COMPACT, s))
  {
    if Loads(s).Some? { LoadsWellFormed(s); }
    assert Dumps(Obj(NoMembers)) == "{" + "}" == "{}";
  }

  /** Outside context text is written as it is and NULL as None; in any column a number's text reads back as that
      number. */
  lemma PlainForms(field: string, s: string, n: int, legacy: bool)
    ensures field != "context" ==> FieldText(field, Absent, legacy) == Some("None") && FieldText(field, Text(s), legacy) == Some(s)
    ensures FieldText(field, Number(n), legacy).Some? && Loads(FieldText(field, Number(n), legacy).value) == Some(Int(n))
  {
    LoadsUndoesPrint(COMPACT, Int(n));
  }

  // ----- injectivity -----

  /** The second a canonical timestamp names. */
  function SecondOf(t: Datetime): Option<int>
    requires IsDatetime(t)
  {
    match ToNaiveUtc(t)
    case None => None
    case Some(u) => RoundToSecond(u)
  }

  /** Equal content: same document, same second, or the same value. */
  ghost predicate SameContent(field: string, v: Value, w: Value)
    requires Typed(field, v) && Typed(field, w)
  {
    if field == "context" then MeaningOf(ContextOf(v)) == MeaningOf(ContextOf(w))
    else if v.Moment? && w.Moment? then SecondOf(v.t) == SecondOf(w.t)
    else v == w
  }

  /** Values of one column: both datetimes or neither, both integers or neither, and no text that
      spells "None", which is how NULL is written. */
  predicate Comparable(field: string, v: Value, w: Value) {
    field == "context" ||
    ((v.Moment? <==> w.Moment?) && (v.Number? <==> w.Number?) && v != Text("None") && w != Text("None"))
  }

  lemma ContextWellFormed(field: string, v: Value)
    requires Typed(field, v)
    ensures WellFormed(ContextOf(v))
  {
    if v.Text? && Loads(v.s).Some? { LoadsWellFormed(v.s); }
    if v.Document? && v.doc.Str? && Loads(v.doc.s).Some? { LoadsWellFormed(v.doc.s); }
  }

  lemma TimeTextsAgree(t: Datetime, u: Datetime, lt: bool, lu: bool)
    requires IsDatetime(t) && IsDatetime(u)
    requires CanonicalTime(t, lt).Some? && CanonicalTime(t, lt) == CanonicalTime(u, lu)
    ensures lt == lu && SecondOf(t) == SecondOf(u)
  {
    TimeText(t, lt);
    TimeText(u, lu);
    IsoFormatInjective(SecondOf(t).value, SecondOf(u).value);
  }

  /** The text's length tells its form, and its first nineteen characters the second. */
  lemma TimeText(t: Datetime, legacy: bool)
    requires IsDatetime(t) && CanonicalTime(t, legacy).Some?
    ensures SecondOf(t).Some? && InCalendar(SecondOf(t).value) && SecondOf(t).value % SECOND == 0
    ensures |CanonicalTime(t, legacy).value| == if legacy then 25 else 19
    ensures CanonicalTime(t, legacy).value[..19] == IsoFormat(SecondOf(t).value)
  {
    var iso := IsoFormat(SecondOf(t).value);
    assert |"+00:00"| == 6 && (iso + "+00:00")[..19] == iso && iso[..19] == iso;
  }

  lemma FieldTextInjective(field: string, v: Value, w: Value, lv: bool, lw: bool)
    requires Typed(field, v) && Typed(field, w) && Comparable(field, v, w)
    requires FieldText(field, v, lv).Some? && FieldText(field, v, lv) == FieldText(field, w, lw)
    ensures SameContent(field, v, w)
    ensures field != "context" && v.Moment? ==> lv == lw
  {
    if field == "context" {
      ContextWellFormed(field, v);
      ContextWellFormed(field, w);
      CanonicalIffSameMeaning(ContextOf(v), ContextOf(w));
    } else if v.Moment? {
      TimeTextsAgree(v.t, w.t, lv, lw);
    } else if v.Number? {
      IntTextInjective(v.n, w.n);
    }
  }

  /** A column whose text, if it holds text, is a single line. A context column always counts:
      its canonical text escapes newlines. */
  predicate Tidy(field: string, v: Value) { field == "context" || (v.Text? ==> OneLine(v.s)) }

  ghost predicate TidyExcept(record: Record, fields: seq<string>, loose: set<nat>) {
    forall i :: 0 <= i < |fields| && i !in loose ==> Tidy(fields[i], Get(record, fields[i]))
  }

  lemma DigitsAreOneLine(n: int)
    ensures OneLine(IntText(n))
  {
    var s := IntText(n);
    assert forall i :: 0 <= i < |s| ==> IsDigit(s[i]) || s[i] == '-';
  }

  lemma TidyTextOneLine(field: string, v: Value, legacy: bool)
    requires Typed(field, v) && Tidy(field, v) && FieldText(field, v, legacy).Some?
    ensures OneLine(FieldText(field, v, legacy).value)
  {
    if field == "context" {
      PrintPrintable(Sorted(ContextOf(v)));
    } else if v.Moment? {
      IsoFormatOneLine(RoundToSecond(ToNaiveUtc(v.t).value).value);
      assert OneLine("+00:00");
    } else if v.Number? {
      DigitsAreOneLine(v.n);
    } else {
      assert OneLine("None");
    }
  }

  lemma TidyConfined(record: Record, fields: seq<string>, legacy: bool, loose: set<nat>)
    requires IsRecord(record) && FieldTexts(record, fields, legacy).Some? && TidyExcept(record, fields, loose)
    ensures Confined(FieldTexts(record, fields, legacy).value, loose)
  {
    forall i | 0 <= i < |fields| && i !in loose ensures OneLine(FieldTexts(record, fields, legacy).value[i]) {
      FieldTextAt(record, fields, legacy, i);
      TidyTextOneLine(fields[i], Get(record, fields[i]), legacy);
    }
  }

  /** Equal messages come from equal content, one key id and one timestamp form, when newlines
      are confined to one field that is not the last. */
  lemma CanonicalMessageInjective(fields: seq<string>, a: Record, b: Record, la: bool, lb: bool,
                                  ka: Option<string>, kb: Option<string>, loose: set<nat>)
    requires Names(fields) && IsRecord(a) && IsRecord(b)
    requires forall i :: 0 <= i < |fields| ==> Comparable(fields[i], Get(a, fields[i]), Get(b, fields[i]))
    requires forall i :: i in loose ==> i < |fields| - 1
    requires forall i, j :: i in loose && j in loose ==> i == j
    requires CanonicalMessage(a, fields, la, ka).Some? && TidyExcept(a, fields, loose) && KeyOneLine(ka)
    requires CanonicalMessage(b, fields, lb, kb).Some? && TidyExcept(b, fields, loose) && KeyOneLine(kb)
    requires CanonicalMessage(a, fields, la, ka) == CanonicalMessage(b, fields, lb, kb)
    ensures ka == kb
    ensures forall i :: 0 <= i < |fields| ==> SameContent(fields[i], Get(a, fields[i]), Get(b, fields[i]))
    ensures la == lb || forall i :: 0 <= i < |fields| ==> fields[i] == "context" || !Get(a, fields[i]).Moment?
  {
    var xs, ys := FieldTexts(a, fields, la).value, FieldTexts(b, fields, lb).value;
    TidyConfined(a, fields, la, loose);
    TidyConfined(b, fields, lb, loose);
    UnambiguousIff(fields, loose);
    assert xs == ys && ka == kb;
    forall i | 0 <= i < |fields|
      ensures SameContent(fields[i], Get(a, fields[i]), Get(b, fields[i]))
      ensures fields[i] != "context" && Get(a, fields[i]).Moment? ==> la == lb
    {
      FieldTextAt(a, fields, la, i);
      FieldTextAt(b, fields, lb, i);
      FieldTextInjective(fields[i], Get(a, fields[i]), Get(b, fields[i]), la, lb);
    }
  }

  lemma SubjectNames()
    ensures IsName("event_id") && IsName("timestamp") && IsName("service") && IsName("event_type")
    ensures IsName("user_id") && IsName("organization_id") && IsName("tenant_scope")
  {
  }

  lemma DecisionNames()
    ensures IsName("action") && IsName("resource") && IsName("decision") && IsName("reason")
    ensures IsName("trace_id") && IsName("context") && IsName("integrity_status")
  {
  }

  /** Both field lists meet the shape the encoding needs. */
  lemma EventFieldsAreNames()
    ensures Names(AUDIT_EVENT_FIELDS)
  {
    SubjectNames();
    DecisionNames();
    assert forall i :: 0 <= i < |AUDIT_EVENT_FIELDS| ==> IsName(AUDIT_EVENT_FIELDS[i]);
  }

  lemma PayloadNames()
    ensures IsName("stream_message_id") && IsName("raw_data") && IsName("raw_signature") && IsName("service")
  {
  }

  lemma FailureNames()
    ensures IsName("failure_category") && IsName("failure_detail") && IsName("delivery_attempts")
  {
  }

  lemma QuarantineFieldsAreNames()
    ensures Names(QUARANTINE_RECORD_FIELDS)
  {
    PayloadNames();
    FailureNames();
    assert forall i :: 0 <= i < |QUARANTINE_RECORD_FIELDS| ==> IsName(QUARANTINE_RECORD_FIELDS[i]);
  }

  /** Why "None" is excluded: NULL and the text "None" are written alike. */
  lemma NullReadsAsText(record: Record, field: string, fields: seq<string>, legacy: bool, keyId: Option<string>)
    requires IsRecord(record) && field != "context" && Get(record, field) == Absent
    ensures IsRecord(record[field := Text("None")])
    ensures CanonicalMessage(record[field := Text("None")], fields, legacy, keyId) == CanonicalMessage(record, fields, legacy, keyId)
  {
    FieldTextsAgree(record[field := Text("None")], record, fields, legacy);
  }
}
