/**
 What the stored hash protects. A row the verifier accepts with the hash of a row written earlier
 says what that row said, exactly when the written texts do not themselves spell out the labels
 that the canonical message puts between columns.
 */
module Tampering {
  import opened Wrappers
  import opened Decimal
  import opened Json
  import opened JsonLaws
  import opened Timestamps
  import opened Lines
  import opened RecordIntegrity
  import opened RecordIntegrityLaws
  import opened Readings

  // ----- columns -----

  /** The columns whose texts have a fixed form and are always a single line. */
  const FIXED: set<string> := {"timestamp", "context", "delivery_attempts"}

  /** What the schema (db/models.py) lets a column hold. The timestamp and the delivery attempts are NOT NULL. */
  predicate Fits(field: string, v: Value) {
    && Typed(field, v)
    && (field == "timestamp" ==> v.Moment?)
    && (field == "delivery_attempts" ==> v.Number?)
    && (field !in FIXED ==> v.Absent? || v.Text?)
  }

  predicate IsRow(r: Record) { forall f :: f in r ==> Fits(f, r[f]) }

  /** The text of a column in the canonical message. */
  function TextAt(r: Record, f: string): string {
    if Typed(f, Get(r, f)) && FieldText(f, Get(r, f), false).Some? then FieldText(f, Get(r, f), false).value else ""
  }

  function TextsOf(r: Record): Texts { (f: string) => TextAt(r, f) }

  /** Every column of a table holds what it may. */
  predicate InTable(r: Record, fields: seq<string>) {
    IsRow(r) && forall i :: 0 <= i < |fields| ==> Fits(fields[i], Get(r, fields[i]))
  }

  predicate Printed(r: Record, fields: seq<string>)
    requires IsRow(r)
  {
    InTable(r, fields) && forall i :: 0 <= i < |fields| ==> FieldText(fields[i], Get(r, fields[i]), false).Some?
  }

  /** The texts a column can have. */
  ghost predicate FormOf(f: string, t: string) {
    exists v :: Fits(f, v) && FieldText(f, v, false) == Some(t)
  }

  lemma FixedOneLine(f: string, t: string)
    requires f in FIXED && FormOf(f, t)
    ensures OneLine(t)
  {
    var v :| Fits(f, v) && FieldText(f, v, false) == Some(t);
    TidyTextOneLine(f, v, false);
  }

  // ----- content -----

  /** NULL and the text "None" are written alike. */
  predicate Null(v: Value) { v == Absent || v == Text("None") }

  /** Two values of a column say the same: the same document, the same second, the same value, or both
      nothing. */
  ghost predicate SaysSame(field: string, v: Value, w: Value) {
    && Fits(field, v) && Fits(field, w)
    && if field == "context" then MeaningOf(ContextOf(v)) == MeaningOf(ContextOf(w))
       else if v.Moment? && w.Moment? then SecondOf(v.t) == SecondOf(w.t)
       else v == w || (Null(v) && Null(w))
  }

  /** The text says exactly what the value says. */
  lemma SaysSameIff(field: string, v: Value, w: Value)
    requires Fits(field, v) && Fits(field, w) && FieldText(field, v, false).Some? && FieldText(field, w, false).Some?
    ensures SaysSame(field, v, w) <==> FieldText(field, v, false) == FieldText(field, w, false)
  {
    if field == "context" {
      ContextWellFormed(field, v);
      ContextWellFormed(field, w);
      CanonicalIffSameMeaning(ContextOf(v), ContextOf(w));
    } else if v.Moment? && w.Moment? {
      if FieldText(field, v, false) == FieldText(field, w, false) { TimeTextsAgree(v.t, w.t, false, false); }
    } else if v.Number? && w.Number? {
      if FieldText(field, v, false) == FieldText(field, w, false) { IntTextInjective(v.n, w.n); }
    }
  }

  // ----- a field list as columns -----

  function Columned(fields: seq<string>): seq<Column> {
    if fields == [] then []
    else if fields[0] in FIXED && |fields| > 1 then [Column(Some(fields[0]), fields[1])] + Columned(fields[2..])
    else [Column(None, fields[0])] + Columned(fields[1..])
  }

  /** Distinct names, and after every column of fixed form one that is not. */
  predicate Regular(fields: seq<string>) {
    && (forall i :: 0 <= i < |fields| ==> IsName(fields[i]))
    && (forall i, j :: 0 <= i < j < |fields| ==> fields[i] != fields[j])
    && (forall i :: 0 <= i < |fields| && fields[i] in FIXED ==> i < |fields| - 1 && fields[i + 1] !in FIXED)
  }

  lemma {:induction false} ColumnsWithin(fields: seq<string>, i: nat)
    requires Regular(fields) && i < |Columned(fields)|
    ensures var col := Columned(fields)[i];
      && col.name in fields && col.name !in FIXED && IsName(col.name)
      && (col.fixed.Some? ==>
           col.fixed.value in fields && col.fixed.value in FIXED && IsName(col.fixed.value) && col.fixed.value != col.name)
    decreases |fields|
  {
    if fields[0] in FIXED && |fields| > 1 {
      if i > 0 { ColumnsWithin(fields[2..], i - 1); }
    } else if i > 0 {
      ColumnsWithin(fields[1..], i - 1);
    }
  }

  lemma ColumnsAre(fields: seq<string>)
    requires Regular(fields)
    ensures AreColumns(FormOf, Columned(fields))
  {
    var cols := Columned(fields);
    forall i | 0 <= i < |cols| ensures IsColumn(FormOf, cols[i]) {
      ColumnsWithin(fields, i);
      if cols[i].fixed.Some? {
        forall t | FormOf(cols[i].fixed.value, t) ensures OneLine(t) { FixedOneLine(cols[i].fixed.value, t); }
      }
    }
  }

  lemma NamesWithin(fields: seq<string>, i: nat)
    requires Regular(fields) && i < |Columned(fields)|
    ensures forall n :: n in NamesOf(Columned(fields)[i]) ==> n in fields
  {
    ColumnsWithin(fields, i);
  }

  /** How many fields the first column takes. */
  function Width(fields: seq<string>): nat
    requires fields != []
  {
    if fields[0] in FIXED && |fields| > 1 then 2 else 1
  }

  lemma FirstColumn(fields: seq<string>)
    requires fields != []
    ensures Width(fields) <= |fields| && |Columned(fields)| > 0 && Columned(fields)[1..] == Columned(fields[Width(fields)..])
    ensures NamesOf(Columned(fields)[0]) == set i | 0 <= i < Width(fields) :: fields[i]
  {
  }

  lemma FirstApart(fields: seq<string>, j: nat)
    requires Regular(fields) && fields != [] && j < |Columned(fields[Width(fields)..])|
    ensures NamesOf(Columned(fields)[0]) !! NamesOf(Columned(fields[Width(fields)..])[j])
  {
    FirstColumn(fields);
    var rest := fields[Width(fields)..];
    NamesWithin(rest, j);
    forall n | n in NamesOf(Columned(fields)[0]) ensures n !in rest {
      var i :| 0 <= i < Width(fields) && fields[i] == n;
      forall k | 0 <= k < |rest| ensures rest[k] != n { assert rest[k] == fields[Width(fields) + k]; }
    }
  }

  lemma ApartCons(first: string, cols: seq<Column>)
    requires cols != [] && Apart(first, cols[1..]) && first !in NamesOf(cols[0])
    requires forall j :: 0 <= j < |cols[1..]| ==> NamesOf(cols[0]) !! NamesOf(cols[1..][j])
    ensures Apart(first, cols)
  {
    var rest := cols[1..];
    forall i | 0 <= i < |cols| ensures first !in NamesOf(cols[i]) {
      if i > 0 { assert cols[i] == rest[i - 1]; }
    }
    forall i, j | 0 <= i < j < |cols| ensures NamesOf(cols[i]) !! NamesOf(cols[j]) {
      assert cols[j] == rest[j - 1];
      if i > 0 { assert cols[i] == rest[i - 1]; }
    }
  }

  lemma {:induction false} ColumnsApart(first: string, fields: seq<string>)
    requires Regular(fields) && first !in fields
    ensures Apart(first, Columned(fields))
    decreases |fields|
  {
    if fields != [] {
      var rest := fields[Width(fields)..];
      FirstColumn(fields);
      ColumnsApart(first, rest);
      NamesWithin(fields, 0);
      forall j | 0 <= j < |Columned(rest)| ensures NamesOf(Columned(fields)[0]) !! NamesOf(Columned(rest)[j]) { FirstApart(fields, j); }
      ApartCons(first, Columned(fields));
    }
  }

  lemma {:induction false} ColumnsCover(fields: seq<string>, f: string)
    requires Regular(fields) && f in fields
    ensures exists i :: 0 <= i < |Columned(fields)| && f in NamesOf(Columned(fields)[i])
    decreases |fields|
  {
    var cols, rest := Columned(fields), fields[Width(fields)..];
    FirstColumn(fields);
    if f !in NamesOf(cols[0]) {
      assert f in rest;
      ColumnsCover(rest, f);
      var i :| 0 <= i < |Columned(rest)| && f in NamesOf(Columned(rest)[i]);
      assert cols[1..][i] == cols[i + 1];
    }
  }

  // ----- the message of a row -----

  function LinesOf(fields: seq<string>, texts: Texts): (lines: seq<string>)
    ensures |lines| == |fields| && forall i :: 0 <= i < |lines| ==> lines[i] == fields[i] + "=" + texts(fields[i])
  {
    seq(|fields|, i requires 0 <= i < |fields| => fields[i] + "=" + texts(fields[i]))
  }

  lemma TailOfFirst(fields: seq<string>, texts: Texts)
    requires fields != []
    ensures Tail(LinesOf(fields, texts)) == Start(fields[0]) + texts(fields[0]) + Tail(LinesOf(fields[1..], texts))
  {
    var lines := LinesOf(fields, texts);
    assert lines[1..] == LinesOf(fields[1..], texts);
    Regroup("\n", fields[0] + "=", texts(fields[0]));
    Regroup("\n", fields[0], "=");
  }

  lemma {:induction false} TailOfColumns(fields: seq<string>, texts: Texts)
    ensures Tail(LinesOf(fields, texts)) == Woven(Columned(fields), texts)
    decreases |fields|
  {
    if fields != [] {
      var cols := Columned(fields);
      TailOfFirst(fields, texts);
      WovenFirst(cols, texts);
      if fields[0] in FIXED && |fields| > 1 {
        TailOfColumns(fields[2..], texts);
        TailOfFirst(fields[1..], texts);
        assert cols[1..] == Columned(fields[2..]) && fields[1..][1..] == fields[2..];
        TwoPieces(Start(fields[0]) + texts(fields[0]), Start(fields[1]), texts(fields[1]), Tail(LinesOf(fields[2..], texts)));
      } else {
        TailOfColumns(fields[1..], texts);
        assert cols[1..] == Columned(fields[1..]);
      }
    }
  }

  lemma TwoPieces(a: string, b: string, c: string, d: string)
    ensures a + (b + c + d) == a + b + c + d
  {
    Regroup(a, b + c, d);
    Regroup(a, b, c);
  }

  /** The lines of a row are its first label and then its columns. */
  lemma TailOfRow(fields: seq<string>, texts: Texts)
    requires fields != []
    ensures Tail(LinesOf(fields, texts)) == Start(fields[0]) + Body(fields[0], Columned(fields[1..]), texts)
  {
    TailOfFirst(fields, texts);
    TailOfColumns(fields[1..], texts);
    Regroup(Start(fields[0]), texts(fields[0]), Woven(Columned(fields[1..]), texts));
  }

  lemma MessageOfRow(r: Record, fields: seq<string>, keyId: Option<string>)
    requires InTable(r, fields) && CanonicalMessage(r, fields, false, keyId).Some?
    ensures Printed(r, fields)
    ensures CanonicalMessage(r, fields, false, keyId) == Some(Join(LinesOf(fields, TextsOf(r)) + KeyLine(keyId)))
  {
    var texts := FieldTexts(r, fields, false).value;
    forall i | 0 <= i < |fields| ensures FieldText(fields[i], Get(r, fields[i]), false) == Some(texts[i]) {
      FieldTextAt(r, fields, false, i);
    }
    assert Labelled(fields, texts) == LinesOf(fields, TextsOf(r));
  }

  // ----- one message, one row -----

  /** The condition on a written row. */
  ghost predicate Unspelled(r: Record, fields: seq<string>)
    requires fields != []
  {
    LabelFree(FormOf, fields[0], Columned(fields[1..]), TextsOf(r))
  }

  predicate IsFieldList(fields: seq<string>) { fields != [] && Regular(fields) && fields[0] !in FIXED }

  ghost predicate SaysSameRow(fields: seq<string>, a: Record, b: Record) {
    forall i :: 0 <= i < |fields| ==> SaysSame(fields[i], Get(a, fields[i]), Get(b, fields[i]))
  }

  lemma RowFormed(r: Record, fields: seq<string>)
    requires IsRow(r) && IsFieldList(fields) && Printed(r, fields)
    ensures Formed(FormOf, Columned(fields[1..]), TextsOf(r))
  {
    var cols := Columned(fields[1..]);
    forall i | 0 <= i < |cols| && cols[i].fixed.Some? ensures FormOf(cols[i].fixed.value, TextAt(r, cols[i].fixed.value)) {
      ColumnsWithin(fields[1..], i);
      var f := cols[i].fixed.value;
      var k :| 0 <= k < |fields| && fields[k] == f;
      assert Fits(f, Get(r, f)) && FieldText(f, Get(r, f), false) == Some(TextAt(r, f));
    }
  }

  lemma TextsAgree(fields: seq<string>, a: Record, b: Record, f: string)
    requires IsFieldList(fields) && IsRow(a) && IsRow(b) && Printed(a, fields) && Printed(b, fields) && f in fields
    requires Unspelled(a, fields) && Tail(LinesOf(fields, TextsOf(a))) == Tail(LinesOf(fields, TextsOf(b)))
    ensures TextAt(a, f) == TextAt(b, f)
  {
    var first, cols, t, u := fields[0], Columned(fields[1..]), TextsOf(a), TextsOf(b);
    TailOfRow(fields, t);
    TailOfRow(fields, u);
    SameRest(Start(first), Body(first, cols, t), Body(first, cols, u));
    ColumnsAre(fields[1..]);
    RowFormed(a, fields);
    RowFormed(b, fields);
    ReadingUnique(FormOf, first, cols, t, u);
    assert t(first) == u(first);
    if f != first { CoveredTextsAgree(fields[1..], t, u, f); }
  }

  lemma SameRest(start: string, x: string, y: string)
    requires start + x == start + y
    ensures x == y
  {
    assert x == (start + x)[|start|..] && y == (start + y)[|start|..];
  }

  lemma CoveredTextsAgree(fields: seq<string>, t: Texts, u: Texts, f: string)
    requires Regular(fields) && f in fields
    requires var cols := Columned(fields);
      && (forall i :: 0 <= i < |cols| ==> t(cols[i].name) == u(cols[i].name))
      && (forall i :: 0 <= i < |cols| && cols[i].fixed.Some? ==> t(cols[i].fixed.value) == u(cols[i].fixed.value))
    ensures t(f) == u(f)
  {
    ColumnsCover(fields, f);
  }

  /** A row that spells no label is the only content its lines can have. */
  lemma RowsAgree(fields: seq<string>, a: Record, b: Record)
    requires IsFieldList(fields) && IsRow(a) && IsRow(b) && Printed(a, fields) && Printed(b, fields)
    requires Unspelled(a, fields) && Tail(LinesOf(fields, TextsOf(a))) == Tail(LinesOf(fields, TextsOf(b)))
    ensures SaysSameRow(fields, a, b)
  {
    forall i | 0 <= i < |fields| ensures SaysSame(fields[i], Get(a, fields[i]), Get(b, fields[i])) {
      TextsAgree(fields, a, b, fields[i]);
      SaysSameIff(fields[i], Get(a, fields[i]), Get(b, fields[i]));
    }
  }

  lemma BetweenIsLabel(forms: Forms, col: Column, texts: Texts)
    requires col.fixed.Some? ==> forms(col.fixed.value, texts(col.fixed.value))
    ensures Label(forms, col, Between(col, texts))
  {
  }

  /** Column `prev`, the fixed column if there is one, and column `name`, rewritten. */
  function Rewrite(r: Record, prev: string, x: string, col: Column, v: Value, y: string): Record {
    match col.fixed
    case None => r[prev := Text(x)][col.name := Text(y)]
    case Some(f) => r[prev := Text(x)][col.name := Text(y)][f := v]
  }

  lemma RewriteTexts(r: Record, prev: string, x: string, col: Column, v: Value, y: string)
    requires IsRow(r) && prev !in FIXED && col.name !in FIXED && prev != col.name
    requires col.fixed.Some? ==> col.fixed.value in FIXED && Fits(col.fixed.value, v) && FieldText(col.fixed.value, v, false).Some?
    ensures var b := Rewrite(r, prev, x, col, v, y);
      && IsRow(b) && TextAt(b, prev) == x && TextAt(b, col.name) == y
      && (col.fixed.Some? ==> Some(TextAt(b, col.fixed.value)) == FieldText(col.fixed.value, v, false))
      && (forall n :: n != prev && n !in NamesOf(col) ==> Get(b, n) == Get(r, n))
      && (forall n :: n in NamesOf(col) + {prev} ==> Fits(n, Get(b, n)) && FieldText(n, Get(b, n), false).Some?)
  {
  }

  /** The value of the fixed column that a label spells. */
  lemma LabelValue(col: Column, sep: string) returns (v: Value)
    requires Label(FormOf, col, sep)
    ensures col.fixed.Some? ==> Fits(col.fixed.value, v) && FieldText(col.fixed.value, v, false).Some?
    ensures col.fixed.Some? ==> sep == Start(col.fixed.value) + FieldText(col.fixed.value, v, false).value + Start(col.name)
  {
    if col.fixed.Some? {
      var t :| FormOf(col.fixed.value, t) && sep == Start(col.fixed.value) + t + Start(col.name);
      v :| Fits(col.fixed.value, v) && FieldText(col.fixed.value, v, false) == Some(t);
    } else {
      v := Absent;
    }
  }

  /** What stands around label i: two different free-text columns, both in the list. */
  ghost predicate Around(fields: seq<string>, cols: seq<Column>, i: nat, prev: string)
    requires i < |cols|
  {
    var col := cols[i];
    && IsColumn(FormOf, col) && (i > 0 ==> cols[i - 1].fixed != Some(cols[i - 1].name))
    && prev in fields && prev !in FIXED && prev !in NamesOf(col) && col.name !in FIXED
    && (forall n :: n in NamesOf(col) ==> n in fields) && (col.fixed.Some? ==> col.fixed.value in FIXED)
  }

  lemma AroundLabel(fields: seq<string>, cols: seq<Column>, i: nat)
    requires IsFieldList(fields) && cols == Columned(fields[1..]) && i < |cols|
    ensures Around(fields, cols, i, Preceding(fields[0], cols, i)) && Apart(fields[0], cols)
  {
    ColumnsAre(fields[1..]);
    ColumnsApart(fields[0], fields[1..]);
    ColumnsWithin(fields[1..], i);
    if i > 0 {
      ColumnsWithin(fields[1..], i - 1);
      assert cols[i - 1].name in NamesOf(cols[i - 1]);
    }
  }

  /** Row b is row a with text moved across a label of column `col`. */
  ghost predicate Moved(a: Record, b: Record, prev: string, col: Column)
    requires IsRow(b)
  {
    && TextAt(b, prev) != TextAt(a, prev)
    && TextAt(a, prev) + Between(col, TextsOf(a)) + TextAt(a, col.name) == TextAt(b, prev) + Between(col, TextsOf(b)) + TextAt(b, col.name)
    && (forall n :: n != prev && n !in NamesOf(col) ==> Get(b, n) == Get(a, n))
    && (forall n :: n in NamesOf(col) + {prev} ==> Fits(n, Get(b, n)) && FieldText(n, Get(b, n), false).Some?)
  }

  /** Text can be moved across a label of column `col` that one of the two columns spells. */
  lemma Respell(a: Record, prev: string, col: Column) returns (b: Record)
    requires IsRow(a) && IsColumn(FormOf, col) && prev !in FIXED && prev !in NamesOf(col) && col.name !in FIXED
    requires col.fixed.Some? ==> col.fixed.value in FIXED && FormOf(col.fixed.value, TextAt(a, col.fixed.value))
    requires Holds(FormOf, col, TextAt(a, prev)) || Holds(FormOf, col, TextAt(a, col.name))
    ensures IsRow(b) && Moved(a, b, prev, col)
  {
    BetweenIsLabel(FormOf, col, TextsOf(a));
    var x, sep, y := OtherCut(FormOf, col, TextAt(a, prev), Between(col, TextsOf(a)), TextAt(a, col.name));
    var v := LabelValue(col, sep);
    RewriteTexts(a, prev, x, col, v, y);
    b := Rewrite(a, prev, x, col, v, y);
    assert Between(col, TextsOf(b)) == sep;
  }

  lemma MovedPrinted(fields: seq<string>, a: Record, b: Record, prev: string, col: Column)
    requires IsRow(a) && IsRow(b) && Printed(a, fields) && Moved(a, b, prev, col)
    ensures Printed(b, fields)
  {
  }

  lemma MovedDiffers(fields: seq<string>, a: Record, b: Record, prev: string, col: Column)
    requires IsRow(a) && IsRow(b) && Printed(a, fields) && Moved(a, b, prev, col) && prev in fields
    ensures !SaysSameRow(fields, a, b)
  {
    MovedPrinted(fields, a, b, prev, col);
    var at :| 0 <= at < |fields| && fields[at] == prev;
    SaysSameIff(prev, Get(a, prev), Get(b, prev));
  }

  lemma MovedBody(first: string, cols: seq<Column>, i: nat, a: Record, b: Record)
    requires i < |cols| && Apart(first, cols) && (i > 0 ==> cols[i - 1].fixed != Some(cols[i - 1].name))
    requires IsRow(a) && IsRow(b) && Moved(a, b, Preceding(first, cols, i), cols[i])
    ensures Body(first, cols, TextsOf(b)) == Body(first, cols, TextsOf(a))
  {
    BodySame(first, cols, i, TextsOf(a), TextsOf(b));
  }

  lemma FormedAt(a: Record, fields: seq<string>, cols: seq<Column>, i: nat)
    requires IsRow(a) && IsFieldList(fields) && Printed(a, fields) && cols == Columned(fields[1..]) && i < |cols|
    ensures cols[i].fixed.Some? ==> FormOf(cols[i].fixed.value, TextAt(a, cols[i].fixed.value))
  {
    RowFormed(a, fields);
  }

  lemma RowRespelledAt(fields: seq<string>, first: string, cols: seq<Column>, a: Record, i: nat) returns (b: Record)
    requires i < |cols| && Around(fields, cols, i, Preceding(first, cols, i)) && Apart(first, cols) && IsRow(a) && Printed(a, fields)
    requires cols[i].fixed.Some? ==> FormOf(cols[i].fixed.value, TextAt(a, cols[i].fixed.value))
    requires Holds(FormOf, cols[i], TextAt(a, Preceding(first, cols, i))) || Holds(FormOf, cols[i], TextAt(a, cols[i].name))
    ensures IsRow(b) && Printed(b, fields) && !SaysSameRow(fields, a, b)
    ensures Body(first, cols, TextsOf(b)) == Body(first, cols, TextsOf(a))
    ensures forall f :: f !in fields ==> Get(b, f) == Get(a, f)
  {
    var prev := Preceding(first, cols, i);
    b := Respell(a, prev, cols[i]);
    MovedPrinted(fields, a, b, prev, cols[i]);
    MovedDiffers(fields, a, b, prev, cols[i]);
    MovedBody(first, cols, i, a, b);
  }

  /** A row that spells a label has a double: other content, the same lines. */
  lemma RowRespelled(fields: seq<string>, a: Record) returns (b: Record)
    requires IsFieldList(fields) && IsRow(a) && Printed(a, fields) && !Unspelled(a, fields)
    ensures IsRow(b) && Printed(b, fields) && !SaysSameRow(fields, a, b)
    ensures Tail(LinesOf(fields, TextsOf(b))) == Tail(LinesOf(fields, TextsOf(a)))
    ensures forall f :: f !in fields ==> Get(b, f) == Get(a, f)
  {
    var first, cols, t := fields[0], Columned(fields[1..]), TextsOf(a);
    var i :| 0 <= i < |cols|
      && (Holds(FormOf, cols[i], t(Preceding(first, cols, i))) || Holds(FormOf, cols[i], t(cols[i].name)));
    AroundLabel(fields, cols, i);
    FormedAt(a, fields, cols, i);
    b := RowRespelledAt(fields, first, cols, a, i);
    TailOfRow(fields, t);
    TailOfRow(fields, TextsOf(b));
  }
}
