/**
 How many rows one message can stand for. A message is read by finding, in order, the labels that
 start each column; a text that itself holds such a label can be cut in two ways. Labels of a
 column that follows a column of fixed form (a timestamp, canonical JSON) include that column.
 */
module Readings {
  import opened Wrappers
  import opened Lines

  /** A free-text column and, if there is one, the column of fixed form right before it. */
  datatype Column = Column(fixed: Option<string>, name: string)

  /** Which texts the columns of fixed form can have. */
  type Forms = (string, string) -> bool

  ghost predicate IsColumn(forms: Forms, col: Column) {
    && IsName(col.name)
    && (col.fixed.Some? ==> IsName(col.fixed.value) && col.fixed.value != col.name)
    && (col.fixed.Some? ==> forall t :: forms(col.fixed.value, t) ==> OneLine(t))
  }

  function Start(name: string): string { "\n" + name + "=" }

  /** The text between a column and the free-text column before it. */
  ghost predicate Label(forms: Forms, col: Column, s: string) {
    match col.fixed
    case None => s == Start(col.name)
    case Some(f) => exists t :: forms(f, t) && s == Start(f) + t + Start(col.name)
  }

  /** The text holds a label of the column. */
  ghost predicate Holds(forms: Forms, col: Column, x: string) {
    exists i, j :: 0 <= i <= j <= |x| && Label(forms, col, x[i..j])
  }

  // ----- labels do not overlap -----

  lemma SliceOfSlice(m: string, a: nat, b: nat, i: nat, j: nat)
    requires a <= b <= |m| && i <= j <= b - a
    ensures m[a..b][i..j] == m[a + i..a + j]
  {
    var x, y := m[a..b][i..j], m[a + i..a + j];
    assert |x| == |y| && forall k :: 0 <= k < |x| ==> x[k] == m[a + i + k] == y[k];
  }

  lemma StartLines(name: string, m: string, i: nat, k: nat)
    requires IsName(name) && i + |name| + 2 <= |m| && m[i..i + |name| + 2] == Start(name)
    requires i <= k < i + |name| + 2 && m[k] == '\n'
    ensures k == i
  {
    assert m[k] == Start(name)[k - i];
  }

  lemma SimpleApart(col: Column, m: string, i: nat, j: nat, k: nat, l: nat)
    requires IsName(col.name) && i <= k < j <= |m| && k <= l <= |m|
    requires m[i..j] == Start(col.name) && m[k..l] == Start(col.name)
    ensures i == k && j == l
  {
    assert m[k] == m[k..l][0] == '\n';
    StartLines(col.name, m, i, k);
  }

  /** The parts of a label with a column of fixed form, by position. */
  lemma FixedParts(f: string, t: string, name: string, m: string, i: nat, j: nat)
    requires i <= j <= |m| && m[i..j] == Start(f) + t + Start(name)
    ensures j == i + |f| + 2 + |t| + |name| + 2
    ensures m[i..i + |f| + 2] == Start(f)
    ensures m[i + |f| + 2..i + |f| + 2 + |t|] == t
    ensures m[i + |f| + 2 + |t|..j] == Start(name)
  {
    var s, a, b := m[i..j], |f| + 2, |f| + 2 + |t|;
    assert |s| == j - i == b + |name| + 2;
    SliceOfSlice(m, i, j, 0, a);
    SliceOfSlice(m, i, j, a, b);
    SliceOfSlice(m, i, j, b, j - i);
    assert s[0..a] == Start(f) && s[a..b] == t && s[b..j - i] == Start(name);
  }

  lemma NoLineIn(t: string, m: string, a: nat)
    requires OneLine(t) && a + |t| <= |m| && m[a..a + |t|] == t
    ensures forall k :: a <= k < a + |t| ==> m[k] != '\n'
  {
    assert forall k :: a <= k < a + |t| ==> m[k] == t[k - a];
  }

  /** A newline inside such a label is its first character or starts the free-text column's name. */
  lemma FixedLines(f: string, t: string, name: string, m: string, i: nat, j: nat, k: nat)
    requires IsName(f) && OneLine(t) && IsName(name)
    requires i <= k < j <= |m| && m[i..j] == Start(f) + t + Start(name) && m[k] == '\n'
    ensures k == i || k == i + |f| + 2 + |t|
  {
    FixedParts(f, t, name, m, i, j);
    var a, b := i + |f| + 2, i + |f| + 2 + |t|;
    NoLineIn(t, m, a);
    if k < a {
      StartLines(f, m, i, k);
    } else if k >= b {
      StartLines(name, m, b, k);
    }
  }

  lemma NamesDiffer(f: string, g: string, m: string, k: nat)
    requires IsName(f) && IsName(g) && k + |f| + 2 <= |m| && k + |g| + 2 <= |m|
    requires m[k..k + |f| + 2] == Start(f) && m[k..k + |g| + 2] == Start(g)
    ensures f == g
  {
    var rest := m[k + 1..];
    SliceOfSlice(m, k, k + |f| + 2, 1, |f| + 1);
    SliceOfSlice(m, k, k + |g| + 2, 1, |g| + 1);
    assert f == Start(f)[1..|f| + 1] && g == Start(g)[1..|g| + 1];
    assert rest[|f|] == m[k..k + |f| + 2][|f| + 1] == '=';
    assert rest[|g|] == m[k..k + |g| + 2][|g| + 1] == '=';
    assert rest == f + rest[|f|..] && rest == g + rest[|g|..];
    HeadsAgree('=', f, g, rest[|f|..], rest[|g|..]);
  }

  lemma SameFixedText(t: string, u: string, m: string, a: nat, n: string)
    requires OneLine(t) && OneLine(u) && a + |t| + |n| + 2 <= |m| && a + |u| + |n| + 2 <= |m|
    requires m[a..a + |t|] == t && m[a + |t|..a + |t| + |n| + 2] == Start(n)
    requires m[a..a + |u|] == u && m[a + |u|..a + |u| + |n| + 2] == Start(n)
    ensures t == u
  {
    var rest := m[a..];
    assert rest == t + rest[|t|..] && rest == u + rest[|u|..];
    assert rest[|t|] == m[a + |t|..a + |t| + |n| + 2][0] == '\n';
    assert rest[|u|] == m[a + |u|..a + |u| + |n| + 2][0] == '\n';
    HeadsAgree('\n', t, u, rest[|t|..], rest[|u|..]);
  }

  lemma FixedApart(f: string, t: string, u: string, name: string, m: string, i: nat, j: nat, k: nat, l: nat)
    requires IsName(f) && IsName(name) && f != name && OneLine(t) && OneLine(u) && i <= k < j <= |m| && k <= l <= |m|
    requires m[i..j] == Start(f) + t + Start(name) && m[k..l] == Start(f) + u + Start(name)
    ensures i == k && j == l
  {
    FixedParts(f, t, name, m, i, j);
    FixedParts(f, u, name, m, k, l);
    assert m[k] == m[k..k + |f| + 2][0] == '\n';
    FixedLines(f, t, name, m, i, j, k);
    if k != i {
      NamesDiffer(f, name, m, k);
    }
    SameFixedText(t, u, m, i + |f| + 2, name);
  }

  /** In any text, two labels of one column coincide or are apart. */
  lemma LabelsApart(forms: Forms, col: Column, m: string, i: nat, j: nat, k: nat, l: nat)
    requires IsColumn(forms, col) && i <= k < j <= |m| && k <= l <= |m|
    requires Label(forms, col, m[i..j]) && Label(forms, col, m[k..l])
    ensures i == k && j == l
  {
    match col.fixed
    case None => SimpleApart(col, m, i, j, k, l);
    case Some(f) =>
      var t :| forms(f, t) && m[i..j] == Start(f) + t + Start(col.name);
      var u :| forms(f, u) && m[k..l] == Start(f) + u + Start(col.name);
      FixedApart(f, t, u, col.name, m, i, j, k, l);
  }

  lemma SameStart(forms: Forms, col: Column, m: string, i: nat, j: nat, l: nat)
    requires IsColumn(forms, col) && i <= j <= |m| && i <= l <= |m|
    requires Label(forms, col, m[i..j]) && Label(forms, col, m[i..l])
    ensures j == l
  {
    assert |m[i..j]| > 0;
    LabelsApart(forms, col, m, i, j, i, l);
  }

  // ----- cutting a text at labels -----

  /** Where the labels are: begin and end of each, in order. */
  type Cuts = seq<(nat, nat)>

  predicate InOrder(m: string, cuts: Cuts) {
    && (forall i :: 0 <= i < |cuts| ==> cuts[i].0 <= cuts[i].1 <= |m|)
    && (forall i, j :: 0 <= i < j < |cuts| ==> cuts[i].1 <= cuts[j].0)
  }

  ghost predicate Cut(forms: Forms, cols: seq<Column>, m: string, cuts: Cuts) {
    |cuts| == |cols| && InOrder(m, cuts) && forall i :: 0 <= i < |cuts| ==> Label(forms, cols[i], m[cuts[i].0..cuts[i].1])
  }

  function Begin(cuts: Cuts, i: nat): nat
    requires i <= |cuts|
  {
    if i == 0 then 0 else cuts[i - 1].1
  }

  function End(m: string, cuts: Cuts, i: nat): nat
    requires i <= |cuts|
  {
    if i == |cuts| then |m| else cuts[i].0
  }

  /** The text of free column i. */
  function Gap(m: string, cuts: Cuts, i: nat): string
    requires i <= |cuts| && InOrder(m, cuts)
  {
    m[Begin(cuts, i)..End(m, cuts, i)]
  }

  lemma Inside(forms: Forms, col: Column, m: string, a: nat, b: nat, i: nat, j: nat)
    requires a <= i <= j <= b <= |m| && Label(forms, col, m[i..j])
    ensures Holds(forms, col, m[a..b])
  {
    SliceOfSlice(m, a, b, i - a, j - a);
  }

  ghost predicate AreColumns(forms: Forms, cols: seq<Column>) { forall i :: 0 <= i < |cols| ==> IsColumn(forms, cols[i]) }

  /** Neither text beside label i holds another label of that column. */
  ghost predicate CleanAt(forms: Forms, cols: seq<Column>, m: string, cuts: Cuts, i: nat)
    requires Cut(forms, cols, m, cuts) && i < |cols|
  {
    !Holds(forms, cols[i], Gap(m, cuts, i)) && !Holds(forms, cols[i], Gap(m, cuts, i + 1))
  }

  ghost predicate CleanCut(forms: Forms, cols: seq<Column>, m: string, cuts: Cuts)
    requires Cut(forms, cols, m, cuts)
  {
    forall i :: 0 <= i < |cols| ==> CleanAt(forms, cols, m, cuts, i)
  }

  lemma {:induction false} NotEarlier(forms: Forms, cols: seq<Column>, m: string, p: Cuts, q: Cuts, i: nat)
    requires AreColumns(forms, cols) && Cut(forms, cols, m, p) && Cut(forms, cols, m, q) && CleanCut(forms, cols, m, p)
    requires i < |cols|
    ensures p[i].0 <= q[i].0 && p[i].1 <= q[i].1
  {
    if i > 0 { NotEarlier(forms, cols, m, p, q, i - 1); }
    assert CleanAt(forms, cols, m, p, i);
    if q[i].0 < p[i].0 {
      if p[i].0 < q[i].1 { LabelsApart(forms, cols[i], m, q[i].0, q[i].1, p[i].0, p[i].1); }
      Inside(forms, cols[i], m, Begin(p, i), End(m, p, i), q[i].0, q[i].1);
    }
    if q[i].0 == p[i].0 {
      SameStart(forms, cols[i], m, p[i].0, p[i].1, q[i].1);
    } else if q[i].0 < p[i].1 {
      LabelsApart(forms, cols[i], m, p[i].0, p[i].1, q[i].0, q[i].1);
    }
  }

  lemma {:induction false} NotLater(forms: Forms, cols: seq<Column>, m: string, p: Cuts, q: Cuts, i: nat)
    requires AreColumns(forms, cols) && Cut(forms, cols, m, p) && Cut(forms, cols, m, q) && CleanCut(forms, cols, m, p)
    requires i < |cols|
    ensures q[i].0 <= p[i].0 && q[i].1 <= p[i].1
    decreases |cols| - i
  {
    if i + 1 < |cols| {
      NotLater(forms, cols, m, p, q, i + 1);
      assert q[i].1 <= q[i + 1].0;
    }
    assert CleanAt(forms, cols, m, p, i);
    NotLaterHere(forms, cols[i], m, p[i].0, p[i].1, End(m, p, i + 1), q[i].0, q[i].1);
  }

  lemma NotLaterHere(forms: Forms, col: Column, m: string, a: nat, b: nat, stop: nat, k: nat, l: nat)
    requires IsColumn(forms, col) && a <= b <= stop <= |m| && k <= l <= stop
    requires Label(forms, col, m[a..b]) && Label(forms, col, m[k..l]) && !Holds(forms, col, m[b..stop])
    ensures k <= a && l <= b
  {
    assert |m[a..b]| > 0 && |m[k..l]| > 0;
    if b <= k {
      Inside(forms, col, m, b, stop, k, l);
    } else if a <= k {
      LabelsApart(forms, col, m, a, b, k, l);
    } else if a < l {
      LabelsApart(forms, col, m, k, l, a, b);
    }
  }

  /** A clean cut is the only one. */
  lemma CutUnique(forms: Forms, cols: seq<Column>, m: string, p: Cuts, q: Cuts)
    requires AreColumns(forms, cols) && Cut(forms, cols, m, p) && Cut(forms, cols, m, q) && CleanCut(forms, cols, m, p)
    ensures p == q
  {
    forall i | 0 <= i < |cols| ensures p[i] == q[i] {
      NotEarlier(forms, cols, m, p, q, i);
      NotLater(forms, cols, m, p, q, i);
    }
  }

  // ----- rows as texts by column name -----

  type Texts = string -> string

  function Between(col: Column, texts: Texts): string {
    match col.fixed
    case None => Start(col.name)
    case Some(f) => Start(f) + texts(f) + Start(col.name)
  }

  function Piece(col: Column, texts: Texts): string { Between(col, texts) + texts(col.name) }

  function Pieces(cols: seq<Column>, texts: Texts): (ps: seq<string>)
    ensures |ps| == |cols| && forall i :: 0 <= i < |ps| ==> ps[i] == Piece(cols[i], texts)
  {
    seq(|cols|, i requires 0 <= i < |cols| => Piece(cols[i], texts))
  }

  function Concat(ss: seq<string>): string { if ss == [] then "" else ss[0] + Concat(ss[1..]) }

  lemma {:induction false} ConcatOfConcat(a: seq<string>, b: seq<string>)
    ensures Concat(a + b) == Concat(a) + Concat(b)
  {
    if a == [] {
      assert a + b == b;
    } else {
      ConcatOfConcat(a[1..], b);
      assert (a + b)[1..] == a[1..] + b;
    }
  }

  function Woven(cols: seq<Column>, texts: Texts): string { Concat(Pieces(cols, texts)) }

  lemma WovenFirst(cols: seq<Column>, texts: Texts)
    requires cols != []
    ensures Woven(cols, texts) == Piece(cols[0], texts) + Woven(cols[1..], texts)
  {
    assert Pieces(cols, texts)[1..] == Pieces(cols[1..], texts);
  }

  /** All columns of a row, from the first one's text on. */
  function Body(first: string, cols: seq<Column>, texts: Texts): string { texts(first) + Woven(cols, texts) }

  /** The free-text column before label i. */
  function Preceding(first: string, cols: seq<Column>, i: nat): string
    requires i <= |cols|
  {
    if i == 0 then first else cols[i - 1].name
  }

  ghost predicate Formed(forms: Forms, cols: seq<Column>, texts: Texts) {
    forall i :: 0 <= i < |cols| && cols[i].fixed.Some? ==> forms(cols[i].fixed.value, texts(cols[i].fixed.value))
  }

  /** The exact condition: no label in the text before it or after it. */
  ghost predicate LabelFree(forms: Forms, first: string, cols: seq<Column>, texts: Texts) {
    forall i :: 0 <= i < |cols| ==>
      !Holds(forms, cols[i], texts(Preceding(first, cols, i))) && !Holds(forms, cols[i], texts(cols[i].name))
  }

  /** Label i and the text after it are where the cuts say. */
  predicate LaidAt(m: string, cols: seq<Column>, texts: Texts, cuts: Cuts, i: nat)
    requires |cuts| == |cols| && InOrder(m, cuts) && i < |cols|
  {
    m[cuts[i].0..cuts[i].1] == Between(cols[i], texts) && Gap(m, cuts, i + 1) == texts(cols[i].name)
  }

  ghost predicate LaidOut(m: string, off: nat, cols: seq<Column>, texts: Texts, cuts: Cuts) {
    && |cuts| == |cols| && InOrder(m, cuts) && off == End(m, cuts, 0)
    && forall i :: 0 <= i < |cols| ==> LaidAt(m, cols, texts, cuts, i)
  }

  lemma FirstPiece(pre: string, sep: string, text: string, rest: string)
    ensures var m := pre + (sep + text + rest);
      && m == pre + sep + text + rest
      && m[|pre|..|pre| + |sep|] == sep && m[|pre| + |sep|..|pre| + |sep| + |text|] == text
  {
    Regroup(pre, sep + text, rest);
    Regroup(pre, sep, text);
  }

  lemma {:induction false} Layout(m: string, pre: string, cols: seq<Column>, texts: Texts) returns (cuts: Cuts)
    requires m == pre + Woven(cols, texts)
    ensures LaidOut(m, |pre|, cols, texts, cuts)
    decreases |cols|
  {
    if cols == [] {
      cuts := [];
    } else {
      var sep, text := Between(cols[0], texts), texts(cols[0].name);
      var e := |pre| + |sep|;
      WovenFirst(cols, texts);
      FirstPiece(pre, sep, text, Woven(cols[1..], texts));
      var rest := Layout(m, pre + sep + text, cols[1..], texts);
      ConsLaidOut(m, |pre|, e, e + |text|, cols, texts, rest);
      cuts := [(|pre|, e)] + rest;
    }
  }

  lemma ConsLaidOut(m: string, b: nat, e: nat, off: nat, cols: seq<Column>, texts: Texts, rest: Cuts)
    requires cols != [] && b <= e <= off <= |m|
    requires m[b..e] == Between(cols[0], texts) && m[e..off] == texts(cols[0].name)
    requires LaidOut(m, off, cols[1..], texts, rest)
    ensures LaidOut(m, b, cols, texts, [(b, e)] + rest)
  {
    var cuts: Cuts := [(b, e)] + rest;
    FirstInOrder(m, b, e, off, rest);
    forall i | 0 <= i < |cols| ensures LaidAt(m, cols, texts, cuts, i) {
      if i > 0 { assert LaidAt(m, cols[1..], texts, rest, i - 1); }
    }
  }

  lemma FirstInOrder(m: string, b: nat, e: nat, off: nat, rest: Cuts)
    requires b <= e <= off == End(m, rest, 0) && off <= |m| && InOrder(m, rest)
    ensures InOrder(m, [(b, e)] + rest)
  {
    var cuts := [(b, e)] + rest;
    forall i, j | 0 <= i < j < |cuts| ensures cuts[i].1 <= cuts[j].0 {
      if i == 0 && j > 1 { assert rest[0].1 <= rest[j - 1].0; }
    }
  }

  lemma LaidOutIsCut(forms: Forms, m: string, off: nat, cols: seq<Column>, texts: Texts, cuts: Cuts)
    requires LaidOut(m, off, cols, texts, cuts) && Formed(forms, cols, texts)
    ensures Cut(forms, cols, m, cuts)
  {
    forall i | 0 <= i < |cuts| ensures Label(forms, cols[i], m[cuts[i].0..cuts[i].1]) {
      assert LaidAt(m, cols, texts, cuts, i);
    }
  }

  lemma LabelFreeIsClean(forms: Forms, m: string, first: string, cols: seq<Column>, texts: Texts, cuts: Cuts)
    requires m == Body(first, cols, texts) && LaidOut(m, |texts(first)|, cols, texts, cuts) && Cut(forms, cols, m, cuts)
    requires LabelFree(forms, first, cols, texts)
    ensures CleanCut(forms, cols, m, cuts)
  {
    forall i | 0 <= i < |cols| ensures CleanAt(forms, cols, m, cuts, i) {
      assert LaidAt(m, cols, texts, cuts, i);
      if i == 0 {
        assert Gap(m, cuts, 0) == texts(first);
      } else {
        assert LaidAt(m, cols, texts, cuts, i - 1);
      }
    }
  }

  /** A row whose texts hold no label is the only row its message stands for. */
  lemma ReadingUnique(forms: Forms, first: string, cols: seq<Column>, t: Texts, u: Texts)
    requires AreColumns(forms, cols) && Formed(forms, cols, t) && Formed(forms, cols, u)
    requires LabelFree(forms, first, cols, t) && Body(first, cols, t) == Body(first, cols, u)
    ensures t(first) == u(first)
    ensures forall i :: 0 <= i < |cols| ==> t(cols[i].name) == u(cols[i].name)
    ensures forall i :: 0 <= i < |cols| && cols[i].fixed.Some? ==> t(cols[i].fixed.value) == u(cols[i].fixed.value)
  {
    var m := Body(first, cols, t);
    var p := Layout(m, t(first), cols, t);
    var q := Layout(m, u(first), cols, u);
    LaidOutIsCut(forms, m, |t(first)|, cols, t, p);
    LaidOutIsCut(forms, m, |u(first)|, cols, u, q);
    LabelFreeIsClean(forms, m, first, cols, t, p);
    CutUnique(forms, cols, m, p, q);
    assert t(first) == m[..|t(first)|] && u(first) == m[..|u(first)|];
    forall i | 0 <= i < |cols|
      ensures t(cols[i].name) == u(cols[i].name)
      ensures cols[i].fixed.Some? ==> t(cols[i].fixed.value) == u(cols[i].fixed.value)
    {
      assert LaidAt(m, cols, t, p, i) && LaidAt(m, cols, u, q, i);
      BetweenAgrees(cols[i], t, u);
    }
  }

  lemma BetweenAgrees(col: Column, t: Texts, u: Texts)
    requires Between(col, t) == Between(col, u)
    ensures col.fixed.Some? ==> t(col.fixed.value) == u(col.fixed.value)
  {
    if col.fixed.Some? {
      var f := col.fixed.value;
      var s, a := Between(col, t), |f| + 2;
      assert |Start(f)| == a;
      assert t(f) == s[a..|s| - |Start(col.name)|] && u(f) == Between(col, u)[a..|s| - |Start(col.name)|];
    }
  }

  // ----- and one that holds a label is not -----

  /** Column names, each used once. */
  function NamesOf(col: Column): set<string> {
    {col.name} + match col.fixed { case None => {} case Some(f) => {f} }
  }

  predicate Apart(first: string, cols: seq<Column>) {
    && (forall i :: 0 <= i < |cols| ==> first !in NamesOf(cols[i]))
    && (forall i, j :: 0 <= i < j < |cols| ==> NamesOf(cols[i]) !! NamesOf(cols[j]))
  }

  lemma WovenConcat(a: seq<Column>, b: seq<Column>, texts: Texts)
    ensures Woven(a + b, texts) == Woven(a, texts) + Woven(b, texts)
  {
    assert Pieces(a + b, texts) == Pieces(a, texts) + Pieces(b, texts);
    ConcatOfConcat(Pieces(a, texts), Pieces(b, texts));
  }

  lemma WovenSame(cols: seq<Column>, t: Texts, u: Texts)
    requires forall i, n :: 0 <= i < |cols| && n in NamesOf(cols[i]) ==> t(n) == u(n)
    ensures Woven(cols, t) == Woven(cols, u)
  {
    forall i | 0 <= i < |cols| ensures Piece(cols[i], t) == Piece(cols[i], u) {
      assert cols[i].name in NamesOf(cols[i]);
    }
    assert Pieces(cols, t) == Pieces(cols, u);
  }

  /** What stands before the free-text column before label i. */
  function Prefix(first: string, cols: seq<Column>, i: nat, texts: Texts): string
    requires i <= |cols|
  {
    if i == 0 then "" else texts(first) + Woven(cols[..i - 1], texts) + Between(cols[i - 1], texts)
  }

  lemma SplitTexts(a: string, b: string, c: string, d: string, e: string, f: string, g: string)
    ensures a + (b + (c + d + (e + f + g))) == a + b + c + (d + e + f) + g
  {
    Regroup(a, b, c + d + (e + f + g));
    Regroup(c, d, e + f + g);
    Regroup(a + b, c, d + (e + f + g));
    Regroup(d, e + f, g);
    Regroup(d, e, f);
    Regroup(a + b + c, d + e + f, g);
  }

  lemma BodySplit(first: string, cols: seq<Column>, i: nat, texts: Texts)
    requires i < |cols|
    ensures Body(first, cols, texts) ==
      Prefix(first, cols, i, texts)
      + (texts(Preceding(first, cols, i)) + Between(cols[i], texts) + texts(cols[i].name))
      + Woven(cols[i + 1..], texts)
  {
    var here, rest := cols[i..], Woven(cols[i + 1..], texts);
    var sep, text := Between(cols[i], texts), texts(cols[i].name);
    assert here[0] == cols[i] && here[1..] == cols[i + 1..];
    WovenFirst(here, texts);
    if i == 0 {
      assert cols == here;
      Regroup(texts(first), sep + text, rest);
      Regroup(texts(first), sep, text);
      assert "" + (texts(first) + sep + text) == texts(first) + sep + text;
    } else {
      var from := cols[i - 1..];
      assert from[0] == cols[i - 1] && from[1..] == here;
      assert cols == cols[..i - 1] + from;
      WovenConcat(cols[..i - 1], from, texts);
      WovenFirst(from, texts);
      SplitTexts(texts(first), Woven(cols[..i - 1], texts), Between(cols[i - 1], texts), texts(cols[i - 1].name), sep, text, rest);
    }
  }

  lemma PrefixSame(first: string, cols: seq<Column>, i: nat, t: Texts, u: Texts)
    requires i < |cols| && Apart(first, cols)
    requires forall n :: n != Preceding(first, cols, i) && n !in NamesOf(cols[i]) ==> t(n) == u(n)
    requires i > 0 ==> cols[i - 1].fixed != Some(cols[i - 1].name)
    ensures Prefix(first, cols, i, t) == Prefix(first, cols, i, u)
    ensures Woven(cols[i + 1..], t) == Woven(cols[i + 1..], u)
  {
    if i > 0 {
      assert cols[i - 1].name in NamesOf(cols[i - 1]);
      WovenSame(cols[..i - 1], t, u);
      assert Between(cols[i - 1], t) == Between(cols[i - 1], u);
    }
    var rest := cols[i + 1..];
    forall k, n | 0 <= k < |rest| && n in NamesOf(rest[k]) ensures t(n) == u(n) {
      assert rest[k] == cols[i + 1 + k];
      if i > 0 { assert cols[i - 1].name in NamesOf(cols[i - 1]); }
    }
    WovenSame(rest, t, u);
  }

  /** Moving text across one label, and nothing else, keeps the message. */
  lemma BodySame(first: string, cols: seq<Column>, i: nat, t: Texts, u: Texts)
    requires i < |cols| && Apart(first, cols) && (i > 0 ==> cols[i - 1].fixed != Some(cols[i - 1].name))
    requires forall n :: n != Preceding(first, cols, i) && n !in NamesOf(cols[i]) ==> t(n) == u(n)
    requires t(Preceding(first, cols, i)) + Between(cols[i], t) + t(cols[i].name)
          == u(Preceding(first, cols, i)) + Between(cols[i], u) + u(cols[i].name)
    ensures Body(first, cols, t) == Body(first, cols, u)
  {
    BodySplit(first, cols, i, t);
    BodySplit(first, cols, i, u);
    PrefixSame(first, cols, i, t, u);
  }

  lemma Resplit(x: string, i: nat, j: nat, sep: string, y: string)
    requires i <= j <= |x|
    ensures x[..i] + x[i..j] + (x[j..] + sep + y) == x + sep + y
  {
    assert x == x[..i] + x[i..j] + x[j..];
    Regroup(x[j..], sep, y);
    Regroup(x[..i] + x[i..j], x[j..], sep + y);
    Regroup(x, sep, y);
  }

  lemma ResplitAfter(x: string, sep: string, y: string, i: nat, j: nat)
    requires i <= j <= |y|
    ensures x + sep + y[..i] + y[i..j] + y[j..] == x + sep + y
  {
    assert y == y[..i] + y[i..j] + y[j..];
    Regroup(x + sep, y[..i], y[i..j]);
    Regroup(x + sep, y[..i] + y[i..j], y[j..]);
  }

  /** Two texts around a label, one of them holding another label of the column, can be cut there instead. */
  lemma OtherCut(forms: Forms, col: Column, x: string, sep: string, y: string) returns (x': string, sep': string, y': string)
    requires IsColumn(forms, col) && Label(forms, col, sep) && (Holds(forms, col, x) || Holds(forms, col, y))
    ensures x' + sep' + y' == x + sep + y && Label(forms, col, sep') && |x'| != |x|
  {
    if Holds(forms, col, x) {
      var i, j :| 0 <= i <= j <= |x| && Label(forms, col, x[i..j]);
      x', sep', y' := x[..i], x[i..j], x[j..] + sep + y;
      assert |sep'| > 0;
      Resplit(x, i, j, sep, y);
    } else {
      var i, j :| 0 <= i <= j <= |y| && Label(forms, col, y[i..j]);
      x', sep', y' := x + sep + y[..i], y[i..j], y[j..];
      assert |sep| > 0;
      ResplitAfter(x, sep, y, i, j);
    }
  }
}
