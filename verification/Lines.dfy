/**
 The delimiter-joined encoding of `_canonical_message` in audit/record_integrity.py: lines
 `name=text` joined by newlines, with an optional last line for the key id. Which records can
 it tell apart? Exactly those whose newlines stay inside one field that is not the last.
 */
module Lines {
  import opened Wrappers

  const KEY_NAME := "integrity_key_id"

  predicate OneLine(s: string) { '\n' !in s }

  /** Every line with a newline in front of it. */
  function Tail(lines: seq<string>): string {
    if lines == [] then "" else "\n" + lines[0] + Tail(lines[1..])
  }

  /** `"\n".join(lines)`. */
  function Join(lines: seq<string>): string {
    if lines == [] then "" else lines[0] + Tail(lines[1..])
  }

  function Labelled(names: seq<string>, texts: seq<string>): (lines: seq<string>)
    requires |names| == |texts|
    ensures |lines| == |names|
    ensures forall i :: 0 <= i < |lines| ==> lines[i] == names[i] + "=" + texts[i]
  {
    seq(|names|, i requires 0 <= i < |names| => names[i] + "=" + texts[i])
  }

  function KeyLine(keyId: Option<string>): seq<string> {
    match keyId
    case None => []
    case Some(k) => [KEY_NAME + "=" + k]
  }

  function Message(names: seq<string>, texts: seq<string>, keyId: Option<string>): string
    requires |names| == |texts|
  {
    Join(Labelled(names, texts) + KeyLine(keyId))
  }

  // ----- joining -----

  lemma {:induction false} TailOfConcat(u: seq<string>, v: seq<string>)
    ensures Tail(u + v) == Tail(u) + Tail(v)
  {
    if u == [] {
      assert u + v == v;
    } else {
      TailOfConcat(u[1..], v);
      assert (u + v)[1..] == u[1..] + v;
    }
  }

  lemma TailOfOne(line: string)
    ensures Tail([line]) == "\n" + line
  {
    assert Tail([line]) == "\n" + line + Tail([line][1..]);
  }

  /** Lengthening one line by n lengthens what is joined by n. */
  lemma {:induction false} TailLonger(lines: seq<string>, i: nat, more: string)
    requires i < |lines|
    ensures |Tail(lines[i := lines[i] + more])| == |Tail(lines)| + |more|
  {
    var longer := lines[i := lines[i] + more];
    if i == 0 {
      assert longer[1..] == lines[1..];
    } else {
      TailLonger(lines[1..], i - 1, more);
      assert longer[1..] == lines[1..][i - 1 := lines[1..][i - 1] + more];
    }
  }

  /** So a message with a longer text is another message. */
  lemma MessageLonger(names: seq<string>, texts: seq<string>, keyId: Option<string>, i: nat, more: string)
    requires i < |names| == |texts|
    ensures |Message(names, texts[i := texts[i] + more], keyId)| == |Message(names, texts, keyId)| + |more|
  {
    var lines, longer := Labelled(names, texts) + KeyLine(keyId), Labelled(names, texts[i := texts[i] + more]) + KeyLine(keyId);
    assert names[i] + "=" + (texts[i] + more) == names[i] + "=" + texts[i] + more;
    assert longer == lines[i := lines[i] + more];
    TailLonger(lines, i, more);
    JoinIsTail(lines);
    JoinIsTail(longer);
  }

  lemma JoinIsTail(lines: seq<string>)
    requires lines != []
    ensures Tail(lines) == "\n" + Join(lines) && Join(lines) == Tail(lines)[1..]
  {
  }

  lemma LongerHeadDiffers(sep: char, a: string, b: string, x: string, y: string)
    requires |a| < |b| && sep !in b && (x == "" || x[0] == sep)
    ensures a + x != b + y
  {
    if x != "" { assert (a + x)[|a|] == sep && (b + y)[|a|] == b[|a|]; }
  }

  /** A head without the separator is read off the front. */
  lemma HeadsAgree(sep: char, a: string, b: string, x: string, y: string)
    requires sep !in a && sep !in b && a + x == b + y
    requires (x == "" || x[0] == sep) && (y == "" || y[0] == sep)
    ensures a == b && x == y
  {
    if |a| < |b| { LongerHeadDiffers(sep, a, b, x, y); }
    if |b| < |a| { LongerHeadDiffers(sep, b, a, y, x); }
    assert a == (a + x)[..|a|] && b == (b + y)[..|b|];
    assert x == (a + x)[|a|..] && y == (b + y)[|b|..];
  }

  lemma ShorterRestDiffers(x: string, y: string, a: string, b: string)
    requires OneLine(a) && |x| < |y|
    ensures x + ("\n" + a) != y + ("\n" + b)
  {
    var s, t := x + ("\n" + a), y + ("\n" + b);
    assert t[|y|] == '\n';
    if |s| == |t| { assert s[|y|] == a[|y| - |x| - 1]; }
  }

  /** A one-line last line is read off the back. */
  lemma LastsAgree(x: string, y: string, a: string, b: string)
    requires OneLine(a) && OneLine(b) && x + ("\n" + a) == y + ("\n" + b)
    ensures a == b && x == y
  {
    var s, t := x + ("\n" + a), y + ("\n" + b);
    if |x| < |y| { ShorterRestDiffers(x, y, a, b); }
    if |y| < |x| { ShorterRestDiffers(y, x, b, a); }
    assert x == s[..|x|] && y == t[..|y|];
    assert a == s[|x| + 1..] && b == t[|y| + 1..];
  }

  lemma TailStart(lines: seq<string>)
    ensures Tail(lines) == "" || Tail(lines)[0] == '\n'
  {
  }

  predicate OneLineExcept(lines: seq<string>, k: nat) {
    forall i :: 0 <= i < |lines| && i != k ==> OneLine(lines[i])
  }

  /** Lists of equally many lines, at most line k of them broken, are told apart. */
  lemma {:induction false} SameLengthInjective(xs: seq<string>, ys: seq<string>, k: nat)
    requires |xs| == |ys| && OneLineExcept(xs, k) && OneLineExcept(ys, k)
    requires Tail(xs) == Tail(ys)
    ensures xs == ys
    decreases |xs|
  {
    var n := |xs|;
    if n == 0 {
    } else if k != 0 {
      TailStart(xs[1..]);
      TailStart(ys[1..]);
      assert xs[0] + Tail(xs[1..]) == Tail(xs)[1..] && ys[0] + Tail(ys[1..]) == Tail(ys)[1..];
      HeadsAgree('\n', xs[0], ys[0], Tail(xs[1..]), Tail(ys[1..]));
      SameLengthInjective(xs[1..], ys[1..], k - 1);
      assert xs == [xs[0]] + xs[1..] && ys == [ys[0]] + ys[1..];
    } else if n == 1 {
      TailOfOne(xs[0]);
      TailOfOne(ys[0]);
      assert xs == [xs[0]] && ys == [ys[0]];
      assert xs[0] == Tail(xs)[1..] && ys[0] == Tail(ys)[1..];
    } else {
      SplitLast(xs);
      SplitLast(ys);
      LastsAgree(Tail(xs[..n - 1]), Tail(ys[..n - 1]), xs[n - 1], ys[n - 1]);
      SameLengthInjective(xs[..n - 1], ys[..n - 1], 0);
      assert xs == xs[..n - 1] + [xs[n - 1]] && ys == ys[..n - 1] + [ys[n - 1]];
    }
  }

  lemma SplitLast(lines: seq<string>)
    requires lines != []
    ensures Tail(lines) == Tail(lines[..|lines| - 1]) + ("\n" + lines[|lines| - 1])
  {
    var n := |lines|;
    TailOfConcat(lines[..n - 1], [lines[n - 1]]);
    TailOfOne(lines[n - 1]);
    assert lines == lines[..n - 1] + [lines[n - 1]];
  }

  // ----- which messages are unambiguous -----

  /** Newlines occur only in the fields at the positions in `loose`. */
  predicate Confined(texts: seq<string>, loose: set<nat>) {
    forall i :: 0 <= i < |texts| && i !in loose ==> OneLine(texts[i])
  }

  predicate KeyOneLine(keyId: Option<string>) { keyId.Some? ==> OneLine(keyId.value) }

  predicate IsName(name: string) { OneLine(name) && '=' !in name }

  /** Field names as the two field lists have them: neither '=' nor newline, and the key's own
      name is not the last of them. */
  predicate Names(names: seq<string>) {
    && names != []
    && (forall i :: 0 <= i < |names| ==> IsName(names[i]))
    && names[|names| - 1] != KEY_NAME
  }

  /** One message stands for one list of texts and one key id. */
  ghost predicate Unambiguous(names: seq<string>, loose: set<nat>) {
    forall xs: seq<string>, ys: seq<string>, kx: Option<string>, ky: Option<string> ::
      && |xs| == |ys| == |names| && Confined(xs, loose) && Confined(ys, loose)
      && KeyOneLine(kx) && KeyOneLine(ky)
      && Message(names, xs, kx) == Message(names, ys, ky)
      ==> xs == ys && kx == ky
  }

  lemma BeforeEquals(a: string, b: string, x: string, y: string)
    requires '=' !in a && '=' !in b && a + "=" + x == b + "=" + y
    ensures a == b && x == y
  {
    assert a + "=" + x == a + ("=" + x) && b + "=" + y == b + ("=" + y);
    HeadsAgree('=', a, b, "=" + x, "=" + y);
    assert x == ("=" + x)[1..] && y == ("=" + y)[1..];
  }

  lemma LinesConfined(names: seq<string>, texts: seq<string>, keyId: Option<string>, k: nat)
    requires Names(names) && |names| == |texts| && Confined(texts, {k}) && KeyOneLine(keyId)
    requires k < |names|
    ensures OneLineExcept(Labelled(names, texts) + KeyLine(keyId), k)
  {
  }

  lemma LastLinesAgree(a: seq<string>, b: seq<string>)
    requires a != [] && b != [] && OneLine(a[|a| - 1]) && OneLine(b[|b| - 1]) && Join(a) == Join(b)
    ensures a[|a| - 1] == b[|b| - 1] && Tail(a[..|a| - 1]) == Tail(b[..|b| - 1])
  {
    JoinIsTail(a);
    JoinIsTail(b);
    SplitLast(a);
    SplitLast(b);
    LastsAgree(Tail(a[..|a| - 1]), Tail(b[..|b| - 1]), a[|a| - 1], b[|b| - 1]);
  }

  lemma LastLineSplit(a: seq<string>, x: string, b: seq<string>, y: string)
    requires OneLine(x) && OneLine(y) && Join(a + [x]) == Join(b + [y])
    ensures x == y && Tail(a) == Tail(b)
  {
    LastLinesAgree(a + [x], b + [y]);
    assert (a + [x])[..|a|] == a && (b + [y])[..|b|] == b;
  }

  lemma LineOfOneLine(name: string, text: string)
    requires OneLine(name) && OneLine(text)
    ensures OneLine(name + "=" + text)
  {
  }

  /** A message with a key line is never one without. */
  lemma KeyedDiffers(names: seq<string>, xs: seq<string>, ys: seq<string>, key: string)
    requires Names(names) && |xs| == |ys| == |names| && OneLine(key) && OneLine(ys[|names| - 1])
    ensures Message(names, xs, Some(key)) != Message(names, ys, None)
  {
    var n := |names|;
    var a, b := Labelled(names, xs), Labelled(names, ys);
    assert b + KeyLine(None) == b && b == b[..n - 1] + [names[n - 1] + "=" + ys[n - 1]];
    KeyIsName();
    OtherLastLine(KEY_NAME, names[n - 1], a, key, b[..n - 1], ys[n - 1]);
  }

  lemma KeyIsName()
    ensures IsName(KEY_NAME)
  {
  }

  lemma OtherLastLine(f: string, g: string, a: seq<string>, x: string, b: seq<string>, y: string)
    requires IsName(f) && IsName(g) && f != g && OneLine(x) && OneLine(y)
    ensures Join(a + [f + "=" + x]) != Join(b + [g + "=" + y])
  {
    if Join(a + [f + "=" + x]) == Join(b + [g + "=" + y]) {
      LineOfOneLine(f, x);
      LineOfOneLine(g, y);
      LastLineSplit(a, f + "=" + x, b, g + "=" + y);
      BeforeEquals(f, g, x, y);
    }
  }

  lemma MessagesAgree(names: seq<string>, xs: seq<string>, ys: seq<string>,
                      kx: Option<string>, ky: Option<string>, k: nat)
    requires Names(names) && |xs| == |ys| == |names| && k < |names| && (k == |names| - 1 ==> Confined(xs, {}) && Confined(ys, {}))
    requires Confined(xs, {k}) && Confined(ys, {k}) && KeyOneLine(kx) && KeyOneLine(ky)
    requires Message(names, xs, kx) == Message(names, ys, ky)
    ensures xs == ys && kx == ky
  {
    var n := |names|;
    var a, b := Labelled(names, xs) + KeyLine(kx), Labelled(names, ys) + KeyLine(ky);
    LinesConfined(names, xs, kx, k);
    LinesConfined(names, ys, ky, k);
    JoinIsTail(a);
    JoinIsTail(b);
    if kx.Some? && ky.None? { KeyedDiffers(names, xs, ys, kx.value); }
    if ky.Some? && kx.None? { KeyedDiffers(names, ys, xs, ky.value); }
    SameLengthInjective(a, b, k);
    forall i | 0 <= i < n ensures xs[i] == ys[i] {
      assert a[i] == b[i];
      BeforeEquals(names[i], names[i], xs[i], ys[i]);
    }
    if kx.Some? {
      assert a[n] == b[n];
      BeforeEquals(KEY_NAME, KEY_NAME, kx.value, ky.value);
    }
  }

  // ----- and which are not -----

  /** All texts empty but the one at `at`. */
  function Single(n: nat, at: nat, text: string): (texts: seq<string>)
    ensures |texts| == n
  {
    seq(n, i => if i == at then text else "")
  }

  /** Text that reads as the fields after i up to j, put in field i or in field j, gives one message. */
  lemma TwoLooseFieldsCollide(names: seq<string>, i: nat, j: nat) returns (m: string)
    requires i < j < |names|
    ensures m != ""
    ensures Message(names, Single(|names|, i, m), None) == Message(names, Single(|names|, j, m), None)
  {
    var n := |names|;
    var blank := Labelled(names, Single(n, n, ""));
    m := Tail(blank[i + 1..j + 1]);
    SingleTail(names, i, m);
    SingleTail(names, j, m);
    MovedTail(blank, i, j);
    var a, b := Labelled(names, Single(n, i, m)), Labelled(names, Single(n, j, m));
    JoinIsTail(a);
    JoinIsTail(b);
    assert a + KeyLine(None) == a && b + KeyLine(None) == b;
  }

  lemma MovedTail(blank: seq<string>, i: nat, j: nat)
    requires i < j < |blank|
    ensures var m := Tail(blank[i + 1..j + 1]);
      Tail(blank[..i + 1]) + m + Tail(blank[i + 1..]) == Tail(blank[..j + 1]) + m + Tail(blank[j + 1..])
  {
    assert blank[..j + 1] == blank[..i + 1] + blank[i + 1..j + 1];
    assert blank[i + 1..] == blank[i + 1..j + 1] + blank[j + 1..];
    TailOfConcat(blank[..i + 1], blank[i + 1..j + 1]);
    TailOfConcat(blank[i + 1..j + 1], blank[j + 1..]);
  }

  lemma SingleTail(names: seq<string>, at: nat, m: string)
    requires at < |names|
    ensures var blank := Labelled(names, Single(|names|, |names|, ""));
      Tail(Labelled(names, Single(|names|, at, m))) == Tail(blank[..at + 1]) + m + Tail(blank[at + 1..])
  {
    var n := |names|;
    var blank, a := Labelled(names, Single(n, n, "")), Labelled(names, Single(n, at, m));
    assert a[at] == blank[at] + m;
    assert a[..at] == blank[..at] && a[at + 1..] == blank[at + 1..];
    TailAround(a, at);
    TailAround(blank, at);
    SplitLast(blank[..at + 1]);
    assert blank[..at + 1][..at] == blank[..at];
    Regroup("\n", blank[at], m);
    Regroup(Tail(blank[..at]), "\n" + blank[at], m);
  }

  lemma Regroup(x: string, y: string, z: string)
    ensures x + y + z == x + (y + z)
  {
  }

  lemma TailAround(lines: seq<string>, at: nat)
    requires at < |lines|
    ensures Tail(lines) == Tail(lines[..at]) + ("\n" + lines[at]) + Tail(lines[at + 1..])
  {
    var before, from := lines[..at], lines[at..];
    assert lines == before + from;
    TailOfConcat(before, from);
    assert from[0] == lines[at] && from[1..] == lines[at + 1..];
    Regroup(Tail(before), "\n" + lines[at], Tail(lines[at + 1..]));
  }

  lemma TailOfKeyLine(lines: seq<string>, m: string)
    requires m == "\n" + KEY_NAME + "="
    ensures Tail(lines + KeyLine(Some(""))) == Tail(lines) + m
  {
    TailOfConcat(lines, KeyLine(Some("")));
    TailOfOne(KEY_NAME + "=" + "");
    assert KEY_NAME + "=" + "" == KEY_NAME + "=";
    Regroup("\n", KEY_NAME, "=");
  }

  /** A loose last field can spell out a key line. */
  lemma LooseLastFieldCollides(names: seq<string>)
    requires names != []
    ensures var n := |names|;
      Message(names, Single(n, n - 1, "\n" + KEY_NAME + "="), None) == Message(names, Single(n, n, ""), Some(""))
  {
    var n := |names|;
    var m := "\n" + KEY_NAME + "=";
    var blank := Labelled(names, Single(n, n, ""));
    var a, b := Labelled(names, Single(n, n - 1, m)), blank + KeyLine(Some(""));
    SingleTail(names, n - 1, m);
    assert blank[..n] == blank && blank[n..] == [];
    assert Tail(a) == Tail(blank) + m;
    TailOfKeyLine(blank, m);
    JoinIsTail(a);
    JoinIsTail(b);
    assert a + KeyLine(None) == a;
  }

  lemma AmbiguousWhenLoose(names: seq<string>, loose: set<nat>, i: nat, j: nat)
    requires Names(names) && i in loose && j in loose && i < j < |names|
    ensures !Unambiguous(names, loose)
  {
    var n := |names|;
    var m := TwoLooseFieldsCollide(names, i, j);
    assert Single(n, i, m)[i] == m && Single(n, j, m)[i] == "";
    Collision(names, loose, Single(n, i, m), Single(n, j, m), None, None);
  }

  lemma AmbiguousWhenLastLoose(names: seq<string>, loose: set<nat>)
    requires Names(names) && |names| - 1 in loose
    ensures !Unambiguous(names, loose)
  {
    var n := |names|;
    LooseLastFieldCollides(names);
    Collision(names, loose, Single(n, n - 1, "\n" + KEY_NAME + "="), Single(n, n, ""), None, Some(""));
  }

  lemma Collision(names: seq<string>, loose: set<nat>, xs: seq<string>, ys: seq<string>, kx: Option<string>, ky: Option<string>)
    requires |xs| == |ys| == |names| && Confined(xs, loose) && Confined(ys, loose) && KeyOneLine(kx) && KeyOneLine(ky)
    requires Message(names, xs, kx) == Message(names, ys, ky) && (xs != ys || kx != ky)
    ensures !Unambiguous(names, loose)
  {
  }

  /** The exact condition: newlines are confined to one field, and it is not the last. */
  lemma UnambiguousIff(names: seq<string>, loose: set<nat>)
    requires Names(names) && forall i :: i in loose ==> i < |names|
    ensures Unambiguous(names, loose) <==>
      (forall i, j :: i in loose && j in loose ==> i == j) && |names| - 1 !in loose
  {
    var n := |names|;
    if i, j :| i in loose && j in loose && i != j {
      AmbiguousWhenLoose(names, loose, if i < j then i else j, if i < j then j else i);
    } else if n - 1 in loose {
      AmbiguousWhenLastLoose(names, loose);
    } else {
      var k: nat := if k :| k in loose then k else n - 1;
      assert loose <= {k};
      forall xs: seq<string>, ys: seq<string>, kx: Option<string>, ky: Option<string> |
        && |xs| == |ys| == n && Confined(xs, loose) && Confined(ys, loose)
        && KeyOneLine(kx) && KeyOneLine(ky)
        && Message(names, xs, kx) == Message(names, ys, ky)
        ensures xs == ys && kx == ky
      {
        MessagesAgree(names, xs, ys, kx, ky, k);
      }
    }
  }
}
