/**
 JSON values, their printed text and the parser, as far as `_canonical_json` in
 audit/record_integrity.py relies on them: `json.dumps(sort_keys=True, separators=(",", ":"))`
 with its default ASCII escapes, `json.loads`, and the spaced, unescaped text a JSON column
 may hand back. The grammar is that of sections 2 to 7 of RFC 8259; floats are not modelled.
 */
module Json {
  import opened Wrappers
  import opened Decimal

  // ----- values -----

  /** A value as a Python program holds it: an object keeps the order its keys came in. */
  datatype Json =
    | Null
    | Bool(b: bool)
    | Int(n: int)
    | Str(s: string)
    | Arr(items: Items)
    | Obj(members: Members)

  datatype Items = NoItems | Item(head: Json, tail: Items)

  datatype Members = NoMembers | Member(key: string, value: Json, rest: Members)

  /** What a value says: the order of keys is forgotten at every depth. */
  datatype Meaning =
    | MNull
    | MBool(b: bool)
    | MInt(n: int)
    | MStr(s: string)
    | MArr(elements: seq<Meaning>)
    | MObj(fields: map<string, Meaning>)

  function MeaningOf(v: Json): Meaning {
    match v
    case Null => MNull
    case Bool(b) => MBool(b)
    case Int(n) => MInt(n)
    case Str(s) => MStr(s)
    case Arr(items) => MArr(ItemsMeaning(items))
    case Obj(members) => MObj(MembersMeaning(members))
  }

  function ItemsMeaning(items: Items): seq<Meaning> {
    match items
    case NoItems => []
    case Item(head, tail) => [MeaningOf(head)] + ItemsMeaning(tail)
  }

  function MembersMeaning(members: Members): map<string, Meaning> {
    match members
    case NoMembers => map[]
    case Member(key, value, rest) => map[key := MeaningOf(value)] + MembersMeaning(rest)
  }

  function Keys(members: Members): set<string> {
    match members
    case NoMembers => {}
    case Member(key, _, rest) => {key} + Keys(rest)
  }

  /** Keys are distinct at every depth, as in every Python dict. */
  predicate WellFormed(v: Json) {
    match v
    case Arr(items) => ItemsWellFormed(items)
    case Obj(members) => MembersWellFormed(members)
    case _ => true
  }

  predicate ItemsWellFormed(items: Items) {
    items.Item? ==> WellFormed(items.head) && ItemsWellFormed(items.tail)
  }

  predicate MembersWellFormed(members: Members) {
    members.Member? ==>
      members.key !in Keys(members.rest) && WellFormed(members.value) && MembersWellFormed(members.rest)
  }

  // ----- key order -----

  /** Python's `<` on strings: by code point, a proper prefix first. */
  predicate Before(a: string, b: string) {
    b != "" && (a == "" || a[0] < b[0] || (a[0] == b[0] && Before(a[1..], b[1..])))
  }

  lemma {:induction false} BeforeTotal(a: string, b: string)
    ensures Before(a, b) || Before(b, a) || a == b
  {
    if a != "" && b != "" && a[0] == b[0] {
      BeforeTotal(a[1..], b[1..]);
      assert a == [a[0]] + a[1..] && b == [b[0]] + b[1..];
    }
  }

  lemma {:induction false} BeforeTransitive(a: string, b: string, c: string)
    requires Before(a, b) && Before(b, c)
    ensures Before(a, c)
  {
    if a != "" && a[0] == b[0] == c[0] {
      BeforeTransitive(a[1..], b[1..], c[1..]);
    }
  }

  lemma {:induction false} BeforeIrreflexive(a: string)
    ensures !Before(a, a)
  {
    if a != "" { BeforeIrreflexive(a[1..]); }
  }

  /** The order is decided at the first difference, by code point. */
  lemma {:induction false} BeforeAtFirstDifference(p: string, x: char, s: string, y: char, t: string)
    ensures Before(p + [x] + s, p + [y] + t) <==> x < y || (x == y && Before(s, t))
    ensures Before(p, p + [y] + t)
  {
    if p == "" {
      assert ([x] + s)[1..] == s && ([y] + t)[1..] == t && p + [x] + s == [x] + s && p + [y] + t == [y] + t;
    } else {
      BeforeAtFirstDifference(p[1..], x, s, y, t);
      assert (p + [x] + s)[1..] == p[1..] + [x] + s && (p + [y] + t)[1..] == p[1..] + [y] + t;
    }
  }

  /** `sort_keys=True`: members in ascending key order at every depth. */
  function Sorted(v: Json): Json {
    match v
    case Arr(items) => Arr(SortedItems(items))
    case Obj(members) => Obj(SortedMembers(members))
    case _ => v
  }

  function SortedItems(items: Items): Items {
    match items
    case NoItems => NoItems
    case Item(head, tail) => Item(Sorted(head), SortedItems(tail))
  }

  function SortedMembers(members: Members): Members {
    match members
    case NoMembers => NoMembers
    case Member(key, value, rest) => Insert(key, Sorted(value), SortedMembers(rest))
  }

  function Insert(key: string, value: Json, members: Members): Members {
    if members.NoMembers? || Before(key, members.key) then Member(key, value, members)
    else members.(rest := Insert(key, value, members.rest))
  }

  predicate InOrder(v: Json) {
    match v
    case Arr(items) => ItemsInOrder(items)
    case Obj(members) => MembersInOrder(members)
    case _ => true
  }

  predicate ItemsInOrder(items: Items) {
    items.Item? ==> InOrder(items.head) && ItemsInOrder(items.tail)
  }

  predicate MembersInOrder(members: Members) {
    members.Member? ==>
      && InOrder(members.value)
      && MembersInOrder(members.rest)
      && forall k :: k in Keys(members.rest) ==> Before(members.key, k)
  }

  // ----- printing -----

  /** `spaced`: ", " and ": " as separators; `ascii`: escape everything outside ' '..'~'. */
  datatype Style = Style(spaced: bool, ascii: bool)

  const COMPACT := Style(false, true)

  function Comma(style: Style): string { if style.spaced then ", " else "," }

  function Colon(style: Style): string { if style.spaced then ": " else ":" }

  function HexChar(d: nat): (c: char)
    requires d < 16
    ensures ' ' <= c <= '~'
  {
    if d < 10 then '0' + d as char else 'a' + (d - 10) as char
  }

  function UnicodeEscape(code: nat): (s: string)
    requires code < 0x10000
    ensures |s| == 6 && forall i :: 0 <= i < |s| ==> ' ' <= s[i] <= '~'
  {
    var a := code / 16;
    var b := a / 16;
    ['\\', 'u', HexChar(b / 16), HexChar(b % 16), HexChar(a % 16), HexChar(code % 16)]
  }

  /** The two-character escapes: the letter written after the backslash. */
  function ShortEscape(c: char): Option<char> {
    if c == '\"' || c == '\\' then Some(c)
    else if c == '\n' then Some('n')
    else if c == '\r' then Some('r')
    else if c == '\t' then Some('t')
    else if c as int == 12 then Some('f')
    else if c as int == 8 then Some('b')
    else None
  }

  function EscapeChar(style: Style, c: char): (s: string)
    ensures s != ""
    ensures style.ascii ==> forall i :: 0 <= i < |s| ==> ' ' <= s[i] <= '~'
  {
    if ShortEscape(c).Some? then ['\\', ShortEscape(c).value]
    else if ' ' <= c <= '~' || (!style.ascii && c > '~') then [c]
    else if c as int < 0x10000 then UnicodeEscape(c as int)
    else UnicodeEscape(0xD800 + (c as int - 0x10000) / 0x400) + UnicodeEscape(0xDC00 + (c as int - 0x10000) % 0x400)
  }

  function Escape(style: Style, s: string): string {
    if s == "" then "" else EscapeChar(style, s[0]) + Escape(style, s[1..])
  }

  function Quoted(style: Style, s: string): string { "\"" + Escape(style, s) + "\"" }

  function Print(style: Style, v: Json): string {
    match v
    case Null => "null"
    case Bool(b) => if b then "true" else "false"
    case Int(n) => IntText(n)
    case Str(s) => Quoted(style, s)
    case Arr(items) => "[" + PrintItems(style, items)
    case Obj(members) => "{" + PrintMembers(style, members)
  }

  /** The text after "[", up to and with the closing bracket. */
  function PrintItems(style: Style, items: Items): string {
    match items
    case NoItems => "]"
    case Item(head, NoItems) => Print(style, head) + "]"
    case Item(head, tail) => Print(style, head) + Comma(style) + PrintItems(style, tail)
  }

  /** The text after "{", up to and with the closing brace. */
  function PrintMembers(style: Style, members: Members): string {
    match members
    case NoMembers => "}"
    case Member(key, value, NoMembers) => Quoted(style, key) + Colon(style) + Print(style, value) + "}"
    case Member(key, value, rest) =>
      Quoted(style, key) + Colon(style) + Print(style, value) + Comma(style) + PrintMembers(style, rest)
  }

  /** `json.dumps(value, sort_keys=True, separators=(",", ":"))`. */
  function Dumps(v: Json): string { Print(COMPACT, Sorted(v)) }

  // ----- parsing -----

  datatype Parse<T> = Fail | Got(value: T, rest: string)

  predicate IsSpace(c: char) { c in {' ', '\t', '\n', '\r'} }

  function SkipSpace(s: string): (r: string)
    ensures |r| <= |s|
  {
    if s != "" && IsSpace(s[0]) then SkipSpace(s[1..]) else s
  }

  function HexValue(c: char): Option<nat> {
    if '0' <= c <= '9' then Some(c as int - '0' as int)
    else if 'a' <= c <= 'f' then Some(c as int - 'a' as int + 10)
    else if 'A' <= c <= 'F' then Some(c as int - 'A' as int + 10)
    else None
  }

  /** The code of `uXXXX` at the start of `s`. */
  function ReadUnicode(s: string): (r: Option<nat>)
    ensures r.Some? ==> |s| >= 5
  {
    if |s| < 5 || s[0] != 'u' then None
    else
      match (HexValue(s[1]), HexValue(s[2]), HexValue(s[3]), HexValue(s[4]))
      case (Some(a), Some(b), Some(c), Some(d)) => Some(a * 4096 + b * 256 + c * 16 + d)
      case _ => None
  }

  function ShortUnescape(c: char): Option<char> {
    if c in {'\"', '\\', '/'} then Some(c)
    else if c == 'n' then Some('\n')
    else if c == 'r' then Some('\r')
    else if c == 't' then Some('\t')
    else if c == 'f' then Some(12 as char)
    else if c == 'b' then Some(8 as char)
    else None
  }

  /** The character after a backslash; a lone surrogate is not a character here. */
  function ParseEscape(s: string): (r: Parse<char>)
    ensures r.Got? ==> |r.rest| < |s|
  {
    if s == "" then Fail
    else if ShortUnescape(s[0]).Some? then Got(ShortUnescape(s[0]).value, s[1..])
    else
      match ReadUnicode(s)
      case None => Fail
      case Some(hi) =>
        if hi < 0xD800 || 0xE000 <= hi < 0x10000 then Got(hi as char, s[5..])
        else if hi < 0xDC00 && |s| > 5 && s[5] == '\\' then
          match ReadUnicode(s[6..])
          case Some(lo) =>
            if 0xDC00 <= lo < 0xE000
            then Got((0x10000 + (hi - 0xD800) * 0x400 + (lo - 0xDC00)) as char, s[11..])
            else Fail
          case None => Fail
        else Fail
  }

  /** One character of a string literal that is not its closing quote. */
  function ParseChar(s: string): (r: Parse<char>)
    requires s != ""
    ensures r.Got? ==> |r.rest| < |s|
  {
    if s[0] == '\\' then ParseEscape(s[1..])
    else if s[0] < ' ' then Fail
    else Got(s[0], s[1..])
  }

  /** The rest of a string literal, its opening quote consumed. */
  function ParseChars(s: string): (r: Parse<string>)
    ensures r.Got? ==> |r.rest| < |s|
    decreases |s|
  {
    if s == "" then Fail
    else if s[0] == '\"' then Got("", s[1..])
    else
      match ParseChar(s)
      case Fail => Fail
      case Got(c, rest) => Prepend(c, ParseChars(rest))
  }

  function Prepend(c: char, p: Parse<string>): Parse<string> {
    match p
    case Fail => Fail
    case Got(s, rest) => Got([c] + s, rest)
  }

  function DigitRun(s: string): (n: nat)
    ensures n <= |s| && AllDigits(s[..n])
    ensures n < |s| ==> !IsDigit(s[n])
  {
    if s != "" && IsDigit(s[0]) then
      var n := DigitRun(s[1..]) + 1;
      assert forall i :: 1 <= i < n ==> s[i] == s[1..][..n - 1][i - 1];
      n
    else 0
  }

  /** A float (a fraction or an exponent) is outside this model and fails. */
  function ParseNat(s: string): (r: Parse<nat>)
    ensures r.Got? ==> |r.rest| < |s|
  {
    var n := if s != "" && s[0] == '0' then 1 else DigitRun(s);
    if n == 0 || (n < |s| && s[n] in {'.', 'e', 'E'}) then Fail else Got(ReadNat(s[..n]), s[n..])
  }

  function ParseInt(s: string): (r: Parse<Json>)
    requires s != ""
    ensures r.Got? ==> |r.rest| < |s|
  {
    match ParseNat(if s[0] == '-' then s[1..] else s)
    case Fail => Fail
    case Got(n, rest) => Got(Int(if s[0] == '-' then 0 - n else n), rest)
  }

  function ParseAtom(s: string): (r: Parse<Json>)
    requires s != ""
    ensures r.Got? ==> |r.rest| < |s|
  {
    if "null" <= s then Got(Null, s[4..])
    else if "true" <= s then Got(Bool(true), s[4..])
    else if "false" <= s then Got(Bool(false), s[5..])
    else ParseInt(s)
  }

  function ParseString(s: string): (r: Parse<Json>)
    ensures r.Got? ==> |r.rest| < |s|
  {
    match ParseChars(s)
    case Fail => Fail
    case Got(x, rest) => Got(Str(x), rest)
  }

  function ParseValue(input: string): (r: Parse<Json>)
    ensures r.Got? ==> |r.rest| < |input|
    decreases |input|, 1
  {
    var s := SkipSpace(input);
    if s == "" then Fail
    else if s[0] == '\"' then ParseString(s[1..])
    else if s[0] == '[' then ParseArray(s[1..])
    else if s[0] == '{' then ParseObject(s[1..])
    else ParseAtom(s)
  }

  function ParseArray(s: string): (r: Parse<Json>)
    ensures r.Got? ==> |r.rest| < |s|
    decreases |s|, 3
  {
    var t := SkipSpace(s);
    if t != "" && t[0] == ']' then Got(Arr(NoItems), t[1..])
    else
      match ParseItems(s)
      case Fail => Fail
      case Got(items, rest) => Got(Arr(items), rest)
  }

  function ParseObject(s: string): (r: Parse<Json>)
    ensures r.Got? ==> |r.rest| < |s|
    decreases |s|, 3
  {
    var t := SkipSpace(s);
    if t != "" && t[0] == '}' then Got(Obj(NoMembers), t[1..])
    else
      match ParseMembers(s)
      case Fail => Fail
      case Got(members, rest) => Got(Obj(Dict(members)), rest)
  }

  function ParseItems(s: string): (r: Parse<Items>)
    ensures r.Got? ==> |r.rest| < |s|
    decreases |s|, 2
  {
    match ParseValue(s)
    case Fail => Fail
    case Got(v, rest) =>
      var t := SkipSpace(rest);
      if t == "" then Fail
      else if t[0] == ']' then Got(Item(v, NoItems), t[1..])
      else if t[0] != ',' then Fail
      else match ParseItems(t[1..]) { case Fail => Fail case Got(items, last) => Got(Item(v, items), last) }
  }

  function ParseMembers(s: string): (r: Parse<Members>)
    ensures r.Got? ==> |r.rest| < |s|
    decreases |s|, 2
  {
    var q := SkipSpace(s);
    if q == "" || q[0] != '\"' then Fail
    else
      match ParseChars(q[1..])
      case Fail => Fail
      case Got(key, afterKey) =>
        var c := SkipSpace(afterKey);
        if c == "" || c[0] != ':' then Fail
        else
          match ParseValue(c[1..])
          case Fail => Fail
          case Got(v, rest) =>
            var t := SkipSpace(rest);
            if t == "" then Fail
            else if t[0] == '}' then Got(Member(key, v, NoMembers), t[1..])
            else if t[0] != ',' then Fail
            else
              match ParseMembers(t[1..])
              case Fail => Fail
              case Got(members, last) => Got(Member(key, v, members), last)
  }

  /** `dict(pairs)`: a repeated key keeps its first place and its last value. */
  function Dict(members: Members): Members {
    match members
    case NoMembers => NoMembers
    case Member(key, value, rest) =>
      var d := Dict(rest);
      match Find(d, key)
      case None => Member(key, value, d)
      case Some(last) => Member(key, last, Without(d, key))
  }

  function Find(members: Members, key: string): (r: Option<Json>)
    ensures r.Some? <==> key in Keys(members)
  {
    if members.NoMembers? then None
    else if members.key == key then Some(members.value)
    else Find(members.rest, key)
  }

  function Without(members: Members, key: string): Members {
    if members.NoMembers? then NoMembers
    else if members.key == key then members.rest
    else members.(rest := Without(members.rest, key))
  }

  /** `json.loads(s)`; None when it raises. */
  function Loads(s: string): Option<Json> {
    match ParseValue(s)
    case Fail => None
    case Got(v, rest) => if SkipSpace(rest) == "" then Some(v) else None
  }
}
