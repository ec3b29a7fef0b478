/**
 The laws `_canonical_json` needs: the parser undoes every printed style, and the canonical
 text says exactly what the value means, no more and no less.
 */
module JsonLaws {
  import opened Wrappers
  import opened Decimal
  import opened Json

  // ----- the parser undoes the printer -----

  lemma UnicodeRoundTrip(code: nat, s: string)
    requires code < 0x10000 && |s| >= 6 && s[..6] == UnicodeEscape(code)
    ensures ReadUnicode(s[1..]) == Some(code)
  {
    var e := UnicodeEscape(code);
    assert s[0] == e[0] && s[1] == e[1] && s[2] == e[2] && s[3] == e[3] && s[4] == e[4] && s[5] == e[5];
    var t := s[1..];
    assert t[0] == e[1] && t[1] == e[2] && t[2] == e[3] && t[3] == e[4] && t[4] == e[5];
  }

  lemma PairRead(t: string, hi: nat, lo: nat)
    requires |t| >= 11 && t[0] == 'u' && t[5] == '\\'
    requires ReadUnicode(t) == Some(hi) && 0xD800 <= hi < 0xDC00
    requires ReadUnicode(t[6..]) == Some(lo) && 0xDC00 <= lo < 0xE000
    ensures ParseEscape(t) == Got((0x10000 + (hi - 0xD800) * 0x400 + (lo - 0xDC00)) as char, t[11..])
  {
  }

  /** A character beyond the sixteen-bit range is read back from its surrogate pair. */
  lemma PairRoundTrip(n: nat, s: string)
    requires 0x10000 <= n < 0x110000 && |s| >= 12
    requires s[..6] == UnicodeEscape(0xD800 + (n - 0x10000) / 0x400)
    requires s[6..12] == UnicodeEscape(0xDC00 + (n - 0x10000) % 0x400)
    ensures ParseEscape(s[1..]) == Got(n as char, s[12..])
  {
    var hi, lo := 0xD800 + (n - 0x10000) / 0x400, 0xDC00 + (n - 0x10000) % 0x400;
    UnicodeRoundTrip(hi, s);
    assert s[6..][..6] == s[6..12];
    UnicodeRoundTrip(lo, s[6..]);
    var t := s[1..];
    assert t[0] == s[..6][1] == 'u' && t[5] == s[6..12][0] == '\\';
    assert t[6..] == s[6..][1..] && t[11..] == s[12..];
    PairRead(t, hi, lo);
    assert 0x10000 + (hi - 0xD800) * 0x400 + (lo - 0xDC00) == n;
  }

  lemma ShortRoundTrip(c: char)
    requires ShortEscape(c).Some?
    ensures ShortEscape(c).value != 'u' && ShortUnescape(ShortEscape(c).value) == Some(c)
  {
  }

  lemma UnicodeChar(c: char, tail: string)
    requires c as int < 0x10000
    ensures ParseChar(UnicodeEscape(c as int) + tail) == Got(c, tail)
  {
    var e := UnicodeEscape(c as int);
    var s := e + tail;
    assert s[..6] == e;
    UnicodeRoundTrip(c as int, s);
    assert s[1..][5..] == tail && s[1..][0] == 'u';
  }

  /** One escaped character is read back as that character, and nothing of what follows it. */
  lemma CharRoundTrip(style: Style, c: char, tail: string)
    ensures EscapeChar(style, c)[0] != '\"'
    ensures ParseChar(EscapeChar(style, c) + tail) == Got(c, tail)
  {
    var e := EscapeChar(style, c);
    var s := e + tail;
    var n := c as int;
    if ShortEscape(c).Some? {
      ShortRoundTrip(c);
      assert s[1..][1..] == tail;
    } else if |e| == 1 {
      assert s[1..] == tail;
    } else if n < 0x10000 {
      UnicodeChar(c, tail);
    } else {
      assert s[..6] == e[..6] && s[6..12] == e[6..] && s[12..] == tail;
      PairRoundTrip(n, s);
    }
  }

  lemma NextChar(s: string, c: char, rest: string)
    requires s != "" && s[0] != '\"' && ParseChar(s) == Got(c, rest)
    ensures ParseChars(s) == Prepend(c, ParseChars(rest))
  {
  }

  lemma EscapeStep(style: Style, x: string, tail: string)
    requires x != ""
    ensures Escape(style, x) + tail == EscapeChar(style, x[0]) + (Escape(style, x[1..]) + tail)
  {
  }

  lemma {:induction false} CharsRoundTrip(style: Style, x: string, tail: string)
    ensures ParseChars(Escape(style, x) + ("\"" + tail)) == Got(x, tail)
  {
    if x != "" {
      var after := Escape(style, x[1..]) + ("\"" + tail);
      EscapeStep(style, x, "\"" + tail);
      CharRoundTrip(style, x[0], after);
      CharsRoundTrip(style, x[1..], tail);
      NextChar(EscapeChar(style, x[0]) + after, x[0], after);
      assert [x[0]] + x[1..] == x;
    } else {
      assert Escape(style, x) + ("\"" + tail) == "\"" + tail;
      assert ("\"" + tail)[1..] == tail;
    }
  }

  lemma Unquoted(e: string, tail: string)
    ensures var s := "\"" + e + "\"" + tail;
      s[0] == '\"' && s[1..] == e + ("\"" + tail)
  {
  }

  lemma QuotedRoundTrip(style: Style, x: string, tail: string)
    ensures (Quoted(style, x) + tail)[0] == '\"'
    ensures ParseChars((Quoted(style, x) + tail)[1..]) == Got(x, tail)
  {
    CharsRoundTrip(style, x, tail);
    Unquoted(Escape(style, x), tail);
  }

  /** What may follow a printed number without changing how it is read. */
  predicate Boundary(tail: string) {
    tail == "" || (!IsDigit(tail[0]) && tail[0] !in {'.', 'e', 'E'})
  }

  lemma {:induction false} DigitRunStops(digits: string, tail: string)
    requires AllDigits(digits) && Boundary(tail)
    ensures DigitRun(digits + tail) == |digits|
  {
    if digits != "" {
      DigitRunStops(digits[1..], tail);
      assert (digits + tail)[1..] == digits[1..] + tail;
    } else {
      assert digits + tail == tail;
    }
  }

  lemma NatRoundTrip(n: nat, tail: string)
    requires Boundary(tail)
    ensures ParseNat(NatText(n) + tail) == Got(n, tail)
  {
    DigitRunStops(NatText(n), tail);
    ReadNatText(n);
    assert (NatText(n) + tail)[..|NatText(n)|] == NatText(n);
    assert (NatText(n) + tail)[|NatText(n)|..] == tail;
  }

  /** A printed value starts with a character that is neither space nor a closing bracket. */
  lemma PrintStart(style: Style, v: Json)
    ensures Print(style, v) != ""
    ensures !IsSpace(Print(style, v)[0]) && Print(style, v)[0] !in {']', '}', ',', ':'}
  {
    if v.Int? { assert IsDigit(IntText(v.n)[0]) || IntText(v.n)[0] == '-'; }
  }

  lemma SignedRoundTrip(digits: string, n: nat, tail: string)
    requires digits != "" && IsDigit(digits[0]) && ParseNat(digits + tail) == Got(n, tail)
    ensures ParseInt(digits + tail) == Got(Int(n), tail)
    ensures ParseInt("-" + digits + tail) == Got(Int(0 - n), tail)
  {
    assert (digits + tail)[0] == digits[0];
    assert ("-" + digits + tail)[1..] == digits + tail;
  }

  lemma IntRoundTrip(n: int, tail: string)
    requires Boundary(tail)
    ensures ParseInt(IntText(n) + tail) == Got(Int(n), tail)
  {
    var m: nat := if n < 0 then -n else n;
    NatRoundTrip(m, tail);
    SignedRoundTrip(NatText(m), m, tail);
  }

  lemma AtomRoundTrip(style: Style, v: Json, tail: string)
    requires v.Null? || v.Bool? || v.Int?
    requires Boundary(tail)
    ensures ParseAtom(Print(style, v) + tail) == Got(v, tail)
  {
    var s := Print(style, v) + tail;
    if v.Int? {
      IntRoundTrip(v.n, tail);
      assert s[0] == IntText(v.n)[0] && (s[0] == '-' || IsDigit(s[0]));
    } else if v == Bool(false) {
      assert s[0] == 'f' && s[5..] == tail;
    } else {
      assert s[0] == (if v.Null? then 'n' else 't') && s[4..] == tail;
    }
  }

  lemma AtomStart(style: Style, v: Json)
    requires v.Null? || v.Bool? || v.Int?
    ensures Print(style, v) != "" && Print(style, v)[0] !in {'\"', '[', '{'}
  {
    if v.Int? { assert IntText(v.n)[0] == '-' || IsDigit(IntText(v.n)[0]); }
  }

  /** Without space in front, the first character decides how a value is read. */
  lemma ValueByFirst(s: string)
    requires s != "" && !IsSpace(s[0])
    ensures ParseValue(s) ==
      if s[0] == '\"' then ParseString(s[1..])
      else if s[0] == '[' then ParseArray(s[1..])
      else if s[0] == '{' then ParseObject(s[1..])
      else ParseAtom(s)
  {
  }

  lemma StringValue(style: Style, x: string, tail: string)
    ensures ParseValue(Quoted(style, x) + tail) == Got(Str(x), tail)
  {
    QuotedRoundTrip(style, x, tail);
    ValueByFirst(Quoted(style, x) + tail);
  }

  lemma AtomValue(style: Style, v: Json, tail: string)
    requires (v.Null? || v.Bool? || v.Int?) && Boundary(tail)
    ensures ParseValue(Print(style, v) + tail) == Got(v, tail)
  {
    PrintStart(style, v);
    AtomStart(style, v);
    AtomRoundTrip(style, v, tail);
    var s := Print(style, v) + tail;
    assert s[0] == Print(style, v)[0];
    ValueByFirst(s);
  }

  lemma BracketedValue(open: char, body: string, tail: string)
    requires open == '[' || open == '{'
    ensures ParseValue([open] + body + tail) == if open == '[' then ParseArray(body + tail) else ParseObject(body + tail)
  {
    var s := [open] + body + tail;
    assert s[0] == open && s[1..] == body + tail;
    ValueByFirst(s);
  }

  lemma {:induction false} ValueRoundTrip(style: Style, v: Json, tail: string)
    requires WellFormed(v) && Boundary(tail)
    ensures ParseValue(Print(style, v) + tail) == Got(v, tail)
    decreases v, 2
  {
    match v
    case Str(x) => StringValue(style, x, tail);
    case Arr(items) =>
      ArrayRoundTrip(style, items, tail);
      BracketedValue('[', PrintItems(style, items), tail);
    case Obj(members) =>
      ObjectRoundTrip(style, members, tail);
      BracketedValue('{', PrintMembers(style, members), tail);
    case _ => AtomValue(style, v, tail);
  }

  lemma {:induction false} ArrayRoundTrip(style: Style, items: Items, tail: string)
    requires ItemsWellFormed(items)
    ensures ParseArray(PrintItems(style, items) + tail) == Got(Arr(items), tail)
    decreases items, 3
  {
    var s := PrintItems(style, items) + tail;
    if items.NoItems? {
      assert s == "]" + tail && s[1..] == tail;
    } else {
      PrintStart(style, items.head);
      assert s[0] == Print(style, items.head)[0];
      assert SkipSpace(s) == s;
      ItemsRoundTrip(style, items, tail);
    }
  }

  lemma {:induction false} ObjectRoundTrip(style: Style, members: Members, tail: string)
    requires MembersWellFormed(members)
    ensures ParseObject(PrintMembers(style, members) + tail) == Got(Obj(members), tail)
    decreases members, 3
  {
    var s := PrintMembers(style, members) + tail;
    if members.NoMembers? {
      assert s == "}" + tail && s[1..] == tail;
    } else {
      MembersRoundTrip(style, members, tail);
      assert SkipSpace(s) == s;
      DictOfDistinct(members);
    }
  }

  /** How the parser reads one item that it reads as `value`. */
  lemma ItemStep(s: string, value: Json, follow: string)
    requires ParseValue(s) == Got(value, follow) && follow != "" && (follow[0] == ']' || follow[0] == ',')
    ensures ParseItems(s) ==
      if follow[0] == ']' then Got(Item(value, NoItems), follow[1..])
      else match ParseItems(follow[1..])
        case Fail => Fail
        case Got(items, last) => Got(Item(value, items), last)
  {
    assert SkipSpace(follow) == follow;
  }

  lemma {:induction false} ItemsRoundTrip(style: Style, items: Items, tail: string)
    requires ItemsWellFormed(items) && items.Item?
    ensures ParseItems(PrintItems(style, items) + tail) == Got(items, tail)
    decreases items, 1
  {
    var s := PrintItems(style, items) + tail;
    var p := Print(style, items.head);
    if items.tail.NoItems? {
      assert s == p + ("]" + tail);
      ValueRoundTrip(style, items.head, "]" + tail);
      ItemStep(s, items.head, "]" + tail);
      assert ("]" + tail)[1..] == tail;
    } else {
      var more := PrintItems(style, items.tail) + tail;
      assert s == p + (Comma(style) + more);
      ValueRoundTrip(style, items.head, Comma(style) + more);
      ItemStep(s, items.head, Comma(style) + more);
      ItemsRoundTrip(style, items.tail, tail);
      PrintStart(style, items.tail.head);
      LeadingSpace(style, more);
    }
  }

  /** After a separator the parser sees the same text with or without the optional space. */
  lemma LeadingSpace(style: Style, more: string)
    requires more != "" && !IsSpace(more[0])
    ensures ParseItems((Comma(style) + more)[1..]) == ParseItems(more)
    ensures ParseMembers((Comma(style) + more)[1..]) == ParseMembers(more)
    ensures ParseValue((Colon(style) + more)[1..]) == ParseValue(more)
  {
    AfterSeparator(style, more);
    SpaceIgnored((Comma(style) + more)[1..], more);
    SpaceIgnored((Colon(style) + more)[1..], more);
  }

  /** The parser sees nothing of the space in front of a text. */
  lemma SpaceIgnored(s: string, t: string)
    requires SkipSpace(s) == SkipSpace(t)
    ensures ParseValue(s) == ParseValue(t) && ParseItems(s) == ParseItems(t) && ParseMembers(s) == ParseMembers(t)
  {
    assert ParseValue(s) == ParseValue(t);
    assert ParseMembers(s) == ParseMembers(t);
  }

  lemma AfterSeparator(style: Style, more: string)
    requires more != "" && !IsSpace(more[0])
    ensures SkipSpace((Comma(style) + more)[1..]) == SkipSpace(more)
    ensures SkipSpace((Colon(style) + more)[1..]) == SkipSpace(more)
  {
    if style.spaced {
      assert (Comma(style) + more)[1..] == " " + more == (Colon(style) + more)[1..];
      assert (" " + more)[1..] == more;
    } else {
      assert (Comma(style) + more)[1..] == more == (Colon(style) + more)[1..];
    }
  }

  /** How the parser reads one member whose key and value it reads as `key` and `value`. */
  lemma MemberStep(s: string, key: string, afterKey: string, value: Json, follow: string)
    requires s != "" && s[0] == '\"' && ParseChars(s[1..]) == Got(key, afterKey)
    requires afterKey != "" && afterKey[0] == ':' && ParseValue(afterKey[1..]) == Got(value, follow)
    requires follow != "" && (follow[0] == '}' || follow[0] == ',')
    ensures ParseMembers(s) ==
      if follow[0] == '}' then Got(Member(key, value, NoMembers), follow[1..])
      else match ParseMembers(follow[1..])
        case Fail => Fail
        case Got(members, last) => Got(Member(key, value, members), last)
  {
    assert SkipSpace(s) == s && SkipSpace(afterKey) == afterKey && SkipSpace(follow) == follow;
  }

  lemma {:induction false} MembersRoundTrip(style: Style, members: Members, tail: string)
    requires MembersWellFormed(members) && members.Member?
    ensures (PrintMembers(style, members) + tail)[0] == '\"'
    ensures ParseMembers(PrintMembers(style, members) + tail) == Got(members, tail)
    decreases members, 1
  {
    var Member(key, value, rest) := members;
    var more := PrintMembers(style, rest) + tail;
    var follow := if rest.NoMembers? then "}" + tail else Comma(style) + more;
    var pair := Print(style, value) + follow;
    PrintStart(style, value);
    PrintMembersShape(style, members, tail);
    QuotedRoundTrip(style, key, Colon(style) + pair);
    LeadingSpace(style, pair);
    ValueRoundTrip(style, value, follow);
    MemberStep(Quoted(style, key) + (Colon(style) + pair), key, Colon(style) + pair, value, follow);
    if rest.NoMembers? {
      assert follow[1..] == tail;
    } else {
      MembersRoundTrip(style, rest, tail);
      LeadingSpace(style, more);
    }
  }

  lemma PrintMembersShape(style: Style, members: Members, tail: string)
    requires members.Member?
    ensures PrintMembers(style, members) + tail ==
      Quoted(style, members.key) + (Colon(style) + (Print(style, members.value) +
        (if members.rest.NoMembers? then "}" + tail
         else Comma(style) + (PrintMembers(style, members.rest) + tail))))
  {
  }

  lemma {:induction false} DictOfDistinct(members: Members)
    requires MembersWellFormed(members)
    ensures Dict(members) == members
  {
    if members.Member? { DictOfDistinct(members.rest); }
  }

  /** The parser undoes the printer, in every style. */
  lemma LoadsUndoesPrint(style: Style, v: Json)
    requires WellFormed(v)
    ensures Loads(Print(style, v)) == Some(v)
  {
    ValueRoundTrip(style, v, "");
    assert Print(style, v) + "" == Print(style, v);
  }

  // ----- what the parser yields is well formed -----

  lemma {:induction false} WithoutDistinct(members: Members, key: string)
    requires MembersWellFormed(members)
    ensures MembersWellFormed(Without(members, key)) && Keys(Without(members, key)) == Keys(members) - {key}
    ensures Find(members, key).Some? ==> WellFormed(Find(members, key).value)
  {
    if members.Member? && members.key != key {
      WithoutDistinct(members.rest, key);
    }
  }

  predicate ValuesWellFormed(members: Members) {
    members.Member? ==> WellFormed(members.value) && ValuesWellFormed(members.rest)
  }

  lemma {:induction false} DictDistinct(members: Members)
    requires ValuesWellFormed(members)
    ensures MembersWellFormed(Dict(members))
  {
    if members.Member? {
      DictDistinct(members.rest);
      WithoutDistinct(Dict(members.rest), members.key);
    }
  }

  lemma {:induction false} ParseValueWellFormed(s: string)
    ensures ParseValue(s).Got? ==> WellFormed(ParseValue(s).value)
    decreases |s|, 1
  {
    var t := SkipSpace(s);
    if t != "" && t[0] == '[' {
      ParseItemsWellFormed(t[1..]);
    } else if t != "" && t[0] == '{' {
      ParseMembersWellFormed(t[1..]);
      if ParseMembers(t[1..]).Got? { DictDistinct(ParseMembers(t[1..]).value); }
    }
  }

  lemma {:induction false} ParseItemsWellFormed(s: string)
    ensures ParseItems(s).Got? ==> ItemsWellFormed(ParseItems(s).value)
    decreases |s|, 2
  {
    ParseValueWellFormed(s);
    if ParseItems(s).Got? {
      var t := SkipSpace(ParseValue(s).rest);
      if t[0] != ']' { ParseItemsWellFormed(t[1..]); }
    }
  }

  lemma {:induction false} ParseMembersWellFormed(s: string)
    ensures ParseMembers(s).Got? ==> ValuesWellFormed(ParseMembers(s).value)
    decreases |s|, 2
  {
    if ParseMembers(s).Got? {
      var c := SkipSpace(ParseChars(SkipSpace(s)[1..]).rest);
      ParseValueWellFormed(c[1..]);
      var t := SkipSpace(ParseValue(c[1..]).rest);
      if t[0] != '}' { ParseMembersWellFormed(t[1..]); }
    }
  }

  lemma LoadsWellFormed(s: string)
    requires Loads(s).Some?
    ensures WellFormed(Loads(s).value)
  {
    ParseValueWellFormed(s);
  }

  // ----- sorting keeps the meaning and is unique -----

  lemma {:induction false} KeysOfMeaning(members: Members)
    ensures MembersMeaning(members).Keys == Keys(members)
  {
    if members.Member? { KeysOfMeaning(members.rest); }
  }

  lemma {:induction false} InsertKeys(key: string, value: Json, members: Members)
    ensures Keys(Insert(key, value, members)) == Keys(members) + {key}
  {
    if members.Member? && !Before(key, members.key) {
      InsertKeys(key, value, members.rest);
    }
  }

  lemma AddSecond(first: map<string, Meaning>, m: map<string, Meaning>, key: string, value: Meaning)
    ensures first + m[key := value] == (first + m)[key := value]
  {
  }

  lemma {:induction false} InsertMeaning(key: string, value: Json, members: Members)
    requires key !in Keys(members)
    ensures MembersMeaning(Insert(key, value, members)) == MembersMeaning(members)[key := MeaningOf(value)]
  {
    KeysOfMeaning(members);
    if members.NoMembers? || Before(key, members.key) {
      assert MembersMeaning(Insert(key, value, members)) == map[key := MeaningOf(value)] + MembersMeaning(members);
    } else {
      InsertMeaning(key, value, members.rest);
      AddSecond(map[members.key := MeaningOf(members.value)], MembersMeaning(members.rest), key, MeaningOf(value));
    }
  }

  lemma {:induction false} InsertKeeps(key: string, value: Json, members: Members)
    requires MembersWellFormed(members) && MembersInOrder(members) && key !in Keys(members)
    requires WellFormed(value) && InOrder(value)
    ensures MembersWellFormed(Insert(key, value, members)) && MembersInOrder(Insert(key, value, members))
  {
    if members.NoMembers? {
    } else if Before(key, members.key) {
      forall k | k in Keys(members.rest) ensures Before(key, k) {
        BeforeTransitive(key, members.key, k);
      }
    } else {
      BeforeTotal(key, members.key);
      InsertKeeps(key, value, members.rest);
      InsertKeys(key, value, members.rest);
    }
  }

  lemma {:induction false} SortedKeeps(v: Json)
    requires WellFormed(v)
    ensures WellFormed(Sorted(v)) && InOrder(Sorted(v)) && MeaningOf(Sorted(v)) == MeaningOf(v)
    decreases v, 0
  {
    match v
    case Arr(items) => SortedItemsKeeps(items);
    case Obj(members) => SortedMembersKeeps(members);
    case _ =>
  }

  lemma {:induction false} SortedItemsKeeps(items: Items)
    requires ItemsWellFormed(items)
    ensures ItemsWellFormed(SortedItems(items)) && ItemsInOrder(SortedItems(items))
    ensures ItemsMeaning(SortedItems(items)) == ItemsMeaning(items)
    decreases items, 0
  {
    if items.Item? {
      SortedKeeps(items.head);
      SortedItemsKeeps(items.tail);
    }
  }

  lemma AddFirst(key: string, value: Meaning, m: map<string, Meaning>)
    requires key !in m
    ensures m[key := value] == map[key := value] + m
  {
  }

  lemma {:induction false} SortedMembersKeeps(members: Members)
    requires MembersWellFormed(members)
    ensures var r := SortedMembers(members);
      MembersWellFormed(r) && MembersInOrder(r) && Keys(r) == Keys(members) && MembersMeaning(r) == MembersMeaning(members)
    decreases members, 0
  {
    if members.Member? {
      SortedKeeps(members.value);
      SortedMembersKeeps(members.rest);
      InsertKeeps(members.key, Sorted(members.value), SortedMembers(members.rest));
      InsertKeys(members.key, Sorted(members.value), SortedMembers(members.rest));
      InsertMeaning(members.key, Sorted(members.value), SortedMembers(members.rest));
      KeysOfMeaning(members.rest);
      AddFirst(members.key, MeaningOf(members.value), MembersMeaning(members.rest));
    }
  }

  /** Only one value in key order has a given meaning. */
  lemma {:induction false} OrderedUnique(a: Json, b: Json)
    requires WellFormed(a) && WellFormed(b) && InOrder(a) && InOrder(b)
    requires MeaningOf(a) == MeaningOf(b)
    ensures a == b
    decreases a, 0
  {
    match a
    case Arr(items) => OrderedItemsUnique(items, b.items);
    case Obj(members) => OrderedMembersUnique(members, b.members);
    case _ =>
  }

  lemma {:induction false} OrderedItemsUnique(a: Items, b: Items)
    requires ItemsWellFormed(a) && ItemsWellFormed(b) && ItemsInOrder(a) && ItemsInOrder(b)
    requires ItemsMeaning(a) == ItemsMeaning(b)
    ensures a == b
    decreases a, 0
  {
    if a.Item? {
      assert ItemsMeaning(a)[0] == MeaningOf(a.head) && ItemsMeaning(b)[0] == MeaningOf(b.head);
      assert ItemsMeaning(a)[1..] == ItemsMeaning(a.tail) && ItemsMeaning(b)[1..] == ItemsMeaning(b.tail);
      OrderedUnique(a.head, b.head);
      OrderedItemsUnique(a.tail, b.tail);
    }
  }

  lemma {:induction false} OrderedMembersUnique(a: Members, b: Members)
    requires MembersWellFormed(a) && MembersWellFormed(b) && MembersInOrder(a) && MembersInOrder(b)
    requires MembersMeaning(a) == MembersMeaning(b)
    ensures a == b
    decreases a, 0
  {
    KeysOfMeaning(a);
    KeysOfMeaning(b);
    if a.Member? {
      assert a.key in Keys(b);
      assert b.key in Keys(a);
      if a.key != b.key {
        BeforeTransitive(a.key, b.key, a.key);
        BeforeIrreflexive(a.key);
      }
      KeysOfMeaning(a.rest);
      KeysOfMeaning(b.rest);
      assert MembersMeaning(a)[a.key] == MeaningOf(a.value) && MembersMeaning(b)[a.key] == MeaningOf(b.value);
      OrderedUnique(a.value, b.value);
      assert MembersMeaning(a.rest) == MembersMeaning(a) - {a.key};
      assert MembersMeaning(b.rest) == MembersMeaning(b) - {a.key};
      OrderedMembersUnique(a.rest, b.rest);
    }
  }

  // ----- the canonical text -----

  /** Two values have one canonical text exactly when they mean the same: key order at no depth
      matters, and nothing else is lost. */
  lemma CanonicalIffSameMeaning(a: Json, b: Json)
    requires WellFormed(a) && WellFormed(b)
    ensures Dumps(a) == Dumps(b) <==> MeaningOf(a) == MeaningOf(b)
  {
    SortedKeeps(a);
    SortedKeeps(b);
    if Dumps(a) == Dumps(b) {
      LoadsUndoesPrint(COMPACT, Sorted(a));
      LoadsUndoesPrint(COMPACT, Sorted(b));
    }
    if MeaningOf(a) == MeaningOf(b) {
      OrderedUnique(Sorted(a), Sorted(b));
    }
  }

  lemma {:induction false} EscapePrintable(x: string)
    ensures Printable(Escape(COMPACT, x))
  {
    if x != "" { EscapePrintable(x[1..]); }
  }

  predicate Printable(s: string) { forall i :: 0 <= i < |s| ==> ' ' <= s[i] <= '~' }

  /** The canonical text is printable ASCII, so it never holds a raw newline. */
  lemma {:induction false} PrintPrintable(v: Json)
    ensures Printable(Print(COMPACT, v))
    decreases v, 0
  {
    match v
    case Str(x) => EscapePrintable(x);
    case Arr(items) => PrintItemsPrintable(items);
    case Obj(members) => PrintMembersPrintable(members);
    case _ =>
  }

  lemma {:induction false} PrintItemsPrintable(items: Items)
    ensures Printable(PrintItems(COMPACT, items))
    decreases items, 0
  {
    if items.Item? {
      PrintPrintable(items.head);
      PrintItemsPrintable(items.tail);
    }
  }

  lemma {:induction false} PrintMembersPrintable(members: Members)
    ensures Printable(PrintMembers(COMPACT, members))
    decreases members, 0
  {
    if members.Member? {
      EscapePrintable(members.key);
      PrintPrintable(members.value);
      PrintMembersPrintable(members.rest);
    }
  }

  /** Every character as Python escapes it: a letter after a backslash where there is one, itself if printable, and
      four lower-case hexadecimal digits for each UTF-16 unit otherwise. */
  lemma EscapesAsPython(c: char)
    ensures var s := EscapeChar(COMPACT, c);
      if c == '\"' then s == "\\\"" else if c == '\\' then s == "\\\\"
      else if c == '\n' then s == "\\n" else if c == '\r' then s == "\\r" else if c == '\t' then s == "\\t"
      else if c as int == 8 then s == "\\b" else if c as int == 12 then s == "\\f"
      else if ' ' <= c <= '~' then s == [c]
      else if c as int < 0x10000 then IsUnicodeEscape(s) else |s| == 12 && IsUnicodeEscape(s[..6]) && IsUnicodeEscape(s[6..])
  {
    var n := c as int;
    if n >= 0x10000 {
      LowerCaseDigits(0xD800 + (n - 0x10000) / 0x400);
      LowerCaseDigits(0xDC00 + (n - 0x10000) % 0x400);
    } else {
      LowerCaseDigits(n);
    }
  }

  lemma LowerCaseDigits(code: nat)
    requires code < 0x10000
    ensures IsUnicodeEscape(UnicodeEscape(code))
  {
    var s, a := UnicodeEscape(code), code / 16;
    HexLower(a / 16 / 16);
    HexLower(a / 16 % 16);
    HexLower(a % 16);
    HexLower(code % 16);
  }

  lemma HexLower(d: nat)
    requires d < 16
    ensures IsDigit(HexChar(d)) || 'a' <= HexChar(d) <= 'f'
  {
  }

  predicate IsUnicodeEscape(s: string) {
    |s| == 6 && s[0] == '\\' && s[1] == 'u' && forall i :: 2 <= i < 6 ==> IsDigit(s[i]) || 'a' <= s[i] <= 'f'
  }

  // ----- no padding -----

  /** No key and no string of the value holds a space. */
  predicate Spaceless(v: Json) {
    match v
    case Str(x) => ' ' !in x
    case Arr(items) => ItemsSpaceless(items)
    case Obj(members) => MembersSpaceless(members)
    case _ => true
  }

  predicate ItemsSpaceless(items: Items) { items.Item? ==> Spaceless(items.head) && ItemsSpaceless(items.tail) }

  predicate MembersSpaceless(members: Members) {
    members.Member? ==> ' ' !in members.key && Spaceless(members.value) && MembersSpaceless(members.rest)
  }

  lemma {:induction false} EscapeAddsNoSpace(x: string)
    requires ' ' !in x
    ensures ' ' !in Escape(COMPACT, x)
  {
    if x != "" {
      CharAddsNoSpace(x[0]);
      EscapeAddsNoSpace(x[1..]);
    }
  }

  lemma CharAddsNoSpace(c: char)
    requires c != ' '
    ensures ' ' !in EscapeChar(COMPACT, c)
  {
    var s := EscapeChar(COMPACT, c);
    EscapesAsPython(c);
    if c as int >= 0x10000 {
      assert s == s[..6] + s[6..];
    }
  }

  /** So the canonical text holds a space only where the document does: `separators=(",", ":")`. */
  lemma {:induction false} CompactHasNoPadding(v: Json)
    requires Spaceless(v)
    ensures ' ' !in Print(COMPACT, v)
    decreases v, 0
  {
    match v
    case Int(n) => assert AllDigits(if n < 0 then IntText(n)[1..] else IntText(n));
    case Str(x) => EscapeAddsNoSpace(x);
    case Arr(items) => ItemsHaveNoPadding(items);
    case Obj(members) => MembersHaveNoPadding(members);
    case _ =>
  }

  lemma {:induction false} ItemsHaveNoPadding(items: Items)
    requires ItemsSpaceless(items)
    ensures ' ' !in PrintItems(COMPACT, items)
    decreases items, 0
  {
    if items.Item? {
      CompactHasNoPadding(items.head);
      ItemsHaveNoPadding(items.tail);
    }
  }

  lemma {:induction false} MembersHaveNoPadding(members: Members)
    requires MembersSpaceless(members)
    ensures ' ' !in PrintMembers(COMPACT, members)
    decreases members, 0
  {
    if members.Member? {
      EscapeAddsNoSpace(members.key);
      CompactHasNoPadding(members.value);
      MembersHaveNoPadding(members.rest);
    }
  }

  // ----- what the parser refuses, and repeated keys -----

  /** The white space of section 2 of RFC 8259. */
  predicate Blank(s: string) { forall i :: 0 <= i < |s| ==> s[i] == ' ' || s[i] == '\t' || s[i] == '\n' || s[i] == '\r' }

  lemma {:induction false} SkipBlank(blank: string, s: string)
    requires Blank(blank)
    ensures SkipSpace(blank + s) == SkipSpace(s)
  {
    if blank == "" {
      assert blank + s == s;
    } else {
      SkipBlank(blank[1..], s);
      assert (blank + s)[1..] == blank[1..] + s;
    }
  }

  lemma {:induction false} SkipsAllIff(s: string)
    ensures SkipSpace(s) == "" <==> Blank(s)
  {
    if s != "" {
      SkipsAllIff(s[1..]);
      assert forall i :: 1 <= i < |s| ==> s[i] == s[1..][i - 1];
    }
  }

  /** White space around a text changes nothing, and anything else after it is refused. */
  lemma SurroundedText(style: Style, v: Json, before: string, after: string)
    requires WellFormed(v) && Blank(before) && Boundary(after)
    ensures Loads(before + Print(style, v) + after) == if Blank(after) then Some(v) else None
  {
    var s := Print(style, v) + after;
    ValueRoundTrip(style, v, after);
    SkipBlank(before, s);
    SpaceIgnored(before + s, s);
    assert before + Print(style, v) + after == before + s;
    SkipsAllIff(after);
  }

  /** The value a list of members last gives a key. */
  function LastValue(members: Members, key: string): Option<Json> {
    if members.NoMembers? then None
    else if LastValue(members.rest, key).Some? then LastValue(members.rest, key)
    else if members.key == key then Some(members.value) else None
  }

  /** A repeated key has its last value. */
  lemma {:induction false} LastValueWins(members: Members, key: string)
    ensures Find(Dict(members), key) == LastValue(members, key)
  {
    if members.Member? {
      LastValueWins(members.rest, key);
      LastValueWins(members.rest, members.key);
      if Find(Dict(members.rest), members.key).Some? && key != members.key {
        WithoutKeeps(Dict(members.rest), members.key, key);
      }
    }
  }

  lemma {:induction false} WithoutKeeps(members: Members, gone: string, key: string)
    requires key != gone
    ensures Find(Without(members, gone), key) == Find(members, key)
  {
    if members.Member? { WithoutKeeps(members.rest, gone, key); }
  }
}
