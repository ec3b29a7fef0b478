/**
 Timestamps as audit/record_integrity.py treats them: `to_naive_utc`, the half-up rounding to
 whole seconds, and the ISO-8601 text. Times are microseconds since 0001-01-01T00:00:00.
 */
module Timestamps {
  import opened Wrappers
  import opened Decimal

  const SECOND := 1_000_000
  const DAY := 86_400 * SECOND
  const LAST_YEAR := 9999

  /** The first instant after `datetime.max`. */
  const CALENDAR_END := DaysBeforeYear(LAST_YEAR + 1) * DAY

  /** A Python datetime: its wall clock and, when aware, its UTC offset. */
  datatype Datetime = Datetime(wall: int, offset: Option<int>)

  predicate InCalendar(u: int) { 0 <= u < CALENDAR_END }

  predicate IsDatetime(t: Datetime) {
    InCalendar(t.wall) && (t.offset.Some? ==> -DAY < t.offset.value < DAY)
  }

  /** The UTC instant a datetime names, a naive one being UTC. */
  function InstantOf(t: Datetime): int { if t.offset.None? then t.wall else t.wall - t.offset.value }

  /** `to_naive_utc`; None when the conversion leaves the calendar and Python raises. */
  function ToNaiveUtc(t: Datetime): (u: Option<int>)
    requires IsDatetime(t)
    ensures u.Some? ==> u.value == InstantOf(t)
    ensures u.Some? <==> InCalendar(InstantOf(t))
  {
    match t.offset
    case None => Some(t.wall)
    case Some(offset) => if InCalendar(t.wall - offset) then Some(t.wall - offset) else None
  }

  /** The rounding in `_canonical_message`: drop the microseconds, add a second from .5 on.
      None when that second is past the end of the calendar. */
  function RoundToSecond(u: int): (r: Option<int>)
    requires InCalendar(u)
    ensures r.Some? ==> InCalendar(r.value) && r.value % SECOND == 0
    ensures r.Some? ==> r.value - SECOND / 2 <= u < r.value + SECOND / 2
    ensures r.Some? <==> u < CALENDAR_END - SECOND / 2
  {
    var microsecond := u % SECOND;
    var whole := u - microsecond;
    var rounded := if microsecond >= 500_000 then whole + SECOND else whole;
    if InCalendar(rounded) then Some(rounded) else None
  }

  /** How a DATETIME column keeps an instant: MySQL rounds half up, other stores may not round. */
  datatype Store = RoundsHalfUp | KeepsMicroseconds

  function Stored(store: Store, u: int): int {
    if store.RoundsHalfUp? then (u + SECOND / 2) / SECOND * SECOND else u
  }

  /** What a column hands back rounds to the same second as what was written, in either store. */
  lemma StoredRoundsAlike(store: Store, u: int)
    requires InCalendar(u) && RoundToSecond(u).Some?
    ensures InCalendar(Stored(store, u))
    ensures RoundToSecond(Stored(store, u)) == RoundToSecond(u)
    ensures Stored(store, u) == if store.RoundsHalfUp? then RoundToSecond(u).value else u
  {
    var q, r := u / SECOND, u % SECOND;
    assert u == q * SECOND + r;
    if store.RoundsHalfUp? {
      if r >= SECOND / 2 {
        assert (u + SECOND / 2) / SECOND == q + 1;
      } else {
        assert (u + SECOND / 2) / SECOND == q;
      }
    }
  }

  // ----- the calendar -----

  predicate IsLeap(y: nat) { y % 4 == 0 && (y % 100 != 0 || y % 400 == 0) }

  function DaysInYear(y: nat): nat { if IsLeap(y) then 366 else 365 }

  function DaysBeforeYear(y: nat): nat
    requires y >= 1
  {
    (y - 1) * 365 + (y - 1) / 4 - (y - 1) / 100 + (y - 1) / 400
  }

  function DaysInMonth(leap: bool, m: nat): nat {
    if m == 2 then (if leap then 29 else 28)
    else if m in {4, 6, 9, 11} then 30
    else 31
  }

  /** The year that holds day `d` counted from the start of year `y`, and the day within it. */
  function YearOf(y: nat, d: nat): (r: (nat, nat))
    requires y >= 1
    ensures r.0 >= 1 && r.1 < DaysInYear(r.0)
    ensures DaysBeforeYear(r.0) + r.1 == DaysBeforeYear(y) + d
    decreases d
  {
    if d < DaysInYear(y) then (y, d)
    else
      NextYear(y);
      YearOf(y + 1, d - DaysInYear(y))
  }

  lemma Quotients(y: nat)
    requires y >= 1
    ensures y / 4 == (y - 1) / 4 + if y % 4 == 0 then 1 else 0
    ensures y / 100 == (y - 1) / 100 + if y % 100 == 0 then 1 else 0
    ensures y / 400 == (y - 1) / 400 + if y % 400 == 0 then 1 else 0
  {
  }

  lemma Centuries(y: nat)
    ensures y % 100 == 0 ==> y % 4 == 0
    ensures y % 400 == 0 ==> y % 100 == 0
  {
    if y % 100 == 0 { assert y == 4 * (25 * (y / 100)); }
    if y % 400 == 0 { assert y == 100 * (4 * (y / 400)); }
  }

  lemma NextYear(y: nat)
    requires y >= 1
    ensures DaysBeforeYear(y + 1) == DaysBeforeYear(y) + DaysInYear(y)
  {
    Quotients(y);
    Centuries(y);
    assert DaysBeforeYear(y + 1) == y * 365 + y / 4 - y / 100 + y / 400;
  }

  lemma DaysBeforeYearMonotone(a: nat, b: nat)
    requires 1 <= a <= b
    ensures DaysBeforeYear(a) <= DaysBeforeYear(b)
  {
  }

  function DaysBeforeMonth(leap: bool, m: nat): nat
    requires 1 <= m <= 13
  {
    if m == 1 then 0 else DaysBeforeMonth(leap, m - 1) + DaysInMonth(leap, m - 1)
  }

  /** The month that holds day `d` counted from the start of month `m`, and the day within it. */
  function MonthOf(leap: bool, m: nat, d: nat): (r: (nat, nat))
    requires 1 <= m <= 12 && d < DaysBeforeMonth(leap, 13) - DaysBeforeMonth(leap, m)
    ensures m <= r.0 <= 12 && r.1 < DaysInMonth(leap, r.0)
    ensures DaysBeforeMonth(leap, r.0) + r.1 == DaysBeforeMonth(leap, m) + d
    decreases 12 - m
  {
    if m == 12 || d < DaysInMonth(leap, m) then (m, d) else MonthOf(leap, m + 1, d - DaysInMonth(leap, m))
  }

  datatype Civil = Civil(year: nat, month: nat, day: nat, hour: nat, minute: nat, second: nat)

  function Instant(c: Civil): int
    requires c.year >= 1 && 1 <= c.month <= 12 && c.day >= 1
  {
    (DaysBeforeYear(c.year) + DaysBeforeMonth(IsLeap(c.year), c.month) + c.day - 1) * DAY
    + (c.hour * 3600 + c.minute * 60 + c.second) * SECOND
  }

  lemma MonthsFillYear(leap: bool)
    ensures DaysBeforeMonth(leap, 13) == if leap then 366 else 365
    ensures var d := if leap then 1 else 0;
      && DaysBeforeMonth(leap, 2) == 31 && DaysBeforeMonth(leap, 3) == 59 + d && DaysBeforeMonth(leap, 4) == 90 + d
      && DaysBeforeMonth(leap, 5) == 120 + d && DaysBeforeMonth(leap, 6) == 151 + d && DaysBeforeMonth(leap, 7) == 181 + d
      && DaysBeforeMonth(leap, 8) == 212 + d && DaysBeforeMonth(leap, 9) == 243 + d && DaysBeforeMonth(leap, 10) == 273 + d
      && DaysBeforeMonth(leap, 11) == 304 + d && DaysBeforeMonth(leap, 12) == 334 + d
  {
    assert DaysBeforeMonth(leap, 3) == DaysBeforeMonth(leap, 1) + if leap then 60 else 59;
    assert DaysBeforeMonth(leap, 5) == DaysBeforeMonth(leap, 3) + 61;
    assert DaysBeforeMonth(leap, 7) == DaysBeforeMonth(leap, 5) + 61;
    assert DaysBeforeMonth(leap, 9) == DaysBeforeMonth(leap, 7) + 62;
    assert DaysBeforeMonth(leap, 11) == DaysBeforeMonth(leap, 9) + 61;
    assert DaysBeforeMonth(leap, 13) == DaysBeforeMonth(leap, 11) + 61;
  }

  /** The day of the calendar that is `days` after its first, as year, month and day of month. */
  function DateOf(days: nat): (r: (nat, nat, nat))
    requires days < DaysBeforeYear(LAST_YEAR + 1)
    ensures 1 <= r.0 <= LAST_YEAR && 1 <= r.1 <= 12 && 1 <= r.2 <= 31
    ensures DaysBeforeYear(r.0) + DaysBeforeMonth(IsLeap(r.0), r.1) + r.2 - 1 == days
  {
    var (year, dayOfYear) := YearOf(1, days);
    assert year <= LAST_YEAR by {
      if year > LAST_YEAR { DaysBeforeYearMonotone(LAST_YEAR + 1, year); }
    }
    MonthsFillYear(IsLeap(year));
    var (month, day) := MonthOf(IsLeap(year), 1, dayOfYear);
    (year, month, day + 1)
  }

  lemma ClockParts(u: int)
    requires 0 <= u && u % SECOND == 0
    ensures var s := u % DAY / SECOND;
      0 <= s < 86_400 && u == u / DAY * DAY + (s / 3600 * 3600 + s / 60 % 60 * 60 + s % 60) * SECOND
  {
    var r := u % DAY;
    assert u == u / DAY * DAY + r;
    assert r % SECOND == 0 by { assert u % SECOND == (u / DAY * 86_400 * SECOND + r) % SECOND; }
    var s := r / SECOND;
    assert r == s * SECOND;
    assert s / 60 / 60 == s / 3600;
  }

  /** The calendar fields of a whole second; they determine it. */
  function CivilOf(u: int): (c: Civil)
    requires InCalendar(u) && u % SECOND == 0
    ensures 1 <= c.year <= LAST_YEAR && 1 <= c.month <= 12 && 1 <= c.day <= 31
    ensures c.hour < 24 && c.minute < 60 && c.second < 60
    ensures Instant(c) == u
  {
    ClockParts(u);
    var (year, month, day) := DateOf(u / DAY);
    var s := u % DAY / SECOND;
    Civil(year, month, day, s / 3600, s / 60 % 60, s % 60)
  }

  // ----- the text -----

  /** `isoformat()` of a naive datetime with no microseconds. */
  function IsoFormat(u: int): (s: string)
    requires InCalendar(u) && u % SECOND == 0
    ensures |s| == 19
  {
    var c := CivilOf(u);
    Padded(c.year, 4) + "-" + Padded(c.month, 2) + "-" + Padded(c.day, 2)
    + "T" + Padded(c.hour, 2) + ":" + Padded(c.minute, 2) + ":" + Padded(c.second, 2)
  }

  /** The fixed-width fields of `a-b-cTd:e:f`. */
  lemma Columns(a: string, b: string, c: string, d: string, e: string, f: string)
    requires |a| == 4 && |b| == |c| == |d| == |e| == |f| == 2
    ensures var s := a + "-" + b + "-" + c + "T" + d + ":" + e + ":" + f;
      && s[0..4] == a && s[5..7] == b && s[8..10] == c && s[11..13] == d && s[14..16] == e && s[17..19] == f
      && s[4] == '-' && s[7] == '-' && s[10] == 'T' && s[13] == ':' && s[16] == ':'
  {
    var s := a + "-" + b + "-" + c + "T" + d + ":" + e + ":" + f;
    assert s[0..4] == a && s[5..7] == b && s[8..10] == c;
    assert s[11..13] == d && s[14..16] == e && s[17..19] == f;
  }

  /** The text is `YYYY-MM-DDTHH:MM:SS`. */
  lemma IsoFormatParts(u: int)
    requires InCalendar(u) && u % SECOND == 0
    ensures var s, c := IsoFormat(u), CivilOf(u);
      && ReadNat(s[0..4]) == c.year && ReadNat(s[5..7]) == c.month && ReadNat(s[8..10]) == c.day
      && ReadNat(s[11..13]) == c.hour && ReadNat(s[14..16]) == c.minute && ReadNat(s[17..19]) == c.second
      && s[4] == '-' && s[7] == '-' && s[10] == 'T' && s[13] == ':' && s[16] == ':'
    ensures var s, c := IsoFormat(u), CivilOf(u);
      && s[0..4] == Padded(c.year, 4) && s[5..7] == Padded(c.month, 2) && s[8..10] == Padded(c.day, 2)
      && s[11..13] == Padded(c.hour, 2) && s[14..16] == Padded(c.minute, 2) && s[17..19] == Padded(c.second, 2)
  {
    var c := CivilOf(u);
    Columns(Padded(c.year, 4), Padded(c.month, 2), Padded(c.day, 2), Padded(c.hour, 2), Padded(c.minute, 2), Padded(c.second, 2));
    assert PowerOfTen(2) == 100 && PowerOfTen(4) == 10_000;
    ReadPadded(c.year, 4);
    ReadPadded(c.month, 2);
    ReadPadded(c.day, 2);
    ReadPadded(c.hour, 2);
    ReadPadded(c.minute, 2);
    ReadPadded(c.second, 2);
  }

  lemma PaddedInjective(a: nat, b: nat, w: nat)
    requires a < PowerOfTen(w) && b < PowerOfTen(w) && Padded(a, w) == Padded(b, w)
    ensures a == b
  {
    ReadPadded(a, w);
    ReadPadded(b, w);
  }

  /** Two whole seconds with one text are one instant. */
  lemma IsoFormatInjective(u: int, v: int)
    requires InCalendar(u) && u % SECOND == 0 && InCalendar(v) && v % SECOND == 0
    requires IsoFormat(u) == IsoFormat(v)
    ensures u == v
  {
    var a, b := CivilOf(u), CivilOf(v);
    IsoFormatParts(u);
    IsoFormatParts(v);
    assert PowerOfTen(2) == 100 && PowerOfTen(4) == 10_000;
    PaddedInjective(a.year, b.year, 4);
    PaddedInjective(a.month, b.month, 2);
    PaddedInjective(a.day, b.day, 2);
    PaddedInjective(a.hour, b.hour, 2);
    PaddedInjective(a.minute, b.minute, 2);
    PaddedInjective(a.second, b.second, 2);
  }

  lemma IsoFormatOneLine(u: int)
    requires InCalendar(u) && u % SECOND == 0
    ensures '\n' !in IsoFormat(u)
  {
    var c := CivilOf(u);
    forall i | 0 <= i < 19 ensures IsoFormat(u)[i] != '\n' {
      assert AllDigits(Padded(c.year, 4)) && AllDigits(Padded(c.month, 2)) && AllDigits(Padded(c.day, 2));
    }
  }

  /** The timestamp text of the canonical message; None when Python raises. The legacy form
      carries the suffix of an aware UTC datetime. */
  function CanonicalTime(t: Datetime, legacy: bool): Option<string>
    requires IsDatetime(t)
  {
    match ToNaiveUtc(t)
    case None => None
    case Some(u) =>
      match RoundToSecond(u)
      case None => None
      case Some(whole) => Some(if legacy then IsoFormat(whole) + "+00:00" else IsoFormat(whole))
  }
}
