/** Python's `datetime` as the scrapers use it: the proleptic Gregorian
    calendar, conversion of an aware or naive value to UTC (`astimezone`),
    and the fixed-width subsets of the library parsers the scripts call
    (`email.utils.parsedate_to_datetime`, `datetime.strptime`,
    `datetime.fromisoformat`). */
module Dates {
  import opened Common

  /** A `datetime.datetime`; `offset` is the UTC offset in minutes, `None`
      for a naive value. */
  datatype DateTime = DateTime(year: int, month: int, day: int,
                               hour: int, minute: int, second: int,
                               offset: Option<int>)

  /** A calendar date, unbounded above so that the day after 9999-12-31 can
      be named. */
  datatype Date = Date(y: int, m: int, d: int)

  const MinYear: int := 1
  const MaxYear: int := 9999

  /** Minutes in a day: every UTC offset lies strictly within one day. */
  const DayMinutes: int := 1440

  // ---------------------------------------------------------------------
  // Calendar

  predicate IsLeap(y: int) {
    y % 4 == 0 && (y % 100 != 0 || y % 400 == 0)
  }

  function DaysInMonth(y: int, m: int): (n: int)
    requires 1 <= m <= 12
    ensures 28 <= n <= 31
  {
    if m == 2 then (if IsLeap(y) then 29 else 28)
    else if m == 4 || m == 6 || m == 9 || m == 11 then 30
    else 31
  }

  predicate ValidDate(x: Date) {
    1 <= x.y && 1 <= x.m <= 12 && 1 <= x.d <= DaysInMonth(x.y, x.m)
  }

  predicate ValidOffset(o: Option<int>) {
    o.None? || -DayMinutes < o.value < DayMinutes
  }

  /** The range checks of the `datetime` and `timezone` constructors. */
  predicate Valid(t: DateTime) {
    && MinYear <= t.year <= MaxYear
    && ValidDate(Date(t.year, t.month, t.day))
    && 0 <= t.hour < 24 && 0 <= t.minute < 60 && 0 <= t.second < 60
    && ValidOffset(t.offset)
  }

  function DaysBeforeYear(y: int): int
    requires 1 <= y
  {
    var p := y - 1;
    365 * p + p / 4 - p / 100 + p / 400
  }

  function DaysBeforeMonth(y: int, m: int): int
    requires 1 <= m <= 12
  {
    if m == 1 then 0 else DaysBeforeMonth(y, m - 1) + DaysInMonth(y, m - 1)
  }

  /** Days from 0001-01-01 to `x`. */
  function DayNumber(x: Date): int
    requires ValidDate(x)
  {
    DaysBeforeYear(x.y) + DaysBeforeMonth(x.y, x.m) + x.d - 1
  }

  /** Each of the leap-year divisors moves by one exactly at its multiples. */
  lemma DivSteps(y: int)
    requires 1 <= y
    ensures y / 4 - (y - 1) / 4 == if y % 4 == 0 then 1 else 0
    ensures y / 100 - (y - 1) / 100 == if y % 100 == 0 then 1 else 0
    ensures y / 400 - (y - 1) / 400 == if y % 400 == 0 then 1 else 0
  {
  }

  lemma MultipleFacts(y: int)
    ensures y % 400 == 0 ==> y % 100 == 0
    ensures y % 100 == 0 ==> y % 4 == 0
  {
    if y % 400 == 0 {
      var k := 4 * (y / 400);
      assert y == 100 * k;
    }
    if y % 100 == 0 {
      var k := 25 * (y / 100);
      assert y == 4 * k;
    }
  }

  lemma YearLength(y: int)
    requires 1 <= y
    ensures DaysBeforeYear(y + 1) == DaysBeforeYear(y) + (if IsLeap(y) then 366 else 365)
  {
    DivSteps(y);
    MultipleFacts(y);
    var a := y / 4 - (y - 1) / 4;
    var b := y / 100 - (y - 1) / 100;
    var c := y / 400 - (y - 1) / 400;
    assert DaysBeforeYear(y + 1) - DaysBeforeYear(y) == 365 + a - b + c;
  }

  lemma MonthsOfYear(y: int)
    ensures DaysBeforeMonth(y, 12) + DaysInMonth(y, 12) == if IsLeap(y) then 366 else 365
  {
    assert DaysBeforeMonth(y, 2) == 31;
    assert DaysBeforeMonth(y, 3) == 31 + DaysInMonth(y, 2);
    assert DaysBeforeMonth(y, 4) == 62 + DaysInMonth(y, 2);
    assert DaysBeforeMonth(y, 5) == 92 + DaysInMonth(y, 2);
    assert DaysBeforeMonth(y, 6) == 123 + DaysInMonth(y, 2);
    assert DaysBeforeMonth(y, 7) == 153 + DaysInMonth(y, 2);
    assert DaysBeforeMonth(y, 8) == 184 + DaysInMonth(y, 2);
    assert DaysBeforeMonth(y, 9) == 215 + DaysInMonth(y, 2);
    assert DaysBeforeMonth(y, 10) == 245 + DaysInMonth(y, 2);
    assert DaysBeforeMonth(y, 11) == 276 + DaysInMonth(y, 2);
    assert DaysBeforeMonth(y, 12) == 306 + DaysInMonth(y, 2);
  }

  /** The following day; it is exactly one day later. */
  function NextDay(x: Date): (r: Date)
    requires ValidDate(x)
    ensures ValidDate(r) && DayNumber(r) == DayNumber(x) + 1
    ensures r.y == x.y || (r.y == x.y + 1 && r.m == 1 && r.d == 1)
  {
    if x.d < DaysInMonth(x.y, x.m) then Date(x.y, x.m, x.d + 1)
    else if x.m < 12 then Date(x.y, x.m + 1, 1)
    else
      YearLength(x.y);
      MonthsOfYear(x.y);
      Date(x.y + 1, 1, 1)
  }

  /** The preceding day, for any day but 0001-01-01; it is exactly one day
      earlier. */
  function PrevDay(x: Date): (r: Date)
    requires ValidDate(x) && x != Date(1, 1, 1)
    ensures ValidDate(r) && DayNumber(r) + 1 == DayNumber(x)
    ensures r.y == x.y || r.y + 1 == x.y
  {
    if x.d > 1 then Date(x.y, x.m, x.d - 1)
    else if x.m > 1 then Date(x.y, x.m - 1, DaysInMonth(x.y, x.m - 1))
    else
      YearLength(x.y - 1);
      MonthsOfYear(x.y - 1);
      Date(x.y - 1, 12, 31)
  }

  // ---------------------------------------------------------------------
  // Instants and astimezone(timezone.utc)

  /** Seconds from 0001-01-01T00:00:00 UTC to the instant `t` denotes when
      read with UTC offset `off` minutes. */
  function Instant(t: DateTime, off: int): int
    requires ValidDate(Date(t.year, t.month, t.day))
  {
    DayNumber(Date(t.year, t.month, t.day)) * 86400
      + t.hour * 3600 + t.minute * 60 + t.second - off * 60
  }

  /** The offset `astimezone` reads `t` with: its own, or the host's local
      offset for a naive value. */
  function EffectiveOffset(t: DateTime, localOffset: int): int {
    match t.offset
    case Some(o) => o
    case None => localOffset
  }

  /** The first instant past year 9999 (10000-01-01T00:00:00 UTC). */
  function EndOfTime(): int {
    DaysBeforeYear(MaxYear + 1) * 86400
  }

  /** `t.astimezone(timezone.utc)`: the same instant written with offset 0,
      or `None` where Python raises `OverflowError` because the result
      falls outside years 1..9999. */
  function ToUtc(t: DateTime, localOffset: int): (r: Option<DateTime>)
    requires Valid(t) && -DayMinutes < localOffset < DayMinutes
    ensures r.Some? ==> Valid(r.value) && r.value.offset == Some(0)
    ensures r.Some? ==> Instant(r.value, 0) == Instant(t, EffectiveOffset(t, localOffset))
    ensures r.None? ==> var i := Instant(t, EffectiveOffset(t, localOffset));
                        i < 0 || EndOfTime() <= i
  {
    var off := EffectiveOffset(t, localOffset);
    var mins := t.hour * 60 + t.minute - off;
    var x := Date(t.year, t.month, t.day);
    if mins < 0 then
      if x == Date(1, 1, 1) then None
      else
        var p := PrevDay(x);
        var m := mins + DayMinutes;
        Some(DateTime(p.y, p.m, p.d, m / 60, m % 60, t.second, Some(0)))
    else if mins >= DayMinutes then
      var n := NextDay(x);
      var m := mins - DayMinutes;
      if n.y > MaxYear then
        assert n == Date(MaxYear + 1, 1, 1);
        None
      else
        Some(DateTime(n.y, n.m, n.d, m / 60, m % 60, t.second, Some(0)))
    else
      Some(DateTime(t.year, t.month, t.day, mins / 60, mins % 60, t.second, Some(0)))
  }

  // ---------------------------------------------------------------------
  // Fixed-width lexing. Every reader works on the whole string with an
  // index, so that the layouts of literal dates can be checked character
  // by character.

  predicate Fits(c: char, p: char) {
    if p == '9' then IsAsciiDigit(c) else p == '?' || c == p
  }

  /** From index `i` on, `s` follows the layout `pat` from its `k`-th
      character: an ASCII digit wherever `pat` has `9`, any character where
      it has `?`, the same character elsewhere. */
  predicate ShapeFrom(s: string, i: nat, pat: string, k: nat)
    decreases |pat| - k
  {
    k >= |pat| || (i + k < |s| && Fits(s[i + k], pat[k]) && ShapeFrom(s, i, pat, k + 1))
  }

  /** `s` holds the layout `pat` at index `i`. */
  predicate ShapeAt(s: string, i: nat, pat: string) {
    i + |pat| <= |s| && ShapeFrom(s, i, pat, 0)
  }

  /** `s` is exactly the layout `pat`. */
  predicate Shape(s: string, pat: string) {
    |s| == |pat| && ShapeFrom(s, 0, pat, 0)
  }

  /** The base-ten value of the `n` characters of `s` from `i` (meaningful
      where a layout has established that they are digits). */
  function NumAt(s: string, i: nat, n: nat): int
    requires i + n <= |s|
  {
    if n == 0 then 0 else 10 * NumAt(s, i, n - 1) + (s[i + n - 1] as int - '0' as int)
  }

  /** From index `i` on, `s` holds only ASCII digits. */
  predicate DigitsFrom(s: string, i: nat)
    decreases |s| - i
  {
    i >= |s| || (IsAsciiDigit(s[i]) && DigitsFrom(s, i + 1))
  }

  /** From index `i` on, `s` holds no whitespace. */
  predicate NoSpaceFrom(s: string, i: nat)
    decreases |s| - i
  {
    i >= |s| || (!IsSpace(s[i]) && NoSpaceFrom(s, i + 1))
  }

  /** The `datetime(...)` constructor: the value, or `None` where Python
      raises `ValueError`. */
  function Checked(t: DateTime): (r: Option<DateTime>)
    ensures r.Some? <==> Valid(t)
    ensures r.Some? ==> r.value == t
  {
    if Valid(t) then Some(t) else None
  }

  const MonthNames: seq<string> :=
    ["jan", "feb", "mar", "apr", "may", "jun", "jul", "aug", "sep", "oct", "nov", "dec"]

  const DayNames: seq<string> := ["mon", "tue", "wed", "thu", "fri", "sat", "sun"]

  /** The three characters of `s` at `i`, lower-cased. */
  function Word3(s: string, i: nat): string
    requires i + 3 <= |s|
  {
    [LowerChar(s[i]), LowerChar(s[i + 1]), LowerChar(s[i + 2])]
  }

  /** The month an English three-letter abbreviation at `i` names, in any
      case. */
  function MonthAt(s: string, i: nat): (r: Option<int>)
    requires i + 3 <= |s|
    ensures r.Some? ==> 1 <= r.value <= 12 && Word3(s, i) == MonthNames[r.value - 1]
    ensures Word3(s, i) in MonthNames ==> r.Some?
  {
    var w := Word3(s, i);
    if w in MonthNames then
      var k :| 0 <= k < |MonthNames| && MonthNames[k] == w;
      Some(k + 1)
    else None
  }

  function SignOf(c: char): Option<int> {
    if c == '+' then Some(1) else if c == '-' then Some(-1) else None
  }

  // ---------------------------------------------------------------------
  // strptime

  /** `%z` filling `s` from `i` to the end, once any `Z` has been rewritten:
      `+HHMM` or `+HH:MM` (either sign), minutes below 60; the offset in
      minutes. */
  function StrpZoneAt(s: string, i: nat): Option<int>
    requires i <= |s|
  {
    if i == |s| || SignOf(s[i]).None? then None
    else
      var sign := SignOf(s[i]).value;
      if |s| == i + 5 && ShapeAt(s, i + 1, "9999") && s[i + 3] <= '5' then
        Some(sign * (NumAt(s, i + 1, 2) * 60 + NumAt(s, i + 3, 2)))
      else if |s| == i + 6 && ShapeAt(s, i + 1, "99:99") && s[i + 4] <= '5' then
        Some(sign * (NumAt(s, i + 1, 2) * 60 + NumAt(s, i + 4, 2)))
      else None
  }

  /** `%Y-%m-%d` at the front of `s`, with the time of day given. */
  function IsoDateAt(s: string, h: int, mi: int, sec: int, off: Option<int>): DateTime
    requires 10 <= |s|
  {
    DateTime(NumAt(s, 0, 4), NumAt(s, 5, 2), NumAt(s, 8, 2), h, mi, sec, off)
  }

  /** `strptime(s, "%Y-%m-%d")`. */
  function StrpDate(s: string): (r: Option<DateTime>)
    ensures r.Some? ==> Valid(r.value) && r.value.offset.None?
  {
    if Shape(s, "9999-99-99") then Checked(IsoDateAt(s, 0, 0, 0, None)) else None
  }

  /** `strptime(s, "%Y-%m-%dT%H:%M:%S")`. */
  function StrpIsoNaive(s: string): (r: Option<DateTime>)
    ensures r.Some? ==> Valid(r.value) && r.value.offset.None?
  {
    if Shape(s, IsoSeconds) then
      Checked(IsoDateAt(s, NumAt(s, 11, 2), NumAt(s, 14, 2), NumAt(s, 17, 2), None))
    else None
  }

  /** `strptime(s, "%Y-%m-%dT%H:%M:%S%z")`. */
  function StrpIsoZoned(s: string): (r: Option<DateTime>)
    ensures r.Some? ==> Valid(r.value) && r.value.offset.Some?
  {
    if ShapeAt(s, 0, IsoSeconds) && StrpZoneAt(s, 19).Some? then
      Checked(IsoDateAt(s, NumAt(s, 11, 2), NumAt(s, 14, 2), NumAt(s, 17, 2),
                        Some(StrpZoneAt(s, 19).value)))
    else None
  }

  /** `strptime(s, "%d/%m/%Y %H:%M")`. */
  function StrpSlash(s: string): (r: Option<DateTime>)
    ensures r.Some? ==> Valid(r.value) && r.value.offset.None?
  {
    if Shape(s, "99/99/9999 99:99") then
      Checked(DateTime(NumAt(s, 6, 4), NumAt(s, 3, 2), NumAt(s, 0, 2),
                       NumAt(s, 11, 2), NumAt(s, 14, 2), 0, None))
    else None
  }

  /** A three-character first token ending in a comma, then the common
      fields `DD Mon YYYY HH:MM:SS ` of RFC 5322 dates and of
      `%a, %d %b %Y %H:%M:%S %z`, followed by a non-empty zone field. */
  predicate RfcBody(s: string) {
    && |s| >= 27
    && ShapeAt(s, 3, ", 99 ") && MonthAt(s, 8).Some?
    && ShapeAt(s, 11, " 9999 99:99:99 ")
  }

  /** The layout with an English weekday abbreviation in front, as `%a`
      demands. */
  predicate RfcLayout(s: string) {
    RfcBody(s) && Word3(s, 0) in DayNames
  }

  /** The layout `parsedate_to_datetime` reads: it drops a first token that
      ends in a comma without looking at it, so any three characters other
      than whitespace may stand before the comma. */
  predicate MailLayout(s: string) {
    RfcBody(s) && !IsSpace(s[0]) && !IsSpace(s[1]) && !IsSpace(s[2])
  }

  function RfcFields(s: string, off: Option<int>): DateTime
    requires RfcBody(s)
  {
    DateTime(NumAt(s, 12, 4), MonthAt(s, 8).value, NumAt(s, 5, 2),
             NumAt(s, 17, 2), NumAt(s, 20, 2), NumAt(s, 23, 2), off)
  }

  /** `strptime(s, "%a, %d %b %Y %H:%M:%S %z")`; the weekday is read but not
      checked against the date. */
  function StrpRfc(s: string): (r: Option<DateTime>)
    ensures r.Some? ==> Valid(r.value) && r.value.offset.Some?
  {
    if RfcLayout(s) && StrpZoneAt(s, 26).Some? then
      Checked(RfcFields(s, Some(StrpZoneAt(s, 26).value)))
    else None
  }

  // ---------------------------------------------------------------------
  // email.utils.parsedate_to_datetime

  /** Zone names `parsedate_to_datetime` knows, as `[+-]HHMM` numbers. */
  function NamedZone(z: string): Option<int> {
    match z
    case "UT" => Some(0)  case "UTC" => Some(0)  case "GMT" => Some(0)  case "Z" => Some(0)
    case "AST" => Some(-400)  case "ADT" => Some(-300)
    case "EST" => Some(-500)  case "EDT" => Some(-400)
    case "CST" => Some(-600)  case "CDT" => Some(-500)
    case "MST" => Some(-700)  case "MDT" => Some(-600)
    case "PST" => Some(-800)  case "PDT" => Some(-700)
    case _ => None
  }

  function UpperAscii(s: string): (r: string)
    ensures |r| == |s|
  {
    seq(|s|, i requires 0 <= i < |s| =>
      if 'a' <= s[i] <= 'z' then (s[i] as int - 32) as char else s[i])
  }

  /** Offset in minutes of a `[+-]HHMM`-style number: the last two digits are
      minutes (up to 99), the rest hours. */
  function HhmmMinutes(v: int): int {
    var a := if v < 0 then -v else v;
    var m := (a / 100) * 60 + a % 100;
    if v < 0 then -m else m
  }

  /** The zone token filling `s` from `i`: a known name, a signed or
      unsigned decimal number read as `HHMM`, or anything else, which leaves
      the value naive; `-0000` leaves it naive too. */
  function RfcZoneAt(s: string, i: nat): Option<int>
    requires i < |s|
  {
    var named := NamedZone(UpperAscii(s[i..]));
    if named.Some? then Some(HhmmMinutes(named.value))
    else if i + 1 < |s| && SignOf(s[i]).Some? && DigitsFrom(s, i + 1) then
      var v := NumAt(s, i + 1, |s| - i - 1);
      if v == 0 && s[i] == '-' then None
      else Some(SignOf(s[i]).value * HhmmMinutes(v))
    else if DigitsFrom(s, i) then Some(HhmmMinutes(NumAt(s, i, |s| - i)))
    else None
  }

  /** The year `parsedate_to_datetime` makes of a written year: one below
      100, even written with four digits, is taken as two digits, 69..99
      meaning 1969..1999 and 0..68 meaning 2000..2068. */
  function MailYear(y: int): int {
    if y < 100 then (if y > 68 then y + 1900 else y + 2000) else y
  }

  /** `parsedate_to_datetime(s)` on the canonical RFC 5322 section 3.3 form
      `Ddd, DD Mon YYYY HH:MM:SS zone`. */
  function ParseRfc5322(s: string): (r: Option<DateTime>)
    ensures r.Some? ==> Valid(r.value) && r.value.year >= 100
  {
    if MailLayout(s) && NoSpaceFrom(s, 26) then
      var d := RfcFields(s, RfcZoneAt(s, 26));
      RfcYearDigits(s);
      Checked(d.(year := MailYear(d.year)))
    else None
  }

  /** The year field holds four digits, so its value is not negative. */
  lemma RfcYearDigits(s: string)
    requires RfcBody(s)
    ensures 0 <= NumAt(s, 12, 4) <= 9999
  {
    ShapeFromChars(s, 11, " 9999 99:99:99 ", 0);
    forall j | 12 <= j < 16 ensures IsAsciiDigit(s[j]) {
      assert Fits(s[11 + (j - 11)], " 9999 99:99:99 "[j - 11]);
    }
    NumAtDigits(s, 12, 4);
  }

  /** A written year below 100 keeps its last two digits and lands in the
      window 1969..2068; any other year is kept as written. */
  lemma RfcYearWindow(s: string)
    requires MailLayout(s) && ParseRfc5322(s).Some?
    ensures var y, w := NumAt(s, 12, 4), ParseRfc5322(s).value.year;
            && (y < 100 ==> 1969 <= w <= 2068 && w % 100 == y)
            && (y >= 100 ==> w == y)
  {
    RfcYearDigits(s);
  }

  // ---------------------------------------------------------------------
  // datetime.fromisoformat

  /** `+HH:MM` or `-HH:MM` filling `s` from `i`. */
  function IsoZoneAt(s: string, i: nat): Option<int>
    requires i <= |s|
  {
    if |s| == i + 6 && SignOf(s[i]).Some? && ShapeAt(s, i + 1, "99:99") then
      Some(SignOf(s[i]).value * (NumAt(s, i + 1, 2) * 60 + NumAt(s, i + 4, 2)))
    else None
  }

  /** `fromisoformat(s)`: `YYYY-MM-DD`, optionally followed by any one
      separator character, `HH:MM` or `HH:MM:SS`, and an optional
      `+HH:MM` offset. */
  function ParseIso(s: string): (r: Option<DateTime>)
    ensures r.Some? ==> Valid(r.value)
  {
    if !ShapeAt(s, 0, "9999-99-99") then None
    else if |s| == 10 then Checked(IsoDateAt(s, 0, 0, 0, None))
    else if ShapeAt(s, 10, "?99:99:99") && (|s| == 19 || IsoZoneAt(s, 19).Some?) then
      var off := if |s| == 19 then None else IsoZoneAt(s, 19);
      Checked(IsoDateAt(s, NumAt(s, 11, 2), NumAt(s, 14, 2), NumAt(s, 17, 2), off))
    else if ShapeAt(s, 10, "?99:99") && (|s| == 16 || IsoZoneAt(s, 16).Some?) then
      var off := if |s| == 16 then None else IsoZoneAt(s, 16);
      Checked(IsoDateAt(s, NumAt(s, 11, 2), NumAt(s, 14, 2), 0, off))
    else None
  }

  // ---------------------------------------------------------------------
  // UTC timestamps ending in `Z`

  /** A layout that holds in `s` still holds once text is appended. */
  lemma {:induction false} ShapeFromExtend(s: string, t: string, i: nat, pat: string, k: nat)
    requires ShapeFrom(s, i, pat, k)
    ensures ShapeFrom(s + t, i, pat, k)
    decreases |pat| - k
  {
    if k < |pat| {
      assert (s + t)[i + k] == s[i + k];
      ShapeFromExtend(s, t, i, pat, k + 1);
    }
  }

  /** `n` ASCII digits read as a number from 0 to `10**n - 1`. */
  lemma {:induction false} NumAtDigits(s: string, i: nat, n: nat)
    requires i + n <= |s|
    requires forall j :: i <= j < i + n ==> IsAsciiDigit(s[j])
    ensures 0 <= NumAt(s, i, n) < Pow10(n)
  {
    if n > 0 {
      NumAtDigits(s, i, n - 1);
    }
  }

  /** Appending text does not change the numbers read before it. */
  lemma {:induction false} NumAtExtend(s: string, t: string, i: nat, n: nat)
    requires i + n <= |s|
    ensures NumAt(s + t, i, n) == NumAt(s, i, n)
  {
    if n > 0 {
      NumAtExtend(s, t, i, n - 1);
      assert (s + t)[i + n - 1] == s[i + n - 1];
    }
  }

  /** Every character of a layout-shaped stretch fits its layout character. */
  lemma {:induction false} ShapeFromChars(s: string, i: nat, pat: string, k: nat)
    requires i + |pat| <= |s|
    requires ShapeFrom(s, i, pat, k)
    ensures forall j :: k <= j < |pat| ==> Fits(s[i + j], pat[j])
    decreases |pat| - k
  {
    if k < |pat| {
      ShapeFromChars(s, i, pat, k + 1);
    }
  }

  /** A stretch whose every character fits the layout holds the layout. */
  lemma {:induction false} ShapeFromOfChars(s: string, i: nat, pat: string, k: nat)
    requires i + |pat| <= |s|
    requires forall j :: k <= j < |pat| ==> Fits(s[i + j], pat[j])
    ensures ShapeFrom(s, i, pat, k)
    decreases |pat| - k
  {
    if k < |pat| {
      ShapeFromOfChars(s, i, pat, k + 1);
    }
  }

  /** The layout of `%Y-%m-%dT%H:%M:%S`. */
  const IsoSeconds: string := "9999-99-99T99:99:99"

  /** A timestamp in that layout holds no `Z`. */
  lemma IsoSecondsNoZ(d: string)
    requires Shape(d, IsoSeconds)
    ensures 'Z' !in d
  {
    ShapeFromChars(d, 0, IsoSeconds, 0);
    forall j | 0 <= j < |d| ensures d[j] != 'Z' {
      assert Fits(d[j], IsoSeconds[j]);
    }
  }

  /** A wall-clock timestamp `d` whose `Z` suffix has been rewritten to
      `+0000` reads under `%Y-%m-%dT%H:%M:%S%z` as the same fields at
      offset 0, and is rejected exactly when `d` itself is not a valid date
      and time. */
  lemma UtcSuffixStrp(d: string)
    requires Shape(d, IsoSeconds)
    ensures StrpIsoNaive(d).Some? ==> StrpIsoZoned(d + "+0000") == Some(StrpIsoNaive(d).value.(offset := Some(0)))
    ensures StrpIsoNaive(d).None? ==> StrpIsoZoned(d + "+0000").None?
  {
    var t := d + "+0000";
    ShapeFromExtend(d, "+0000", 0, IsoSeconds, 0);
    assert t[19] == '+' && t[20] == '0' && t[21] == '0' && t[22] == '0' && t[23] == '0';
    assert ShapeFrom(t, 20, "9999", 0);
    assert NumAt(t, 20, 1) == 0 && NumAt(t, 22, 1) == 0;
    assert NumAt(t, 20, 2) == 0 && NumAt(t, 22, 2) == 0;
    assert StrpZoneAt(t, 19) == Some(0);
    NumAtExtend(d, "+0000", 0, 4);
    NumAtExtend(d, "+0000", 5, 2);
    NumAtExtend(d, "+0000", 8, 2);
    NumAtExtend(d, "+0000", 11, 2);
    NumAtExtend(d, "+0000", 14, 2);
    NumAtExtend(d, "+0000", 17, 2);
  }

  /** After the rewrite to `+00:00` the time part and the zone are where
      `fromisoformat` looks for them, and the zone is UTC. */
  lemma IsoSuffixShape(d: string)
    requires Shape(d, IsoSeconds)
    ensures ShapeAt(d + "+00:00", 0, "9999-99-99") && ShapeAt(d + "+00:00", 10, "?99:99:99")
    ensures IsoZoneAt(d + "+00:00", 19) == Some(0)
  {
    var u := d + "+00:00";
    ShapeFromChars(d, 0, IsoSeconds, 0);
    ShapeFromOfChars(d, 0, "9999-99-99", 0);
    ShapeFromExtend(d, "+00:00", 0, "9999-99-99", 0);
    forall j | 0 <= j < 9 ensures Fits(u[10 + j], "?99:99:99"[j]) {
      assert u[10 + j] == d[10 + j];
      assert Fits(d[10 + j], IsoSeconds[10 + j]);
      if j > 0 {
        assert IsoSeconds[10 + j] == "?99:99:99"[j];
      }
    }
    ShapeFromOfChars(u, 10, "?99:99:99", 0);
    IsoUtcZone(d);
  }

  lemma IsoUtcZone(d: string)
    requires |d| == 19
    ensures IsoZoneAt(d + "+00:00", 19) == Some(0)
  {
    var u := d + "+00:00";
    assert u[19] == '+' && u[20] == '0' && u[21] == '0' && u[22] == ':' && u[23] == '0' && u[24] == '0';
    ShapeFromOfChars(u, 20, "99:99", 0);
    assert NumAt(u, 20, 1) == 0 && NumAt(u, 23, 1) == 0;
    assert NumAt(u, 20, 2) == 0 && NumAt(u, 23, 2) == 0;
  }

  /** The same timestamp with the suffix rewritten to `+00:00` reads the
      same way under `fromisoformat`. */
  lemma UtcSuffixIso(d: string)
    requires Shape(d, IsoSeconds)
    ensures StrpIsoNaive(d).Some? ==> ParseIso(d + "+00:00") == Some(StrpIsoNaive(d).value.(offset := Some(0)))
    ensures StrpIsoNaive(d).None? ==> ParseIso(d + "+00:00").None?
  {
    IsoSuffixShape(d);
    NumAtExtend(d, "+00:00", 0, 4);
    NumAtExtend(d, "+00:00", 5, 2);
    NumAtExtend(d, "+00:00", 8, 2);
    NumAtExtend(d, "+00:00", 11, 2);
    NumAtExtend(d, "+00:00", 14, 2);
    NumAtExtend(d, "+00:00", 17, 2);
  }

  // ---------------------------------------------------------------------
  // parse_datetime of the CCAA and BOE readers

  /** The RFC 5322 attempt: parse, then convert to UTC (`None` when either
      raises). */
  function RfcUtc(t: string, localOffset: int): Option<DateTime>
    requires -DayMinutes < localOffset < DayMinutes
  {
    match ParseRfc5322(t)
    case Some(d) => ToUtc(d, localOffset)
    case None => None
  }

  /** The text the ISO attempt reads: every `Z` becomes `+00:00`. */
  function IsoText(t: string): string {
    Replace(t, 'Z', "+00:00")
  }

  function IsoUtc(t: string, localOffset: int): Option<DateTime>
    requires -DayMinutes < localOffset < DayMinutes
  {
    match ParseIso(IsoText(t))
    case Some(d) => ToUtc(d, localOffset)
    case None => None
  }

  /** `u` is `d` moved to UTC: same instant, offset 0. */
  predicate SameInstantUtc(u: DateTime, d: DateTime, localOffset: int) {
    && Valid(u) && Valid(d) && u.offset == Some(0)
    && Instant(u, 0) == Instant(d, EffectiveOffset(d, localOffset))
  }

  /** `parse_datetime(text)`: `None` for empty text; otherwise the stripped
      text read as an RFC 5322 date, and failing that (or failing its UTC
      conversion) as an ISO 8601 date with `Z` read as `+00:00`; the value is
      returned in UTC. */
  function ParseDatetime(text: string, localOffset: int): (r: Option<DateTime>)
    requires -DayMinutes < localOffset < DayMinutes
    ensures text == "" ==> r.None?
    ensures r.Some? ==> Valid(r.value) && r.value.offset == Some(0)
    ensures text != "" && RfcUtc(Strip(text), localOffset).Some? ==>
              r == RfcUtc(Strip(text), localOffset)
    ensures r.Some? ==>
              var t := Strip(text);
              || (ParseRfc5322(t).Some? && SameInstantUtc(r.value, ParseRfc5322(t).value, localOffset))
              || (ParseIso(IsoText(t)).Some? && SameInstantUtc(r.value, ParseIso(IsoText(t)).value, localOffset))
    ensures r.None? && text != "" ==>
              var t := Strip(text);
              && (ParseRfc5322(t).None? || ToUtc(ParseRfc5322(t).value, localOffset).None?)
              && (ParseIso(IsoText(t)).None? || ToUtc(ParseIso(IsoText(t)).value, localOffset).None?)
  {
    if text == "" then None
    else
      var t := Strip(text);
      var rfc := RfcUtc(t, localOffset);
      if rfc.Some? then rfc else IsoUtc(t, localOffset)
  }
}
