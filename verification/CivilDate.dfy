/** Unix seconds as an RFC 3339 date and time, against the calendar itself.
    Source: crates/pve-meta-core/src/backup.rs. */
module CivilDate {
  import opened Values
  import opened Decimals
  import opened Text

  newtype u64 = x: int | 0 <= x < 0x1_0000_0000_0000_0000
  newtype i64 = x: int | -0x8000_0000_0000_0000 <= x < 0x8000_0000_0000_0000

  datatype Instant = Instant(year: int, month: int, day: int, hour: int, minute: int, second: int)

  // ---------------------------------------------------------------- the calendar

  predicate IsLeap(y: int) {
    y % 4 == 0 && (y % 100 != 0 || y % 400 == 0)
  }

  function DaysInYear(y: int): int {
    if IsLeap(y) then 366 else 365
  }

  function DaysInMonth(y: int, m: int): int {
    if m == 2 then (if IsLeap(y) then 29 else 28)
    else if m == 4 || m == 6 || m == 9 || m == 11 then 30
    else 31
  }

  /** Days from 1970-01-01 to the first of January of `y`, counted year by year. */
  function DaysToYear(y: int): int
    requires y >= 1970
    decreases y
  {
    if y == 1970 then 0 else DaysToYear(y - 1) + DaysInYear(y - 1)
  }

  /** Days from the first of January to the first of `m`, counted month by month. */
  function DaysToMonth(y: int, m: int): int
    requires m >= 1
    decreases m
  {
    if m == 1 then 0 else DaysToMonth(y, m - 1) + DaysInMonth(y, m - 1)
  }

  function DayNumber(y: int, m: int, d: int): int
    requires y >= 1970 && m >= 1
  {
    DaysToYear(y) + DaysToMonth(y, m) + d - 1
  }

  predicate Valid(t: Instant) {
    && t.year >= 1970 && 1 <= t.month <= 12 && 1 <= t.day <= DaysInMonth(t.year, t.month)
    && 0 <= t.hour < 24 && 0 <= t.minute < 60 && 0 <= t.second < 60
  }

  function Seconds(t: Instant): int
    requires Valid(t)
  {
    DayNumber(t.year, t.month, t.day) * 86400 + t.hour * 3600 + t.minute * 60 + t.second
  }

  // ---------------------------------------------------------------- the program

  /** The date of `rfc3339_utc`, `days` after the epoch, in the machine's integers. */
  function Civil(days: i64): (i64, i64, i64)
    requires 0 <= days <= 0x1_0000_0000_0000
  {
    var z := days + 719468;
    var era := z / 146097;
    var doe := z % 146097;
    var yoe := (doe - doe / 1460 + doe / 36524 - doe / 146096) / 365;
    var y := yoe + era * 400;
    var doy := doe - (365 * yoe + yoe / 4 - yoe / 100);
    var mp := (5 * doy + 2) / 153;
    var d := doy - (153 * mp + 2) / 5 + 1;
    var m := if mp < 10 then mp + 3 else mp - 9;
    (if m <= 2 then y + 1 else y, m, d)
  }

  /** The fields `rfc3339_utc` prints. */
  function InstantOf(unix: u64): Instant {
    var (y, m, d) := Civil((unix / 86400) as i64);
    var secs := unix % 86400;
    Instant(y as int, m as int, d as int, (secs / 3600) as int, (secs % 3600 / 60) as int, (secs % 60) as int)
  }

  function TextOf(t: Instant): string
    requires Valid(t)
  {
    Padded(t.year, 4) + "-" + Padded(t.month, 2) + "-" + Padded(t.day, 2) + "T"
    + Padded(t.hour, 2) + ":" + Padded(t.minute, 2) + ":" + Padded(t.second, 2) + "Z"
  }

  // ---------------------------------------------------------------- the year of an era

  /** Days from the first of March of year 0 of an era to that of year `y`. */
  function ToMarch(y: int): int {
    365 * y + y / 4 - y / 100 + y / 400
  }

  function YearOfEra(doe: int): int {
    (doe - doe / 1460 + doe / 36524 - doe / 146096) / 365
  }

  /** The day of an era as whole centuries, four-year spans and years. */
  lemma YearOfEraIs(doe: int, c: int, q: int, k: int, r: int)
    requires 0 <= c < 4 && 0 <= q < 25 && 0 <= k < 4
    requires doe == 36524 * c + 1461 * q + 365 * k + r
    requires 0 <= r <= 365 && (r == 365 ==> k == 3 && (q == 24 ==> c == 3))
    ensures YearOfEra(doe) == 100 * c + 4 * q + k
  {
    var t := 365 * k + r;
    var e := if 24 * c + q + t >= 1460 then 1 else 0;
    assert doe == 1460 * (25 * c + q) + (24 * c + q + t);
    assert doe / 1460 == 25 * c + q + e;
    assert doe <= 146096;
    var top := if doe == 146096 then 1 else 0;
    assert doe / 146096 == top;
    assert doe / 36524 == c + top;
    assert doe - doe / 1460 + doe / 36524 - doe / 146096 == 365 * (100 * c + 4 * q + k) + (r - e);
    assert 0 <= r - e < 365;
  }

  /** The calendar's own split of the day of an era. */
  lemma EraSplits(doe: int) returns (c: int, q: int, k: int, r: int)
    requires 0 <= doe < 146097
    ensures 0 <= c < 4 && 0 <= q < 25 && 0 <= k < 4
    ensures doe == 36524 * c + 1461 * q + 365 * k + r
    ensures 0 <= r <= 365 && (r == 365 ==> k == 3 && (q == 24 ==> c == 3))
  {
    c := if doe / 36524 > 3 then 3 else doe / 36524;
    var rest := doe - 36524 * c;
    q := rest / 1461;
    var t := rest - 1461 * q;
    k := if t / 365 > 3 then 3 else t / 365;
    r := t - 365 * k;
  }

  lemma YearLength(c: int, q: int, k: int)
    requires 0 <= c < 4 && 0 <= q < 25 && 0 <= k < 4
    ensures var y := 100 * c + 4 * q + k;
            && y / 4 == 25 * c + q && y / 100 == c && y / 400 == 0
            && (IsLeap(y + 1) <==> k == 3 && (q == 24 ==> c == 3))
  {
  }

  /** The year found is the one the day lies in, and the day of the year is less than its
      length: 366 exactly when the coming February has 29 days. */
  lemma YearOfEraContains(doe: int)
    requires 0 <= doe < 146097
    ensures var y := YearOfEra(doe);
            0 <= y < 400 && 0 <= doe - ToMarch(y) < DaysInYear(y + 1)
  {
    var c, q, k, r := EraSplits(doe);
    YearOfEraIs(doe, c, q, k, r);
    YearLength(c, q, k);
  }

  // ---------------------------------------------------------------- the month of a year

  /** Days from the first of March to the first of the `mp`-th month after it. */
  function Offset(mp: int): int {
    (153 * mp + 2) / 5
  }

  lemma MonthContains(doy: int)
    requires 0 <= doy <= 365
    ensures var mp := (5 * doy + 2) / 153;
            0 <= mp <= 11 && Offset(mp) <= doy < Offset(mp + 1)
  {
  }

  function MonthAt(mp: int): int {
    if mp < 10 then mp + 3 else mp - 9
  }

  /** Days to the first of `m` in a common year. */
  function CommonDays(m: int): int
    requires 1 <= m <= 13
  {
    [0, 31, 59, 90, 120, 151, 181, 212, 243, 273, 304, 334, 365][m - 1]
  }

  lemma MonthsCounted(y: int)
    ensures forall m :: 1 <= m <= 13 ==> DaysToMonth(y, m) == CommonDays(m) + (if m > 2 && IsLeap(y) then 1 else 0)
  {
    hide IsLeap;
    assert DaysToMonth(y, 3) == DaysToMonth(y, 2) + DaysInMonth(y, 2);
    assert DaysToMonth(y, 5) == DaysToMonth(y, 4) + DaysInMonth(y, 4);
    assert DaysToMonth(y, 7) == DaysToMonth(y, 6) + DaysInMonth(y, 6);
    assert DaysToMonth(y, 9) == DaysToMonth(y, 8) + DaysInMonth(y, 8);
    assert DaysToMonth(y, 11) == DaysToMonth(y, 10) + DaysInMonth(y, 10);
    assert DaysToMonth(y, 13) == DaysToMonth(y, 12) + DaysInMonth(y, 12);
  }

  /** The offsets count the calendar's months, from March to February. */
  lemma OffsetsCount(y: int, mp: int)
    requires 0 <= mp <= 11
    ensures DaysToMonth(y, MonthAt(mp)) ==
            if mp < 10 then Offset(mp) + (if IsLeap(y) then 60 else 59) else Offset(mp) - 306
    ensures mp < 11 ==> DaysInMonth(y, MonthAt(mp)) == Offset(mp + 1) - Offset(mp)
  {
    hide IsLeap, DaysToMonth;
    MonthsCounted(y);
  }

  // ---------------------------------------------------------------- years and eras

  lemma {:induction false} YearsCounted(y: int)
    requires y >= 1970
    ensures DaysToYear(y) == ToMarch(y - 1) - 719162
    decreases y
  {
    if y > 1970 {
      YearsCounted(y - 1);
      OneYearMore(y - 1);
    }
  }

  lemma OneYearMore(y: int)
    requires y > 0
    ensures ToMarch(y) == ToMarch(y - 1) + DaysInYear(y)
  {
    FourthYear(y);
    Century(y);
    FourthCentury(y);
  }

  lemma FourthYear(y: int)
    ensures (y - 1) / 4 == y / 4 - if y % 4 == 0 then 1 else 0
  {
  }

  lemma Century(y: int)
    ensures (y - 1) / 100 == y / 100 - if y % 100 == 0 then 1 else 0
    ensures y % 100 == 0 ==> y % 4 == 0
  {
    if y % 100 == 0 { assert y == 4 * (25 * (y / 100)); }
  }

  lemma FourthCentury(y: int)
    ensures (y - 1) / 400 == y / 400 - if y % 400 == 0 then 1 else 0
    ensures y % 400 == 0 ==> y % 100 == 0
  {
    if y % 400 == 0 { assert y == 100 * (4 * (y / 400)); }
  }

  lemma ErasRepeat(y: int, era: int)
    ensures ToMarch(y + 400 * era) == ToMarch(y) + 146097 * era
    ensures IsLeap(y + 400 * era) == IsLeap(y)
  {
    var n := y + 400 * era;
    assert n / 4 == y / 4 + 100 * era && n % 4 == y % 4;
    assert n / 100 == y / 100 + 4 * era && n % 100 == y % 100;
    assert n / 400 == y / 400 + era && n % 400 == y % 400;
  }

  // ---------------------------------------------------------------- the theorem

  /** A date counted from March is a date of the calendar, and names the right day. */
  lemma CivilIsRight(yoe: int, era: int, doy: int)
    requires 0 <= yoe < 400 && 0 <= doy < DaysInYear(yoe + 1)
    requires ToMarch(yoe) + 146097 * era + doy >= 719468
    ensures var y := yoe + 400 * era;
            var mp := (5 * doy + 2) / 153;
            var m := MonthAt(mp);
            var d := doy - Offset(mp) + 1;
            var year := if m <= 2 then y + 1 else y;
            && year >= 1970 && 1 <= m <= 12 && 1 <= d <= DaysInMonth(year, m)
            && DayNumber(year, m, d) == ToMarch(yoe) + 146097 * era + doy - 719468
  {
    hide DaysToMonth, DaysToYear, ToMarch, Offset;
    var y := yoe + 400 * era;
    var mp := (5 * doy + 2) / 153;
    ErasRepeat(yoe, era);
    ErasRepeat(yoe + 1, era);
    MonthContains(doy);
    YearIsLate(y, doy);
    var year := if MonthAt(mp) <= 2 then y + 1 else y;
    OffsetsCount(year, mp);
    YearsCounted(year);
    if mp < 10 { OneYearMore(y); }
    FebruaryFits();
  }

  lemma FebruaryFits()
    ensures Offset(11) == 337 && Offset(10) == 306
  {
  }

  lemma YearIsLate(y: int, doy: int)
    requires ToMarch(y) + doy >= 719468 && 0 <= doy <= 365
    ensures y >= 1969 && (y == 1969 ==> doy >= 306)
  {
  }

  lemma CivilDates(days: i64)
    requires 0 <= days <= 0x1_0000_0000_0000
    ensures var (y, m, d) := Civil(days);
            && y >= 1970 && 1 <= m <= 12 && 1 <= d as int <= DaysInMonth(y as int, m as int)
            && DayNumber(y as int, m as int, d as int) == days as int
  {
    hide DayNumber, DaysInMonth, IsLeap, YearOfEra, DaysInYear;
    var z := days as int + 719468;
    var era, doe := z / 146097, z % 146097;
    YearOfEraContains(doe);
    var yoe := YearOfEra(doe);
    var doy := doe - ToMarch(yoe);
    assert doy == doe - (365 * yoe + yoe / 4 - yoe / 100);
    CivilIsRight(yoe, era, doy);
    CivilFields(days, era, doe, yoe, doy);
  }

  /** The machine's integers compute what the unbounded ones do. */
  lemma CivilFields(days: i64, era: int, doe: int, yoe: int, doy: int)
    requires 0 <= days <= 0x1_0000_0000_0000
    requires era == (days as int + 719468) / 146097 && doe == (days as int + 719468) % 146097
    requires yoe == YearOfEra(doe) && doy == doe - (365 * yoe + yoe / 4 - yoe / 100)
    ensures var (y, m, d) := Civil(days);
            var mp := (5 * doy + 2) / 153;
            && m as int == MonthAt(mp) && d as int == doy - Offset(mp) + 1
            && y as int == yoe + 400 * era + if m <= 2 then 1 else 0
  {
  }

  lemma TimeOfDay(secs: int)
    requires 0 <= secs < 86400
    ensures var h, m, s := secs / 3600, secs % 3600 / 60, secs % 60;
            0 <= h < 24 && 0 <= m < 60 && 0 <= s < 60 && h * 3600 + m * 60 + s == secs
  {
  }

  /** For every u64 of unix seconds: a valid instant of the calendar, and the one that many
      seconds after the epoch. (That `InstantOf` is defined is that no i64 overflows.) */
  lemma InstantIsRight(unix: u64)
    ensures Valid(InstantOf(unix)) && Seconds(InstantOf(unix)) == unix as int
  {
    hide DayNumber, DaysInMonth, IsLeap, Civil;
    CivilDates((unix / 86400) as i64);
    TimeOfDay(unix as int % 86400);
  }

  // ---------------------------------------------------------------- and only one

  lemma {:induction false} MonthsGrow(y: int, m: int, n: int)
    requires 1 <= m < n
    ensures DaysToMonth(y, m) + DaysInMonth(y, m) <= DaysToMonth(y, n)
    decreases n
  {
    if m < n - 1 { MonthsGrow(y, m, n - 1); }
  }

  lemma {:induction false} YearsGrow(y: int, z: int)
    requires 1970 <= y < z
    ensures DaysToYear(y) + DaysInYear(y) <= DaysToYear(z)
    decreases z
  {
    if y < z - 1 { YearsGrow(y, z - 1); }
  }

  predicate DateBefore(a: Instant, b: Instant) {
    a.year < b.year || (a.year == b.year && (a.month < b.month || (a.month == b.month && a.day < b.day)))
  }

  lemma DaysOrder(a: Instant, b: Instant)
    requires Valid(a) && Valid(b) && DateBefore(a, b)
    ensures DayNumber(a.year, a.month, a.day) < DayNumber(b.year, b.month, b.day)
  {
    hide DaysToYear, DaysToMonth, DaysInMonth, IsLeap;
    MonthsCounted(a.year);
    if a.year < b.year {
      YearsGrow(a.year, b.year);
      MonthsGrow(a.year, a.month, 13);
      if b.month > 1 { MonthsGrow(b.year, 1, b.month); }
      FirstMonth(b.year);
    } else if a.month < b.month {
      MonthsGrow(a.year, a.month, b.month);
    }
  }

  lemma FirstMonth(y: int)
    ensures DaysToMonth(y, 1) == 0 && forall m :: DaysInMonth(y, m) >= 28
  {
  }

  /** Different instants are different numbers of seconds, so the one found is the only one. */
  lemma InstantUnique(a: Instant, b: Instant)
    requires Valid(a) && Valid(b) && Seconds(a) == Seconds(b)
    ensures a == b
  {
    hide DayNumber, DaysInMonth;
    if DateBefore(a, b) {
      DaysOrder(a, b);
    } else if DateBefore(b, a) {
      DaysOrder(b, a);
    }
  }

  // ---------------------------------------------------------------- its text

  predicate DigitsAt(s: string, i: nat, j: nat) {
    i <= j <= |s| && AllDigits(s[i..j])
  }

  /** The `date-time` of section 5.6 of RFC 3339, in UTC and without fractions. */
  predicate DateTimeForm(s: string) {
    && |s| == 20
    && DigitsAt(s, 0, 4) && s[4] == '-' && DigitsAt(s, 5, 7) && s[7] == '-' && DigitsAt(s, 8, 10) && s[10] == 'T'
    && DigitsAt(s, 11, 13) && s[13] == ':' && DigitsAt(s, 14, 16) && s[16] == ':' && DigitsAt(s, 17, 19) && s[19] == 'Z'
  }

  /** What such a text says. */
  predicate Says(s: string, t: Instant)
    requires DateTimeForm(s)
  {
    && Digits(s[0..4]) == Some(t.year) && Digits(s[5..7]) == Some(t.month) && Digits(s[8..10]) == Some(t.day)
    && Digits(s[11..13]) == Some(t.hour) && Digits(s[14..16]) == Some(t.minute) && Digits(s[17..19]) == Some(t.second)
  }

  lemma TwoDigits(n: nat)
    requires n < 100
    ensures |Padded(n, 2)| == 2 && AllDigits(Padded(n, 2)) && Digits(Padded(n, 2)) == Some(n)
  {
    hide Padded, Digits;
    PaddedReads(n, 2);
    assert Pow10(1) == 10;
    assert Pow10(2) == 100;
  }

  /** The text of an instant up to the year 9999 has that form and says that instant. */
  lemma TextSays(t: Instant)
    requires Valid(t) && t.year <= 9999
    ensures DateTimeForm(TextOf(t)) && Says(TextOf(t), t)
  {
    hide Padded, Digits, AllDigits, Pow10;
    PaddedReads(t.year, 4);
    TenThousand();
    TwoDigits(t.month); TwoDigits(t.day); TwoDigits(t.hour); TwoDigits(t.minute); TwoDigits(t.second);
    var s := TextOf(t);
    assert s[0..4] == Padded(t.year, 4) && s[5..7] == Padded(t.month, 2) && s[8..10] == Padded(t.day, 2);
    assert s[11..13] == Padded(t.hour, 2) && s[14..16] == Padded(t.minute, 2) && s[17..19] == Padded(t.second, 2);
  }

  lemma TenThousand()
    ensures Pow10(4) == 10000
  {
    assert Pow10(2) == 100;
    assert Pow10(3) == 1000;
  }

  /** Later years need a longer text. */
  lemma LaterYearsDoNotFit(t: Instant)
    requires Valid(t) && t.year > 9999
    ensures !DateTimeForm(TextOf(t))
  {
    hide Padded, Digits, AllDigits, Pow10;
    PaddedReads(t.year, 4);
    TenThousand();
    PaddedReads(t.month, 2); PaddedReads(t.day, 2); PaddedReads(t.hour, 2); PaddedReads(t.minute, 2); PaddedReads(t.second, 2);
    assert |TextOf(t)| > 20;
  }

  /** Exactly the seconds before the year 10000 have an RFC 3339 text. */
  lemma TextIsRfc3339(unix: u64)
    ensures Valid(InstantOf(unix))
    ensures DateTimeForm(TextOf(InstantOf(unix))) <==> unix < 253402300800
    ensures unix < 253402300800 ==> Says(TextOf(InstantOf(unix)), InstantOf(unix))
  {
    hide InstantOf, DateTimeForm, TextOf, Says, DaysToMonth, DaysToYear;
    var t := InstantOf(unix);
    InstantIsRight(unix);
    YearsCounted(10000);
    FirstMonth(t.year);
    if t.year <= 9999 {
      YearsGrow(t.year, 10000);
      MonthsCounted(t.year);
      MonthsGrow(t.year, t.month, 13);
      TextSays(t);
    } else {
      if t.year > 10000 { YearsGrow(10000, t.year); }
      if t.month > 1 { MonthsGrow(t.year, 1, t.month); }
      LaterYearsDoNotFit(t);
    }
  }

  /** `rfc3339_utc`. */
  function Rfc3339Utc(unix: u64): string {
    InstantIsRight(unix);
    TextOf(InstantOf(unix))
  }

  /** It is one word, whatever the year: it can stand as a field of a header line. */
  lemma OneWord(unix: u64)
    ensures NoSpace(Rfc3339Utc(unix))
  {
    hide Padded, InstantOf, NoSpace;
    var t := InstantOf(unix);
    InstantIsRight(unix);
    DigitsAndMark(t.year, 4, '-');
    DigitsAndMark(t.month, 2, '-');
    DigitsAndMark(t.day, 2, 'T');
    DigitsAndMark(t.hour, 2, ':');
    DigitsAndMark(t.minute, 2, ':');
    DigitsAndMark(t.second, 2, 'Z');
    var a, b, c := Padded(t.year, 4) + "-", Padded(t.month, 2) + "-", Padded(t.day, 2) + "T";
    var d, e, f := Padded(t.hour, 2) + ":", Padded(t.minute, 2) + ":", Padded(t.second, 2) + "Z";
    NoSpaceJoin(a, b);
    NoSpaceJoin(a + b, c);
    NoSpaceJoin(a + b + c, d);
    NoSpaceJoin(a + b + c + d, e);
    NoSpaceJoin(a + b + c + d + e, f);
    assert Rfc3339Utc(unix) == a + b + c + d + e + f;
  }

  lemma DigitsAndMark(n: nat, w: nat, mark: char)
    requires w > 0 && mark in {'-', ':', 'T', 'Z'}
    ensures NoSpace(Padded(n, w) + [mark])
  {
    hide Padded, Digits, Pow10;
    PaddedReads(n, w);
    DigitsAreInked(Padded(n, w));
    assert NoSpace([mark]);
    NoSpaceJoin(Padded(n, w), [mark]);
  }
}
