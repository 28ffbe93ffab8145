/** Calendar arithmetic behind `getDateString`, `getDayOfWeek`, `parseDateString` and `addDays`
    (packages/backend/convex/lib/helpers.ts), for a server whose local time zone is UTC.

    A day is an integer day number: 0 is 1970-01-01 and every day is one more than the one
    before it. An instant is an integer count of milliseconds since 1970-01-01T00:00:00Z,
    as `Date.now()` returns it. */
module Dates {
  import opened Text

  /** 24 * 60 * 60 * 1000 */
  const MsPerDay: int := 86400000

  /** Date strings are read in the years 100 to 9999: JavaScript's `new Date(y, m, d)` maps the
      years 0 to 99 to 1900 to 1999, and `toISOString` writes years past 9999 with six digits. */
  const MinYear: int := 100
  const MaxYear: int := 9999

  datatype Civil = Civil(year: int, month: int, day: int)

  predicate IsLeapYear(y: int) { y % 4 == 0 && (y % 100 != 0 || y % 400 == 0) }

  function YearLength(y: int): int { if IsLeapYear(y) then 366 else 365 }

  function DaysInMonth(y: int, m: int): int
    requires 1 <= m <= 12
  {
    if m == 2 then (if IsLeapYear(y) then 29 else 28)
    else if m == 4 || m == 6 || m == 9 || m == 11 then 30
    else 31
  }

  predicate ValidCivil(c: Civil)
  {
    1 <= c.month <= 12 && 1 <= c.day <= DaysInMonth(c.year, c.month)
  }

  /** The number of leap years in 1 .. y-1 of the proleptic Gregorian calendar
      (Dafny's division rounds down here, so this also holds for y <= 0). */
  function LeapYearsBefore(y: int): int { (y - 1) / 4 - (y - 1) / 100 + (y - 1) / 400 }

  /** The day number of January 1 of year y. */
  function DaysBeforeYear(y: int): int
  {
    365 * (y - 1970) + LeapYearsBefore(y) - LeapYearsBefore(1970)
  }

  /** Days from January 1 to the first of month m (m == 13 gives the length of the year). */
  function DaysBeforeMonth(y: int, m: int): int
    requires 1 <= m <= 13
  {
    var leap := if IsLeapYear(y) && m > 2 then 1 else 0;
    leap + (if m == 1 then 0 else if m == 2 then 31 else if m == 3 then 59
            else if m == 4 then 90 else if m == 5 then 120 else if m == 6 then 151
            else if m == 7 then 181 else if m == 8 then 212 else if m == 9 then 243
            else if m == 10 then 273 else if m == 11 then 304 else if m == 12 then 334
            else 365)
  }

  function DayNumber(c: Civil): int
    requires 1 <= c.month <= 12
  {
    DaysBeforeYear(c.year) + DaysBeforeMonth(c.year, c.month) + c.day - 1
  }

  lemma YearStep(y: int)
    ensures DaysBeforeYear(y + 1) == DaysBeforeYear(y) + YearLength(y)
  {
    LeapStep(y);
  }

  /** Each of the three counts in LeapYearsBefore moves on by one exactly at its multiples. */
  lemma LeapStep(y: int)
    ensures y / 4 - (y - 1) / 4 == if y % 4 == 0 then 1 else 0
    ensures y / 100 - (y - 1) / 100 == if y % 100 == 0 then 1 else 0
    ensures y / 400 - (y - 1) / 400 == if y % 400 == 0 then 1 else 0
    ensures y % 100 == 0 ==> y % 4 == 0
    ensures y % 400 == 0 ==> y % 100 == 0
  {
    DivStep(y, 4);
    DivStep(y, 100);
    DivStep(y, 400);
    MultipleOf(y, 100, 4);
    MultipleOf(y, 400, 100);
  }

  lemma DivStep(y: int, d: int)
    requires d == 4 || d == 100 || d == 400
    ensures y / d - (y - 1) / d == if y % d == 0 then 1 else 0
  {
    if d == 4 {
      assert y / 4 - (y - 1) / 4 == if y % 4 == 0 then 1 else 0;
    } else if d == 100 {
      assert y / 100 - (y - 1) / 100 == if y % 100 == 0 then 1 else 0;
    } else {
      assert y / 400 - (y - 1) / 400 == if y % 400 == 0 then 1 else 0;
    }
  }

  lemma MultipleOf(y: int, m: int, d: int)
    requires (m == 100 && d == 4) || (m == 400 && d == 100)
    ensures y % m == 0 ==> y % d == 0
  {
    if y % m == 0 {
      var q := y / m;
      assert y == m * q;
      if m == 100 {
        assert y == 4 * (25 * q);
      } else {
        assert y == 100 * (4 * q);
      }
    }
  }

  lemma {:induction false} DaysBeforeYearGrows(a: int, b: int)
    requires a <= b
    ensures DaysBeforeYear(a) + 365 * (b - a) <= DaysBeforeYear(b)
    decreases b - a
  {
    if a < b {
      YearStep(a);
      DaysBeforeYearGrows(a + 1, b);
    }
  }

  lemma MonthStep(y: int, m: int)
    requires 1 <= m <= 12
    ensures DaysBeforeMonth(y, m + 1) == DaysBeforeMonth(y, m) + DaysInMonth(y, m)
    ensures DaysBeforeMonth(y, 13) == YearLength(y)
  {
  }

  /** Finds the year holding the day `off` days after January 1 of year y:
      the year and the day's offset into it. */
  function FindYear(y: int, off: int): (r: (int, int))
    decreases if off < 0 then 1 else 0, if off < 0 then -off else off
  {
    if off < 0 then FindYear(y - 1, off + YearLength(y - 1))
    else if off >= YearLength(y) then FindYear(y + 1, off - YearLength(y))
    else (y, off)
  }

  lemma {:induction false} FindYearCorrect(y: int, off: int)
    ensures 0 <= FindYear(y, off).1 < YearLength(FindYear(y, off).0)
    ensures DaysBeforeYear(FindYear(y, off).0) + FindYear(y, off).1 == DaysBeforeYear(y) + off
    decreases if off < 0 then 1 else 0, if off < 0 then -off else off
  {
    if off < 0 {
      YearStep(y - 1);
      FindYearCorrect(y - 1, off + YearLength(y - 1));
    } else if off >= YearLength(y) {
      YearStep(y);
      FindYearCorrect(y + 1, off - YearLength(y));
    }
  }

  /** Finds the month and the day of the month of the day `off` days after the first of month m. */
  function FindMonth(y: int, m: int, off: int): (r: (int, int))
    requires 1 <= m <= 12 && 0 <= off < YearLength(y) - DaysBeforeMonth(y, m)
    ensures 1 <= r.0 <= 12 && 1 <= r.1 <= DaysInMonth(y, r.0)
    ensures DaysBeforeMonth(y, r.0) + r.1 - 1 == DaysBeforeMonth(y, m) + off
    decreases 12 - m
  {
    MonthStep(y, m);
    if off < DaysInMonth(y, m) then (m, off + 1)
    else FindMonth(y, m + 1, off - DaysInMonth(y, m))
  }

  /** The calendar date of a day number; it is the one valid date with that number. */
  function CivilOf(n: int): Civil
  {
    FindYearCorrect(1970, n);
    MonthStep(FindYear(1970, n).0, 1);
    var (y, off) := FindYear(1970, n);
    var (m, d) := FindMonth(y, 1, off);
    Civil(y, m, d)
  }

  lemma CivilOfCorrect(n: int)
    ensures ValidCivil(CivilOf(n)) && DayNumber(CivilOf(n)) == n
  {
    FindYearCorrect(1970, n);
    MonthStep(FindYear(1970, n).0, 1);
  }

  /** A valid date's number lies in its own year. */
  lemma DayNumberWithinYear(c: Civil)
    requires ValidCivil(c)
    ensures DaysBeforeYear(c.year) <= DayNumber(c) < DaysBeforeYear(c.year + 1)
  {
    YearStep(c.year);
    MonthStep(c.year, c.month);
  }

  /** Later dates have larger day numbers: the calendar order is the numeric order. */
  lemma DayNumberOrder(a: Civil, b: Civil)
    requires ValidCivil(a) && ValidCivil(b)
    requires a.year < b.year
          || (a.year == b.year && a.month < b.month)
          || (a.year == b.year && a.month == b.month && a.day < b.day)
    ensures DayNumber(a) < DayNumber(b)
  {
    if a.year < b.year {
      DayNumberWithinYear(a);
      DayNumberWithinYear(b);
      DaysBeforeYearGrows(a.year + 1, b.year);
    } else if a.month < b.month {
      MonthStep(a.year, a.month);
      MonthsGrow(a.year, a.month + 1, b.month);
    }
  }

  lemma {:induction false} MonthsGrow(y: int, m: int, m': int)
    requires 1 <= m <= m' <= 13
    ensures DaysBeforeMonth(y, m) <= DaysBeforeMonth(y, m')
  {
  }

  /** Reading a valid date's number back gives the same date. */
  lemma CivilOfDayNumber(c: Civil)
    requires ValidCivil(c)
    ensures CivilOf(DayNumber(c)) == c
  {
    var c' := CivilOf(DayNumber(c));
    CivilOfCorrect(DayNumber(c));
    if c' != c {
      if c.year < c'.year || (c.year == c'.year && c.month < c'.month)
        || (c.year == c'.year && c.month == c'.month && c.day < c'.day) {
        DayNumberOrder(c, c');
      } else {
        DayNumberOrder(c', c);
      }
    }
  }

  /** `getDayOfWeek`: 0 is Sunday, 6 is Saturday; day 0 (1970-01-01) was a Thursday. */
  function DayOfWeek(n: int): (w: int)
    ensures 0 <= w <= 6
  {
    (n + 4) % 7
  }

  /** The day an instant falls on (JavaScript's Date rounds down, also before 1970). */
  function DayOf(ms: int): int { ms / MsPerDay }

  /** The year as `toISOString` writes it: four digits, or a sign and six digits outside 0 .. 9999. */
  function YearString(y: int): string
  {
    if 0 <= y <= 9999 then PadDigits(y, 4)
    else (if y < 0 then "-" else "+") + PadDigits(if y < 0 then -y else y, 6)
  }

  /** The `YYYY-MM-DD` form of a day. */
  function DateString(n: int): string
  {
    CivilOfCorrect(n);
    Fields(CivilOf(n))
  }

  /** `Date.prototype.toISOString`: `YYYY-MM-DDTHH:mm:ss.sssZ`. */
  function ToIsoString(ms: int): string
  {
    DateString(DayOf(ms)) + "T" + TimeOfDayString(ms)
  }

  /** The `HH:mm:ss.sssZ` part of the ISO string. */
  function TimeOfDayString(ms: int): string
  {
    var t := ms % MsPerDay;
    PadDigits(t / 3600000, 2) + ":" + PadDigits(t / 60000 % 60, 2) + ":"
      + PadDigits(t / 1000 % 60, 2) + "." + PadDigits(t % 1000, 3) + "Z"
  }

  predicate InDomain(n: int) { MinYear <= CivilOf(n).year <= MaxYear }

  /** `getDateString(date)`: the date part of `date.toISOString()`, see `GetDateStringIsIsoDatePart`. */
  function GetDateString(ms: int): string
  {
    DateString(DayOf(ms))
  }

  /** `getDateString` is `toISOString().split("T")[0]`: the ISO string up to its first `T`. */
  lemma GetDateStringIsIsoDatePart(ms: int)
    ensures GetDateString(ms) == BeforeFirst(ToIsoString(ms), 'T')
  {
    var date := DateString(DayOf(ms));
    var rest := TimeOfDayString(ms);
    assert ToIsoString(ms) == date + ['T'] + rest;
    DateStringHasNoT(DayOf(ms));
    BeforeFirstOfJoin(date, 'T', rest);
  }

  /** For a day in the modelled years, `getDateString` gives the 10-character
      `YYYY-MM-DD` start of the ISO string. */
  lemma GetDateStringIsIsoPrefix(ms: int)
    requires InDomain(DayOf(ms))
    ensures |GetDateString(ms)| == 10 && GetDateString(ms) == ToIsoString(ms)[..10]
    ensures IsDateString(GetDateString(ms))
  {
    DateStringHasNoT(DayOf(ms));
    DateStringRoundTrip(DayOf(ms));
    assert ToIsoString(ms) == DateString(DayOf(ms)) + ['T'] + TimeOfDayString(ms);
  }

  lemma DateStringHasNoT(n: int)
    ensures 'T' !in DateString(n)
    ensures InDomain(n) ==> |DateString(n)| == 10
  {
    var c := CivilOf(n);
    var y := YearString(c.year);
    assert 'T' !in y by {
      if 0 <= c.year <= 9999 {
        assert AllDigits(y);
      } else {
        var digits := PadDigits(if c.year < 0 then -c.year else c.year, 6);
        assert AllDigits(digits);
        assert y == (if c.year < 0 then "-" else "+") + digits;
      }
    }
    assert AllDigits(PadDigits(c.month, 2)) && AllDigits(PadDigits(c.day, 2));
  }

  /** `getDayOfWeek(date)`: `date.getDay()` for a UTC server. */
  function GetDayOfWeek(ms: int): (w: int)
    ensures 0 <= w <= 6
    ensures w == DayOfWeek(DayOf(ms))
  {
    (DayOf(ms) + 4) % 7
  }

  /** The weekday numbering moves on by one each day and puts Sunday 1970-01-04 at 0. */
  lemma WeekdayNumbering(n: int)
    ensures DayOfWeek(n + 1) == (DayOfWeek(n) + 1) % 7
    ensures DayOfWeek(DayNumber(Civil(1970, 1, 4))) == 0
  {
  }

  /** A canonical `YYYY-MM-DD` string of a valid date in the modelled years. */
  predicate IsDateString(s: string)
  {
    DateShaped(s) && IsValidDate(Civil(DigitsValue(s[..4]), DigitsValue(s[5..7]), DigitsValue(s[8..])))
  }

  /** Four digits, a dash, two digits, a dash, two digits. */
  predicate DateShaped(s: string)
  {
    && |s| == 10 && s[4] == '-' && s[7] == '-'
    && AllDigits(s[..4]) && AllDigits(s[5..7]) && AllDigits(s[8..])
  }

  predicate IsValidDate(c: Civil)
  {
    ValidCivil(c) && MinYear <= c.year
  }

  function DateFields(s: string): (c: Civil)
    requires IsDateString(s)
    ensures ValidCivil(c)
  {
    Civil(DigitsValue(s[..4]), DigitsValue(s[5..7]), DigitsValue(s[8..]))
  }

  /** The day a date string names. */
  function ParseDay(s: string): int
    requires IsDateString(s)
  {
    DayNumber(DateFields(s))
  }

  /** `parseDateString(s).getTime()`: `new Date(year, month - 1, day)` is local midnight, which is
      UTC midnight on a UTC server. */
  function ParseDateString(s: string): (ms: int)
    requires IsDateString(s)
    ensures DayOf(ms) == ParseDay(s) && ms % MsPerDay == 0
  {
    ParseDay(s) * MsPerDay
  }

  /** A date string and its day number determine each other. */
  lemma DateStringRoundTrip(n: int)
    requires InDomain(n)
    ensures IsDateString(DateString(n)) && ParseDay(DateString(n)) == n
  {
    var c := CivilOf(n);
    CivilOfCorrect(n);
    var s := DateString(n);
    DateStringPieces(n);
    DigitsValueOfPad(c.year, 4);
    DigitsValueOfPad(c.month, 2);
    DigitsValueOfPad(c.day, 2);
    assert DateFields(s) == c;
  }

  /** Where the year, month and day digits sit in a day's string. */
  lemma DateStringPieces(n: int)
    requires InDomain(n)
    ensures var c, s := CivilOf(n), DateString(n);
      && |s| == 10 && s[4] == '-' && s[7] == '-'
      && s[..4] == PadDigits(c.year, 4) && s[5..7] == PadDigits(c.month, 2) && s[8..] == PadDigits(c.day, 2)
  {
    var c := CivilOf(n);
    CivilOfCorrect(n);
    var s := DateString(n);
    var y, m, d := PadDigits(c.year, 4), PadDigits(c.month, 2), PadDigits(c.day, 2);
    assert s == y + "-" + m + "-" + d;
  }

  lemma ParseDayRoundTrip(s: string)
    requires IsDateString(s)
    ensures InDomain(ParseDay(s)) && DateString(ParseDay(s)) == s
  {
    var c := DateFields(s);
    CivilOfDayNumber(c);
    PadOfDigitsValue(s[..4]);
    PadOfDigitsValue(s[5..7]);
    PadOfDigitsValue(s[8..]);
    assert s == s[..4] + "-" + s[5..7] + "-" + s[8..];
  }

  /** `parseDateString(getDateString(now))` is the midnight that starts the day of `now`. */
  lemma StartOfDay(now: int)
    requires InDomain(DayOf(now))
    ensures IsDateString(GetDateString(now)) && ParseDateString(GetDateString(now)) == DayOf(now) * MsPerDay
  {
    DateStringRoundTrip(DayOf(now));
  }

  /** `parseDateString(getDateString(now))`: the UTC midnight that starts the day of `now`. */
  function MidnightOf(now: int): (ms: int)
    requires InDomain(DayOf(now))
    ensures ms == DayOf(now) * MsPerDay
  {
    StartOfDay(now);
    ParseDateString(GetDateString(now))
  }

  /** `addDays(s, k)`: parse s, move the date by k days, write it back with `getDateString`.
      On a UTC server `setDate(getDate() + k)` on a midnight moves it by exactly k days. */
  function AddDays(s: string, k: int): (r: string)
    requires IsDateString(s) && InDomain(ParseDay(s) + k)
    ensures IsDateString(r) && ParseDay(r) == ParseDay(s) + k
  {
    var moved := MovedMidnight(s, k);
    DateStringRoundTrip(ParseDay(s) + k);
    GetDateString(moved)
  }

  /** `date.setDate(date.getDate() + k)` on the parsed midnight. */
  function MovedMidnight(s: string, k: int): (ms: int)
    requires IsDateString(s)
    ensures DayOf(ms) == ParseDay(s) + k
  {
    DayOfShift(ParseDay(s), k);
    ParseDateString(s) + k * MsPerDay
  }

  lemma DayOfShift(x: int, k: int)
    ensures DayOf(x * MsPerDay + k * MsPerDay) == x + k
  {
    assert x * MsPerDay + k * MsPerDay == (x + k) * MsPerDay;
  }

  /** `addDays` writes the string of the day it moved to. */
  lemma AddDaysIsDateString(s: string, k: int, n: int)
    requires IsDateString(s) && InDomain(ParseDay(s) + k) && n == ParseDay(s) + k
    ensures AddDays(s, k) == DateString(n)
  {
  }

  /** Moving a date string by 0 days leaves it as it is. */
  lemma AddDaysZero(s: string)
    requires IsDateString(s)
    ensures InDomain(ParseDay(s)) && AddDays(s, 0) == s
  {
    ParseDayRoundTrip(s);
    AddDaysIsDateString(s, 0, ParseDay(s));
  }

  /** Two date strings naming the same day are the same string. */
  lemma DateStringsEqual(s: string, t: string)
    requires IsDateString(s) && IsDateString(t) && ParseDay(s) == ParseDay(t)
    ensures s == t
  {
    ParseDayRoundTrip(s);
    ParseDayRoundTrip(t);
  }

  /** Comparing date strings as strings, as the `gte`/`lte` range filters do, compares the days. */
  lemma DateStringOrder(a: int, b: int)
    requires InDomain(a) && InDomain(b)
    ensures LexLe(DateString(a), DateString(b)) <==> a <= b
  {
    if a == b {
      LexLeRefl(DateString(a));
    } else if a < b {
      DateStringLess(a, b);
    } else {
      DateStringLess(b, a);
      DateStringHasNoT(a);
      DateStringHasNoT(b);
      LexLeTotal(DateString(a), DateString(b));
    }
  }

  /** The same for any two date strings: their string order is the order of their days. */
  lemma DateOrder(s: string, t: string)
    requires IsDateString(s) && IsDateString(t)
    ensures LexLe(s, t) <==> ParseDay(s) <= ParseDay(t)
  {
    ParseDayRoundTrip(s);
    ParseDayRoundTrip(t);
    DateStringOrder(ParseDay(s), ParseDay(t));
  }

  lemma DateStringLess(a: int, b: int)
    requires InDomain(a) && InDomain(b) && a < b
    ensures DateString(a) != DateString(b) && LexLe(DateString(a), DateString(b))
  {
    DateStringRoundTrip(a);
    DateStringRoundTrip(b);
    CivilOrder(a, b);
    var ca, cb := CivilOf(a), CivilOf(b);
    if ca.year < cb.year {
      YearDecides(ca, cb);
    } else if ca.month < cb.month {
      MonthDecides(ca, cb);
    } else {
      DayDecides(ca, cb);
    }
  }

  /** The date of the earlier day comes first in calendar order. */
  lemma CivilOrder(a: int, b: int)
    requires a < b
    ensures var ca, cb := CivilOf(a), CivilOf(b);
      ca.year < cb.year || (ca.year == cb.year && ca.month < cb.month)
      || (ca.year == cb.year && ca.month == cb.month && ca.day < cb.day)
  {
    var ca, cb := CivilOf(a), CivilOf(b);
    CivilOfCorrect(a);
    CivilOfCorrect(b);
    if cb.year < ca.year || (cb.year == ca.year && cb.month < ca.month)
       || (cb.year == ca.year && cb.month == ca.month && cb.day < ca.day) {
      DayNumberOrder(cb, ca);
    }
  }

  function Fields(c: Civil): string
    requires ValidCivil(c)
  {
    YearString(c.year) + "-" + PadDigits(c.month, 2) + "-" + PadDigits(c.day, 2)
  }

  lemma YearDecides(ca: Civil, cb: Civil)
    requires ValidCivil(ca) && ValidCivil(cb) && MinYear <= ca.year < cb.year <= MaxYear
    ensures LexLe(Fields(ca), Fields(cb))
  {
    var ya, yb := PadDigits(ca.year, 4), PadDigits(cb.year, 4);
    PadDigitsOrder(ca.year, cb.year, 4);
    FieldsAfterYear(ca);
    FieldsAfterYear(cb);
    LexLePrefix(ya, yb, RestAfterYear(ca), RestAfterYear(cb));
  }

  function RestAfterYear(c: Civil): string
    requires ValidCivil(c)
  {
    "-" + PadDigits(c.month, 2) + "-" + PadDigits(c.day, 2)
  }

  lemma FieldsAfterYear(c: Civil)
    requires ValidCivil(c) && MinYear <= c.year <= MaxYear
    ensures Fields(c) == PadDigits(c.year, 4) + RestAfterYear(c)
  {
  }

  lemma MonthDecides(ca: Civil, cb: Civil)
    requires ValidCivil(ca) && ValidCivil(cb) && MinYear <= ca.year == cb.year <= MaxYear
    requires ca.month < cb.month
    ensures LexLe(Fields(ca), Fields(cb))
  {
    var p := PadDigits(ca.year, 4) + "-";
    var ma, mb := PadDigits(ca.month, 2), PadDigits(cb.month, 2);
    var ra, rb := "-" + PadDigits(ca.day, 2), "-" + PadDigits(cb.day, 2);
    assert Fields(ca) == p + (ma + ra);
    assert Fields(cb) == p + (mb + rb);
    LexLeCommonPrefix(p, ma + ra, mb + rb);
    PadDigitsOrder(ca.month, cb.month, 2);
    LexLePrefix(ma, mb, ra, rb);
  }

  lemma DayDecides(ca: Civil, cb: Civil)
    requires ValidCivil(ca) && ValidCivil(cb) && MinYear <= ca.year == cb.year <= MaxYear
    requires ca.month == cb.month && ca.day < cb.day
    ensures LexLe(Fields(ca), Fields(cb))
  {
    var p := PadDigits(ca.year, 4) + "-" + PadDigits(ca.month, 2) + "-";
    assert Fields(ca) == p + PadDigits(ca.day, 2);
    assert Fields(cb) == p + PadDigits(cb.day, 2);
    LexLeCommonPrefix(p, PadDigits(ca.day, 2), PadDigits(cb.day, 2));
    PadDigitsOrder(ca.day, cb.day, 2);
  }

  /** The days of the modelled years form an interval. */
  lemma InDomainBetween(a: int, n: int, b: int)
    requires InDomain(a) && InDomain(b) && a <= n <= b
    ensures InDomain(n)
  {
    if a < n { CivilOrder(a, n); }
    if n < b { CivilOrder(n, b); }
  }

  /** The clock readings the model covers: the week before and the week after lie in the
      modelled years. */
  predicate ClockInRange(now: int)
  {
    InDomain(DayOf(now) - 7) && InDomain(DayOf(now) + 7)
  }

  lemma ClockDay(now: int, k: int)
    requires ClockInRange(now) && -7 <= k <= 7
    ensures InDomain(DayOf(now) + k)
  {
    var d := DayOf(now);
    assert InDomain(d - 7) && InDomain(d + 7);
    InDomainBetween(d - 7, d + k, d + 7);
  }
}
