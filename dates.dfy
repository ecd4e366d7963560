/** Python's proleptic-Gregorian `date` and naive `datetime`, with the pieces of
    `strftime` (`%a`, `%-I`, `%M`, `%p`), `calendar.month_name`, `isoformat`
    and `+ timedelta(days=1)` that the source uses, written out as tables. */
module Dates {
  import opened Wrappers
  import opened Text

  datatype Date = Date(year: int, month: int, day: int)

  /** A naive `datetime` to the second (microseconds are not modelled). */
  datatype DateTime = DateTime(date: Date, hour: int, minute: int, second: int)

  /** The time `hour:minute:00` on day `d`. */
  function At(d: Date, hour: int, minute: int): DateTime {
    DateTime(d, hour, minute, 0)
  }

  predicate IsLeap(y: int) {
    y % 4 == 0 && (y % 100 != 0 || y % 400 == 0)
  }

  function DaysInMonth(y: int, m: int): (n: int)
    requires 1 <= m <= 12
    ensures 28 <= n <= 31
  {
    if m == 2 then (if IsLeap(y) then 29 else 28)
    else if m == 4 || m == 6 || m == 9 || m == 11 then 30
    else 31
  }

  /** `datetime.MINYEAR <= year <= datetime.MAXYEAR` and a real day of a real month. */
  predicate ValidDate(d: Date) {
    1 <= d.year <= 9999 && 1 <= d.month <= 12 && 1 <= d.day <= DaysInMonth(d.year, d.month)
  }

  predicate ValidDateTime(t: DateTime) {
    ValidDate(t.date) && 0 <= t.hour < 24 && 0 <= t.minute < 60 && 0 <= t.second < 60
  }

  /** Days in the years before `y`. */
  function DaysBeforeYear(y: int): int
    requires y >= 1
  {
    var p := y - 1;
    365 * p + p / 4 - p / 100 + p / 400
  }

  /** Days before each month in a common year. */
  const CumulativeDays: seq<int> := [0, 31, 59, 90, 120, 151, 181, 212, 243, 273, 304, 334]

  function DaysBeforeMonth(y: int, m: int): int
    requires 1 <= m <= 12
  {
    CumulativeDays[m - 1]
    + (if m > 2 && IsLeap(y) then 1 else 0)
  }

  /** `date.toordinal()`: 0001-01-01 is day 1. */
  function Ordinal(d: Date): int
    requires ValidDate(d)
  {
    DaysBeforeYear(d.year) + DaysBeforeMonth(d.year, d.month) + d.day
  }

  /** `date.weekday()`: Monday is 0 and Sunday is 6. */
  function Weekday(d: Date): (w: int)
    requires ValidDate(d)
    ensures 0 <= w < 7
  {
    (Ordinal(d) + 6) % 7
  }

  const WeekdayNames: seq<string> := ["Mon", "Tue", "Wed", "Thu", "Fri", "Sat", "Sun"]

  /** `strftime("%a")` in the C locale. */
  function WeekdayAbbrev(d: Date): (s: string)
    requires ValidDate(d)
    ensures |s| == 3
  {
    WeekdayNames[Weekday(d)]
  }

  const MonthNames: seq<string> := ["January", "February", "March", "April", "May", "June", "July",
    "August", "September", "October", "November", "December"]

  /** `calendar.month_name[m]` in the C locale. */
  function MonthName(m: int): (s: string)
    requires 1 <= m <= 12
    ensures |s| >= 3
  {
    MonthNames[m - 1]
  }

  lemma YearLength(y: int)
    requires y >= 1
    ensures DaysBeforeYear(y + 1) == DaysBeforeYear(y) + (if IsLeap(y) then 366 else 365)
  {
    var p := y - 1;
    DivStep4(y);
    DivStep100(y);
    DivStep400(y);
    LeapDivides(y);
  }

  lemma LeapDivides(y: int)
    ensures y % 400 == 0 ==> y % 100 == 0
    ensures y % 100 == 0 ==> y % 4 == 0
  {
  }

  lemma DivStep4(y: int)
    ensures y / 4 == (y - 1) / 4 + (if y % 4 == 0 then 1 else 0)
  {
  }

  lemma DivStep100(y: int)
    ensures y / 100 == (y - 1) / 100 + (if y % 100 == 0 then 1 else 0)
  {
  }

  lemma DivStep400(y: int)
    ensures y / 400 == (y - 1) / 400 + (if y % 400 == 0 then 1 else 0)
  {
  }

  /** `d + timedelta(days=1)`; Python raises OverflowError past 9999-12-31. */
  function NextDay(d: Date): (r: Option<Date>)
    requires ValidDate(d)
    ensures r.None? <==> d == Date(9999, 12, 31)
    ensures r.Some? ==> ValidDate(r.value) && Ordinal(r.value) == Ordinal(d) + 1
  {
    if d.day < DaysInMonth(d.year, d.month) then Some(Date(d.year, d.month, d.day + 1))
    else if d.month < 12 then Some(Date(d.year, d.month + 1, 1))
    else if d.year < 9999 then
      YearLength(d.year);
      Some(Date(d.year + 1, 1, 1))
    else None
  }

  /** Chronological order on dates, as Python's `<=` on `date`. */
  predicate DateLe(a: Date, b: Date) {
    a.year < b.year
    || (a.year == b.year && (a.month < b.month || (a.month == b.month && a.day <= b.day)))
  }

  /** Chronological order on naive datetimes, as Python's `<` on `datetime`. */
  predicate DateTimeLt(a: DateTime, b: DateTime) {
    (DateLe(a.date, b.date) && a.date != b.date)
    || (a.date == b.date
        && (a.hour < b.hour
            || (a.hour == b.hour
                && (a.minute < b.minute || (a.minute == b.minute && a.second < b.second)))))
  }

  /** `strftime("%-I")`: the hour on a 12-hour clock, without padding. */
  function Hour12(h: int): (r: int)
    requires 0 <= h < 24
    ensures 1 <= r <= 12
  {
    if h % 12 == 0 then 12 else h % 12
  }

  /** `strftime("%p")` in the C locale. */
  function AmPm(h: int): (s: string)
    requires 0 <= h < 24
  {
    if h < 12 then "AM" else "PM"
  }

  /** The 12-hour reading loses nothing: the hour is recovered from `%-I` and `%p`. */
  lemma Hour12Inverse(h: int)
    requires 0 <= h < 24
    ensures Hour12(h) % 12 + (if AmPm(h) == "PM" then 12 else 0) == h
  {
  }

  /** `strftime("%M")`. */
  function Minute2(t: DateTime): (s: string)
    requires ValidDateTime(t)
  {
    ZeroPad(t.minute, 2)
  }

  /** `date.isoformat()`: `YYYY-MM-DD`. */
  function IsoDate(d: Date): (s: string)
    requires ValidDate(d)
  {
    ZeroPad(d.year, 4) + "-" + ZeroPad(d.month, 2) + "-" + ZeroPad(d.day, 2)
  }

  /** `datetime.isoformat()` without microseconds: `YYYY-MM-DDTHH:MM:SS`. */
  function IsoDateTime(t: DateTime): (s: string)
    requires ValidDateTime(t)
  {
    IsoDate(t.date) + "T" + ZeroPad(t.hour, 2) + ":" + ZeroPad(t.minute, 2) + ":"
    + ZeroPad(t.second, 2)
  }

  // Ordering rows by a date column.

  /** Ascending `ORDER BY` on a nullable date column in PostgreSQL: a
      missing date sorts last. */
  predicate NullsLastLe(a: Option<Date>, b: Option<Date>) {
    b.None? || (a.Some? && DateLe(a.value, b.value))
  }

  /** `s` in ascending order of the date `key` gives each row. */
  predicate SortedOn<T>(s: seq<T>, key: T -> Option<Date>) {
    forall i, j :: 0 <= i < j < |s| ==> NullsLastLe(key(s[i]), key(s[j]))
  }

  /** `x` placed before the first row whose date does not precede its own. */
  function InsertOn<T(==)>(x: T, s: seq<T>, key: T -> Option<Date>): (r: seq<T>)
    requires SortedOn(s, key)
    ensures SortedOn(r, key)
    ensures multiset(r) == multiset(s) + multiset{x}
  {
    if s == [] || NullsLastLe(key(x), key(s[0])) then
      InsertOnFirst(x, s, key);
      [x] + s
    else
      var rest := InsertOn(x, s[1..], key);
      InsertOnAfter(x, s, rest, key);
      [s[0]] + rest
  }

  lemma NullsLastLeTrans(a: Option<Date>, b: Option<Date>, c: Option<Date>)
    requires NullsLastLe(a, b) && NullsLastLe(b, c)
    ensures NullsLastLe(a, c)
  {
  }

  lemma InsertOnFirst<T>(x: T, s: seq<T>, key: T -> Option<Date>)
    requires SortedOn(s, key) && (s == [] || NullsLastLe(key(x), key(s[0])))
    ensures SortedOn([x] + s, key)
  {
    var r := [x] + s;
    forall i, j | 0 <= i < j < |r|
      ensures NullsLastLe(key(r[i]), key(r[j]))
    {
      if i == 0 && j > 1 {
        NullsLastLeTrans(key(x), key(s[0]), key(s[j - 1]));
      }
    }
  }

  lemma InsertOnAfter<T>(x: T, s: seq<T>, rest: seq<T>, key: T -> Option<Date>)
    requires SortedOn(s, key) && s != [] && !NullsLastLe(key(x), key(s[0]))
    requires SortedOn(rest, key) && multiset(rest) == multiset(s[1..]) + multiset{x}
    ensures SortedOn([s[0]] + rest, key)
    ensures multiset([s[0]] + rest) == multiset(s) + multiset{x}
  {
    assert s == [s[0]] + s[1..];
    var r := [s[0]] + rest;
    forall i, j | 0 <= i < j < |r|
      ensures NullsLastLe(key(r[i]), key(r[j]))
    {
      if i == 0 {
        var y := rest[j - 1];
        assert y in multiset(rest);
        if y != x {
          assert y in s[1..];
          var k :| 0 <= k < |s[1..]| && s[1..][k] == y;
          assert NullsLastLe(key(s[0]), key(s[k + 1]));
        }
      } else {
        assert r[i] == rest[i - 1] && r[j] == rest[j - 1];
      }
    }
  }

  /** Insertion sort on the date `key`: sorted, and a permutation of the
      input; rows with equal dates keep their relative order. */
  function SortOn<T(==)>(s: seq<T>, key: T -> Option<Date>): (r: seq<T>)
    ensures SortedOn(r, key)
    ensures multiset(r) == multiset(s)
  {
    if s == [] then []
    else
      assert s == [s[0]] + s[1..];
      InsertOn(s[0], SortOn(s[1..], key), key)
  }
}
