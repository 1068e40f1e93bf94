/**
 * Calendar dates with the semantics of Python's `datetime` as the repository uses it:
 * proleptic Gregorian dates, `toordinal`, `weekday` (Monday is 0, Sunday is 6),
 * `timedelta(days = n)` arithmetic and comparison.  A time of day is kept only
 * where the source compares a midnight date against `datetime.now()`.
 */
module Dates {
  datatype Date = Date(year: int, month: int, day: int)

  /** A moment of a day: `second` counts the seconds since midnight. */
  datatype Instant = Instant(date: Date, second: int)

  /** The leap-year rule Python's `datetime` applies when it validates a day. */
  predicate LeapYear(y: int) {
    (y % 4 == 0 && y % 100 != 0) || y % 400 == 0
  }

  function DaysInMonth(y: int, m: int): (n: int)
    ensures 28 <= n <= 31
    ensures n == 29 <==> m == 2 && LeapYear(y)
  {
    if m == 2 then (if LeapYear(y) then 29 else 28)
    else if m == 4 || m == 6 || m == 9 || m == 11 then 30
    else 31
  }

  /** The dates `datetime(y, m, d)` accepts (the 1..9999 year range aside). */
  predicate Valid(d: Date) {
    1 <= d.month <= 12 && 1 <= d.day <= DaysInMonth(d.year, d.month)
  }

  predicate ValidInstant(t: Instant) {
    Valid(t.date) && 0 <= t.second < 86400
  }

  /** `a < b` on dates. */
  predicate Before(a: Date, b: Date) {
    a.year < b.year || (a.year == b.year && (a.month < b.month || (a.month == b.month && a.day < b.day)))
  }

  /** `a <= b` on dates. */
  predicate Le(a: Date, b: Date) {
    !Before(b, a)
  }

  /** The midnight datetime of `d` compared with `t`: `datetime(d) < t`. */
  predicate BeforeInstant(d: Date, t: Instant) {
    Before(d, t.date) || (d == t.date && t.second > 0)
  }

  /** `t > datetime(d)`, the same comparison read from the other side. */
  predicate InstantAfter(t: Instant, d: Date) {
    BeforeInstant(d, t)
  }

  function Min(a: Date, b: Date): Date {
    if Le(a, b) then a else b
  }

  function Max(a: Date, b: Date): Date {
    if Le(a, b) then b else a
  }

  function LastOfMonth(y: int, m: int): Date {
    Date(y, m, DaysInMonth(y, m))
  }

  /** `d + timedelta(days=1)`. */
  function NextDay(d: Date): Date {
    if d.day < DaysInMonth(d.year, d.month) then Date(d.year, d.month, d.day + 1)
    else if d.month < 12 then Date(d.year, d.month + 1, 1)
    else Date(d.year + 1, 1, 1)
  }

  /** `d - timedelta(days=1)`. */
  function PrevDay(d: Date): Date {
    if d.day > 1 then Date(d.year, d.month, d.day - 1)
    else if d.month > 1 then LastOfMonth(d.year, d.month - 1)
    else Date(d.year - 1, 12, 31)
  }

  /** `d + timedelta(days=n)`, computed a month at a time. */
  function AddDays(d: Date, n: int): Date
    requires Valid(d)
    decreases if n >= 0 then n else -n
  {
    if n >= 0 then
      if d.day + n <= DaysInMonth(d.year, d.month) then Date(d.year, d.month, d.day + n)
      else AddDays(NextDay(LastOfMonth(d.year, d.month)), n - (DaysInMonth(d.year, d.month) - d.day + 1))
    else
      if d.day + n >= 1 then Date(d.year, d.month, d.day + n)
      else AddDays(PrevDay(Date(d.year, d.month, 1)), n + d.day)
  }

  function DaysBeforeYear(y: int): int {
    365 * (y - 1) + (y - 1) / 4 - (y - 1) / 100 + (y - 1) / 400
  }

  function DaysBeforeMonth(y: int, m: int): int {
    (if m <= 1 then 0 else if m == 2 then 31 else if m == 3 then 59 else if m == 4 then 90
     else if m == 5 then 120 else if m == 6 then 151 else if m == 7 then 181 else if m == 8 then 212
     else if m == 9 then 243 else if m == 10 then 273 else if m == 11 then 304 else 334)
    + (if m > 2 && LeapYear(y) then 1 else 0)
  }

  /** `date.toordinal()`: 1 January of year 1 is day 1. */
  function Ordinal(d: Date): int {
    DaysBeforeYear(d.year) + DaysBeforeMonth(d.year, d.month) + d.day
  }

  /** `date.weekday()`: Monday is 0 and Sunday is 6. */
  function Weekday(d: Date): (w: int)
    ensures 0 <= w < 7
  {
    (Ordinal(d) + 6) % 7
  }

  /** `(b - a).days` for two dates. */
  function DaysBetween(a: Date, b: Date): int {
    Ordinal(b) - Ordinal(a)
  }

  lemma YearLength(y: int)
    ensures DaysBeforeYear(y + 1) - DaysBeforeYear(y) == if LeapYear(y) then 366 else 365
  {
    assert y / 4 - (y - 1) / 4 == if y % 4 == 0 then 1 else 0;
    assert y / 100 - (y - 1) / 100 == if y % 100 == 0 then 1 else 0;
    assert y / 400 - (y - 1) / 400 == if y % 400 == 0 then 1 else 0;
    assert y % 400 == 0 ==> y % 100 == 0;
    assert y % 100 == 0 ==> y % 4 == 0;
  }

  /** The day after a valid date is a valid date one ordinal later and one weekday later. */
  lemma NextDayFacts(d: Date)
    requires Valid(d)
    ensures Valid(NextDay(d)) && Before(d, NextDay(d))
    ensures Ordinal(NextDay(d)) == Ordinal(d) + 1
    ensures Weekday(NextDay(d)) == (Weekday(d) + 1) % 7
  {
    NextDayOrdinal(d);
    ModSuccessor(Ordinal(d) + 6);
  }

  lemma NextDayOrdinal(d: Date)
    requires Valid(d)
    ensures Valid(NextDay(d)) && Before(d, NextDay(d))
    ensures Ordinal(NextDay(d)) == Ordinal(d) + 1
  {
    if d.day == DaysInMonth(d.year, d.month) && d.month == 12 {
      YearLength(d.year);
    }
  }

  lemma ModSuccessor(n: int)
    ensures (n + 1) % 7 == (n % 7 + 1) % 7
  {
  }

  lemma PrevDayFacts(d: Date)
    requires Valid(d)
    ensures Valid(PrevDay(d)) && NextDay(PrevDay(d)) == d
  {
  }

  /** No valid date lies strictly between a date and the next day. */
  lemma NothingBetween(d: Date, e: Date)
    requires Valid(d) && Valid(e) && Before(d, e)
    ensures Le(NextDay(d), e)
  {
  }

  lemma {:induction false} AddDaysValid(d: Date, n: int)
    requires Valid(d)
    ensures Valid(AddDays(d, n))
    decreases if n >= 0 then n else -n
  {
    if n >= 0 {
      if d.day + n > DaysInMonth(d.year, d.month) {
        AddDaysValid(NextDay(LastOfMonth(d.year, d.month)), n - (DaysInMonth(d.year, d.month) - d.day + 1));
      }
    } else if d.day + n < 1 {
      AddDaysValid(PrevDay(Date(d.year, d.month, 1)), n + d.day);
    }
  }

  /** Adding n days moves the ordinal by exactly n: `AddDays` is `timedelta` arithmetic. */
  lemma {:induction false} AddDaysOrdinal(d: Date, n: int)
    requires Valid(d)
    ensures Ordinal(AddDays(d, n)) == Ordinal(d) + n
    decreases if n >= 0 then n else -n
  {
    if n >= 0 {
      if d.day + n > DaysInMonth(d.year, d.month) {
        var last := LastOfMonth(d.year, d.month);
        NextDayFacts(last);
        AddDaysOrdinal(NextDay(last), n - (DaysInMonth(d.year, d.month) - d.day + 1));
      }
    } else if d.day + n < 1 {
      var first := Date(d.year, d.month, 1);
      PrevDayFacts(first);
      NextDayFacts(PrevDay(first));
      AddDaysOrdinal(PrevDay(first), n + d.day);
    }
  }

  /** Ordinals order valid dates the way the comparison does. */
  lemma OrdinalMonotone(a: Date, b: Date)
    requires Valid(a) && Valid(b) && Before(a, b)
    ensures Ordinal(a) < Ordinal(b)
  {
    if a.year < b.year {
      YearLength(a.year);
      DaysBeforeYearMonotone(a.year + 1, b.year);
    }
  }

  /** Distinct ordinals of valid dates compare as the dates do. */
  lemma OrdinalOrder(a: Date, b: Date)
    requires Valid(a) && Valid(b) && Ordinal(a) < Ordinal(b)
    ensures Before(a, b)
  {
    if !Before(a, b) && a != b {
      OrdinalMonotone(b, a);
    }
  }

  lemma DaysBeforeYearMonotone(y: int, z: int)
    requires y <= z
    ensures DaysBeforeYear(y) <= DaysBeforeYear(z)
    decreases z - y
  {
    if y < z {
      YearLength(y);
      DaysBeforeYearMonotone(y + 1, z);
    }
  }
}
