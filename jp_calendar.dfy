/**
 * The Japanese business-day calendar: the national holidays of a year, whole-month
 * date arithmetic clamped to the month end, and the optional advance past
 * weekends and holidays.
 */
module JpCalendar {
  import opened Wrappers
  import opened Dates
  import Sorting

  // ---------------------------------------------------------------- leap years

  /** The repository's own leap-year test. */
  predicate IsLeapYear(y: int) {
    if y % 4 == 0 then y % 100 != 0 || y % 400 == 0 else false
  }

  /** The repository's test agrees with the one `datetime` applies, so a clamped day is always a valid day. */
  lemma LeapYearAgrees(y: int)
    ensures IsLeapYear(y) <==> LeapYear(y)
    ensures DaysInMonth(y, 2) == if IsLeapYear(y) then 29 else 28
  {
  }

  // ---------------------------------------------------------------- equinoxes

  /** One row of an equinox table: years `first..last`, and the day for each value of `year % 4`. */
  datatype EquinoxRow = EquinoxRow(first: int, last: int, d0: int, d1: int, d2: int, d3: int)

  function RowDay(row: EquinoxRow, r: int): int {
    if r == 0 then row.d0 else if r == 1 then row.d1 else if r == 2 then row.d2 else row.d3
  }

  const SpringEquinoxTable: seq<EquinoxRow> := [
    EquinoxRow(1900, 1923, 21, 21, 21, 22), EquinoxRow(1924, 1959, 21, 21, 21, 21),
    EquinoxRow(1960, 1991, 20, 21, 21, 21), EquinoxRow(1992, 2023, 20, 20, 21, 21),
    EquinoxRow(2024, 2055, 20, 20, 20, 21), EquinoxRow(2056, 2091, 20, 20, 20, 20),
    EquinoxRow(2092, 2099, 19, 20, 20, 20), EquinoxRow(2100, 2123, 20, 21, 21, 21),
    EquinoxRow(2124, 2155, 20, 20, 21, 21), EquinoxRow(2156, 2187, 20, 20, 20, 21),
    EquinoxRow(2188, 2199, 20, 20, 20, 20), EquinoxRow(2200, 2223, 21, 21, 21, 21),
    EquinoxRow(2224, 2255, 20, 21, 21, 21), EquinoxRow(2256, 2287, 20, 20, 21, 21),
    EquinoxRow(2288, 2299, 20, 20, 20, 21)]

  const AutumnEquinoxTable: seq<EquinoxRow> := [
    EquinoxRow(1900, 1919, 23, 24, 24, 24), EquinoxRow(1920, 1947, 23, 23, 24, 24),
    EquinoxRow(1948, 1979, 23, 23, 23, 24), EquinoxRow(1980, 2011, 23, 23, 23, 23),
    EquinoxRow(2012, 2043, 22, 23, 23, 23), EquinoxRow(2044, 2075, 22, 22, 23, 23),
    EquinoxRow(2076, 2099, 22, 22, 22, 23), EquinoxRow(2100, 2107, 23, 23, 23, 24),
    EquinoxRow(2108, 2139, 23, 23, 23, 23), EquinoxRow(2140, 2167, 22, 23, 23, 23),
    EquinoxRow(2168, 2199, 22, 22, 23, 23), EquinoxRow(2200, 2227, 23, 23, 23, 24),
    EquinoxRow(2228, 2263, 23, 23, 23, 23), EquinoxRow(2264, 2291, 22, 23, 23, 23),
    EquinoxRow(2292, 2299, 22, 22, 23, 23)]

  /** The day of the first row that covers `y`. */
  function LookupEquinox(table: seq<EquinoxRow>, y: int): Option<int> {
    if table == [] then None
    else if table[0].first <= y && y <= table[0].last then Some(RowDay(table[0], y % 4))
    else LookupEquinox(table[1..], y)
  }

  /** The rows cover `lo..hi` without gaps, in order, and every day lies in `dlo..dhi`. */
  predicate Chained(table: seq<EquinoxRow>, lo: int, hi: int, dlo: int, dhi: int) {
    table != [] && table[0].first == lo && lo <= table[0].last &&
    dlo <= table[0].d0 <= dhi && dlo <= table[0].d1 <= dhi &&
    dlo <= table[0].d2 <= dhi && dlo <= table[0].d3 <= dhi &&
    (if |table| == 1 then table[0].last == hi else Chained(table[1..], table[0].last + 1, hi, dlo, dhi))
  }

  lemma {:induction false} ChainedLookup(table: seq<EquinoxRow>, lo: int, hi: int, dlo: int, dhi: int, y: int)
    requires Chained(table, lo, hi, dlo, dhi)
    ensures LookupEquinox(table, y).Some? <==> lo <= y <= hi
    ensures LookupEquinox(table, y).Some? ==> dlo <= LookupEquinox(table, y).value <= dhi
    ensures table[0].last <= hi
  {
    if |table| == 1 {
      assert table[1..] == [];
    } else {
      ChainedLookup(table[1..], table[0].last + 1, hi, dlo, dhi, y);
    }
  }

  lemma SpringTableChained()
    ensures Chained(SpringEquinoxTable, 1900, 2299, 19, 22)
  {
    var t := SpringEquinoxTable;
    assert Chained(t[14..], 2288, 2299, 19, 22);
    assert Chained(t[13..], 2256, 2299, 19, 22);
    assert Chained(t[12..], 2224, 2299, 19, 22);
    assert Chained(t[11..], 2200, 2299, 19, 22);
    assert Chained(t[10..], 2188, 2299, 19, 22);
    assert Chained(t[9..], 2156, 2299, 19, 22);
    assert Chained(t[8..], 2124, 2299, 19, 22);
    assert Chained(t[7..], 2100, 2299, 19, 22);
    assert Chained(t[6..], 2092, 2299, 19, 22);
    assert Chained(t[5..], 2056, 2299, 19, 22);
    assert Chained(t[4..], 2024, 2299, 19, 22);
    assert Chained(t[3..], 1992, 2299, 19, 22);
    assert Chained(t[2..], 1960, 2299, 19, 22);
    assert Chained(t[1..], 1924, 2299, 19, 22);
  }

  lemma AutumnTableChained()
    ensures Chained(AutumnEquinoxTable, 1900, 2299, 22, 24)
  {
    var t := AutumnEquinoxTable;
    assert Chained(t[14..], 2292, 2299, 22, 24);
    assert Chained(t[13..], 2264, 2299, 22, 24);
    assert Chained(t[12..], 2228, 2299, 22, 24);
    assert Chained(t[11..], 2200, 2299, 22, 24);
    assert Chained(t[10..], 2168, 2299, 22, 24);
    assert Chained(t[9..], 2140, 2299, 22, 24);
    assert Chained(t[8..], 2108, 2299, 22, 24);
    assert Chained(t[7..], 2100, 2299, 22, 24);
    assert Chained(t[6..], 2076, 2299, 22, 24);
    assert Chained(t[5..], 2044, 2299, 22, 24);
    assert Chained(t[4..], 2012, 2299, 22, 24);
    assert Chained(t[3..], 1980, 2299, 22, 24);
    assert Chained(t[2..], 1948, 2299, 22, 24);
    assert Chained(t[1..], 1920, 2299, 22, 24);
  }

  /** The vernal equinox day of `y`, for the years the table covers. */
  function Shumbun(y: int): (r: Option<Date>)
    ensures r.Some? <==> 1900 <= y <= 2299
    ensures r.Some? ==> r.value.year == y && r.value.month == 3 && 19 <= r.value.day <= 22
  {
    SpringTableChained();
    ChainedLookup(SpringEquinoxTable, 1900, 2299, 19, 22, y);
    match LookupEquinox(SpringEquinoxTable, y)
    case None => None
    case Some(d) => Some(Date(y, 3, d))
  }

  /** The autumnal equinox day of `y`, for the years the table covers. */
  function Shubun(y: int): (r: Option<Date>)
    ensures r.Some? <==> 1900 <= y <= 2299
    ensures r.Some? ==> r.value.year == y && r.value.month == 9 && 22 <= r.value.day <= 24
  {
    AutumnTableChained();
    ChainedLookup(AutumnEquinoxTable, 1900, 2299, 22, 24, y);
    match LookupEquinox(AutumnEquinoxTable, y)
    case None => None
    case Some(d) => Some(Date(y, 9, d))
  }

  /** The day is chosen by `year % 4` from the row covering the year. */
  lemma EquinoxDayByYearPhase(y: int)
    requires 2024 <= y <= 2055
    ensures Shumbun(y) == Some(Date(y, 3, if y % 4 == 3 then 21 else 20))
    ensures 2012 <= y <= 2043 ==> Shubun(y) == Some(Date(y, 9, if y % 4 == 0 then 22 else 23))
  {
    var s := SpringEquinoxTable;
    assert LookupEquinox(s[3..], y) == LookupEquinox(s[4..], y);
    assert LookupEquinox(s[2..], y) == LookupEquinox(s[3..], y);
    assert LookupEquinox(s[1..], y) == LookupEquinox(s[2..], y);
    var a := AutumnEquinoxTable;
    if y <= 2043 {
      assert LookupEquinox(a[3..], y) == LookupEquinox(a[4..], y);
      assert LookupEquinox(a[2..], y) == LookupEquinox(a[3..], y);
      assert LookupEquinox(a[1..], y) == LookupEquinox(a[2..], y);
    }
  }

  // ---------------------------------------------------------------- holidays

  /** The fixed-date holidays as (month, day). */
  const FixedDates: seq<(int, int)> := [(1, 1), (2, 11), (4, 29), (5, 3), (5, 4), (5, 5), (8, 11), (11, 3), (11, 23)]

  /** The Monday holidays as (month, week, weekday): the `week`-th `weekday` of the month. */
  const MondayRows: seq<(int, int, int)> := [(1, 2, 0), (7, 3, 0), (9, 3, 0), (10, 2, 0)]

  /** The day a fixed holiday falls on in `y`: Mountain Day moved for the Olympic years. */
  function FixedDay(y: int, m: int, d: int): int {
    if y == 2020 && m == 8 && d == 11 then 10
    else if y == 2021 && m == 8 && d == 11 then 8
    else d
  }

  function FixedHolidays(y: int, rows: seq<(int, int)>): seq<Date> {
    if rows == [] then []
    else FixedHolidays(y, rows[..|rows| - 1]) +
         [Date(y, rows[|rows| - 1].0, FixedDay(y, rows[|rows| - 1].0, rows[|rows| - 1].1))]
  }

  /** The Emperor's Birthday and the 2019 enthronement holidays. */
  function ImperialHolidays(y: int): seq<Date> {
    (if y < 2019 then [Date(y, 12, 23)] else []) +
    (if y == 2019 then [Date(2019, 5, 1), Date(2019, 10, 22)] else []) +
    (if y >= 2020 then [Date(y, 2, 23)] else [])
  }

  /** The Olympic years skip these Monday holidays... */
  predicate SkippedMonday(y: int, m: int) {
    (y == 2020 && m == 7) || (y == 2021 && (m == 7 || m == 10))
  }

  /** ...and have these fixed dates instead. */
  function OlympicHolidays(y: int): seq<Date> {
    if y == 2020 then [Date(2020, 7, 23)]
    else if y == 2021 then [Date(2021, 7, 22), Date(2021, 7, 23)]
    else []
  }

  /** The first `wd` on or after day `7(w-1)+1` of the month. */
  function NthWeekday(y: int, m: int, w: int, wd: int): Date {
    var first := Date(y, m, 7 * (w - 1) + 1);
    Date(y, m, first.day + (wd - Weekday(first)) % 7)
  }

  function MondayHolidays(y: int, rows: seq<(int, int, int)>): seq<Date> {
    if rows == [] then []
    else
      var row := rows[|rows| - 1];
      MondayHolidays(y, rows[..|rows| - 1]) +
      (if SkippedMonday(y, row.0) then [] else [NthWeekday(y, row.0, row.1, row.2)])
  }

  function AppendIfAbsent(days: seq<Date>, d: Option<Date>): seq<Date> {
    if d.Some? && d.value !in days then days + [d.value] else days
  }

  /** Every holiday listed before the substitute and citizens' holidays are worked out, unsorted. */
  function ListedDays(y: int): seq<Date> {
    AppendIfAbsent(AppendIfAbsent(BaseDays(y), Shumbun(y)), Shubun(y))
  }

  /** The chronological order `sorted` uses on datetimes. */
  const DateOrder: (Date, Date) -> bool := (a: Date, b: Date) => Le(a, b)

  function SortDates(s: seq<Date>): seq<Date> {
    Sorting.SortBy(s, DateOrder)
  }

  lemma DateOrderIsTotal()
    ensures Sorting.TotalPreorder(DateOrder)
  {
  }

  /** Every date of `days` is a valid date of year `y` on or before 23 December. */
  predicate ListedBy(days: seq<Date>, y: int) {
    forall i :: 0 <= i < |days| ==> Valid(days[i]) && days[i].year == y && Le(days[i], Date(y, 12, 23))
  }

  /** The substitute holiday for a Sunday holiday: from `t`, the first day that is neither a Sunday nor listed. */
  function Substitute(days: seq<Date>, t: Date): (r: Date)
    requires ListedBy(days, t.year) && Valid(t) && Le(t, Date(t.year, 12, 25))
    requires t == Date(t.year, 12, 25) ==> Weekday(t) != 6
    ensures Valid(r) && r.year == t.year && Le(t, r) && Le(r, Date(t.year, 12, 25))
    ensures Weekday(r) != 6 && r !in days
    decreases 403 - (31 * t.month + t.day)
  {
    if Weekday(t) == 6 || t in days then
      NextDayFacts(t);
      Substitute(days, NextDay(t))
    else t
  }

  /** What the scan of the sorted list adds at index `i`: a substitute or a citizens' holiday. */
  function Extra(days: seq<Date>, i: int): seq<Date>
    requires 0 <= i < |days| && ListedBy(days, days[i].year)
  {
    if Weekday(days[i]) == 6 then
      NextDayFacts(days[i]);
      [Substitute(days, NextDay(days[i]))]
    else if i < |days| - 1 && DaysBetween(days[i], days[i + 1]) == 2 then [NextDay(days[i])]
    else []
  }

  function Additional(days: seq<Date>, n: int, y: int): seq<Date>
    requires 0 <= n <= |days| && ListedBy(days, y)
  {
    if n == 0 then [] else Additional(days, n - 1, y) + Extra(days, n - 1)
  }

  /** `sorted(days)` before the scan. */
  function SortedListed(y: int): seq<Date> {
    SortDates(ListedDays(y))
  }

  /** `get_holidays(y)`. */
  function Holidays(y: int): seq<Date> {
    ListedDaysBounded(y);
    var days := SortedListed(y);
    SortDates(days + Additional(days, |days|, y))
  }

  lemma NthWeekdayFacts(y: int, m: int, w: int, wd: int)
    requires 1 <= m <= 12 && 1 <= w <= 3 && 0 <= wd < 7
    ensures var r := NthWeekday(y, m, w, wd);
      Valid(r) && r.year == y && r.month == m && 7 * (w - 1) + 1 <= r.day <= 7 * w && Weekday(r) == wd
  {
    var first := Date(y, m, 7 * (w - 1) + 1);
    var steps := (wd - Weekday(first)) % 7;
    assert 0 <= steps < 7;
    WeekdayAdvance(first, steps);
    StepsToWeekday(Weekday(first), wd, steps);
  }

  /** Advancing `k` days inside a month moves the weekday by `k`. */
  lemma {:induction false} WeekdayAdvance(d: Date, k: nat)
    requires Valid(d) && d.day + k <= 28
    ensures Valid(Date(d.year, d.month, d.day + k))
    ensures Weekday(Date(d.year, d.month, d.day + k)) == (Weekday(d) + k) % 7
  {
    if k > 0 {
      WeekdayAdvance(d, k - 1);
      NextDayFacts(Date(d.year, d.month, d.day + k - 1));
      ModSuccessor(Weekday(d) + k - 1);
    }
  }

  lemma {:induction false} FixedHolidaysBounded(y: int, n: nat)
    requires n <= |FixedDates|
    ensures ListedBy(FixedHolidays(y, FixedDates[..n]), y)
  {
    if n > 0 {
      FixedHolidaysBounded(y, n - 1);
      assert FixedDates[..n][..n - 1] == FixedDates[..n - 1];
    }
  }

  lemma {:induction false} MondayHolidaysBounded(y: int, n: nat)
    requires n <= |MondayRows|
    ensures ListedBy(MondayHolidays(y, MondayRows[..n]), y)
  {
    if n > 0 {
      MondayHolidaysBounded(y, n - 1);
      assert MondayRows[..n][..n - 1] == MondayRows[..n - 1];
      var row := MondayRows[n - 1];
      assert 1 <= row.0 <= 12 && 1 <= row.1 <= 3 && 0 <= row.2 < 7;
      var last := if SkippedMonday(y, row.0) then [] else [NthWeekday(y, row.0, row.1, row.2)];
      assert MondayHolidays(y, MondayRows[..n]) == MondayHolidays(y, MondayRows[..n - 1]) + last;
      NthWeekdayFacts(y, row.0, row.1, row.2);
      ListedByAppend(MondayHolidays(y, MondayRows[..n - 1]), last, y);
    }
  }

  lemma ListedByAppend(a: seq<Date>, b: seq<Date>, y: int)
    requires ListedBy(a, y) && ListedBy(b, y)
    ensures ListedBy(a + b, y)
  {
  }

  function BaseDays(y: int): seq<Date> {
    FixedHolidays(y, FixedDates) + ImperialHolidays(y) + MondayHolidays(y, MondayRows) + OlympicHolidays(y)
  }

  lemma BaseDaysBounded(y: int)
    ensures ListedBy(BaseDays(y), y)
  {
    FixedHolidaysBounded(y, |FixedDates|);
    MondayHolidaysBounded(y, |MondayRows|);
    assert FixedDates[..|FixedDates|] == FixedDates;
    assert MondayRows[..|MondayRows|] == MondayRows;
    var f, m := FixedHolidays(y, FixedDates), MondayHolidays(y, MondayRows);
    ListedByAppend(f, ImperialHolidays(y), y);
    ListedByAppend(f + ImperialHolidays(y), m, y);
    ListedByAppend(f + ImperialHolidays(y) + m, OlympicHolidays(y), y);
  }

  lemma AppendIfAbsentBounded(days: seq<Date>, d: Option<Date>, y: int)
    requires ListedBy(days, y)
    requires d.Some? ==> Valid(d.value) && d.value.year == y && Le(d.value, Date(y, 12, 23))
    ensures ListedBy(AppendIfAbsent(days, d), y)
  {
  }

  lemma ListedDaysBounded(y: int)
    ensures ListedBy(ListedDays(y), y) && ListedBy(SortedListed(y), y)
  {
    BaseDaysBounded(y);
    AppendIfAbsentBounded(BaseDays(y), Shumbun(y), y);
    AppendIfAbsentBounded(AppendIfAbsent(BaseDays(y), Shumbun(y)), Shubun(y), y);
    assert ListedDays(y) == AppendIfAbsent(AppendIfAbsent(BaseDays(y), Shumbun(y)), Shubun(y));
    var l := ListedDays(y);
    var s := SortedListed(y);
    forall i | 0 <= i < |s| ensures Valid(s[i]) && s[i].year == y && Le(s[i], Date(y, 12, 23)) {
      Sorting.MembersSurviveSort(l, DateOrder, s[i]);
    }
  }

  /** Every date of `days` is a valid date of year `y` on or before 25 December. */
  predicate HolidaysBy(days: seq<Date>, y: int) {
    forall i :: 0 <= i < |days| ==> Valid(days[i]) && days[i].year == y && Le(days[i], Date(y, 12, 25))
  }

  lemma {:induction false} AdditionalBounded(days: seq<Date>, n: int, y: int)
    requires 0 <= n <= |days| && ListedBy(days, y)
    ensures HolidaysBy(Additional(days, n, y), y)
  {
    if n > 0 {
      AdditionalBounded(days, n - 1, y);
      NextDayFacts(days[n - 1]);
    }
  }

  /** Every holiday of a year lies in that year, no later than 25 December. */
  lemma HolidaysBounded(y: int)
    ensures HolidaysBy(Holidays(y), y)
  {
    ListedDaysBounded(y);
    var days := SortedListed(y);
    var all := days + Additional(days, |days|, y);
    AdditionalBounded(days, |days|, y);
    assert HolidaysBy(all, y);
    var h := Holidays(y);
    forall i | 0 <= i < |h| ensures Valid(h[i]) && h[i].year == y && Le(h[i], Date(y, 12, 25)) {
      Sorting.MembersSurviveSort(all, DateOrder, h[i]);
    }
  }

  // ---------------------------------------------------------------- what the holiday list holds

  /** `get_holidays` returns its list in chronological order. */
  lemma HolidaysSorted(y: int)
    ensures Sorting.SortedBy(Holidays(y), DateOrder)
  {
    DateOrderIsTotal();
    ListedDaysBounded(y);
    var days := SortedListed(y);
    Sorting.SortSorts(days + Additional(days, |days|, y), DateOrder);
  }

  /** A date is a holiday exactly when it was listed or added by the scan of the sorted list. */
  lemma HolidaysMembers(y: int, d: Date)
    ensures ListedBy(SortedListed(y), y)
    ensures d in Holidays(y) <==>
      d in ListedDays(y) || d in Additional(SortedListed(y), |SortedListed(y)|, y)
  {
    ListedDaysBounded(y);
    var days := SortedListed(y);
    Sorting.MembersSurviveSort(days + Additional(days, |days|, y), DateOrder, d);
    Sorting.MembersSurviveSort(ListedDays(y), DateOrder, d);
  }

  lemma {:induction false} FixedHolidaysMember(y: int, rows: seq<(int, int)>, i: int)
    requires 0 <= i < |rows|
    ensures Date(y, rows[i].0, FixedDay(y, rows[i].0, rows[i].1)) in FixedHolidays(y, rows)
  {
    if i < |rows| - 1 {
      FixedHolidaysMember(y, rows[..|rows| - 1], i);
    }
  }

  /** Each fixed-date holiday is a holiday of every year, Mountain Day on 10 August 2020 and 8 August 2021. */
  lemma FixedDatesAreHolidays(y: int, i: int)
    requires 0 <= i < |FixedDates|
    ensures Date(y, FixedDates[i].0, FixedDay(y, FixedDates[i].0, FixedDates[i].1)) in Holidays(y)
    ensures FixedDates[i] == (8, 11) ==>
      Date(y, 8, if y == 2020 then 10 else if y == 2021 then 8 else 11) in Holidays(y)
  {
    FixedHolidaysMember(y, FixedDates, i);
    HolidaysMembers(y, Date(y, FixedDates[i].0, FixedDay(y, FixedDates[i].0, FixedDates[i].1)));
  }

  lemma {:induction false} MondayHolidaysMember(y: int, rows: seq<(int, int, int)>, i: int)
    requires 0 <= i < |rows| && !SkippedMonday(y, rows[i].0)
    ensures NthWeekday(y, rows[i].0, rows[i].1, rows[i].2) in MondayHolidays(y, rows)
  {
    if i < |rows| - 1 {
      MondayHolidaysMember(y, rows[..|rows| - 1], i);
    }
  }

  /** Each Monday holiday not moved by the Olympic years is the `w`-th Monday of its month and a holiday. */
  lemma MondayRowsAreHolidays(y: int, i: int)
    requires 0 <= i < |MondayRows| && !SkippedMonday(y, MondayRows[i].0)
    ensures var (m, w, wd) := MondayRows[i];
      var d := NthWeekday(y, m, w, wd);
      d in Holidays(y) && Valid(d) && d.month == m && Weekday(d) == 0 && 7 * (w - 1) < d.day <= 7 * w
  {
    var (m, w, wd) := MondayRows[i];
    NthWeekdayFacts(y, m, w, wd);
    MondayHolidaysMember(y, MondayRows, i);
    HolidaysMembers(y, NthWeekday(y, m, w, wd));
  }

  /** The Olympic years have Marine Day, and in 2021 Sports Day, on fixed dates. */
  lemma OlympicDaysAreHolidays(y: int)
    ensures y == 2020 ==> Date(2020, 7, 23) in Holidays(y)
    ensures y == 2021 ==> Date(2021, 7, 22) in Holidays(y) && Date(2021, 7, 23) in Holidays(y)
  {
    HolidaysMembers(y, Date(y, 7, 22));
    HolidaysMembers(y, Date(y, 7, 23));
  }

  /** The equinox days are holidays whenever the tables cover the year; listing them twice is avoided. */
  lemma EquinoxesAreHolidays(y: int)
    ensures Shumbun(y).Some? ==> Shumbun(y).value in Holidays(y)
    ensures Shubun(y).Some? ==> Shubun(y).value in Holidays(y)
  {
    if Shumbun(y).Some? {
      HolidaysMembers(y, Shumbun(y).value);
    }
    if Shubun(y).Some? {
      HolidaysMembers(y, Shubun(y).value);
    }
  }

  lemma AppendIfAbsentMembers(days: seq<Date>, d: Option<Date>, x: Date)
    ensures x in AppendIfAbsent(days, d) <==> x in days || d == Some(x)
    ensures |AppendIfAbsent(days, d)| == |days| + (if d.Some? && d.value !in days then 1 else 0)
  {
  }

  lemma {:induction false} AdditionalMember(days: seq<Date>, n: int, y: int, i: int)
    requires 0 <= i < n <= |days| && ListedBy(days, y)
    ensures forall x :: x in Extra(days, i) ==> x in Additional(days, n, y)
  {
    if i < n - 1 {
      AdditionalMember(days, n - 1, y, i);
    }
  }

  /** From `t`, `Substitute` stops at the first day that is neither a Sunday nor listed. */
  lemma {:induction false} SubstituteIsEarliest(days: seq<Date>, t: Date, e: Date)
    requires ListedBy(days, t.year) && Valid(t) && Le(t, Date(t.year, 12, 25))
    requires t == Date(t.year, 12, 25) ==> Weekday(t) != 6
    requires Valid(e) && Le(t, e) && Before(e, Substitute(days, t))
    ensures Weekday(e) == 6 || e in days
    decreases 403 - (31 * t.month + t.day)
  {
    if Weekday(t) == 6 || t in days {
      NextDayFacts(t);
      if e != t {
        NothingBetween(t, e);
        SubstituteIsEarliest(days, NextDay(t), e);
      }
    }
  }

  /**
   * Substitute holiday: for a listed holiday on a Sunday, the first later day that is neither
   * a Sunday nor listed is a holiday.
   */
  lemma SundayHolidaySubstituted(y: int, i: int)
    requires ListedBy(SortedListed(y), y)
    requires 0 <= i < |SortedListed(y)| && Weekday(SortedListed(y)[i]) == 6
    ensures (var days := SortedListed(y);
      NextDayFacts(days[i]);
      var s := Substitute(days, NextDay(days[i]));
      s in Holidays(y) && Before(days[i], s) && Weekday(s) != 6 && s !in ListedDays(y) &&
      forall e :: Valid(e) && Before(days[i], e) && Before(e, s) ==> Weekday(e) == 6 || e in ListedDays(y))
  {
    var days := SortedListed(y);
    NextDayFacts(days[i]);
    var t := NextDay(days[i]);
    var s := Substitute(days, t);
    AdditionalMember(days, |days|, y, i);
    HolidaysMembers(y, s);
    Sorting.MembersSurviveSort(ListedDays(y), DateOrder, s);
    forall e | Valid(e) && Before(days[i], e) && Before(e, s)
      ensures Weekday(e) == 6 || e in ListedDays(y)
    {
      NothingBetween(days[i], e);
      SubstituteIsEarliest(days, t, e);
      Sorting.MembersSurviveSort(ListedDays(y), DateOrder, e);
    }
  }

  /**
   * Citizens' holiday: the day between two consecutive listed holidays two days apart is a
   * holiday, where the first of them is not a Sunday.
   */
  lemma DayBetweenHolidaysAdded(y: int, i: int)
    requires ListedBy(SortedListed(y), y)
    requires 0 <= i < |SortedListed(y)| - 1 && Weekday(SortedListed(y)[i]) != 6
    requires DaysBetween(SortedListed(y)[i], SortedListed(y)[i + 1]) == 2
    ensures NextDay(SortedListed(y)[i]) in Holidays(y)
  {
    var days := SortedListed(y);
    AdditionalMember(days, |days|, y, i);
    HolidaysMembers(y, NextDay(days[i]));
  }

  // ---------------------------------------------------------------- business days

  /** A day the advance of `add_months` skips: Saturday, Sunday or a holiday of its year. */
  predicate IsDayOff(d: Date) {
    Weekday(d) == 5 || Weekday(d) == 6 || d in Holidays(d.year)
  }

  /** The first weekday among 26..28 December: it is never a holiday, so the advance stops there at the latest. */
  function Anchor(y: int): Date {
    if Weekday(Date(y, 12, 26)) < 5 then Date(y, 12, 26)
    else if Weekday(Date(y, 12, 27)) < 5 then Date(y, 12, 27)
    else Date(y, 12, 28)
  }

  lemma AnchorWeekday(y: int)
    ensures Valid(Anchor(y)) && Anchor(y).year == y && Anchor(y).month == 12 && 26 <= Anchor(y).day
    ensures Weekday(Anchor(y)) < 5
  {
    NextDayFacts(Date(y, 12, 26));
    NextDayFacts(Date(y, 12, 27));
  }

  lemma AnchorIsBusinessDay(y: int)
    ensures Valid(Anchor(y)) && Anchor(y).year == y && Anchor(y).month == 12 && 26 <= Anchor(y).day
    ensures !IsDayOff(Anchor(y))
  {
    AnchorWeekday(y);
    var a, h := Anchor(y), Holidays(y);
    HolidaysBounded(y);
    assert forall i :: 0 <= i < |h| ==> h[i] != a;
  }

  /** The anchor the advance from `d` cannot pass. */
  function Horizon(d: Date): Date {
    if Le(d, Anchor(d.year)) then Anchor(d.year) else Anchor(d.year + 1)
  }

  lemma HorizonStep(d: Date)
    requires Valid(d) && d != Anchor(d.year)
    ensures Horizon(NextDay(d)) == Horizon(d)
    ensures Horizon(d).year >= d.year
    ensures NextDay(d).year == d.year ==> 31 * NextDay(d).month + NextDay(d).day > 31 * d.month + d.day
    ensures NextDay(d).year != d.year ==> NextDay(d).year == d.year + 1 == Horizon(d).year
  {
    AnchorShape(d.year);
    AnchorShape(d.year + 1);
    var a, n := Anchor(d.year), NextDay(d);
    if Le(d, a) {
      NothingBetween(d, a);
      assert n.year == d.year;
    } else {
      assert d.month == 12 && d.day > 26;
      if n.year == d.year {
        assert Before(a, n);
      } else {
        assert n == Date(d.year + 1, 1, 1);
      }
    }
  }

  /** The day the scan for a business day cannot pass: the 26th, 27th or 28th of December. */
  lemma AnchorShape(y: int)
    ensures Valid(Anchor(y)) && Anchor(y).year == y && Anchor(y).month == 12 && 26 <= Anchor(y).day <= 28
  {
  }

  /** The earliest day on or after `d` that is not a day off. */
  function NextBusinessDay(d: Date): Date
    requires Valid(d)
    decreases Horizon(d).year - d.year, 403 - (31 * d.month + d.day)
  {
    if IsDayOff(d) then
      AnchorIsBusinessDay(d.year);
      HorizonStep(d);
      NextDayFacts(d);
      NextBusinessDay(NextDay(d))
    else d
  }

  /** `NextBusinessDay(d)` is a business day, not before `d`, and every day from `d` up to it is a day off. */
  lemma {:induction false} NextBusinessDayIsEarliest(d: Date)
    requires Valid(d)
    ensures var r := NextBusinessDay(d); Valid(r) && Le(d, r) && !IsDayOff(r)
    ensures var r := NextBusinessDay(d); forall e :: Valid(e) && Le(d, e) && Before(e, r) ==> IsDayOff(e)
    decreases Horizon(d).year - d.year, 403 - (31 * d.month + d.day)
  {
    if IsDayOff(d) {
      AnchorIsBusinessDay(d.year);
      HorizonStep(d);
      NextDayFacts(d);
      NextBusinessDayIsEarliest(NextDay(d));
      var r := NextBusinessDay(d);
      forall e | Valid(e) && Le(d, e) && Before(e, r) ensures IsDayOff(e) {
        if e != d {
          NothingBetween(d, e);
        }
      }
    }
  }

  /** A business day is its own next business day. */
  lemma NextBusinessDayKeepsBusinessDay(d: Date)
    requires Valid(d) && !IsDayOff(d)
    ensures NextBusinessDay(d) == d
  {
  }

  /** The advance is monotone: a later start never gives an earlier business day. */
  lemma NextBusinessDayMonotone(a: Date, b: Date)
    requires Valid(a) && Valid(b) && Le(a, b)
    ensures Le(NextBusinessDay(a), NextBusinessDay(b))
  {
    NextBusinessDayIsEarliest(a);
    NextBusinessDayIsEarliest(b);
  }

  // ---------------------------------------------------------------- month arithmetic

  /** Months counted from January of year 0. */
  function MonthIndex(d: Date): int {
    d.year * 12 + (d.month - 1)
  }

  lemma MonthIndexInverse(d: Date)
    requires 1 <= d.month <= 12
    ensures MonthIndex(d) / 12 == d.year && MonthIndex(d) % 12 + 1 == d.month
  {
  }

  /** The day `add_months` gives in month `m` of `y` for a base day `baseDay`. */
  function ClampedDay(baseDay: int, y: int, m: int): int {
    if baseDay == 31 && (m == 4 || m == 6 || m == 9 || m == 11) then 30
    else if baseDay >= 29 && m == 2 then (if IsLeapYear(y) then 29 else 28)
    else baseDay
  }

  /** `add_months(d, n)` without the holiday advance. */
  function MonthShift(d: Date, n: int): (r: Date)
    ensures Valid(d) ==> Valid(r)
  {
    var k := MonthIndex(d) + n;
    LeapYearAgrees(k / 12);
    Date(k / 12, k % 12 + 1, ClampedDay(d.day, k / 12, k % 12 + 1))
  }

  /** The month moves by exactly `n` and the day is the base day capped at the target month's length. */
  lemma MonthShiftShape(d: Date, n: int)
    requires Valid(d)
    ensures var r := MonthShift(d, n);
      Valid(r) && MonthIndex(r) == MonthIndex(d) + n &&
      r.day == (if d.day <= DaysInMonth(r.year, r.month) then d.day else DaysInMonth(r.year, r.month))
  {
    var k := MonthIndex(d) + n;
    LeapYearAgrees(k / 12);
  }

  /** Shifting by zero months gives the same calendar date. */
  lemma MonthShiftZero(d: Date)
    requires Valid(d)
    ensures MonthShift(d, 0) == d
  {
    MonthShiftShape(d, 0);
  }

  /** A day that every month has survives a shift and its reverse. */
  lemma MonthShiftRoundTrip(d: Date, n: int)
    requires Valid(d) && d.day <= 28
    ensures MonthShift(MonthShift(d, n), -n) == d
  {
    MonthShiftShape(d, n);
    MonthShiftShape(MonthShift(d, n), -n);
  }

  /** Shifting by more months gives a strictly later date. */
  lemma MonthShiftMonotone(d: Date, n: int, k: int)
    requires Valid(d) && n < k
    ensures Before(MonthShift(d, n), MonthShift(d, k))
  {
    MonthShiftShape(d, n);
    MonthShiftShape(d, k);
  }

  /** The year of a shift by 12·n months is the base year plus n. */
  lemma MonthShiftYears(d: Date, n: int)
    requires Valid(d)
    ensures MonthShift(d, 12 * n).year == d.year + n && MonthShift(d, 12 * n).month == d.month
  {
    MonthShiftShape(d, 12 * n);
  }

  /** Comparing shifted dates with the same base compares the month counts. */
  lemma MonthShiftOrder(d: Date, n: int, k: int)
    requires Valid(d)
    ensures Le(MonthShift(d, n), MonthShift(d, k)) <==> n <= k
  {
    if n < k { MonthShiftMonotone(d, n, k); }
    else if k < n { MonthShiftMonotone(d, k, n); }
  }

  /** The date `add_months(base, months, considerHoliday)` returns. */
  function AddMonthsSpec(base: Date, months: int, considerHoliday: bool): Date
    requires Valid(base)
  {
    MonthShiftShape(base, months);
    if considerHoliday then NextBusinessDay(MonthShift(base, months)) else MonthShift(base, months)
  }

  /** `add_months`: step month by month from the first of the base month, clamp the day, then optionally advance past days off. */
  method AddMonths(base: Date, months: int, considerHoliday: bool) returns (r: Date)
    requires Valid(base)
    ensures Valid(r)
    ensures !considerHoliday ==> r == MonthShift(base, months)
    ensures considerHoliday ==> r == NextBusinessDay(MonthShift(base, months))
  {
    var first := StepMonths(base, months);
    var d := ClampDay(first, base.day);
    MonthIndexInverse(first);
    assert d == MonthShift(base, months);
    if considerHoliday {
      NextBusinessDayIsEarliest(d);
      d := AdvancePastDaysOff(d);
    }
    r := d;
  }

  /** The month loop of `add_months`: from the first of the base month, one month at a time, `months` times. */
  method StepMonths(base: Date, months: int) returns (d: Date)
    requires Valid(base)
    ensures Valid(d) && d.day == 1 && MonthIndex(d) == MonthIndex(base) + months
  {
    d := Date(base.year, base.month, 1);
    var k := months;
    while k != 0
      invariant Valid(d) && d.day == 1
      invariant MonthIndex(d) + k == MonthIndex(base) + months
      decreases if k >= 0 then k else -k
    {
      if k > 0 {
        if d.month == 12 {
          d := Date(d.year + 1, 1, 1);
        } else {
          d := Date(d.year, d.month + 1, 1);
        }
        k := k - 1;
      } else {
        if d.month == 1 {
          d := Date(d.year - 1, 12, 1);
        } else {
          d := Date(d.year, d.month - 1, 1);
        }
        k := k + 1;
      }
    }
  }

  /** The day clamp of `add_months`: the base day, cut to the 30th or to the end of February. */
  method ClampDay(first: Date, baseDay: int) returns (d: Date)
    ensures d == Date(first.year, first.month, ClampedDay(baseDay, first.year, first.month))
  {
    if baseDay == 31 && (first.month == 4 || first.month == 6 || first.month == 9 || first.month == 11) {
      d := Date(first.year, first.month, 30);
    } else if baseDay >= 29 && first.month == 2 {
      if IsLeapYear(first.year) {
        d := Date(first.year, first.month, 29);
      } else {
        d := Date(first.year, first.month, 28);
      }
    } else {
      d := Date(first.year, first.month, baseDay);
    }
  }

  /** The holiday advance of `add_months`: while the day is a Saturday, a Sunday or in `get_holidays` of its year, take the next day. */
  method AdvancePastDaysOff(start: Date) returns (d: Date)
    requires Valid(start)
    ensures d == NextBusinessDay(start)
  {
    d := start;
    var holidays := GetHolidays(d.year);
    while Weekday(d) == 5 || Weekday(d) == 6 || d in holidays
      invariant Valid(d) && holidays == Holidays(d.year)
      invariant NextBusinessDay(d) == NextBusinessDay(start)
      decreases Horizon(d).year - d.year, 403 - (31 * d.month + d.day)
    {
      AnchorIsBusinessDay(d.year);
      HorizonStep(d);
      NextDayFacts(d);
      d := NextDay(d);
      holidays := GetHolidays(d.year);
    }
  }

  /** `get_holidays(y)`: build the listed days, sort them, scan them for substitute and citizens' holidays, sort again. */
  method GetHolidays(y: int) returns (r: seq<Date>)
    ensures r == Holidays(y)
  {
    var days := ListHolidays(y);
    days := SortDates(days);
    ListedDaysBounded(y);
    var additional := ScanSortedHolidays(days, y);
    if |additional| > 0 {
      days := days + additional;
    } else {
      assert days + additional == days;
    }
    r := SortDates(days);
  }

  /** The first part of `get_holidays`: the fixed, imperial, Monday, Olympic and equinox holidays in listing order. */
  method ListHolidays(y: int) returns (days: seq<Date>)
    ensures days == ListedDays(y)
  {
    var fixed := ListFixedHolidays(y);
    days := AddImperialHolidays(y, fixed);
    var mondays := ListMondayHolidays(y);
    days := AddOlympicHolidays(y, days + mondays);
    assert days == BaseDays(y);
    var spring := Shumbun(y);
    if spring.Some? && spring.value !in days {
      days := days + [spring.value];
    }
    var autumn := Shubun(y);
    if autumn.Some? && autumn.value !in days {
      days := days + [autumn.value];
    }
  }

  /** The emperor's birthday and the 2019 accession days, appended in the order `list_holidays` appends them. */
  method AddImperialHolidays(y: int, days0: seq<Date>) returns (days: seq<Date>)
    ensures days == days0 + ImperialHolidays(y)
  {
    days := days0;
    if y < 2019 {
      days := days + [Date(y, 12, 23)];
    }
    if y == 2019 {
      days := days + [Date(2019, 5, 1)];
      days := days + [Date(2019, 10, 22)];
    }
    if y >= 2020 {
      days := days + [Date(y, 2, 23)];
    }
    if y < 2019 {
      assert ImperialHolidays(y) == [Date(y, 12, 23)];
    } else if y == 2019 {
      assert ImperialHolidays(y) == [Date(2019, 5, 1), Date(2019, 10, 22)];
      assert days0 + [Date(2019, 5, 1)] + [Date(2019, 10, 22)] == days0 + [Date(2019, 5, 1), Date(2019, 10, 22)];
    } else {
      assert ImperialHolidays(y) == [Date(y, 2, 23)];
    }
  }

  /** The holidays moved for the Tokyo Olympics, appended after the Monday holidays. */
  method AddOlympicHolidays(y: int, days0: seq<Date>) returns (days: seq<Date>)
    ensures days == days0 + OlympicHolidays(y)
  {
    days := days0;
    if y == 2020 {
      days := days + [Date(y, 7, 23)];
    }
    if y == 2021 {
      days := days + [Date(y, 7, 22)];
      days := days + [Date(y, 7, 23)];
      assert days == days0 + [Date(y, 7, 22), Date(y, 7, 23)];
    }
  }

  /** The loop over the fixed-date table, moving Mountain Day in 2020 and 2021. */
  method ListFixedHolidays(y: int) returns (days: seq<Date>)
    ensures days == FixedHolidays(y, FixedDates)
  {
    days := [];
    var i := 0;
    while i < |FixedDates|
      invariant 0 <= i <= |FixedDates|
      invariant days == FixedHolidays(y, FixedDates[..i])
    {
      var (m, d) := FixedDates[i];
      var day := d;
      if y == 2020 && m == 8 && d == 11 {
        day := 10;
      }
      if y == 2021 && m == 8 && d == 11 {
        day := 8;
      }
      days := days + [Date(y, m, day)];
      assert FixedDates[..i + 1][..i] == FixedDates[..i];
      i := i + 1;
    }
    assert FixedDates[..i] == FixedDates;
  }

  /** The loop over the Monday table, skipping the months the Olympic years moved. */
  method ListMondayHolidays(y: int) returns (days: seq<Date>)
    ensures days == MondayHolidays(y, MondayRows)
  {
    days := [];
    var j := 0;
    while j < |MondayRows|
      invariant 0 <= j <= |MondayRows|
      invariant days == MondayHolidays(y, MondayRows[..j])
    {
      var (m, w, wd) := MondayRows[j];
      assert MondayRows[..j + 1][..j] == MondayRows[..j];
      if !SkippedMonday(y, m) {
        var temp := FindWeekday(y, m, w, wd);
        days := days + [temp];
      }
      j := j + 1;
    }
    assert MondayRows[..j] == MondayRows;
  }

  /** From day `7(w-1)+1` of the month, step a day at a time until the weekday is `wd`. */
  method FindWeekday(y: int, m: int, w: int, wd: int) returns (temp: Date)
    requires 1 <= m <= 12 && 1 <= w <= 3 && 0 <= wd < 7
    ensures temp == NthWeekday(y, m, w, wd)
  {
    temp := Date(y, m, 7 * (w - 1) + 1);
    ghost var first := temp;
    ghost var steps := (wd - Weekday(first)) % 7;
    ghost var taken := 0;
    while Weekday(temp) != wd
      invariant 0 <= taken <= steps && temp == Date(y, m, first.day + taken)
      invariant Weekday(temp) == (Weekday(first) + taken) % 7
      decreases steps - taken
    {
      StepsToWeekday(Weekday(first), wd, taken);
      NextDayFacts(temp);
      ModSuccessor(Weekday(first) + taken);
      assert NextDay(temp) == Date(y, m, first.day + taken + 1);
      temp := NextDay(temp);
      taken := taken + 1;
    }
    StepsToWeekday(Weekday(first), wd, taken);
  }

  /** Counting days forward from weekday `w0`, weekday `wd` is first reached after `(wd - w0) % 7` days. */
  lemma StepsToWeekday(w0: int, wd: int, taken: int)
    requires 0 <= w0 < 7 && 0 <= wd < 7 && 0 <= taken <= (wd - w0) % 7
    ensures (w0 + taken) % 7 == wd <==> taken == (wd - w0) % 7
  {
    if wd >= w0 {
      assert (wd - w0) % 7 == wd - w0;
      assert (w0 + taken) % 7 == w0 + taken;
    } else {
      assert (wd - w0) % 7 == wd - w0 + 7;
      if w0 + taken < 7 {
        assert (w0 + taken) % 7 == w0 + taken;
      } else {
        assert (w0 + taken) % 7 == w0 + taken - 7;
      }
    }
  }

  /** The scan of the sorted list: a substitute for each Sunday holiday, a citizens' holiday for each two-day gap. */
  method ScanSortedHolidays(days: seq<Date>, y: int) returns (additional: seq<Date>)
    requires ListedBy(days, y)
    ensures additional == Additional(days, |days|, y)
  {
    additional := [];
    var k := 0;
    while k < |days|
      invariant 0 <= k <= |days|
      invariant additional == Additional(days, k, y)
    {
      assert Additional(days, k + 1, y) == Additional(days, k, y) + Extra(days, k);
      if Weekday(days[k]) == 6 {
        ListedNext(days[k], y);
        var temp := FindSubstitute(days, NextDay(days[k]));
        additional := additional + [temp];
      } else if k < |days| - 1 {
        if DaysBetween(days[k], days[k + 1]) == 2 {
          additional := additional + [NextDay(days[k])];
        }
      }
      k := k + 1;
    }
  }

  /** The day after a listed day is still in the year and before Christmas. */
  lemma ListedNext(d: Date, y: int)
    requires Valid(d) && d.year == y && Le(d, Date(y, 12, 23))
    ensures Valid(NextDay(d)) && NextDay(d).year == y && Le(NextDay(d), Date(y, 12, 24))
  {
    NextDayFacts(d);
  }

  /** The inner loop of the scan: from `t`, step over Sundays and listed days. */
  method FindSubstitute(days: seq<Date>, t: Date) returns (temp: Date)
    requires ListedBy(days, t.year) && Valid(t) && Le(t, Date(t.year, 12, 25))
    requires t == Date(t.year, 12, 25) ==> Weekday(t) != 6
    ensures temp == Substitute(days, t)
  {
    temp := t;
    while Weekday(temp) == 6 || temp in days
      invariant Valid(temp) && temp.year == t.year && Le(temp, Date(t.year, 12, 25))
      invariant temp == Date(t.year, 12, 25) ==> Weekday(temp) != 6
      invariant Substitute(days, temp) == Substitute(days, t)
      decreases 403 - (31 * temp.month + temp.day)
    {
      NextDayFacts(temp);
      temp := NextDay(temp);
    }
  }
}
