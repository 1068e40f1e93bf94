/**
 * The reminder rules of the notification batch: the five checkpoint dates before a deadline,
 * which rights are reminded on a given day, which timing a reminder carries and when the next
 * one may be sent, and the "months or days left" wording and the month-end aware month shift
 * the batch uses.
 */
module Notify {
  import opened Wrappers
  import opened Dates
  import opened Props
  import JpCalendar
  import Sorting
  import CommonUtil

  // ---------------------------------------------------------------- checkpoints

  /** The reminder days of a deadline `d`, newest first: the day after, ten days, one, three and six months before. */
  function Checkpoints(d: Date): seq<Date>
    requires Valid(d)
  {
    [AddDays(d, 1), AddDays(d, -10), JpCalendar.MonthShift(d, -1), JpCalendar.MonthShift(d, -3), JpCalendar.MonthShift(d, -6)]
  }

  /** The order `sorted(…, reverse=True)` puts dates in. */
  const Newer: (Date, Date) -> bool := (a: Date, b: Date) => Le(b, a)

  /** A month back is at least 28 days back. */
  lemma MonthBackIsFourWeeks(d: Date)
    requires Valid(d)
    ensures Ordinal(JpCalendar.MonthShift(d, -1)) <= Ordinal(d) - 28
  {
    var r := JpCalendar.MonthShift(d, -1);
    JpCalendar.MonthShiftShape(d, -1);
    var last := LastOfMonth(r.year, r.month);
    var first := Date(d.year, d.month, 1);
    MonthAfter(r, d);
    NextDayFacts(last);
    SameMonthOrdinal(last, r);
    SameMonthOrdinal(d, first);
  }

  /** The day after the last of the month before `d`'s month is the first of `d`'s month. */
  lemma MonthAfter(r: Date, d: Date)
    requires Valid(r) && Valid(d) && JpCalendar.MonthIndex(r) + 1 == JpCalendar.MonthIndex(d)
    ensures NextDay(LastOfMonth(r.year, r.month)) == Date(d.year, d.month, 1)
  {
    if r.month == 12 {
      assert d.year == r.year + 1 && d.month == 1;
    } else {
      assert d.year == r.year && d.month == r.month + 1;
    }
  }

  /** Within one month, ordinals differ by the difference of the days. */
  lemma SameMonthOrdinal(a: Date, b: Date)
    requires a.year == b.year && a.month == b.month
    ensures Ordinal(a) - Ordinal(b) == a.day - b.day
  {
  }

  /** Each checkpoint is a real date strictly before the one listed ahead of it. */
  lemma CheckpointsSteps(d: Date)
    requires Valid(d)
    ensures var c := Checkpoints(d);
      Valid(c[0]) && Valid(c[1]) && Valid(c[2]) && Valid(c[3]) && Valid(c[4]) &&
      Before(c[1], c[0]) && Before(c[2], c[1]) && Before(c[3], c[2]) && Before(c[4], c[3])
  {
    NearSteps(d);
    JpCalendar.MonthShiftShape(d, -3);
    JpCalendar.MonthShiftShape(d, -6);
    JpCalendar.MonthShiftMonotone(d, -3, -1);
    JpCalendar.MonthShiftMonotone(d, -6, -3);
  }

  /** The day after, ten days before and a month before a deadline are real dates in that order. */
  lemma NearSteps(d: Date)
    requires Valid(d)
    ensures Valid(AddDays(d, 1)) && Valid(AddDays(d, -10)) && Valid(JpCalendar.MonthShift(d, -1))
    ensures Before(AddDays(d, -10), AddDays(d, 1)) && Before(JpCalendar.MonthShift(d, -1), AddDays(d, -10))
  {
    AddDaysValid(d, 1);
    AddDaysValid(d, -10);
    AddDaysOrdinal(d, 1);
    AddDaysOrdinal(d, -10);
    JpCalendar.MonthShiftShape(d, -1);
    MonthBackIsFourWeeks(d);
    OrdinalOrder(AddDays(d, -10), AddDays(d, 1));
    OrdinalOrder(JpCalendar.MonthShift(d, -1), AddDays(d, -10));
  }

  /** The checkpoints are real dates, newest first, without repetition. */
  lemma CheckpointsDescending(d: Date)
    requires Valid(d)
    ensures |Checkpoints(d)| == 5
    ensures forall i :: 0 <= i < 5 ==> Valid(Checkpoints(d)[i])
    ensures forall i, j :: 0 <= i < j < 5 ==> Before(Checkpoints(d)[j], Checkpoints(d)[i])
  {
    CheckpointsSteps(d);
    ChainDescends(Checkpoints(d));
  }

  /** Five dates, each before the one ahead of it, descend throughout. */
  lemma ChainDescends(c: seq<Date>)
    requires |c| == 5
    requires Before(c[1], c[0]) && Before(c[2], c[1]) && Before(c[3], c[2]) && Before(c[4], c[3])
    ensures forall i, j :: 0 <= i < j < 5 ==> Before(c[j], c[i])
  {
    BeforeTransitive(c[2], c[1], c[0]);
    BeforeTransitive(c[3], c[2], c[0]);
    BeforeTransitive(c[4], c[3], c[0]);
    BeforeTransitive(c[3], c[2], c[1]);
    BeforeTransitive(c[4], c[3], c[1]);
    BeforeTransitive(c[4], c[3], c[2]);
  }

  lemma BeforeTransitive(a: Date, b: Date, c: Date)
    requires Before(a, b) && Before(b, c)
    ensures Before(a, c)
  {
  }

  /** `get_checkpoints`: collect the five days oldest first, then sort them newest first. */
  method GetCheckpoints(d: Date) returns (points: seq<Date>)
    requires Valid(d)
    ensures points == Checkpoints(d)
    ensures forall i, j :: 0 <= i < j < |points| ==> Before(points[j], points[i])
  {
    points := [];
    var p := JpCalendar.AddMonths(d, -6, false);
    points := points + [p];
    p := JpCalendar.AddMonths(d, -3, false);
    points := points + [p];
    p := JpCalendar.AddMonths(d, -1, false);
    points := points + [p];
    points := points + [AddDays(d, -10)];
    points := points + [AddDays(d, 1)];
    CheckpointsDescending(d);
    var c := Checkpoints(d);
    assert points == [c[4], c[3], c[2], c[1], c[0]];
    forall i, j | 0 <= i < j < |points| ensures !Newer(points[i], points[j]) {
      assert points[i] == c[4 - i] && points[j] == c[4 - j];
    }
    Sorting.SortReversesDescending(points, Newer);
    points := Sorting.SortBy(points, Newer);
  }

  // ---------------------------------------------------------------- timing of a reminder

  /** The reminder kinds: ten days, one month, three months and six months ahead. */
  datatype Timing = D10 | M1 | M3 | M6

  /** The timing of a reminder whose first checkpoint on or before today is at index `i`. */
  function TimingAt(i: nat): (t: Option<Timing>)
    ensures t.Some? <==> i <= 4
  {
    if i <= 1 then Some(D10) else if i == 2 then Some(M1) else if i == 3 then Some(M3) else if i == 4 then Some(M6) else None
  }

  /** The index of the first checkpoint on or before `today`, or the length when there is none. */
  function DueIndex(ns: seq<Date>, today: Date): (i: nat)
    ensures i <= |ns|
    ensures forall j :: 0 <= j < i ==> Before(today, ns[j])
    ensures i < |ns| ==> Le(ns[i], today)
  {
    if ns == [] then 0
    else if Le(ns[0], today) then 0
    else 1 + DueIndex(ns[1..], today)
  }

  /** The index scan over the checkpoints. */
  method FirstDue(ns: seq<Date>, today: Date) returns (i: nat)
    ensures i == DueIndex(ns, today)
  {
    i := |ns|;
    var j := 0;
    while j < |ns|
      invariant 0 <= j <= |ns|
      invariant forall k :: 0 <= k < j ==> Before(today, ns[k])
    {
      if Le(ns[j], today) {
        i := j;
        return;
      }
      j := j + 1;
    }
  }

  /** `min([x for x in ns if x > today])`, which raises `ValueError` when no checkpoint is after today. */
  function EarliestAfter(ns: seq<Date>, today: Date): (r: Result<Date, Exception>)
    ensures r.Err? <==> forall j :: 0 <= j < |ns| ==> !Before(today, ns[j])
    ensures r.Err? ==> r.error == ValueError
    ensures r.Ok? ==> r.value in ns && Before(today, r.value)
    ensures r.Ok? ==> forall j :: 0 <= j < |ns| && Before(today, ns[j]) ==> Le(r.value, ns[j])
  {
    if ns == [] then Err(ValueError)
    else
      var rest := EarliestAfter(ns[1..], today);
      assert forall j :: 1 <= j < |ns| ==> ns[j] == ns[1..][j - 1];
      if Before(today, ns[0]) && (rest.Err? || Le(ns[0], rest.value)) then Ok(ns[0]) else rest
  }

  /** A reminder's timing and the day the next one may be sent (`MailPendingDate`). */
  datatype Notice = Notice(timing: Timing, pendingDate: Date)

  /** What the batch decides for a deadline on `today`: no reminder, a reminder, or the `ValueError` of an empty `min`. */
  function Selection(limit: Date, today: Date): Result<Option<Notice>, Exception>
    requires Valid(limit)
  {
    var ns := Checkpoints(limit);
    var i := DueIndex(ns, today);
    if i >= |ns| then Ok(None)
    else match EarliestAfter(ns, today)
      case Err(e) => Err(e)
      case Ok(m) => Ok(Some(Notice(TimingAt(i).value, m)))
  }

  /** The timing step of the batch for one right: scan the checkpoints, pick the timing, take the next checkpoint. */
  method SelectTiming(limit: Date, today: Date) returns (r: Result<Option<Notice>, Exception>)
    requires Valid(limit)
    ensures r == Selection(limit, today)
  {
    var ns := GetCheckpoints(limit);
    var i := FirstDue(ns, today);
    if i >= |ns| {
      return Ok(None);
    }
    var timing := TimingAt(i);
    var m := EarliestAfter(ns, today);
    if m.Err? {
      return Err(m.error);
    }
    r := Ok(Some(Notice(timing.value, m.value)));
  }

  /**
   * On the `k`-th checkpoint of a deadline not yet passed, the reminder has the timing of `k`, and the
   * next reminder may be sent on the checkpoint just after today.
   */
  lemma SelectionOnCheckpoint(limit: Date, today: Date, k: nat)
    requires Valid(limit) && Le(today, limit) && k < 5 && today == Checkpoints(limit)[k]
    ensures 1 <= k
    ensures Selection(limit, today) == Ok(Some(Notice(TimingAt(k).value, Checkpoints(limit)[k - 1])))
  {
    var ns := Checkpoints(limit);
    CheckpointsDescending(limit);
    AddDaysOrdinal(limit, 1);
    OrdinalOrder(limit, ns[0]);
    assert 1 <= k;
    DueAtMember(ns, k);
    EarliestAfterMember(ns, k);
  }

  /** In a strictly descending list, the first entry on or before one of its members is that member. */
  lemma DueAtMember(ns: seq<Date>, k: nat)
    requires k < |ns| && forall i, j :: 0 <= i < j < |ns| ==> Before(ns[j], ns[i])
    ensures DueIndex(ns, ns[k]) == k
  {
    var i := DueIndex(ns, ns[k]);
    assert forall j :: 0 <= j < k ==> Before(ns[k], ns[j]);
    assert !Before(ns[k], ns[k]);
  }

  /** In a strictly descending list, the earliest entry after a member is the entry ahead of it. */
  lemma EarliestAfterMember(ns: seq<Date>, k: nat)
    requires 1 <= k < |ns| && forall i, j :: 0 <= i < j < |ns| ==> Before(ns[j], ns[i])
    ensures EarliestAfter(ns, ns[k]) == Ok(ns[k - 1])
  {
    var r := EarliestAfter(ns, ns[k]);
    assert Before(ns[k], ns[k - 1]);
    var j :| 0 <= j < |ns| && ns[j] == r.value;
    assert forall m :: k < m < |ns| ==> Before(ns[m], ns[k]);
    assert forall m :: 0 <= m < k - 1 ==> Before(ns[k - 1], ns[m]);
  }

  /** There is no reminder exactly while the oldest checkpoint is still ahead. */
  lemma NoReminderBeforeSixMonths(limit: Date, today: Date)
    requires Valid(limit)
    ensures Selection(limit, today) == Ok(None) <==> Before(today, JpCalendar.MonthShift(limit, -6))
  {
    var ns := Checkpoints(limit);
    CheckpointsDescending(limit);
    if Before(today, ns[4]) {
      assert forall j :: 0 <= j < 5 ==> Before(today, ns[j]);
    }
  }

  /** The empty `min` happens exactly when even the day after the deadline has been reached. */
  lemma EmptyMinOnlyAfterDeadline(limit: Date, today: Date)
    requires Valid(limit)
    ensures Selection(limit, today).Err? <==> Le(AddDays(limit, 1), today)
  {
    var ns := Checkpoints(limit);
    CheckpointsDescending(limit);
    if Le(ns[0], today) {
      assert forall j :: 0 <= j < 5 ==> !Before(today, ns[j]);
    } else {
      assert Before(today, ns[0]);
    }
  }

  // ---------------------------------------------------------------- month-end aware shift

  /** On valid dates, an earlier month is an earlier date. */
  lemma MonthIndexOrder(a: Date, b: Date)
    requires Valid(a) && Valid(b) && JpCalendar.MonthIndex(a) < JpCalendar.MonthIndex(b)
    ensures Before(a, b)
  {
  }

  /** `after_month(basis, n)`: `add_months`, moved to the month's last day when the basis is a month end. */
  function AfterMonthSpec(basis: Date, n: int): Date
    requires Valid(basis)
  {
    var s := JpCalendar.MonthShift(basis, n);
    if basis.day == DaysInMonth(basis.year, basis.month) then LastOfMonth(s.year, s.month) else s
  }

  /** The shift lands `n` months on, keeps a month end a month end, and is never before `add_months`. */
  lemma AfterMonthFacts(basis: Date, n: int)
    requires Valid(basis)
    ensures var r := AfterMonthSpec(basis, n);
      && Valid(r) && JpCalendar.MonthIndex(r) == JpCalendar.MonthIndex(basis) + n
      && Le(JpCalendar.MonthShift(basis, n), r)
      && (basis.day == DaysInMonth(basis.year, basis.month) ==> r.day == DaysInMonth(r.year, r.month))
      && (basis.day != DaysInMonth(basis.year, basis.month) ==> r == JpCalendar.MonthShift(basis, n))
  {
    JpCalendar.MonthShiftShape(basis, n);
  }

  /** `after_month`: detect a month-end basis by the next day, shift, then walk to the end of the month. */
  method AfterMonth(basis: Date, months: int) returns (x: Date)
    requires Valid(basis)
    ensures x == AfterMonthSpec(basis, months)
  {
    var lastOfMonth := false;
    var tomorrow := NextDay(basis);
    if tomorrow.month != basis.month {
      lastOfMonth := true;
    }
    x := JpCalendar.AddMonths(basis, months, false);
    if lastOfMonth {
      var a := x.month;
      ghost var y := x.year;
      while x.month == a
        invariant Valid(x)
        invariant x.month == a ==> x.year == y
        invariant x.month != a ==> x == NextDay(LastOfMonth(y, a))
        decreases if x.month == a then DaysInMonth(y, a) - x.day + 1 else 0
      {
        x := NextDay(x);
      }
      x := PrevDay(x);
    }
  }

  // ---------------------------------------------------------------- which rights are reminded

  /**
   * The selection of the batch query: a Japanese right whose deadline is not past and falls within six
   * months (a trademark) or three months (the other laws), not silenced, and not held back by a pending date.
   */
  predicate Candidate(p: Property, mailPending: Option<Date>, today: Date)
    requires Valid(today)
  {
    p.country == "JP" && p.limit.Some? &&
    (if p.law == Trademark then Le(p.limit.value, AfterMonthSpec(today, 6)) else Le(p.limit.value, AfterMonthSpec(today, 3))) &&
    Le(today, p.limit.value) && !p.silent &&
    (mailPending.None? || Le(mailPending.value, today))
  }

  /** A candidate is reminded only on one of its checkpoint days. */
  predicate Reminded(p: Property, mailPending: Option<Date>, today: Date)
    requires Valid(today) && CommonUtil.WellFormed(p)
  {
    Candidate(p, mailPending, today) && today in Checkpoints(p.limit.value)
  }

  /**
   * A reminded right gets a reminder with a next sending day after today, and only a trademark is
   * ever reminded six months ahead.
   */
  lemma RemindedRightsGetNotice(p: Property, mailPending: Option<Date>, today: Date)
    requires Valid(today) && CommonUtil.WellFormed(p) && Reminded(p, mailPending, today)
    ensures var s := Selection(p.limit.value, today);
      s.Ok? && s.value.Some? && Before(today, s.value.value.pendingDate) &&
      (s.value.value.timing == M6 ==> p.law == Trademark)
  {
    var l := p.limit.value;
    var ns := Checkpoints(l);
    CheckpointsDescending(l);
    var k :| 0 <= k < 5 && ns[k] == today;
    SelectionOnCheckpoint(l, today, k);
    if k == 4 {
      JpCalendar.MonthShiftShape(l, -6);
      AfterMonthFacts(today, 3);
      MonthIndexOrder(AfterMonthSpec(today, 3), l);
    }
  }

  // ---------------------------------------------------------------- months or days left

  /** The unit of a remaining period. */
  datatype Unit = Days | Months

  /** How many shifts of `d2` back by 0, 1, 2, … months stay on or after `d1`, in closed form. */
  function MonthsSpanned(d1: Date, d2: Date): nat
    requires Valid(d1) && Valid(d2)
  {
    var k := JpCalendar.MonthIndex(d2) - JpCalendar.MonthIndex(d1);
    if k < 0 then 0 else if Le(d1, JpCalendar.MonthShift(d2, -k)) then k + 1 else k
  }

  /** `add_months(d, -1 * j)`. */
  function MonthsBack(d: Date, j: int): Date {
    JpCalendar.MonthShift(d, -j)
  }

  /** Every shift back by fewer months than the closed form stays on or after `d1`. */
  lemma BackReaches(d1: Date, d2: Date, j: int)
    requires Valid(d1) && Valid(d2) && 0 <= j
    ensures j < MonthsSpanned(d1, d2) ==> Le(d1, MonthsBack(d2, j))
  {
    var k := JpCalendar.MonthIndex(d2) - JpCalendar.MonthIndex(d1);
    JpCalendar.MonthShiftShape(d2, -j);
    if j < k {
      MonthIndexOrder(d1, MonthsBack(d2, j));
    }
  }

  /** The shift back by the closed form is before `d1`. */
  lemma BackMisses(d1: Date, d2: Date)
    requires Valid(d1) && Valid(d2)
    ensures Before(MonthsBack(d2, MonthsSpanned(d1, d2)), d1)
  {
    var m: int := MonthsSpanned(d1, d2);
    var k := JpCalendar.MonthIndex(d2) - JpCalendar.MonthIndex(d1);
    JpCalendar.MonthShiftShape(d2, -m);
    if m != k {
      MonthIndexOrder(MonthsBack(d2, m), d1);
    }
  }

  /** `diff_months_or_days(d1, d2)`: the remaining period in days up to 20 days, otherwise in months. */
  function DiffSpec(d1: Date, d2: Date): (int, Unit)
    requires Valid(d1) && Valid(d2)
  {
    var m := MonthsSpanned(d1, d2);
    var days := DaysBetween(d1, d2);
    if m < 1 then (days, Days)
    else if m == 1 then (if days > 20 then (1, Months) else (days, Days))
    else if d1.day == d2.day then (m - 1, Months)
    else (m, Months)
  }

  /** The counting loop of `diff_months_or_days`, then the choice of unit. */
  method DiffMonthsOrDays(d1: Date, d2: Date) returns (n: int, unit: Unit)
    requires Valid(d1) && Valid(d2)
    ensures (n, unit) == DiffSpec(d1, d2)
  {
    BackMisses(d1, d2);
    var m := 0;
    var back := JpCalendar.AddMonths(d2, -1 * m, false);
    while Le(d1, back)
      invariant 0 <= m <= MonthsSpanned(d1, d2)
      invariant back == MonthsBack(d2, m)
      decreases MonthsSpanned(d1, d2) - m
    {
      m := m + 1;
      back := JpCalendar.AddMonths(d2, -1 * m, false);
    }
    BackReaches(d1, d2, m);
    var days := DaysBetween(d1, d2);
    if m < 1 {
      return days, Days;
    } else if m == 1 {
      if days > 20 {
        return 1, Months;
      }
      return days, Days;
    } else if d1.day == d2.day {
      return m - 1, Months;
    }
    return m, Months;
  }

  /**
   * For a later `d2`: a count in days is the exact day difference, at most 20, within a month of `d1`;
   * a count in months is at least one, and exact when the days of the month agree.
   */
  lemma DiffMeaning(d1: Date, d2: Date)
    requires Valid(d1) && Valid(d2) && Le(d1, d2)
    ensures DiffSpec(d1, d2).1 == Days ==>
      DiffSpec(d1, d2).0 == DaysBetween(d1, d2) && 0 <= DiffSpec(d1, d2).0 <= 20 &&
      Before(JpCalendar.MonthShift(d2, -1), d1)
    ensures DiffSpec(d1, d2).1 == Months ==> DiffSpec(d1, d2).0 >= 1
    ensures DiffSpec(d1, d2).1 == Months && d1.day == d2.day ==> JpCalendar.MonthShift(d1, DiffSpec(d1, d2).0) == d2
  {
    SpannedPositive(d1, d2);
    if d1 != d2 {
      OrdinalMonotone(d1, d2);
    }
    if MonthsSpanned(d1, d2) == 1 {
      BackMisses(d1, d2);
    }
    if d1.day == d2.day {
      EqualDaysExact(d1, d2);
    }
  }

  /** For a later `d2`, the shift by no months already stays on or after `d1`. */
  lemma SpannedPositive(d1: Date, d2: Date)
    requires Valid(d1) && Valid(d2) && Le(d1, d2)
    ensures MonthsSpanned(d1, d2) >= 1
  {
    var k := JpCalendar.MonthIndex(d2) - JpCalendar.MonthIndex(d1);
    if k < 0 {
      MonthIndexOrder(d2, d1);
    } else if k == 0 {
      JpCalendar.MonthShiftZero(d2);
    }
  }

  /** With the same day of the month, the closed form counts one more than the exact number of months between. */
  lemma EqualDaysExact(d1: Date, d2: Date)
    requires Valid(d1) && Valid(d2) && Le(d1, d2) && d1.day == d2.day
    ensures var k := JpCalendar.MonthIndex(d2) - JpCalendar.MonthIndex(d1);
      k >= 0 && MonthsSpanned(d1, d2) == k + 1 && JpCalendar.MonthShift(d1, k) == d2
  {
    var k := JpCalendar.MonthIndex(d2) - JpCalendar.MonthIndex(d1);
    if k < 0 {
      MonthIndexOrder(d2, d1);
    }
    ShiftOntoSameDay(d2, d1, -k);
    ShiftOntoSameDay(d1, d2, k);
  }

  /** Shifting onto the month of a date with the same day of the month gives that date. */
  lemma ShiftOntoSameDay(a: Date, b: Date, n: int)
    requires Valid(a) && Valid(b) && a.day == b.day && JpCalendar.MonthIndex(a) + n == JpCalendar.MonthIndex(b)
    ensures JpCalendar.MonthShift(a, n) == b
  {
    var r := JpCalendar.MonthShift(a, n);
    JpCalendar.MonthShiftShape(a, n);
    JpCalendar.MonthIndexInverse(r);
    JpCalendar.MonthIndexInverse(b);
  }
}
