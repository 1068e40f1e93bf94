/**
 * The two computations of `DbClient` that decide what is written back to a stored right:
 * `renew_limit_date`, which recomputes the next deadlines after a request completes, and the
 * validation part of `update_prop`, which turns an edit form into a `$set`/`$unset` update or
 * rejects it. The stored document and the completed requests are parameters; the write is left out.
 */
module Database {
  import opened Wrappers
  import opened Dates
  import opened Props
  import opened Text
  import JpCalendar
  import Sorting
  import CommonUtil

  // ---------------------------------------------------------------- the latest completed request

  /** The entry of this right inside a completed or receipted request: the keys `renew_limit_date` reads. */
  datatype RequestLine = RequestLine(
    paidYears: Option<int>,
    years: Option<int>,
    yearFrom: Option<int>,
    yearTo: Option<int>,
    completedTime: Option<Instant>)

  /** A request that names this right and has a `CompletedTime` or a `SendingReceiptTime`; `RequestedTime` as a count of seconds. */
  datatype CompletedRequest = CompletedRequest(requestedTime: int, line: RequestLine)

  function ByRequestedTime(): (CompletedRequest, CompletedRequest) -> bool {
    (a: CompletedRequest, b: CompletedRequest) => a.requestedTime <= b.requestedTime
  }

  lemma ByRequestedTimeIsTotalPreorder()
    ensures Sorting.TotalPreorder(ByRequestedTime())
  {
  }

  /** `sorted(reqs, key=RequestedTime)[-1]`, when there is a request. */
  function Latest(reqs: seq<CompletedRequest>): Option<RequestLine> {
    var s := Sorting.SortBy(reqs, ByRequestedTime());
    if s == [] then None else Some(s[|s| - 1].line)
  }

  /** Every request is no newer than the last one after sorting. */
  lemma SortedLastIsNewest(reqs: seq<CompletedRequest>)
    requires reqs != []
    ensures var s := Sorting.SortBy(reqs, ByRequestedTime());
      |s| == |reqs| && forall j :: 0 <= j < |reqs| ==> reqs[j].requestedTime <= s[|s| - 1].requestedTime
  {
    var le := ByRequestedTime();
    var s := Sorting.SortBy(reqs, le);
    Sorting.SortPermutes(reqs, le);
    ByRequestedTimeIsTotalPreorder();
    Sorting.SortSorts(reqs, le);
    forall j | 0 <= j < |reqs| ensures reqs[j].requestedTime <= s[|s| - 1].requestedTime {
      Sorting.MembersSurviveSort(reqs, le, reqs[j]);
      var k :| 0 <= k < |s| && s[k] == reqs[j];
      assert k == |s| - 1 || le(s[k], s[|s| - 1]);
    }
  }

  /** The last element after sorting is the last input element with its `RequestedTime`. */
  lemma SortedLastIsLastTied(reqs: seq<CompletedRequest>)
    requires reqs != []
    ensures var s := Sorting.SortBy(reqs, ByRequestedTime());
      |s| == |reqs| &&
      (exists i ::
        0 <= i < |reqs| && reqs[i] == s[|s| - 1] &&
        forall j :: i < j < |reqs| ==> reqs[j].requestedTime != reqs[i].requestedTime)
  {
    var le := ByRequestedTime();
    var s := Sorting.SortBy(reqs, le);
    ByRequestedTimeIsTotalPreorder();
    Sorting.SortLastIsLastTied(reqs, le);
    var x := s[|s| - 1];
    var i :| 0 <= i < |reqs| && reqs[i] == x && forall j :: i < j < |reqs| ==> !(le(reqs[j], x) && le(x, reqs[j]));
    assert forall j :: i < j < |reqs| ==> reqs[j].requestedTime != reqs[i].requestedTime;
  }

  /**
   * The request consulted is the newest one, and among requests with that same `RequestedTime`
   * the one listed last, since `sorted` is stable; there is one exactly when some request exists.
   */
  lemma LatestIsNewest(reqs: seq<CompletedRequest>)
    ensures Latest(reqs).None? <==> reqs == []
    ensures reqs != [] ==>
      (exists i ::
        0 <= i < |reqs| && Latest(reqs) == Some(reqs[i].line) &&
        (forall j :: 0 <= j < |reqs| ==> reqs[j].requestedTime <= reqs[i].requestedTime) &&
        (forall j :: i < j < |reqs| ==> reqs[j].requestedTime < reqs[i].requestedTime))
  {
    Sorting.SortPermutes(reqs, ByRequestedTime());
    if reqs != [] {
      var s := Sorting.SortBy(reqs, ByRequestedTime());
      SortedLastIsNewest(reqs);
      SortedLastIsLastTied(reqs);
      var i :| 0 <= i < |reqs| && reqs[i] == s[|s| - 1] &&
        forall j :: i < j < |reqs| ==> reqs[j].requestedTime != reqs[i].requestedTime;
      assert Latest(reqs) == Some(reqs[i].line);
    }
  }

  // ---------------------------------------------------------------- paid years after the latest request

  lemma NextExpirationValid(p: Property)
    requires CommonUtil.WellFormed(p)
    ensures p.expirationDate.Some? ==> Valid(JpCalendar.MonthShift(p.expirationDate.value, 10 * 12))
  {
    if p.expirationDate.Some? {
      JpCalendar.MonthShiftShape(p.expirationDate.value, 10 * 12);
    }
  }

  /**
   * The paid years and the expiration date `renew_limit_date` goes on with: the stored `PaidYears`
   * (or 0), corrected by the latest request. For a trademark with an expiration date, a second
   * installment (`PaidYears` 5) completed after eleven years before expiry makes it 10, and any other
   * request completed in the last year before expiry makes it the request's `Years` and moves the
   * expiration ten years on; for any other right it is raised to the request's `YearTo`, or to its
   * `YearFrom` for a one-year request. A key the request lacks raises `KeyError`.
   */
  function PaidAfter(p: Property, latest: Option<RequestLine>): (r: Result<(int, Option<Date>), Exception>)
    requires CommonUtil.WellFormed(p)
    ensures r.Ok? && r.value.1.Some? ==> Valid(r.value.1.value)
  {
    NextExpirationValid(p);
    var y := PaidOrZero(p);
    if latest.None? then Ok((y, p.expirationDate))
    else
      var q := latest.value;
      if p.law == Trademark then
        if p.expirationDate.None? then Ok((y, None))
        else
          var exp := p.expirationDate.value;
          if q.paidYears.None? || q.completedTime.None? then Err(KeyError)
          else if q.paidYears.value == 5 then
            if InstantAfter(q.completedTime.value, JpCalendar.MonthShift(exp, -11 * 12)) then Ok((10, Some(exp)))
            else Ok((y, Some(exp)))
          else if InstantAfter(q.completedTime.value, JpCalendar.MonthShift(exp, -12)) then
            if q.years.None? then Err(KeyError)
            else Ok((q.years.value, Some(JpCalendar.MonthShift(exp, 10 * 12))))
          else Ok((y, Some(exp)))
      else
        var y2 :=
          if q.yearTo.Some? then Ok(q.yearTo.value)
          else if q.years.None? then Err(KeyError)
          else if q.years.value != 1 then Err(AssertionError)
          else if q.yearFrom.None? then Err(KeyError)
          else Ok(q.yearFrom.value);
        match y2
        case Err(e) => Err(e)
        case Ok(v) => Ok((if v > y then v else y, p.expirationDate))
  }

  /** Only a trademark's expiration date can move, by exactly ten years, and only a non-trademark's paid years never go down. */
  lemma PaidAfterFacts(p: Property, latest: Option<RequestLine>)
    requires CommonUtil.WellFormed(p)
    ensures var r := PaidAfter(p, latest); r.Ok? ==>
      (r.value.1 == p.expirationDate ||
        (p.law == Trademark && p.expirationDate.Some? && r.value.1 == Some(JpCalendar.MonthShift(p.expirationDate.value, 120))))
    ensures var r := PaidAfter(p, latest); r.Ok? && p.law != Trademark ==> r.value.0 >= PaidOrZero(p)
    ensures latest.None? ==> PaidAfter(p, latest) == Ok((PaidOrZero(p), p.expirationDate))
  {
  }

  // ---------------------------------------------------------------- the recomputed deadlines

  /** The keys of a stored right that the two computations write or compare. */
  datatype Field =
    | RegistrationNumber | JpGenmen
    | NextProcedureLimit | NextProcedureOpenDate | NextProcedureLastLimit
    | ApplicationDate | RegistrationDate | ExpirationDate | ExamClaimedDate
    | RegistrationPaymentDate | RegistrationInvestigatedDate | RenewPaymentDate | DisappearanceDate
    | NumberOfClaims | NumberOfClasses | PaidYears | Classes | Holders | Defensive | Disappered | Silent

  const LimitKey: Field := NextProcedureLimit
  const OpenKey: Field := NextProcedureOpenDate
  const LastKey: Field := NextProcedureLastLimit

  /** An update of the stored right: the dates to set and the keys to remove. */
  datatype Update = Update(sets: map<Field, Date>, unsets: set<Field>)

  /** The deadline a Japanese trademark's next payment falls on: expiry less the unpaid years, or expiry itself past ten years. */
  function TrademarkBase(exp: Date, y: int): Date {
    if y <= 10 then JpCalendar.MonthShift(exp, -1 * 12 * (10 - y)) else JpCalendar.MonthShift(exp, 0)
  }

  /** A Japanese trademark's deadlines from its expiration date. */
  function TrademarkDeadlinesOf(e: Date, y: int): (c: map<Field, Date>)
    requires Valid(e)
    ensures c.Keys == {LimitKey, OpenKey, LastKey}
  {
    var l := TrademarkBase(e, y);
    map[LimitKey := JpCalendar.NextBusinessDay(l),
        OpenKey := JpCalendar.MonthShift(l, -6),
        LastKey := JpCalendar.NextBusinessDay(JpCalendar.MonthShift(l, 6))]
  }

  /** Any other right's deadlines from its registration date; only a Japanese right has a late limit. */
  function RegisteredDeadlinesOf(reg: Date, y: int, jp: bool): (c: map<Field, Date>)
    requires Valid(reg)
    ensures c.Keys == if jp then {LimitKey, LastKey} else {LimitKey}
  {
    if jp then
      map[LimitKey := JpCalendar.NextBusinessDay(JpCalendar.MonthShift(reg, 12 * y)),
          LastKey := JpCalendar.NextBusinessDay(JpCalendar.MonthShift(reg, 12 * y + 6))]
    else map[LimitKey := JpCalendar.MonthShift(reg, 12 * y)]
  }

  /** The deadlines computed before any of them is dropped. */
  function Computed(p: Property, y: int, exp: Option<Date>): (c: map<Field, Date>)
    requires CommonUtil.WellFormed(p) && (exp.Some? ==> Valid(exp.value))
    ensures c.Keys <= {LimitKey, OpenKey, LastKey}
  {
    if IsJpTrademark(p) then
      if exp.None? then map[] else TrademarkDeadlinesOf(exp.value, y)
    else if p.registrationDate.None? then map[]
    else RegisteredDeadlinesOf(p.registrationDate.value, y, IsJp(p))
  }

  /** The computed limit survives: it lies within the right's term (checked for non-trademarks only) and the right has not disappeared. */
  predicate Keeps(p: Property, c: map<Field, Date>) {
    LimitKey in c &&
    !(p.expirationDate.Some? && Before(p.expirationDate.value, c[LimitKey]) && p.law != Trademark) &&
    !p.disappeared
  }

  /**
   * The update `renew_limit_date` means to write: the surviving deadlines, with the late-payment
   * limit defaulting to the limit itself, or, when no limit survives, the removal of all three.
   */
  function RenewQuery(p: Property, y: int, exp: Option<Date>): Update
    requires CommonUtil.WellFormed(p) && (exp.Some? ==> Valid(exp.value))
  {
    var c := Computed(p, y, exp);
    if Keeps(p, c) then Update(if LastKey in c then c else c[LastKey := c[LimitKey]], {})
    else Update(map[], {LimitKey, OpenKey, LastKey})
  }

  /** The same update as the lines are written: with no surviving limit, a computed opening date stays in `$set`. */
  function RenewQueryAsWritten(p: Property, y: int, exp: Option<Date>): Update
    requires CommonUtil.WellFormed(p) && (exp.Some? ==> Valid(exp.value))
  {
    var c := Computed(p, y, exp);
    if Keeps(p, c) then Update(if LastKey in c then c else c[LastKey := c[LimitKey]], {})
    else
      var rest := c - {LimitKey, LastKey};
      Update(rest, {LimitKey, OpenKey, LastKey} - rest.Keys)
  }

  /** `None` for an update with nothing in it, which is not sent. */
  function Submitted(u: Update): Option<Update> {
    if u.sets == map[] && u.unsets == {} then None else Some(u)
  }

  /**
   * The guarantees of the update: no key is both set and removed, only the three deadline keys are
   * touched (so `ExpirationDate` and `PaidYears` are never written), a set limit always comes with a
   * set late-payment limit, a missing limit removes all three keys, and the update is never empty.
   */
  lemma RenewQueryGuarantees(p: Property, y: int, exp: Option<Date>)
    requires CommonUtil.WellFormed(p) && (exp.Some? ==> Valid(exp.value))
    ensures var u := RenewQuery(p, y, exp);
      && u.sets.Keys !! u.unsets
      && u.sets.Keys + u.unsets <= {LimitKey, OpenKey, LastKey}
      && ExpirationDate !in u.sets.Keys + u.unsets && PaidYears !in u.sets.Keys + u.unsets
      && (LimitKey in u.sets ==> LastKey in u.sets && u.unsets == {})
      && (LimitKey !in u.sets ==> u.sets == map[] && u.unsets == {LimitKey, OpenKey, LastKey})
      && Submitted(u) == Some(u)
  {
  }

  /**
   * A Japanese trademark with an expiration date, not disappeared: with `L` its payment base, the limit
   * is the business day from `L`, the opening date six months before `L` unadjusted, and the late limit
   * the business day from six months after `L`; past ten paid years `L` is the expiration itself.
   */
  lemma TrademarkDeadlines(p: Property, y: int, e: Date)
    requires CommonUtil.WellFormed(p) && Valid(e) && IsJpTrademark(p) && !p.disappeared
    ensures var u := RenewQuery(p, y, Some(e)); var l := TrademarkBase(e, y);
      && u.unsets == {} && u.sets.Keys == {LimitKey, OpenKey, LastKey}
      && u.sets[LimitKey] == JpCalendar.NextBusinessDay(l)
      && u.sets[OpenKey] == JpCalendar.MonthShift(l, -6)
      && u.sets[LastKey] == JpCalendar.NextBusinessDay(JpCalendar.MonthShift(l, 6))
    ensures y > 10 ==> TrademarkBase(e, y) == e
    ensures y <= 10 ==> TrademarkBase(e, y).year == e.year - (10 - y) && TrademarkBase(e, y).month == e.month
  {
    JpCalendar.MonthShiftZero(e);
    JpCalendar.MonthShiftYears(e, -(10 - y));
    assert -1 * 12 * (10 - y) == 12 * -(10 - y);
  }

  /**
   * Any other right with a registration date: the limit is `12·y` months after registration (the
   * business day from there for Japan) unless that passes the expiration or the right has disappeared;
   * a Japanese right's late limit is the business day from six months later, a foreign right's is the
   * limit itself.
   */
  lemma RegisteredDeadlines(p: Property, y: int, exp: Option<Date>)
    requires CommonUtil.WellFormed(p) && (exp.Some? ==> Valid(exp.value)) && !IsJpTrademark(p) && p.registrationDate.Some?
    ensures var u := RenewQuery(p, y, exp); var reg := p.registrationDate.value;
      var limit := if IsJp(p) then JpCalendar.NextBusinessDay(JpCalendar.MonthShift(reg, 12 * y)) else JpCalendar.MonthShift(reg, 12 * y);
      && (LimitKey in u.sets <==> !p.disappeared && !(p.law != Trademark && p.expirationDate.Some? && Before(p.expirationDate.value, limit)))
      && (LimitKey in u.sets ==>
            u.sets[LimitKey] == limit && OpenKey !in u.sets &&
            u.sets[LastKey] == if IsJp(p) then JpCalendar.NextBusinessDay(JpCalendar.MonthShift(reg, 12 * y + 6)) else limit)
  {
  }

  /** No registration date (and, for a Japanese trademark, no expiration date) means no deadline at all. */
  lemma NoBasisNoDeadline(p: Property, y: int, exp: Option<Date>)
    requires CommonUtil.WellFormed(p) && (exp.Some? ==> Valid(exp.value))
    requires if IsJpTrademark(p) then exp.None? else p.registrationDate.None?
    ensures RenewQuery(p, y, exp) == Update(map[], {LimitKey, OpenKey, LastKey})
  {
  }

  /** The two readings differ exactly when no limit survives but an opening date was computed. */
  lemma AsWrittenDiffersOnlyInOpenDate(p: Property, y: int, exp: Option<Date>)
    requires CommonUtil.WellFormed(p) && (exp.Some? ==> Valid(exp.value))
    ensures var c := Computed(p, y, exp);
      RenewQueryAsWritten(p, y, exp) != RenewQuery(p, y, exp) <==> !Keeps(p, c) && OpenKey in c
    ensures var c := Computed(p, y, exp); var u := RenewQueryAsWritten(p, y, exp);
      !Keeps(p, c) && OpenKey in c ==> u.sets == map[OpenKey := c[OpenKey]] && u.unsets == {LimitKey, LastKey}
  {
    var c := Computed(p, y, exp);
    if !Keeps(p, c) && OpenKey in c {
      assert c - {LimitKey, LastKey} == map[OpenKey := c[OpenKey]];
      assert OpenKey in RenewQueryAsWritten(p, y, exp).sets;
    } else if !Keeps(p, c) {
      assert c - {LimitKey, LastKey} == map[];
    }
  }

  /**
   * A disappeared Japanese trademark with an expiration date, as written, keeps a `NextProcedureOpenDate`
   * in `$set` while its `NextProcedureLimit` is removed: the removal of all three keys is undone for
   * the opening date by the final pass that drops `$set` keys from `$unset`.
   */
  lemma DisappearedTrademarkKeepsOpenDate()
    ensures var p := Property("JP", Trademark, true, None, None, Some(Date(2015, 4, 1)), None, Some(Date(2025, 4, 1)),
        None, None, None, Some(10), None, None, None, None, false, None, None, None, None, false);
      var u := RenewQueryAsWritten(p, 10, Some(Date(2025, 4, 1)));
      OpenKey in u.sets && LimitKey in u.unsets && RenewQuery(p, 10, Some(Date(2025, 4, 1))).sets == map[]
  {
    var p := Property("JP", Trademark, true, None, None, Some(Date(2015, 4, 1)), None, Some(Date(2025, 4, 1)),
        None, None, None, Some(10), None, None, None, None, false, None, None, None, None, false);
    AsWrittenDiffersOnlyInOpenDate(p, 10, Some(Date(2025, 4, 1)));
  }

  /** What `renew_limit_date` writes, from the stored right and its completed requests. */
  function Renewed(p: Property, reqs: seq<CompletedRequest>): Result<Option<Update>, Exception>
    requires CommonUtil.WellFormed(p)
  {
    match PaidAfter(p, Latest(reqs))
    case Err(e) => Err(e)
    case Ok(v) => Ok(Submitted(RenewQuery(p, v.0, v.1)))
  }

  /**
   * Whenever no request key is missing, an update is written; it can fail only for a right with a
   * completed request, and only for a trademark with an expiration date or a non-trademark whose
   * request has no `YearTo`.
   */
  lemma RenewedOutcome(p: Property, reqs: seq<CompletedRequest>)
    requires CommonUtil.WellFormed(p)
    ensures var r := Renewed(p, reqs); r.Ok? ==> r.value.Some?
    ensures Renewed(p, reqs).Err? ==>
      reqs != [] && (if p.law == Trademark then p.expirationDate.Some? else Latest(reqs).value.yearTo.None?)
  {
    LatestIsNewest(reqs);
    var r := PaidAfter(p, Latest(reqs));
    if r.Ok? {
      RenewQueryGuarantees(p, r.value.0, r.value.1);
    }
  }

  // ---------------------------------------------------------------- the imperative computation

  /** The paid-years correction of `renew_limit_date`, step by step. */
  method AdjustPaidYears(p: Property, latest: Option<RequestLine>) returns (r: Result<(int, Option<Date>), Exception>)
    requires CommonUtil.WellFormed(p)
    ensures r == PaidAfter(p, latest)
  {
    var y := PaidOrZero(p);
    var exp := p.expirationDate;
    if latest.Some? {
      var q := latest.value;
      if p.law == Trademark {
        if exp.Some? {
          if q.paidYears.None? {
            return Err(KeyError);
          }
          if q.completedTime.None? {
            return Err(KeyError);
          }
          if q.paidYears.value == 5 {
            var bound := JpCalendar.AddMonths(exp.value, -11 * 12, false);
            if InstantAfter(q.completedTime.value, bound) {
              y := 10;
            }
          } else {
            var bound := JpCalendar.AddMonths(exp.value, -12, false);
            if InstantAfter(q.completedTime.value, bound) {
              var next := JpCalendar.AddMonths(exp.value, 10 * 12, false);
              if q.years.None? {
                return Err(KeyError);
              }
              y := q.years.value;
              exp := Some(next);
            }
          }
        }
      } else {
        var y2: int;
        if q.yearTo.Some? {
          y2 := q.yearTo.value;
        } else {
          if q.years.None? {
            return Err(KeyError);
          }
          if q.years.value != 1 {
            return Err(AssertionError);
          }
          if q.yearFrom.None? {
            return Err(KeyError);
          }
          y2 := q.yearFrom.value;
        }
        if y2 > y {
          y := y2;
        }
      }
    }
    r := Ok((y, exp));
  }

  /** The Japanese-trademark branch of the deadline computation. */
  method ComputeTrademarkDeadlines(e: Date, y: int) returns (sets: map<Field, Date>)
    requires Valid(e)
    ensures sets == TrademarkDeadlinesOf(e, y)
  {
    var l: Date;
    if y <= 10 {
      l := JpCalendar.AddMonths(e, -1 * 12 * (10 - y), false);
    } else {
      l := JpCalendar.AddMonths(e, 0, false);
    }
    assert l == TrademarkBase(e, y);
    sets := map[LimitKey := l];
    var open := JpCalendar.AddMonths(sets[LimitKey], -6, false);
    sets := sets[OpenKey := open];
    var last := JpCalendar.AddMonths(sets[LimitKey], 6, true);
    sets := sets[LastKey := last];
    var limit := JpCalendar.AddMonths(sets[LimitKey], 0, true);
    sets := sets[LimitKey := limit];
    TrademarkDeadlinesFrom(e, y, l, open, last, limit);
  }

  /** The three dates of the trademark branch, once computed, make up the deadlines. */
  lemma TrademarkDeadlinesFrom(e: Date, y: int, l: Date, open: Date, last: Date, limit: Date)
    requires Valid(e) && l == TrademarkBase(e, y)
    requires open == JpCalendar.MonthShift(l, -6)
    requires last == JpCalendar.NextBusinessDay(JpCalendar.MonthShift(l, 6))
    requires limit == JpCalendar.NextBusinessDay(JpCalendar.MonthShift(l, 0))
    ensures map[LimitKey := l][OpenKey := open][LastKey := last][LimitKey := limit] == TrademarkDeadlinesOf(e, y)
  {
    JpCalendar.MonthShiftZero(l);
    OverwrittenLimit(l, open, last, limit);
  }

  /** Writing the limit again over the first three writes leaves the three final values. */
  lemma OverwrittenLimit(l: Date, open: Date, last: Date, limit: Date)
    ensures map[LimitKey := l][OpenKey := open][LastKey := last][LimitKey := limit] == map[LimitKey := limit, OpenKey := open, LastKey := last]
  {
  }

  /** The registration-date branch of the deadline computation. */
  method ComputeRegisteredDeadlines(reg: Date, y: int, jp: bool) returns (sets: map<Field, Date>)
    requires Valid(reg)
    ensures sets == RegisteredDeadlinesOf(reg, y, jp)
  {
    if jp {
      var limit := JpCalendar.AddMonths(reg, 12 * y, true);
      sets := map[LimitKey := limit];
      var last := JpCalendar.AddMonths(reg, 12 * y + 6, true);
      sets := sets[LastKey := last];
    } else {
      var limit := JpCalendar.AddMonths(reg, 12 * y, false);
      sets := map[LimitKey := limit];
    }
  }

  /** The deadlines of `renew_limit_date` before any is dropped, computed with `add_months`. */
  method ComputeDeadlines(p: Property, y: int, exp: Option<Date>) returns (sets: map<Field, Date>)
    requires CommonUtil.WellFormed(p) && (exp.Some? ==> Valid(exp.value))
    ensures sets == Computed(p, y, exp)
  {
    sets := map[];
    if IsJpTrademark(p) {
      if exp.Some? {
        sets := ComputeTrademarkDeadlines(exp.value, y);
      }
    } else if p.registrationDate.Some? {
      sets := ComputeRegisteredDeadlines(p.registrationDate.value, y, IsJp(p));
    }
  }

  /** `$set` minus the keys also in `$unset`'s final pass: every key of `$set` leaves `$unset`. */
  method RemoveSetKeys(sets: map<Field, Date>, unsets0: set<Field>) returns (unsets: set<Field>)
    ensures unsets == unsets0 - sets.Keys
  {
    unsets := unsets0;
    var keys := sets.Keys;
    while keys != {}
      invariant keys <= sets.Keys
      invariant unsets == unsets0 - (sets.Keys - keys)
      decreases |keys|
    {
      var k :| k in keys;
      if k in unsets {
        unsets := unsets - {k};
      }
      keys := keys - {k};
    }
  }

  /** The query of `renew_limit_date`, built key by key, with the opening date dropped together with the limit. */
  method BuildRenewQuery(p: Property, y: int, exp: Option<Date>) returns (u: Update)
    requires CommonUtil.WellFormed(p) && (exp.Some? ==> Valid(exp.value))
    ensures u == RenewQuery(p, y, exp)
  {
    var sets := ComputeDeadlines(p, y, exp);
    var unsets: set<Field> := {};
    if LimitKey in sets && p.expirationDate.Some? {
      if Before(p.expirationDate.value, sets[LimitKey]) && p.law != Trademark {
        sets, unsets := sets - {LimitKey}, unsets + {LimitKey};
      }
    }
    if LimitKey in sets && p.disappeared {
      sets, unsets := sets - {LimitKey}, unsets + {LimitKey};
    }
    if LastKey in sets && LimitKey !in sets {
      sets, unsets := sets - {LastKey}, unsets + {LastKey};
    }
    if LastKey !in sets && LimitKey in sets {
      sets := sets[LastKey := sets[LimitKey]];
    } else {
      unsets := unsets + {LastKey};
    }
    if LimitKey !in sets {
      sets := sets - {OpenKey};
      unsets := unsets + {LimitKey, OpenKey, LastKey};
    }
    unsets := RemoveSetKeys(sets, unsets);
    u := Update(sets, unsets);
  }

  /**
   * `renew_limit_date`: the update written after the latest completed request, or `None` when there
   * is nothing to write, or the exception a missing request key raises.
   */
  method RenewLimitDate(p: Property, reqs: seq<CompletedRequest>) returns (r: Result<Option<Update>, Exception>)
    requires CommonUtil.WellFormed(p)
    ensures r == Renewed(p, reqs)
  {
    var adjusted := AdjustPaidYears(p, Latest(reqs));
    if adjusted.Err? {
      return Err(adjusted.error);
    }
    var (y, exp) := adjusted.value;
    var u := BuildRenewQuery(p, y, exp);
    if u.sets == map[] && u.unsets == {} {
      return Ok(None);
    }
    r := Ok(Some(u));
  }

  // ---------------------------------------------------------------- validating an edit

  /** A value `update_prop` writes into `$set`: `PaidYears` is held as a whole number of years. */
  datatype Value =
    | DateValue(date: Date)
    | Number(n: int)
    | TextValue(text: string)
    | ClassesValue(classes: seq<string>)
    | HoldersValue(holders: seq<Holder>)
    | Flag

  /**
   * The edit form after parsing: each key the form carries, with dates and numbers already converted.
   * `registrationNumber` is the number the form ends up with, the stored one fed back for an existing right.
   */
  datatype EditForm = EditForm(
    registrationNumber: Option<string>,
    jpGenmen: Option<string>,
    dates: map<Field, Date>,
    numberOfClaims: Option<int>,
    numberOfClasses: Option<int>,
    paidYears: Option<int>,
    classes: Option<CommonUtil.ClassesInput>,
    holders: Option<seq<Holder>>,
    defensive: bool,
    disappeared: bool,
    silent: Option<bool>)

  /** The update query: the values to set and the keys to remove. */
  datatype Edit = Edit(sets: map<Field, Value>, unsets: set<Field>)

  /** The keys converted to dates, in the order they are read. */
  const DateKeys: seq<Field> := [NextProcedureLimit, ApplicationDate, RegistrationDate, ExpirationDate,
    ExamClaimedDate, RegistrationPaymentDate, RegistrationInvestigatedDate, RenewPaymentDate, DisappearanceDate]

  /** The two dates the form can clear by leaving them out. */
  const Clearable: set<Field> := {RenewPaymentDate, DisappearanceDate}

  /** The date pairs that must not be out of order, in the order they are checked. */
  const OrderedPairs: seq<(Field, Field)> := [(ExamClaimedDate, RegistrationDate), (RegistrationDate, ExpirationDate),
    (ApplicationDate, RegistrationDate), (ApplicationDate, ExamClaimedDate)]

  /** `re.fullmatch(r'\d+', n)`. */
  predicate DigitNumber(n: string) {
    n != [] && AllDigits(n)
  }

  /** `re.fullmatch(r'\d+([\-/]\d+)?', n)`: digits, optionally a hyphen or slash and more digits. */
  predicate TrademarkNumber(n: string) {
    DigitNumber(n) ||
    exists i :: 0 < i < |n| - 1 && (n[i] == '-' || n[i] == '/') && DigitNumber(n[..i]) && DigitNumber(n[i + 1..])
  }

  /** The number a Japanese right's registration number must match; other countries are not checked. */
  predicate NumberShapeOk(current: Property, n: string) {
    current.country != "JP" || (if current.law == Trademark then TrademarkNumber(n) else DigitNumber(n))
  }

  /** A new right's registration number, once normalised, does not have the shape its law requires. */
  predicate NumberRejected(current: Property, isNew: bool, input: EditForm, zenToHan: string -> string) {
    isNew && input.registrationNumber.Some? &&
    !NumberShapeOk(current, CommonUtil.RegularizeRegNum(current.country, input.registrationNumber.value, zenToHan))
  }

  /** The range check on `PaidYears`: never negative, and for Japan at least 3, at least 1, or 5 or 10 by law. */
  predicate PaidYearsRejected(current: Property, paid: Option<int>) {
    paid.Some? &&
    (paid.value < 0 ||
      (current.country == "JP" &&
        ((current.law in {Patent, Utility} && paid.value < 3) ||
         (current.law == Design && paid.value < 1) ||
         (current.law == Trademark && paid.value != 5 && paid.value != 10))))
  }

  /** The reduction class is kept only for a Japanese patent. */
  function Genmen(current: Property, input: EditForm): Option<string> {
    if current.country != "JP" || current.law != Patent then None else input.jpGenmen
  }

  /** `m` with `k` set to `v` when there is a value. */
  function Put(m: map<Field, Value>, k: Field, v: Option<Value>): map<Field, Value> {
    if v.Some? then m[k := v.value] else m
  }

  function NumberOf(v: Option<int>): Option<Value> {
    if v.Some? then Some(Number(v.value)) else None
  }

  function TextOf(v: Option<string>): Option<Value> {
    if v.Some? then Some(TextValue(v.value)) else None
  }

  /** The dates of the form among `keys`, under their own keys. */
  function DatesAmong(input: EditForm, keys: seq<Field>): map<Field, Value> {
    map k | k in input.dates.Keys && k in keys :: DateValue(input.dates[k])
  }

  /** The clearable dates among `keys` the form leaves out. */
  function ClearedAmong(input: EditForm, keys: seq<Field>): set<Field> {
    set k | k in Clearable && k in keys && k !in input.dates
  }

  /** One more key read from the form. */
  lemma AmongStep(input: EditForm, keys: seq<Field>, k: Field)
    ensures DatesAmong(input, keys + [k]) ==
      if k in input.dates then DatesAmong(input, keys)[k := DateValue(input.dates[k])] else DatesAmong(input, keys)
    ensures ClearedAmong(input, keys + [k]) ==
      if k !in input.dates && k in Clearable then ClearedAmong(input, keys) + {k} else ClearedAmong(input, keys)
  {
    assert forall j :: j in keys + [k] <==> j in keys || j == k;
  }

  /** The dates of the form, under their own keys. */
  function DateSets(input: EditForm): map<Field, Value> {
    DatesAmong(input, DateKeys)
  }

  /** The clearable dates the form leaves out. */
  function DateUnsets(input: EditForm): set<Field> {
    ClearedAmong(input, DateKeys)
  }

  /** The registration number once normalised. */
  function NormalisedNumber(current: Property, input: EditForm, zenToHan: string -> string): Option<string> {
    if input.registrationNumber.Some? then Some(CommonUtil.RegularizeRegNum(current.country, input.registrationNumber.value, zenToHan)) else None
  }

  /** The normalised registration number and the reduction class kept for Japanese patents. */
  function NamedSets(current: Property, input: EditForm, zenToHan: string -> string): map<Field, Value> {
    Put(Put(map[], RegistrationNumber, TextOf(NormalisedNumber(current, input, zenToHan))), JpGenmen, TextOf(Genmen(current, input)))
  }

  /** What the form sets before the range check: the normalised number, the kept reduction class, the dates and the numbers. */
  function FieldSets(current: Property, input: EditForm, zenToHan: string -> string): map<Field, Value> {
    Put(Put(Put(NamedSets(current, input, zenToHan) + DateSets(input), NumberOfClaims, NumberOf(input.numberOfClaims)),
      NumberOfClasses, NumberOf(input.numberOfClasses)), PaidYears, NumberOf(input.paidYears))
  }

  /** The classes replace the form's count with their own, once normalised. */
  function WithClasses(e: Edit, input: EditForm): Edit {
    if input.classes.None? then e
    else
      var c := CommonUtil.SortClasses(input.classes.value);
      Edit(e.sets[Classes := ClassesValue(c)][NumberOfClasses := Number(|c|)], e.unsets - {NumberOfClasses})
  }

  /** A non-empty holder list is written; a trademark's protective flag is written or removed. */
  function WithHoldersAndDefensive(e: Edit, current: Property, input: EditForm): Edit {
    var sets := if input.holders.Some? && |input.holders.value| > 0 then e.sets[Holders := HoldersValue(input.holders.value)] else e.sets;
    if current.law != Trademark then Edit(sets, e.unsets)
    else if input.defensive then Edit(sets[Defensive := Flag], e.unsets)
    else Edit(sets, e.unsets + {Defensive})
  }

  /** A count below one moves from `$set` to `$unset`. */
  function WithoutLowCount(e: Edit, k: Field): Edit {
    if k in e.sets && e.sets[k].Number? && e.sets[k].n < 1 then Edit(e.sets - {k}, e.unsets + {k}) else e
  }

  /** The disappearance flag is only ever set; the silence flag is set or removed as the form says. */
  function WithFlags(e: Edit, input: EditForm): Edit {
    var sets := if input.disappeared then e.sets[Disappered := Flag] else e.sets;
    if input.silent == Some(true) then Edit(sets[Silent := Flag], e.unsets)
    else if input.silent == Some(false) then Edit(sets, e.unsets + {Silent})
    else Edit(sets, e.unsets)
  }

  /** The query after every rule following the range check, from the fields read before it. */
  function FinishFrom(e: Edit, current: Property, input: EditForm): Edit {
    var e := WithClasses(e, input);
    var e := WithHoldersAndDefensive(e, current, input);
    var e := WithoutLowCount(WithoutLowCount(e, NumberOfClaims), NumberOfClasses);
    WithFlags(e, input)
  }

  function Finished(current: Property, input: EditForm, zenToHan: string -> string): Edit {
    FinishFrom(Edit(FieldSets(current, input, zenToHan), DateUnsets(input)), current, input)
  }

  /** The stored dates of a right, under their keys. */
  function CurrentDates(current: Property): map<Field, Date> {
    var fields := [current.limit, current.applicationDate, current.registrationDate, current.expirationDate,
      current.examClaimedDate, current.registrationPaymentDate, current.registrationInvestigatedDate,
      current.renewPaymentDate, current.disappearanceDate];
    map i | 0 <= i < |DateKeys| && fields[i].Some? :: DateKeys[i] := fields[i].value
  }

  /** The dates the right would have after the update: the stored ones, overwritten by `$set`, removed by `$unset`. */
  function Merged(cur: map<Field, Date>, e: Edit): map<Field, Date> {
    map k | k in cur.Keys + e.sets.Keys && k !in e.unsets && (k in e.sets ==> e.sets[k].DateValue?) ::
      if k in e.sets then e.sets[k].date else cur[k]
  }

  /** `test[key1] > test[key2]` with both keys present. */
  predicate OutOfOrder(test: map<Field, Date>, pair: (Field, Field)) {
    pair.0 in test && pair.1 in test && Before(test[pair.1], test[pair.0])
  }

  /** The first pair, in checking order, whose dates are out of order. */
  function FirstOutOfOrder(test: map<Field, Date>, pairs: seq<(Field, Field)>): Option<(Field, Field)> {
    if pairs == [] then None
    else if OutOfOrder(test, pairs[0]) then Some(pairs[0])
    else FirstOutOfOrder(test, pairs[1..])
  }

  /** The first misordered pair is misordered, every pair before it is in order, and there is none exactly when all are in order. */
  lemma {:induction false} FirstOutOfOrderMeaning(test: map<Field, Date>, pairs: seq<(Field, Field)>)
    ensures FirstOutOfOrder(test, pairs).None? <==> forall i :: 0 <= i < |pairs| ==> !OutOfOrder(test, pairs[i])
    ensures FirstOutOfOrder(test, pairs).Some? ==>
      exists k :: 0 <= k < |pairs| && FirstOutOfOrder(test, pairs) == Some(pairs[k]) && OutOfOrder(test, pairs[k]) &&
        forall i :: 0 <= i < k ==> !OutOfOrder(test, pairs[i])
  {
    if pairs != [] && !OutOfOrder(test, pairs[0]) {
      FirstOutOfOrderMeaning(test, pairs[1..]);
      if FirstOutOfOrder(test, pairs[1..]).Some? {
        var k :| 0 <= k < |pairs[1..]| && FirstOutOfOrder(test, pairs[1..]) == Some(pairs[1..][k]) &&
          OutOfOrder(test, pairs[1..][k]) && forall i :: 0 <= i < k ==> !OutOfOrder(test, pairs[1..][i]);
        assert FirstOutOfOrder(test, pairs) == Some(pairs[k + 1]);
        forall i | 0 <= i < k + 1 ensures !OutOfOrder(test, pairs[i]) {
          if i > 0 { assert pairs[i] == pairs[1..][i - 1]; }
        }
      } else {
        forall i | 0 <= i < |pairs| ensures !OutOfOrder(test, pairs[i]) {
          if i > 0 { assert pairs[i] == pairs[1..][i - 1]; }
        }
      }
    }
  }

  /**
   * The validation of `update_prop`, with the registration-number check applied when `checkNumber`
   * holds; it fails with the keys of the fields it reports.
   */
  function EditOutcome(current: Property, isNew: bool, input: EditForm, checkNumber: bool, zenToHan: string -> string): Result<Edit, seq<Field>> {
    if checkNumber && NumberRejected(current, isNew, input, zenToHan) then Err([RegistrationNumber])
    else if PaidYearsRejected(current, input.paidYears) then Err([PaidYears])
    else
      var e := Finished(current, input, zenToHan);
      match FirstOutOfOrder(Merged(CurrentDates(current), e), OrderedPairs)
      case Some(pair) => Err([pair.0, pair.1])
      case None => Ok(e)
  }

  /** The validation as intended: a new Japanese right's registration number is checked against its law's shape. */
  function Edited(current: Property, isNew: bool, input: EditForm, zenToHan: string -> string): Result<Edit, seq<Field>> {
    EditOutcome(current, isNew, input, true, zenToHan)
  }

  /**
   * The validation as the lines are written: the guard of the number check compares the whole form
   * with the text `'JP'`, which never holds, so the check is never made.
   */
  function EditedAsWritten(current: Property, isNew: bool, input: EditForm, zenToHan: string -> string): Result<Edit, seq<Field>> {
    EditOutcome(current, isNew, input, false, zenToHan)
  }

  /**
   * As written, a misshapen number is never the reason an edit is refused; the intended check refuses
   * exactly those edits and otherwise decides as the written lines do.
   */
  lemma NumberNeverCheckedAsWritten(current: Property, isNew: bool, input: EditForm, zenToHan: string -> string)
    ensures EditedAsWritten(current, isNew, input, zenToHan) != Err([RegistrationNumber])
    ensures NumberRejected(current, isNew, input, zenToHan) ==> Edited(current, isNew, input, zenToHan) == Err([RegistrationNumber])
    ensures !NumberRejected(current, isNew, input, zenToHan) ==> Edited(current, isNew, input, zenToHan) == EditedAsWritten(current, isNew, input, zenToHan)
  {
    var e := Finished(current, input, zenToHan);
    var first := FirstOutOfOrder(Merged(CurrentDates(current), e), OrderedPairs);
    if first.Some? {
      assert [first.value.0, first.value.1] != [RegistrationNumber];
    }
  }

  /** A new Japanese patent numbered `a` has a misshapen number, which the written lines let through. */
  lemma MalformedNumberAcceptedAsWritten(current: Property, input: EditForm, zenToHan: string -> string)
    requires current.country == "JP" && current.law == Patent && input.registrationNumber == Some("a") && zenToHan("a") == "a"
    ensures NumberRejected(current, true, input, zenToHan)
    ensures EditedAsWritten(current, true, input, zenToHan) != Err([RegistrationNumber])
    ensures Edited(current, true, input, zenToHan) == Err([RegistrationNumber])
  {
    assert CommonUtil.RegularizeRegNum("JP", "a", zenToHan) == "a";
    assert !DigitNumber("a") by { assert !IsDigit("a"[0]); }
    NumberNeverCheckedAsWritten(current, true, input, zenToHan);
  }

  /**
   * A new Japanese patent whose number, once converted to half-width characters, is a run of
   * digits with a non-zero digit in it (the full-width `０１２３`, say) is written as that run
   * without its leading zeros, widened to 7 digits, and passes the shape check.
   */
  lemma ConvertedDigitsAccepted(current: Property, input: EditForm, zenToHan: string -> string)
    requires current.country == "JP" && current.law == Patent && input.registrationNumber.Some?
    requires var n := zenToHan(input.registrationNumber.value); AllDigits(n) && DropLeading(n, '0') != []
    ensures var t := DropLeading(zenToHan(input.registrationNumber.value), '0');
      NormalisedNumber(current, input, zenToHan) == Some(PadLeft(t, 7))
    ensures !NumberRejected(current, true, input, zenToHan)
  {
    CommonUtil.DigitRunRegularized(zenToHan(input.registrationNumber.value));
  }

  /**
   * Why an edit is refused: a misshapen new number, an out-of-range `PaidYears`, or a pair of dates
   * out of order once the update is merged into the stored right, and it is refused for that reason.
   */
  lemma EditRejections(current: Property, isNew: bool, input: EditForm, zenToHan: string -> string)
    ensures var test := Merged(CurrentDates(current), Finished(current, input, zenToHan));
      Edited(current, isNew, input, zenToHan).Err? <==>
        NumberRejected(current, isNew, input, zenToHan) || PaidYearsRejected(current, input.paidYears) ||
        exists i :: 0 <= i < |OrderedPairs| && OutOfOrder(test, OrderedPairs[i])
    ensures Edited(current, isNew, input, zenToHan) == Err([PaidYears]) <==>
      !NumberRejected(current, isNew, input, zenToHan) && PaidYearsRejected(current, input.paidYears)
  {
    FirstOutOfOrderMeaning(Merged(CurrentDates(current), Finished(current, input, zenToHan)), OrderedPairs);
  }

  /** An accepted edit writes the finished query, and its `PaidYears` passed the range check. */
  lemma EditedIsFinished(current: Property, isNew: bool, input: EditForm, zenToHan: string -> string)
    requires Edited(current, isNew, input, zenToHan).Ok?
    ensures Edited(current, isNew, input, zenToHan).value == Finished(current, input, zenToHan)
    ensures !PaidYearsRejected(current, input.paidYears) && !NumberRejected(current, isNew, input, zenToHan)
  {
  }

  /** The numbers and the reduction class read before the range check. */
  lemma FieldSetsValues(current: Property, input: EditForm, zenToHan: string -> string)
    ensures var f := FieldSets(current, input, zenToHan);
      && (PaidYears in f <==> input.paidYears.Some?) && (input.paidYears.Some? ==> f[PaidYears] == Number(input.paidYears.value))
      && (NumberOfClaims in f <==> input.numberOfClaims.Some?) && (input.numberOfClaims.Some? ==> f[NumberOfClaims] == Number(input.numberOfClaims.value))
      && (NumberOfClasses in f <==> input.numberOfClasses.Some?) && (input.numberOfClasses.Some? ==> f[NumberOfClasses] == Number(input.numberOfClasses.value))
      && (JpGenmen in f <==> Genmen(current, input).Some?) && (Genmen(current, input).Some? ==> f[JpGenmen] == TextValue(Genmen(current, input).value))
  {
    var d := DateSets(input);
    assert PaidYears !in d && NumberOfClaims !in d && NumberOfClasses !in d && JpGenmen !in d;
  }

  /** Besides the number, the reduction class and the numbers, only dates are read, and none of them is also cleared. */
  lemma FieldSetsKeys(current: Property, input: EditForm, zenToHan: string -> string)
    ensures var f := FieldSets(current, input, zenToHan);
      && f.Keys !! DateUnsets(input)
      && (forall k :: k in f && k !in {RegistrationNumber, JpGenmen, NumberOfClaims, NumberOfClasses, PaidYears} ==> k in DateKeys)
  {
    var d := DateSets(input);
    assert forall k :: k in d ==> k in DateKeys && k in input.dates;
  }

  /** The form's own keys other than dates: none of the rules after the range check reads or writes them except as stated. */
  const LaterKeys: set<Field> := {Classes, NumberOfClasses, NumberOfClaims, Holders, Defensive, Disappered, Silent}

  /** The rules after the range check touch only their own keys. */
  lemma FinishFromKeeps(e: Edit, current: Property, input: EditForm)
    ensures var r := FinishFrom(e, current, input);
      forall k :: k !in LaterKeys ==>
        (k in r.sets <==> k in e.sets) && (k in e.sets ==> r.sets[k] == e.sets[k]) && (k in r.unsets <==> k in e.unsets)
  {
    var e1 := WithClasses(e, input);
    var e2 := WithHoldersAndDefensive(e1, current, input);
    var e3 := WithoutLowCount(e2, NumberOfClaims);
    var e4 := WithoutLowCount(e3, NumberOfClasses);
    var r := WithFlags(e4, input);
    assert KeepsOthers(e, e1);
    assert KeepsOthers(e1, e2);
    assert KeepsOthers(e2, e3);
    assert KeepsOthers(e3, e4);
    assert KeepsOthers(e4, r);
    KeepsOthersChain(e, e1, e2, e3, e4, r);
  }

  /** `r` agrees with `e` on every key outside the later rules' own. */
  predicate KeepsOthers(e: Edit, r: Edit) {
    forall k :: k !in LaterKeys ==>
      (k in r.sets <==> k in e.sets) && (k in e.sets ==> r.sets[k] == e.sets[k]) && (k in r.unsets <==> k in e.unsets)
  }

  lemma KeepsOthersChain(e0: Edit, e1: Edit, e2: Edit, e3: Edit, e4: Edit, e5: Edit)
    requires KeepsOthers(e0, e1) && KeepsOthers(e1, e2) && KeepsOthers(e2, e3) && KeepsOthers(e3, e4) && KeepsOthers(e4, e5)
    ensures KeepsOthers(e0, e5)
  {
  }

  /** Starting from a query whose later keys are only counts in `$set`, the rules never leave a key both set and removed. */
  lemma FinishFromSeparate(e: Edit, current: Property, input: EditForm)
    requires e.sets.Keys !! e.unsets && e.unsets !! LaterKeys
    requires Classes !in e.sets && Holders !in e.sets && Defensive !in e.sets && Disappered !in e.sets && Silent !in e.sets
    ensures FinishFrom(e, current, input).sets.Keys !! FinishFrom(e, current, input).unsets
  {
    var e1 := WithClasses(e, input);
    ClassesSeparate(e, input);
    var e2 := WithHoldersAndDefensive(e1, current, input);
    HoldersSeparate(e1, current, input);
    var e3 := WithoutLowCount(WithoutLowCount(e2, NumberOfClaims), NumberOfClasses);
    assert e3.sets.Keys !! e3.unsets && Silent !in e3.sets && Silent !in e3.unsets;
  }

  lemma ClassesSeparate(e: Edit, input: EditForm)
    requires e.sets.Keys !! e.unsets && e.unsets !! LaterKeys && Classes !in e.sets && Defensive !in e.sets && Silent !in e.sets
    ensures var e1 := WithClasses(e, input);
      e1.sets.Keys !! e1.unsets && e1.unsets !! LaterKeys && Defensive !in e1.sets && Silent !in e1.sets
  {
  }

  lemma HoldersSeparate(e: Edit, current: Property, input: EditForm)
    requires e.sets.Keys !! e.unsets && e.unsets !! LaterKeys && Defensive !in e.sets && Silent !in e.sets
    ensures var e2 := WithHoldersAndDefensive(e, current, input);
      e2.sets.Keys !! e2.unsets && Silent !in e2.sets && Silent !in e2.unsets
  {
  }

  /** `$set` holds the count `v` under `k` exactly when there is one. */
  predicate CountIs(e: Edit, k: Field, v: Option<int>) {
    (k in e.sets <==> v.Some?) && (v.Some? ==> e.sets[k] == Number(v.value))
  }

  /** The class count after the classes rule: the number of normalised classes, or the form's count. */
  function ClassCount(input: EditForm): Option<int> {
    if input.classes.Some? then Some(|CommonUtil.SortClasses(input.classes.value)|) else input.numberOfClasses
  }

  /** The classes, holder and protective-flag rules leave the claim count alone and put the class count in place. */
  lemma ClassesStageCounts(e: Edit, current: Property, input: EditForm)
    requires CountIs(e, NumberOfClaims, input.numberOfClaims) && CountIs(e, NumberOfClasses, input.numberOfClasses)
    ensures var e1 := WithHoldersAndDefensive(WithClasses(e, input), current, input);
      CountIs(e1, NumberOfClaims, input.numberOfClaims) && CountIs(e1, NumberOfClasses, ClassCount(input)) &&
      (input.classes.Some? ==> Classes in e1.sets && e1.sets[Classes] == ClassesValue(CommonUtil.SortClasses(input.classes.value)))
  {
  }

  /** The remaining rules keep a count of at least one and move a lower one to `$unset`. */
  lemma CountStage(e1: Edit, input: EditForm, claims: Option<int>, classes: Option<int>)
    requires CountIs(e1, NumberOfClaims, claims) && CountIs(e1, NumberOfClasses, classes)
    ensures var r := WithFlags(WithoutLowCount(WithoutLowCount(e1, NumberOfClaims), NumberOfClasses), input);
      && (forall k :: k in {NumberOfClaims, NumberOfClasses} && k in r.sets ==> r.sets[k].Number? && r.sets[k].n >= 1)
      && (claims.Some? && claims.value < 1 ==> NumberOfClaims in r.unsets)
      && (claims.Some? && claims.value >= 1 ==> CountIs(r, NumberOfClaims, claims))
      && (classes.Some? && classes.value < 1 ==> NumberOfClasses in r.unsets)
      && (classes.Some? && classes.value >= 1 ==> CountIs(r, NumberOfClasses, classes))
      && (forall k :: k !in {NumberOfClaims, NumberOfClasses, Disappered, Silent} ==>
            (k in r.sets <==> k in e1.sets) && (k in e1.sets ==> r.sets[k] == e1.sets[k]))
  {
  }

  /** What the rules do to the counts, from a query with the form's counts in `$set`. */
  lemma FinishFromCounts(e: Edit, current: Property, input: EditForm)
    requires CountIs(e, NumberOfClaims, input.numberOfClaims) && CountIs(e, NumberOfClasses, input.numberOfClasses)
    ensures var r := FinishFrom(e, current, input);
      && (forall k :: k in {NumberOfClaims, NumberOfClasses} && k in r.sets ==> r.sets[k].Number? && r.sets[k].n >= 1)
      && (input.numberOfClaims.Some? && input.numberOfClaims.value < 1 ==> NumberOfClaims in r.unsets)
      && (input.classes.None? && input.numberOfClasses.Some? && input.numberOfClasses.value < 1 ==> NumberOfClasses in r.unsets)
      && (input.classes.Some? ==>
            var c := CommonUtil.SortClasses(input.classes.value);
            Classes in r.sets && r.sets[Classes] == ClassesValue(c) &&
            (if |c| >= 1 then NumberOfClasses in r.sets && r.sets[NumberOfClasses] == Number(|c|) else NumberOfClasses in r.unsets))
  {
    ClassesStageCounts(e, current, input);
    var e1 := WithHoldersAndDefensive(WithClasses(e, input), current, input);
    CountStage(e1, input, input.numberOfClaims, ClassCount(input));
  }

  lemma FieldSetsLaterKeys(current: Property, input: EditForm, zenToHan: string -> string)
    ensures var f := FieldSets(current, input, zenToHan);
      Classes !in f && Holders !in f && Defensive !in f && Disappered !in f && Silent !in f && DateUnsets(input) !! LaterKeys
  {
    FieldSetsKeys(current, input, zenToHan);
    assert DateUnsets(input) <= Clearable;
    assert Classes !in DateKeys && Holders !in DateKeys && Defensive !in DateKeys && Disappered !in DateKeys && Silent !in DateKeys;
  }

  /** An accepted `PaidYears` is in range for its right: at least 0, and for Japan at least 3, at least 1, or 5 or 10. */
  lemma AcceptedPaidYears(current: Property, isNew: bool, input: EditForm, zenToHan: string -> string)
    requires Edited(current, isNew, input, zenToHan).Ok? && input.paidYears.Some?
    ensures var v := input.paidYears.value;
      v >= 0 &&
      (current.country == "JP" ==>
        (current.law in {Patent, Utility} ==> v >= 3) &&
        (current.law == Design ==> v >= 1) &&
        (current.law == Trademark ==> v == 5 || v == 10))
    ensures var e := Edited(current, isNew, input, zenToHan).value;
      PaidYears in e.sets && e.sets[PaidYears] == Number(input.paidYears.value)
  {
    var f := FieldSets(current, input, zenToHan);
    var e0 := Edit(f, DateUnsets(input));
    EditedIsFinished(current, isNew, input, zenToHan);
    FieldSetsValues(current, input, zenToHan);
    FinishFromKeeps(e0, current, input);
    assert PaidYears !in LaterKeys;
    var r := FinishFrom(e0, current, input);
    assert PaidYears in r.sets && r.sets[PaidYears] == f[PaidYears];
  }

  /** After an accepted edit no checked pair of dates is out of order. */
  lemma AcceptedDatesInOrder(current: Property, isNew: bool, input: EditForm, zenToHan: string -> string)
    requires Edited(current, isNew, input, zenToHan).Ok?
    ensures var test := Merged(CurrentDates(current), Edited(current, isNew, input, zenToHan).value);
      forall i :: 0 <= i < |OrderedPairs| && OrderedPairs[i].0 in test && OrderedPairs[i].1 in test ==>
        Le(test[OrderedPairs[i].0], test[OrderedPairs[i].1])
  {
    FirstOutOfOrderMeaning(Merged(CurrentDates(current), Finished(current, input, zenToHan)), OrderedPairs);
  }

  /**
   * The counts of an accepted edit: a written count is at least one, a count below one is removed,
   * the classes are written normalised with their number as the class count, and no key is both set and removed.
   */
  lemma AcceptedCounts(current: Property, isNew: bool, input: EditForm, zenToHan: string -> string)
    requires Edited(current, isNew, input, zenToHan).Ok?
    ensures var e := Edited(current, isNew, input, zenToHan).value;
      && (forall k :: k in {NumberOfClaims, NumberOfClasses} && k in e.sets ==> e.sets[k].Number? && e.sets[k].n >= 1)
      && (input.numberOfClaims.Some? && input.numberOfClaims.value < 1 ==> NumberOfClaims in e.unsets && NumberOfClaims !in e.sets)
      && (input.classes.None? && input.numberOfClasses.Some? && input.numberOfClasses.value < 1 ==> NumberOfClasses in e.unsets)
      && (input.classes.Some? ==>
            var c := CommonUtil.SortClasses(input.classes.value);
            Classes in e.sets && e.sets[Classes] == ClassesValue(c) &&
            (if |c| >= 1 then NumberOfClasses in e.sets && e.sets[NumberOfClasses] == Number(|c|) else NumberOfClasses in e.unsets))
      && e.sets.Keys !! e.unsets
  {
    EditedIsFinished(current, isNew, input, zenToHan);
    var e0 := Edit(FieldSets(current, input, zenToHan), DateUnsets(input));
    FieldSetsValues(current, input, zenToHan);
    FieldSetsKeys(current, input, zenToHan);
    FieldSetsLaterKeys(current, input, zenToHan);
    FinishFromCounts(e0, current, input);
    FinishFromSeparate(e0, current, input);
    FinishFromKeeps(e0, current, input);
  }

  /** The reduction class is written only for a Japanese patent, and only the form's own. */
  lemma GenmenOnlyForJpPatents(current: Property, isNew: bool, input: EditForm, zenToHan: string -> string)
    requires Edited(current, isNew, input, zenToHan).Ok?
    ensures var e := Edited(current, isNew, input, zenToHan).value;
      (JpGenmen in e.sets <==> current.country == "JP" && current.law == Patent && input.jpGenmen.Some?) &&
      (JpGenmen in e.sets ==> e.sets[JpGenmen] == TextValue(input.jpGenmen.value))
  {
    var f := FieldSets(current, input, zenToHan);
    var e0 := Edit(f, DateUnsets(input));
    EditedIsFinished(current, isNew, input, zenToHan);
    FieldSetsValues(current, input, zenToHan);
    FinishFromKeeps(e0, current, input);
    assert JpGenmen !in LaterKeys;
    var r := FinishFrom(e0, current, input);
    assert (JpGenmen in r.sets <==> JpGenmen in f) && (JpGenmen in f ==> r.sets[JpGenmen] == f[JpGenmen]);
  }

  // ---------------------------------------------------------------- the imperative validation

  /** The date keys of the form are read in order: the ones present are converted, the clearable ones it lacks are removed. */
  method CollectDates(input: EditForm) returns (dates: map<Field, Value>, cleared: set<Field>)
    ensures dates == DateSets(input) && cleared == DateUnsets(input)
  {
    dates, cleared := map[], {};
    for i := 0 to |DateKeys|
      invariant dates == DatesAmong(input, DateKeys[..i])
      invariant cleared == ClearedAmong(input, DateKeys[..i])
    {
      var k := DateKeys[i];
      assert DateKeys[..i + 1] == DateKeys[..i] + [k];
      AmongStep(input, DateKeys[..i], k);
      if k in input.dates {
        dates := dates[k := DateValue(input.dates[k])];
      } else if k in Clearable {
        cleared := cleared + {k};
      }
    }
    assert DateKeys[..|DateKeys|] == DateKeys;
  }

  /** The counts of the form below one move from `$set` to `$unset`, key by key. */
  method DropLowCounts(e0: Edit) returns (e: Edit)
    ensures e == WithoutLowCount(WithoutLowCount(e0, NumberOfClaims), NumberOfClasses)
  {
    var keys := [NumberOfClaims, NumberOfClasses];
    e := e0;
    for i := 0 to |keys|
      invariant e == if i == 0 then e0 else if i == 1 then WithoutLowCount(e0, NumberOfClaims)
        else WithoutLowCount(WithoutLowCount(e0, NumberOfClaims), NumberOfClasses)
    {
      var k := keys[i];
      if k in e.sets && e.sets[k].Number? && e.sets[k].n < 1 {
        e := Edit(e.sets - {k}, e.unsets + {k});
      }
    }
  }

  /** The classes, holder and protective-flag rules. */
  method ApplyClassesAndHolders(e0: Edit, current: Property, input: EditForm) returns (e: Edit)
    ensures e == WithHoldersAndDefensive(WithClasses(e0, input), current, input)
  {
    var sets, unsets := e0.sets, e0.unsets;
    if input.classes.Some? {
      var c := CommonUtil.SortClasses(input.classes.value);
      sets := sets[Classes := ClassesValue(c)];
      sets := sets[NumberOfClasses := Number(|c|)];
      if NumberOfClasses in unsets {
        unsets := unsets - {NumberOfClasses};
      }
    }
    assert Edit(sets, unsets) == WithClasses(e0, input);
    if input.holders.Some? && |input.holders.value| > 0 {
      sets := sets[Holders := HoldersValue(input.holders.value)];
    }
    if current.law == Trademark {
      if input.defensive {
        sets := sets[Defensive := Flag];
      } else {
        unsets := unsets + {Defensive};
      }
    }
    e := Edit(sets, unsets);
  }

  /** The disappearance and silence flags. */
  method ApplyFlags(e0: Edit, input: EditForm) returns (e: Edit)
    ensures e == WithFlags(e0, input)
  {
    var sets, unsets := e0.sets, e0.unsets;
    if input.disappeared {
      sets := sets[Disappered := Flag];
    }
    if input.silent.Some? {
      if input.silent.value {
        sets := sets[Silent := Flag];
      } else {
        unsets := unsets + {Silent};
      }
    }
    e := Edit(sets, unsets);
  }

  /** The rules after the range check, one after the other. */
  method FinishEdit(e0: Edit, current: Property, input: EditForm) returns (e: Edit)
    ensures e == FinishFrom(e0, current, input)
  {
    e := ApplyClassesAndHolders(e0, current, input);
    e := DropLowCounts(e);
    e := ApplyFlags(e, input);
  }

  /** The checked pairs in order; the first pair out of order is returned. */
  method FindOutOfOrder(test: map<Field, Date>) returns (bad: Option<(Field, Field)>)
    ensures bad == FirstOutOfOrder(test, OrderedPairs)
  {
    var i := 0;
    while i < |OrderedPairs|
      invariant 0 <= i <= |OrderedPairs|
      invariant FirstOutOfOrder(test, OrderedPairs) == FirstOutOfOrder(test, OrderedPairs[i..])
    {
      var (key1, key2) := OrderedPairs[i];
      if key1 in test && key2 in test {
        if Before(test[key2], test[key1]) {
          return Some((key1, key2));
        }
      }
      assert OrderedPairs[i..][1..] == OrderedPairs[i + 1..];
      i := i + 1;
    }
    return None;
  }

  /** The fields read before the range check, or the refusal of a misshapen new registration number. */
  method ReadFields(current: Property, isNew: bool, input: EditForm, zenToHan: string -> string) returns (r: Result<Edit, seq<Field>>)
    ensures NumberRejected(current, isNew, input, zenToHan) ==> r == Err([RegistrationNumber])
    ensures !NumberRejected(current, isNew, input, zenToHan) ==> r == Ok(Edit(FieldSets(current, input, zenToHan), DateUnsets(input)))
  {
    var named := ReadNamed(current, isNew, input, zenToHan);
    if named.Err? {
      return Err(named.error);
    }
    var dates, cleared := CollectDates(input);
    var sets := ReadNumbers(named.value + dates, input);
    r := Ok(Edit(sets, cleared));
  }

  /** The normalised registration number and the kept reduction class, or the refusal of a misshapen new number. */
  method ReadNamed(current: Property, isNew: bool, input: EditForm, zenToHan: string -> string) returns (r: Result<map<Field, Value>, seq<Field>>)
    ensures NumberRejected(current, isNew, input, zenToHan) ==> r == Err([RegistrationNumber])
    ensures !NumberRejected(current, isNew, input, zenToHan) ==> r == Ok(NamedSets(current, input, zenToHan))
  {
    var sets: map<Field, Value> := map[];
    var genmen := input.jpGenmen;
    if current.country != "JP" || current.law != Patent {
      genmen := None;
    }
    if input.registrationNumber.Some? {
      var number := CommonUtil.RegularizeRegNum(current.country, input.registrationNumber.value, zenToHan);
      sets := sets[RegistrationNumber := TextValue(number)];
      if isNew && current.country == "JP" {
        if current.law == Trademark {
          if !TrademarkNumber(number) {
            return Err([RegistrationNumber]);
          }
        } else if !DigitNumber(number) {
          return Err([RegistrationNumber]);
        }
      }
    }
    if genmen.Some? {
      sets := sets[JpGenmen := TextValue(genmen.value)];
    }
    r := Ok(sets);
  }

  /** The three counts the form may carry, each written over what is already there. */
  method ReadNumbers(sets0: map<Field, Value>, input: EditForm) returns (sets: map<Field, Value>)
    ensures sets == Put(Put(Put(sets0, NumberOfClaims, NumberOf(input.numberOfClaims)),
      NumberOfClasses, NumberOf(input.numberOfClasses)), PaidYears, NumberOf(input.paidYears))
  {
    sets := sets0;
    if input.numberOfClaims.Some? {
      sets := sets[NumberOfClaims := Number(input.numberOfClaims.value)];
    }
    if input.numberOfClasses.Some? {
      sets := sets[NumberOfClasses := Number(input.numberOfClasses.value)];
    }
    if input.paidYears.Some? {
      sets := sets[PaidYears := Number(input.paidYears.value)];
    }
  }

  /** The range check on the `PaidYears` just read. */
  method CheckPaidYears(current: Property, sets: map<Field, Value>) returns (rejected: bool)
    requires PaidYears in sets ==> sets[PaidYears].Number?
    ensures rejected == PaidYearsRejected(current, if PaidYears in sets then Some(sets[PaidYears].n) else None)
  {
    rejected := false;
    if PaidYears in sets {
      var v := sets[PaidYears].n;
      if v < 0 {
        return true;
      }
      if current.country == "JP" {
        if current.law == Patent || current.law == Utility {
          rejected := v < 3;
        } else if current.law == Design {
          rejected := v < 1;
        } else if current.law == Trademark {
          rejected := v != 5 && v != 10;
        }
      }
    }
  }

  /** The validation part of `update_prop`: the update to write, or the keys of the fields it reports. */
  method ValidateEdit(current: Property, isNew: bool, input: EditForm, zenToHan: string -> string) returns (r: Result<Edit, seq<Field>>)
    ensures r == Edited(current, isNew, input, zenToHan)
  {
    var read := ReadFields(current, isNew, input, zenToHan);
    if read.Err? {
      return read;
    }
    FieldSetsValues(current, input, zenToHan);
    var rejected := CheckPaidYears(current, read.value.sets);
    if rejected {
      return Err([PaidYears]);
    }
    var e := FinishEdit(read.value, current, input);
    var test := Merged(CurrentDates(current), e);
    var bad := FindOutOfOrder(test);
    if bad.Some? {
      return Err([bad.value.0, bad.value.1]);
    }
    r := Ok(e);
  }
}
