/**
 * The official fee tables of the Japan Patent Office: patent, utility-model and design
 * annuities, trademark renewal and split registration fees, defensive-mark renewal.
 * Every price is in yen.  Where the source computes with floats, the model computes
 * the same whole numbers exactly.
 */
module JpoPrice {
  import opened Wrappers
  import opened Dates
  import JpCalendar
  import CommonUtil

  /** The denominator of a reduction rate `[1, den]`: the fee is divided by `den`. */
  type Denominator = n: int | n >= 1 witness 1

  // ---------------------------------------------------------------- annuities

  /** The examination-request date selects the table in force before 1 April 2004. */
  predicate OldPatentTable(examRequestDate: Option<Date>) {
    examRequestDate.Some? && Before(examRequestDate.value, Date(2004, 4, 1))
  }

  /** Base fee plus a fee per claim, by the bracket the year falls in. */
  function PatentTable(claims: int, year: int, oldTable: bool): int {
    var (base, perClaim) :=
      if oldTable then
        (if year <= 3 then (10300, 900) else if year <= 6 then (16100, 1300)
         else if year <= 9 then (32200, 2500) else (64400, 5000))
      else
        (if year <= 3 then (4300, 300) else if year <= 6 then (10300, 800)
         else if year <= 9 then (24800, 1900) else (59400, 4600));
    base + claims * perClaim
  }

  /** Division of a fee by `den`, rounded down to whole tens of yen. */
  function ReduceAndRound(price: int, den: Denominator): (p: int)
    requires price >= 0
    ensures p % 10 == 0 && p >= 0
    ensures p * den <= price < (p + 10) * den
  {
    var q := price / (10 * den);
    assert q * (10 * den) <= price < (q + 1) * (10 * den);
    q * 10
  }

  /** The annuity of one year: reduced and rounded within the first ten years, the table price after. */
  function PatentYear(claims: int, year: int, examRequestDate: Option<Date>, den: Denominator): (p: int)
    ensures claims >= 0 && year <= 10 ==>
      var price := PatentTable(claims, year, OldPatentTable(examRequestDate));
      p % 10 == 0 && p * den <= price < (p + 10) * den
    ensures year > 10 ==> p == PatentTable(claims, year, OldPatentTable(examRequestDate))
  {
    var price := PatentTable(claims, year, OldPatentTable(examRequestDate));
    if year <= 10 && price >= 0 then ReduceAndRound(price, den)
    else if year <= 10 then price / (10 * den) * 10
    else price
  }

  /** `patent(claims, year, year_to, exam_request_date, [1, den])`. */
  function Patent(claims: int, year: int, yearTo: int, examRequestDate: Option<Date>, den: Denominator): int
    requires claims > 0
    decreases yearTo - year
  {
    PatentYear(claims, year, examRequestDate, den)
      + (if yearTo > year then Patent(claims, year + 1, yearTo, examRequestDate, den) else 0)
  }

  function UtilityYear(claims: int, year: int): int {
    if year <= 3 then 2100 + claims * 100
    else if year <= 6 then 6100 + claims * 300
    else 18100 + claims * 900
  }

  /** `utility(claims, year, year_to)`. */
  function Utility(claims: int, year: int, yearTo: int): int
    decreases yearTo - year
  {
    UtilityYear(claims, year) + (if yearTo > year then Utility(claims, year + 1, yearTo) else 0)
  }

  function DesignYear(year: int): int {
    if year <= 3 then 8500 else 16900
  }

  /** `design(year, year_to)`. */
  function Design(year: int, yearTo: int): int
    decreases yearTo - year
  {
    DesignYear(year) + (if yearTo > year then Design(year + 1, yearTo) else 0)
  }

  /** The price list of one right: what a single year of it costs. */
  datatype Schedule =
    | PatentSchedule(claims: int, examRequestDate: Option<Date>, den: Denominator)
    | UtilitySchedule(claims: int)
    | DesignSchedule

  function YearPrice(s: Schedule, year: int): int {
    match s
    case PatentSchedule(claims, e, den) => PatentYear(claims, year, e, den)
    case UtilitySchedule(claims) => UtilityYear(claims, year)
    case DesignSchedule => DesignYear(year)
  }

  /** The sum of the single-year prices of the years `lo..hi`, inclusive. */
  function YearSum(s: Schedule, lo: int, hi: int): int
    decreases hi - lo
  {
    if hi < lo then 0 else YearSum(s, lo, hi - 1) + YearPrice(s, hi)
  }

  lemma {:induction false} YearSumFront(s: Schedule, lo: int, hi: int)
    requires lo <= hi
    ensures YearSum(s, lo, hi) == YearPrice(s, lo) + YearSum(s, lo + 1, hi)
    decreases hi - lo
  {
    if lo < hi {
      YearSumFront(s, lo, hi - 1);
    }
  }

  /** A range of years costs what its two halves cost. */
  lemma {:induction false} YearSumSplit(s: Schedule, lo: int, m: int, hi: int)
    requires lo - 1 <= m <= hi
    ensures YearSum(s, lo, hi) == YearSum(s, lo, m) + YearSum(s, m + 1, hi)
    decreases hi - m
  {
    if m < hi {
      YearSumSplit(s, lo, m, hi - 1);
    }
  }

  function Last(year: int, yearTo: int): int {
    if yearTo > year then yearTo else year
  }

  /** A patent range is priced year by year, `year..year_to`; a `year_to` not above `year` prices one year. */
  lemma {:induction false} PatentIsYearSum(claims: int, year: int, yearTo: int, e: Option<Date>, den: Denominator)
    requires claims > 0
    ensures Patent(claims, year, yearTo, e, den) == YearSum(PatentSchedule(claims, e, den), year, Last(year, yearTo))
    decreases yearTo - year
  {
    var s := PatentSchedule(claims, e, den);
    YearSumFront(s, year, Last(year, yearTo));
    if yearTo > year {
      PatentIsYearSum(claims, year + 1, yearTo, e, den);
    }
  }

  lemma {:induction false} UtilityIsYearSum(claims: int, year: int, yearTo: int)
    ensures Utility(claims, year, yearTo) == YearSum(UtilitySchedule(claims), year, Last(year, yearTo))
    decreases yearTo - year
  {
    YearSumFront(UtilitySchedule(claims), year, Last(year, yearTo));
    if yearTo > year {
      UtilityIsYearSum(claims, year + 1, yearTo);
    }
  }

  lemma {:induction false} DesignIsYearSum(year: int, yearTo: int)
    ensures Design(year, yearTo) == YearSum(DesignSchedule, year, Last(year, yearTo))
    decreases yearTo - year
  {
    YearSumFront(DesignSchedule, year, Last(year, yearTo));
    if yearTo > year {
      DesignIsYearSum(year + 1, yearTo);
    }
  }

  /** Five claims in the first year: 4300 + 5 * 300 yen under the current table; (10300 + 5 * 900) / 3 rounded down to tens under the old one. */
  lemma PatentFirstYearExample()
    ensures Patent(5, 1, 0, None, 1) == 5800
    ensures Patent(5, 1, 0, Some(Date(2003, 1, 1)), 3) == 4930
  {
  }

  // ---------------------------------------------------------------- trademarks

  /** `trademark_renewal(years, classes)`: only five- and ten-year terms exist. */
  function TrademarkRenewal(years: int, classes: int): (r: Result<int, Exception>)
    ensures r.Err? <==> years != 5 && years != 10
    ensures r.Err? ==> r.error == ValueError
    ensures r.Ok? ==> r.value == classes * (if years == 5 then 22800 else 43600)
  {
    if years == 5 then Ok(classes * 22800)
    else if years == 10 then Ok(classes * 43600)
    else Err(ValueError)
  }

  predicate Within(d: Date, lo: Date, hi: Date) {
    Le(lo, d) && Le(d, hi)
  }

  /**
   * The price per class of a split (five-year) payment, first matching band wins:
   * `isRenew` says the payment renews the right, `payLimit` is the last
   * ten-year renewal deadline before now, when the right is old enough to have one.
   */
  function SplitBand(investigated: Date, regPay: Date, reg: Date, renewPay: Option<Date>,
                     isRenew: bool, payLimit: Option<Date>): int
  {
    if Within(investigated, Date(2018, 4, 1), Date(2022, 3, 1)) || Within(regPay, Date(2017, 4, 1), Date(2022, 3, 31)) then 16400
    else if Le(Date(2022, 3, 2), investigated) && Before(Date(2022, 4, 1), regPay) then 17200
    else if renewPay.Some? && Before(Date(2022, 4, 1), renewPay.value) && 4 <= reg.month <= 8 then 22800
    else if renewPay.Some? &&
      (|| Within(renewPay.value, Date(2018, 4, 1), Date(2022, 3, 31))
       || (&& Le(Date(2022, 4, 1), renewPay.value)
           && (|| Within(reg, Date(2016, 9, 1), Date(2017, 3, 31))
               || Within(reg, Date(2006, 9, 1), Date(2007, 3, 31))
               || Within(reg, Date(1996, 9, 1), Date(1997, 3, 31)))))
    then 22600
    else if !isRenew && (Le(investigated, Date(2022, 3, 1)) || Before(regPay, Date(2022, 4, 1))) then 16400
    else if isRenew && renewPay.Some? && Before(renewPay.value, Date(2022, 4, 1)) then 22600
    else if isRenew && payLimit.Some? && Before(payLimit.value, Date(2022, 4, 1)) then 22600
    else if isRenew then 22800
    else 17200
  }

  /** The bands a split payment can fall in: the registration prices 16400 and 17200, the renewal prices 22600 and 22800. */
  lemma SplitBandValues(investigated: Date, regPay: Date, reg: Date, renewPay: Option<Date>, isRenew: bool, payLimit: Option<Date>)
    ensures SplitBand(investigated, regPay, reg, renewPay, isRenew, payLimit) in {16400, 17200, 22600, 22800}
    ensures !isRenew && renewPay.None? ==> SplitBand(investigated, regPay, reg, renewPay, isRenew, payLimit) in {16400, 17200}
    ensures
      && isRenew
      && !Within(investigated, Date(2018, 4, 1), Date(2022, 3, 1))
      && !Within(regPay, Date(2017, 4, 1), Date(2022, 3, 31))
      && !(Le(Date(2022, 3, 2), investigated) && Before(Date(2022, 4, 1), regPay))
      ==> SplitBand(investigated, regPay, reg, renewPay, isRenew, payLimit) in {22600, 22800}
  {
  }

  /** A split payment renews when a renewal application exists or the registration is more than eight calendar years old. */
  predicate IsRenew(reg: Date, renewPay: Option<Date>, now: Instant) {
    renewPay.Some? || now.date.year - reg.year > 8
  }

  /** The largest `m` whose `reg` + 10·m years lies before `now`. */
  function LastDecade(reg: Date, now: Instant): (m: nat)
    requires Valid(reg) && now.date.year - reg.year > 8
    ensures BeforeInstant(CommonUtil.Decade(reg, m), now)
    ensures !BeforeInstant(CommonUtil.Decade(reg, m + 1), now)
  {
    var k := (now.date.year - reg.year) / 10;
    DecadeBracket(reg, now);
    if BeforeInstant(CommonUtil.Decade(reg, k), now) then k else k - 1
  }

  /** The ten-year dates around the number of whole decades since registration: the one before lies before now, the one after does not. */
  lemma DecadeBracket(reg: Date, now: Instant)
    requires Valid(reg) && now.date.year - reg.year > 8
    ensures var k := (now.date.year - reg.year) / 10;
      && (k == 0 ==> BeforeInstant(CommonUtil.Decade(reg, 0), now))
      && (k >= 1 ==> BeforeInstant(CommonUtil.Decade(reg, k - 1), now))
      && !BeforeInstant(CommonUtil.Decade(reg, k + 1), now)
  {
    var k := (now.date.year - reg.year) / 10;
    assert 0 <= 10 * k <= now.date.year - reg.year < 10 * k + 10;
    CommonUtil.DecadeShape(reg, k + 1);
    if k == 0 {
      CommonUtil.DecadeShape(reg, 0);
    } else {
      CommonUtil.DecadeShape(reg, k - 1);
    }
  }

  /** Only one `m` has its ten-year anniversary before `now` and the next one not. */
  lemma LastDecadeUnique(reg: Date, now: Instant, m: nat)
    requires Valid(reg) && now.date.year - reg.year > 8
    requires BeforeInstant(CommonUtil.Decade(reg, m), now)
    requires !BeforeInstant(CommonUtil.Decade(reg, m + 1), now)
    ensures m == LastDecade(reg, now)
  {
    var l := LastDecade(reg, now);
    if m < l {
      JpCalendar.MonthShiftOrder(reg, 120 * (m + 1), 120 * l);
    } else if l < m {
      JpCalendar.MonthShiftOrder(reg, 120 * (l + 1), 120 * m);
    }
  }

  /** `pay_limit`: the latest renewal deadline before now, for a registration more than eight years old. */
  function PayLimit(reg: Date, now: Instant): (r: Option<Date>)
    requires Valid(reg)
    ensures r.Some? <==> now.date.year - reg.year > 8
  {
    if now.date.year - reg.year > 8 then Some(CommonUtil.Decade(reg, LastDecade(reg, now))) else None
  }

  /** `trademark_splitted`: the split registration or renewal fee for `classes` classes, as of `now`. */
  method TrademarkSplitted(classes: int, investigated: Date, regPay: Date, reg: Date, renewPay: Option<Date>, now: Instant)
    returns (price: int)
    requires Valid(reg)
    ensures price == classes * SplitBand(investigated, regPay, reg, renewPay, IsRenew(reg, renewPay, now), PayLimit(reg, now))
  {
    var isRenew := false;
    var payLimit: Option<Date> := None;
    if renewPay.Some? {
      isRenew := true;
    }
    if now.date.year - reg.year > 8 {
      isRenew := true;
      var limit := ScanPayLimit(reg, now);
      payLimit := Some(limit);
    }
    assert isRenew == IsRenew(reg, renewPay, now) && payLimit == PayLimit(reg, now);
    price := classes * SplitBand(investigated, regPay, reg, renewPay, isRenew, payLimit);
  }

  /** The scan of `trademark_splitted` for the previous renewal deadline: step by ten years until now is passed, then one back. */
  method ScanPayLimit(reg: Date, now: Instant) returns (limit: Date)
    requires Valid(reg) && now.date.year - reg.year > 8
    ensures PayLimit(reg, now) == Some(limit)
  {
    var n: nat := 1;
    CommonUtil.DecadeShape(reg, 0);
    CommonUtil.DecadeShape(reg, 1);
    var d := JpCalendar.AddMonths(reg, n * 12 * 10, false);
    while BeforeInstant(d, now)
      invariant n >= 1 && d == CommonUtil.Decade(reg, n) && d.year == reg.year + 10 * n
      invariant BeforeInstant(CommonUtil.Decade(reg, n - 1), now)
      decreases now.date.year - reg.year - 10 * n + 1
    {
      n := n + 1;
      CommonUtil.DecadeShape(reg, n);
      d := JpCalendar.AddMonths(reg, n * 12 * 10, false);
    }
    n := n - 1;
    LastDecadeUnique(reg, now, n);
    CommonUtil.DecadeShape(reg, n);
    limit := JpCalendar.AddMonths(reg, n * 12 * 10, false);
  }

  /** `defensive_trademark_renew`: 37500 yen for each class of a defensive mark. */
  function DefensiveTrademarkRenew(classes: int): (r: int)
    requires classes > 0
    ensures r > 0 && r % 37500 == 0 && r / 37500 == classes
  {
    classes * 37500
  }
}
