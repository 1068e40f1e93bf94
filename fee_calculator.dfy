/**
 * The fee estimate of one renewal: the ordered list of office and agent lines
 * `calculate_fees` builds, and the per-kind total `total_fee_list` takes of such a list.
 * The human-readable subject of each line is not modelled.
 */
module FeeCalculator {
  import opened Wrappers
  import opened Dates
  import opened Props
  import CommonUtil
  import opened JpoPrice

  /** Who charges a line: the patent office or the agent. */
  datatype Kind = Office | Agent

  /**
   * One line of the estimate.  `discountRate` is the denominator `den` of the rate
   * `[1, den]`; `taxRate` is a percentage.
   */
  datatype FeeLine = FeeLine(
    kind: Kind,
    fee: int,
    currency: string,
    additionalPayment: Option<bool>,
    discount: Option<string>,
    discountRate: Option<int>,
    taxRate: Option<int>,
    taxRateText: Option<string>)

  function OfficeLine(fee: int, additional: bool): FeeLine {
    FeeLine(Office, fee, "JPY", Some(additional), None, None, None, None)
  }

  function AgentLine(fee: int): FeeLine {
    FeeLine(Agent, fee, "JPY", None, None, None, None, None)
  }

  /** The 1000-yen office line for the classes dropped at the second five-year payment. */
  function ClassDropLine(): FeeLine {
    FeeLine(Office, 1000, "JPY", None, None, None, None, None)
  }

  // ---------------------------------------------------------------- office fees

  /** The examination-request date, or today's date when the record has none. */
  function ExamDate(p: Property, now: Instant): Date {
    if p.examClaimedDate.Some? then p.examClaimedDate.value else now.date
  }

  /**
   * The fee-reduction regime of a patent: from 1 April 2019 the codes `10_4_i` and
   * `10_4_ro` divide by 3 and `10_3_ro` by 2; before that only `H25_98_66` applies,
   * dividing by 3.  Nothing is reduced from the eleventh year on.
   */
  function PatentDiscount(exam: Date, genmen: Option<string>, yearFrom: int): (r: (Option<string>, Denominator))
    ensures r.0.Some? <==>
      && yearFrom <= 10
      && genmen.Some?
      && (if Before(exam, Date(2019, 4, 1)) then genmen.value == "H25_98_66"
          else genmen.value in {"10_4_i", "10_4_ro", "10_3_ro"})
    ensures r.0.Some? ==> r.0 == genmen && r.1 == (if genmen.value == "10_3_ro" then 2 else 3)
    ensures r.0.None? ==> r.1 == 1
  {
    if yearFrom > 10 || genmen.None? then (None, 1)
    else if !Before(exam, Date(2019, 4, 1)) then
      (if genmen.value == "10_4_i" || genmen.value == "10_4_ro" then (genmen, 3)
       else if genmen.value == "10_3_ro" then (genmen, 2)
       else (None, 1))
    else if genmen.value == "H25_98_66" then (genmen, 3)
    else (None, 1)
  }

  /** Every code the holder-name rule assigns earns a reduction for a request examined from 1 April 2019. */
  lemma GenmenCodesEarnDiscount(name: string, exam: Date, yearFrom: int)
    requires !Before(exam, Date(2019, 4, 1)) && yearFrom <= 10
    requires CommonUtil.CheckJpGenmen(name).Some?
    ensures PatentDiscount(exam, CommonUtil.CheckJpGenmen(name), yearFrom).0.Some?
  {
  }

  /** The office fee of the years `yearFrom..yearTo` of a patent, utility model or design; a late payment doubles the first year. */
  function RangeFee(s: Schedule, yearFrom: int, yearTo: int, additional: bool): int
    requires s.PatentSchedule? ==> s.claims > 0
  {
    match s
    case PatentSchedule(c, e, den) =>
      if additional then
        JpoPrice.Patent(c, yearFrom, 0, e, den) * 2 + (if yearTo > yearFrom then JpoPrice.Patent(c, yearFrom + 1, yearTo, e, den) else 0)
      else JpoPrice.Patent(c, yearFrom, yearTo, e, den)
    case UtilitySchedule(c) =>
      if additional then
        JpoPrice.Utility(c, yearFrom, 0) * 2 + (if yearTo > yearFrom then JpoPrice.Utility(c, yearFrom + 1, yearTo) else 0)
      else JpoPrice.Utility(c, yearFrom, yearTo)
    case DesignSchedule =>
      if additional then
        JpoPrice.Design(yearFrom, 0) * 2 + (if yearTo > yearFrom then JpoPrice.Design(yearFrom + 1, yearTo) else 0)
      else JpoPrice.Design(yearFrom, yearTo)
  }

  /** A range costs the sum of its years; paying late adds the price of the first year once more. */
  lemma LatePaymentDoublesFirstYear(s: Schedule, yearFrom: int, yearTo: int, additional: bool)
    requires s.PatentSchedule? ==> s.claims > 0
    requires 0 < yearFrom <= yearTo
    ensures RangeFee(s, yearFrom, yearTo, additional)
      == YearSum(s, yearFrom, yearTo) + (if additional then YearPrice(s, yearFrom) else 0)
  {
    YearSumFront(s, yearFrom, yearTo);
    match s
    case PatentSchedule(c, e, den) =>
      PatentIsYearSum(c, yearFrom, yearTo, e, den);
      PatentIsYearSum(c, yearFrom, 0, e, den);
      if yearTo > yearFrom { PatentIsYearSum(c, yearFrom + 1, yearTo, e, den); }
    case UtilitySchedule(c) =>
      UtilityIsYearSum(c, yearFrom, yearTo);
      UtilityIsYearSum(c, yearFrom, 0);
      if yearTo > yearFrom { UtilityIsYearSum(c, yearFrom + 1, yearTo); }
    case DesignSchedule =>
      DesignIsYearSum(yearFrom, yearTo);
      DesignIsYearSum(yearFrom, 0);
      if yearTo > yearFrom { DesignIsYearSum(yearFrom + 1, yearTo); }
  }

  /** The number of classes a trademark is renewed for: the argument, else the cart's classes, else the record's. */
  function TrademarkCount(p: Property, classes: Option<int>): int {
    var c := if classes.Some? then classes.value else 0;
    if c != 0 then c
    else if p.cart.Some? && p.cart.value.classes.Some? then |p.cart.value.classes.value|
    else if p.classes.Some? then |p.classes.value|
    else 0
  }

  function OrElse(d: Option<Date>, fallback: Date): Date {
    if d.Some? then d.value else fallback
  }

  /** The unit-less trademark office fee before any late-payment doubling. */
  function TrademarkFee(p: Property, count: int, years: int, now: Instant): Result<int, Exception>
    requires CommonUtil.WellFormed(p) && p.registrationDate.Some? && p.paidYears.Some? && count >= 1
  {
    if p.defensive then Ok(DefensiveTrademarkRenew(count))
    else if p.paidYears.value < 10 then
      var reg := p.registrationDate.value;
      var regPay := OrElse(p.registrationPaymentDate, reg);
      var investigated := OrElse(p.registrationInvestigatedDate, regPay);
      Ok(count * SplitBand(investigated, regPay, reg, p.renewPaymentDate,
                           IsRenew(reg, p.renewPaymentDate, now), PayLimit(reg, now)))
    else TrademarkRenewal(years, count)
  }

  /** The office lines of a Japanese right; a foreign right has none. */
  function OfficeLines(p: Property, yearFrom: int, yearTo: int, years: int, classes: Option<int>,
                       additional: bool, now: Instant): Result<seq<FeeLine>, Exception>
    requires CommonUtil.WellFormed(p)
  {
    if !IsJp(p) then Ok([])
    else match p.law
      case Patent =>
        if p.numberOfClaims.None? then Ok([])
        else if p.numberOfClaims.value <= 0 then Err(AssertionError)
        else
          var exam := ExamDate(p, now);
          var (discount, den) := PatentDiscount(exam, p.jpGenmen, yearFrom);
          var fee := RangeFee(PatentSchedule(p.numberOfClaims.value, Some(exam), den), yearFrom, yearTo, additional);
          Ok([FeeLine(Office, fee, "JPY", Some(additional), discount,
                      if discount.Some? then Some(den) else None, None, None)])
      case Utility =>
        if p.numberOfClaims.None? then Ok([])
        else Ok([OfficeLine(RangeFee(UtilitySchedule(p.numberOfClaims.value), yearFrom, yearTo, additional), additional)])
      case Design =>
        Ok([OfficeLine(RangeFee(DesignSchedule, yearFrom, yearTo, additional), additional)])
      case Trademark => TrademarkLines(p, years, classes, additional, now)
  }

  /** The office lines of a JP trademark: the fee, and 1000 yen for classes dropped at the second five-year payment. */
  function TrademarkLines(p: Property, years: int, classes: Option<int>, additional: bool, now: Instant): Result<seq<FeeLine>, Exception>
    requires CommonUtil.WellFormed(p)
  {
    var count := TrademarkCount(p, classes);
    if count < 1 || p.registrationDate.None? || p.paidYears.None? then Ok([])
    else match TrademarkFee(p, count, years, now)
      case Err(e) => Err(e)
      case Ok(base) =>
        var line := OfficeLine(if additional then base * 2 else base, additional);
        if p.paidYears.value == 5 && years == 5 then
          (if p.classes.None? then Err(KeyError)
           else if count < |p.classes.value| then Ok([line, ClassDropLine()])
           else Ok([line]))
        else Ok([line])
  }

  // ---------------------------------------------------------------- agent lines and tax

  predicate HasDiscount(lines: seq<FeeLine>) {
    exists i :: 0 <= i < |lines| && lines[i].discount.Some?
  }

  /** A JP trademark renewed for fewer classes than it holds: the agent charges for the deletion. */
  predicate DropsClasses(p: Property, count: int) {
    IsJpTrademark(p) && p.classes.Some? && count < |p.classes.value|
  }

  /** The agent's 5000 yen, then 10000 for a class deletion, then 3000 for a reduction filing. */
  function AgentLines(p: Property, count: int, office: seq<FeeLine>): seq<FeeLine> {
    [AgentLine(5000)]
      + (if DropsClasses(p, count) then [AgentLine(10000)] else [])
      + (if HasDiscount(office) then [AgentLine(3000)] else [])
  }

  /** The consumption tax of 10 percent, set on every agent line charged in yen. */
  function Taxed(x: FeeLine): FeeLine {
    if x.currency == "JPY" && x.kind == Agent then x.(taxRate := Some(10), taxRateText := Some("10.00%")) else x
  }

  function TaxAll(lines: seq<FeeLine>): (r: seq<FeeLine>)
    ensures |r| == |lines|
    ensures forall i :: 0 <= i < |r| ==> r[i] == Taxed(lines[i])
  {
    seq(|lines|, i requires 0 <= i < |lines| => Taxed(lines[i]))
  }

  /** The classes the agent lines are judged by: the trademark count for a JP trademark, nothing otherwise. */
  function SurchargeCount(p: Property, classes: Option<int>): int {
    if IsJp(p) && p.law == Trademark then TrademarkCount(p, classes) else 0
  }

  /** The last year priced: `max(year_to, year_from)` for annuities; trademarks do not use it. */
  function YearToOf(p: Property, yearFrom: int, yearTo: int): int {
    if p.law != Trademark then Last(yearFrom, yearTo) else yearTo
  }

  /** `calculate_fees(prop, lang, year_from, year_to, years, classes, additional)` with `now` for today. */
  function Fees(p: Property, yearFrom: int, yearTo: int, years: int, classes: Option<int>,
                additional: bool, now: Instant): Result<seq<FeeLine>, Exception>
    requires CommonUtil.WellFormed(p)
  {
    if p.law != Trademark && yearFrom <= 0 then Err(AssertionError)
    else if p.law == Trademark && years != 5 && years != 10 then Err(AssertionError)
    else
      match OfficeLines(p, yearFrom, YearToOf(p, yearFrom, yearTo), years, classes, additional, now)
      case Err(e) => Err(e)
      case Ok(office) =>
        if p.law == Trademark && p.paidYears.None? then Err(KeyError)
        else Ok(TaxAll(office + AgentLines(p, SurchargeCount(p, classes), office)))
  }

  /** The trademark branch of `calculate_fees`: the office line, and the 1000-yen line for dropped classes. */
  method TrademarkOfficeLines(p: Property, years: int, classes: Option<int>, additional: bool, now: Instant)
    returns (r: Result<seq<FeeLine>, Exception>)
    requires CommonUtil.WellFormed(p)
    ensures r == TrademarkLines(p, years, classes, additional, now)
  {
    var count := TrademarkCount(p, classes);
    if count < 1 || p.registrationDate.None? || p.paidYears.None? {
      return Ok([]);
    }
    var fee: int;
    if p.defensive {
      fee := DefensiveTrademarkRenew(count);
    } else if p.paidYears.value < 10 {
      var reg := p.registrationDate.value;
      var regPay := OrElse(p.registrationPaymentDate, reg);
      var investigated := OrElse(p.registrationInvestigatedDate, regPay);
      fee := TrademarkSplitted(count, investigated, regPay, reg, p.renewPaymentDate, now);
    } else {
      var t := TrademarkRenewal(years, count);
      if t.Err? {
        return Err(t.error);
      }
      fee := t.value;
    }
    assert TrademarkFee(p, count, years, now) == Ok(fee);
    if additional {
      fee := fee * 2;
    }
    var line := OfficeLine(fee, additional);
    var fees := [line];
    if p.paidYears.value == 5 && years == 5 {
      if p.classes.None? {
        return Err(KeyError);
      }
      if count < |p.classes.value| {
        fees := fees + [ClassDropLine()];
        assert fees == [line, ClassDropLine()];
      }
    }
    r := Ok(fees);
  }

  /** The tax pass: every JPY agent line gets the 10 percent rate, in place. */
  method ApplyTax(lines: seq<FeeLine>) returns (fees: seq<FeeLine>)
    ensures fees == TaxAll(lines)
  {
    fees := lines;
    var i := 0;
    while i < |fees|
      invariant 0 <= i <= |fees| == |lines|
      invariant forall j :: 0 <= j < i ==> fees[j] == Taxed(lines[j])
      invariant forall j :: i <= j < |fees| ==> fees[j] == lines[j]
    {
      if fees[i].currency == "JPY" && fees[i].kind == Agent {
        fees := fees[i := fees[i].(taxRate := Some(10), taxRateText := Some("10.00%"))];
      }
      i := i + 1;
    }
  }

  /** Appending lines without a reduction code leaves the question "is some line reduced?" unchanged. */
  lemma AgentLinesCarryNoDiscount(office: seq<FeeLine>, fees: seq<FeeLine>)
    requires |office| <= |fees| && fees[..|office|] == office
    requires forall i :: |office| <= i < |fees| ==> fees[i].discount.None?
    ensures HasDiscount(fees) == HasDiscount(office)
  {
    if HasDiscount(office) {
      var i :| 0 <= i < |office| && office[i].discount.Some?;
      assert fees[i] == office[i];
    }
  }

  /** The agent lines of `calculate_fees`, appended after the office lines. */
  method AppendAgentLines(p: Property, count: int, office: seq<FeeLine>) returns (fees: seq<FeeLine>)
    ensures fees == office + AgentLines(p, count, office)
  {
    ghost var agents := [AgentLine(5000)];
    fees := office + [AgentLine(5000)];
    if DropsClasses(p, count) {
      fees := fees + [AgentLine(10000)];
      agents := agents + [AgentLine(10000)];
    }
    assert fees == office + agents;
    AgentLinesCarryNoDiscount(office, fees);
    if exists i :: 0 <= i < |fees| && fees[i].discount.Some? {
      fees := fees + [AgentLine(3000)];
      agents := agents + [AgentLine(3000)];
    }
    assert fees == office + agents;
  }

  /** `calculate_fees`: the office lines, the agent lines, then the tax pass over the list. */
  method CalculateFees(p: Property, yearFrom: int, yearTo: int, years: int, classes: Option<int>,
                       additional: bool, now: Instant) returns (r: Result<seq<FeeLine>, Exception>)
    requires CommonUtil.WellFormed(p)
    ensures r == Fees(p, yearFrom, yearTo, years, classes, additional, now)
  {
    if p.law != Trademark && yearFrom <= 0 {
      return Err(AssertionError);
    } else if p.law == Trademark && years != 5 && years != 10 {
      return Err(AssertionError);
    }
    var office: Result<seq<FeeLine>, Exception>;
    if IsJpTrademark(p) {
      office := TrademarkOfficeLines(p, years, classes, additional, now);
    } else {
      office := OfficeLines(p, yearFrom, YearToOf(p, yearFrom, yearTo), years, classes, additional, now);
    }
    if office.Err? {
      return Err(office.error);
    }
    if p.law == Trademark && p.paidYears.None? {
      return Err(KeyError);
    }
    var fees := AppendAgentLines(p, SurchargeCount(p, classes), office.value);
    fees := ApplyTax(fees);
    r := Ok(fees);
  }

  // ---------------------------------------------------------------- properties of the estimate

  /** What office lines look like: at most two, in yen, untaxed; only the first may be reduced; the second is the 1000-yen line. */
  predicate OfficeLike(o: seq<FeeLine>) {
    && |o| <= 2
    && (forall i :: 0 <= i < |o| ==> o[i].kind == Office && o[i].currency == "JPY" && o[i].taxRate.None? && o[i].taxRateText.None?)
    && (forall i :: 0 <= i < |o| ==> (o[i].discount.Some? ==> i == 0))
    && (forall i :: 0 <= i < |o| ==> (o[i].additionalPayment.None? <==> i == 1))
  }

  lemma TrademarkShape(p: Property, years: int, classes: Option<int>, additional: bool, now: Instant)
    requires CommonUtil.WellFormed(p)
    requires TrademarkLines(p, years, classes, additional, now).Ok?
    ensures OfficeLike(TrademarkLines(p, years, classes, additional, now).value)
    ensures !HasDiscount(TrademarkLines(p, years, classes, additional, now).value)
  {
  }

  /** The office lines of every right have that shape, and only a JP patent's line is reduced, when its regime grants a reduction. */
  lemma OfficeShape(p: Property, yearFrom: int, yearTo: int, years: int, classes: Option<int>, additional: bool, now: Instant)
    requires CommonUtil.WellFormed(p)
    requires OfficeLines(p, yearFrom, yearTo, years, classes, additional, now).Ok?
    ensures OfficeLike(OfficeLines(p, yearFrom, yearTo, years, classes, additional, now).value)
    ensures HasDiscount(OfficeLines(p, yearFrom, yearTo, years, classes, additional, now).value) <==>
      IsJp(p) && p.law == Patent && p.numberOfClaims.Some? && PatentDiscount(ExamDate(p, now), p.jpGenmen, yearFrom).0.Some?
  {
    var o := OfficeLines(p, yearFrom, yearTo, years, classes, additional, now).value;
    if IsJp(p) && p.law == Trademark {
      TrademarkShape(p, years, classes, additional, now);
    }
    if IsJp(p) && p.law == Patent && p.numberOfClaims.Some? && PatentDiscount(ExamDate(p, now), p.jpGenmen, yearFrom).0.Some? {
      assert o[0].discount.Some?;
    }
  }

  /** The estimate is the office lines, then the agent lines, taxed. */
  lemma FeesParts(p: Property, yearFrom: int, yearTo: int, years: int, classes: Option<int>, additional: bool, now: Instant)
    requires CommonUtil.WellFormed(p)
    requires Fees(p, yearFrom, yearTo, years, classes, additional, now).Ok?
    ensures OfficeLines(p, yearFrom, YearToOf(p, yearFrom, yearTo), years, classes, additional, now).Ok?
    ensures var o := OfficeLines(p, yearFrom, YearToOf(p, yearFrom, yearTo), years, classes, additional, now).value;
      Fees(p, yearFrom, yearTo, years, classes, additional, now).value
        == TaxAll(o + AgentLines(p, SurchargeCount(p, classes), o))
  {
  }

  /** The assembled list: office lines first, unchanged by the tax pass, then the taxed agent lines. */
  lemma AssembledLines(p: Property, count: int, o: seq<FeeLine>)
    requires OfficeLike(o)
    ensures var a := AgentLines(p, count, o);
      var ls := TaxAll(o + a);
      && |ls| == |o| + |a| && 1 <= |a| <= 3
      && (forall i :: 0 <= i < |o| ==> ls[i] == o[i])
      && (forall i :: |o| <= i < |ls| ==> ls[i] == Taxed(a[i - |o|]) && ls[i].kind == Agent && ls[i].discount.None?)
      && ls[|o|].fee == 5000
  {
  }

  lemma AssembledSurcharges(p: Property, count: int, o: seq<FeeLine>)
    requires OfficeLike(o)
    ensures var ls := TaxAll(o + AgentLines(p, count, o));
      (exists i :: 0 <= i < |ls| && ls[i].kind == Agent && ls[i].fee == 10000) <==> DropsClasses(p, count)
    ensures var ls := TaxAll(o + AgentLines(p, count, o));
      (exists i :: 0 <= i < |ls| && ls[i].kind == Agent && ls[i].fee == 3000) <==> HasDiscount(o)
    ensures var ls := TaxAll(o + AgentLines(p, count, o));
      HasDiscount(ls) <==> HasDiscount(o)
  {
    AssembledLines(p, count, o);
    var a := AgentLines(p, count, o);
    var ls := TaxAll(o + a);
    if DropsClasses(p, count) {
      assert ls[|o| + 1].fee == 10000;
    }
    if HasDiscount(o) {
      assert ls[|ls| - 1].fee == 3000;
    }
    if HasDiscount(ls) {
      var i :| 0 <= i < |ls| && ls[i].discount.Some?;
      assert o[i].discount.Some?;
    }
    if HasDiscount(o) {
      var i :| 0 <= i < |o| && o[i].discount.Some?;
      assert ls[i].discount.Some?;
    }
  }

  /**
   * Line order: the office lines (none, one, or the fee and the 1000-yen line), then the
   * agent's 5000 yen, which is always there, then at most two agent surcharges.
   */
  lemma FeesLineOrder(p: Property, yearFrom: int, yearTo: int, years: int, classes: Option<int>, additional: bool, now: Instant)
    requires CommonUtil.WellFormed(p)
    requires Fees(p, yearFrom, yearTo, years, classes, additional, now).Ok?
    ensures var ls := Fees(p, yearFrom, yearTo, years, classes, additional, now).value;
      exists k ::
        && 0 <= k <= 2 && k < |ls| <= k + 3
        && (forall i :: 0 <= i < k ==> ls[i].kind == Office)
        && (forall i :: k <= i < |ls| ==> ls[i].kind == Agent)
        && ls[k].fee == 5000
  {
    FeesParts(p, yearFrom, yearTo, years, classes, additional, now);
    var o := OfficeLines(p, yearFrom, YearToOf(p, yearFrom, yearTo), years, classes, additional, now).value;
    OfficeShape(p, yearFrom, YearToOf(p, yearFrom, yearTo), years, classes, additional, now);
    AssembledLines(p, SurchargeCount(p, classes), o);
    var ls := Fees(p, yearFrom, yearTo, years, classes, additional, now).value;
    var k := |o|;
    assert ls[k].fee == 5000;
  }

  /** Every agent line carries the 10 percent tax; no office line carries a tax rate. */
  lemma TaxOnAgentLinesOnly(p: Property, yearFrom: int, yearTo: int, years: int, classes: Option<int>, additional: bool, now: Instant)
    requires CommonUtil.WellFormed(p)
    requires Fees(p, yearFrom, yearTo, years, classes, additional, now).Ok?
    ensures var ls := Fees(p, yearFrom, yearTo, years, classes, additional, now).value;
      forall i :: 0 <= i < |ls| ==>
        && ls[i].currency == "JPY"
        && ls[i].taxRate == (if ls[i].kind == Agent then Some(10) else None)
        && ls[i].taxRateText == (if ls[i].kind == Agent then Some("10.00%") else None)
  {
    FeesParts(p, yearFrom, yearTo, years, classes, additional, now);
    var o := OfficeLines(p, yearFrom, YearToOf(p, yearFrom, yearTo), years, classes, additional, now).value;
    OfficeShape(p, yearFrom, YearToOf(p, yearFrom, yearTo), years, classes, additional, now);
    AssembledLines(p, SurchargeCount(p, classes), o);
  }

  /** The 10000-yen agent line appears exactly when a JP trademark is renewed for fewer classes than it holds. */
  lemma ClassDeletionSurcharge(p: Property, yearFrom: int, yearTo: int, years: int, classes: Option<int>, additional: bool, now: Instant)
    requires CommonUtil.WellFormed(p)
    requires Fees(p, yearFrom, yearTo, years, classes, additional, now).Ok?
    ensures var ls := Fees(p, yearFrom, yearTo, years, classes, additional, now).value;
      (exists i :: 0 <= i < |ls| && ls[i].kind == Agent && ls[i].fee == 10000)
        <==> IsJpTrademark(p) && p.classes.Some? && TrademarkCount(p, classes) < |p.classes.value|
  {
    FeesParts(p, yearFrom, yearTo, years, classes, additional, now);
    var o := OfficeLines(p, yearFrom, YearToOf(p, yearFrom, yearTo), years, classes, additional, now).value;
    OfficeShape(p, yearFrom, YearToOf(p, yearFrom, yearTo), years, classes, additional, now);
    AssembledSurcharges(p, SurchargeCount(p, classes), o);
  }

  /**
   * The 3000-yen agent line appears exactly when some line is reduced, and only the
   * office line of a JP patent is ever reduced: when its regime grants a reduction.
   */
  lemma DiscountSurcharge(p: Property, yearFrom: int, yearTo: int, years: int, classes: Option<int>, additional: bool, now: Instant)
    requires CommonUtil.WellFormed(p)
    requires Fees(p, yearFrom, yearTo, years, classes, additional, now).Ok?
    ensures var ls := Fees(p, yearFrom, yearTo, years, classes, additional, now).value;
      (exists i :: 0 <= i < |ls| && ls[i].kind == Agent && ls[i].fee == 3000) <==> HasDiscount(ls)
    ensures var ls := Fees(p, yearFrom, yearTo, years, classes, additional, now).value;
      HasDiscount(ls) <==>
        IsJp(p) && p.law == Patent && p.numberOfClaims.Some? && PatentDiscount(ExamDate(p, now), p.jpGenmen, yearFrom).0.Some?
    ensures var ls := Fees(p, yearFrom, yearTo, years, classes, additional, now).value;
      forall i :: 0 <= i < |ls| && ls[i].discount.Some? ==> i == 0 && ls[i].kind == Office
  {
    FeesParts(p, yearFrom, yearTo, years, classes, additional, now);
    var o := OfficeLines(p, yearFrom, YearToOf(p, yearFrom, yearTo), years, classes, additional, now).value;
    OfficeShape(p, yearFrom, YearToOf(p, yearFrom, yearTo), years, classes, additional, now);
    AssembledLines(p, SurchargeCount(p, classes), o);
    AssembledSurcharges(p, SurchargeCount(p, classes), o);
  }

  /** The record lacks what the office fee needs: a foreign right, a patent or utility model without claims, a trademark without classes, registration date or paid years. */
  predicate MissingOfficeInputs(p: Property, classes: Option<int>) {
    || !IsJp(p)
    || ((p.law == Patent || p.law == Utility) && p.numberOfClaims.None?)
    || (p.law == Trademark && (TrademarkCount(p, classes) < 1 || p.registrationDate.None? || p.paidYears.None?))
  }

  /** The second five-year payment of a JP trademark renewed for fewer classes than it holds. */
  predicate DropsClassesAtSecondHalf(p: Property, years: int, classes: Option<int>) {
    && IsJpTrademark(p) && !MissingOfficeInputs(p, classes)
    && p.paidYears == Some(5) && years == 5
    && p.classes.Some? && TrademarkCount(p, classes) < |p.classes.value|
  }

  /** No office line when inputs are missing; a second one exactly for classes dropped at the second five-year payment. */
  lemma OfficeLineCount(p: Property, yearFrom: int, yearTo: int, years: int, classes: Option<int>, additional: bool, now: Instant)
    requires CommonUtil.WellFormed(p)
    requires OfficeLines(p, yearFrom, yearTo, years, classes, additional, now).Ok?
    ensures var o := OfficeLines(p, yearFrom, yearTo, years, classes, additional, now).value;
      && (|o| == 0 <==> MissingOfficeInputs(p, classes))
      && (|o| == 2 <==> DropsClassesAtSecondHalf(p, years, classes))
      && (|o| == 2 ==> o[1] == ClassDropLine())
  {
  }

  /**
   * Missing inputs suppress the office line and leave the agent's line; otherwise the
   * estimate opens with the office fee, and a 1000-yen office line follows exactly for
   * classes dropped at the second five-year payment.
   */
  lemma OfficeLinePresence(p: Property, yearFrom: int, yearTo: int, years: int, classes: Option<int>, additional: bool, now: Instant)
    requires CommonUtil.WellFormed(p)
    requires Fees(p, yearFrom, yearTo, years, classes, additional, now).Ok?
    ensures var ls := Fees(p, yearFrom, yearTo, years, classes, additional, now).value;
      |ls| > 0 && (ls[0].kind == Office <==> !MissingOfficeInputs(p, classes))
    ensures var ls := Fees(p, yearFrom, yearTo, years, classes, additional, now).value;
      MissingOfficeInputs(p, classes) ==> ls[0].fee == 5000
    ensures var ls := Fees(p, yearFrom, yearTo, years, classes, additional, now).value;
      (exists i :: 0 <= i < |ls| && ls[i].kind == Office && ls[i].additionalPayment.None?)
        <==> DropsClassesAtSecondHalf(p, years, classes)
    ensures var ls := Fees(p, yearFrom, yearTo, years, classes, additional, now).value;
      forall i :: 0 <= i < |ls| && ls[i].kind == Office && ls[i].additionalPayment.None? ==> ls[i].fee == 1000
  {
    FeesParts(p, yearFrom, yearTo, years, classes, additional, now);
    var yt := YearToOf(p, yearFrom, yearTo);
    var o := OfficeLines(p, yearFrom, yt, years, classes, additional, now).value;
    OfficeShape(p, yearFrom, yt, years, classes, additional, now);
    OfficeLineCount(p, yearFrom, yt, years, classes, additional, now);
    AssembledLines(p, SurchargeCount(p, classes), o);
    var ls := Fees(p, yearFrom, yearTo, years, classes, additional, now).value;
    if DropsClassesAtSecondHalf(p, years, classes) {
      assert ls[1] == o[1];
    }
  }

  /** The price list a JP patent, utility model or design is charged by: a patent's carries its table date and reduction. */
  function ScheduleOf(p: Property, yearFrom: int, now: Instant): Schedule {
    var claims := if p.numberOfClaims.Some? then p.numberOfClaims.value else 0;
    match p.law
    case Patent => PatentSchedule(claims, Some(ExamDate(p, now)), PatentDiscount(ExamDate(p, now), p.jpGenmen, yearFrom).1)
    case Utility => UtilitySchedule(claims)
    case _ => DesignSchedule
  }

  /**
   * The office fee of a JP patent, utility model or design is the sum of the years
   * `year_from..max(year_to, year_from)`, with the first year counted twice when paid late.
   */
  lemma AnnuityOfficeFee(p: Property, yearFrom: int, yearTo: int, years: int, classes: Option<int>, additional: bool, now: Instant)
    requires CommonUtil.WellFormed(p)
    requires Fees(p, yearFrom, yearTo, years, classes, additional, now).Ok?
    requires IsJp(p) && p.law != Trademark && !MissingOfficeInputs(p, classes)
    ensures var ls := Fees(p, yearFrom, yearTo, years, classes, additional, now).value;
      var s := ScheduleOf(p, yearFrom, now);
      ls[0].kind == Office &&
      ls[0].fee == YearSum(s, yearFrom, Last(yearFrom, yearTo)) + (if additional then YearPrice(s, yearFrom) else 0)
  {
    OfficeLinePresence(p, yearFrom, yearTo, years, classes, additional, now);
    FeesParts(p, yearFrom, yearTo, years, classes, additional, now);
    LatePaymentDoublesFirstYear(ScheduleOf(p, yearFrom, now), yearFrom, Last(yearFrom, yearTo), additional);
  }

  /** A late trademark payment doubles the whole office fee. */
  lemma TrademarkLateDoubles(p: Property, yearFrom: int, yearTo: int, years: int, classes: Option<int>, now: Instant)
    requires CommonUtil.WellFormed(p)
    requires Fees(p, yearFrom, yearTo, years, classes, true, now).Ok?
    requires IsJpTrademark(p) && !MissingOfficeInputs(p, classes)
    ensures Fees(p, yearFrom, yearTo, years, classes, false, now).Ok?
    ensures Fees(p, yearFrom, yearTo, years, classes, true, now).value[0].fee
      == 2 * Fees(p, yearFrom, yearTo, years, classes, false, now).value[0].fee
  {
    assert TrademarkLines(p, years, classes, true, now).Ok?;
    assert TrademarkLines(p, years, classes, false, now).Ok?;
    FeesParts(p, yearFrom, yearTo, years, classes, true, now);
    FeesParts(p, yearFrom, yearTo, years, classes, false, now);
  }

  /**
   * When `calculate_fees` raises: an `AssertionError` for a non-positive `year_from` of an
   * annuity, a trademark term other than 5 or 10 years, or a JP patent without a positive
   * claim count; a `KeyError` for a trademark without `PaidYears`, or for the second
   * five-year payment of a JP trademark without `Classes`.
   */
  lemma FeesErrors(p: Property, yearFrom: int, yearTo: int, years: int, classes: Option<int>, additional: bool, now: Instant)
    requires CommonUtil.WellFormed(p)
    ensures var r := Fees(p, yearFrom, yearTo, years, classes, additional, now);
      r == Err(AssertionError) <==>
        || (p.law != Trademark && yearFrom <= 0)
        || (p.law == Trademark && years != 5 && years != 10)
        || (IsJp(p) && p.law == Patent && p.numberOfClaims.Some? && p.numberOfClaims.value <= 0)
    ensures var r := Fees(p, yearFrom, yearTo, years, classes, additional, now);
      r == Err(KeyError) <==>
        && !(p.law != Trademark && yearFrom <= 0)
        && !(p.law == Trademark && years != 5 && years != 10)
        && p.law == Trademark
        && (|| p.paidYears.None?
            || (IsJp(p) && !MissingOfficeInputs(p, classes) && p.paidYears == Some(5) && years == 5 && p.classes.None?))
    ensures var r := Fees(p, yearFrom, yearTo, years, classes, additional, now);
      r.Err? ==> r.error == AssertionError || r.error == KeyError
  {
  }

  // ---------------------------------------------------------------- totals

  /** A line as `total_fee_list` reads it: its kind, currency, tax rate, and whichever amount fields it has. */
  datatype Item = Item(kind: Kind, currency: string, taxRate: Option<int>, amounts: map<string, int>)

  function ItemOf(x: FeeLine): Item {
    Item(x.kind, x.currency, x.taxRate, map["Fee" := x.fee])
  }

  predicate Picked(x: Item, kind: Kind, field: string) {
    field in x.amounts && x.kind == kind
  }

  /** The lines of the given kind that carry the field, in order. */
  function Selected(items: seq<Item>, kind: Kind, field: string): seq<Item> {
    if items == [] then []
    else
      var last := items[|items| - 1];
      Selected(items[..|items| - 1], kind, field) + (if Picked(last, kind, field) then [last] else [])
  }

  function Sum(sel: seq<Item>, field: string): int {
    if sel == [] then 0
    else
      var last := sel[|sel| - 1];
      Sum(sel[..|sel| - 1], field) + (if field in last.amounts then last.amounts[field] else 0)
  }

  function RateOrZero(x: Item): int {
    if x.taxRate.Some? then x.taxRate.value else 0
  }

  /** A line's tax rate agrees with the rate in force before it: none yet, or the same one. */
  predicate Compatible(previous: int, rate: Option<int>) {
    if rate.Some? then previous == 0 || previous == rate.value else previous == 0
  }

  /** One currency throughout, and each line's tax rate agrees with the line before it. */
  predicate Consistent(sel: seq<Item>) {
    && (forall j :: 0 <= j < |sel| ==> sel[j].currency == sel[0].currency)
    && (forall j :: 0 < j < |sel| ==> Compatible(RateOrZero(sel[j - 1]), sel[j].taxRate))
  }

  /** `total_fee_list(fee_list, kind, field)`: the sum, the currency and the tax rate of the selected lines. */
  function Totals(items: seq<Item>, kind: Kind, field: string): Result<(int, Option<string>, int), Exception> {
    SelectionTotals(Selected(items, kind, field), field)
  }

  /** The sum, currency and last tax rate of selected lines, or the assertion failure when they disagree. */
  function SelectionTotals(sel: seq<Item>, field: string): Result<(int, Option<string>, int), Exception> {
    if !Consistent(sel) then Err(AssertionError)
    else if sel == [] then Ok((0, None, 0))
    else Ok((Sum(sel, field), Some(sel[0].currency), RateOrZero(sel[|sel| - 1])))
  }

  lemma {:induction false} SelectedPrefixConsistent(items: seq<Item>, kind: Kind, field: string, i: nat)
    requires i <= |items|
    requires Consistent(Selected(items, kind, field))
    ensures Consistent(Selected(items[..i], kind, field))
    decreases |items| - i
  {
    if i < |items| {
      SelectedPrefixConsistent(items, kind, field, i + 1);
      assert items[..i + 1][..i] == items[..i];
      var s := Selected(items[..i], kind, field);
      var t := Selected(items[..i + 1], kind, field);
      assert forall j :: 0 <= j < |s| ==> s[j] == t[j];
    } else {
      assert items[..i] == items;
    }
  }

  lemma SelectedStep(items: seq<Item>, kind: Kind, field: string, i: nat)
    requires i < |items|
    ensures Selected(items[..i + 1], kind, field)
      == Selected(items[..i], kind, field) + (if Picked(items[i], kind, field) then [items[i]] else [])
  {
    assert items[..i + 1][..i] == items[..i];
  }

  /** Extending a consistent selection by one line keeps it consistent exactly when the line agrees with what came before. */
  lemma ConsistentStep(sel: seq<Item>, x: Item)
    requires Consistent(sel)
    ensures Consistent(sel + [x]) <==>
      sel == [] || (x.currency == sel[0].currency && Compatible(RateOrZero(sel[|sel| - 1]), x.taxRate))
  {
    var t := sel + [x];
    assert forall j :: 0 <= j < |sel| ==> t[j] == sel[j];
    if sel == [] {
      assert forall j :: 0 <= j < |t| ==> j == 0 && t[j] == x;
    } else {
      assert t[|sel|] == x && t[|sel| - 1] == sel[|sel| - 1] && t[0] == sel[0];
    }
  }

  lemma SumStep(sel: seq<Item>, x: Item, field: string)
    requires field in x.amounts
    ensures Sum(sel + [x], field) == Sum(sel, field) + x.amounts[field]
  {
    assert (sel + [x])[..|sel|] == sel;
  }

  /** `total_fee_list`: one pass over the lines, asserting one currency and one tax rate. */
  method TotalFeeList(items: seq<Item>, kind: Kind, field: string) returns (r: Result<(int, Option<string>, int), Exception>)
    ensures r == Totals(items, kind, field)
  {
    var cur: Option<string> := None;
    var total := 0;
    var taxRate := 0;
    var i := 0;
    while i < |items|
      invariant 0 <= i <= |items|
      invariant Totals(items[..i], kind, field) == Ok((total, cur, taxRate))
    {
      var x := items[i];
      TotalsStep(items, kind, field, i, total, cur, taxRate);
      if field in x.amounts && x.kind == kind {
        if cur.None? {
          cur := Some(x.currency);
        }
        var fits := cur.value == x.currency
          && (if x.taxRate.Some? then taxRate == 0 || taxRate == x.taxRate.value else taxRate == 0);
        if !fits {
          FailurePersists(items, kind, field, i + 1);
          return Err(AssertionError);
        }
        if x.taxRate.Some? {
          taxRate := x.taxRate.value;
        }
        total := total + x.amounts[field];
      }
      i := i + 1;
    }
    assert items[..i] == items;
    r := Ok((total, cur, taxRate));
  }

  /** One more line: skipped unless picked; otherwise it must fit the currency and rate so far, and then adds its amount and sets the rate. */
  lemma TotalsStep(items: seq<Item>, kind: Kind, field: string, i: nat, total: int, cur: Option<string>, taxRate: int)
    requires i < |items|
    requires Totals(items[..i], kind, field) == Ok((total, cur, taxRate))
    ensures var x := items[i];
      Totals(items[..i + 1], kind, field) ==
        if !Picked(x, kind, field) then Ok((total, cur, taxRate))
        else if !((cur.None? || cur.value == x.currency) && Compatible(taxRate, x.taxRate)) then Err(AssertionError)
        else Ok((total + x.amounts[field], if cur.None? then Some(x.currency) else cur, RateOrZero(x)))
  {
    var x := items[i];
    SelectedStep(items, kind, field, i);
    if Picked(x, kind, field) {
      SelectionSnoc(Selected(items[..i], kind, field), x, field, total, cur, taxRate);
    } else {
      assert Selected(items[..i + 1], kind, field) == Selected(items[..i], kind, field) + [];
      assert Selected(items[..i], kind, field) + [] == Selected(items[..i], kind, field);
    }
  }

  /** The running totals after one more selected line. */
  lemma SelectionSnoc(sel: seq<Item>, x: Item, field: string, total: int, cur: Option<string>, taxRate: int)
    requires field in x.amounts
    requires SelectionTotals(sel, field) == Ok((total, cur, taxRate))
    ensures SelectionTotals(sel + [x], field) ==
      if !((cur.None? || cur.value == x.currency) && Compatible(taxRate, x.taxRate)) then Err(AssertionError)
      else Ok((total + x.amounts[field], if cur.None? then Some(x.currency) else cur, RateOrZero(x)))
  {
    PickStep(sel, x, field);
    assert cur.None? <==> sel == [];
  }

  /** Taking one more picked line: the selection stays consistent exactly when the line fits, and the sum, currency and rate move accordingly. */
  lemma PickStep(sel: seq<Item>, x: Item, field: string)
    requires Consistent(sel) && field in x.amounts
    ensures var t := sel + [x];
      && (Consistent(t) <==>
           (sel == [] || x.currency == sel[0].currency) && Compatible(if sel == [] then 0 else RateOrZero(sel[|sel| - 1]), x.taxRate))
      && Sum(t, field) == Sum(sel, field) + x.amounts[field]
      && t[0].currency == (if sel == [] then x.currency else sel[0].currency)
      && RateOrZero(t[|t| - 1]) == RateOrZero(x)
  {
    ConsistentStep(sel, x);
    SumStep(sel, x, field);
  }

  /** Once the lines read so far fail the assertion, the whole list does. */
  lemma FailurePersists(items: seq<Item>, kind: Kind, field: string, i: nat)
    requires i <= |items|
    requires Totals(items[..i], kind, field).Err?
    ensures Totals(items, kind, field) == Err(AssertionError)
  {
    SelectedPrefixConsistentFails(items, kind, field, i);
  }

  lemma SelectedPrefixConsistentFails(items: seq<Item>, kind: Kind, field: string, i: nat)
    requires i <= |items|
    requires !Consistent(Selected(items[..i], kind, field))
    ensures !Consistent(Selected(items, kind, field))
  {
    if Consistent(Selected(items, kind, field)) {
      SelectedPrefixConsistent(items, kind, field, i);
    }
  }

  /** Exactly the picked lines are selected. */
  lemma {:induction false} SelectedMembers(items: seq<Item>, kind: Kind, field: string, x: Item)
    ensures x in Selected(items, kind, field) <==> exists i :: 0 <= i < |items| && items[i] == x && Picked(x, kind, field)
  {
    if items != [] {
      var front := items[..|items| - 1];
      SelectedMembers(front, kind, field, x);
      if x in Selected(front, kind, field) {
        var i :| 0 <= i < |front| && front[i] == x && Picked(x, kind, field);
        assert items[i] == x;
      }
      if exists i :: 0 <= i < |items| && items[i] == x && Picked(x, kind, field) {
        var i :| 0 <= i < |items| && items[i] == x && Picked(x, kind, field);
        if i < |front| {
          assert front[i] == x;
        }
      }
    }
  }

  /** Lines that all share one currency and one tax rate total without an assertion failure. */
  lemma {:induction false} UniformConsistent(items: seq<Item>, kind: Kind, field: string, currency: string, rate: Option<int>)
    requires forall i :: 0 <= i < |items| && Picked(items[i], kind, field) ==> items[i].currency == currency && items[i].taxRate == rate
    ensures Consistent(Selected(items, kind, field))
    ensures forall j :: 0 <= j < |Selected(items, kind, field)| ==>
      Selected(items, kind, field)[j].currency == currency && Selected(items, kind, field)[j].taxRate == rate
  {
    if items != [] {
      var front := items[..|items| - 1];
      assert forall i :: 0 <= i < |front| ==> front[i] == items[i];
      UniformConsistent(front, kind, field, currency, rate);
      var sel := Selected(front, kind, field);
      var last := items[|items| - 1];
      if Picked(last, kind, field) {
        ConsistentStep(sel, last);
        var t := sel + [last];
        assert forall j :: 0 <= j < |sel| ==> t[j] == sel[j];
      }
    }
  }

  function ItemsOf(ls: seq<FeeLine>): (r: seq<Item>)
    ensures |r| == |ls| && forall i :: 0 <= i < |r| ==> r[i] == ItemOf(ls[i])
  {
    seq(|ls|, i requires 0 <= i < |ls| => ItemOf(ls[i]))
  }

  /** Office lines in yen without tax followed by agent lines in yen at 10 percent total consistently. */
  lemma SplitLinesTotal(ls: seq<FeeLine>, k: nat)
    requires k < |ls|
    requires forall i :: 0 <= i < |ls| ==> ls[i].currency == "JPY"
    requires forall i :: 0 <= i < k ==> ls[i].kind == Office && ls[i].taxRate.None?
    requires forall i :: k <= i < |ls| ==> ls[i].kind == Agent && ls[i].taxRate == Some(10)
    ensures var items := ItemsOf(ls);
      && Totals(items, Agent, "Fee").Ok? && Totals(items, Agent, "Fee").value.1 == Some("JPY")
      && Totals(items, Agent, "Fee").value.2 == 10
    ensures var items := ItemsOf(ls);
      && Totals(items, Office, "Fee").Ok? && Totals(items, Office, "Fee").value.2 == 0
      && (Totals(items, Office, "Fee").value.1.None? <==> k == 0)
  {
    var items := ItemsOf(ls);
    UniformConsistent(items, Agent, "Fee", "JPY", Some(10));
    var sa := Selected(items, Agent, "Fee");
    SelectedMembers(items, Agent, "Fee", items[k]);
    assert sa != [] && sa[0].currency == "JPY" && sa[|sa| - 1].taxRate == Some(10);
    OfficeTotals(ls, k);
  }

  /** The office half of `SplitLinesTotal`: untaxed yen, and a currency exactly when some office line exists. */
  lemma OfficeTotals(ls: seq<FeeLine>, k: nat)
    requires k < |ls|
    requires forall i :: 0 <= i < |ls| ==> ls[i].currency == "JPY"
    requires forall i :: 0 <= i < k ==> ls[i].kind == Office && ls[i].taxRate.None?
    requires forall i :: k <= i < |ls| ==> ls[i].kind == Agent
    ensures var items := ItemsOf(ls);
      && Totals(items, Office, "Fee").Ok? && Totals(items, Office, "Fee").value.2 == 0
      && (Totals(items, Office, "Fee").value.1.None? <==> k == 0)
  {
    var items := ItemsOf(ls);
    UniformConsistent(items, Office, "Fee", "JPY", None);
    var so := Selected(items, Office, "Fee");
    if k == 0 {
      if so != [] {
        SelectedMembers(items, Office, "Fee", so[0]);
      }
    } else {
      SelectedMembers(items, Office, "Fee", items[0]);
      assert so != [] && so[|so| - 1].taxRate.None?;
    }
  }

  /**
   * An estimate always totals: its agent lines in yen at 10 percent, its office lines in
   * yen untaxed, or to nothing when it has no office line.
   */
  lemma EstimateTotals(p: Property, yearFrom: int, yearTo: int, years: int, classes: Option<int>, additional: bool, now: Instant)
    requires CommonUtil.WellFormed(p)
    requires Fees(p, yearFrom, yearTo, years, classes, additional, now).Ok?
    ensures var items := ItemsOf(Fees(p, yearFrom, yearTo, years, classes, additional, now).value);
      && Totals(items, Agent, "Fee").Ok?
      && Totals(items, Agent, "Fee").value.1 == Some("JPY")
      && Totals(items, Agent, "Fee").value.2 == 10
    ensures var items := ItemsOf(Fees(p, yearFrom, yearTo, years, classes, additional, now).value);
      && Totals(items, Office, "Fee").Ok?
      && Totals(items, Office, "Fee").value.2 == 0
      && (Totals(items, Office, "Fee").value.1.None? <==> MissingOfficeInputs(p, classes))
  {
    FeesLineOrder(p, yearFrom, yearTo, years, classes, additional, now);
    TaxOnAgentLinesOnly(p, yearFrom, yearTo, years, classes, additional, now);
    OfficeLinePresence(p, yearFrom, yearTo, years, classes, additional, now);
    OrderedLinesTotal(Fees(p, yearFrom, yearTo, years, classes, additional, now).value);
  }

  /** Office lines then agent lines, taxed as the assembler taxes them, total consistently. */
  lemma OrderedLinesTotal(ls: seq<FeeLine>)
    requires exists k ::
      && 0 <= k <= 2 && k < |ls| <= k + 3
      && (forall i :: 0 <= i < k ==> ls[i].kind == Office)
      && (forall i :: k <= i < |ls| ==> ls[i].kind == Agent)
      && ls[k].fee == 5000
    requires forall i :: 0 <= i < |ls| ==>
      && ls[i].currency == "JPY"
      && ls[i].taxRate == (if ls[i].kind == Agent then Some(10) else None)
    ensures var items := ItemsOf(ls);
      && Totals(items, Agent, "Fee").Ok?
      && Totals(items, Agent, "Fee").value.1 == Some("JPY")
      && Totals(items, Agent, "Fee").value.2 == 10
    ensures var items := ItemsOf(ls);
      && Totals(items, Office, "Fee").Ok?
      && Totals(items, Office, "Fee").value.2 == 0
      && (Totals(items, Office, "Fee").value.1.None? <==> ls[0].kind != Office)
  {
    var k :| && 0 <= k <= 2 && k < |ls| <= k + 3
             && (forall i :: 0 <= i < k ==> ls[i].kind == Office)
             && (forall i :: k <= i < |ls| ==> ls[i].kind == Agent)
             && ls[k].fee == 5000;
    SplitLinesTotal(ls, k);
  }
}
