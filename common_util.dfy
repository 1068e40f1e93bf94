/**
 * The eligibility evaluator of the renewal engine and the small helpers around it:
 * year counting, the next deadline, the order of trademark classes, registration
 * number normalisation and the fee-reduction guess from a holder's name.
 */
module CommonUtil {
  import opened Wrappers
  import opened Dates
  import opened Text
  import opened Props
  import JpCalendar
  import Sorting

  // ---------------------------------------------------------------- counting years

  /** `add_months(d, 12·n)`: the `n`-th anniversary of `d`, clamped to the end of a short February. */
  function Anniversary(d: Date, n: int): Date {
    JpCalendar.MonthShift(d, 12 * n)
  }

  lemma AnniversaryFacts(d: Date, n: int)
    requires Valid(d)
    ensures Valid(Anniversary(d, n))
    ensures Anniversary(d, n).year == d.year + n && Anniversary(d, n).month == d.month
  {
    JpCalendar.MonthShiftYears(d, n);
    JpCalendar.MonthShiftShape(d, 12 * n);
  }

  lemma AnniversariesInEarlierYears(reg: Date, dead: Date)
    requires Valid(reg) && Valid(dead)
    ensures forall j :: 0 <= j < dead.year - reg.year ==> Before(Anniversary(reg, j), dead)
  {
    forall j | 0 <= j < dead.year - reg.year ensures Before(Anniversary(reg, j), dead) {
      AnniversaryFacts(reg, j);
    }
  }

  /** The number of whole years after `reg` that first reaches `dead`, in closed form. */
  function YearsToReach(reg: Date, dead: Date): (n: nat)
    requires Valid(reg) && Valid(dead)
    ensures !Before(Anniversary(reg, n), dead)
    ensures forall j :: 0 <= j < n ==> Before(Anniversary(reg, j), dead)
  {
    JpCalendar.MonthShiftZero(reg);
    if !Before(reg, dead) then 0
    else
      var k := dead.year - reg.year;
      AnniversaryFacts(reg, k);
      AnniversaryFacts(reg, k + 1);
      AnniversariesInEarlierYears(reg, dead);
      if Before(Anniversary(reg, k), dead) then k + 1 else k
  }

  /** Any count with the two properties of `YearsToReach` is `YearsToReach`. */
  lemma YearsToReachUnique(reg: Date, dead: Date, n: nat)
    requires Valid(reg) && Valid(dead)
    requires !Before(Anniversary(reg, n), dead)
    requires forall j :: 0 <= j < n ==> Before(Anniversary(reg, j), dead)
    ensures n == YearsToReach(reg, dead)
  {
    var m := YearsToReach(reg, dead);
  }

  /** `diff_years`: count the anniversaries of `reg` that fall before `dead`. */
  method DiffYears(reg: Date, dead: Date) returns (i: nat)
    requires Valid(reg) && Valid(dead)
    ensures i == YearsToReach(reg, dead)
  {
    i := 0;
    var d := JpCalendar.AddMonths(reg, 0, false);
    while Before(d, dead)
      invariant d == Anniversary(reg, i)
      invariant forall j :: 0 <= j < i ==> Before(Anniversary(reg, j), dead)
      decreases dead.year - reg.year - i
    {
      AnniversaryFacts(reg, i);
      i := i + 1;
      d := JpCalendar.AddMonths(reg, 12 * i, false);
    }
    YearsToReachUnique(reg, dead, i);
  }

  /** `add_years` inside `is_requestable_core` as written: `datetime(y + n, m, d)` raises when the day does not exist. */
  function AddYearsAsWritten(d: Date, n: int): Result<Date, Exception> {
    if Valid(Date(d.year + n, d.month, d.day)) then Ok(Date(d.year + n, d.month, d.day)) else Err(ValueError)
  }

  /** The `max_year` loop of `is_requestable_core` as written, from `max_year = i`. */
  function MaxYearScanAsWritten(reg: Date, exp: Date, i: nat): Result<nat, Exception>
    decreases exp.year - reg.year - i
  {
    match AddYearsAsWritten(reg, i)
    case Err(e) => Err(e)
    case Ok(d) => if Before(d, exp) then MaxYearScanAsWritten(reg, exp, i + 1) else Ok(i)
  }

  /**
   * A patent registered on 29 February 2016 and expiring on 1 May 2034: the loop as written
   * raises `ValueError` on 29 February 2017, while counting with the calendar's month
   * arithmetic gives 19 years.
   */
  lemma LeapDayRegistrationRaises()
    ensures MaxYearScanAsWritten(Date(2016, 2, 29), Date(2034, 5, 1), 0) == Err(ValueError)
    ensures YearsToReach(Date(2016, 2, 29), Date(2034, 5, 1)) == 19
  {
    assert AddYearsAsWritten(Date(2016, 2, 29), 0) == Ok(Date(2016, 2, 29));
    assert AddYearsAsWritten(Date(2016, 2, 29), 1) == Err(ValueError);
    assert MaxYearScanAsWritten(Date(2016, 2, 29), Date(2034, 5, 1), 1) == Err(ValueError);
    AnniversaryFacts(Date(2016, 2, 29), 18);
  }

  /** The pure years count of `diff_years` on a date of every year agrees with the loop as written. */
  lemma {:induction false} ScanAgreesAwayFromLeapDay(reg: Date, exp: Date, i: nat)
    requires Valid(reg) && Valid(exp) && reg.day <= 28
    requires forall j :: 0 <= j < i ==> Before(Anniversary(reg, j), exp)
    ensures MaxYearScanAsWritten(reg, exp, i) == Ok(YearsToReach(reg, exp))
    decreases exp.year - reg.year - i
  {
    AnniversaryFacts(reg, i);
    assert Anniversary(reg, i) == Date(reg.year + i, reg.month, reg.day);
    if Before(Anniversary(reg, i), exp) {
      ScanAgreesAwayFromLeapDay(reg, exp, i + 1);
    } else {
      YearsToReachUnique(reg, exp, i);
    }
  }

  /** `next_limit`: the deadline after `paidYearsTo` paid years is that anniversary of the registration. */
  function NextLimit(reg: Date, paidYearsTo: int): (d: Date)
    requires Valid(reg)
    ensures Valid(d) && d.year == reg.year + paidYearsTo && d.month == reg.month
    ensures d.day == if reg.day <= DaysInMonth(d.year, d.month) then reg.day else DaysInMonth(d.year, d.month)
  {
    AnniversaryFacts(reg, paidYearsTo);
    JpCalendar.MonthShiftShape(reg, 12 * paidYearsTo);
    Anniversary(reg, paidYearsTo)
  }

  /** `add_months(d, 120·n)`: the `n`-th ten-year renewal date of a trademark registered on `d`. */
  function Decade(d: Date, n: int): Date {
    JpCalendar.MonthShift(d, 120 * n)
  }

  /** The `n`-th ten-year date is `n · 12 · 10` months on, ten years later per step, and the registration itself at 0. */
  lemma DecadeShape(reg: Date, n: int)
    requires Valid(reg)
    ensures Decade(reg, n) == JpCalendar.MonthShift(reg, n * 12 * 10)
    ensures Decade(reg, n).year == reg.year + 10 * n
    ensures n == 0 ==> Decade(reg, n) == reg
  {
    JpCalendar.MonthShiftYears(reg, 10 * n);
    assert 12 * (10 * n) == 120 * n == n * 12 * 10;
    if n == 0 {
      JpCalendar.MonthShiftZero(reg);
    }
  }

  /** The day `next_limit_tm` measures from: today, or today moved `forward` years. */
  function ReferenceDay(today: Date, forward: int): Date {
    if forward != 0 then JpCalendar.MonthShift(today, 12 * forward) else today
  }

  /**
   * `next_limit_tm`: the first of `reg`, `reg` + 10 years, `reg` + 20 years, … that is not
   * before the reference day.
   */
  method NextLimitTm(reg: Date, today: Date, forward: int) returns (d: Date)
    requires Valid(reg) && Valid(today)
    ensures exists n: nat ::
      && d == Decade(reg, n)
      && !Before(d, ReferenceDay(today, forward))
      && (forall j :: 0 <= j < n ==> Before(Decade(reg, j), ReferenceDay(today, forward)))
  {
    var n: nat := 0;
    d := reg;
    var base := today;
    if forward != 0 {
      base := JpCalendar.AddMonths(today, 12 * forward, false);
    }
    JpCalendar.MonthShiftZero(reg);
    var dt := d;
    while Before(dt, base)
      invariant dt == Decade(reg, n)
      invariant forall j :: 0 <= j < n ==> Before(Decade(reg, j), base)
      decreases base.year - reg.year - 10 * n
    {
      DecadeShape(reg, n);
      n := n + 1;
      DecadeShape(reg, n);
      dt := JpCalendar.AddMonths(reg, (n * 12) * 10, false);
    }
    d := dt;
  }

  // ---------------------------------------------------------------- eligibility

  /** Why a right cannot be requested now. */
  datatype Reason =
    | NoData | Disappered | AlreadySelected | MissNextProcedureLimit | PassLimit | TooEarly
    | MissRegistrationDate | MissExpirationDate | MissHolders | MissExamClaimedDate
    | MissNumberOfClaims | MissClasses | AlreadyRequested | AlreadyRequestedAndDone

  /**
   * The tuple the evaluator returns: `(True, None, max_year, additional)` or
   * `(False, reason, years, False)`.
   */
  datatype Verdict = Requestable(maxYear: int, additional: bool) | Refused(reason: Reason, years: int)

  /** The checks of `is_requestable_core`, in the order they are made. */
  datatype Check =
    | NoRecord | DisappearedFlag | Expired | InCart | NoLimit | PastLimit | BeforeWindow
    | NoRegistration | NoExpiration | NoHolders | NoExamClaim | NoClaims | NoClasses | NoYearsLeft

  function ReasonOf(c: Check): Reason {
    match c
    case NoRecord => NoData
    case DisappearedFlag => Disappered
    case Expired => Disappered
    case InCart => AlreadySelected
    case NoLimit => MissNextProcedureLimit
    case PastLimit => PassLimit
    case BeforeWindow => TooEarly
    case NoRegistration => MissRegistrationDate
    case NoExpiration => MissExpirationDate
    case NoHolders => MissHolders
    case NoExamClaim => MissExamClaimedDate
    case NoClaims => MissNumberOfClaims
    case NoClasses => MissClasses
    case NoYearsLeft => PassLimit
  }

  /** Every date of the record is a real calendar date, as a stored `datetime` is. */
  predicate WellFormed(p: Property) {
    (p.disappearanceDate.Some? ==> Valid(p.disappearanceDate.value)) &&
    (p.applicationDate.Some? ==> Valid(p.applicationDate.value)) &&
    (p.registrationDate.Some? ==> Valid(p.registrationDate.value)) &&
    (p.examClaimedDate.Some? ==> Valid(p.examClaimedDate.value)) &&
    (p.expirationDate.Some? ==> Valid(p.expirationDate.value)) &&
    (p.limit.Some? ==> Valid(p.limit.value)) &&
    (p.openDate.Some? ==> Valid(p.openDate.value)) &&
    (p.lastLimit.Some? ==> Valid(p.lastLimit.value)) &&
    (p.registrationPaymentDate.Some? ==> Valid(p.registrationPaymentDate.value)) &&
    (p.registrationInvestigatedDate.Some? ==> Valid(p.registrationInvestigatedDate.value)) &&
    (p.renewPaymentDate.Some? ==> Valid(p.renewPaymentDate.value))
  }

  /** Past the end of the right: the late-payment limit, or the expiration (plus six months for a Japanese trademark). */
  predicate HasExpired(p: Property, today: Date) {
    p.expirationDate.Some? &&
    if p.lastLimit.Some? then Before(p.lastLimit.value, today)
    else if !IsJpTrademark(p) then Before(p.expirationDate.value, today)
    else Before(JpCalendar.MonthShift(p.expirationDate.value, 6), today)
  }

  /** Past the last day a payment is accepted. */
  predicate HasPassedLimit(p: Property, today: Date)
    requires p.limit.Some?
  {
    if IsJp(p) then
      if p.lastLimit.Some? then Before(p.lastLimit.value, today)
      else Before(JpCalendar.MonthShift(p.limit.value, 6), today)
    else Before(p.limit.value, today)
  }

  /** A Japanese trademark due for renewal (paid years absent or 10) more than six months before its deadline. */
  predicate IsTooEarly(p: Property, today: Date)
    requires p.limit.Some?
  {
    IsJpTrademark(p) && (p.paidYears.None? || p.paidYears.value == 10) &&
    Before(today, JpCalendar.MonthShift(p.limit.value, -6))
  }

  /** The fields the payable-years count needs are present. */
  predicate YearsComputable(p: Property) {
    IsJp(p) && p.law != Trademark ==> p.registrationDate.Some? && p.expirationDate.Some?
  }

  /**
   * The number of years that can be paid now: 5 or 10 for a Japanese trademark, the years
   * left to expiry for the other Japanese rights, and 99 abroad.
   */
  function MaxYear(p: Property): int
    requires WellFormed(p) && YearsComputable(p)
  {
    if IsJp(p) then
      if p.law == Trademark then (if PaidOrZero(p) == 5 then 5 else 10)
      else YearsToReach(p.registrationDate.value, p.expirationDate.value) - PaidOrZero(p)
    else 99
  }

  /** Whether check `c` fails for the record. */
  predicate Fails(r: Option<Property>, today: Date, considerCart: bool, c: Check)
    requires r.Some? ==> WellFormed(r.value)
  {
    match c
    case NoRecord => r.None?
    case DisappearedFlag => r.Some? && (r.value.disappeared || r.value.disappearanceDate.Some?)
    case Expired => r.Some? && HasExpired(r.value, today)
    case InCart => r.Some? && considerCart && r.value.cart.Some? && r.value.cart.value.years > 0
    case NoLimit => r.Some? && r.value.limit.None?
    case PastLimit => r.Some? && r.value.limit.Some? && HasPassedLimit(r.value, today)
    case BeforeWindow => r.Some? && r.value.limit.Some? && IsTooEarly(r.value, today)
    case NoRegistration => r.Some? && IsJp(r.value) && r.value.registrationDate.None?
    case NoExpiration => r.Some? && IsJp(r.value) && r.value.expirationDate.None?
    case NoHolders => r.Some? && (r.value.holders.None? || |r.value.holders.value| == 0)
    case NoExamClaim => r.Some? && IsJp(r.value) && r.value.law == Patent && r.value.examClaimedDate.None?
    case NoClaims =>
      r.Some? && IsJp(r.value) && (r.value.law == Patent || r.value.law == Utility) && r.value.numberOfClaims.None?
    case NoClasses =>
      r.Some? && IsJpTrademark(r.value) && (r.value.classes.None? || |r.value.classes.value| == 0)
    case NoYearsLeft => r.Some? && YearsComputable(r.value) && MaxYear(r.value) < 1
  }

  /** The index of a check in the order of evaluation. */
  function Rank(c: Check): nat {
    match c
    case NoRecord => 0
    case DisappearedFlag => 1
    case Expired => 2
    case InCart => 3
    case NoLimit => 4
    case PastLimit => 5
    case BeforeWindow => 6
    case NoRegistration => 7
    case NoExpiration => 8
    case NoHolders => 9
    case NoExamClaim => 10
    case NoClaims => 11
    case NoClasses => 12
    case NoYearsLeft => 13
  }

  /** The refusal a failing check produces: its reason, with 10 years for a trademark asked too early. */
  function Refusal(c: Check): Verdict {
    Refused(ReasonOf(c), if c == BeforeWindow then 10 else 0)
  }

  /** The first of the checks on the right's standing (lapse, cart, deadline, filing window) that fails. */
  function StandingFailure(p: Property, today: Date, considerCart: bool): (c: Option<Check>)
    requires WellFormed(p)
    ensures c.Some? ==> Fails(Some(p), today, considerCart, c.value) && 1 <= Rank(c.value) <= 6
    ensures c.None? ==> p.limit.Some?
  {
    if p.disappeared || p.disappearanceDate.Some? then Some(DisappearedFlag)
    else if HasExpired(p, today) then Some(Expired)
    else if considerCart && p.cart.Some? && p.cart.value.years > 0 then Some(InCart)
    else if p.limit.None? then Some(NoLimit)
    else if HasPassedLimit(p, today) then Some(PastLimit)
    else if IsTooEarly(p, today) then Some(BeforeWindow)
    else None
  }

  /** The first field the request needs that the record lacks. */
  function MissingField(p: Property): (c: Option<Check>)
    ensures c.Some? ==> 7 <= Rank(c.value) <= 12
    ensures c.None? ==> YearsComputable(p)
  {
    if IsJp(p) && p.registrationDate.None? then Some(NoRegistration)
    else if IsJp(p) && p.expirationDate.None? then Some(NoExpiration)
    else if p.holders.None? || |p.holders.value| == 0 then Some(NoHolders)
    else if IsJp(p) && p.law == Patent && p.examClaimedDate.None? then Some(NoExamClaim)
    else if IsJp(p) && (p.law == Patent || p.law == Utility) && p.numberOfClaims.None? then Some(NoClaims)
    else if IsJpTrademark(p) && (p.classes.None? || |p.classes.value| == 0) then Some(NoClasses)
    else None
  }

  /** The check on which `is_requestable_core` returns early, if any. */
  function FirstFailed(r: Option<Property>, today: Date, considerCart: bool): (c: Option<Check>)
    requires r.Some? ==> WellFormed(r.value)
    ensures c.None? ==> r.Some? && r.value.limit.Some? && YearsComputable(r.value) && MaxYear(r.value) >= 1
  {
    if r.None? then Some(NoRecord)
    else
      var p := r.value;
      match StandingFailure(p, today, considerCart)
      case Some(c) => Some(c)
      case None =>
        match MissingField(p)
        case Some(c) => Some(c)
        case None => if MaxYear(p) < 1 then Some(NoYearsLeft) else None
  }

  /** `is_requestable_core`: refuse on the first failing check, otherwise grant the payable years. */
  function CoreVerdict(r: Option<Property>, today: Date, considerCart: bool): Verdict
    requires r.Some? ==> WellFormed(r.value)
  {
    match FirstFailed(r, today, considerCart)
    case Some(c) => Refusal(c)
    case None => Requestable(MaxYear(r.value), Before(r.value.limit.value, today))
  }

  /** The check the evaluator stops on fails, and every check made before it passes. */
  lemma FirstFailedIsFirst(r: Option<Property>, today: Date, considerCart: bool)
    requires r.Some? ==> WellFormed(r.value)
    requires FirstFailed(r, today, considerCart).Some?
    ensures var c := FirstFailed(r, today, considerCart).value;
      Fails(r, today, considerCart, c) &&
      forall e :: Rank(e) < Rank(c) ==> !Fails(r, today, considerCart, e)
  {
    var c := FirstFailed(r, today, considerCart).value;
    forall e | Rank(e) < Rank(c) ensures !Fails(r, today, considerCart, e) {
      if r.Some? && 1 <= Rank(e) <= 6 {
        StandingPasses(r.value, today, considerCart, e);
      } else if r.Some? && 7 <= Rank(e) {
        MissingPasses(r.value, today, considerCart, e);
      }
    }
  }

  /** A standing check ranked before the first failing one passes. */
  lemma StandingPasses(p: Property, today: Date, considerCart: bool, e: Check)
    requires WellFormed(p) && 1 <= Rank(e) <= 6
    requires var s := StandingFailure(p, today, considerCart); s.None? || Rank(e) < Rank(s.value)
    ensures !Fails(Some(p), today, considerCart, e)
  {
  }

  /** A field check ranked before the first missing field passes. */
  lemma MissingPasses(p: Property, today: Date, considerCart: bool, e: Check)
    requires WellFormed(p) && 7 <= Rank(e) <= 12
    requires var m := MissingField(p); m.None? || Rank(e) < Rank(m.value)
    ensures !Fails(Some(p), today, considerCart, e)
  {
  }

  /** The evaluator stops on no check exactly when every check passes. */
  lemma NoFailedMeansAllPass(r: Option<Property>, today: Date, considerCart: bool)
    requires r.Some? ==> WellFormed(r.value)
    ensures FirstFailed(r, today, considerCart).None? <==> forall e :: !Fails(r, today, considerCart, e)
  {
    if FirstFailed(r, today, considerCart).None? {
      forall e ensures !Fails(r, today, considerCart, e) {
      }
    } else {
      FirstFailedIsFirst(r, today, considerCart);
    }
  }

  /**
   * The evaluator refuses exactly when some check fails, with the reason of the first one in
   * evaluation order; otherwise it grants at least one payable year and flags the late period.
   */
  lemma VerdictIsFirstFailure(r: Option<Property>, today: Date, considerCart: bool)
    requires r.Some? ==> WellFormed(r.value)
    ensures var v := CoreVerdict(r, today, considerCart);
      (v.Refused? <==> exists c :: Fails(r, today, considerCart, c)) &&
      (v.Refused? ==> exists c ::
        Fails(r, today, considerCart, c) && ReasonOf(c) == v.reason &&
        v.years == (if c == BeforeWindow then 10 else 0) &&
        forall e :: Rank(e) < Rank(c) ==> !Fails(r, today, considerCart, e)) &&
      (v.Requestable? ==>
        && r.Some? && r.value.limit.Some? && YearsComputable(r.value)
        && v.maxYear == MaxYear(r.value) && v.maxYear >= 1
        && (v.additional <==> Before(r.value.limit.value, today)))
  {
    NoFailedMeansAllPass(r, today, considerCart);
    if FirstFailed(r, today, considerCart).Some? {
      FirstFailedIsFirst(r, today, considerCart);
    }
  }

  /**
   * A Japanese trademark due for renewal that passes the earlier checks is refused as too
   * early, with 10 years, exactly while today is more than six months before its deadline.
   */
  lemma TooEarlyExactlyBeforeWindow(p: Property, today: Date, considerCart: bool)
    requires WellFormed(p) && IsJpTrademark(p) && p.limit.Some?
    requires p.paidYears.None? || p.paidYears.value == 10
    requires forall e :: Rank(e) < Rank(BeforeWindow) ==> !Fails(Some(p), today, considerCart, e)
    ensures CoreVerdict(Some(p), today, considerCart) == Refused(TooEarly, 10) <==>
      Before(today, JpCalendar.MonthShift(p.limit.value, -6))
  {
    var r := Some(p);
    if FirstFailed(r, today, considerCart).Some? {
      FirstFailedIsFirst(r, today, considerCart);
    } else {
      NoFailedMeansAllPass(r, today, considerCart);
      assert !Fails(r, today, considerCart, BeforeWindow);
    }
  }

  /** The standing checks of `is_requestable_core`, in the order the source makes them. */
  method CheckStanding(p: Property, today: Date, considerCart: bool) returns (c: Option<Check>)
    requires WellFormed(p)
    ensures c == StandingFailure(p, today, considerCart)
  {
    if p.disappeared || p.disappearanceDate.Some? {
      return Some(DisappearedFlag);
    }
    if p.expirationDate.Some? {
      if p.law != Trademark || p.country != "JP" {
        if p.lastLimit.Some? {
          if Before(p.lastLimit.value, today) {
            return Some(Expired);
          }
        } else if Before(p.expirationDate.value, today) {
          return Some(Expired);
        }
      } else {
        if p.lastLimit.Some? {
          if Before(p.lastLimit.value, today) {
            return Some(Expired);
          }
        } else {
          var d := JpCalendar.AddMonths(p.expirationDate.value, 6, false);
          if Before(d, today) {
            return Some(Expired);
          }
        }
      }
    }
    if considerCart {
      if p.cart.Some? && p.cart.value.years > 0 {
        return Some(InCart);
      }
    }
    if p.limit.None? {
      return Some(NoLimit);
    }
    if p.country == "JP" {
      if p.lastLimit.Some? {
        if Before(p.lastLimit.value, today) {
          return Some(PastLimit);
        }
      } else {
        var d := JpCalendar.AddMonths(p.limit.value, 6, false);
        if Before(d, today) {
          return Some(PastLimit);
        }
      }
    } else if Before(p.limit.value, today) {
      return Some(PastLimit);
    }
    if p.country == "JP" && p.law == Trademark {
      var paid := 10;
      if p.paidYears.Some? {
        paid := p.paidYears.value;
      }
      var opening := JpCalendar.AddMonths(p.limit.value, -6, false);
      if Before(today, opening) && paid == 10 {
        return Some(BeforeWindow);
      }
    }
    return None;
  }

  /** The missing-field checks of `is_requestable_core`, in the order the source makes them. */
  method CheckFields(p: Property) returns (c: Option<Check>)
    ensures c == MissingField(p)
  {
    if p.country == "JP" {
      if p.registrationDate.None? {
        return Some(NoRegistration);
      }
      if p.expirationDate.None? {
        return Some(NoExpiration);
      }
    }
    if p.holders.None? || |p.holders.value| == 0 {
      return Some(NoHolders);
    }
    if p.country == "JP" && p.law == Patent {
      if p.examClaimedDate.None? {
        return Some(NoExamClaim);
      }
    }
    if p.country == "JP" && (p.law == Patent || p.law == Utility) {
      if p.numberOfClaims.None? {
        return Some(NoClaims);
      }
    }
    if p.country == "JP" && p.law == Trademark {
      if p.classes.None? || |p.classes.value| == 0 {
        return Some(NoClasses);
      }
    }
    return None;
  }

  /** `is_requestable_core`: the checks in order with early returns, then the payable-years count. */
  method IsRequestableCore(r: Option<Property>, today: Date, considerCart: bool) returns (v: Verdict)
    requires r.Some? ==> WellFormed(r.value)
    ensures v == CoreVerdict(r, today, considerCart)
  {
    if r.None? {
      return Refusal(NoRecord);
    }
    var p := r.value;
    var failed := CheckStanding(p, today, considerCart);
    if failed.Some? {
      return Refusal(failed.value);
    }
    failed := CheckFields(p);
    if failed.Some? {
      return Refusal(failed.value);
    }
    var maxYear: int;
    if p.country == "JP" {
      var paid := if p.paidYears.Some? then p.paidYears.value else 0;
      if p.law == Trademark {
        maxYear := if paid == 5 then 5 else 10;
      } else {
        maxYear := DiffYears(p.registrationDate.value, p.expirationDate.value);
        if p.paidYears.Some? {
          maxYear := maxYear - p.paidYears.value;
        }
      }
    } else {
      maxYear := 99;
    }
    if maxYear < 1 {
      return Refusal(NoYearsLeft);
    }
    var additional := false;
    if Before(p.limit.value, today) {
      additional := true;
    }
    return Requestable(maxYear, additional);
  }

  /**
   * `is_requestable` on top of the core verdict: a request in flight overrides everything,
   * and an eligible right with an open request or one completed within 183 days is treated as done.
   */
  function IsRequestable(core: Verdict, considerRequest: bool, inFlight: bool, recentlyRequested: bool): (v: Verdict)
    ensures considerRequest && inFlight ==> v == Refused(AlreadyRequested, 0)
    ensures v.Requestable? <==> core.Requestable? && !(considerRequest && inFlight) && !recentlyRequested
    ensures v.Requestable? ==> v == core
    ensures !(considerRequest && inFlight) && core.Refused? ==> v == core
    ensures !(considerRequest && inFlight) && core.Requestable? && recentlyRequested ==>
      v == Refused(AlreadyRequestedAndDone, 0)
  {
    if considerRequest && inFlight then Refused(AlreadyRequested, 0)
    else if core.Requestable? && recentlyRequested then Refused(AlreadyRequestedAndDone, 0)
    else core
  }

  /** The worked example of the payable-years count: registered 2015-01-01, expiring 2035-01-01, 9 years paid. */
  lemma MaxYearExample(p: Property)
    requires WellFormed(p) && IsJp(p) && p.law == Patent
    requires p.registrationDate == Some(Date(2015, 1, 1)) && p.expirationDate == Some(Date(2035, 1, 1))
    requires p.paidYears == Some(9)
    ensures MaxYear(p) == 11
  {
    AnniversaryFacts(Date(2015, 1, 1), 20);
  }

  // ---------------------------------------------------------------- numbers

  /** The input of `pad0` without its leading zeros. */
  function Unzeroed(origin: string): string {
    DropLeading(origin, '0')
  }

  /** The first line of the unzeroed input: what `(\\d+)(.*)` can match. */
  function ZLine(origin: string): string {
    FirstLine(Unzeroed(origin))
  }

  /** The leading digit run `pad0` pads. */
  function LeadDigits(origin: string): string {
    DigitPrefix(ZLine(origin))
  }

  /** The rest of the first line, kept after the digit run. */
  function LineRest(origin: string): string {
    ZLine(origin)[|LeadDigits(origin)|..]
  }

  /**
   * `pad0`: drop the leading zeros, left-pad the leading digit run with zeros to `length` and
   * keep the rest of the first line. Without a digit run the source returns a name it never
   * bound, which raises.
   */
  function Pad0(origin: string, length: nat): (r: Result<string, Exception>)
    ensures var t := Unzeroed(origin); r.Err? <==> t == [] || !IsDigit(t[0])
    ensures r.Err? ==> r.error == UnboundLocalError
  {
    if LeadDigits(origin) == [] then Err(UnboundLocalError)
    else Ok(PadLeft(LeadDigits(origin), length) + LineRest(origin))
  }

  /** `FirstLine` of a string made of a line and what starts at its line break. */
  lemma FirstLineAppend(a: string, b: string)
    requires '\n' !in a && (b == [] || b[0] == '\n')
    ensures FirstLine(a + b) == a
  {
    assert (a + b)[..|a|] == a;
    if b != [] {
      assert (a + b)[|a|] == '\n';
    }
  }

  /** Dropping a run of `c` in front of a string that does not start with `c`. */
  lemma {:induction false} DropLeadingAppend(z: string, x: string, c: char)
    requires forall i :: 0 <= i < |z| ==> z[i] == c
    requires x == [] || x[0] != c
    ensures DropLeading(z + x, c) == x
  {
    if z != [] {
      assert (z + x)[1..] == z[1..] + x;
      DropLeadingAppend(z[1..], x, c);
    }
  }

  /** The leading zeros `pad0` drops. */
  function LeadZeros(origin: string): string {
    origin[..|origin| - |Unzeroed(origin)|]
  }

  /** The lines after the first, which `pad0` drops. */
  function MoreLines(origin: string): string {
    Unzeroed(origin)[|ZLine(origin)|..]
  }

  lemma ZerosThenRest(origin: string)
    ensures origin == LeadZeros(origin) + Unzeroed(origin)
    ensures forall i :: 0 <= i < |LeadZeros(origin)| ==> LeadZeros(origin)[i] == '0'
  {
  }

  lemma LineThenMore(origin: string)
    ensures Unzeroed(origin) == ZLine(origin) + MoreLines(origin)
    ensures MoreLines(origin) == [] || MoreLines(origin)[0] == '\n'
  {
  }

  lemma DigitsThenRest(origin: string)
    ensures ZLine(origin) == LeadDigits(origin) + LineRest(origin)
  {
  }

  /** Nothing after the digit run starts with a digit, and the run itself starts with no zero. */
  lemma AfterDigits(origin: string)
    ensures LineRest(origin) + MoreLines(origin) == [] || !IsDigit((LineRest(origin) + MoreLines(origin))[0])
    ensures LineRest(origin) == [] || !IsDigit(LineRest(origin)[0])
    ensures LeadDigits(origin) != [] ==> LeadDigits(origin)[0] != '0'
  {
    RestNotDigit(origin);
    LeadNotZero(origin);
    LineThenMore(origin);
    var a, b := LineRest(origin), MoreLines(origin);
    if a != [] {
      assert (a + b)[0] == a[0];
    } else if b != [] {
      assert (a + b)[0] == b[0] == '\n';
    }
  }

  lemma RestNotDigit(origin: string)
    ensures LineRest(origin) == [] || !IsDigit(LineRest(origin)[0])
  {
    var z, l := ZLine(origin), LeadDigits(origin);
    if |l| < |z| {
      assert LineRest(origin)[0] == z[|l|];
    }
  }

  lemma LeadNotZero(origin: string)
    ensures LeadDigits(origin) != [] ==> LeadDigits(origin)[0] != '0'
  {
    var u, z, l := Unzeroed(origin), ZLine(origin), LeadDigits(origin);
    if l != [] {
      assert l[0] == z[0] == u[0];
    }
  }

  /** The digit run of the result is the padded digit run of the input. */
  lemma Pad0DigitRun(origin: string, length: nat)
    requires Pad0(origin, length).Ok?
    ensures DigitPrefix(Pad0(origin, length).value) == PadLeft(LeadDigits(origin), length)
  {
    AfterDigits(origin);
    PaddedValue(LeadDigits(origin), length);
    DigitPrefixAppend(PadLeft(LeadDigits(origin), length), LineRest(origin));
  }

  lemma Regroup(a: string, b: string, c: string, d: string)
    ensures a + ((b + c) + d) == (a + b) + (c + d) == (a + b + c) + d
  {
  }

  /** The digit run of the input is its leading zeros followed by the digit run `pad0` pads. */
  lemma InputDigitRun(origin: string)
    ensures DigitPrefix(origin) == LeadZeros(origin) + LeadDigits(origin)
  {
    var z, digits, rest, more := LeadZeros(origin), LeadDigits(origin), LineRest(origin), MoreLines(origin);
    ZerosThenRest(origin);
    LineThenMore(origin);
    DigitsThenRest(origin);
    AfterDigits(origin);
    Regroup(z, digits, rest, more);
    DigitPrefixAppend(z + digits, rest + more);
  }

  /** The first line of the input is its leading zeros, the digit run and the rest of the line. */
  lemma InputFirstLine(origin: string)
    ensures FirstLine(origin) == LeadZeros(origin) + LeadDigits(origin) + LineRest(origin)
  {
    var z, digits, rest, more := LeadZeros(origin), LeadDigits(origin), LineRest(origin), MoreLines(origin);
    ZerosThenRest(origin);
    LineThenMore(origin);
    DigitsThenRest(origin);
    Regroup(z, digits, rest, more);
    FirstLineAppend(z + digits + rest, more);
  }

  /**
   * What `pad0` promises: the leading digit run of the result is at least `length` long and
   * reads the same number as the input's, the result goes on with the same text that follows
   * the digit run in the input's first line, and no line break survives.
   */
  lemma Pad0Meaning(origin: string, length: nat)
    requires Pad0(origin, length).Ok?
    ensures var v := Pad0(origin, length).value;
      var d := DigitPrefix(v);
      && |d| >= length
      && DigitsValue(d) == DigitsValue(DigitPrefix(origin))
      && v == d + LineRest(origin)
      && FirstLine(origin) == DigitPrefix(origin) + LineRest(origin)
      && '\n' !in v
  {
    Pad0DigitRun(origin, length);
    Pad0KeepsValue(origin, length);
    Pad0KeepsRest(origin, length);
    DigitsThenRest(origin);
  }

  lemma Pad0KeepsValue(origin: string, length: nat)
    requires Pad0(origin, length).Ok?
    ensures DigitsValue(DigitPrefix(Pad0(origin, length).value)) == DigitsValue(DigitPrefix(origin))
  {
    Pad0DigitRun(origin, length);
    PaddedValue(LeadDigits(origin), length);
    InputDigitRun(origin);
    ZerosThenRest(origin);
    LeadingZerosValue(LeadZeros(origin), LeadDigits(origin));
  }

  lemma Pad0KeepsRest(origin: string, length: nat)
    requires Pad0(origin, length).Ok?
    ensures var v := Pad0(origin, length).value;
      && v == DigitPrefix(v) + LineRest(origin)
      && FirstLine(origin) == DigitPrefix(origin) + LineRest(origin)
  {
    Pad0DigitRun(origin, length);
    InputDigitRun(origin);
    InputFirstLine(origin);
  }

  /** Zero-padding keeps a digit string's value. */
  lemma PaddedValue(digits: string, length: nat)
    requires AllDigits(digits)
    ensures AllDigits(PadLeft(digits, length))
    ensures DigitsValue(PadLeft(digits, length)) == DigitsValue(digits)
  {
    var padded := PadLeft(digits, length);
    var zeros := padded[..|padded| - |digits|];
    assert padded == zeros + digits;
    LeadingZerosValue(zeros, digits);
  }

  /** Padding an already padded number changes nothing. */
  lemma Pad0Idempotent(origin: string, length: nat)
    requires Pad0(origin, length).Ok?
    ensures Pad0(Pad0(origin, length).value, length) == Pad0(origin, length)
  {
    var digits, rest := LeadDigits(origin), LineRest(origin);
    AfterDigits(origin);
    DigitsThenRest(origin);
    assert '\n' !in digits + rest;
    PaddedParts(digits, rest, length);
  }

  /** Re-reading a padded digit run followed by the rest of its line gives back the same parts. */
  lemma PaddedParts(digits: string, rest: string, length: nat)
    requires AllDigits(digits) && digits != [] && digits[0] != '0'
    requires rest == [] || !IsDigit(rest[0])
    requires '\n' !in digits + rest
    ensures LeadDigits(PadLeft(digits, length) + rest) == digits
    ensures LineRest(PadLeft(digits, length) + rest) == rest
  {
    var padded := PadLeft(digits, length);
    var zeros := padded[..|padded| - |digits|];
    var v := padded + rest;
    assert padded == zeros + digits;
    Associates(zeros, digits, rest);
    DropLeadingAppend(zeros, digits + rest, '0');
    assert Unzeroed(v) == digits + rest;
    FirstLineAppend(digits + rest, []);
    assert digits + rest + [] == digits + rest;
    assert ZLine(v) == digits + rest;
    DigitPrefixAppend(digits, rest);
  }

  /**
   * `regularize_reg_num`: the number is first converted to half-width characters by
   * `zenToHan`, then normalised.
   */
  function RegularizeRegNum(country: string, number: string, zenToHan: string -> string): (r: string)
    ensures country != "JP" ==> r == zenToHan(number)
  {
    HalfWidthRegNum(country, zenToHan(number))
  }

  /**
   * The normalisation of a number in half-width characters: a Japanese number loses its leading
   * zeros and its digit run is widened to 7 digits; a Japanese number with no non-zero digit in
   * front, and every foreign number, stays as it is.
   */
  function HalfWidthRegNum(country: string, n: string): (r: string)
    ensures country != "JP" ==> r == n
  {
    if country == "JP" then
      var t := DropLeading(n, '0');
      if t != [] && '1' <= t[0] <= '9' then
        var s := if |LeadDigits(n)| < 7 then PadLeft(LeadDigits(n), 7) else LeadDigits(n);
        s + LineRest(n)
      else n
    else n
  }

  /**
   * For Japanese numbers the registration-number normaliser is `pad0` to 7 digits of the
   * half-width text wherever `pad0` succeeds, and the half-width text itself otherwise.
   */
  lemma RegularizeIsPad0(number: string, zenToHan: string -> string)
    ensures var n := zenToHan(number);
      RegularizeRegNum("JP", number, zenToHan) == match Pad0(n, 7) case Ok(v) => v case Err(_) => n
  {
    HalfWidthIsPad0(zenToHan(number));
  }

  lemma HalfWidthIsPad0(n: string)
    ensures HalfWidthRegNum("JP", n) == match Pad0(n, 7) case Ok(v) => v case Err(_) => n
  {
    var t := Unzeroed(n);
    assert t == [] || t[0] != '0';
    if t != [] && '1' <= t[0] <= '9' {
      assert Pad0(n, 7).Ok?;
      assert PadLeft(LeadDigits(n), 7) == if |LeadDigits(n)| < 7 then PadLeft(LeadDigits(n), 7) else LeadDigits(n);
    } else {
      assert Pad0(n, 7).Err?;
    }
  }

  /**
   * A Japanese number that is a run of digits in half-width characters, with a non-zero digit
   * in it, becomes that run without its leading zeros, widened to 7 digits.
   */
  lemma DigitRunRegularized(n: string)
    requires AllDigits(n) && DropLeading(n, '0') != []
    ensures var t := DropLeading(n, '0');
      HalfWidthRegNum("JP", n) == PadLeft(t, 7) && AllDigits(PadLeft(t, 7))
  {
    var t := DropLeading(n, '0');
    UnzeroedDigits(n);
    PaddedDigits(t, 7);
    HalfWidthIsPad0(n);
    assert Pad0(n, 7) == Ok(PadLeft(t, 7) + LineRest(n));
    assert LineRest(n) == [];
  }

  /** Zero-padding a digit run gives a digit run. */
  lemma PaddedDigits(t: string, width: nat)
    requires AllDigits(t)
    ensures AllDigits(PadLeft(t, width))
  {
    var r := PadLeft(t, width);
    forall i | |r| - |t| <= i < |r| ensures IsDigit(r[i]) {
      assert r[i] == r[|r| - |t|..][i - (|r| - |t|)];
    }
  }

  /** Without its leading zeros a digit run is still one, and it is its own first line and digit run. */
  lemma UnzeroedDigits(n: string)
    requires AllDigits(n)
    ensures var t := DropLeading(n, '0'); AllDigits(t) && ZLine(n) == t && LeadDigits(n) == t
  {
    var t := DropLeading(n, '0');
    forall i | 0 <= i < |t| ensures IsDigit(t[i]) {
      assert t[i] == n[|n| - |t| + i];
    }
    assert '\n' !in t;
  }

  // ---------------------------------------------------------------- names and lists

  predicate IsCompanyName(name: string) {
    Contains(name, "有限会社") || Contains(name, "株式会社") || Contains(name, "合同会社") || Contains(name, "有限公司")
  }

  predicate IsSchoolName(name: string) {
    Contains(name, "学校法人") || Contains(name, "国立大学法人") || Contains(name, "大学")
  }

  /**
   * `check_jp_genmen`: the fee-reduction category a holder's name suggests. Companies come
   * first, then schools and universities; a general incorporated association gets none and
   * anyone else the individual category.
   */
  function CheckJpGenmen(name: string): (r: Option<string>)
    ensures r.Some? ==> r.value in {"10_4_ro", "10_3_ro", "10_4_i"}
    ensures r == Some("10_4_ro") <==> IsCompanyName(name)
    ensures r == Some("10_3_ro") <==> !IsCompanyName(name) && IsSchoolName(name)
    ensures r.None? <==> !IsCompanyName(name) && !IsSchoolName(name) && Contains(name, "一般社団法人")
  {
    if IsCompanyName(name) then Some("10_4_ro")
    else if IsSchoolName(name) then Some("10_3_ro")
    else if Contains(name, "一般社団法人") then None
    else Some("10_4_i")
  }

  /** Two positions of the list hold different values (`None` counting as a value of its own). */
  ghost predicate HasTwoValues<T>(s: seq<Option<T>>) {
    exists i, j :: 0 <= i < j < |s| && s[i] != s[j]
  }

  /**
   * `check_more_two`: whether a list holds two different values; anything that is not a list
   * gives `None`.
   */
  method CheckMoreTwo<T(==)>(a: Option<seq<Option<T>>>) returns (r: Option<bool>)
    ensures r.None? <==> a.None?
    ensures a.Some? ==> (r == Some(true) <==> HasTwoValues(a.value))
  {
    if a.None? {
      return None;
    }
    var s := a.value;
    var i := 0;
    while i + 1 < |s|
      invariant i == 0 || i < |s|
      invariant forall p, q :: 0 <= p < i && p < q < |s| ==> s[p] == s[q]
    {
      var j := i + 1;
      while j < |s|
        invariant i + 1 <= j <= |s|
        invariant forall q :: i < q < j ==> s[i] == s[q]
      {
        if s[i].None? && s[j].None? {
        } else if s[i].None? || s[j].None? {
          return Some(true);
        } else if s[i].value != s[j].value {
          return Some(true);
        }
        j := j + 1;
      }
      i := i + 1;
    }
    return Some(false);
  }

  /** Holding two values means not every entry equals the first. */
  lemma TwoValuesIffNotConstant<T>(s: seq<Option<T>>)
    ensures HasTwoValues(s) <==> exists k :: 0 <= k < |s| && s[k] != s[0]
  {
    if HasTwoValues(s) {
      var i, j :| 0 <= i < j < |s| && s[i] != s[j];
      if s[i] == s[0] {
        assert s[j] != s[0];
      } else {
        assert s[i] != s[0];
      }
    }
  }

  // ---------------------------------------------------------------- trademark classes

  /** What `sort_classes` is given: a comma-separated text or a list. */
  datatype ClassesInput = Text(text: string) | Items(items: seq<string>)

  /** `[x.strip() for x in fields if x.strip() != ""]`. */
  function Cleaned(fields: seq<string>): (r: seq<string>)
    ensures forall x :: x in r <==> x != [] && exists f :: f in fields && Strip(f) == x
  {
    if fields == [] then []
    else
      var init := Cleaned(fields[..|fields| - 1]);
      var last := Strip(fields[|fields| - 1]);
      assert forall f :: f in fields <==> f in fields[..|fields| - 1] || f == fields[|fields| - 1];
      if last != [] then init + [last] else init
  }

  /** The list `sort_classes` sorts: a text is split at commas, stripped and emptied of blanks; a list is taken as it is. */
  function ClassList(c: ClassesInput): seq<string> {
    match c
    case Text(t) => Cleaned(Split(t, ','))
    case Items(l) => l
  }

  /** `sys.maxsize`, the key of a class without a leading number. */
  const MaxSize: int := 9223372036854775807

  /** The sort key: the leading number of a class, or `sys.maxsize` when it has none. */
  function ClassKey(x: string): int {
    var d := DigitPrefix(x);
    if d == [] then MaxSize else DigitsValue(d)
  }

  function KeyOrder(): (string, string) -> bool {
    (a: string, b: string) => ClassKey(a) <= ClassKey(b)
  }

  function LexOrder(): (string, string) -> bool {
    (a: string, b: string) => LexLe(a, b)
  }

  /** `list(dict.fromkeys(s))`: the first occurrence of every element, in order. */
  function Dedupe(s: seq<string>): (r: seq<string>)
    ensures forall x :: x in r <==> x in s
    ensures forall i, j :: 0 <= i < j < |r| ==> r[i] != r[j]
  {
    if s == [] then []
    else
      var init := Dedupe(s[..|s| - 1]);
      assert forall x :: x in s <==> x in s[..|s| - 1] || x == s[|s| - 1];
      if s[|s| - 1] in init then init else init + [s[|s| - 1]]
  }

  /** Dropping later duplicates keeps a list in order. */
  lemma {:induction false} DedupeSorted(s: seq<string>, le: (string, string) -> bool)
    requires Sorting.SortedBy(s, le)
    ensures Sorting.SortedBy(Dedupe(s), le)
  {
    if s != [] {
      var init := s[..|s| - 1];
      DedupeSorted(init, le);
      var d := Dedupe(init);
      if s[|s| - 1] !in d {
        forall i | 0 <= i < |d| ensures le(d[i], s[|s| - 1]) {
          assert d[i] in init;
          var k :| 0 <= k < |init| && init[k] == d[i];
        }
      }
    }
  }

  /** `sort_classes`: sorted as text, then stably by leading number, then without repetitions. */
  function SortClasses(c: ClassesInput): seq<string> {
    Dedupe(Sorting.SortBy(Sorting.SortBy(ClassList(c), LexOrder()), KeyOrder()))
  }

  lemma LexOrderIsTotalPreorder()
    ensures Sorting.TotalPreorder(LexOrder())
  {
    forall a, b ensures LexOrder()(a, b) || LexOrder()(b, a) {
      LexTotal(a, b);
    }
    forall a, b, c | LexOrder()(a, b) && LexOrder()(b, c) ensures LexOrder()(a, c) {
      LexTransitive(a, b, c);
    }
  }

  /**
   * What `sort_classes` returns: each class of its input once, ordered by leading number (classes
   * without one last), with equal numbers in text order.
   */
  lemma SortClassesMeaning(c: ClassesInput)
    ensures var r := SortClasses(c);
      && (forall x :: x in r <==> x in ClassList(c))
      && (forall i, j :: 0 <= i < j < |r| ==> r[i] != r[j])
      && (forall i, j :: 0 <= i < j < |r| ==> ClassKey(r[i]) <= ClassKey(r[j]))
      && (forall i, j :: 0 <= i < j < |r| && ClassKey(r[i]) == ClassKey(r[j]) ==> LexLe(r[i], r[j]))
  {
    var l := ClassList(c);
    var byText := Sorting.SortBy(l, LexOrder());
    LexOrderIsTotalPreorder();
    Sorting.SortSorts(l, LexOrder());
    var byKey := Sorting.SortBy(byText, KeyOrder());
    Sorting.SortThenBy(byText, KeyOrder(), LexOrder());
    DedupeSorted(byKey, Sorting.ThenBy(KeyOrder(), LexOrder()));
    forall x ensures x in byKey <==> x in l {
      Sorting.MembersSurviveSort(byText, KeyOrder(), x);
      Sorting.MembersSurviveSort(l, LexOrder(), x);
    }
  }

  /** From a text, the classes are exactly its non-blank comma-separated fields, stripped. */
  lemma SortClassesOfText(t: string, x: string)
    ensures x in SortClasses(Text(t)) <==> x != [] && exists f :: f in Split(t, ',') && Strip(f) == x
  {
    SortClassesMeaning(Text(t));
  }

  // ---------------------------------------------------------------- papers for a request

  /** The papers a trademark request may need besides the payment form. */
  datatype Paper = Delegation | Abandonment | Deletion | Supplement

  /**
   * One right of a request, joined with what the papers need from its stored record:
   * `Classes` and `OriginalClasses` are the classes kept and the classes registered.
   */
  datatype RequestEntry = RequestEntry(
    property: string,
    jpTrademark: bool,
    paidYears: Option<int>,
    years: int,
    classes: Option<seq<string>>,
    originalClasses: seq<string>,
    registrationNumber: string,
    holderNames: seq<string>)

  /** One entry of the papers' target list: the registration, the classes it names and the holders. */
  datatype PaperTarget = PaperTarget(registrationNumber: string, classes: Option<seq<string>>, names: seq<string>)

  /** `[x for x in original if not x in kept]`. */
  function Removed(original: seq<string>, kept: seq<string>): (r: seq<string>)
    ensures forall x :: x in r <==> x in original && x !in kept
  {
    if original == [] then []
    else
      var init := Removed(original[..|original| - 1], kept);
      var last := original[|original| - 1];
      assert forall x :: x in original <==> x in original[..|original| - 1] || x == last;
      if last !in kept then init + [last] else init
  }

  /**
   * Whether an entry needs the paper: a Japanese trademark that drops classes, and for the
   * abandonment and deletion papers the second half of a split payment, for the supplement a
   * full renewal.
   */
  predicate Needs(kind: Paper, e: RequestEntry) {
    e.jpTrademark &&
    (match kind
     case Delegation => true
     case Abandonment => e.paidYears == Some(5) && e.years == 5
     case Deletion => e.paidYears == Some(5) && e.years == 5
     case Supplement => e.paidYears.None? || e.paidYears.value == 10) &&
    e.classes.Some? && |e.originalClasses| != |e.classes.value|
  }

  /** The target an entry contributes to the paper's list. */
  function TargetOf(kind: Paper, e: RequestEntry): PaperTarget
    requires e.classes.Some?
  {
    match kind
    case Delegation => PaperTarget(e.registrationNumber, None, e.holderNames)
    case Abandonment => PaperTarget(e.registrationNumber, Some(Removed(e.originalClasses, e.classes.value)), e.holderNames)
    case Deletion => PaperTarget(e.registrationNumber, Some(Removed(e.originalClasses, e.classes.value)), e.holderNames)
    case Supplement => PaperTarget(e.registrationNumber, e.classes, e.holderNames)
  }

  /** The entries a paper is asked about: all of them, or only the one right named. */
  predicate Asked(only: Option<string>, e: RequestEntry) {
    only.None? || e.property == only.value
  }

  /** The specification of the paper's target list: one target per asked entry that needs it, in order. */
  function Targets(kind: Paper, entries: seq<RequestEntry>, only: Option<string>): seq<PaperTarget> {
    if entries == [] then []
    else
      var init := Targets(kind, entries[..|entries| - 1], only);
      var e := entries[|entries| - 1];
      if Asked(only, e) && Needs(kind, e) then init + [TargetOf(kind, e)] else init
  }

  /**
   * `needs_delegation_paper`, `needs_abandonment_paper`, `needs_deletion_paper` and
   * `needs_hoju_paper`: walk the request's rights and collect the targets.
   */
  method NeedsPaper(kind: Paper, entries: seq<RequestEntry>, only: Option<string>)
    returns (needed: bool, targets: Option<seq<PaperTarget>>)
    ensures needed <==> targets.Some?
    ensures targets.Some? ==> targets.value == Targets(kind, entries, only) && |targets.value| > 0
    ensures targets.None? ==> Targets(kind, entries, only) == []
  {
    var found: seq<PaperTarget> := [];
    var i := 0;
    while i < |entries|
      invariant 0 <= i <= |entries|
      invariant found == Targets(kind, entries[..i], only)
    {
      var e := entries[i];
      assert entries[..i + 1][..i] == entries[..i];
      if Asked(only, e) && e.jpTrademark {
        var wanted := match kind
          case Delegation => true
          case Abandonment => e.paidYears.Some? && e.paidYears.value == 5 && e.years == 5
          case Deletion => e.paidYears.Some? && e.paidYears.value == 5 && e.years == 5
          case Supplement => !(e.paidYears.Some? && e.paidYears.value != 10);
        if wanted && e.classes.Some? && |e.originalClasses| != |e.classes.value| {
          found := found + [TargetOf(kind, e)];
        }
      }
      i := i + 1;
    }
    assert entries[..i] == entries;
    if |found| > 0 {
      return true, Some(found);
    }
    return false, None;
  }

  /** A paper is needed exactly when some asked entry needs it, and then every target comes from such an entry. */
  lemma {:induction false} TargetsMeaning(kind: Paper, entries: seq<RequestEntry>, only: Option<string>)
    ensures |Targets(kind, entries, only)| > 0 <==> exists e :: e in entries && Asked(only, e) && Needs(kind, e)
    ensures forall t :: t in Targets(kind, entries, only) ==>
      exists e :: e in entries && Asked(only, e) && Needs(kind, e) && t == TargetOf(kind, e)
  {
    if entries != [] {
      var init := entries[..|entries| - 1];
      TargetsMeaning(kind, init, only);
      assert forall e :: e in entries <==> e in init || e == entries[|entries| - 1];
    }
  }

  /** The deletion paper is decided exactly as the abandonment paper. */
  lemma DeletionIsAbandonment(entries: seq<RequestEntry>, only: Option<string>)
    ensures Targets(Deletion, entries, only) == Targets(Abandonment, entries, only)
  {
  }

  /** The second half of a split payment and a full renewal never need the same papers. */
  lemma AbandonmentExcludesSupplement(e: RequestEntry)
    ensures Needs(Abandonment, e) ==> !Needs(Supplement, e)
  {
  }
}
