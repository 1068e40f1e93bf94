/**
 * The customer's renewal cart: the years a newly selected right starts with, the year and
 * class buttons, the recalculation of one cart entry from its right, and the payment deadline
 * of a request.
 */
module UserPage {
  import opened Wrappers
  import opened Dates
  import opened Props
  import JpCalendar
  import Sorting
  import CommonUtil
  import opened FeeCalculator

  /** A total shown in the cart: an amount and its currency. */
  datatype Money = Money(amount: int, currency: Option<string>)

  /**
   * The `Cart` sub-document as `update_cart` reads and writes it: one optional entry per key.
   * `warning` is the refusal reason stored as `WarningMessage`; `expiring` is the expiry date
   * the `ExpiringMessage` names; `limit` is the cart's `NextProcedureLimit`.
   */
  datatype CartState = CartState(
    years: Option<int>,
    classes: Option<seq<string>>,
    requestable: Option<bool>,
    warning: Option<CommonUtil.Reason>,
    agent: Option<string>,
    additionalPeriod: Option<bool>,
    canDeleteClass: Option<bool>,
    maxYear: Option<int>,
    minYear: Option<int>,
    expiring: Option<Date>,
    classesForUpdate: Option<int>,
    classesForDelete: Option<int>,
    yearFrom: Option<int>,
    yearTo: Option<int>,
    feeList: Option<seq<FeeLine>>,
    limit: Option<Date>,
    officialFee: Option<Money>,
    agentFee: Option<Money>,
    exchangedOfficialFee: Option<Money>,
    exchangedAgentFee: Option<Money>,
    requireEstimation: Option<bool>)

  // ---------------------------------------------------------------------------------------
  // Years

  /** The fewest years one request may pay, which is also the step of the year buttons. */
  function MinYear(p: Property): int {
    if IsJpTrademark(p) then 5 else 1
  }

  /** `add_to_cart`: the years a right starts with when it is put in the cart. */
  function InitialYears(p: Property): (y: int)
    ensures y == 1 || y == 5 || y == 10
    ensures IsJpTrademark(p) <==> y != 1
    ensures IsJpTrademark(p) ==> (y == 10 <==> p.paidYears.None? || p.paidYears.value == 10)
  {
    if IsJpTrademark(p) then
      if p.paidYears.None? || p.paidYears.value == 10 then 10 else 5
    else 1
  }

  /** The upper bound `update_years_in_cart` takes from the verdict: its years, whether or not the right is requestable. */
  function YearBound(v: CommonUtil.Verdict): int {
    match v
    case Requestable(maxYear, _) => maxYear
    case Refused(_, years) => years
  }

  /** `update_years_in_cart`: one step up (`direction` 1) or down (-1), or nothing when that leaves `[min, bound]`. */
  function NewYears(p: Property, years: int, direction: int, bound: int): (r: Option<int>)
    ensures r.Some? ==> r.value == years + MinYear(p) * direction
    ensures r.Some? <==> MinYear(p) <= years + MinYear(p) * direction <= bound
  {
    var n := years + MinYear(p) * direction;
    if n < MinYear(p) || n > bound then None else Some(n)
  }

  /** A requestable right can pay at least its minimum: the year buttons always have a value to show. */
  lemma RequestableYearsRange(p: Property, today: Date, considerCart: bool)
    requires CommonUtil.WellFormed(p)
    requires CommonUtil.CoreVerdict(Some(p), today, considerCart).Requestable?
    ensures var m := CommonUtil.CoreVerdict(Some(p), today, considerCart).maxYear;
      && 1 <= MinYear(p) <= m
      && (IsJpTrademark(p) ==> m == 5 || m == 10)
  {
  }

  /** The years a requestable right starts with lie between its minimum and its maximum. */
  lemma InitialYearsInRange(p: Property, today: Date)
    requires CommonUtil.WellFormed(p)
    requires CommonUtil.CoreVerdict(Some(p), today, true).Requestable?
    ensures MinYear(p) <= InitialYears(p) <= CommonUtil.CoreVerdict(Some(p), today, true).maxYear
  {
    RequestableYearsRange(p, today, true);
  }

  /** A step up that is accepted is undone by the step down that follows it. */
  lemma YearStepRoundTrip(p: Property, years: int, bound: int)
    requires MinYear(p) <= years
    requires NewYears(p, years, 1, bound).Some?
    ensures NewYears(p, NewYears(p, years, 1, bound).value, -1, bound) == Some(years)
  {
  }

  /** A Japanese trademark's years stay 5 or 10 under the buttons, as its fee table requires. */
  lemma TrademarkYearsFiveOrTen(p: Property, years: int, direction: int, bound: int)
    requires IsJpTrademark(p) && (years == 5 || years == 10) && bound <= 10
    requires direction == 1 || direction == -1
    requires NewYears(p, years, direction, bound).Some?
    ensures NewYears(p, years, direction, bound).value == 15 - years
  {
  }

  // ---------------------------------------------------------------------------------------
  // Classes

  /** `[x for x in s if x != c]`. */
  function Without(s: seq<string>, c: string): (r: seq<string>)
    ensures forall x :: x in r <==> x in s && x != c
    ensures c !in s ==> r == s
    ensures |r| <= |s|
  {
    if s == [] then []
    else
      var rest := Without(s[..|s| - 1], c);
      assert s == s[..|s| - 1] + [s[|s| - 1]];
      assert forall x :: x in s <==> x in s[..|s| - 1] || x == s[|s| - 1];
      rest + (if s[|s| - 1] == c then [] else [s[|s| - 1]])
  }

  /** The outcome of a class button: the new selection, or why it is refused. */
  datatype Toggle = Chose(classes: seq<string>) | InvalidClass | NoneSelected

  /** The classes currently selected: the cart's own list, or all the right's classes. */
  function Chosen(p: Property): seq<string>
    requires p.cart.Some? && p.classes.Some?
  {
    if p.cart.value.classes.Some? then p.cart.value.classes.value else p.classes.value
  }

  /** The right is in a cart and `cls` is one of its classes. */
  predicate Known(p: Property, cls: string) {
    p.cart.Some? && p.classes.Some? && cls in p.classes.value
  }

  /** `update_classes_in_cart`: switch class `cls` on or off in the cart's selection. */
  method ToggleClass(p: Property, cls: string, act: string) returns (r: Result<Toggle, Exception>)
    ensures p.cart.None? ==> r == Ok(InvalidClass)
    ensures p.cart.Some? && p.classes.None? ==> r == Err(KeyError)
    ensures p.cart.Some? && p.classes.Some? && cls !in p.classes.value ==> r == Ok(InvalidClass)
    ensures Known(p, cls) ==> (r == Ok(NoneSelected) <==> act == "off" && |Chosen(p)| == 1)
    ensures Known(p, cls) ==> r.Ok? && !r.value.InvalidClass?
    ensures r.Ok? && r.value.Chose? && act == "on" ==>
      && (forall x :: x in r.value.classes <==> x in Chosen(p) || x == cls)
      && (cls in Chosen(p) ==> r.value.classes == Chosen(p))
      && (cls !in Chosen(p) ==> |r.value.classes| == |Chosen(p)| + 1 &&
                                Sorting.SortedBy(r.value.classes, CommonUtil.LexOrder()))
    ensures r.Ok? && r.value.Chose? && act == "off" ==>
      && (forall x :: x in r.value.classes <==> x in Chosen(p) && x != cls)
      && (Chosen(p) != [] && (forall i, j :: 0 <= i < j < |Chosen(p)| ==> Chosen(p)[i] != Chosen(p)[j]) ==>
          r.value.classes != [])
    ensures r.Ok? && r.value.Chose? && act != "on" && act != "off" ==> r.value.classes == Chosen(p)
  {
    if p.cart.None? {
      return Ok(InvalidClass);
    }
    if p.classes.None? {
      return Err(KeyError);
    }
    if cls !in p.classes.value {
      return Ok(InvalidClass);
    }
    var temp := p.classes.value;
    if p.cart.value.classes.Some? {
      temp := p.cart.value.classes.value;
    }
    if act == "off" && |temp| == 1 {
      return Ok(NoneSelected);
    }
    if act == "on" {
      if cls !in temp {
        AddedClass(temp, cls);
        temp := Sorting.SortBy(temp + [cls], CommonUtil.LexOrder());
      }
    } else if act == "off" {
      if cls in temp {
        RemovedClass(temp, cls);
        temp := Without(temp, cls);
      }
    }
    return Ok(Chose(temp));
  }

  /** Switching a new class on adds exactly it, keeping the selection in lexical order. */
  lemma AddedClass(chosen: seq<string>, cls: string)
    requires cls !in chosen
    ensures var r := Sorting.SortBy(chosen + [cls], CommonUtil.LexOrder());
      && (forall x :: x in r <==> x in chosen || x == cls)
      && |r| == |chosen| + 1
      && Sorting.SortedBy(r, CommonUtil.LexOrder())
  {
    var grown := chosen + [cls];
    assert forall x :: x in grown <==> x in chosen || x == cls;
    Sorting.SortPermutes(grown, CommonUtil.LexOrder());
    CommonUtil.LexOrderIsTotalPreorder();
    Sorting.SortSorts(grown, CommonUtil.LexOrder());
    forall x ensures x in Sorting.SortBy(grown, CommonUtil.LexOrder()) <==> x in grown {
      Sorting.MembersSurviveSort(grown, CommonUtil.LexOrder(), x);
    }
  }

  /** Switching a class off a selection of two or more distinct classes leaves some class selected. */
  lemma RemovedClass(chosen: seq<string>, cls: string)
    requires cls in chosen && |chosen| != 1
    ensures (forall i, j :: 0 <= i < j < |chosen| ==> chosen[i] != chosen[j]) ==> Without(chosen, cls) != []
  {
    if forall i, j :: 0 <= i < j < |chosen| ==> chosen[i] != chosen[j] {
      assert chosen[0] != chosen[1];
      assert chosen[0] in Without(chosen, cls) || chosen[1] in Without(chosen, cls);
    }
  }

  // ---------------------------------------------------------------------------------------
  // Recalculating the cart

  /** The keys a refused cart loses. */
  function RefusedState(c: CartState, reason: CommonUtil.Reason): CartState {
    c.(requestable := Some(false), warning := Some(reason),
       officialFee := None, agentFee := None, exchangedOfficialFee := None, exchangedAgentFee := None,
       feeList := None, agent := None, requireEstimation := None)
  }

  /** A Japanese trademark with fewer than two classes, or paid late, cannot drop classes. */
  predicate CanDeleteClass(p: Property, additional: bool) {
    !(IsJpTrademark(p) && (p.classes.None? || |p.classes.value| < 2 || additional))
  }

  /** The header of a requestable cart: agent, flags and the year range. */
  function OpenedState(c: CartState, p: Property, maxYear: int, additional: bool): CartState {
    c.(agent := Some("0001"), requestable := Some(true), additionalPeriod := Some(additional),
       canDeleteClass := Some(CanDeleteClass(p, additional)), maxYear := Some(maxYear), minYear := Some(MinYear(p)))
  }

  /** The date the cart's years, counted from registration, run to. */
  function PaidThrough(reg: Date, years: int, paid: int): Date {
    JpCalendar.MonthShift(reg, 12 * (years + paid))
  }

  /** A patent, utility model or design warns when the years asked for run past its expiry. */
  function ExpiringStage(c: CartState, p: Property): Result<CartState, Exception> {
    var c := c.(expiring := None);
    if p.law != Trademark && p.expirationDate.Some? then
      if p.registrationDate.None? || c.years.None? || p.paidYears.None? then Err(KeyError)
      else if Before(p.expirationDate.value, PaidThrough(p.registrationDate.value, c.years.value, p.paidYears.value))
      then Ok(c.(expiring := p.expirationDate))
      else Ok(c)
    else Ok(c)
  }

  /** A trademark's selected classes, how many are renewed and how many are dropped. */
  function ClassesStage(c: CartState, p: Property): Result<CartState, Exception> {
    if p.law != Trademark then Ok(c)
    else if p.classes.None? then Err(KeyError)
    else
      var c := if c.classes.None? then c.(classes := p.classes) else c;
      var n := |c.classes.value|;
      Ok(c.(classesForUpdate := Some(n), classesForDelete := Some(|p.classes.value| - n)))
  }

  /** The right as the annuity branch reads it, with missing paid years read as 0. */
  function WithPaidYears(p: Property): Property {
    p.(paidYears := Some(PaidOrZero(p)))
  }

  /** A patent, utility model or design: the range of years paid, and for a Japanese right its fees. */
  function AnnuityStage(c: CartState, p: Property, additional: bool, now: Instant): Result<CartState, Exception>
    requires CommonUtil.WellFormed(p)
  {
    if p.law == Trademark then Ok(c)
    else if c.years.None? then Err(KeyError)
    else
      var from := PaidOrZero(p) + 1;
      var to := from + c.years.value - 1;
      var c := c.(yearFrom := Some(from), yearTo := Some(to));
      if IsJp(p) then
        match Fees(WithPaidYears(p), from, to, 0, None, additional, now)
        case Err(e) => Err(e)
        case Ok(fees) => Ok(c.(feeList := Some(fees)))
      else Ok(c)
  }

  /** The last year a trademark renewal reaches within its ten-year term: 1 to 10. */
  function TermYear(paid: int, years: int): int {
    var y := (paid + years) % 10;
    if y == 0 then 10 else y
  }

  /** A Japanese trademark: its fees for the selected classes and the year its renewal reaches. */
  function TrademarkStage(c: CartState, p: Property, additional: bool, now: Instant): Result<CartState, Exception>
    requires CommonUtil.WellFormed(p)
  {
    if !IsJpTrademark(p) then Ok(c)
    else if p.classes.None? || c.years.None? then Err(KeyError)
    else
      var nc := if c.classes.Some? then |c.classes.value| else |p.classes.value|;
      match Fees(p, 0, 0, c.years.value, Some(nc), additional, now)
      case Err(e) => Err(e)
      case Ok(fees) =>
        if p.paidYears.None? then Err(KeyError)
        else Ok(c.(feeList := Some(fees), yearTo := Some(TermYear(p.paidYears.value, c.years.value))))
  }

  /** The cart's deadline: six months later when paid late; the stale totals go. */
  function LimitStage(c: CartState, p: Property, additional: bool): Result<CartState, Exception> {
    if p.limit.None? then Err(KeyError)
    else
      var l := p.limit.value;
      Ok(c.(limit := Some(if additional then JpCalendar.MonthShift(l, 6) else l), officialFee := None, agentFee := None))
  }

  /** Everything up to the totals, in the order `update_cart` runs it. */
  function Priced(c: CartState, p: Property, maxYear: int, additional: bool, now: Instant): Result<CartState, Exception>
    requires CommonUtil.WellFormed(p)
  {
    match ExpiringStage(OpenedState(c, p, maxYear, additional), p)
    case Err(e) => Err(e)
    case Ok(c2) =>
      match ClassesStage(c2, p)
      case Err(e) => Err(e)
      case Ok(c3) =>
        match AnnuityStage(c3, p, additional, now)
        case Err(e) => Err(e)
        case Ok(c4) =>
          match TrademarkStage(c4, p, additional, now)
          case Err(e) => Err(e)
          case Ok(c5) => LimitStage(c5, p, additional)
  }

  /** The office and agent totals of the fee list, each kept only when positive; no list means an estimate is needed. */
  function TotalsStage(c: CartState): Result<CartState, Exception> {
    if c.feeList.None? then Ok(c.(requireEstimation := Some(true)))
    else
      var items := ItemsOf(c.feeList.value);
      match Totals(items, Office, "Fee")
      case Err(e) => Err(e)
      case Ok(office) =>
        var c := if office.0 > 0 then c.(officialFee := Some(Money(office.0, office.1))) else c;
        match Totals(items, Agent, "Fee")
        case Err(e) => Err(e)
        case Ok(agent) => Ok(if agent.0 > 0 then c.(agentFee := Some(Money(agent.0, agent.1))) else c)
  }

  /** `update_cart` on a cart that exists: the new cart, given the right's verdict. */
  function Updated(c: CartState, p: Property, v: CommonUtil.Verdict, now: Instant): Result<CartState, Exception>
    requires CommonUtil.WellFormed(p)
  {
    match v
    case Refused(reason, _) => Ok(RefusedState(c, reason))
    case Requestable(maxYear, additional) =>
      match Priced(c, p, maxYear, additional, now)
      case Err(e) => Err(e)
      case Ok(c6) => TotalsStage(c6)
  }

  /** The cart document `update_cart` rewrites in place. */
  class Cart {
    var state: CartState

    method MarkRefused(reason: CommonUtil.Reason)
      modifies this
      ensures state == RefusedState(old(state), reason)
    {
      state := state.(requestable := Some(false));
      state := state.(warning := Some(reason));
      state := state.(officialFee := None, agentFee := None, exchangedOfficialFee := None, exchangedAgentFee := None);
      state := state.(feeList := None, agent := None, requireEstimation := None);
    }

    method Open(p: Property, maxYear: int, additional: bool)
      modifies this
      ensures state == OpenedState(old(state), p, maxYear, additional)
    {
      state := state.(agent := Some("0001"));
      state := state.(requestable := Some(true));
      state := state.(additionalPeriod := Some(additional));
      state := state.(canDeleteClass := Some(true));
      if IsJpTrademark(p) {
        if p.classes.None? || |p.classes.value| < 2 {
          state := state.(canDeleteClass := Some(false));
        }
        if additional {
          state := state.(canDeleteClass := Some(false));
        }
      }
      state := state.(maxYear := Some(maxYear));
      state := state.(minYear := Some(1));
      if IsJpTrademark(p) {
        state := state.(minYear := Some(5));
      }
    }

    method SetExpiring(p: Property) returns (failure: Option<Exception>)
      requires CommonUtil.WellFormed(p)
      modifies this
      ensures ExpiringStage(old(state), p).Err? ==> failure == Some(ExpiringStage(old(state), p).error)
      ensures ExpiringStage(old(state), p).Ok? ==> failure.None? && state == ExpiringStage(old(state), p).value
    {
      state := state.(expiring := None);
      if p.law != Trademark && p.expirationDate.Some? {
        if p.registrationDate.None? || state.years.None? || p.paidYears.None? {
          return Some(KeyError);
        }
        var d := JpCalendar.AddMonths(p.registrationDate.value, 12 * (state.years.value + p.paidYears.value), false);
        if Before(p.expirationDate.value, d) {
          state := state.(expiring := p.expirationDate);
        }
      }
      return None;
    }

    method CountClasses(p: Property) returns (failure: Option<Exception>)
      modifies this
      ensures ClassesStage(old(state), p).Err? ==> failure == Some(ClassesStage(old(state), p).error)
      ensures ClassesStage(old(state), p).Ok? ==> failure.None? && state == ClassesStage(old(state), p).value
    {
      if p.law == Trademark {
        if p.classes.None? {
          return Some(KeyError);
        }
        if state.classes.None? {
          state := state.(classes := p.classes);
        }
        state := state.(classesForUpdate := Some(|state.classes.value|));
        state := state.(classesForDelete := Some(|p.classes.value| - state.classesForUpdate.value));
      }
      return None;
    }

    method SetYearRange(p: Property, additional: bool, now: Instant) returns (failure: Option<Exception>)
      requires CommonUtil.WellFormed(p)
      modifies this
      ensures AnnuityStage(old(state), p, additional, now).Err? ==> failure == Some(AnnuityStage(old(state), p, additional, now).error)
      ensures AnnuityStage(old(state), p, additional, now).Ok? ==> failure.None? && state == AnnuityStage(old(state), p, additional, now).value
    {
      if p.law != Trademark {
        var q := WithPaidYears(p);
        if state.years.None? {
          return Some(KeyError);
        }
        var from := q.paidYears.value + 1;
        var to := from + state.years.value - 1;
        state := state.(yearFrom := Some(from));
        state := state.(yearTo := Some(to));
        if IsJp(p) {
          var fees := CalculateFees(q, from, to, 0, None, additional, now);
          if fees.Err? {
            return Some(fees.error);
          }
          state := state.(feeList := Some(fees.value));
        }
      }
      return None;
    }

    method PriceTrademark(p: Property, additional: bool, now: Instant) returns (failure: Option<Exception>)
      requires CommonUtil.WellFormed(p)
      modifies this
      ensures TrademarkStage(old(state), p, additional, now).Err? ==> failure == Some(TrademarkStage(old(state), p, additional, now).error)
      ensures TrademarkStage(old(state), p, additional, now).Ok? ==> failure.None? && state == TrademarkStage(old(state), p, additional, now).value
    {
      if IsJpTrademark(p) {
        var c := state;
        if p.classes.None? {
          return Some(KeyError);
        }
        var nc := |p.classes.value|;
        if c.classes.Some? {
          nc := |c.classes.value|;
        }
        if c.years.None? {
          return Some(KeyError);
        }
        var fees := CalculateFees(p, 0, 0, c.years.value, Some(nc), additional, now);
        if fees.Err? {
          return Some(fees.error);
        }
        c := c.(feeList := Some(fees.value));
        if p.paidYears.None? {
          state := c;
          return Some(KeyError);
        }
        c := c.(yearTo := Some((p.paidYears.value + c.years.value) % 10));
        if c.yearTo == Some(0) {
          c := c.(yearTo := Some(10));
        }
        state := c;
      }
      return None;
    }

    method SetLimit(p: Property, additional: bool) returns (failure: Option<Exception>)
      requires CommonUtil.WellFormed(p)
      modifies this
      ensures LimitStage(old(state), p, additional).Err? ==> failure == Some(LimitStage(old(state), p, additional).error)
      ensures LimitStage(old(state), p, additional).Ok? ==> failure.None? && state == LimitStage(old(state), p, additional).value
    {
      if p.limit.None? {
        return Some(KeyError);
      }
      if additional {
        var l := JpCalendar.AddMonths(p.limit.value, 6, false);
        state := state.(limit := Some(l));
      } else {
        state := state.(limit := p.limit);
      }
      state := state.(officialFee := None, agentFee := None);
      return None;
    }

    method SetTotals() returns (failure: Option<Exception>)
      modifies this
      ensures TotalsStage(old(state)).Err? ==> failure == Some(TotalsStage(old(state)).error)
      ensures TotalsStage(old(state)).Ok? ==> failure.None? && state == TotalsStage(old(state)).value
    {
      if state.feeList.None? {
        state := state.(requireEstimation := Some(true));
        return None;
      }
      var items := ItemsOf(state.feeList.value);
      var office := TotalFeeList(items, Office, "Fee");
      if office.Err? {
        return Some(office.error);
      }
      if office.value.0 > 0 {
        state := state.(officialFee := Some(Money(office.value.0, office.value.1)));
      }
      var agent := TotalFeeList(items, Agent, "Fee");
      if agent.Err? {
        return Some(agent.error);
      }
      if agent.value.0 > 0 {
        state := state.(agentFee := Some(Money(agent.value.0, agent.value.1)));
      }
      return None;
    }
  }

  /** `update_cart`: no cart stays no cart; otherwise the cart is rewritten from the right and returned. */
  method UpdateCart(p: Property, cart: Cart?, today: Date, now: Instant) returns (r: Result<Option<Cart>, Exception>)
    requires CommonUtil.WellFormed(p)
    modifies cart
    ensures cart == null ==> r == Ok(None)
    ensures cart != null ==>
      var u := Updated(old(cart.state), p, CommonUtil.CoreVerdict(Some(p), today, false), now);
      && (u.Ok? ==> r == Ok(Some(cart)) && cart.state == u.value)
      && (u.Err? ==> r == Err(u.error))
  {
    if cart == null {
      return Ok(None);
    }
    var v := CommonUtil.IsRequestableCore(Some(p), today, false);
    if v.Refused? {
      cart.MarkRefused(v.reason);
      return Ok(Some(cart));
    }
    cart.Open(p, v.maxYear, v.additional);
    var failure := cart.SetExpiring(p);
    if failure.Some? {
      return Err(failure.value);
    }
    failure := cart.CountClasses(p);
    if failure.Some? {
      return Err(failure.value);
    }
    failure := cart.SetYearRange(p, v.additional, now);
    if failure.Some? {
      return Err(failure.value);
    }
    failure := cart.PriceTrademark(p, v.additional, now);
    if failure.Some? {
      return Err(failure.value);
    }
    failure := cart.SetLimit(p, v.additional);
    // A requestable right has a deadline, so this stage cannot fail.
    assert failure.None?;
    failure := cart.SetTotals();
    if failure.Some? {
      return Err(failure.value);
    }
    return Ok(Some(cart));
  }

  // ---------------------------------------------------------------------------------------
  // What a recalculated cart says

  /** A refused cart records its reason and carries no fees, no agent and no estimate flag. */
  lemma RefusedCartCarriesNoFees(c: CartState, p: Property, today: Date, now: Instant)
    requires CommonUtil.WellFormed(p)
    requires CommonUtil.CoreVerdict(Some(p), today, false).Refused?
    ensures var s := Updated(c, p, CommonUtil.CoreVerdict(Some(p), today, false), now);
      && s.Ok?
      && s.value.requestable == Some(false)
      && s.value.warning == Some(CommonUtil.CoreVerdict(Some(p), today, false).reason)
      && s.value.feeList.None? && s.value.officialFee.None? && s.value.agentFee.None?
      && s.value.agent.None? && s.value.requireEstimation.None?
      && s.value.years == c.years && s.value.classes == c.classes && s.value.limit == c.limit
  {
  }

  /** The entries the stages after the header never touch. */
  predicate SameHeader(a: CartState, b: CartState) {
    && a.requestable == b.requestable && a.agent == b.agent && a.additionalPeriod == b.additionalPeriod
    && a.canDeleteClass == b.canDeleteClass && a.maxYear == b.maxYear && a.minYear == b.minYear
    && a.years == b.years && a.warning == b.warning
  }

  /** A requestable cart that updates has been priced, and then totalled. */
  lemma UpdatedRequestable(c: CartState, p: Property, maxYear: int, additional: bool, now: Instant)
    requires CommonUtil.WellFormed(p)
    requires Updated(c, p, CommonUtil.Requestable(maxYear, additional), now).Ok?
    ensures Priced(c, p, maxYear, additional, now).Ok?
    ensures Updated(c, p, CommonUtil.Requestable(maxYear, additional), now) == TotalsStage(Priced(c, p, maxYear, additional, now).value)
  {
  }

  /** The carts the stages of a priced cart pass through. */
  lemma PricedStages(c: CartState, p: Property, maxYear: int, additional: bool, now: Instant)
    returns (c2: CartState, c3: CartState, c4: CartState, c5: CartState)
    requires CommonUtil.WellFormed(p)
    requires Priced(c, p, maxYear, additional, now).Ok?
    ensures ExpiringStage(OpenedState(c, p, maxYear, additional), p) == Ok(c2)
    ensures ClassesStage(c2, p) == Ok(c3)
    ensures AnnuityStage(c3, p, additional, now) == Ok(c4)
    ensures TrademarkStage(c4, p, additional, now) == Ok(c5)
    ensures LimitStage(c5, p, additional) == Priced(c, p, maxYear, additional, now)
  {
    c2 := ExpiringStage(OpenedState(c, p, maxYear, additional), p).value;
    c3 := ClassesStage(c2, p).value;
    c4 := AnnuityStage(c3, p, additional, now).value;
    c5 := TrademarkStage(c4, p, additional, now).value;
  }

  /** The totals keep everything but the two totals and the estimate flag. */
  lemma TotalsKeep(c: CartState)
    requires TotalsStage(c).Ok?
    ensures var s := TotalsStage(c).value;
      && SameHeader(c, s) && s.limit == c.limit && s.feeList == c.feeList
      && s.yearFrom == c.yearFrom && s.yearTo == c.yearTo && s.expiring == c.expiring
      && s.classes == c.classes && s.classesForUpdate == c.classesForUpdate && s.classesForDelete == c.classesForDelete
    ensures var s := TotalsStage(c).value;
      && (c.feeList.None? ==> s.requireEstimation == Some(true))
      && (c.feeList.Some? ==> s.requireEstimation == c.requireEstimation)
  {
  }

  /** The header a requestable cart ends with is the one `OpenedState` wrote. */
  lemma CartHeader(c: CartState, p: Property, maxYear: int, additional: bool, now: Instant)
    requires CommonUtil.WellFormed(p)
    requires Updated(c, p, CommonUtil.Requestable(maxYear, additional), now).Ok?
    ensures SameHeader(OpenedState(c, p, maxYear, additional), Updated(c, p, CommonUtil.Requestable(maxYear, additional), now).value)
  {
    UpdatedRequestable(c, p, maxYear, additional, now);
    var c2, c3, c4, c5 := PricedStages(c, p, maxYear, additional, now);
    TotalsKeep(Priced(c, p, maxYear, additional, now).value);
    StagesKeepHeader(OpenedState(c, p, maxYear, additional), p, additional, now);
    StagesKeepHeader(c2, p, additional, now);
    StagesKeepHeader(c3, p, additional, now);
    StagesKeepHeader(c4, p, additional, now);
    StagesKeepHeader(c5, p, additional, now);
  }

  /** No stage after the header changes it. */
  lemma StagesKeepHeader(c: CartState, p: Property, additional: bool, now: Instant)
    requires CommonUtil.WellFormed(p)
    ensures ExpiringStage(c, p).Ok? ==> SameHeader(c, ExpiringStage(c, p).value)
    ensures ClassesStage(c, p).Ok? ==> SameHeader(c, ClassesStage(c, p).value)
    ensures AnnuityStage(c, p, additional, now).Ok? ==> SameHeader(c, AnnuityStage(c, p, additional, now).value)
    ensures TrademarkStage(c, p, additional, now).Ok? ==> SameHeader(c, TrademarkStage(c, p, additional, now).value)
    ensures LimitStage(c, p, additional).Ok? ==> SameHeader(c, LimitStage(c, p, additional).value)
  {
  }

  /**
   * A requestable cart names the agent, lets the buttons range over `[MinYear, maxYear]`, which
   * is never empty, records whether it is paid late, and forbids dropping classes exactly for
   * a Japanese trademark with fewer than two classes or paid late.
   */
  lemma RequestableCartHeader(c: CartState, p: Property, today: Date, now: Instant)
    requires CommonUtil.WellFormed(p)
    requires CommonUtil.CoreVerdict(Some(p), today, false).Requestable?
    requires Updated(c, p, CommonUtil.CoreVerdict(Some(p), today, false), now).Ok?
    ensures var v := CommonUtil.CoreVerdict(Some(p), today, false);
      var s := Updated(c, p, v, now).value;
      && s.requestable == Some(true) && s.agent == Some("0001")
      && s.minYear == Some(MinYear(p)) && s.maxYear == Some(v.maxYear) && 1 <= MinYear(p) <= v.maxYear
      && p.limit.Some? && s.additionalPeriod == Some(Before(p.limit.value, today))
      && (s.canDeleteClass == Some(false) <==>
          IsJpTrademark(p) && (p.classes.None? || |p.classes.value| < 2 || Before(p.limit.value, today)))
      && s.years == c.years
  {
    var v := CommonUtil.CoreVerdict(Some(p), today, false);
    RequestableYearsRange(p, today, false);
    CartHeader(c, p, v.maxYear, v.additional, now);
  }

  /** The cart's deadline is the right's, or six months later when paid late; it never comes earlier. */
  lemma CartLimit(c: CartState, p: Property, maxYear: int, additional: bool, now: Instant)
    requires CommonUtil.WellFormed(p)
    requires Updated(c, p, CommonUtil.Requestable(maxYear, additional), now).Ok?
    ensures var s := Updated(c, p, CommonUtil.Requestable(maxYear, additional), now).value;
      && p.limit.Some? && s.limit.Some?
      && s.limit.value == (if additional then JpCalendar.MonthShift(p.limit.value, 6) else p.limit.value)
      && Le(p.limit.value, s.limit.value)
  {
    UpdatedRequestable(c, p, maxYear, additional, now);
    TotalsKeep(Priced(c, p, maxYear, additional, now).value);
    var l := p.limit.value;
    if additional {
      JpCalendar.MonthShiftMonotone(l, 0, 6);
      JpCalendar.MonthShiftZero(l);
    }
  }

  /** Without a fee list the cart asks for an estimate; with one it keeps the flag it had; a Japanese right always has one. */
  lemma EstimateUnlessPriced(c: CartState, p: Property, maxYear: int, additional: bool, now: Instant)
    requires CommonUtil.WellFormed(p)
    requires Updated(c, p, CommonUtil.Requestable(maxYear, additional), now).Ok?
    ensures var s := Updated(c, p, CommonUtil.Requestable(maxYear, additional), now).value;
      && (s.feeList.None? ==> s.requireEstimation == Some(true))
      && (s.feeList.Some? ==> s.requireEstimation == c.requireEstimation)
      && (IsJp(p) ==> s.feeList.Some?)
  {
    UpdatedRequestable(c, p, maxYear, additional, now);
    var c2, c3, c4, c5 := PricedStages(c, p, maxYear, additional, now);
    TotalsKeep(Priced(c, p, maxYear, additional, now).value);
    assert c5.requireEstimation == c.requireEstimation;
    assert IsJp(p) ==> c5.feeList.Some?;
  }

  /**
   * A patent, utility model or design pays years `PaidYears + 1` through `PaidYears + Years`;
   * the cart warns of expiry exactly when those years, counted from registration, run past the
   * expiration date.
   */
  lemma AnnuityCartYears(c: CartState, p: Property, maxYear: int, additional: bool, now: Instant)
    requires CommonUtil.WellFormed(p) && p.law != Trademark
    requires Updated(c, p, CommonUtil.Requestable(maxYear, additional), now).Ok?
    ensures var s := Updated(c, p, CommonUtil.Requestable(maxYear, additional), now).value;
      && c.years.Some?
      && s.yearFrom == Some(PaidOrZero(p) + 1)
      && s.yearTo == Some(PaidOrZero(p) + c.years.value)
  {
    UpdatedRequestable(c, p, maxYear, additional, now);
    AnnuityPricedYears(c, p, maxYear, additional, now);
    TotalsKeep(Priced(c, p, maxYear, additional, now).value);
  }

  /** `AnnuityCartYears` for the priced cart, before the totals are added. */
  lemma AnnuityPricedYears(c: CartState, p: Property, maxYear: int, additional: bool, now: Instant)
    requires CommonUtil.WellFormed(p) && p.law != Trademark
    requires Priced(c, p, maxYear, additional, now).Ok?
    ensures var s := Priced(c, p, maxYear, additional, now).value;
      && c.years.Some?
      && s.yearFrom == Some(PaidOrZero(p) + 1)
      && s.yearTo == Some(PaidOrZero(p) + c.years.value)
  {
    var c2, c3, c4, c5 := PricedStages(c, p, maxYear, additional, now);
    assert c5 == c4 && c3.years == c.years;
  }

  /** The expiry warning reaches the cart unchanged by the later stages. */
  lemma AnnuityCartExpiry(c: CartState, p: Property, maxYear: int, additional: bool, now: Instant)
    requires CommonUtil.WellFormed(p) && p.law != Trademark
    requires Updated(c, p, CommonUtil.Requestable(maxYear, additional), now).Ok?
    ensures var s := Updated(c, p, CommonUtil.Requestable(maxYear, additional), now).value;
      && (s.expiring.Some? <==>
          p.expirationDate.Some? && p.registrationDate.Some? && p.paidYears.Some? && c.years.Some? &&
          Before(p.expirationDate.value, PaidThrough(p.registrationDate.value, c.years.value, p.paidYears.value)))
      && (s.expiring.Some? ==> s.expiring == p.expirationDate)
  {
    UpdatedRequestable(c, p, maxYear, additional, now);
    var c2, c3, c4, c5 := PricedStages(c, p, maxYear, additional, now);
    TotalsKeep(Priced(c, p, maxYear, additional, now).value);
    assert c3 == c2 && c5 == c4;
    assert c4.expiring == c2.expiring && c2.years == c.years;
  }

  /**
   * A Japanese trademark renews its selected classes (the cart's own, or else all), drops the
   * rest, pays 5 or 10 years, and reaches a year between 1 and 10 of its term.
   */
  lemma TrademarkCartYears(c: CartState, p: Property, maxYear: int, additional: bool, now: Instant)
    requires CommonUtil.WellFormed(p) && IsJpTrademark(p)
    requires Updated(c, p, CommonUtil.Requestable(maxYear, additional), now).Ok?
    ensures var s := Updated(c, p, CommonUtil.Requestable(maxYear, additional), now).value;
      && p.classes.Some? && s.classes.Some? && p.paidYears.Some? && c.years.Some?
      && s.classes == (if c.classes.Some? then c.classes else p.classes)
      && s.classesForUpdate == Some(|s.classes.value|)
      && s.classesForDelete == Some(|p.classes.value| - |s.classes.value|)
    ensures var s := Updated(c, p, CommonUtil.Requestable(maxYear, additional), now).value;
      && c.years.Some? && p.paidYears.Some?
      && (c.years.value == 5 || c.years.value == 10)
      && s.yearTo == Some(TermYear(p.paidYears.value, c.years.value))
      && 1 <= TermYear(p.paidYears.value, c.years.value) <= 10
      && s.feeList.Some?
  {
    UpdatedRequestable(c, p, maxYear, additional, now);
    TrademarkPricedYears(c, p, maxYear, additional, now);
    TotalsKeep(Priced(c, p, maxYear, additional, now).value);
  }

  /** `TrademarkCartYears` for the priced cart, before the totals are added. */
  lemma TrademarkPricedYears(c: CartState, p: Property, maxYear: int, additional: bool, now: Instant)
    requires CommonUtil.WellFormed(p) && IsJpTrademark(p)
    requires Priced(c, p, maxYear, additional, now).Ok?
    ensures var s := Priced(c, p, maxYear, additional, now).value;
      && p.classes.Some? && s.classes.Some? && p.paidYears.Some? && c.years.Some?
      && s.classes == (if c.classes.Some? then c.classes else p.classes)
      && s.classesForUpdate == Some(|s.classes.value|)
      && s.classesForDelete == Some(|p.classes.value| - |s.classes.value|)
    ensures var s := Priced(c, p, maxYear, additional, now).value;
      && c.years.Some? && p.paidYears.Some?
      && (c.years.value == 5 || c.years.value == 10)
      && s.yearTo == Some(TermYear(p.paidYears.value, c.years.value))
      && 1 <= TermYear(p.paidYears.value, c.years.value) <= 10
      && s.feeList.Some?
  {
    var c2, c3, c4, c5 := PricedStages(c, p, maxYear, additional, now);
    assert c4 == c3 && c3.classes.Some? && c3.years == c.years;
    FeesErrors(p, 0, 0, c.years.value, Some(|c3.classes.value|), additional, now);
  }

  /** A priced Japanese cart carries exactly the fee list `calculate_fees` returned for it. */
  lemma JapaneseFeeList(c: CartState, p: Property, maxYear: int, additional: bool, now: Instant)
    returns (q: Property, from: int, to: int, years: int, classes: Option<int>)
    requires CommonUtil.WellFormed(p) && IsJp(p)
    requires Priced(c, p, maxYear, additional, now).Ok?
    ensures CommonUtil.WellFormed(q) && Fees(q, from, to, years, classes, additional, now).Ok?
    ensures Priced(c, p, maxYear, additional, now).value.feeList == Some(Fees(q, from, to, years, classes, additional, now).value)
    ensures Priced(c, p, maxYear, additional, now).value.agentFee.None?
  {
    var c2, c3, c4, c5 := PricedStages(c, p, maxYear, additional, now);
    if p.law == Trademark {
      assert c4 == c3 && c3.classes.Some?;
      q, from, to, years, classes := p, 0, 0, c4.years.value, Some(|c4.classes.value|);
    } else {
      q, from := WithPaidYears(p), PaidOrZero(p) + 1;
      to, years, classes := from + c3.years.value - 1, 0, None;
      assert c5 == c4;
    }
  }

  /** A fee list from `calculate_fees` always totals, and its agent total is in yen. */
  lemma ComputedListTotals(c: CartState, q: Property, from: int, to: int, years: int, classes: Option<int>, additional: bool, now: Instant)
    requires CommonUtil.WellFormed(q) && Fees(q, from, to, years, classes, additional, now).Ok?
    requires c.feeList == Some(Fees(q, from, to, years, classes, additional, now).value) && c.agentFee.None?
    ensures TotalsStage(c).Ok?
    ensures TotalsStage(c).value.agentFee.Some? ==> TotalsStage(c).value.agentFee.value.currency == Some("JPY")
  {
    EstimateTotals(q, from, to, years, classes, additional, now);
  }

  /**
   * A Japanese right's cart never fails at the totals: once the fees are computed they total,
   * and the agent's total is in yen.
   */
  lemma JapaneseCartTotals(c: CartState, p: Property, maxYear: int, additional: bool, now: Instant)
    requires CommonUtil.WellFormed(p) && IsJp(p)
    requires Priced(c, p, maxYear, additional, now).Ok?
    ensures Updated(c, p, CommonUtil.Requestable(maxYear, additional), now).Ok?
    ensures var s := Updated(c, p, CommonUtil.Requestable(maxYear, additional), now).value;
      s.agentFee.Some? ==> s.agentFee.value.currency == Some("JPY")
  {
    var q, from, to, years, classes := JapaneseFeeList(c, p, maxYear, additional, now);
    ComputedListTotals(Priced(c, p, maxYear, additional, now).value, q, from, to, years, classes, additional, now);
  }

  // ---------------------------------------------------------------------------------------
  // Payment deadline

  /** The earliest of some dates. */
  function Earliest(ds: seq<Date>): (r: Date)
    requires ds != []
    ensures r in ds
    ensures forall i :: 0 <= i < |ds| ==> Le(r, ds[i])
  {
    if |ds| == 1 then ds[0]
    else
      var rest := Earliest(ds[1..]);
      assert forall i :: 1 <= i < |ds| ==> ds[i] == ds[1..][i - 1];
      if Le(ds[0], rest) then ds[0] else rest
  }

  /** The deadlines of targets that all have a cart. */
  function Limits(targets: seq<Option<Date>>): (ds: seq<Date>)
    requires forall i :: 0 <= i < |targets| ==> targets[i].Some?
    ensures |ds| == |targets| && forall i :: 0 <= i < |ds| ==> ds[i] == targets[i].value
  {
    seq(|targets|, i requires 0 <= i < |targets| => targets[i].value)
  }

  /**
   * `PayLimit` in `create_request_object`: each target's cart deadline (`None` when it has no
   * cart); nothing when no target has one, a `KeyError` when only some do, and otherwise the
   * day before the earliest deadline, but no later than two weeks ahead and no earlier than today.
   */
  function PayLimit(today: Date, targets: seq<Option<Date>>): Result<Option<Date>, Exception>
    requires Valid(today)
    requires forall i :: 0 <= i < |targets| && targets[i].Some? ==> Valid(targets[i].value)
  {
    if forall i :: 0 <= i < |targets| ==> targets[i].None? then Ok(None)
    else if exists i :: 0 <= i < |targets| && targets[i].None? then Err(KeyError)
    else
      var d1 := AddDays(today, 2 * 7);
      var d2 := AddDays(Earliest(Limits(targets)), -1);
      Ok(Some(Max(today, Min(d1, d2))))
  }

  /** No deadline is set when no target has a cart, and a request mixing carted and uncarted targets fails. */
  lemma PayLimitCases(today: Date, targets: seq<Option<Date>>)
    requires Valid(today)
    requires forall i :: 0 <= i < |targets| && targets[i].Some? ==> Valid(targets[i].value)
    ensures PayLimit(today, targets) == Ok(None) <==> forall i :: 0 <= i < |targets| ==> targets[i].None?
    ensures PayLimit(today, targets).Err? <==>
      (exists i :: 0 <= i < |targets| && targets[i].None?) && (exists i :: 0 <= i < |targets| && targets[i].Some?)
  {
  }

  /** The day before a valid date comes before it. */
  lemma DayBeforeIsBefore(e: Date)
    requires Valid(e)
    ensures Valid(AddDays(e, -1)) && Before(AddDays(e, -1), e)
  {
    AddDaysValid(e, -1);
    AddDaysOrdinal(e, -1);
    OrdinalOrder(AddDays(e, -1), e);
  }

  /** Two weeks ahead lies after today. */
  lemma TwoWeeksAhead(today: Date)
    requires Valid(today)
    ensures Valid(AddDays(today, 14)) && Before(today, AddDays(today, 14))
  {
    AddDaysValid(today, 14);
    AddDaysOrdinal(today, 14);
    OrdinalOrder(today, AddDays(today, 14));
  }

  /**
   * The payment deadline is within the coming two weeks, and before every cart's deadline
   * unless the earliest one is already today or past.
   */
  lemma PayLimitBounds(today: Date, targets: seq<Option<Date>>)
    requires Valid(today)
    requires forall i :: 0 <= i < |targets| ==> targets[i].Some? && Valid(targets[i].value)
    requires targets != []
    ensures PayLimit(today, targets).Ok? && PayLimit(today, targets).value.Some?
    ensures var d := PayLimit(today, targets).value.value;
      && Le(today, d) && Le(d, AddDays(today, 14))
      && (d == today || forall i :: 0 <= i < |targets| ==> Before(d, targets[i].value))
  {
    var e := Earliest(Limits(targets));
    TwoWeeksAhead(today);
    DayBeforeIsBefore(e);
  }
}
