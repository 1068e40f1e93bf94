/**
 * The staff's request workflow rules: whether the register must be consulted for a request,
 * whether the uploaded office documents are complete, the provisional expiry of a renewed
 * trademark, and when a whole request counts as paid or as canceled.
 */
module StaffPage {
  import opened Wrappers
  import opened Dates
  import opened Props
  import JpCalendar
  import FeeCalculator

  /** A file uploaded for one right of a request; `Title` is optional. */
  datatype UploadedFile = UploadedFile(title: Option<string>)

  /** One right inside a request, as the staff pages read it. */
  datatype RequestEntry = RequestEntry(
    property: string,
    paidYears: Option<int>,
    feeList: Option<seq<FeeCalculator.FeeLine>>,
    uploadedFiles: Option<seq<UploadedFile>>,
    classes: Option<seq<string>>,
    originalClasses: Option<seq<string>>,
    paid: bool,
    canceled: bool)

  // ---------------------------------------------------------------------------------------
  // Register consultation

  /** Some holder of the right has no applicant number, or the holders are not recorded. */
  predicate HolderUnidentified(p: Property) {
    p.holders.None? || exists i :: 0 <= i < |p.holders.value| && p.holders.value[i].id.None?
  }

  /** The discount codes that oblige the office to check the holders against the register. */
  predicate RegisterDiscount(code: string) {
    code == "10_4_i" || code == "10_4_ro" || code == "10_3_ro"
  }

  /** The first entry of the request for the right, if any. */
  function EntryFor(entries: seq<RequestEntry>, propId: string): (r: Option<RequestEntry>)
    ensures r.Some? ==> r.value in entries && r.value.property == propId
    ensures r.None? <==> forall i :: 0 <= i < |entries| ==> entries[i].property != propId
  {
    if entries == [] then None
    else if entries[0].property == propId then Some(entries[0])
    else
      var r := EntryFor(entries[1..], propId);
      assert forall i :: 1 <= i < |entries| ==> entries[i] == entries[1..][i - 1];
      r
  }

  /** Some fee line carries a discount that needs the register. */
  function HasRegisterDiscount(lines: seq<FeeCalculator.FeeLine>): (b: bool)
    ensures b <==> exists i :: 0 <= i < |lines| && lines[i].discount.Some? && RegisterDiscount(lines[i].discount.value)
  {
    if lines == [] then false
    else
      var rest := HasRegisterDiscount(lines[1..]);
      assert forall i :: 1 <= i < |lines| ==> lines[i] == lines[1..][i - 1];
      (lines[0].discount.Some? && RegisterDiscount(lines[0].discount.value)) || rest
  }

  /**
   * `check_gembo`: the register must be consulted only when some holder is unidentified, and
   * then for a trademark unless it pays five years, and otherwise only when a line has a
   * discount that needs it. A request without an entry for the right, or an entry lacking the
   * key read, raises.
   */
  function CheckGembo(entries: seq<RequestEntry>, p: Property, propId: string): (r: Result<bool, Exception>)
    ensures !HolderUnidentified(p) ==> r == Ok(false)
    ensures HolderUnidentified(p) && EntryFor(entries, propId).None? ==> r == Err(IndexError)
    ensures r == Ok(true) ==> HolderUnidentified(p)
  {
    if !HolderUnidentified(p) then Ok(false)
    else
      match EntryFor(entries, propId)
      case None => Err(IndexError)
      case Some(e) =>
        if p.law == Trademark then
          if e.paidYears.None? then Err(KeyError) else Ok(e.paidYears.value != 5)
        else if e.feeList.None? then Err(KeyError)
        else Ok(HasRegisterDiscount(e.feeList.value))
  }

  /** With some holder unidentified, a trademark consults the register exactly when it does not pay five years. */
  lemma GemboForTrademark(entries: seq<RequestEntry>, p: Property, propId: string, e: RequestEntry)
    requires HolderUnidentified(p) && p.law == Trademark
    requires EntryFor(entries, propId) == Some(e) && e.paidYears.Some?
    ensures CheckGembo(entries, p, propId) == Ok(e.paidYears.value != 5)
  {
  }

  /** With some holder unidentified, another right consults the register exactly when a line has one of the three discounts. */
  lemma GemboForAnnuity(entries: seq<RequestEntry>, p: Property, propId: string, e: RequestEntry)
    requires HolderUnidentified(p) && p.law != Trademark
    requires EntryFor(entries, propId) == Some(e) && e.feeList.Some?
    ensures var ls := e.feeList.value;
      CheckGembo(entries, p, propId) == Ok(true) <==>
      exists i :: 0 <= i < |ls| &&
        (ls[i].discount == Some("10_4_i") || ls[i].discount == Some("10_4_ro") || ls[i].discount == Some("10_3_ro"))
  {
  }

  /** A right recorded with no holders at all has none unidentified, so the register is never consulted for it. */
  lemma NoHoldersNoGembo(entries: seq<RequestEntry>, p: Property, propId: string)
    requires p.holders == Some([])
    ensures CheckGembo(entries, p, propId) == Ok(false)
  {
  }

  // ---------------------------------------------------------------------------------------
  // Completeness of the uploaded documents

  const PaymentForm: string := "納付書"
  const RenewalApplication: string := "更新登録申請書"
  const PowerOfAttorney: string := "委任状"
  const PartialCancellation: string := "商標権の一部抹消登録申請書"
  const PartialWaiver: string := "商標権の一部放棄書"

  /** `s` ends with `suffix`. */
  predicate EndsWith(s: string, suffix: string) {
    |suffix| <= |s| && s[|s| - |suffix|..] == suffix
  }

  /** The title without one trailing line feed, where the pattern's `$` may also match. */
  function BeforeFinalNewline(t: string): (u: string)
    ensures u == t || t == u + "\n"
  {
    if |t| > 0 && t[|t| - 1] == '\n' then t[..|t| - 1] else t
  }

  /**
   * `re.match(r'.*(納付書|更新登録申請書)$', title)` as Python reads it: from the start, through
   * characters other than a line feed, to one of the two endings, at the end of the title or
   * just before a final line feed.
   */
  predicate NamesPaymentForm(t: string) {
    var u := BeforeFinalNewline(t);
    exists suffix :: suffix in [PaymentForm, RenewalApplication] &&
      EndsWith(u, suffix) && '\n' !in u[..|u| - |suffix|]
  }

  /** Some file has a title. */
  predicate Titled(files: seq<UploadedFile>) {
    exists i :: 0 <= i < |files| && files[i].title.Some?
  }

  /** Some file's title names a payment form or a renewal application. */
  predicate PaymentFiled(files: seq<UploadedFile>) {
    exists i :: 0 <= i < |files| && files[i].title.Some? && NamesPaymentForm(files[i].title.value)
  }

  /** Some file has exactly this title. */
  predicate Filed(files: seq<UploadedFile>, name: string) {
    exists i :: 0 <= i < |files| && files[i].title == Some(name)
  }

  /** `len([x for x in files if 'Title' in x]) >= 1`. */
  function AnyTitled(files: seq<UploadedFile>): (b: bool)
    ensures b == Titled(files)
  {
    if files == [] then false
    else
      assert forall i :: 1 <= i < |files| ==> files[i] == files[1..][i - 1];
      files[0].title.Some? || AnyTitled(files[1..])
  }

  /** Whether some titled file matches the payment-form pattern. */
  function AnyPaymentForm(files: seq<UploadedFile>): (b: bool)
    ensures b == PaymentFiled(files)
  {
    if files == [] then false
    else
      assert forall i :: 1 <= i < |files| ==> files[i] == files[1..][i - 1];
      (files[0].title.Some? && NamesPaymentForm(files[0].title.value)) || AnyPaymentForm(files[1..])
  }

  /** Whether some file carries exactly this title. */
  function AnyNamed(files: seq<UploadedFile>, name: string): (b: bool)
    ensures b == Filed(files, name)
  {
    if files == [] then false
    else
      assert forall i :: 1 <= i < |files| ==> files[i] == files[1..][i - 1];
      files[0].title == Some(name) || AnyNamed(files[1..], name)
  }

  /** A Japanese trademark whose classes changed, paying other than ten years, must file the class-dropping documents. */
  predicate DropsClasses(p: Property, e: RequestEntry)
    requires IsJpTrademark(p) ==> e.classes.Some? && e.originalClasses.Some?
    requires IsJpTrademark(p) && |e.classes.value| != |e.originalClasses.value| ==> e.paidYears.Some?
  {
    IsJpTrademark(p) && |e.classes.value| != |e.originalClasses.value| && e.paidYears.value != 10
  }

  /**
   * The documents of one right are complete: a titled file exists, one of them is a payment
   * form or a renewal application, and a trademark that drops classes without paying ten
   * years also has a power of attorney, a partial cancellation and a partial waiver.
   */
  predicate DocumentsComplete(p: Property, e: RequestEntry, files: seq<UploadedFile>)
    requires IsJpTrademark(p) ==> e.classes.Some? && e.originalClasses.Some?
    requires IsJpTrademark(p) && |e.classes.value| != |e.originalClasses.value| ==> e.paidYears.Some?
  {
    && Titled(files)
    && PaymentFiled(files)
    && (DropsClasses(p, e) ==>
        Filed(files, PowerOfAttorney) && Filed(files, PartialCancellation) && Filed(files, PartialWaiver))
  }

  /**
   * The completeness test of `check_request_is_completed` for one right with uploaded files:
   * the `all_files` flag, cleared by each missing document; a trademark entry lacking the keys
   * it reads raises.
   */
  method FilesComplete(p: Property, e: RequestEntry, files: seq<UploadedFile>) returns (r: Result<bool, Exception>)
    ensures IsJpTrademark(p) && (e.classes.None? || e.originalClasses.None?) ==> r == Err(KeyError)
    ensures (IsJpTrademark(p) && e.classes.Some? && e.originalClasses.Some? &&
             |e.classes.value| != |e.originalClasses.value| && e.paidYears.None?) ==> r == Err(KeyError)
    ensures r.Ok? ==> (IsJpTrademark(p) ==> e.classes.Some? && e.originalClasses.Some?)
    ensures r.Ok? && IsJpTrademark(p) && |e.classes.value| != |e.originalClasses.value| ==> e.paidYears.Some?
    ensures r.Ok? ==> (r.value <==> DocumentsComplete(p, e, files))
    ensures !IsJpTrademark(p) ==> r.Ok?
  {
    var allFiles := true;
    if !AnyTitled(files) {
      allFiles := false;
    } else if !AnyPaymentForm(files) {
      allFiles := false;
    }
    if IsJpTrademark(p) {
      if e.classes.None? || e.originalClasses.None? {
        return Err(KeyError);
      }
      if |e.classes.value| != |e.originalClasses.value| {
        if e.paidYears.None? {
          return Err(KeyError);
        }
        if e.paidYears.value != 10 {
          if !AnyNamed(files, PowerOfAttorney) {
            allFiles := false;
          }
          if !AnyNamed(files, PartialCancellation) {
            allFiles := false;
          } else if !AnyNamed(files, PartialWaiver) {
            allFiles := false;
          }
        }
      }
    }
    return Ok(allFiles);
  }

  /** A title ending in the payment form's name, on one line, names a payment form. */
  lemma PaymentFormTitle(prefix: string)
    requires '\n' !in prefix
    ensures NamesPaymentForm(prefix + PaymentForm)
    ensures NamesPaymentForm(prefix + RenewalApplication + "\n")
  {
    var t := prefix + PaymentForm;
    assert BeforeFinalNewline(t) == t;
    assert t[|t| - |PaymentForm|..] == PaymentForm;
    assert t[..|t| - |PaymentForm|] == prefix;
    var t2 := prefix + RenewalApplication + "\n";
    var u := BeforeFinalNewline(t2);
    assert u == prefix + RenewalApplication;
    assert u[|u| - |RenewalApplication|..] == RenewalApplication;
    assert u[..|u| - |RenewalApplication|] == prefix;
  }

  /** A title that breaks the line before the form's name does not name it. */
  lemma BrokenTitleIsNoPaymentForm(prefix: string)
    requires '\n' in prefix
    ensures !NamesPaymentForm(prefix + PaymentForm)
  {
    var t := prefix + PaymentForm;
    assert BeforeFinalNewline(t) == t;
    assert t[..|t| - |PaymentForm|] == prefix;
    assert t[|t| - 2] == '付';
    assert |t| < |RenewalApplication| || t[|t| - |RenewalApplication|..][5] != RenewalApplication[5];
  }

  // ---------------------------------------------------------------------------------------
  // Provisional expiry of a renewed trademark

  /** The end of the `i`-th ten-year term counted from registration. */
  function TermEnd(reg: Date, i: nat): Date {
    JpCalendar.MonthShift(reg, 120 * i)
  }

  /** A date before another is in the same or an earlier month. */
  lemma BeforeMonthIndex(a: Date, b: Date)
    requires Valid(a) && Valid(b) && Before(a, b)
    ensures JpCalendar.MonthIndex(a) <= JpCalendar.MonthIndex(b)
  {
  }

  /**
   * The `TempExpirationDate` written when a trademark renewal completes: the first term end,
   * counting registration itself, that is not before twelve months from today.
   */
  method TempExpiration(reg: Date, today: Date) returns (d: Date, ghost i: nat)
    requires Valid(reg) && Valid(today)
    ensures d == TermEnd(reg, i)
    ensures !Before(d, JpCalendar.MonthShift(today, 12))
    ensures forall j :: 0 <= j < i ==> Before(TermEnd(reg, j), JpCalendar.MonthShift(today, 12))
  {
    var target := JpCalendar.AddMonths(today, 12, false);
    d := reg;
    i := 0;
    JpCalendar.MonthShiftZero(reg);
    var k := 0;
    while Before(d, target)
      invariant k == i && d == TermEnd(reg, i)
      invariant forall j :: 0 <= j < i ==> Before(TermEnd(reg, j), target)
      decreases JpCalendar.MonthIndex(target) - JpCalendar.MonthIndex(d)
    {
      BeforeMonthIndex(d, target);
      JpCalendar.MonthShiftShape(reg, 120 * i);
      JpCalendar.MonthShiftShape(reg, 120 * (i + 1));
      k := k + 1;
      i := i + 1;
      d := JpCalendar.AddMonths(reg, 12 * 10 * k, false);
    }
  }

  /** Term ends step forward: each is later than the one before. */
  lemma TermEndsIncrease(reg: Date, i: nat, j: nat)
    requires Valid(reg) && i < j
    ensures Before(TermEnd(reg, i), TermEnd(reg, j))
  {
    JpCalendar.MonthShiftMonotone(reg, 120 * i, 120 * j);
  }

  /** The provisional expiry falls on the registration's month and, unless it is registration itself, in a year ten times further on. */
  lemma TempExpirationShape(reg: Date, i: nat)
    requires Valid(reg)
    ensures TermEnd(reg, i).month == reg.month && TermEnd(reg, i).year == reg.year + 10 * i
  {
    JpCalendar.MonthShiftYears(reg, 10 * i);
    assert 12 * (10 * i) == 120 * i;
  }

  // ---------------------------------------------------------------------------------------
  // Request-level status

  /** The number of entries satisfying `ok`. */
  function CountWhere(entries: seq<RequestEntry>, ok: RequestEntry -> bool): (n: nat)
    ensures n <= |entries|
    ensures n == |entries| <==> forall i :: 0 <= i < |entries| ==> ok(entries[i])
    ensures n > 0 <==> exists i :: 0 <= i < |entries| && ok(entries[i])
  {
    if entries == [] then 0
    else
      var rest := CountWhere(entries[1..], ok);
      assert forall i :: 1 <= i < |entries| ==> entries[i] == entries[1..][i - 1];
      (if ok(entries[0]) then 1 else 0) + rest
  }

  /** The request is marked paid when every right is paid or canceled and at least one is paid. */
  function RequestPaid(entries: seq<RequestEntry>): bool {
    CountWhere(entries, (x: RequestEntry) => x.paid || x.canceled) == |entries| &&
    CountWhere(entries, (x: RequestEntry) => x.paid) > 0
  }

  /** The request is marked canceled when every right is canceled. */
  function RequestCanceled(entries: seq<RequestEntry>): bool {
    CountWhere(entries, (x: RequestEntry) => x.canceled) == |entries|
  }

  /** The counting rules mean what they say: settled throughout with one payment, and canceled throughout. */
  lemma RequestStatusMeaning(entries: seq<RequestEntry>)
    ensures RequestPaid(entries) <==>
      (forall i :: 0 <= i < |entries| ==> entries[i].paid || entries[i].canceled) &&
      (exists i :: 0 <= i < |entries| && entries[i].paid)
    ensures RequestCanceled(entries) <==> forall i :: 0 <= i < |entries| ==> entries[i].canceled
  {
    var settled := (x: RequestEntry) => x.paid || x.canceled;
    var paid := (x: RequestEntry) => x.paid;
    var canceled := (x: RequestEntry) => x.canceled;
    assert forall i :: 0 <= i < |entries| ==> (settled(entries[i]) <==> entries[i].paid || entries[i].canceled);
    assert forall i :: 0 <= i < |entries| ==> (paid(entries[i]) <==> entries[i].paid);
    assert forall i :: 0 <= i < |entries| ==> (canceled(entries[i]) <==> entries[i].canceled);
  }

  /** A request is never both paid and canceled unless some right is both; an empty request counts as canceled, never as paid. */
  lemma PaidAndCanceledExclusive(entries: seq<RequestEntry>)
    requires forall i :: 0 <= i < |entries| ==> !(entries[i].paid && entries[i].canceled)
    ensures !(RequestPaid(entries) && RequestCanceled(entries))
    ensures entries == [] ==> RequestCanceled(entries) && !RequestPaid(entries)
  {
    RequestStatusMeaning(entries);
  }
}
