/**
 * The stored record of one industrial-property right, as the renewal engine reads it.
 * Every optional key of the stored document is an `Option`; a key whose value the
 * engine only tests for truth is a `bool`.
 */
module Props {
  import opened Wrappers
  import opened Dates

  /** The four kinds of right the engine handles. */
  datatype Law = Patent | Utility | Design | Trademark

  /** One holder of the right: `Id` is the office's applicant identification number, when known. */
  datatype Holder = Holder(name: string, id: Option<string>)

  /** The `Cart` sub-document of a right the user has selected for renewal. */
  datatype CartEntry = CartEntry(years: int, classes: Option<seq<string>>)

  datatype Property = Property(
    country: string,
    law: Law,
    /** `Disappered` read as a flag (`in_and_true`). */
    disappeared: bool,
    disappearanceDate: Option<Date>,
    applicationDate: Option<Date>,
    registrationDate: Option<Date>,
    examClaimedDate: Option<Date>,
    expirationDate: Option<Date>,
    /** `NextProcedureLimit`: the next statutory deadline. */
    limit: Option<Date>,
    /** `NextProcedureOpenDate`: the first day a renewal may be filed. */
    openDate: Option<Date>,
    /** `NextProcedureLastLimit`: the end of the late-payment period. */
    lastLimit: Option<Date>,
    paidYears: Option<int>,
    numberOfClaims: Option<int>,
    classes: Option<seq<string>>,
    holders: Option<seq<Holder>>,
    jpGenmen: Option<string>,
    defensive: bool,
    registrationPaymentDate: Option<Date>,
    registrationInvestigatedDate: Option<Date>,
    renewPaymentDate: Option<Date>,
    cart: Option<CartEntry>,
    silent: bool
  )

  predicate IsJp(p: Property) {
    p.country == "JP"
  }

  predicate IsJpTrademark(p: Property) {
    p.country == "JP" && p.law == Trademark
  }

  /** `prop['PaidYears'] if 'PaidYears' in prop else 0`. */
  function PaidOrZero(p: Property): int {
    if p.paidYears.Some? then p.paidYears.value else 0
  }
}
