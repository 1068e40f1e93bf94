# AIPPAY renewal engine in Dafny

AIPPAY is a service through which holders of Japanese industrial-property rights (patents,
utility models, designs and trademarks) ask an agent to pay the maintenance fees that keep
those rights alive. This project models the renewal engine at its centre, and proves
properties about it:

- **Calendar** (`jp_calendar.dfy`): the Japanese public holidays of a year, including the
  substitute holiday and the citizens' holiday of Article 3(2) and 3(3) of the Act on
  National Holidays. Also the shift of a date by whole months, which clamps to the month end
  and can advance past weekends and holidays.
- **Fee tables** (`jpo_price.dfy`): the Japan Patent Office prices for annuities, renewals,
  split trademark payments and defensive marks.
- **Fee assembly** (`fee_calculator.dfy`): the ordered list of office and agent lines of an
  estimate, and the totalling of one kind of line.
- **Eligibility** (`common_util.dfy`): the ordered checks that decide whether a renewal can be
  requested now, the payable years, and the smaller helpers (`pad0`,
  registration-number normalisation, class sorting, reduction categories, paper predicates).
- **Stored rights** (`database.dfy`): the recomputation of the next deadlines after the latest
  completed request, and the validation of an edit to a stored right.
- **Surrounding rules**: reminder checkpoints and timing (`notify.dfy`), the cart
  (`user_page.dfy`), staff workflow predicates (`staff_page.dfy`), the import of the Patent
  Office's daily bulk data (`daily_inquire.dfy`), paging and JSON conversion
  (`web_util.dfy`), the deadline-list parameters and ordering (`kigen_common.dfy`), padding
  and password rules (`security.dfy`), and text wrapping for PDF output (`pdf_maker.dfy`).

Shared modules: `wrappers.dfy` (Option, Result, the Python exceptions raised), `dates.dfy`
(Python `date` arithmetic: validity, ordinals, weekdays, day steps), `text.dfy` (Python string
operations), `sorting.dfy` (a stable sort, as Python's `sorted`), and `props.dfy` (the stored
right).

The clock (`datetime.now()`, `get_today()`), database reads, random draws, the localisation
dictionary and foreign helpers (`unicodedata.east_asian_width`, `mojimoji.zen_to_han`, and in
`security.dfy` the regex class `\d`) are parameters; elsewhere `\d` and `int()` read ASCII digits
only (see "## Left out"). Amounts are whole yen. Dates carry no time of day; a
comparison of a date against the current moment uses an `Instant` (date plus seconds).
Where the source loops or builds a result step by step, the model has a method with that
loop, proved equal to a specification function, and the lemmas are stated about that
function.

## Model

| member | source | states |
|---|---|---|
| JpCalendar.LeapYearAgrees | web/jp_calendar.py:135-142 | `is_leap_year` is the Gregorian rule, so February has 29 days exactly in its leap years |
| JpCalendar.ChainedLookup | web/jp_calendar.py:32-37 | a table of consecutive year ranges finds a row exactly for the years it spans, with a day within the table's bounds |
| JpCalendar.SpringTableChained | web/jp_calendar.py:15-31 | the vernal equinox table covers 1900 to 2299 without gaps, days 19 to 22 |
| JpCalendar.AutumnTableChained | web/jp_calendar.py:44-60 | the autumnal equinox table covers 1900 to 2299 without gaps, days 22 to 24 |
| JpCalendar.Shumbun | web/jp_calendar.py:10-37 | a vernal equinox exists exactly for 1900 to 2299, in March of that year, day 19 to 22 |
| JpCalendar.Shubun | web/jp_calendar.py:39-66 | an autumnal equinox exists exactly for 1900 to 2299, in September of that year, day 22 to 24 |
| JpCalendar.EquinoxDayByYearPhase | web/jp_calendar.py:10-66 | from 2024 to 2055 the vernal equinox is 21 March when `year % 4 == 3` and 20 March otherwise; up to 2043 the autumnal equinox is 22 September when `year % 4 == 0` and 23 September otherwise |
| JpCalendar.Substitute | web/jp_calendar.py:122-126 | the substitute day is in the same year, not before its start and no later than 25 December, and is neither a Sunday nor listed |
| JpCalendar.NthWeekdayFacts | web/jp_calendar.py:100-103 | the `w`-th weekday `wd` of a month is a valid date of that month within the `w`-th week, on that weekday |
| JpCalendar.HolidaysBounded | web/jp_calendar.py:68-133 | every holiday of a year is a valid date in that year, no later than 25 December |
| JpCalendar.HolidaysSorted | web/jp_calendar.py:119-133 | `get_holidays` returns its list in date order |
| JpCalendar.HolidaysMembers | web/jp_calendar.py:119-133 | a date is a holiday exactly when it was listed or added by the scan of the sorted list |
| JpCalendar.FixedDatesAreHolidays | web/jp_calendar.py:74-81 | every fixed-date row is a holiday of every year, with Mountain Day on 10 August 2020 and 8 August 2021 |
| JpCalendar.MondayRowsAreHolidays | web/jp_calendar.py:95-103 | each Happy Monday holiday not moved by the Olympic years is the `w`-th Monday of its month and a holiday |
| JpCalendar.OlympicDaysAreHolidays | web/jp_calendar.py:104-110 | 23 July 2020, and 22 and 23 July 2021, are holidays |
| JpCalendar.EquinoxesAreHolidays | web/jp_calendar.py:111-117 | both equinox days are holidays whenever the tables cover the year |
| JpCalendar.AppendIfAbsentMembers | web/jp_calendar.py:113-117 | adding an equinox day adds exactly that day, and lengthens the list only when it was not there |
| JpCalendar.SubstituteIsEarliest | web/jp_calendar.py:122-126 | every day from the start up to the substitute is a Sunday or listed |
| JpCalendar.SundayHolidaySubstituted | web/jp_calendar.py:121-126 | for a listed holiday on a Sunday, the first later day that is neither a Sunday nor listed is a holiday |
| JpCalendar.DayBetweenHolidaysAdded | web/jp_calendar.py:127-129 | the day between two consecutive listed holidays two days apart is a holiday |
| JpCalendar.NextBusinessDayIsEarliest | web/jp_calendar.py:179-181 | the advance ends on a business day, not before the start, and every day it skips is a weekend day or holiday |
| JpCalendar.NextBusinessDayKeepsBusinessDay | web/jp_calendar.py:179-181 | a business day is not moved |
| JpCalendar.NextBusinessDayMonotone | web/jp_calendar.py:179-181 | a later start never gives an earlier business day |
| JpCalendar.MonthShiftShape | web/jp_calendar.py:150-176 | the month moves by exactly `n` and the day is the base day capped at the target month's length |
| JpCalendar.MonthShiftZero | web/jp_calendar.py:150-176 | shifting by zero months gives the same calendar date |
| JpCalendar.MonthShiftRoundTrip | web/jp_calendar.py:153-176 | for a base day of at most 28, shifting by `n` and back by `-n` returns the date |
| JpCalendar.MonthShiftMonotone | web/jp_calendar.py:153-176 | more months give a strictly later date |
| JpCalendar.MonthShiftYears | web/jp_calendar.py:153-165 | a shift by `12·n` months keeps the month and moves the year by `n` |
| JpCalendar.MonthShiftOrder | web/jp_calendar.py:153-176 | shifted dates of one base compare as their month counts |
| JpCalendar.AddMonths | web/jp_calendar.py:146-184 | the month loop and the clamp give the month shift; with the holiday flag the result is the next business day from it |
| JpCalendar.StepMonths | web/jp_calendar.py:150-165 | the month loop, stepping forward or back through year ends, lands on the first of the month exactly `months` months (year·12 + month) from the base month |
| JpCalendar.AdvancePastDaysOff | web/jp_calendar.py:179-181 | the loop stops on the next business day |
| JpCalendar.GetHolidays | web/jp_calendar.py:68-133 | the method builds the holiday list the lemmas above describe |
| JpCalendar.ListHolidays | web/jp_calendar.py:72-117 | the fixed, imperial, Monday, Olympic and equinox holidays, in listing order |
| JpCalendar.ListFixedHolidays | web/jp_calendar.py:73-81 | the loop over the fixed-date table, with Mountain Day moved in 2020 and 2021 |
| JpCalendar.ListMondayHolidays | web/jp_calendar.py:94-103 | the loop over the Monday table, skipping the months the Olympic years moved |
| JpCalendar.FindWeekday | web/jp_calendar.py:100-102 | the day-by-day search finds the `w`-th weekday `wd` |
| JpCalendar.ScanSortedHolidays | web/jp_calendar.py:120-129 | the scan adds a substitute for each Sunday holiday and a citizens' holiday for each two-day gap |
| JpCalendar.FindSubstitute | web/jp_calendar.py:123-125 | the inner loop finds the substitute day |
| JpoPrice.ReduceAndRound | web/jpo_price.py:45-49 | the reduced price is a multiple of 10 and the largest such that `p·den` does not exceed the price |
| JpoPrice.PatentYear | web/jpo_price.py:14-51 | within ten years the annuity is the table price divided by `den` and rounded down to tens; later it is the table price |
| JpoPrice.YearSumSplit | web/jpo_price.py:53-54 | a range of years costs what its two halves cost |
| JpoPrice.PatentIsYearSum | web/jpo_price.py:8-57 | the recursive `patent` is the sum of the single years `year..year_to`, or one year when `year_to` is not above `year` |
| JpoPrice.UtilityIsYearSum | web/jpo_price.py:60-83 | the same for `utility` |
| JpoPrice.DesignIsYearSum | web/jpo_price.py:86-98 | the same for `design` |
| JpoPrice.PatentFirstYearExample | web/jpo_price.py:29-49 | five claims in year 1 cost 5800 yen under the current table, and 4930 yen reduced by a third under the old one |
| JpoPrice.TrademarkRenewal | web/jpo_price.py:100-111 | 22800 per class for five years, 43600 for ten, and `ValueError` for any other term |
| JpoPrice.SplitBandValues | web/jpo_price.py:135-171 | the split-payment price per class is always one of 16400, 17200, 22600 and 22800 |
| JpoPrice.LastDecade | web/jpo_price.py:126-133 | the count of ten-year terms whose anniversary is before now while the next anniversary is not |
| JpoPrice.LastDecadeUnique | web/jpo_price.py:129-133 | only one anniversary count has that property |
| JpoPrice.PayLimit | web/jpo_price.py:122-133 | a pay limit exists exactly for a registration more than eight years old |
| JpoPrice.ScanPayLimit | web/jpo_price.py:128-133 | the loop stops on the latest ten-year renewal date before now, the one `PayLimit` names |
| JpoPrice.TrademarkSplitted | web/jpo_price.py:113-171 | the split fee is the class count times the first matching band |
| JpoPrice.DefensiveTrademarkRenew | web/jpo_price.py:174-179 | 37500 yen per class; the `assert` on a positive class count is a precondition |
| CommonUtil.YearsToReach | web/common_util.py:70-77 | the count of years whose anniversary first reaches the deadline: that anniversary is not before it, all earlier ones are |
| CommonUtil.YearsToReachUnique | web/common_util.py:70-77 | only one count has those two properties |
| CommonUtil.DiffYears | web/common_util.py:70-77 | the counting loop of `diff_years` returns that count |
| CommonUtil.LeapDayRegistrationRaises | web/common_util.py:293-297 | the payable-years loop as written raises for a right registered on 29 February |
| CommonUtil.ScanAgreesAwayFromLeapDay | web/common_util.py:293-297 | for a registration day up to 28 the loop as written counts `YearsToReach` |
| CommonUtil.NextLimit | web/common_util.py:774-778 | the deadline after `n` paid years is the `n`-th anniversary, in the registration month, clamped to the month end |
| CommonUtil.NextLimitTm | web/common_util.py:780-800 | the first of `reg`, `reg`+10 years, `reg`+20 years, … not before the reference day |
| CommonUtil.StandingFailure | web/common_util.py:212-263 | a reported lapse, cart, deadline or window check does fail; with none, a deadline exists |
| CommonUtil.MissingField | web/common_util.py:265-285 | with no missing field, the payable years can be computed |
| CommonUtil.FirstFailed | web/common_util.py:202-304 | with no failed check, a right with a deadline and at least one payable year exists |
| CommonUtil.FirstFailedIsFirst | web/common_util.py:202-304 | the check the evaluator stops on fails, and every check before it passes |
| CommonUtil.NoFailedMeansAllPass | web/common_util.py:202-313 | the evaluator stops on no check exactly when every check passes |
| CommonUtil.VerdictIsFirstFailure | web/common_util.py:202-313 | a refusal happens exactly when some check fails, with the first failing check's reason; success grants at least one year and flags the late period |
| CommonUtil.TooEarlyExactlyBeforeWindow | web/common_util.py:256-263 | a Japanese trademark due for renewal is refused as too early, with 10 years, exactly while today is before six months ahead of its deadline |
| CommonUtil.CheckStanding | web/common_util.py:212-263 | the standing checks in source order |
| CommonUtil.CheckFields | web/common_util.py:265-285 | the missing-field checks in source order |
| CommonUtil.IsRequestableCore | web/common_util.py:202-313 | the checks with early returns, then the corrected year count (see "## Findings"), give the verdict above |
| CommonUtil.IsRequestable | web/common_util.py:156-194 | when requests are considered, one in flight refuses the right as already requested; otherwise the right is requestable exactly when the core verdict is and it was not requested recently |
| CommonUtil.MaxYearExample | web/common_util.py:287-304 | registered 2015-01-01, expiring 2035-01-01, 9 years paid: 11 payable years |
| CommonUtil.Pad0 | web/common_util.py:85-100 | `pad0` raises exactly when no digit follows the leading zeros |
| CommonUtil.Pad0DigitRun | web/common_util.py:85-100 | the result's digit run is the input's run without leading zeros, padded to the length |
| CommonUtil.Pad0Meaning | web/common_util.py:85-100 | the result's digit run is at least the length, reads the same number, and is followed by the rest of the first line |
| CommonUtil.Pad0KeepsValue | web/common_util.py:85-100 | padding keeps the number's value |
| CommonUtil.Pad0KeepsRest | web/common_util.py:85-100 | padding keeps the text after the digit run |
| CommonUtil.PaddedValue | web/common_util.py:85-100 | zero-padding a digit string keeps it digits and keeps its value |
| CommonUtil.Pad0Idempotent | web/common_util.py:85-100 | padding a padded number changes nothing |
| CommonUtil.RegularizeRegNum | web/common_util.py:340-358 | every number is first converted to half-width characters; a number of another country is just that conversion |
| CommonUtil.RegularizeIsPad0 | web/common_util.py:340-358 | a Japanese number is `pad0` to 7 digits of its half-width form where that succeeds, and the half-width form otherwise |
| CommonUtil.DigitRunRegularized | web/common_util.py:347-356 | a Japanese number that is a digit run with a non-zero digit becomes that run without its leading zeros, widened to 7 digits, and is still all digits |
| CommonUtil.CheckJpGenmen | web/common_util.py:843-853 | companies get `10_4_ro`, then schools `10_3_ro`, a general incorporated association nothing, anyone else `10_4_i` |
| CommonUtil.CheckMoreTwo | web/common_util.py:855-869 | the nested loop answers whether the list holds two different values, and nothing for a non-list |
| CommonUtil.TwoValuesIffNotConstant | web/common_util.py:855-869 | holding two values means some entry differs from the first |
| CommonUtil.Cleaned | web/common_util.py:448-450 | the cleaned classes are exactly the non-empty stripped fields |
| CommonUtil.Dedupe | web/common_util.py:459 | `dict.fromkeys` keeps each element once and nothing else |
| CommonUtil.DedupeSorted | web/common_util.py:451-459 | removing later duplicates keeps a sorted list sorted |
| CommonUtil.SortClassesMeaning | web/common_util.py:444-460 | each input class once, ordered by leading number with non-numeric classes last, equal numbers in text order |
| CommonUtil.SortClassesOfText | web/common_util.py:448-450 | from a text, the classes are its non-blank comma-separated fields, stripped |
| CommonUtil.Removed | web/common_util.py:555 | the dropped classes are the original ones not kept |
| CommonUtil.NeedsPaper | web/common_util.py:462-632 | a paper is needed exactly when targets are returned, and then they are the targets of the asked entries |
| CommonUtil.TargetsMeaning | web/common_util.py:462-632 | a paper is needed exactly when some asked entry needs it, and every target comes from such an entry |
| CommonUtil.DeletionIsAbandonment | web/common_util.py:571-576 | the deletion paper is decided as the abandonment paper |
| CommonUtil.AbandonmentExcludesSupplement | web/common_util.py:513-632 | no entry needs both an abandonment paper and a supplement paper |
| FeeCalculator.PatentDiscount | web/fee_calculator.py:56-81 | from 1 April 2019 `10_4_i`/`10_4_ro` divide by 3 and `10_3_ro` by 2, before only `H25_98_66` divides by 3, and nothing beyond year 10 |
| FeeCalculator.GenmenCodesEarnDiscount | web/fee_calculator.py:57-68 | every category the holder-name rule assigns earns a reduction from April 2019 |
| FeeCalculator.LatePaymentDoublesFirstYear | web/fee_calculator.py:84-92 | a range costs the sum of its years, plus the first year once more when paid late |
| FeeCalculator.TaxAll | web/fee_calculator.py:320-325 | the tax pass changes each line on its own and keeps the count |
| FeeCalculator.TrademarkOfficeLines | web/fee_calculator.py:192-276 | the trademark branch's office lines |
| FeeCalculator.ApplyTax | web/fee_calculator.py:320-325 | the in-place tax loop is the tax pass |
| FeeCalculator.AppendAgentLines | web/fee_calculator.py:278-318 | the agent lines are appended after the office lines |
| FeeCalculator.CalculateFees | web/fee_calculator.py:11-328 | office lines, agent lines, then the tax pass, or the exception the source raises |
| FeeCalculator.OfficeShape | web/fee_calculator.py:107-276 | office lines are untaxed yen office lines, and only a Japanese patent's line can be reduced |
| FeeCalculator.FeesParts | web/fee_calculator.py:11-328 | the estimate is the office lines then the agent lines, taxed |
| FeeCalculator.AssembledLines | web/fee_calculator.py:278-325 | office lines come first unchanged, then one to three taxed agent lines |
| FeeCalculator.AssembledSurcharges | web/fee_calculator.py:299-318 | the 10000 line appears exactly for dropped classes, the 3000 line exactly for a reduced line |
| FeeCalculator.FeesLineOrder | web/fee_calculator.py:107-318 | office lines, then the agent's 5000 yen, always present, then at most the 10000 and 3000 surcharges in that order |
| FeeCalculator.TaxOnAgentLinesOnly | web/fee_calculator.py:320-325 | every agent line carries 10 percent; no office line carries a rate |
| FeeCalculator.ClassDeletionSurcharge | web/fee_calculator.py:299-308 | the 10000 agent line appears exactly when a Japanese trademark is renewed for fewer classes than it holds |
| FeeCalculator.DiscountSurcharge | web/fee_calculator.py:310-318 | the 3000 agent line appears exactly when some line is reduced, which only a Japanese patent's office line can be |
| FeeCalculator.OfficeLineCount | web/fee_calculator.py:206-276 | no office line when inputs are missing; a second one exactly for classes dropped at the second five-year payment |
| FeeCalculator.OfficeLinePresence | web/fee_calculator.py:45-297 | missing inputs suppress the office line but keep the agent line; otherwise the estimate opens with the office fee |
| FeeCalculator.AnnuityOfficeFee | web/fee_calculator.py:83-168 | an annuity's office fee is the sum of its years, the first counted twice when late |
| FeeCalculator.TrademarkLateDoubles | web/fee_calculator.py:243-245 | a late trademark payment doubles the whole office fee |
| FeeCalculator.FeesErrors | web/fee_calculator.py:15-20 | the assertion errors: a non-positive `year_from`, a trademark term other than 5 or 10, a Japanese patent without a positive claim count |
| FeeCalculator.TotalFeeList | web/fee_calculator.py:330-354 | the loop totals the picked lines, or fails its currency or tax-rate assertion |
| FeeCalculator.SelectedMembers | web/fee_calculator.py:337-341 | exactly the lines of the kind that carry the field are totalled |
| FeeCalculator.UniformConsistent | web/fee_calculator.py:342-351 | lines sharing one currency and one rate total without an assertion failure |
| FeeCalculator.EstimateTotals | web/fee_calculator.py:330-354 | every estimate totals: office lines in untaxed yen, agent lines in yen at 10 percent |
| Database.SortedLastIsNewest | web/database.py:421-426 | after sorting by `RequestedTime` the last request is no older than any other |
| Database.SortedLastIsLastTied | web/database.py:421-426 | the last request after the stable sort is the last input request with that time |
| Database.LatestIsNewest | web/database.py:421-427 | the request consulted is the newest, the last listed among equals, and exists exactly when some request does |
| Database.PaidAfter | web/database.py:397-462 | a moved expiration date stays a valid date |
| Database.PaidAfterFacts | web/database.py:430-462 | only a trademark's expiration moves, by exactly ten years; a non-trademark's paid years never go down; no request means the stored values |
| Database.AdjustPaidYears | web/database.py:397-462 | the step-by-step correction of paid years and expiration date |
| Database.TrademarkDeadlinesOf | web/database.py:480-490 | a Japanese trademark gets a limit, an opening date and a late limit |
| Database.RegisteredDeadlinesOf | web/database.py:497-507 | another right gets a limit, and a late limit only in Japan |
| Database.Computed | web/database.py:464-507 | only the three deadline keys are computed |
| Database.RenewQueryGuarantees | web/database.py:509-542 | no key both set and removed, only deadline keys touched (never `ExpirationDate` or `PaidYears`), a limit always with a late limit, no limit means all three removed |
| Database.TrademarkDeadlines | web/database.py:467-490 | with base `L` = expiration less `12·(10-y)` months: limit the business day from `L`, opening `L`-6 months unadjusted, late limit the business day from `L`+6 months |
| Database.RegisteredDeadlines | web/database.py:492-522 | limit `12·y` months after registration (business day in Japan), dropped past the expiration of a non-trademark or when disappeared, late limit `12·y+6` months or the limit |
| Database.NoBasisNoDeadline | web/database.py:528-532 | without a registration date (or a trademark's expiration date) all three deadlines are removed |
| Database.AsWrittenDiffersOnlyInOpenDate | web/database.py:515-537 | the source's query differs from the corrected one exactly when no limit survives but an opening date was computed |
| Database.DisappearedTrademarkKeepsOpenDate | web/database.py:515-537 | as written, a disappeared Japanese trademark keeps its opening date while its limit is removed |
| Database.RenewedOutcome | web/database.py:423-462 | the result is never "nothing to write"; it fails only for a right with a completed request: a trademark with an expiration date, or another right whose latest request has no `YearTo` |
| Database.ComputeTrademarkDeadlines | web/database.py:467-490 | the trademark branch computes those deadlines |
| Database.ComputeRegisteredDeadlines | web/database.py:492-507 | the registration branch computes those deadlines |
| Database.ComputeDeadlines | web/database.py:464-507 | the deadlines before any is dropped |
| Database.RemoveSetKeys | web/database.py:534-537 | the keys of `$set` leave `$unset` |
| Database.BuildRenewQuery | web/database.py:464-542 | the query built key by key is the corrected query |
| Database.RenewLimitDate | web/database.py:389-547 | the corrected `renew_limit_date` (see "## Findings"): the update, nothing when empty, or the exception a missing request key raises |
| Database.FirstOutOfOrderMeaning | web/database.py:328-336 | the pair reported is misordered, all before it are in order, and none is reported exactly when all are in order |
| Database.FindOutOfOrder | web/database.py:328-336 | the loop reports the first misordered pair |
| Database.NumberNeverCheckedAsWritten | web/database.py:216-225 | as written a misshapen number is never the reason for a refusal; the corrected check refuses exactly those and otherwise agrees |
| Database.MalformedNumberAcceptedAsWritten | web/database.py:216-225 | a new Japanese patent numbered `a` passes as written and is refused by the corrected check |
| Database.EditRejections | web/database.py:210-337 | an edit is refused exactly for a new number misshapen once converted to half-width and normalised, an out-of-range `PaidYears` or dates out of order after the merge |
| Database.ConvertedDigitsAccepted | web/database.py:216-225 | a new Japanese patent whose number is a digit run once converted to half-width (the full-width `０１２３`, say) is written without its leading zeros, widened to 7 digits, and passes the shape check |
| Database.EditedIsFinished | web/database.py:227-337 | an accepted edit writes the finished query and passed both checks |
| Database.FieldSetsValues | web/database.py:205-262 | the counts, `PaidYears` and the reduction category are read from the form exactly when present |
| Database.FieldSetsKeys | web/database.py:227-262 | besides those, only dates are read, and none is also cleared |
| Database.FinishFromKeeps | web/database.py:279-318 | the later rules leave every other key alone |
| Database.FinishFromSeparate | web/database.py:279-318 | the later rules never leave a key both set and removed |
| Database.ClassesStageCounts | web/database.py:279-296 | the classes rule writes the normalised classes and their count; the claim count is untouched |
| Database.CountStage | web/database.py:298-318 | a written count is at least one; a lower one moves to `$unset` |
| Database.FinishFromCounts | web/database.py:279-318 | what the rules after the range check do to the counts |
| Database.AcceptedPaidYears | web/database.py:264-277 | an accepted `PaidYears` is at least 0, and for Japan at least 3, at least 1, or 5 or 10 by law |
| Database.AcceptedDatesInOrder | web/database.py:320-336 | after an accepted edit no checked pair of dates is out of order |
| Database.AcceptedCounts | web/database.py:279-302 | counts below one are removed; classes are normalised and counted; no key is both set and removed |
| Database.GenmenOnlyForJpPatents | web/database.py:205-208 | the reduction category is written only for a Japanese patent, and only the form's |
| Database.CollectDates | web/database.py:239-248 | the date loop reads the present dates and clears the two clearable ones |
| Database.DropLowCounts | web/database.py:298-302 | counts below one move from `$set` to `$unset` |
| Database.ApplyClassesAndHolders | web/database.py:279-296 | the classes, holders and defensive-mark rules |
| Database.ApplyFlags | web/database.py:304-318 | the disappearance and silence flags |
| Database.FinishEdit | web/database.py:279-318 | the rules after the range check, in order |
| Database.ReadFields | web/database.py:205-262 | the fields read before the range check, or the refusal of a misshapen new number |
| Database.CheckPaidYears | web/database.py:264-277 | the range check on `PaidYears` |
| Database.ValidateEdit | web/database.py:205-337 | the corrected validation of `update_prop` |
| Notify.CheckpointsSteps | task/notify_to_users.py:508-525 | each checkpoint is a valid date strictly before the one listed ahead of it |
| Notify.CheckpointsDescending | task/notify_to_users.py:508-525 | five valid checkpoints, newest first, without repetition |
| Notify.GetCheckpoints | task/notify_to_users.py:508-525 | the list appended then sorted is the five checkpoints, newest first |
| Notify.TimingAt | task/notify_to_users.py:241-251 | a timing exists exactly for indexes up to 4 |
| Notify.DueIndex | task/notify_to_users.py:234-238 | the first checkpoint on or before today, every earlier one after today |
| Notify.FirstDue | task/notify_to_users.py:234-238 | the index scan finds it |
| Notify.EarliestAfter | task/notify_to_users.py:252 | the earliest checkpoint after today, or `ValueError` exactly when none is after today |
| Notify.SelectTiming | task/notify_to_users.py:233-254 | the timing and next sending day of one right |
| Notify.SelectionOnCheckpoint | task/notify_to_users.py:233-254 | on the `k`-th checkpoint the timing is that of `k` and the next sending day is the checkpoint before it in the list |
| Notify.NoReminderBeforeSixMonths | task/notify_to_users.py:233-251 | no reminder exactly while six months before the deadline is still ahead |
| Notify.EmptyMinOnlyAfterDeadline | task/notify_to_users.py:252 | the empty `min` happens exactly once the day after the deadline is reached |
| Notify.AfterMonthFacts | task/notify_to_users.py:485-506 | the result is `n` months on, a month end stays a month end, and it is never before `add_months` |
| Notify.AfterMonth | task/notify_to_users.py:485-506 | the day-by-day walk to the month end |
| Notify.RemindedRightsGetNotice | task/notify_to_users.py:70-103 | a right reminded on a checkpoint gets a timing and a next sending day after today; only a trademark is reminded six months ahead |
| Notify.BackReaches | task/notify_to_users.py:453-455 | the loop's month steps stay on or after `d1` below the closed-form count |
| Notify.BackMisses | task/notify_to_users.py:453-455 | the step at the closed-form count falls before `d1` |
| Notify.DiffMonthsOrDays | task/notify_to_users.py:449-468 | the counting loop and the choice of unit |
| Notify.DiffMeaning | task/notify_to_users.py:449-468 | a count in days is the exact difference, at most 20, within a month; a count in months is at least one |
| Notify.EqualDaysExact | task/notify_to_users.py:465-466 | with the same day of month the loop counts one more than the months between |
| Notify.MonthBackIsFourWeeks | task/notify_to_users.py:514-519 | one month back is at least 28 days back |
| UserPage.InitialYears | web/user_page.py:589-595 | 10 for a Japanese trademark with no or 10 paid years, 5 for other Japanese trademarks, 1 otherwise |
| UserPage.NewYears | web/user_page.py:942-955 | a step of 5 or 1 is taken exactly when the result stays in `[min, max]` |
| UserPage.RequestableYearsRange | web/user_page.py:940-955 | a requestable right's year range is never empty |
| UserPage.InitialYearsInRange | web/user_page.py:580-595 | the initial years lie in that range |
| UserPage.YearStepRoundTrip | web/user_page.py:950-955 | a step up is undone by a step down |
| UserPage.TrademarkYearsFiveOrTen | web/user_page.py:943-955 | a Japanese trademark's years stay 5 or 10 |
| UserPage.Without | web/user_page.py:1016 | switching a class off removes exactly that class |
| UserPage.ToggleClass | web/user_page.py:997-1016 | an unknown class or switching off the last class is refused; on adds once and sorts, off removes |
| UserPage.Cart.MarkRefused | web/user_page.py:672-679 | an unrequestable cart records the reason and drops its fees |
| UserPage.Cart.Open | web/user_page.py:689-710 | the agent, the flags and the year range of a requestable cart |
| UserPage.Cart.SetExpiring | web/user_page.py:712-719 | the expiry warning of an annuity |
| UserPage.Cart.CountClasses | web/user_page.py:725-735 | a trademark's classes to renew and to drop |
| UserPage.Cart.SetYearRange | web/user_page.py:737-756 | an annuity's year range and fees |
| UserPage.Cart.PriceTrademark | web/user_page.py:758-769 | a trademark's fees and the year reached, modulo 10 |
| UserPage.Cart.SetLimit | web/user_page.py:771-776 | the deadline, six months later when paid late |
| UserPage.Cart.SetTotals | web/user_page.py:778-818 | the office and agent totals, or the estimate flag |
| UserPage.UpdateCart | web/user_page.py:655-826 | no cart stays no cart; otherwise the cart is rewritten stage by stage |
| UserPage.RefusedCartCarriesNoFees | web/user_page.py:671-679 | a refused cart records its reason and carries no fees, agent or estimate flag |
| UserPage.UpdatedRequestable | web/user_page.py:681-826 | a requestable cart is priced, then totalled |
| UserPage.TotalsKeep | web/user_page.py:778-818 | the totals change only the totals and the estimate flag |
| UserPage.CartHeader | web/user_page.py:689-710 | the header the cart ends with is the one opened |
| UserPage.StagesKeepHeader | web/user_page.py:712-818 | no later stage changes the header |
| UserPage.RequestableCartHeader | web/user_page.py:689-710 | agent `0001`, a non-empty year range, the late flag, classes droppable unless a Japanese trademark has fewer than two or is late |
| UserPage.CartLimit | web/user_page.py:771-776 | the cart's deadline is the right's, or six months later when late, never earlier |
| UserPage.EstimateUnlessPriced | web/user_page.py:783-818 | without a fee list the cart asks for an estimate; a Japanese right always has a fee list |
| UserPage.AnnuityCartYears | web/user_page.py:715-756 | an annuity pays years `PaidYears+1` through `PaidYears+Years`; the expiry warning means those years run past the expiration |
| UserPage.AnnuityCartExpiry | web/user_page.py:715-719 | the expiry warning reaches the cart unchanged |
| UserPage.TrademarkCartYears | web/user_page.py:726-769 | a trademark renews its selected classes, drops the rest, pays 5 or 10 years and reaches a year from 1 to 10 |
| UserPage.JapaneseFeeList | web/user_page.py:753-764 | a Japanese cart carries exactly the fee list `calculate_fees` returned |
| UserPage.ComputedListTotals | web/user_page.py:783-813 | a computed fee list totals, and its agent total is in yen |
| UserPage.JapaneseCartTotals | web/user_page.py:783-818 | a Japanese cart never fails at the totals |
| UserPage.Earliest | web/user_page.py:1271 | the minimum is one of the dates and no later than any |
| UserPage.PayLimitCases | web/user_page.py:1268-1276 | no payment deadline when no target has a cart; a request mixing carted and uncarted targets fails |
| UserPage.PayLimitBounds | web/user_page.py:1266-1276 | the payment deadline is within two weeks, not before today, and before every cart deadline unless the earliest is already today or past |
| StaffPage.EntryFor | web/staff_page.py:890 | the request's first entry for the right, or none exactly when no entry names it |
| StaffPage.HasRegisterDiscount | web/staff_page.py:901 | some fee line carries one of the three reductions that need the register |
| StaffPage.CheckGembo | web/staff_page.py:877-905 | no lookup when every holder is identified; a missing entry raises; a lookup only when some holder is unidentified |
| StaffPage.GemboForTrademark | web/staff_page.py:893-898 | a trademark needs the lookup exactly when it does not pay five years |
| StaffPage.GemboForAnnuity | web/staff_page.py:899-905 | another right needs it exactly when a line has one of the three reductions |
| StaffPage.NoHoldersNoGembo | web/staff_page.py:881-888 | an empty holder list never needs the lookup |
| StaffPage.AnyTitled | web/staff_page.py:1613 | the loop answers whether some file has a title |
| StaffPage.AnyPaymentForm | web/staff_page.py:1615 | the loop answers whether some titled file names a payment form |
| StaffPage.AnyNamed | web/staff_page.py:1625-1630 | the loop answers whether some file carries exactly that title |
| StaffPage.FilesComplete | web/staff_page.py:1611-1630 | complete exactly with a titled file and a payment form, plus the three class-deletion documents for a Japanese trademark dropping classes without paying ten years; a missing key raises |
| StaffPage.PaymentFormTitle | web/staff_page.py:1615 | a one-line title ending in a form's name names a payment form |
| StaffPage.BrokenTitleIsNoPaymentForm | web/staff_page.py:1615 | a title broken before the form's name does not |
| StaffPage.TempExpiration | web/staff_page.py:1682-1686 | the first of registration, +10, +20 years, … not before twelve months from now |
| StaffPage.TermEndsIncrease | web/staff_page.py:1684-1686 | the term ends strictly increase |
| StaffPage.TempExpirationShape | web/staff_page.py:1686 | each term end keeps the registration month, `10·i` years on |
| StaffPage.RequestStatusMeaning | web/staff_page.py:829-830 | paid: every right paid or canceled and one paid; canceled (line 1055): every right canceled |
| StaffPage.PaidAndCanceledExclusive | web/staff_page.py:829-830 | unless some right is both paid and canceled, no request is both; an empty request is canceled and not paid |
| DailyInquire.BlankIsStripEmpty | task/daily_inquire.py:56 | a blank field is one that strips to nothing |
| DailyInquire.RowStopsAtError | task/daily_inquire.py:56-62 | once a field has raised, the rest of the line is not read |
| DailyInquire.MakeRecord | task/daily_inquire.py:56-62 | the field loop builds the record |
| DailyInquire.RowError | task/daily_inquire.py:56-62 | a line raises `IndexError` exactly when a non-blank field has no header |
| DailyInquire.RowKeys | task/daily_inquire.py:56-62 | the record's keys are the headers of the non-blank fields |
| DailyInquire.RowValues | task/daily_inquire.py:56-62 | each key holds the untrimmed text of the last non-blank field under it |
| DailyInquire.TooManyFields | task/daily_inquire.py:44-62 | after `rstrip`, a line raises exactly when it has more fields than headers |
| DailyInquire.ScanStopsAtError | task/daily_inquire.py:39-70 | after the generator raises, no later line is read |
| DailyInquire.ReadTsv | task/daily_inquire.py:29-70 | the `readline` loop with its counter and header state |
| DailyInquire.BlankLineIgnored | task/daily_inquire.py:44-46 | a blank line anywhere changes nothing |
| DailyInquire.RecordCount | task/daily_inquire.py:42-67 | the header is read once there is a counted line, and every later counted line yields one record |
| DailyInquire.HeadersKept | task/daily_inquire.py:48-51 | once read, the header stays |
| DailyInquire.BlankFile | task/daily_inquire.py:42-70 | an all-blank file gives nothing |
| DailyInquire.HeaderIsFirstCounted | task/daily_inquire.py:48-51 | the header is the first counted line, stripped and split at tabs |
| DailyInquire.RecordsAreRows | task/daily_inquire.py:53-65 | every record is the row of some counted line against the header |
| DailyInquire.Ymd | task/daily_inquire.py:119 | a date's `yyyymmdd` text is eight digits |
| DailyInquire.ParseYmd | task/daily_inquire.py:119 | a parse gives a valid date, or `ValueError` |
| DailyInquire.ParsedYmd | task/daily_inquire.py:119 | a parsed date formats back to its text |
| DailyInquire.YmdRoundTrip | task/daily_inquire.py:119 | every four-digit-year date is read back from its text |
| DailyInquire.ParseInt | task/daily_inquire.py:127 | `int()` gives the number the stripped text spells, or `ValueError` |
| DailyInquire.IntRoundTrip | task/daily_inquire.py:127 | a number written with enough digits is read back |
| DailyInquire.DateField | task/daily_inquire.py:118-119 | a date is absent for a missing key or `00000000`; it raises exactly for a present text that does not parse |
| DailyInquire.CountField | task/daily_inquire.py:126-127 | the same for a count and its all-zero placeholder |
| DailyInquire.FieldsError | task/daily_inquire.py:117-147 | the record raises exactly when some present field does not parse |
| DailyInquire.FieldsValues | task/daily_inquire.py:117-147 | each value is absent exactly for a missing key or placeholder, otherwise what its text spells |
| DailyInquire.SameRight | task/daily_inquire.py:160-161 | a row matches by `law_cd` then `reg_num`; a missing key raises `KeyError` |
| DailyInquire.CollectHolders | task/daily_inquire.py:152-175 | the holder loop with its `break` |
| DailyInquire.HolderScanMeaning | task/daily_inquire.py:158-175 | the whole holder list is discarded exactly when a matching row lacks an applicant id; otherwise it has the holders of all matching rows |
| DailyInquire.CollectClasses | task/daily_inquire.py:180-195 | the class loop |
| DailyInquire.ClassScanMeaning | task/daily_inquire.py:186-195 | the classes are exactly the designated classes of the matching rows, in file order with repeats |
| DailyInquire.UpdateShape | task/daily_inquire.py:114-195 | the update raises what the fields raise, or carries the fields and the non-empty holder and class lists with the class count |
| DailyInquire.ExpectedKeys | task/daily_inquire.py:200-219 | the query sets the three timestamps, and `PaidYears` and `NextProcedureLimit` exactly when the update has them, and nothing else |
| DailyInquire.BuildQuery | task/daily_inquire.py:200-219 | built as the source does, the query does not depend on the stored values |
| DailyInquire.WritesMeaning | task/daily_inquire.py:198-224 | one write per right found, in order, each with that query; the clock is read once for all of them |
| DailyInquire.ImportedStops | task/daily_inquire.py:95-224 | once a record has raised, no later record is imported |
| DailyInquire.ImportedFromRecords | task/daily_inquire.py:95-224 | every write comes from a record that did not raise |
| DailyInquire.WriteAll | task/daily_inquire.py:198-224 | the loop over the rights found |
| DailyInquire.ImportOne | task/daily_inquire.py:97-224 | the body of the record loop |
| DailyInquire.ImportLaw | task/daily_inquire.py:93-224 | the loop over one law's records |
| DailyInquire.RecordTargets | task/daily_inquire.py:98-224 | a record's writes go to the rights found for its padded number, stamped now |
| DailyInquire.ImportTargets | task/daily_inquire.py:95-224 | every write of an import goes to a right found for one of its records, stamped now |
| WebUtil.Paging | web/web_util.py:326-335 | one page of everything when it fits; otherwise the page is clamped into `[1, p_max]` and is that slice |
| WebUtil.PagesPrefix | web/web_util.py:326-335 | the first `k` pages are the list up to the end of page `k` |
| WebUtil.PagesCover | web/web_util.py:326-335 | all pages in turn give the whole list, each item once and in order |
| WebUtil.DateText | web/web_util.py:642 | `%Y-%m-%d` is ten characters with dashes |
| WebUtil.DateTimeText | web/web_util.py:643 | `%Y-%m-%d %H:%M:%S` starts with the date text |
| WebUtil.Assign | web/web_util.py:639-646 | a dictionary assignment keeps an existing key's place and adds a new key last |
| WebUtil.StampDate | web/web_util.py:641-644 | a `datetime` under `k` gives `k`, `k_Date` and `k_DateTime`, with `k` equal to `k_Date` |
| WebUtil.Put | web/web_util.py:640-646 | one pass of the key loop touches only the keys it shows |
| WebUtil.AdjustEntries | web/web_util.py:638-647 | the rebuilt dictionary has unique keys |
| WebUtil.AdjustItems | web/web_util.py:649-653 | lists are converted item by item |
| WebUtil.EntriesShown | web/web_util.py:640-646 | every original entry is shown in the rebuilt dictionary |
| WebUtil.EntriesKeys | web/web_util.py:640-646 | no key but the original keys and their companions |
| WebUtil.AdjustDict | web/web_util.py:633-661 | a dictionary is rebuilt key by key as promised |
| WebUtil.AdjustSafe | web/web_util.py:633-661 | the result can be given to `json.dumps` |
| WebUtil.AdjustFixesSafe | web/web_util.py:633-661 | a JSON-safe value comes back unchanged |
| WebUtil.AdjustIdempotent | web/web_util.py:633-661 | converting twice is converting once |
| KigenCommon.PageParameters | web/kigen_common.py:8-38 | a bad page is 1, an unknown sort key `n`, an unknown direction `a` |
| KigenCommon.ParametersRoundTrip | web/kigen_common.py:8-38 | parameters written back into a link read back unchanged |
| KigenCommon.SortWith | web/kigen_common.py:40-69 | a permutation of the input, or `IndexError` exactly for an empty holder list under key `h` |
| KigenCommon.OrderTotal | web/kigen_common.py:44-68 | every ordering is total and transitive |
| KigenCommon.SortedAndStable | web/kigen_common.py:40-69 | ordered by the key, equal keys in input order; an unknown key returns the list as it is |
| KigenCommon.LimitKeyBounds | web/kigen_common.py:46 | a stored deadline lies strictly between `datetime.min` and `datetime.max` |
| KigenCommon.MissingLimitsLast | web/kigen_common.py:44-46 | by deadline, rights without one come last in either direction |
| KigenCommon.TiersInOrder | web/kigen_common.py:47-68 | ascending, with all keys below the missing-value string, rights with the value come first, then name-only users, then the rest |
| KigenCommon.IntendedTiersInOrder | web/kigen_common.py:47-68 | with the sentinel U+10FFFF the same holds for any key not starting with that noncharacter |
| KigenCommon.SentinelMisorders | web/kigen_common.py:55-59 | as written, a holder starting above U+10FFF sorts after a right with no holders |
| KigenCommon.IntendedSentinelOrders | web/kigen_common.py:55-59 | with the intended sentinel that holder comes first |
| Sorting.SortPermutes | web/kigen_common.py:47-68 | `sorted` returns a permutation of its input |
| Sorting.SortSorts | web/kigen_common.py:47-68 | under a total preorder, `sorted` returns its input in key order |
| Sorting.SortStable | web/kigen_common.py:47-68 | `sorted` is stable: each group of equal keys keeps its input order |
| Sorting.MembersSurviveSort | web/kigen_common.py:47-68 | sorting neither adds nor loses an element |
| Sorting.SortReversesDescending | task/notify_to_users.py:525 | a list whose elements each strictly precede the ones before them sorts into its reverse |
| Sorting.SortThenBy | web/common_util.py:451-458 | a stable sort by a primary key of a list sorted by a secondary key orders by the primary key with ties in secondary order |
| Security.PadCount | web/security.py:37-38 | from 1 to 32 bytes are added, filling the last block |
| Security.Pad | web/security.py:37-38 | the result is whole blocks, starts with the input, and every added byte holds the count added |
| Security.Unpad | web/security.py:54-55 | the result is a proper prefix; an empty input raises `TypeError` |
| Security.UnpadPad | web/security.py:37-55 | removing the padding gives back what was padded |
| Security.PadInjective | web/security.py:37-38 | different inputs never share a padded form |
| Security.MatchesRepeatMeaning | web/security.py:132 | the regex `(.)\1+$` matches exactly one character repeated |
| Security.MatchesDecimalMeaning | web/security.py:135 | the regex `\d+$` matches exactly the digit strings |
| Security.IsSafeAsPassword | web/security.py:120-138 | `None` is refused, a non-string raises, a string passes exactly with 8 or more characters, not one repeated, not all digits |
| Security.NonStringRaises | web/security.py:126-127 | the number 12345678 makes the check raise |
| Security.IntendedJudgesText | web/security.py:124-138 | the corrected check never raises and judges a non-string by its stripped text |
| Security.GeneratePasswd | web/security.py:19-24 | as many characters as draws, each a letter or digit |
| Security.EveryPasswordPossible | web/security.py:19-24 | every letters-and-digits string of the length is a possible result |
| Security.RandomMask | web/security.py:102-106 | each character kept or replaced by `*` as its draw says |
| Security.SplitMail | web/security.py:112 | the regex splits at the first `@` when no line break comes first, the domain ending at the line |
| Security.MaskMailAddress | web/security.py:108-118 | both sides of the `@` are masked, or the whole address when there is no usable `@` |
| Security.MaskKeepsShape | web/security.py:108-118 | the `@` stays and every character is the original or `*` |
| Security.MaskKeepAll | web/security.py:102-106 | draws that all keep leave the text unchanged |
| Security.KeepAllUnmasked | web/security.py:108-118 | then the address comes back up to its first line break |
| Security.MailLine | web/security.py:112-116 | the two parts with the `@` between are the first line |
| PdfMaker.CharWidth | web/pdf_maker.py:23-24 | two half units exactly for a wide character, else one |
| PdfMaker.WidthAppend | web/pdf_maker.py:21-25 | widths add up over concatenation |
| PdfMaker.WidthBounds | web/pdf_maker.py:21-25 | a text is one to two half units per character |
| PdfMaker.TextWidth | web/pdf_maker.py:15-25 | the loop sums the widths; a non-string measures 0 |
| PdfMaker.BreakIndex | web/pdf_maker.py:34 | the first line-break character |
| PdfMaker.ReSplitShape | web/pdf_maker.py:34 | the split alternates paragraphs without breaks and separators |
| PdfMaker.ReSplitPieces | web/pdf_maker.py:34-37 | each piece is a paragraph without breaks or breaks only |
| PdfMaker.ReSplitJoins | web/pdf_maker.py:34 | the pieces joined are the text |
| PdfMaker.Absorb | web/pdf_maker.py:48-51 | only punctuation is moved, and what is left does not start with punctuation |
| PdfMaker.IntendedStep | web/pdf_maker.py:43-52 | every corrected turn consumes a character |
| PdfMaker.FitMaximal | web/pdf_maker.py:45-47 | the greedy loop takes the longest prefix that fits |
| PdfMaker.FitAll | web/pdf_maker.py:45-47 | a text that fits is taken whole |
| PdfMaker.StepShape | web/pdf_maker.py:43-52 | a corrected line is the longest fitting prefix, or one over-wide character, then punctuation |
| PdfMaker.StallsAsWritten | web/pdf_maker.py:43-52 | as written, a too-wide non-punctuation character gives an empty line and no progress |
| PdfMaker.StallsOnWideCharacter | web/pdf_maker.py:43-52 | a length below one full-width character stalls on a kanji |
| PdfMaker.IntendedAgrees | web/pdf_maker.py:43-52 | whenever the written turn progresses, the corrected one does the same |
| PdfMaker.WideLimitProgresses | web/pdf_maker.py:45-47 | with a length of at least 1.0 every written turn progresses and equals the corrected one |
| PdfMaker.NextLine | web/pdf_maker.py:43-52 | one turn of the corrected loop |
| PdfMaker.TakePunctuation | web/pdf_maker.py:48-51 | the punctuation loop |
| PdfMaker.WrapText | web/pdf_maker.py:27-54 | the corrected `wrap_text` |
| PdfMaker.AbsorbThins | web/pdf_maker.py:48-51 | the punctuation loop keeps every character but the whitespace it drops |
| PdfMaker.LinesThin | web/pdf_maker.py:43-52 | a paragraph's lines joined are the paragraph less some whitespace after punctuation |
| PdfMaker.LinesExact | web/pdf_maker.py:43-52 | without whitespace after punctuation they are the paragraph exactly |
| PdfMaker.AbsorbExact | web/pdf_maker.py:48-51 | in a text without whitespace after punctuation the punctuation loop drops nothing |
| PdfMaker.AbsorbNoBreak | web/pdf_maker.py:48-51 | the punctuation loop brings no line break into either part |
| PdfMaker.LinesNoBreak | web/pdf_maker.py:43-52 | a paragraph without breaks wraps into lines without breaks |
| PdfMaker.PiecesNoBreak | web/pdf_maker.py:34-41 | wrapping the split pieces gives no line with a break |
| PdfMaker.WrapNoBreak | web/pdf_maker.py:34-52 | no line holds a carriage return or line feed |
| PdfMaker.FitsOneLine | web/pdf_maker.py:43-52 | a fitting paragraph is one line |
| PdfMaker.EmptyTextKept | web/pdf_maker.py:38-41 | an empty text is one empty line |
| PdfMaker.SplitTwoLineFeeds | web/pdf_maker.py:34 | two line feeds split into three empty paragraphs and two separators |
| PdfMaker.EmptyParagraphKept | web/pdf_maker.py:34-41 | two line feeds give three empty lines |

## Left out

- The web layer (routes, templates, cookies, sessions, authentication, CSRF) and the other `web_util` helpers: HTTP plumbing.
- Database access: every read is a parameter (the stored right, the completed requests, the rights found for a number, "request in flight" and "completed within 183 days" booleans), and every write is the returned update. `under_process` and `next_number` are left out.
- The clock: `today` and `now` are parameters.
- Mail: the sending, subject and body text of `about_next_procedure`, and the completion mails of `check_request_is_completed`.
- Localisation: message texts and reasons are opaque values.
- Floating point: amounts, paid years and widths are whole numbers (widths in half units). Currency exchange, `fit_currency_precision` and `total_fees_for_request` are not modelled.
- PdfMaker.WrapText: the `assert length > 0.0` is not modelled; a limit of 0 half units is accepted and handled like any limit narrower than a character.
- Dates: `Valid` does not bound the year to 1..9999, so `datetime`'s `ValueError` outside that range is not modelled.
- JpoPrice.DefensiveTrademarkRenew: the `assert classes > 0` is a precondition rather than an `AssertionError` result; its one caller passes a positive class count.
- Cryptography: `encrypt`, `decrypt`, `encrypt_dict`, `decrypt_dict` and `hash`. Only the padding is modelled.
- Foreign helpers are parameters: `unicodedata.east_asian_width` (`wide`), `mojimoji.zen_to_han` (`zenToHan`), the regex class `\d` in `security.dfy` (`decimal`) and the random draws of `generate_passwd` and `random_mask`.
- `parse_date`, `regularize_app_num` and `smart_split_texts`: regex-heavy parsing.
- The `PdfMaker` class: layout through a foreign library.
- FeeCalculator.CalculateFees: the write of `now` into a missing `ExamClaimedDate` is not modelled; `now` serves as the examination date instead.
- Database.ValidateEdit: the form arrives with its dates and numbers converted, so the `ValueError` refusals of the conversions are not modelled. The free-text fields, `USPTO`, the release of `Abandoned`, the timestamps and the insert or update call are not part of the modelled query.
- Database.RenewLimitDate: the log lines are left out; the in-memory move of `ExpirationDate` is the returned pair of `PaidAfter`.
- DailyInquire.ParseYmd: only exactly eight ASCII digits are read; `strptime`'s acceptance of shorter fields is not modelled.
- DailyInquire.ImportLaw: the tar archive, the member lookup and `bulk_import` are not modelled.
- UserPage.UpdateCart: the description texts and the exchanged fees are not modelled. `add_to_cart`, `update_years_in_cart` and `update_classes_in_cart` are modelled as their decision rules; their database writes and `remove_from_cart` are not.
- StaffPage.FilesComplete: the status updates and the mails that follow a complete set of files are not modelled.
- Notify.RemindedRightsGetNotice: the `User`, `Ignored` and `Abandoned` filters of the query are not part of the candidate test, nor is `check_active_request`, which drops rights with a request in flight or completed within 183 days.
- DailyInquire.WritesMeaning: one `now` stamps every write, while the source reads `datetime.now()` again for each right.
- CommonUtil.Pad0: `\d` is read as the ASCII digits only; Python's `\d` also matches other Unicode decimal digits, such as the full-width ones, which the model treats as text after the digit run.
- CommonUtil.SortClassesMeaning: a class whose leading digits are not ASCII (full-width `０９`, say) sorts last in the model, whereas Python's `\d` and `int()` would sort it by its value.
- DailyInquire.ParseInt: `int()` is read as white space around an optional sign and ASCII digits; Python's `int()` also accepts underscores between digits and other Unicode decimal digits, which the model rejects with `ValueError`.
- Database.EditRejections: the shape checks read `\d` as ASCII digits; full-width digits are converted first by `zenToHan`, but other Unicode decimal digits that Python's `\d` matches are refused by the model.
- KigenCommon.PageParameters: the query string is read by the caller and passed in.

## Findings

| source | as written | input that shows it | evidently intended | confidence | as-written member | corrected member |
|---|---|---|---|---|---|---|
| web/common_util.py:293-297 | `add_years` builds `datetime(y + n, m, d)` for each year | a patent registered 2016-02-29 and expiring 2034-05-01: `datetime(2017, 2, 29)` raises `ValueError` | count the years with the month arithmetic used for every other deadline (19 here) | high, not executed | CommonUtil.LeapDayRegistrationRaises | CommonUtil.YearsToReach |
| web/pdf_maker.py:43-52 | the greedy loop can take no character, and the outer loop repeats while `t` is unchanged | `wrap_text("漢字", 0.5)` never returns | put at least one character on each line | high, not executed | PdfMaker.StallsOnWideCharacter | PdfMaker.WrapText |
| web/database.py:515-537 | the removal of the opening date is undone when keys in `$set` are dropped from `$unset` | a disappeared Japanese trademark with an expiration date keeps `NextProcedureOpenDate` while its limit is removed | remove all three deadline keys together | medium, not executed | Database.DisappearedTrademarkKeepsOpenDate | Database.BuildRenewQuery |
| web/database.py:216-225 | the shape check compares the whole form `input` with `'JP'` and `'Trademark'` | a new Japanese patent numbered `a` is accepted | compare the country and the law | high, not executed | Database.MalformedNumberAcceptedAsWritten | Database.ValidateEdit |
| web/kigen_common.py:49-67 | `'\U00010FFFF'` is U+10FFF followed by `F` | a first holder starting with 𠮷 (U+20BB7) sorts after a right with no holders | the highest code point U+10FFFF, so missing values sort last | medium, not executed | KigenCommon.SentinelMisorders | KigenCommon.IntendedTiersInOrder |
| web/security.py:126-127 | a non-string is converted with `str(raw).trim()` | `is_safe_as_password(12345678)` raises `AttributeError` | `str(raw).strip()` | high, not executed | Security.NonStringRaises | Security.IntendedJudgesText |
