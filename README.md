# Compound-interest calculator: a verified model of its core

This project models the computational core of a browser-based compound-interest
calculator (`calculator/calculator.js`) and proves properties of the model.
The calculator takes an account, a rate and a span, and works in these stages:

- It checks the form in a fixed order and normalises the quoted rate to a rate
  per compounding period (`convertToAnnualRate`, the front half of `calculate`).
- It works out the span from a date range or from year, month and day offsets,
  and describes it in words (`formatTimePeriod`, `formatTimePeriodFromInputs`).
- It projects the balance: the principal grows over the whole span, and every
  periodic deposit grows from the moment it is made (`calculateWithContributions`).
- It samples that projection for the growth chart, together with a no-interest
  baseline (`generateChart`).
- It chooses which breakdown granularities to offer, and which one to open on
  (`setupBreakdownViewOptions`).
- It lays out the breakdown table row by row (`generateBreakdown`), with dates
  shown as "DD/MM/YY" or "10 Oct 2025" (`formatDateShort`, `formatDateLong`).

Modules, one per file:

- `Wrappers`: `Option` and `Result`.
- `Numbers`: `Math.ceil`, `Math.min` and `Math.max`, integer powers, and the
  growth curve that stands for `Math.pow(1 + rate, x)`.
- `Text`: numerals, `padStart`, `slice` and `join`; the period and date
  formatters; and parsers that read their output back, used to prove the
  formatters round-trip. The parsers split strings with `SplitOn`, which the
  calculator itself never does.
- `Engine`: the projection, specified by `Project` and computed by the method
  `CalculateWithContributions` with its deposit loop.
- `Inputs`: rate conversion and the checks and span computation of `calculate`.
- `Views`: the breakdown select, a class whose `Setup` method clears and refills
  its options and selects the default view.
- `Chart`: the chart's sample count, sample times and the two series.
- `Breakdown`: the table's view modes, row count, header and row loop.
- `Scenarios`: worked examples, stated over the whole calculation.

`Math.pow(1 + periodRate, x)` with a fractional exponent is the parameter
`g: real -> real`. Lemmas assume what they need of it:

- `IsGrowthCurve(g, r)`: `g(0) = 1`, and `g(x + 1) = (1 + r) * g(x)` for `x >= 0`.
  At whole exponents `g` is then the integer power.
- `Nondecreasing(g)`: `g` never falls, as is the case for a rate that is not
  negative.

Amounts and times are exact reals.

## Model

| member | source | states |
|---|---|---|
| Inputs.ConvertToAnnualRate | calculator/calculator.js:96-108 | A daily rate is multiplied by 365, a monthly one by 12 and a quarterly one by 4; any other rate type is left as it is. |
| Inputs.AnnualRateScales | calculator/calculator.js:96-108 | The conversion never changes a rate's sign and never lowers a non-negative rate. Dividing a daily, monthly or quarterly rate's annual figure by 365, 12 or 4 gives the quoted rate back. |
| Inputs.PeriodRate | calculator/calculator.js:292-294 | The per-period decimal rate times the compounding frequency times 100 gives back the annual percentage, so the percentage is divided out exactly once. A non-negative annual rate gives a non-negative period rate. |
| Inputs.DiffDays | calculator/calculator.js:312-313 | The whole days between two instants: a partial day counts as one, so d-1 days fall short of the gap and d days cover it. At least one day separates distinct instants. |
| Inputs.UsesDateRange | calculator/calculator.js:302 | The date range is used exactly when both date fields are filled. A definition; TimeSpan and Validate state each mode's outcome in terms of it. |
| Inputs.TimeSpan | calculator/calculator.js:296-334 | The date range is used only when both dates are given. It fails with EndNotAfterStart exactly when the end is not after the start, and otherwise spans the whole days over 365 and is described by formatTimePeriod. Without both dates, it fails with NoTimePeriod exactly when all offsets are zero, and otherwise spans years + months/12 + days/365 and is described by formatTimePeriodFromInputs. |
| Inputs.Validate | calculator/calculator.js:266-334 | Each alert of calculate is raised exactly when its own condition holds and every earlier check passed: no amount, then a negative rate, then the end not after the start, then no time period. On success it returns the account as entered, the converted and divided period rate (never negative), and the span and text of TimeSpan. |
| Inputs.NegativeDurationAccepted | calculator/calculator.js:317-334 | As written, the duration check refuses only all-zero offsets. One year with minus twelve months is accepted, spans zero time, and is described as "1 year". |
| Inputs.ValidateChecked | calculator/calculator.js:317-334 | The corrected check fails exactly when Validate fails or a duration offset is negative. Otherwise it agrees with Validate. |
| Inputs.CheckedSpanIsPositiveAndDescribed | calculator/calculator.js:302-334 | Every accepted span is positive, and its text parses back. A date range's text gives years of 365 days, months of 30 (at most 12) and days under 30, adding up to the span. A duration's text gives back the offsets as entered. |
| Engine.Periods | calculator/calculator.js:114 | A per-year frequency times a span in years, not rounded, as at 114, 130 and 141. A definition; PeriodsMonotone states that it grows with the span. |
| Engine.HasContributions | calculator/calculator.js:118 | The deposit stream is active exactly when its frequency is above 0 and its amount is positive: the negation of the early-return test at 118, and the hasContributions test at 394, 643 and 869. A definition; Project, DepositCount, Baseline and HeaderColumns state what it switches. |
| Engine.ContributionPeriods | calculator/calculator.js:130 | The nominal number of deposits, contributionFreq * t, not rounded. A definition; DepositCount and ContributionsNominal state how it bounds the deposits made and the contributions counted. |
| Engine.Pow1 | calculator/calculator.js:115 | Math.pow(1 + periodRate, x), as at 115 and 142: the growth curve g at exponent x. A definition; GrowthAtWholeExponent, GrowthAtLeastOne and the Engine lemmas state its properties under IsGrowthCurve and Nondecreasing. |
| Engine.Project | calculator/calculator.js:112-157 | The accounting identities. The principal-only figure is principal * (1+r)^(compounding periods). The final amount is that plus the grown deposits. Total interest is final minus principal minus contributions. Contributions are the amount times the nominal (unrounded) number of deposits, or 0 without a deposit stream. |
| Engine.CalculateWithContributions | calculator/calculator.js:112-157 | The method, with its early return and its deposit loop, computes exactly Project. |
| Engine.GrowDeposits | calculator/calculator.js:130-145 | The loop over i = 1, 2, ... while i <= contributionFreq * t, which skips deposits with negative remaining time, sums the grown value of every deposit made by time t: deposits 1 to floor(contributionFreq * t). |
| Engine.DepositStep | calculator/calculator.js:134-144 | Inside the loop bound a deposit's remaining time is never negative, so the skip branch is never taken, and adding its grown value extends the sum by one deposit. |
| Engine.DepositsExhausted | calculator/calculator.js:134 | The loop stops exactly after the last whole deposit period. |
| Engine.DepositValue | calculator/calculator.js:136-142 | Deposit i, made at i / contributionFreq years, grown over the compounding periods that remain until t. A definition; DepositOnTime, DepositFlat, DepositAtLeastAmount and DepositLater state its properties. |
| Engine.DepositSum | calculator/calculator.js:130-145 | The value at t of deposits 1 to k, the sum the loop accumulates. A definition; GrowDeposits, FlatDepositSum, DepositSumAtLeastDeposited and the DepositSumGrows lemmas state its properties. |
| Engine.ContributionGrowth | calculator/calculator.js:130-145 | Every deposit made by t, grown to t, or 0 without a deposit stream. A definition; GrowDeposits computes it and ContributionGrowthNondecreasing states its monotonicity. |
| Engine.DepositCount | calculator/calculator.js:130-145 | With a deposit stream and t >= 0, the deposits made by time t are floor(contributionFreq * t); otherwise there are none. |
| Engine.NoContributionsClosedForm | calculator/calculator.js:114-125 | Without deposits, over a whole number n of compounding periods, the balance is principal * (1+r)^n, contributions are 0, and the interest is the growth over the principal. |
| Engine.AtTimeZero | calculator/calculator.js:112-157 | At time 0 the projection is the principal, with no contributions and no interest. |
| Engine.ContributionsNominal | calculator/calculator.js:147 | totalContributions counts fractional deposits: it is at least the amount times the deposits made, and less than the amount times one deposit more. |
| Engine.PeriodsMonotone | calculator/calculator.js:114 | The number of periods grows with the span. |
| Engine.DepositOnTime | calculator/calculator.js:136-139 | Every deposit inside the loop bound has a non-negative remaining number of compounding periods. |
| Engine.DepositFlat | calculator/calculator.js:141-142 | On a flat curve (rate 0) a deposit is worth its face amount. |
| Engine.DepositAtLeastAmount | calculator/calculator.js:141-142 | With a rate that is not negative, a made deposit is worth at least its amount. |
| Engine.DepositLater | calculator/calculator.js:141-142 | A deposit is worth no less at a later time. |
| Engine.FlatDepositSum | calculator/calculator.js:130-145 | On a flat curve, k deposits sum to k times the amount. |
| Engine.FlatCurveBalance | calculator/calculator.js:112-157 | At rate 0 the balance is the principal plus the amount times the deposits made. |
| Engine.DepositSumAtLeastDeposited | calculator/calculator.js:130-145 | With a rate that is not negative, k made deposits are worth at least k times the amount. |
| Engine.PrincipalAtLeastPaidIn | calculator/calculator.js:114-115 | With a rate that is not negative and a non-negative principal, the grown principal is at least the principal. |
| Engine.DepositsAtLeastPaidIn | calculator/calculator.js:130-145 | With a rate that is not negative, the grown deposits are worth at least the amount times the deposits made. |
| Engine.BalanceAtLeastBaseline | calculator/calculator.js:112-157 | With a rate that is not negative and a non-negative principal, the balance is at least the principal plus the deposits made. |
| Engine.DepositSumGrowsWithTime | calculator/calculator.js:130-145 | The same k deposits are worth no less later. |
| Engine.DepositSumGrowsWithCount | calculator/calculator.js:130-145 | More deposits are worth no less, when the amount is not negative. |
| Engine.ContributionGrowthNondecreasing | calculator/calculator.js:130-145 | The grown value of the deposit stream never falls as the span grows. |
| Engine.PrincipalGrowthNondecreasing | calculator/calculator.js:114-115 | The principal's growth never falls as the span grows. |
| Engine.BalanceNondecreasing | calculator/calculator.js:112-157 | With a rate that is not negative and a non-negative principal, the final balance never falls as the span grows. |
| Engine.LastDepositUngrown | calculator/calculator.js:134-144 | When t ends exactly on deposit k, k deposits have been made and the last one has had no time to grow. |
| Numbers.MinInt | calculator/calculator.js:634-636 | Math.min on whole counts, for the chart's sample count and the table's row counts at 877-907: no more than either argument, and equal to one of them. |
| Numbers.MaxInt | calculator/calculator.js:628-632 | Math.max on whole counts: no less than either argument, and equal to one of them. |
| Numbers.MinReal | calculator/calculator.js:924 | Math.min on times in years: no more than either argument, and equal to one of them. |
| Numbers.Ceil | calculator/calculator.js:313 | Math.ceil: the integer c with c-1 < x <= c. |
| Numbers.CeilLeast | calculator/calculator.js:313 | Math.ceil is the least integer at or above x. |
| Numbers.GrowthAtWholeExponent | calculator/calculator.js:115 | At a whole exponent n, the growth curve equals (1+r)^n. |
| Numbers.GrowthAtLeastOne | calculator/calculator.js:115 | A growth curve that never falls never drops below 1 at non-negative exponents. |
| Views.AllOptions | calculator/calculator.js:432-438 | The five options daily, weekly, monthly, quarterly and annually, with minimum frequencies 365, 52, 12, 4 and 1. A constant; AllOptionsFinestFirst states its order. |
| Views.Offers | calculator/calculator.js:464 | Some offered option has the given value. A definition; ChooseFrom states that the default is kept exactly when it holds. |
| Views.AllOptionsFinestFirst | calculator/calculator.js:432-438 | The five options are listed with strictly decreasing minimum frequencies. |
| Views.Available | calculator/calculator.js:441 | The filter keeps exactly the options whose minimum frequency is at most the compounding frequency, and never adds any. |
| Views.AvailableFinestFirst | calculator/calculator.js:441 | Filtering keeps the finest-first order. |
| Views.AppendCoarser | calculator/calculator.js:444-449 | Appending an option coarser than all listed keeps the finest-first order. |
| Views.DefaultView | calculator/calculator.js:452-461 | The default for a span of days is always one of the five options. |
| Views.AnnuallyAlwaysOffered | calculator/calculator.js:441 | The annual view is offered at every compounding frequency, so the list is never empty and availableOptions[0] always exists. |
| Views.ChooseFrom | calculator/calculator.js:464-467 | The selection is the default exactly when the default is offered; otherwise it is the first offered option, the finest of them. It is always an offered value. |
| Views.ChooseView | calculator/calculator.js:424-470 | The first selected view is an option the compounding frequency allows. |
| Views.MonthlyCompoundingOffers | calculator/calculator.js:441 | Monthly compounding offers the monthly, quarterly and annual views, in that order. |
| Views.MonthlyCompoundingOverTwoMonths | calculator/calculator.js:452-467 | With monthly compounding over 60 days, the weekly default is not offered, so the table opens on the monthly view. |
| Views.BreakdownViewSelect.Setup | calculator/calculator.js:424-470 | Clearing and refilling the select leaves exactly the allowed options in their listed order, and selects ChooseView's value, which is one of them. |
| Chart.ChartPointCount | calculator/calculator.js:626-636 | The chart has between 12 and 80 intervals. The bounds per band: at most 52 up to a year, 24 to 60 up to five years, 40 to 80 up to twenty years, and at least 41 beyond that. |
| Chart.SampleTime | calculator/calculator.js:637-647 | Sample i lies at i * (timeInYears / dataPoints). A definition; SamplesSpanTheWholeTerm states its properties. |
| Chart.SamplesSpanTheWholeTerm | calculator/calculator.js:637-647 | Sample 0 is at time 0 and the last sample is at the end of the span. Samples are ordered and stay within the span. |
| Chart.Baseline | calculator/calculator.js:660-664 | The baseline is the principal plus the amount times the deposits made, or the principal alone without a deposit stream. |
| Chart.BaselineIsPaidIn | calculator/calculator.js:660-664 | For t >= 0 the baseline is the principal plus the amount times the engine's deposit count. |
| Chart.GenerateChartSeries | calculator/calculator.js:646-687 | The loop produces dataPoints + 1 samples. Sample i is the projection's final amount at i * timeInYears / dataPoints, and the baseline at that time. |
| Chart.ChartEnds | calculator/calculator.js:646-687 | Both lines start at the principal, and the last balance sample is the projection the result cards report. |
| Chart.ChartOrdered | calculator/calculator.js:646-687 | With a rate that is not negative and a non-negative principal, the balance line never falls from one sample to a later one and never dips below the baseline. |
| Chart.ZeroRateLinesCoincide | calculator/calculator.js:646-687 | At rate 0 the balance line and the baseline coincide. |
| Breakdown.ViewModeOf | calculator/calculator.js:863-907 | The switch on the select's value: the five known views, and any other value as Unknown. A definition; OfferedViewsAreKnown states that the form never yields Unknown. |
| Breakdown.Caption | calculator/calculator.js:872-907 | The first column's caption for each view. A definition; HeaderColumns places it first in the header. |
| Breakdown.Header | calculator/calculator.js:910-918 | The column headers of the table. A definition; HeaderColumns states their shape. |
| Breakdown.RowDate | calculator/calculator.js:927-936 | A row's date as an offset from the start date: period months, 3 * period months, period years, period days or 7 * period days. In the unknown view the offset is 0 days. |
| Breakdown.ShortDates | calculator/calculator.js:958-962 | Daily and weekly rows show short dates; every other view shows long ones. A definition; RowAt records it in each row. |
| Breakdown.RowAt | calculator/calculator.js:924-975 | The row of a period: its clamped time, the projection's balance and total interest there, and the contribution and interest since the previous row. A definition; NextRow and BreakdownRows compute it and ColumnsTelescope sums its columns. |
| Breakdown.OfferedViewsAreKnown | calculator/calculator.js:872-907 | Every value the select offers is a view the switch knows, so its default branch is never reached from the form. |
| Breakdown.Increment | calculator/calculator.js:872-907 | Every view steps by a positive length of time. |
| Breakdown.RowCap | calculator/calculator.js:872-907 | Each view caps its rows between 24 and 100. |
| Breakdown.PeriodsInSpan | calculator/calculator.js:872-907 | ceil(span / step) steps reach the end of the span, and one fewer do not. |
| Breakdown.PeriodsToShow | calculator/calculator.js:872-907 | The row count never exceeds the view's cap. Below the cap the rows reach the end of the span. The last row never starts wholly past the span, and a positive span has at least one row. |
| Breakdown.ClampedTime | calculator/calculator.js:924 | Math.min(period * step, span) never exceeds the span, and equals it exactly when the unclamped time reaches it. |
| Breakdown.RowTime | calculator/calculator.js:924 | A row's time never exceeds the span, and equals it exactly when period * step reaches it. |
| Breakdown.RowTimesAdvance | calculator/calculator.js:923-924 | Row times never go backwards. |
| Breakdown.PreviousBalance | calculator/calculator.js:920 | The balance carried into a row: the principal before the first row, otherwise the projection's balance at the previous row's time, as reassigned at 974. A definition; PreviousOfNext and NextRow state that the loop carries it. |
| Breakdown.PreviousContributions | calculator/calculator.js:921 | The contributions carried into a row: 0 before the first row, otherwise those counted at the previous row's time, as reassigned at 975. A definition; PreviousOfNext and NextRow state that the loop carries it. |
| Breakdown.PreviousOfNext | calculator/calculator.js:974-975 | The previous-row figures carried into period p+1 are the balance and contributions of period p. |
| Breakdown.RowAtFrom | calculator/calculator.js:940-953 | A row is the projection at its time, minus the previous row's figures. |
| Breakdown.HeaderColumns | calculator/calculator.js:910-918 | The header starts with the view's caption and ends with Balance, Interest Earned and Total Interest. It has a Contribution column exactly when there is a deposit stream. |
| Breakdown.NextRow | calculator/calculator.js:924-975 | One loop pass produces RowAt for the period, with a time within the span, and carries its balance and contributions into the next period. |
| Breakdown.BreakdownRows | calculator/calculator.js:920-979 | Row j is RowAt(j+1), and there are at most periodsToShow rows. Every row but the last lies strictly inside the span. When fewer rows than periodsToShow are produced, the loop stopped early, on a row at the very end of the span. |
| Breakdown.GenerateBreakdown | calculator/calculator.js:862-979 | The header of the selected view and its rows. Row j is RowAt(j+1), and there are at most periodsToShow rows. Every row but the last lies strictly inside the span. When fewer rows than periodsToShow are produced, the loop stopped early (line 978), on a row at the very end of the span. |
| Breakdown.ColumnsTelescope | calculator/calculator.js:946-954 | The interest column of rows 1 to k sums to row k's total interest. The contribution column sums to the engine's total contributions at row k's time. |
| Breakdown.TableReachesTheEnd | calculator/calculator.js:923-978 | Below its cap the last row lies exactly at the end of the span, and every earlier row strictly inside it. |
| Text.NatString | calculator/calculator.js:1018-1020 | String(n) for a count n >= 0, as in the period parts at 1018-1020: at least one character, all digits, no leading zero for n > 0, and a single digit exactly when n < 10. NatStringRoundTrip states that it denotes n. |
| Text.IntString | calculator/calculator.js:994-1009 | String(i) for the day, month and year of the date formatters at 994-1009: never empty, and free of spaces and commas, so ParseDateLong can split "D Mon YYYY" at its spaces. IntStringRoundTrip states that it denotes i. |
| Text.NatStringRoundTrip | calculator/calculator.js:1018-1020 | A non-negative integer's numeral denotes it. |
| Text.IntStringRoundTrip | calculator/calculator.js:994-1009 | Every integer's numeral, with its minus sign, parses back to the integer, which lets the date formatters' numbers read back. |
| Text.PadStart2 | calculator/calculator.js:1005-1006 | padStart(2, '0'): the string, zero-filled on the left to length 2. |
| Text.SliceLast2 | calculator/calculator.js:1007 | slice(-2): the last two characters, or the whole of a shorter string. |
| Text.Join | calculator/calculator.js:1022 | parts.join(sep): the parts with sep between neighbours. A definition; SplitJoinRest and JoinedPartsParse state that a ', '-join of part texts reads back. |
| Text.JoinRest | calculator/calculator.js:1022 | The tail of a join: sep before each remaining part. A definition; SplitJoinRest states that it splits back into the parts. |
| Text.SplitJoinRest | calculator/calculator.js:1022 | Splitting a ", "-joined list at commas gives back its parts, each after one space. |
| Text.PartText | calculator/calculator.js:1018-1020 | "<n> <unit>", with an "s" unless n is exactly 1. PartTextParses states that it reads back. |
| Text.FormatTimePeriodFromInputs | calculator/calculator.js:1025-1032 | The positive components joined by ", ", or "0 days" when there are none. A definition; FormatTimePeriodFromInputsRoundTrip, ZeroDaysParses and SinglePartFormat state its properties. |
| Text.FormatTimePeriod | calculator/calculator.js:1011-1023 | The day count split into 365-day years, 30-day months and days, then described as above. A definition; FormatTimePeriodDecomposes, TwelveMonthsBeforeAYear and OneYear state its properties. |
| Text.PeriodParts | calculator/calculator.js:1017-1020 | Only positive components are shown. |
| Text.PartTextParses | calculator/calculator.js:1018-1020 | "<n> year(s)/month(s)/day(s)" parses back to the component. The parser accepts the plural word exactly when the count is not 1, so this states that the text is singular exactly at 1. |
| Text.OneWithPluralRefused | calculator/calculator.js:1018-1020 | A count of 1 followed by a plural unit word, such as "1 years", does not parse, because the formatter never writes one. |
| Text.PeriodPartsInOrder | calculator/calculator.js:1017-1020 | The shown components come strictly in year, month, day order. |
| Text.JoinedPartsParse | calculator/calculator.js:1022 | The ", "-joined component texts parse back to the list of components. |
| Text.AssemblePeriodParts | calculator/calculator.js:1026-1029 | Reading back the shown components fills in every field, with missing ones zero. |
| Text.ZeroDaysParses | calculator/calculator.js:1022 | The "0 days" fallback reads back as all zeros. |
| Text.ShownPartsRoundTrip | calculator/calculator.js:1026-1031 | With a component shown, the joined text is non-empty and reads back as the inputs. |
| Text.FormatTimePeriodFromInputsRoundTrip | calculator/calculator.js:1025-1032 | For non-negative offsets the description parses back to exactly the offsets. The parser refuses components out of year, month, day order and plurals that do not match the count, so this also states both of those. |
| Text.FormatTimePeriodDecomposes | calculator/calculator.js:1011-1023 | A day count's description parses back to years, months of 30 days (at most 12) and days under 30, adding up to the count with 365-day years. |
| Text.SinglePartFormat | calculator/calculator.js:1025-1032 | A description with one shown component is that component's text alone. |
| Text.TwelveMonthsBeforeAYear | calculator/calculator.js:1011-1023 | 360 days reads as "12 months", not as a year. |
| Text.OneYear | calculator/calculator.js:1011-1023 | 365 days reads as "1 year", singular. |
| Text.FormatDateLong | calculator/calculator.js:994-1001 | "D Mon YYYY" from the day, the month index and the year. A definition; FormatDateLongRoundTrip states that it reads back. |
| Text.FormatDateShort | calculator/calculator.js:1003-1009 | "DD/MM/YY": day and month + 1 zero-padded to two characters, the year cut to its last two. A definition; FormatDateShortRoundTrip states that it reads back. |
| Text.FormatDateLongRoundTrip | calculator/calculator.js:994-1001 | "D Mon YYYY" reads back as the day, the month index and the year. |
| Text.MonthNameRoundTrip | calculator/calculator.js:997-998 | Each month's short name identifies its index. |
| Text.PaddedTwoDigits | calculator/calculator.js:1005-1006 | A zero-padded number below 100 is two digits that denote it. |
| Text.LastTwoDigits | calculator/calculator.js:1007 | The last two characters of a year of two or more digits denote the year modulo 100. |
| Text.FormatDateShortRoundTrip | calculator/calculator.js:1003-1009 | "DD/MM/YY" reads back as the day, the month index and the year modulo 100. |
| Scenarios.TenYearsAnnualCompounding | calculator/calculator.js:266-337 | 10000 at 5% compounded yearly for 10 years passes the checks, with a period rate of 0.05, and projects to 10000 * 1.05^10. |
| Scenarios.OneYearMonthlyCompounding | calculator/calculator.js:266-337 | 1000 at 12% compounded monthly for a year: a period rate of 0.01, projecting to 1000 * 1.01^12. |
| Scenarios.MonthlyDepositsForOneYear | calculator/calculator.js:112-157 | 100 deposited monthly for a year at 6%: 12 deposits, the last one ungrown, 1200 contributed, and a final balance of at least 1200. |
| Scenarios.StartDateWithoutDuration | calculator/calculator.js:302-323 | A start date alone, with all-zero offsets, is refused with NoTimePeriod. |
| Scenarios.EndBeforeStart | calculator/calculator.js:302-309 | An end date before the start date is refused with EndNotAfterStart. |
| Scenarios.ZeroRateNegativeInterest | calculator/calculator.js:112-157 | At rate 0, with monthly deposits of 100 over an eighth of a year, the final amount is 100, contributions are 150 and total interest is -50. |

## Left out

- Parsing of the form's text fields (`parseFloat(...) || 0`, `parseInt`) is not modelled. `Inputs.Request` holds the already-parsed numbers, with compounding frequency positive and contribution frequency a natural number, as the form's select lists allow.
- Date parsing and calendar arithmetic are not modelled: `new Date`, `setMonth`, `setFullYear`, `setDate`, and the end date of duration mode, which only feeds the display. Date-range mode takes millisecond timestamps. Breakdown rows carry a `DateStep`, an offset from the start date in days, months or years, in place of the calendar date. The date formatters take the day, month index and year as integers.
- Floating point is not modelled. Amounts and times are exact reals, and `Math.pow(1 + rate, x)` is the parameter `g`, so rounding in doubles (for example in the loop bound `i <= contributionFreq * timeInYears`, or in the clamp `currentTime >= timeInYears`) is not captured.
- Chart labels (`Math.round`, `toFixed`) and the Chart.js configuration are left out: they are display-only and rely on floating-point rounding.
- HTML generation, `formatCurrency` (`Intl.NumberFormat`), the DOM, `localStorage`, `setTimeout`, `alert` and the loading state are left out. Alerts become the `CalcError` values, and the table becomes a header and a sequence of `BreakdownRow` records.
- The `availableOptions[0]` access in `setupBreakdownViewOptions` could fail on an empty list. `Views.AnnuallyAlwaysOffered` shows the list is never empty for a positive compounding frequency, so no error path is modelled.
- The `default` branch of `generateBreakdown`'s switch is modelled as `ViewMode.Unknown`. `periodIncrementDays` is `null` there, so `period * null` is 0 and every row shows the start date. `Breakdown.OfferedViewsAreKnown` shows the form never reaches that branch.
- The breakdown takes the selected value as a parameter rather than reading the select element. The table's start date is left out together with the calendar arithmetic.
- Total interest can be negative even at rate 0: `totalContributions` counts fractional deposits, while the balance counts only whole ones. `Scenarios.ZeroRateNegativeInterest` gives -50. The model keeps this behaviour.
- Duration offsets may be negative: the code refuses only offsets that are all zero (see Findings).

## Findings

| source | as written | input that shows it | evidently intended | confidence | as-written member | corrected member |
|---|---|---|---|---|---|---|
| calculator/calculator.js:317-334 | The duration check refuses only years, months and days that are all zero. Negative offsets pass. | years 1, months -12, days 0: accepted, spans 0 years, described as "1 year" | Every offset non-negative and at least one positive, so that an accepted span is positive and its description matches it | not executed | Inputs.NegativeDurationAccepted | Inputs.CheckedSpanIsPositiveAndDescribed |
