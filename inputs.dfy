/**
 * The front half of calculate(): the form's values, already parsed to
 * numbers, are checked in the calculator's order and turned into the
 * account, the period rate, the span in years and the period's text.
 */
module Inputs {
  import opened Wrappers
  import opened Numbers
  import opened Text
  import opened Engine

  /** convertToAnnualRate: a rate quoted per day, month or quarter, made per year; anything else is already annual. */
  function ConvertToAnnualRate(rate: real, rateType: string): (annual: real)
    ensures rateType == "daily" ==> annual == 365.0 * rate
    ensures rateType == "monthly" ==> annual == 12.0 * rate
    ensures rateType == "quarterly" ==> annual == 4.0 * rate
    ensures rateType !in ["daily", "monthly", "quarterly"] ==> annual == rate
  {
    if rateType == "daily" then rate * 365.0
    else if rateType == "monthly" then rate * 12.0
    else if rateType == "quarterly" then rate * 4.0
    else rate
  }

  /**
   * Each conversion scales the quoted rate by a positive factor, so it never
   * changes a rate's sign, never lowers a non-negative rate, and dividing by
   * the factor gives the quoted rate back.
   */
  lemma AnnualRateScales(rate: real, rateType: string)
    ensures rate >= 0.0 ==> ConvertToAnnualRate(rate, rateType) >= rate
    ensures rate <= 0.0 ==> ConvertToAnnualRate(rate, rateType) <= rate
    ensures rateType == "daily" ==> ConvertToAnnualRate(rate, rateType) / 365.0 == rate
    ensures rateType == "monthly" ==> ConvertToAnnualRate(rate, rateType) / 12.0 == rate
    ensures rateType == "quarterly" ==> ConvertToAnnualRate(rate, rateType) / 4.0 == rate
  {
  }

  /** The form after parsing; parseFloat(...) || 0 and parseInt(...) || 0 have already turned blanks into 0. */
  datatype Request = Request(
    principal: real,
    ratePercent: real,
    rateType: string,
    compoundingFrequency: PosInt,
    contributionAmount: real,
    contributionFrequency: nat,
    startMs: Option<int>,   // the start date field, as a timestamp in milliseconds, if filled
    endMs: Option<int>,     // the end date field, likewise
    years: int,
    months: int,
    days: int)

  /** Why calculate() stops with an alert. */
  datatype CalcError = NoAmount | InvalidRate | EndNotAfterStart | NoTimePeriod

  /** What calculate() hands on to the projection and the views. */
  datatype Calculation = Calculation(account: Account, periodRate: real, timeInYears: real, periodText: string)

  const MsPerDay: int := 1000 * 60 * 60 * 24

  /** The date range is used only when both date fields are filled. */
  predicate UsesDateRange(q: Request)
  {
    q.startMs.Some? && q.endMs.Some?
  }

  /** Whole days between two instants, a partial day counting as one. */
  function DiffDays(startMs: int, endMs: int): (d: nat)
    requires startMs < endMs
    ensures (d - 1) * MsPerDay < endMs - startMs <= d * MsPerDay
    ensures d >= 1
  {
    var x := (endMs - startMs) as real / MsPerDay as real;
    var c := Ceil(x);
    assert (c - 1) as real * MsPerDay as real < (endMs - startMs) as real <= c as real * MsPerDay as real;
    c
  }

  /** The decimal rate per compounding period, from an annual rate in percent: the percentage is divided out once. */
  function PeriodRate(annualPercent: real, compoundingFrequency: PosInt): (r: real)
    ensures r * compoundingFrequency as real * 100.0 == annualPercent
    ensures annualPercent >= 0.0 ==> r >= 0.0
  {
    var n := compoundingFrequency as real;
    var perPeriod := annualPercent / n;
    assert perPeriod * n == annualPercent;
    perPeriod / 100.0
  }

  function AccountOf(q: Request): Account
  {
    Account(q.principal, q.compoundingFrequency, q.contributionAmount, q.contributionFrequency)
  }

  /** The span a request describes: its length in years and its text. */
  datatype Span = Span(timeInYears: real, periodText: string)

  /**
   * The time-period part of calculate(): the date range when both dates
   * are given (whole days, a partial day counting as one, over 365-day
   * years), otherwise the year, month and day offsets.
   */
  function TimeSpan(q: Request): (r: Result<Span, CalcError>)
    ensures r == Failure(EndNotAfterStart) <==> UsesDateRange(q) && q.endMs.value <= q.startMs.value
    ensures r == Failure(NoTimePeriod) <==> !UsesDateRange(q) && q.years == 0 && q.months == 0 && q.days == 0
    ensures r.Failure? ==> r.error == EndNotAfterStart || r.error == NoTimePeriod
    ensures r.Success? && UsesDateRange(q) ==>
      var d := DiffDays(q.startMs.value, q.endMs.value);
      d >= 1 && r.value.timeInYears == d as real / 365.0 && r.value.periodText == FormatTimePeriod(d)
    ensures r.Success? && !UsesDateRange(q) ==>
      && r.value.timeInYears == q.years as real + q.months as real / 12.0 + q.days as real / 365.0
      && r.value.periodText == FormatTimePeriodFromInputs(q.years, q.months, q.days)
  {
    if UsesDateRange(q) then
      if q.endMs.value <= q.startMs.value then Failure(EndNotAfterStart)
      else
        var diffDays := DiffDays(q.startMs.value, q.endMs.value);
        Success(Span(diffDays as real / 365.0, FormatTimePeriod(diffDays)))
    else if q.years == 0 && q.months == 0 && q.days == 0 then Failure(NoTimePeriod)
    else
      Success(Span(q.years as real + q.months as real / 12.0 + q.days as real / 365.0,
                   FormatTimePeriodFromInputs(q.years, q.months, q.days)))
  }

  /** The checks of calculate(), in its order, as written. */
  function Validate(q: Request): (r: Result<Calculation, CalcError>)
    ensures r == Failure(NoAmount) <==> q.principal <= 0.0 && q.contributionAmount <= 0.0
    ensures r == Failure(InvalidRate) <==>
      (q.principal > 0.0 || q.contributionAmount > 0.0) && q.ratePercent < 0.0
    ensures r == Failure(EndNotAfterStart) <==>
      (q.principal > 0.0 || q.contributionAmount > 0.0) && q.ratePercent >= 0.0
      && UsesDateRange(q) && q.endMs.value <= q.startMs.value
    ensures r == Failure(NoTimePeriod) <==>
      (q.principal > 0.0 || q.contributionAmount > 0.0) && q.ratePercent >= 0.0
      && !UsesDateRange(q) && q.years == 0 && q.months == 0 && q.days == 0
    ensures r.Success? ==>
      && r.value.account == AccountOf(q)
      && r.value.periodRate == PeriodRate(ConvertToAnnualRate(q.ratePercent, q.rateType), q.compoundingFrequency)
      && r.value.periodRate >= 0.0
    ensures r.Success? && UsesDateRange(q) ==>
      var d := DiffDays(q.startMs.value, q.endMs.value);
      d >= 1 && r.value.timeInYears == d as real / 365.0 && r.value.periodText == FormatTimePeriod(d)
    ensures r.Success? && !UsesDateRange(q) ==>
      && r.value.timeInYears == q.years as real + q.months as real / 12.0 + q.days as real / 365.0
      && r.value.periodText == FormatTimePeriodFromInputs(q.years, q.months, q.days)
  {
    if q.principal <= 0.0 && q.contributionAmount <= 0.0 then Failure(NoAmount)
    else if q.ratePercent < 0.0 then Failure(InvalidRate)
    else
      var annualRatePercent := ConvertToAnnualRate(q.ratePercent, q.rateType);
      AnnualRateScales(q.ratePercent, q.rateType);
      var periodRate := PeriodRate(annualRatePercent, q.compoundingFrequency);
      match TimeSpan(q)
      case Failure(e) => Failure(e)
      case Success(span) => Success(Calculation(AccountOf(q), periodRate, span.timeInYears, span.periodText))
  }

  /**
   * Validate as written lets negative durations through: one year and
   * minus twelve months passes, spans no time at all, and is described
   * as "1 year".
   */
  lemma NegativeDurationAccepted()
    ensures var q := Request(1000.0, 5.0, "annual", 1, 0.0, 0, None, None, 1, -12, 0);
      Validate(q).Success? && Validate(q).value.timeInYears == 0.0 && Validate(q).value.periodText == "1 year"
  {
    OneYearFromInputs();
  }

  lemma OneYearFromInputs()
    ensures FormatTimePeriodFromInputs(1, -12, 0) == "1 year"
  {
    SinglePartFormat(1, -12, 0, Part(1, Year));
    assert PartText(Part(1, Year)) == IntString(1) + " " + "year";
  }

  /** The duration checks as evidently intended: every offset non-negative and at least one positive. */
  function ValidateChecked(q: Request): (r: Result<Calculation, CalcError>)
    ensures r.Failure? <==> Validate(q).Failure? || (!UsesDateRange(q) && (q.years < 0 || q.months < 0 || q.days < 0))
    ensures r.Success? ==> r == Validate(q)
  {
    var r := Validate(q);
    if r.Success? && !UsesDateRange(q) && (q.years < 0 || q.months < 0 || q.days < 0) then Failure(NoTimePeriod)
    else r
  }

  /**
   * Whatever the mode, an accepted calculation spans a positive time, and
   * its period text reads back as the span it stands for: the whole
   * days of the date range split into years of 365 days, months of 30 and
   * days, or the offsets as entered.
   */
  lemma CheckedSpanIsPositiveAndDescribed(q: Request)
    requires ValidateChecked(q).Success?
    ensures ValidateChecked(q).value.timeInYears > 0.0
    ensures var c := ValidateChecked(q).value;
      match ParsePeriodText(c.periodText)
      case None => false
      case Some((y, m, d)) =>
        if UsesDateRange(q) then
          c.timeInYears * 365.0 == (365 * y + 30 * m + d) as real && 0 <= m <= 12 && 0 <= d < 30
        else
          y == q.years && m == q.months && d == q.days
  {
    var c := ValidateChecked(q).value;
    if UsesDateRange(q) {
      var n := DiffDays(q.startMs.value, q.endMs.value);
      FormatTimePeriodDecomposes(n);
    } else {
      FormatTimePeriodFromInputsRoundTrip(q.years, q.months, q.days);
    }
  }
}
