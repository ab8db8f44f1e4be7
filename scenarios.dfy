/**
 * Worked cases of the whole calculation: the form's values go through
 * calculate()'s checks, and the accepted ones through the projection.
 * g is any growth curve of the resulting period rate.
 */
module Scenarios {
  import opened Wrappers
  import opened Numbers
  import opened Engine
  import opened Inputs

  /** 10000 at 5% a year, compounded yearly for ten years with no deposits: 10000 * 1.05^10. */
  lemma TenYearsAnnualCompounding(g: real -> real)
    requires IsGrowthCurve(g, 0.05)
    ensures var r := Validate(Request(10000.0, 5.0, "annual", 1, 0.0, 0, None, None, 10, 0, 0));
      && r.Success? && r.value.periodRate == 0.05 && r.value.timeInYears == 10.0
      && Project(r.value.account, g, r.value.timeInYears).finalAmount == 10000.0 * Pow(1.05, 10)
  {
    var r := Validate(Request(10000.0, 5.0, "annual", 1, 0.0, 0, None, None, 10, 0, 0));
    NoContributionsClosedForm(r.value.account, g, 0.05, 10.0, 10);
  }

  /** 1000 at 12% a year compounded monthly for one year: 1% a period, 1000 * 1.01^12. */
  lemma OneYearMonthlyCompounding(g: real -> real)
    requires IsGrowthCurve(g, 0.01)
    ensures var r := Validate(Request(1000.0, 12.0, "annual", 12, 0.0, 0, None, None, 1, 0, 0));
      && r.Success? && r.value.periodRate == 0.01 && r.value.timeInYears == 1.0
      && Project(r.value.account, g, r.value.timeInYears).finalAmount == 1000.0 * Pow(1.01, 12)
  {
    var r := Validate(Request(1000.0, 12.0, "annual", 12, 0.0, 0, None, None, 1, 0, 0));
    NoContributionsClosedForm(r.value.account, g, 0.01, 1.0, 12);
  }

  /**
   * 100 a month at 6% compounded monthly for one year, no principal: twelve
   * deposits, the last made on the final day and so not grown, 1200 paid
   * in, and a balance of at least 1200.
   */
  lemma MonthlyDepositsForOneYear(g: real -> real)
    requires IsGrowthCurve(g, 0.005) && Nondecreasing(g)
    ensures var r := Validate(Request(0.0, 6.0, "annual", 12, 100.0, 12, None, None, 1, 0, 0));
      && r.Success? && r.value.periodRate == 0.005 && r.value.timeInYears == 1.0
      && DepositCount(r.value.account, 1.0) == 12
      && DepositValue(r.value.account, g, 1.0, 12) == 100.0
      && Project(r.value.account, g, 1.0).totalContributions == 1200.0
      && Project(r.value.account, g, 1.0).finalAmount >= 1200.0
  {
    var r := Validate(Request(0.0, 6.0, "annual", 12, 100.0, 12, None, None, 1, 0, 0));
    var a := r.value.account;
    LastDepositUngrown(a, g, 0.005, 1.0, 12);
    BalanceAtLeastBaseline(a, g, 0.005, 1.0);
  }

  /** A start date with an all-zero duration is refused for want of a time period. */
  lemma StartDateWithoutDuration()
    ensures Validate(Request(1000.0, 5.0, "annual", 1, 0.0, 0, Some(1735689600000), None, 0, 0, 0)) == Failure(NoTimePeriod)
  {
  }

  /** 1 June 2025 to 1 January 2025 is refused: the end must come after the start. */
  lemma EndBeforeStart()
    ensures Validate(Request(1000.0, 5.0, "annual", 1, 0.0, 0, Some(1748736000000), Some(1735689600000), 0, 0, 0))
      == Failure(EndNotAfterStart)
  {
  }

  /**
   * At a zero rate, a month and a half into a monthly plan of 100, one
   * deposit has been made but one and a half are counted as contributed:
   * the total interest reported is -50.
   */
  lemma ZeroRateNegativeInterest(g: real -> real)
    requires forall x :: 0.0 <= x ==> g(x) == 1.0
    ensures var p := Project(Account(0.0, 12, 100.0, 12), g, 0.125);
      p.finalAmount == 100.0 && p.totalContributions == 150.0 && p.totalInterest == -50.0
  {
    var a := Account(0.0, 12, 100.0, 12);
    assert ContributionPeriods(a, 0.125) == 1.5;
    FlatCurveBalance(a, g, 0.125);
  }
}
