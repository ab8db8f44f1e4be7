/**
 * generateBreakdown's rows: for each period of the chosen view, the time
 * it ends (never past the span), the balance then, and what was
 * contributed and earned since the previous row. Rows are records; the
 * HTML around them is not modelled.
 */
module Breakdown {
  import opened Numbers
  import opened Engine
  import opened Views

  /** How far a row's date lies from the start date; the calendar arithmetic itself is not modelled. */
  datatype DateStep = Days(days: int) | Months(months: int) | Years(years: int)

  /** One row of the table. shortDate says which date format shows it (DD/MM/YY or "10 Oct 2025"). */
  datatype BreakdownRow = BreakdownRow(
    date: DateStep,
    shortDate: bool,
    time: real,
    contribution: real,
    balance: real,
    interest: real,
    totalInterest: real)

  /** The views the table knows, and any other select value. */
  datatype ViewMode = Daily | Weekly | Monthly | Quarterly | Annually | Unknown

  /** The switch on the select's value. */
  function ViewModeOf(value: string): ViewMode
  {
    if value == "daily" then Daily
    else if value == "weekly" then Weekly
    else if value == "monthly" then Monthly
    else if value == "quarterly" then Quarterly
    else if value == "annually" then Annually
    else Unknown
  }

  /** Every view the select can offer is one the table knows, so the unknown-view branch is never taken from the form. */
  lemma OfferedViewsAreKnown(o: ViewOption)
    requires o in AllOptions
    ensures ViewModeOf(o.value) != Unknown
  {
  }

  /** The header of the first column for a view. */
  function Caption(mode: ViewMode): string
  {
    match mode
    case Daily => "Date"
    case Weekly => "Week Ending"
    case Monthly => "Month"
    case Quarterly => "Quarter"
    case Annually => "Year"
    case Unknown => "Period"
  }

  /** The length of a row's period in years; an unknown view steps by months. */
  function Increment(mode: ViewMode): (inc: real)
    ensures inc > 0.0
  {
    match mode
    case Daily => 1.0 / 365.0
    case Weekly => 7.0 / 365.0
    case Monthly => 1.0 / 12.0
    case Quarterly => 0.25
    case Annually => 1.0
    case Unknown => 1.0 / 12.0
  }

  /** The most rows a view shows. */
  function RowCap(mode: ViewMode): (cap: int)
    ensures 24 <= cap <= 100
  {
    match mode
    case Daily => 100
    case Weekly => 100
    case Monthly => 60
    case Quarterly => 40
    case Annually => 30
    case Unknown => 24
  }

  /** The periods the span covers, a partial last period counting as one. */
  function PeriodsInSpan(viewMode: ViewMode, timeInYears: real): (n: int)
    ensures n as real * Increment(viewMode) >= timeInYears
    ensures (n - 1) as real * Increment(viewMode) < timeInYears
  {
    var inc := Increment(viewMode);
    var x :=
      match viewMode
      case Daily => timeInYears * 365.0
      case Weekly => timeInYears * 365.0 / 7.0
      case Monthly => timeInYears * 12.0
      case Quarterly => timeInYears * 4.0
      case Annually => timeInYears
      case Unknown => timeInYears * 12.0;
    assert x == timeInYears / inc;
    var n := Ceil(x);
    CeilTimesStep(x, inc, n);
    n
  }

  /** ceil(x) steps of length inc reach x * inc, and one fewer do not. */
  lemma CeilTimesStep(x: real, inc: real, n: int)
    requires inc > 0.0 && n == Ceil(x)
    ensures n as real * inc >= x * inc && (n - 1) as real * inc < x * inc
  {
    MulLeft(inc, x, n as real);
    MulLeftStrict(inc, (n - 1) as real, x);
  }

  /**
   * How many rows the table is given: the periods the span covers, up to
   * the view's cap. Below the cap the rows reach the end of the span;
   * they never start a period wholly past it.
   */
  function PeriodsToShow(viewMode: ViewMode, timeInYears: real): (n: int)
    ensures n <= RowCap(viewMode)
    ensures n < RowCap(viewMode) ==> n as real * Increment(viewMode) >= timeInYears
    ensures (n - 1) as real * Increment(viewMode) < timeInYears
    ensures timeInYears > 0.0 ==> n >= 1
  {
    var inSpan := PeriodsInSpan(viewMode, timeInYears);
    StepsCoverSpan(Increment(viewMode), inSpan, timeInYears);
    MinInt(inSpan, RowCap(viewMode))
  }

  /** Steps of positive length that reach past a positive span are at least one step. */
  lemma StepsCoverSpan(inc: real, n: int, timeInYears: real)
    requires inc > 0.0 && n as real * inc >= timeInYears
    ensures timeInYears > 0.0 ==> n >= 1
  {
    if n < 1 {
      MulLeft(inc, n as real, 0.0);
    }
  }

  /** Math.min(period * periodIncrement, timeInYears). */
  function ClampedTime(period: int, periodIncrement: real, timeInYears: real): (t: real)
    ensures t <= timeInYears
    ensures t == timeInYears <==> period as real * periodIncrement >= timeInYears
  {
    MinReal(period as real * periodIncrement, timeInYears)
  }

  /** The time a row ends: period * increment, clamped to the span. */
  function RowTime(viewMode: ViewMode, timeInYears: real, period: int): (t: real)
    ensures t <= timeInYears
    ensures t == timeInYears <==> period as real * Increment(viewMode) >= timeInYears
  {
    ClampedTime(period, Increment(viewMode), timeInYears)
  }

  /** Row times never go backwards. */
  lemma RowTimesAdvance(viewMode: ViewMode, timeInYears: real, p: int, q: int)
    requires p <= q
    ensures RowTime(viewMode, timeInYears, p) <= RowTime(viewMode, timeInYears, q)
  {
    MulLeft(Increment(viewMode), p as real, q as real);
  }

  /**
   * The date a row is shown with: months, quarters and years step through
   * the calendar; days and weeks step by days; an unknown view has no day
   * step (period * null is 0), so every row shows the start date.
   */
  function RowDate(viewMode: ViewMode, period: int): DateStep
  {
    match viewMode
    case Monthly => Months(period)
    case Quarterly => Months(period * 3)
    case Annually => Years(period)
    case Daily => Days(period)
    case Weekly => Days(period * 7)
    case Unknown => Days(0)
  }

  /** Days and weeks are shown as DD/MM/YY, longer periods as "10 Oct 2025". */
  predicate ShortDates(viewMode: ViewMode)
  {
    viewMode == Daily || viewMode == Weekly
  }

  /** The balance the row before `period` ended with; the first row starts from the principal. */
  function PreviousBalance(a: Account, g: real -> real, viewMode: ViewMode, timeInYears: real, period: int): real
  {
    if period <= 1 then a.principal else Project(a, g, RowTime(viewMode, timeInYears, period - 1)).finalAmount
  }

  /** The contributions counted up to the row before `period`; none before the first row. */
  function PreviousContributions(a: Account, g: real -> real, viewMode: ViewMode, timeInYears: real, period: int): real
  {
    if period <= 1 then 0.0 else Project(a, g, RowTime(viewMode, timeInYears, period - 1)).totalContributions
  }

  /** The row before period + 1 is the row of period. */
  lemma PreviousOfNext(a: Account, g: real -> real, viewMode: ViewMode, timeInYears: real, period: int)
    requires period >= 1
    ensures PreviousBalance(a, g, viewMode, timeInYears, period + 1) == Project(a, g, RowTime(viewMode, timeInYears, period)).finalAmount
    ensures PreviousContributions(a, g, viewMode, timeInYears, period + 1) == Project(a, g, RowTime(viewMode, timeInYears, period)).totalContributions
  {
  }

  /** The row for period `period` (counting from 1). */
  function RowAt(a: Account, g: real -> real, viewMode: ViewMode, timeInYears: real, period: int): BreakdownRow
  {
    var currentTime := RowTime(viewMode, timeInYears, period);
    var results := Project(a, g, currentTime);
    var previousBalance := PreviousBalance(a, g, viewMode, timeInYears, period);
    var previousContributions := PreviousContributions(a, g, viewMode, timeInYears, period);
    var periodContribution := results.totalContributions - previousContributions;
    BreakdownRow(
      RowDate(viewMode, period),
      ShortDates(viewMode),
      currentTime,
      periodContribution,
      results.finalAmount,
      results.finalAmount - previousBalance - periodContribution,
      results.totalInterest)
  }

  /** RowAt, given the projection at the row's time and the previous row's figures. */
  lemma RowAtFrom(a: Account, g: real -> real, viewMode: ViewMode, timeInYears: real, period: int,
                  results: Projection, previousBalance: real, previousContributions: real)
    requires results == Project(a, g, RowTime(viewMode, timeInYears, period))
    requires previousBalance == PreviousBalance(a, g, viewMode, timeInYears, period)
    requires previousContributions == PreviousContributions(a, g, viewMode, timeInYears, period)
    ensures RowAt(a, g, viewMode, timeInYears, period) == BreakdownRow(
      RowDate(viewMode, period),
      ShortDates(viewMode),
      RowTime(viewMode, timeInYears, period),
      results.totalContributions - previousContributions,
      results.finalAmount,
      results.finalAmount - previousBalance - (results.totalContributions - previousContributions),
      results.totalInterest)
  {
  }

  /** The column headers of the table. */
  function Header(viewMode: ViewMode, hasContributions: bool): seq<string>
  {
    [Caption(viewMode)] + (if hasContributions then ["Contribution"] else []) + ["Balance", "Interest Earned", "Total Interest"]
  }

  /** The first column is the view's caption, the last three are the balance and interest; a contribution column appears exactly when there are contributions. */
  lemma HeaderColumns(viewMode: ViewMode, hasContributions: bool)
    ensures var h := Header(viewMode, hasContributions);
      |h| >= 4 && h[0] == Caption(viewMode) && h[|h| - 3..] == ["Balance", "Interest Earned", "Total Interest"]
    ensures "Contribution" in Header(viewMode, hasContributions) <==> hasContributions
  {
    var h := Header(viewMode, hasContributions);
    if !hasContributions {
      assert h == [Caption(viewMode), "Balance", "Interest Earned", "Total Interest"];
      assert Caption(viewMode) != "Contribution";
      assert "Balance" != "Contribution" && "Interest Earned" != "Contribution" && "Total Interest" != "Contribution";
    }
  }

  /**
   * One pass of generateBreakdown's loop body: the projection at the row's
   * clamped time, and the contribution and interest since the previous row.
   * Also returns the total contributions, the next pass's
   * previousContributions.
   */
  method NextRow(a: Account, g: real -> real, viewMode: ViewMode, timeInYears: real, period: int,
                 periodIncrement: real, previousBalance: real, previousContributions: real)
    returns (row: BreakdownRow, totalContributions: real)
    requires period >= 1 && periodIncrement == Increment(viewMode)
    requires previousBalance == PreviousBalance(a, g, viewMode, timeInYears, period)
    requires previousContributions == PreviousContributions(a, g, viewMode, timeInYears, period)
    ensures row == RowAt(a, g, viewMode, timeInYears, period)
    ensures row.time == RowTime(viewMode, timeInYears, period) && row.time <= timeInYears
    ensures row.balance == PreviousBalance(a, g, viewMode, timeInYears, period + 1)
    ensures totalContributions == PreviousContributions(a, g, viewMode, timeInYears, period + 1)
  {
    var currentTime := ClampedTime(period, periodIncrement, timeInYears);
    var results := CalculateWithContributions(a, g, currentTime);
    var currentBalance := results.finalAmount;
    totalContributions := results.totalContributions;
    var periodContribution := totalContributions - previousContributions;
    var periodInterest := currentBalance - previousBalance - periodContribution;
    row := BreakdownRow(
      RowDate(viewMode, period),
      ShortDates(viewMode),
      currentTime,
      periodContribution,
      currentBalance,
      periodInterest,
      results.totalInterest);
    RowAtFrom(a, g, viewMode, timeInYears, period, results, previousBalance, previousContributions);
    PreviousOfNext(a, g, viewMode, timeInYears, period);
  }

  /**
   * generateBreakdown's loop: rows for periods 1, 2, ... up to the number
   * to show, stopping right after the first row that reaches the end of
   * the span. previousBalance and previousContributions carry the last
   * row's figures into the next.
   */
  method BreakdownRows(a: Account, g: real -> real, viewMode: ViewMode, timeInYears: real)
    returns (rows: seq<BreakdownRow>)
    ensures forall j :: 0 <= j < |rows| ==> rows[j] == RowAt(a, g, viewMode, timeInYears, j + 1)
    ensures |rows| <= MaxInt(PeriodsToShow(viewMode, timeInYears), 0)
    ensures forall j :: 0 <= j < |rows| - 1 ==> rows[j].time < timeInYears
    ensures |rows| < PeriodsToShow(viewMode, timeInYears) ==> |rows| >= 1 && rows[|rows| - 1].time == timeInYears
  {
    var periodsToShow := PeriodsToShow(viewMode, timeInYears);
    var periodIncrement := Increment(viewMode);
    var previousBalance := a.principal;
    var previousContributions := 0.0;
    rows := [];
    var period := 1;
    while period <= periodsToShow
      invariant 1 <= period <= MaxInt(periodsToShow, 0) + 1
      invariant |rows| == period - 1
      invariant forall j :: 0 <= j < |rows| ==> rows[j] == RowAt(a, g, viewMode, timeInYears, j + 1)
      invariant forall j :: 0 <= j < |rows| ==> rows[j].time < timeInYears
      invariant previousBalance == PreviousBalance(a, g, viewMode, timeInYears, period)
      invariant previousContributions == PreviousContributions(a, g, viewMode, timeInYears, period)
    {
      var row, totalContributions := NextRow(a, g, viewMode, timeInYears, period, periodIncrement, previousBalance, previousContributions);
      rows := rows + [row];
      previousBalance := row.balance;
      previousContributions := totalContributions;
      if row.time >= timeInYears {
        break;
      }
      period := period + 1;
    }
  }

  /** generateBreakdown: the header for the selected view and its rows. */
  method GenerateBreakdown(a: Account, g: real -> real, selectValue: string, timeInYears: real)
    returns (header: seq<string>, rows: seq<BreakdownRow>)
    ensures header == Header(ViewModeOf(selectValue), HasContributions(a))
    ensures forall j :: 0 <= j < |rows| ==> rows[j] == RowAt(a, g, ViewModeOf(selectValue), timeInYears, j + 1)
    ensures |rows| <= MaxInt(PeriodsToShow(ViewModeOf(selectValue), timeInYears), 0)
    ensures forall j :: 0 <= j < |rows| - 1 ==> rows[j].time < timeInYears
    ensures |rows| < PeriodsToShow(ViewModeOf(selectValue), timeInYears) ==> |rows| >= 1 && rows[|rows| - 1].time == timeInYears
  {
    var viewMode := ViewModeOf(selectValue);
    var hasContributions := a.contributionFrequency > 0 && a.contributionAmount > 0.0;
    header := Header(viewMode, hasContributions);
    rows := BreakdownRows(a, g, viewMode, timeInYears);
  }

  /** The interest column summed over rows 1 to k. */
  function InterestColumnSum(a: Account, g: real -> real, viewMode: ViewMode, timeInYears: real, k: nat): real
  {
    if k == 0 then 0.0
    else InterestColumnSum(a, g, viewMode, timeInYears, k - 1) + RowAt(a, g, viewMode, timeInYears, k).interest
  }

  /** The contribution column summed over rows 1 to k. */
  function ContributionColumnSum(a: Account, g: real -> real, viewMode: ViewMode, timeInYears: real, k: nat): real
  {
    if k == 0 then 0.0
    else ContributionColumnSum(a, g, viewMode, timeInYears, k - 1) + RowAt(a, g, viewMode, timeInYears, k).contribution
  }

  /**
   * The columns add up: the period interest of rows 1 to k sums to row
   * k's total interest, and the period contributions to the engine's
   * total contributions at row k's time.
   */
  lemma {:induction false} ColumnsTelescope(a: Account, g: real -> real, viewMode: ViewMode, timeInYears: real, k: nat)
    requires k >= 1
    ensures InterestColumnSum(a, g, viewMode, timeInYears, k) == RowAt(a, g, viewMode, timeInYears, k).totalInterest
    ensures ContributionColumnSum(a, g, viewMode, timeInYears, k)
      == Project(a, g, RowTime(viewMode, timeInYears, k)).totalContributions
  {
    if k > 1 {
      ColumnsTelescope(a, g, viewMode, timeInYears, k - 1);
    }
  }

  /**
   * Below its cap a table ends on a row at the very end of the span; the
   * rows it shows before that all lie strictly inside the span.
   */
  lemma TableReachesTheEnd(viewMode: ViewMode, timeInYears: real, period: int)
    requires timeInYears > 0.0
    requires PeriodsToShow(viewMode, timeInYears) < RowCap(viewMode)
    ensures RowTime(viewMode, timeInYears, PeriodsToShow(viewMode, timeInYears)) == timeInYears
    ensures 1 <= period < PeriodsToShow(viewMode, timeInYears) ==> RowTime(viewMode, timeInYears, period) < timeInYears
  {
    var n := PeriodsToShow(viewMode, timeInYears);
    if 1 <= period < n {
      MulLeft(Increment(viewMode), period as real, (n - 1) as real);
    }
  }

}
