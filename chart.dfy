/**
 * generateChart's sampling: how many points the growth chart plots, at
 * which times, and the two series it draws (the projected balance and the
 * no-interest baseline of principal plus deposits made).
 */
module Chart {
  import opened Numbers
  import opened Engine

  /** The number of intervals the chart divides the span into: finer for short spans, at most 100. */
  function ChartPointCount(timeInYears: real): (dataPoints: int)
    ensures 12 <= dataPoints <= 80
    ensures timeInYears <= 1.0 ==> dataPoints <= 52
    ensures 1.0 < timeInYears <= 5.0 ==> 24 <= dataPoints <= 60
    ensures 5.0 < timeInYears <= 20.0 ==> 40 <= dataPoints <= 80
    ensures 20.0 < timeInYears ==> 41 <= dataPoints
  {
    var dataPoints :=
      if timeInYears <= 1.0 then MaxInt(12, Ceil(timeInYears * 52.0))
      else if timeInYears <= 5.0 then MaxInt(24, Ceil(timeInYears * 12.0))
      else if timeInYears <= 20.0 then MaxInt(40, Ceil(timeInYears * 4.0))
      else MinInt(Ceil(timeInYears * 2.0), 80);
    SpacingBound(timeInYears, dataPoints);
    MinInt(dataPoints, 100)
  }

  /** Each branch's count lies between 12 and 80. */
  lemma SpacingBound(timeInYears: real, dataPoints: int)
    requires dataPoints ==
      if timeInYears <= 1.0 then MaxInt(12, Ceil(timeInYears * 52.0))
      else if timeInYears <= 5.0 then MaxInt(24, Ceil(timeInYears * 12.0))
      else if timeInYears <= 20.0 then MaxInt(40, Ceil(timeInYears * 4.0))
      else MinInt(Ceil(timeInYears * 2.0), 80)
    ensures 12 <= dataPoints <= 80
    ensures 20.0 < timeInYears ==> 41 <= dataPoints
  {
    if timeInYears > 20.0 {
      assert Ceil(timeInYears * 2.0) >= 41;
    }
  }

  /** The time of sample i: i spacings of timeInYears / dataPoints. */
  function SampleTime(timeInYears: real, dataPoints: int, i: int): real
    requires dataPoints > 0
  {
    i as real * (timeInYears / dataPoints as real)
  }

  /** The samples run evenly from the start of the span to its end. */
  lemma SamplesSpanTheWholeTerm(timeInYears: real, dataPoints: int, i: int, j: int)
    requires dataPoints > 0 && timeInYears >= 0.0 && 0 <= i <= j <= dataPoints
    ensures SampleTime(timeInYears, dataPoints, 0) == 0.0
    ensures SampleTime(timeInYears, dataPoints, dataPoints) == timeInYears
    ensures 0.0 <= SampleTime(timeInYears, dataPoints, i) <= SampleTime(timeInYears, dataPoints, j) <= timeInYears
  {
    var step := timeInYears / dataPoints as real;
    assert step >= 0.0;
    MulLeft(step, 0.0, i as real);
    MulLeft(step, i as real, j as real);
    MulLeft(step, j as real, dataPoints as real);
    assert dataPoints as real * step == timeInYears;
  }

  /** Principal plus the deposits made by time t, without interest (Math.floor of the deposits due). */
  function Baseline(a: Account, t: real): (b: real)
    ensures HasContributions(a) && t >= 0.0 ==> b == a.principal + a.contributionAmount * DepositCount(a, t) as real
    ensures !HasContributions(a) ==> b == a.principal
  {
    if HasContributions(a) then
      a.principal + a.contributionAmount * Periods(a.contributionFrequency, t).Floor as real
    else a.principal
  }

  /** At every time from the start on, the baseline is the principal plus the deposits the engine counts as made. */
  lemma BaselineIsPaidIn(a: Account, t: real)
    requires t >= 0.0
    ensures Baseline(a, t) == a.principal + a.contributionAmount * DepositCount(a, t) as real
  {
  }

  /**
   * generateChart's loop: for i = 0 to dataPoints, the balance projected at
   * the sample's time and the baseline there.
   */
  method GenerateChartSeries(a: Account, g: real -> real, timeInYears: real)
    returns (balanceData: seq<real>, baselineData: seq<real>)
    ensures |balanceData| == |baselineData| == ChartPointCount(timeInYears) + 1
    ensures forall i :: 0 <= i < |balanceData| ==>
      balanceData[i] == Project(a, g, SampleTime(timeInYears, ChartPointCount(timeInYears), i)).finalAmount
    ensures forall i :: 0 <= i < |baselineData| ==>
      baselineData[i] == Baseline(a, SampleTime(timeInYears, ChartPointCount(timeInYears), i))
  {
    var dataPoints := ChartPointCount(timeInYears);
    var timeIncrement := timeInYears / dataPoints as real;
    balanceData, baselineData := [], [];
    var hasContributions := a.contributionFrequency > 0 && a.contributionAmount > 0.0;
    for i := 0 to dataPoints + 1
      invariant |balanceData| == |baselineData| == i
      invariant forall k :: 0 <= k < i ==>
        balanceData[k] == Project(a, g, SampleTime(timeInYears, dataPoints, k)).finalAmount
      invariant forall k :: 0 <= k < i ==>
        baselineData[k] == Baseline(a, SampleTime(timeInYears, dataPoints, k))
    {
      var currentTime := i as real * timeIncrement;
      var results := CalculateWithContributions(a, g, currentTime);
      var baseline := a.principal;
      if hasContributions {
        var contributionsMade := Periods(a.contributionFrequency, currentTime).Floor;
        baseline := a.principal + a.contributionAmount * contributionsMade as real;
      }
      assert currentTime == SampleTime(timeInYears, dataPoints, i);
      assert baseline == Baseline(a, currentTime);
      balanceData := balanceData + [results.finalAmount];
      baselineData := baselineData + [baseline];
    }
  }

  /** The chart starts at the principal on both lines and ends at the projection the result cards report. */
  lemma ChartEnds(a: Account, g: real -> real, r: real, timeInYears: real)
    requires timeInYears >= 0.0 && IsGrowthCurve(g, r)
    ensures var n := ChartPointCount(timeInYears);
      && Project(a, g, SampleTime(timeInYears, n, 0)).finalAmount == a.principal
      && Baseline(a, SampleTime(timeInYears, n, 0)) == a.principal
      && Project(a, g, SampleTime(timeInYears, n, n)) == Project(a, g, timeInYears)
  {
    var n := ChartPointCount(timeInYears);
    SamplesSpanTheWholeTerm(timeInYears, n, 0, 0);
    AtTimeZero(a, g, r);
  }

  /**
   * With a non-negative rate and principal the balance line never falls
   * from one sample to a later one, and never dips below the baseline.
   */
  lemma ChartOrdered(a: Account, g: real -> real, r: real, timeInYears: real, i: int, j: int)
    requires timeInYears >= 0.0 && a.principal >= 0.0 && IsGrowthCurve(g, r) && Nondecreasing(g)
    requires 0 <= i <= j <= ChartPointCount(timeInYears)
    ensures var n := ChartPointCount(timeInYears);
      && Project(a, g, SampleTime(timeInYears, n, i)).finalAmount <= Project(a, g, SampleTime(timeInYears, n, j)).finalAmount
      && Project(a, g, SampleTime(timeInYears, n, i)).finalAmount >= Baseline(a, SampleTime(timeInYears, n, i))
  {
    var n := ChartPointCount(timeInYears);
    var ti, tj := SampleTime(timeInYears, n, i), SampleTime(timeInYears, n, j);
    SamplesSpanTheWholeTerm(timeInYears, n, i, j);
    assert Project(a, g, ti).finalAmount <= Project(a, g, tj).finalAmount by {
      BalanceNondecreasing(a, g, r, ti, tj);
    }
    assert Project(a, g, ti).finalAmount >= Baseline(a, ti) by {
      BalanceAtLeastBaseline(a, g, r, ti);
      BaselineIsPaidIn(a, ti);
    }
  }

  /** At a zero rate the balance line and the baseline are the same line. */
  lemma ZeroRateLinesCoincide(a: Account, g: real -> real, t: real)
    requires t >= 0.0 && forall x :: 0.0 <= x ==> g(x) == 1.0
    ensures Project(a, g, t).finalAmount == Baseline(a, t)
  {
    FlatCurveBalance(a, g, t);
  }
}
