/**
 * The projection engine: calculateWithContributions. It grows the principal
 * over the whole span and adds up, one by one, the future values of the
 * periodic deposits. The power (1 + periodRate)^x with a fractional exponent
 * is the parameter g (see Numbers.IsGrowthCurve), so every result here is
 * exact in terms of g.
 */
module Engine {
  import opened Numbers

  /** The number of periods of a per-year frequency in a span of years (possibly fractional). */
  function Periods(perYear: int, years: real): real
  {
    perYear as real * years
  }

  /**
   * Math.pow((1 + periodRate), x): the growth curve g at exponent x. It is
   * g(x) under the source's name, so that each Math.pow call of the
   * calculator appears as one term in the contracts below.
   */
  function Pow1(g: real -> real, x: real): real
  {
    g(x)
  }

  /** The account the calculator projects: one principal and an optional recurring deposit. */
  datatype Account = Account(
    principal: real,
    compoundingFrequency: PosInt,   // compounding periods per year
    contributionAmount: real,
    contributionFrequency: nat)  // deposits per year; 0 means none

  /** What calculateWithContributions returns. */
  datatype Projection = Projection(
    finalAmount: real,
    totalContributions: real,
    totalInterest: real,
    principalOnly: real)

  /** The deposit stream is active unless its frequency is 0 or its amount is not positive. */
  predicate HasContributions(a: Account)
  {
    a.contributionFrequency > 0 && a.contributionAmount > 0.0
  }

  /** The nominal number of deposits over t years (contributionFreq * timeInYears), not rounded. */
  function ContributionPeriods(a: Account, t: real): real
  {
    Periods(a.contributionFrequency, t)
  }

  /** How many deposits have been made by time t: the whole periods elapsed, none before time 0. */
  function DepositCount(a: Account, t: real): (k: nat)
    ensures HasContributions(a) && t >= 0.0 ==> k == ContributionPeriods(a, t).Floor
    ensures !HasContributions(a) || t < 0.0 ==> k == 0
  {
    if HasContributions(a) && 0.0 <= t then ContributionPeriods(a, t).Floor else 0
  }

  /** The value at time t of deposit i, made at i / contributionFrequency years. */
  function DepositValue(a: Account, g: real -> real, t: real, i: int): real
    requires a.contributionFrequency > 0
  {
    a.contributionAmount * Pow1(g, Periods(a.compoundingFrequency, t - i as real / a.contributionFrequency as real))
  }

  /** The value at time t of deposits 1 to k together. */
  function DepositSum(a: Account, g: real -> real, t: real, k: nat): real
    requires a.contributionFrequency > 0
  {
    if k == 0 then 0.0 else DepositSum(a, g, t, k - 1) + DepositValue(a, g, t, k)
  }

  /** The part of the balance that comes from deposits: every deposit made by time t, grown to t. */
  function ContributionGrowth(a: Account, g: real -> real, t: real): real
  {
    if HasContributions(a) then DepositSum(a, g, t, DepositCount(a, t)) else 0.0
  }

  /**
   * The projection at time t. Its ensures are the accounting identities that
   * hold in every branch; the lemmas below say what the figures are.
   */
  function Project(a: Account, g: real -> real, t: real): (p: Projection)
    ensures p.principalOnly == a.principal * Pow1(g, Periods(a.compoundingFrequency, t))
    ensures p.finalAmount == p.principalOnly + ContributionGrowth(a, g, t)
    ensures p.totalInterest == p.finalAmount - a.principal - p.totalContributions
    ensures p.totalContributions == if HasContributions(a) then a.contributionAmount * ContributionPeriods(a, t) else 0.0
  {
    var principalGrowth := a.principal * Pow1(g, Periods(a.compoundingFrequency, t));
    if !HasContributions(a) then
      Projection(principalGrowth, 0.0, principalGrowth - a.principal, principalGrowth)
    else
      var totalContributions := a.contributionAmount * ContributionPeriods(a, t);
      var finalAmount := principalGrowth + ContributionGrowth(a, g, t);
      Projection(finalAmount, totalContributions, finalAmount - a.principal - totalContributions, principalGrowth)
  }

  /**
   * calculateWithContributions, loop and all: deposits i = 1, 2, ... while
   * i <= contributionFreq * timeInYears, each counted when its remaining time
   * is not negative. It computes exactly Project.
   */
  method CalculateWithContributions(a: Account, g: real -> real, t: real) returns (res: Projection)
    ensures res == Project(a, g, t)
  {
    var numberOfPeriods := Periods(a.compoundingFrequency, t);
    var principalGrowth := a.principal * Pow1(g, numberOfPeriods);

    if a.contributionFrequency == 0 || a.contributionAmount <= 0.0 {
      return Projection(principalGrowth, 0.0, principalGrowth - a.principal, principalGrowth);
    }

    var totalContributionPeriods := Periods(a.contributionFrequency, t);
    var contributionGrowth := GrowDeposits(a, g, t);
    var totalContributions := a.contributionAmount * totalContributionPeriods;
    var finalAmount := principalGrowth + contributionGrowth;
    var totalInterest := finalAmount - a.principal - totalContributions;
    res := Projection(finalAmount, totalContributions, totalInterest, principalGrowth);
  }

  /**
   * The deposit loop of calculateWithContributions: deposits i = 1, 2, ...
   * while i <= contributionFreq * timeInYears, each grown over its remaining
   * time when that is not negative.
   */
  method GrowDeposits(a: Account, g: real -> real, t: real) returns (contributionGrowth: real)
    requires HasContributions(a)
    ensures contributionGrowth == ContributionGrowth(a, g, t)
  {
    var totalContributionPeriods := Periods(a.contributionFrequency, t);
    var contributionPeriodInYears := 1.0 / a.contributionFrequency as real;
    ghost var count := DepositCount(a, t);

    contributionGrowth := 0.0;
    var i := 1;
    while i as real <= totalContributionPeriods
      invariant 1 <= i <= count + 1
      invariant contributionGrowth == DepositSum(a, g, t, i - 1)
      decreases count + 1 - i
    {
      var contributionTime := i as real * contributionPeriodInYears;
      var remainingTime := t - contributionTime;
      DepositStep(a, g, t, i, remainingTime, contributionGrowth);
      if remainingTime >= 0.0 {
        var periodsRemaining := Periods(a.compoundingFrequency, remainingTime);
        var contributionFV := a.contributionAmount * Pow1(g, periodsRemaining);
        contributionGrowth := contributionGrowth + contributionFV;
      }
      i := i + 1;
    }
    DepositsExhausted(a, t, i);
  }

  /**
   * Deposit i, inside the nominal count, falls due at i / contributionFreq
   * years, no later than the horizon: it is one of the deposits counted, and
   * adding the loop's future value of it to the sum of the earlier ones
   * gives the sum up to it.
   */
  lemma DepositStep(a: Account, g: real -> real, t: real, i: int, remainingTime: real, sum: real)
    requires HasContributions(a) && 1 <= i && i as real <= Periods(a.contributionFrequency, t)
    requires remainingTime == t - i as real * (1.0 / a.contributionFrequency as real)
    requires sum == DepositSum(a, g, t, i - 1)
    ensures remainingTime >= 0.0 && i <= DepositCount(a, t)
    ensures sum + a.contributionAmount * Pow1(g, Periods(a.compoundingFrequency, remainingTime)) == DepositSum(a, g, t, i)
  {
    var f := a.contributionFrequency as real;
    assert i as real * (1.0 / f) == i as real / f;
    DivideBound(i as real, f, t);
    assert remainingTime >= 0.0;
    assert i <= DepositCount(a, t);
  }

  /** A number at most f * t, divided by a positive f, is at most t. */
  lemma DivideBound(x: real, f: real, t: real)
    requires 0.0 < f && x <= f * t
    ensures x / f <= t
  {
    var q := x / f;
    assert q * f == x;
    if q > t {
      MulLeftStrict(f, t, q);
    }
  }

  /** When the loop's guard fails every counted deposit has been added. */
  lemma DepositsExhausted(a: Account, t: real, i: int)
    requires HasContributions(a) && 1 <= i <= DepositCount(a, t) + 1
    requires !(i as real <= Periods(a.contributionFrequency, t))
    ensures i - 1 == DepositCount(a, t)
  {
  }

  // ---------------------------------------------------------------------
  // What the projection is

  /** With no deposit stream the balance is the principal grown over the whole span, and nothing is contributed. */
  lemma {:induction false} NoContributionsClosedForm(a: Account, g: real -> real, r: real, t: real, n: nat)
    requires !HasContributions(a) && IsGrowthCurve(g, r)
    requires Periods(a.compoundingFrequency, t) == n as real
    ensures Project(a, g, t).finalAmount == Project(a, g, t).principalOnly == a.principal * Pow(1.0 + r, n)
    ensures Project(a, g, t).totalContributions == 0.0
    ensures Project(a, g, t).totalInterest == a.principal * Pow(1.0 + r, n) - a.principal
  {
    GrowthAtWholeExponent(g, r, n);
  }

  /** At time 0 nothing has grown and nothing has been deposited. */
  lemma AtTimeZero(a: Account, g: real -> real, r: real)
    requires IsGrowthCurve(g, r)
    ensures Project(a, g, 0.0) == Projection(a.principal, 0.0, 0.0, a.principal)
  {
    assert Periods(a.compoundingFrequency, 0.0) == 0.0;
    assert ContributionPeriods(a, 0.0) == 0.0;
  }

  /**
   * The asymmetry of the totals: totalContributions uses the nominal,
   * unrounded deposit count, so it exceeds what was actually deposited by
   * less than one deposit.
   */
  lemma ContributionsNominal(a: Account, g: real -> real, t: real)
    requires HasContributions(a) && t >= 0.0
    ensures a.contributionAmount * DepositCount(a, t) as real <= Project(a, g, t).totalContributions
    ensures Project(a, g, t).totalContributions < a.contributionAmount * (DepositCount(a, t) + 1) as real
  {
    var x := ContributionPeriods(a, t);
    var k := DepositCount(a, t);
    assert k == x.Floor;
    assert k as real <= x < (k + 1) as real;
    NominalBounds(a.contributionAmount, x, k as real, (k + 1) as real, Project(a, g, t).totalContributions);
  }

  /** c * x lies between c * lo and c * hi when x lies between lo and hi. */
  lemma NominalBounds(c: real, x: real, lo: real, hi: real, total: real)
    requires 0.0 < c && lo <= x < hi && total == c * x
    ensures c * lo <= total < c * hi
  {
    MulLeft(c, lo, x);
    MulLeftStrict(c, x, hi);
  }

  /** Periods grow with the span. */
  lemma PeriodsMonotone(perYear: int, y1: real, y2: real)
    requires 0 <= perYear && y1 <= y2
    ensures Periods(perYear, y1) <= Periods(perYear, y2)
  {
    MulLeft(perYear as real, y1, y2);
  }

  /** A deposit inside the nominal count has grown for a non-negative number of periods. */
  lemma DepositOnTime(a: Account, t: real, i: int)
    requires a.contributionFrequency > 0 && 1 <= i && i as real <= ContributionPeriods(a, t)
    ensures Periods(a.compoundingFrequency, t - i as real / a.contributionFrequency as real) >= 0.0
  {
    var f := a.contributionFrequency as real;
    DivideBound(i as real, f, t);
    PeriodsMonotone(a.compoundingFrequency, 0.0, t - i as real / f);
  }

  /** Under a flat curve (a zero rate) a deposit is worth what was paid in. */
  lemma DepositFlat(a: Account, g: real -> real, t: real, i: int)
    requires a.contributionFrequency > 0 && 1 <= i && i as real <= ContributionPeriods(a, t)
    requires forall x :: 0.0 <= x ==> g(x) == 1.0
    ensures DepositValue(a, g, t, i) == a.contributionAmount
  {
    DepositOnTime(a, t, i);
  }

  /** With a non-negative rate a deposit is worth at least what was paid in. */
  lemma DepositAtLeastAmount(a: Account, g: real -> real, r: real, t: real, i: int)
    requires a.contributionFrequency > 0 && a.contributionAmount >= 0.0 && 1 <= i && i as real <= ContributionPeriods(a, t)
    requires IsGrowthCurve(g, r) && Nondecreasing(g)
    ensures DepositValue(a, g, t, i) >= a.contributionAmount
  {
    var x := Periods(a.compoundingFrequency, t - i as real / a.contributionFrequency as real);
    DepositOnTime(a, t, i);
    GrowthAtLeastOne(g, r, x);
    MulLeft(a.contributionAmount, 1.0, Pow1(g, x));
  }

  /** With a non-negative rate a deposit is worth more later. */
  lemma DepositLater(a: Account, g: real -> real, t1: real, t2: real, i: int)
    requires a.contributionFrequency > 0 && a.contributionAmount >= 0.0 && 1 <= i && i as real <= ContributionPeriods(a, t1)
    requires Nondecreasing(g) && t1 <= t2
    ensures DepositValue(a, g, t1, i) <= DepositValue(a, g, t2, i)
  {
    var f := a.contributionFrequency as real;
    var x1 := Periods(a.compoundingFrequency, t1 - i as real / f);
    var x2 := Periods(a.compoundingFrequency, t2 - i as real / f);
    DepositOnTime(a, t1, i);
    PeriodsMonotone(a.compoundingFrequency, t1 - i as real / f, t2 - i as real / f);
    assert Pow1(g, x1) <= Pow1(g, x2);
    MulLeft(a.contributionAmount, Pow1(g, x1), Pow1(g, x2));
  }

  /** Deposits 1 to k under a flat curve are worth k deposits. */
  lemma {:induction false} FlatDepositSum(a: Account, g: real -> real, t: real, k: nat)
    requires a.contributionFrequency > 0 && k as real <= ContributionPeriods(a, t)
    requires forall x :: 0.0 <= x ==> g(x) == 1.0
    ensures DepositSum(a, g, t, k) == a.contributionAmount * k as real
  {
    if k > 0 {
      FlatDepositSum(a, g, t, k - 1);
      DepositFlat(a, g, t, k);
    }
  }

  /**
   * At a zero rate the balance is the principal plus the deposits actually
   * made: exactly the chart's no-interest baseline.
   */
  lemma FlatCurveBalance(a: Account, g: real -> real, t: real)
    requires t >= 0.0 && forall x :: 0.0 <= x ==> g(x) == 1.0
    ensures Project(a, g, t).finalAmount == a.principal + a.contributionAmount * DepositCount(a, t) as real
  {
    PeriodsMonotone(a.compoundingFrequency, 0.0, t);
    if HasContributions(a) {
      FlatDepositSum(a, g, t, DepositCount(a, t));
    }
  }

  /** Deposits 1 to k are each worth at least the amount deposited when the rate is not negative. */
  lemma {:induction false} DepositSumAtLeastDeposited(a: Account, g: real -> real, r: real, t: real, k: nat)
    requires a.contributionFrequency > 0 && a.contributionAmount >= 0.0 && k as real <= ContributionPeriods(a, t)
    requires IsGrowthCurve(g, r) && Nondecreasing(g)
    ensures DepositSum(a, g, t, k) >= a.contributionAmount * k as real
  {
    if k > 0 {
      DepositSumAtLeastDeposited(a, g, r, t, k - 1);
      DepositAtLeastAmount(a, g, r, t, k);
    }
  }

  /**
   * With a non-negative rate the balance never falls below the chart's
   * baseline (principal plus deposits made), so interest is never negative
   * against what was actually paid in.
   */
  lemma BalanceAtLeastBaseline(a: Account, g: real -> real, r: real, t: real)
    requires t >= 0.0 && a.principal >= 0.0 && IsGrowthCurve(g, r) && Nondecreasing(g)
    ensures Project(a, g, t).finalAmount >= a.principal + a.contributionAmount * DepositCount(a, t) as real
  {
    PrincipalAtLeastPaidIn(a, g, r, t);
    DepositsAtLeastPaidIn(a, g, r, t);
  }

  /** With a non-negative rate the grown principal is at least the principal. */
  lemma PrincipalAtLeastPaidIn(a: Account, g: real -> real, r: real, t: real)
    requires t >= 0.0 && a.principal >= 0.0 && IsGrowthCurve(g, r) && Nondecreasing(g)
    ensures a.principal * Pow1(g, Periods(a.compoundingFrequency, t)) >= a.principal
  {
    var x := Periods(a.compoundingFrequency, t);
    PeriodsMonotone(a.compoundingFrequency, 0.0, t);
    GrowthAtLeastOne(g, r, x);
    MulLeft(a.principal, 1.0, Pow1(g, x));
  }

  /** With a non-negative rate the grown deposits are worth at least what was deposited. */
  lemma DepositsAtLeastPaidIn(a: Account, g: real -> real, r: real, t: real)
    requires t >= 0.0 && IsGrowthCurve(g, r) && Nondecreasing(g)
    ensures ContributionGrowth(a, g, t) >= a.contributionAmount * DepositCount(a, t) as real
  {
    if HasContributions(a) {
      DepositSumAtLeastDeposited(a, g, r, t, DepositCount(a, t));
    } else {
      assert DepositCount(a, t) == 0;
    }
  }

  /** Later, each of the first k deposits is worth at least as much. */
  lemma {:induction false} DepositSumGrowsWithTime(a: Account, g: real -> real, t1: real, t2: real, k: nat)
    requires a.contributionFrequency > 0 && a.contributionAmount >= 0.0 && Nondecreasing(g)
    requires t1 <= t2 && k as real <= ContributionPeriods(a, t1)
    ensures DepositSum(a, g, t1, k) <= DepositSum(a, g, t2, k)
  {
    if k > 0 {
      DepositSumGrowsWithTime(a, g, t1, t2, k - 1);
      DepositLater(a, g, t1, t2, k);
    }
  }

  /** More deposits add value: each deposit inside the count is worth at least 0. */
  lemma {:induction false} DepositSumGrowsWithCount(a: Account, g: real -> real, r: real, t: real, k1: nat, k2: nat)
    requires a.contributionFrequency > 0 && a.contributionAmount >= 0.0 && IsGrowthCurve(g, r) && Nondecreasing(g)
    requires k1 <= k2 && k2 as real <= ContributionPeriods(a, t)
    ensures DepositSum(a, g, t, k1) <= DepositSum(a, g, t, k2)
  {
    if k1 < k2 {
      DepositSumGrowsWithCount(a, g, r, t, k1, k2 - 1);
      DepositAtLeastAmount(a, g, r, t, k2);
    }
  }

  /** The deposit part of the balance never decreases as time goes on. */
  lemma ContributionGrowthNondecreasing(a: Account, g: real -> real, r: real, t1: real, t2: real)
    requires 0.0 <= t1 <= t2 && IsGrowthCurve(g, r) && Nondecreasing(g)
    ensures ContributionGrowth(a, g, t1) <= ContributionGrowth(a, g, t2)
  {
    if HasContributions(a) {
      var k1, k2 := DepositCount(a, t1), DepositCount(a, t2);
      PeriodsMonotone(a.contributionFrequency, t1, t2);
      DepositSumGrowsWithTime(a, g, t1, t2, k1);
      DepositSumGrowsWithCount(a, g, r, t2, k1, k2);
    }
  }

  /** The grown principal never decreases as time goes on. */
  lemma PrincipalGrowthNondecreasing(a: Account, g: real -> real, t1: real, t2: real)
    requires 0.0 <= t1 <= t2 && a.principal >= 0.0 && Nondecreasing(g)
    ensures a.principal * Pow1(g, Periods(a.compoundingFrequency, t1)) <= a.principal * Pow1(g, Periods(a.compoundingFrequency, t2))
  {
    var x1 := Periods(a.compoundingFrequency, t1);
    var x2 := Periods(a.compoundingFrequency, t2);
    PeriodsMonotone(a.compoundingFrequency, 0.0, t1);
    PeriodsMonotone(a.compoundingFrequency, t1, t2);
    assert Pow1(g, x1) <= Pow1(g, x2);
    MulLeft(a.principal, Pow1(g, x1), Pow1(g, x2));
  }

  /**
   * Monotonicity: with a non-negative rate and a non-negative principal, the
   * balance never decreases as time goes on.
   */
  lemma BalanceNondecreasing(a: Account, g: real -> real, r: real, t1: real, t2: real)
    requires 0.0 <= t1 <= t2 && a.principal >= 0.0 && IsGrowthCurve(g, r) && Nondecreasing(g)
    ensures Project(a, g, t1).finalAmount <= Project(a, g, t2).finalAmount
  {
    var p1, p2 := Project(a, g, t1), Project(a, g, t2);
    PrincipalGrowthNondecreasing(a, g, t1, t2);
    ContributionGrowthNondecreasing(a, g, r, t1, t2);
    assert p1.finalAmount == p1.principalOnly + ContributionGrowth(a, g, t1);
    assert p2.finalAmount == p2.principalOnly + ContributionGrowth(a, g, t2);
  }

  /**
   * On a deposit date the last deposit counted is made at the horizon
   * itself and is worth exactly the amount deposited.
   */
  lemma LastDepositUngrown(a: Account, g: real -> real, r: real, t: real, k: nat)
    requires HasContributions(a) && IsGrowthCurve(g, r) && k >= 1
    requires ContributionPeriods(a, t) == k as real
    ensures DepositCount(a, t) == k && DepositValue(a, g, t, k) == a.contributionAmount
  {
    var f := a.contributionFrequency as real;
    assert f * t == k as real;
    assert k as real / f == t;
    assert Periods(a.compoundingFrequency, t - k as real / f) == 0.0;
  }
}
