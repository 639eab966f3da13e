/** Usage ratios, the two-slope rate curve, the overall borrow rate, the supply rate and average stable rates. */
module Rates {
  import opened WadRayMath

  /** The interest rate strategy of one reserve, together with the configured reserve factor. */
  datatype Strategy = Strategy(
    optimalUsageRatio: int,
    optimalStableToTotalDebtRatio: int,
    baseVariableBorrowRate: int,
    variableRateSlope1: int,
    variableRateSlope2: int,
    stableRateSlope1: int,
    stableRateSlope2: int,
    stableRateExcessOffset: int,
    reserveFactor: int)

  /** What the strategy contract guarantees of its own parameters. */
  predicate ValidStrategy(p: Strategy) {
    && 0 < p.optimalUsageRatio <= RAY
    && 0 <= p.optimalStableToTotalDebtRatio <= RAY
    && 0 <= p.baseVariableBorrowRate
    && 0 <= p.variableRateSlope1 && 0 <= p.variableRateSlope2
    && 0 <= p.stableRateSlope1 && 0 <= p.stableRateSlope2
    && 0 <= p.stableRateExcessOffset
    && 0 <= p.reserveFactor <= PERCENTAGE_FACTOR
  }

  datatype Rates = Rates(liquidityRate: int, stableBorrowRate: int, variableBorrowRate: int)

  // ----- usage ratios -----

  /** Part of the total that is lent out; zero when nothing is. */
  function UsageRatio(debt: int, liquidity: int): int
    requires debt != 0 ==> liquidity + debt != 0
  {
    if debt == 0 then 0 else RayDiv(debt, liquidity + debt)
  }

  lemma UsageRatioBounds(debt: nat, liquidity: nat)
    ensures 0 <= UsageRatio(debt, liquidity) <= RAY
  {
    if debt != 0 {
      DivAtOrder(debt, liquidity + debt, 1, 1, RAY);
      DivAtUnit(1, RAY);
    }
  }

  /** More debt over less liquidity means a higher ratio. */
  lemma UsageRatioOrder(debt: nat, liquidity: nat, debt': nat, liquidity': nat)
    requires debt <= debt' && liquidity' <= liquidity
    ensures UsageRatio(debt, liquidity) <= UsageRatio(debt', liquidity')
  {
    UsageRatioBounds(debt', liquidity');
    if debt != 0 {
      assert debt * (liquidity' + debt') <= debt' * (liquidity + debt) by {
        MulMono(debt, debt', liquidity');
        MulMono(liquidity', liquidity, debt');
      }
      DivAtOrder(debt, liquidity + debt, debt', liquidity' + debt', RAY);
    }
  }

  // ----- the curve -----

  predicate KinkDefined(usage: int, optimal: int) {
    if usage > optimal then optimal != RAY else optimal != 0
  }

  /** The two-slope curve over the usage ratio, without its base rate. */
  function Slopes(usage: int, optimal: int, slope1: int, slope2: int): int
    requires KinkDefined(usage, optimal)
  {
    if usage > optimal then
      slope1 + RayMul(slope2, RayDiv(usage - optimal, RAY - optimal))
    else
      RayDiv(RayMul(slope1, usage), optimal)
  }

  function VariableRate(p: Strategy, usage: int): int
    requires KinkDefined(usage, p.optimalUsageRatio)
  {
    p.baseVariableBorrowRate + Slopes(usage, p.optimalUsageRatio, p.variableRateSlope1, p.variableRateSlope2)
  }

  function StableToTotalDebtRatio(totalStableDebt: int, totalDebt: int): int
    requires totalStableDebt > 0 ==> totalDebt != 0
  {
    if totalStableDebt > 0 then RayDiv(totalStableDebt, totalDebt) else 0
  }

  function StableRate(p: Strategy, marketStableRate: int, usage: int, stableRatio: int): int
    requires KinkDefined(usage, p.optimalUsageRatio)
    requires stableRatio > p.optimalStableToTotalDebtRatio ==> p.optimalStableToTotalDebtRatio != RAY
  {
    marketStableRate
    + Slopes(usage, p.optimalUsageRatio, p.stableRateSlope1, p.stableRateSlope2)
    + if stableRatio > p.optimalStableToTotalDebtRatio then
        RayMul(p.stableRateExcessOffset,
          RayDiv(stableRatio - p.optimalStableToTotalDebtRatio, RAY - p.optimalStableToTotalDebtRatio))
      else 0
  }

  function OverallBorrowRate(totalStableDebt: int, totalVariableDebt: int,
    variableBorrowRate: int, averageStableBorrowRate: int): int
  {
    var totalBorrows := totalStableDebt + totalVariableDebt;
    if totalBorrows == 0 then
      0
    else
      RayDiv(RayMul(WadToRay(totalVariableDebt), variableBorrowRate)
             + RayMul(WadToRay(totalStableDebt), averageStableBorrowRate),
        WadToRay(totalBorrows))
  }

  function LiquidityRate(p: Strategy, overallRate: int, supplyUsageRatio: int): int {
    PercentMul(RayMul(overallRate, supplyUsageRatio), PERCENTAGE_FACTOR - p.reserveFactor)
  }

  // ----- average stable rates -----

  function AverageStableRate(averageRate: int, totalDebt: int, amountChanged: int, rate: int): int {
    if totalDebt + amountChanged == 0 then
      0
    else
      TruncDiv(averageRate * totalDebt + rate * amountChanged, totalDebt + amountChanged)
  }

  /** The averaging used when rebalancing: the user's amount is converted to ray precision, the total is not. */
  function AverageStableRateRebalance(averageRate: int, totalDebt: int, amountChanged: int, rate: int): int {
    var total := totalDebt + WadToRay(amountChanged);
    if total == 0 then
      0
    else
      RayDiv(RayMul(averageRate, totalDebt) + RayMul(rate, WadToRay(amountChanged)), total)
  }

  // ----- all three rates -----

  /** No division by zero happens while the rates are computed. */
  predicate RatesDefined(p: Strategy, totalStableDebt: int, totalVariableDebt: int,
    availableLiquidity: int, totalLiquidity: int)
  {
    var totalDebt := totalStableDebt + totalVariableDebt;
    && (totalDebt != 0 ==> availableLiquidity + totalDebt != 0 && totalLiquidity + totalDebt != 0)
    && (totalStableDebt > 0 ==> totalDebt != 0)
    && KinkDefined(UsageRatio(totalDebt, availableLiquidity), p.optimalUsageRatio)
    && (StableToTotalDebtRatio(totalStableDebt, totalDebt) > p.optimalStableToTotalDebtRatio ==>
          p.optimalStableToTotalDebtRatio != RAY)
  }

  function InterestRates(p: Strategy, marketStableRate: int, totalStableDebt: int, totalVariableDebt: int,
    averageStableBorrowRate: int, availableLiquidity: int, totalLiquidity: int): Rates
    requires RatesDefined(p, totalStableDebt, totalVariableDebt, availableLiquidity, totalLiquidity)
  {
    var totalDebt := totalStableDebt + totalVariableDebt;
    var usage := UsageRatio(totalDebt, availableLiquidity);
    var variableRate := VariableRate(p, usage);
    var overallRate := OverallBorrowRate(totalStableDebt, totalVariableDebt, variableRate, averageStableBorrowRate);
    Rates(
      LiquidityRate(p, overallRate, UsageRatio(totalDebt, totalLiquidity)),
      StableRate(p, marketStableRate, usage, StableToTotalDebtRatio(totalStableDebt, totalDebt)),
      variableRate)
  }

  /** The rate computation as the source performs it: local rates that start at their base
      values and are raised in place. */
  method CalcExpectedInterestRates(p: Strategy, marketStableRate: int, totalStableDebt: int, totalVariableDebt: int,
    averageStableBorrowRate: int, availableLiquidity: int, totalLiquidity: int) returns (rates: Rates)
    requires RatesDefined(p, totalStableDebt, totalVariableDebt, availableLiquidity, totalLiquidity)
    ensures rates == InterestRates(p, marketStableRate, totalStableDebt, totalVariableDebt,
      averageStableBorrowRate, availableLiquidity, totalLiquidity)
  {
    hide RayMul, RayDiv, PercentMul, WadToRay;
    var totalDebt := totalStableDebt + totalVariableDebt;
    var borrowUsageRatio := UsageRatio(totalDebt, availableLiquidity);
    var supplyUsageRatio := UsageRatio(totalDebt, totalLiquidity);
    var stableBorrowRate := marketStableRate;
    var variableBorrowRate := p.baseVariableBorrowRate;
    var stableToTotalDebtRatio := if totalStableDebt > 0 then RayDiv(totalStableDebt, totalDebt) else 0;
    if borrowUsageRatio > p.optimalUsageRatio {
      var excess := RayDiv(borrowUsageRatio - p.optimalUsageRatio, RAY - p.optimalUsageRatio);
      stableBorrowRate := stableBorrowRate + p.stableRateSlope1 + RayMul(p.stableRateSlope2, excess);
      variableBorrowRate := variableBorrowRate + p.variableRateSlope1 + RayMul(p.variableRateSlope2, excess);
    } else {
      stableBorrowRate := stableBorrowRate + RayDiv(RayMul(p.stableRateSlope1, borrowUsageRatio), p.optimalUsageRatio);
      variableBorrowRate := variableBorrowRate
        + RayDiv(RayMul(p.variableRateSlope1, borrowUsageRatio), p.optimalUsageRatio);
    }
    if stableToTotalDebtRatio > p.optimalStableToTotalDebtRatio {
      var excess := RayDiv(stableToTotalDebtRatio - p.optimalStableToTotalDebtRatio,
        RAY - p.optimalStableToTotalDebtRatio);
      stableBorrowRate := stableBorrowRate + RayMul(p.stableRateExcessOffset, excess);
    }
    var overallRate := OverallBorrowRate(totalStableDebt, totalVariableDebt, variableBorrowRate, averageStableBorrowRate);
    rates := Rates(LiquidityRate(p, overallRate, supplyUsageRatio), stableBorrowRate, variableBorrowRate);
  }

  // ----- the curve is total, non-negative and ordered -----

  /** With debts and liquidity in range the computation never divides by zero, both ratios lie in
      [0, RAY], and the source's own check that supply usage does not exceed borrow usage never fires. */
  lemma CurveIsTotal(p: Strategy, totalStableDebt: nat, totalVariableDebt: nat, availableLiquidity: nat, totalLiquidity: nat)
    requires ValidStrategy(p) && availableLiquidity <= totalLiquidity
    ensures RatesDefined(p, totalStableDebt, totalVariableDebt, availableLiquidity, totalLiquidity)
    ensures var debt := totalStableDebt + totalVariableDebt;
      0 <= UsageRatio(debt, totalLiquidity) <= UsageRatio(debt, availableLiquidity) <= RAY
  {
    var debt := totalStableDebt + totalVariableDebt;
    UsageRatioBounds(debt, availableLiquidity);
    UsageRatioBounds(debt, totalLiquidity);
    UsageRatioOrder(debt, totalLiquidity, debt, availableLiquidity);
    UsageRatioBounds(totalStableDebt, totalVariableDebt);
    hide RayMul, RayDiv;
  }

  lemma SlopesNonneg(usage: nat, optimal: nat, slope1: nat, slope2: nat)
    requires usage <= RAY && 0 < optimal <= RAY
    ensures 0 <= Slopes(usage, optimal, slope1, slope2)
  {
    if usage > optimal {
      DivAtNearest(usage - optimal, RAY - optimal, RAY);
      MulAtNearest(slope2, RayDiv(usage - optimal, RAY - optimal), RAY);
    } else {
      MulAtNearest(slope1, usage, RAY);
      DivAtNearest(RayMul(slope1, usage), optimal, RAY);
    }
  }

  lemma RatesNonneg(p: Strategy, marketStableRate: nat, totalStableDebt: nat, totalVariableDebt: nat,
    averageStableBorrowRate: nat, availableLiquidity: nat, totalLiquidity: nat)
    requires ValidStrategy(p) && availableLiquidity <= totalLiquidity
    requires RatesDefined(p, totalStableDebt, totalVariableDebt, availableLiquidity, totalLiquidity)
    ensures var rates := InterestRates(p, marketStableRate, totalStableDebt, totalVariableDebt,
        averageStableBorrowRate, availableLiquidity, totalLiquidity);
      && 0 <= rates.liquidityRate && 0 <= rates.stableBorrowRate && 0 <= rates.variableBorrowRate
      && (UsageRatio(totalStableDebt + totalVariableDebt, totalLiquidity) == 0 ==> rates.liquidityRate == 0)
  {
    var debt := totalStableDebt + totalVariableDebt;
    CurveIsTotal(p, totalStableDebt, totalVariableDebt, availableLiquidity, totalLiquidity);
    var usage := UsageRatio(debt, availableLiquidity);
    SlopesNonneg(usage, p.optimalUsageRatio, p.variableRateSlope1, p.variableRateSlope2);
    SlopesNonneg(usage, p.optimalUsageRatio, p.stableRateSlope1, p.stableRateSlope2);
    OverallNonneg(totalStableDebt, totalVariableDebt, VariableRate(p, usage), averageStableBorrowRate);
    var overall := OverallBorrowRate(totalStableDebt, totalVariableDebt, VariableRate(p, usage), averageStableBorrowRate);
    LiquidityRateBounds(p, overall, UsageRatio(debt, totalLiquidity));
    StablePremiumNonneg(p, totalStableDebt, debt);
    hide RayMul, RayDiv, PercentMul, OverallBorrowRate, Slopes;
  }

  lemma StablePremiumNonneg(p: Strategy, totalStableDebt: nat, totalDebt: nat)
    requires ValidStrategy(p) && totalStableDebt <= totalDebt
    ensures var ratio, optimal := StableToTotalDebtRatio(totalStableDebt, totalDebt), p.optimalStableToTotalDebtRatio;
      ratio > optimal ==> optimal < RAY && 0 <= RayMul(p.stableRateExcessOffset, RayDiv(ratio - optimal, RAY - optimal))
  {
    UsageRatioBounds(totalStableDebt, totalDebt - totalStableDebt);
    var ratio, optimal := StableToTotalDebtRatio(totalStableDebt, totalDebt), p.optimalStableToTotalDebtRatio;
    assert 0 <= ratio <= RAY by { hide RayDiv; }
    if ratio > optimal {
      DivAtNearest(ratio - optimal, RAY - optimal, RAY);
      MulAtNearest(p.stableRateExcessOffset, RayDiv(ratio - optimal, RAY - optimal), RAY);
    }
  }

  lemma OverallNonneg(totalStableDebt: nat, totalVariableDebt: nat, variableRate: nat, averageStableRate: nat)
    ensures 0 <= OverallBorrowRate(totalStableDebt, totalVariableDebt, variableRate, averageStableRate)
  {
    if totalStableDebt + totalVariableDebt != 0 {
      var wv, ws := WadToRay(totalVariableDebt), WadToRay(totalStableDebt);
      MulAtNearest(wv, variableRate, RAY);
      MulAtNearest(ws, averageStableRate, RAY);
      DivAtNearest(RayMul(wv, variableRate) + RayMul(ws, averageStableRate), WadToRay(totalStableDebt + totalVariableDebt), RAY);
    }
  }

  /** Suppliers get at most their usage share of the overall rate, nothing at zero usage,
      and nothing when the reserve keeps everything. */
  lemma LiquidityRateBounds(p: Strategy, overall: nat, supplyUsage: nat)
    requires ValidStrategy(p)
    ensures 0 <= LiquidityRate(p, overall, supplyUsage) <= RayMul(overall, supplyUsage)
    ensures supplyUsage == 0 || p.reserveFactor == PERCENTAGE_FACTOR ==> LiquidityRate(p, overall, supplyUsage) == 0
  {
    MulAtNearest(overall, supplyUsage, RAY);
    PercentShare(RayMul(overall, supplyUsage), PERCENTAGE_FACTOR - p.reserveFactor);
    MulAtZero(overall, RAY);
    hide MulAt, PercentMul;
  }

  lemma PercentShare(a: nat, bps: nat)
    requires bps <= PERCENTAGE_FACTOR
    ensures 0 <= PercentMul(a, bps) <= a
    ensures bps == 0 ==> PercentMul(a, bps) == 0
    ensures bps == PERCENTAGE_FACTOR ==> PercentMul(a, bps) == a
  {
    MulAtNearest(a, bps, PERCENTAGE_FACTOR);
    MulAtUnit(a, PERCENTAGE_FACTOR);
    MulAtMono(bps, PERCENTAGE_FACTOR, a, PERCENTAGE_FACTOR);
    MulAtCommutes(a, bps, PERCENTAGE_FACTOR);
    MulAtNearest(a, 0, PERCENTAGE_FACTOR);
  }
}
