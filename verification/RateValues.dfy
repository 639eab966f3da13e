/** What the ratios, rates and averages are worth: each is pinned, to its rounding, by the amounts it is computed from. */
module RateValues {
  import opened WadRayMath
  import opened Rates
  import opened RateLaws

  // ----- usage -----

  /** The ratio is the part of all that is lent out, to the nearest unit of a ray: nothing without debt, and one ray
      when nothing is left. */
  lemma UsageRatioIs(debt: nat, liquidity: nat)
    ensures debt == 0 ==> UsageRatio(debt, liquidity) == 0
    ensures debt > 0 ==> Nearest(UsageRatio(debt, liquidity), debt * RAY, liquidity + debt)
    ensures debt > 0 && liquidity == 0 ==> UsageRatio(debt, liquidity) == RAY
  {
    if debt > 0 {
      DivAtNearest(debt, liquidity + debt, RAY);
      DivAtUnit(debt, RAY);
    }
    hide DivAt, Nearest;
  }

  /** The part of the debt that is stable, to the nearest unit of a ray. */
  lemma StableShareIs(totalStableDebt: nat, totalDebt: nat)
    requires totalStableDebt <= totalDebt
    ensures var ratio := StableToTotalDebtRatio(totalStableDebt, totalDebt);
      && 0 <= ratio <= RAY
      && (totalStableDebt == 0 ==> ratio == 0)
      && (totalStableDebt > 0 ==> Nearest(ratio, totalStableDebt * RAY, totalDebt))
      && (totalStableDebt == totalDebt > 0 ==> ratio == RAY)
  {
    UsageRatioBounds(totalStableDebt, totalDebt - totalStableDebt);
    if totalStableDebt > 0 {
      DivAtNearest(totalStableDebt, totalDebt, RAY);
      DivAtUnit(totalDebt, RAY);
    }
    hide DivAt, Nearest;
  }

  // ----- the curve -----

  /** Between zero usage and the optimum the curve is the line from nothing to the first slope, to a unit and half
      a ray's share of it... */
  lemma LowerSlopeIs(usage: nat, optimal: nat, slope1: nat, slope2: nat)
    requires usage <= optimal && 0 < optimal
    ensures var s := Slopes(usage, optimal, slope1, slope2);
      && 2 * Abs(optimal * s - slope1 * usage) <= RAY + optimal
      && (usage == 0 ==> s == 0)
  {
    var m := RayMul(slope1, usage);
    MulAtNearest(slope1, usage, RAY);
    DivAtNearest(m, optimal, RAY);
    var s := Slopes(usage, optimal, slope1, slope2);
    if usage == 0 {
      MulAtZero(slope1, RAY);
      NearestUnique(s, 0, 0, optimal);
    }
    hide *;
    assert m * RAY == RAY * m;
    WithinBoth(optimal * s, RAY * m, slope1 * usage, optimal, RAY);
  }

  lemma WithinBoth(x: int, m: int, n: int, a: int, b: int)
    requires 2 * m - a < 2 * x <= 2 * m + a && 2 * n - b < 2 * m <= 2 * n + b
    ensures 2 * Abs(x - n) <= a + b
  {
  }

  /** ...and between the optimum and full usage the line from the first slope to both. */
  lemma UpperSlopeIs(usage: nat, optimal: nat, slope1: nat, slope2: nat)
    requires optimal < usage <= RAY
    ensures var (s, rest) := (Slopes(usage, optimal, slope1, slope2), RAY - optimal);
      && 2 * Abs(rest * (RAY * (s - slope1)) - RAY * (slope2 * (usage - optimal))) <= rest * (RAY + slope2)
      && (usage == RAY ==> s == slope1 + slope2)
  {
    ExcessIs(usage, optimal, slope2);
    hide RayMul, RayDiv;
  }

  /** The part of a premium charged for exceeding an optimum. */
  lemma ExcessIs(ratio: nat, optimal: nat, premium: nat)
    requires optimal < ratio <= RAY
    ensures var (rest, charged) := (RAY - optimal, RayMul(premium, RayDiv(ratio - optimal, RAY - optimal)));
      && 0 <= charged <= premium
      && 2 * Abs(rest * (RAY * charged) - RAY * (premium * (ratio - optimal))) <= rest * (RAY + premium)
      && (ratio == RAY ==> charged == premium)
  {
    var (rest, over) := (RAY - optimal, ratio - optimal);
    var e := RayDiv(over, rest);
    DivAtNearest(over, rest, RAY);
    MulAtNearest(premium, e, RAY);
    AboveKink(ratio, optimal, 0, premium);
    assert Slopes(ratio, optimal, 0, premium) == RayMul(premium, e) by { hide RayMul, RayDiv; }
    if ratio == RAY {
      DivAtUnit(rest, RAY);
      MulAtUnit(premium, RAY);
    }
    hide *;
    ExcessTerms(RayMul(premium, e), premium, e, rest, over, RAY);
  }

  lemma ExcessTerms(charged: int, premium: nat, e: int, rest: nat, over: int, f: nat)
    requires Nearest(charged, premium * e, f) && Nearest(e, over * f, rest)
    ensures 2 * Abs(rest * (f * charged) - f * (premium * over)) <= rest * (f + premium)
  {
    TimesNearest(charged, premium * e, f, rest);
    TimesNearest(e, over * f, rest, premium);
    ExcessProducts(premium, e, rest, over, f);
    hide *;
    WithinBothWeak(rest * (f * charged), rest * (premium * e), f * (premium * over), rest * f, premium * rest);
  }

  lemma ExcessProducts(premium: int, e: int, rest: int, over: int, f: int)
    ensures premium * (rest * e) == rest * (premium * e) && premium * (over * f) == f * (premium * over)
    ensures rest * (f + premium) == rest * f + premium * rest
  {
  }

  lemma TimesNearest(q: int, n: int, d: int, k: nat)
    requires Nearest(q, n, d)
    ensures 2 * (k * n) - k * d <= 2 * (k * (d * q)) <= 2 * (k * n) + k * d
  {
    MulMono(2 * n - d, 2 * (d * q), k);
    MulMono(2 * (d * q), 2 * n + d, k);
    assert k * (2 * (d * q)) == 2 * (k * (d * q));
    assert k * (2 * n - d) == 2 * (k * n) - k * d && k * (2 * n + d) == 2 * (k * n) + k * d;
  }

  lemma WithinBothWeak(x: int, m: int, n: int, a: int, b: int)
    requires 2 * m - a <= 2 * x <= 2 * m + a && 2 * n - b <= 2 * m <= 2 * n + b
    ensures 2 * Abs(x - n) <= a + b
  {
  }

  // ----- the three rates -----

  /** The variable rate in the rates quoted: the base and what the curve adds at the usage of available liquidity. It is
      the base without debt and the base plus both slopes when all is lent out. */
  lemma VariableRateQuoted(p: Strategy, marketStableRate: nat, totalStableDebt: nat, totalVariableDebt: nat,
    averageStableRate: nat, availableLiquidity: nat, totalLiquidity: nat)
    requires ValidStrategy(p) && availableLiquidity <= totalLiquidity
    requires RatesDefined(p, totalStableDebt, totalVariableDebt, availableLiquidity, totalLiquidity)
    ensures var debt := totalStableDebt + totalVariableDebt;
      var (optimal, slope1, slope2) := (p.optimalUsageRatio, p.variableRateSlope1, p.variableRateSlope2);
      var added := InterestRates(p, marketStableRate, totalStableDebt, totalVariableDebt, averageStableRate,
        availableLiquidity, totalLiquidity).variableBorrowRate - p.baseVariableBorrowRate;
      OnCurve(added, UsageRatio(debt, availableLiquidity), debt == 0, debt > 0 && availableLiquidity == 0, optimal, slope1, slope2)
  {
    var debt := totalStableDebt + totalVariableDebt;
    UsageRatioIs(debt, availableLiquidity);
    UsageRatioBounds(debt, availableLiquidity);
    hide RayMul, RayDiv, UsageRatio, OverallBorrowRate, LiquidityRate, StableRate;
    CurveIs(UsageRatio(debt, availableLiquidity), debt == 0, debt > 0 && availableLiquidity == 0, p.optimalUsageRatio,
      p.variableRateSlope1, p.variableRateSlope2);
  }

  /** A point of the two-slope curve, to the rounding of either line, with its ends exact. */
  ghost predicate OnCurve(added: int, usage: int, empty: bool, full: bool, optimal: int, slope1: int, slope2: int) {
    && 0 <= usage <= RAY
    && (usage <= optimal ==> 2 * Abs(optimal * added - slope1 * usage) <= RAY + optimal)
    && (usage > optimal ==>
          && slope1 <= added <= slope1 + slope2
          && 2 * Abs((RAY - optimal) * (RAY * (added - slope1)) - RAY * (slope2 * (usage - optimal)))
             <= (RAY - optimal) * (RAY + slope2))
    && (empty ==> added == 0)
    && (full && optimal < RAY ==> added == slope1 + slope2)
  }

  lemma CurveIs(usage: nat, empty: bool, full: bool, optimal: nat, slope1: nat, slope2: nat)
    requires usage <= RAY && 0 < optimal <= RAY && (empty ==> usage == 0) && (full ==> usage == RAY)
    ensures OnCurve(Slopes(usage, optimal, slope1, slope2), usage, empty, full, optimal, slope1, slope2)
  {
    assert KinkDefined(usage, optimal);
    hide *;
    if usage <= optimal {
      LowerSlopeIs(usage, optimal, slope1, slope2);
    } else {
      UpperSlopeIs(usage, optimal, slope1, slope2);
      AboveKink(usage, optimal, slope1, slope2);
    }
    OnCurveIs(Slopes(usage, optimal, slope1, slope2), usage, empty, full, optimal, slope1, slope2);
  }

  lemma OnCurveIs(added: int, usage: nat, empty: bool, full: bool, optimal: nat, slope1: nat, slope2: nat)
    requires usage <= RAY && 0 < optimal <= RAY && (empty ==> usage == 0) && (full ==> usage == RAY)
    requires usage <= optimal ==> 2 * Abs(optimal * added - slope1 * usage) <= RAY + optimal && (usage == 0 ==> added == 0)
    requires usage > optimal ==>
      && slope1 <= added <= slope1 + slope2
      && 2 * Abs((RAY - optimal) * (RAY * (added - slope1)) - RAY * (slope2 * (usage - optimal))) <= (RAY - optimal) * (RAY + slope2)
      && (usage == RAY ==> added == slope1 + slope2)
    ensures OnCurve(added, usage, empty, full, optimal, slope1, slope2)
  {
  }

  /** The stable rate in the rates quoted: the market rate, what the curve adds, and the premium for the stable share of
      the debt beyond its optimum. It is the market rate without debt. */
  lemma StableRateQuoted(p: Strategy, marketStableRate: nat, totalStableDebt: nat, totalVariableDebt: nat,
    averageStableRate: nat, availableLiquidity: nat, totalLiquidity: nat) returns (added: int, premium: int)
    requires ValidStrategy(p) && availableLiquidity <= totalLiquidity
    requires RatesDefined(p, totalStableDebt, totalVariableDebt, availableLiquidity, totalLiquidity)
    ensures var debt := totalStableDebt + totalVariableDebt;
      var share := StableToTotalDebtRatio(totalStableDebt, debt);
      && InterestRates(p, marketStableRate, totalStableDebt, totalVariableDebt, averageStableRate, availableLiquidity,
           totalLiquidity).stableBorrowRate == marketStableRate + added + premium
      && OnCurve(added, UsageRatio(debt, availableLiquidity), debt == 0, debt > 0 && availableLiquidity == 0,
           p.optimalUsageRatio, p.stableRateSlope1, p.stableRateSlope2)
      && Premium(premium, share, p.optimalStableToTotalDebtRatio, p.stableRateExcessOffset)
      && (debt == 0 ==> premium == 0)
  {
    hide *;
    var debt := totalStableDebt + totalVariableDebt;
    var share := StableToTotalDebtRatio(totalStableDebt, debt);
    var usage := UsageRatio(debt, availableLiquidity);
    UsageRatioIs(debt, availableLiquidity);
    UsageRatioBounds(debt, availableLiquidity);
    StableShareIs(totalStableDebt, debt);
    StrategyMeans(p);
    StableRateReturned(p, marketStableRate, totalStableDebt, totalVariableDebt, averageStableRate, availableLiquidity, totalLiquidity);
    CurveIs(usage, debt == 0, debt > 0 && availableLiquidity == 0, p.optimalUsageRatio, p.stableRateSlope1, p.stableRateSlope2);
    premium := PremiumCharged(share, p.optimalStableToTotalDebtRatio, p.stableRateExcessOffset);
    StableRateParts(p, marketStableRate, usage, share, premium, InterestRates(p, marketStableRate, totalStableDebt,
      totalVariableDebt, averageStableRate, availableLiquidity, totalLiquidity).stableBorrowRate);
    added := Slopes(usage, p.optimalUsageRatio, p.stableRateSlope1, p.stableRateSlope2);
  }

  lemma StrategyMeans(p: Strategy)
    requires ValidStrategy(p)
    ensures 0 < p.optimalUsageRatio <= RAY && 0 <= p.optimalStableToTotalDebtRatio <= RAY
    ensures 0 <= p.stableRateSlope1 && 0 <= p.stableRateSlope2 && 0 <= p.stableRateExcessOffset
    ensures forall usage: int | usage <= RAY :: KinkDefined(usage, p.optimalUsageRatio)
  {
  }

  /** What comes back in the place of the stable rate. */
  lemma StableRateReturned(p: Strategy, marketStableRate: nat, totalStableDebt: nat, totalVariableDebt: nat,
    averageStableRate: nat, availableLiquidity: nat, totalLiquidity: nat)
    requires RatesDefined(p, totalStableDebt, totalVariableDebt, availableLiquidity, totalLiquidity)
    ensures var debt := totalStableDebt + totalVariableDebt;
      var (usage, share) := (UsageRatio(debt, availableLiquidity), StableToTotalDebtRatio(totalStableDebt, debt));
      IsStableRate(p, marketStableRate, usage, share, InterestRates(p, marketStableRate, totalStableDebt, totalVariableDebt,
        averageStableRate, availableLiquidity, totalLiquidity).stableBorrowRate)
  {
    hide UsageRatio, StableToTotalDebtRatio, OverallBorrowRate, LiquidityRate, StableRate, VariableRate;
  }

  ghost predicate IsStableRate(p: Strategy, marketStableRate: int, usage: int, share: int, rate: int) {
    && KinkDefined(usage, p.optimalUsageRatio)
    && (share > p.optimalStableToTotalDebtRatio ==> p.optimalStableToTotalDebtRatio != RAY)
    && rate == StableRate(p, marketStableRate, usage, share)
  }

  lemma PremiumCharged(share: nat, optimal: nat, offset: nat) returns (premium: int)
    requires share <= RAY && optimal <= RAY
    ensures premium == if share > optimal then RayMul(offset, RayDiv(share - optimal, RAY - optimal)) else 0
    ensures Premium(premium, share, optimal, offset) && (share == 0 ==> premium == 0)
  {
    premium := if share > optimal then RayMul(offset, RayDiv(share - optimal, RAY - optimal)) else 0;
    if share > optimal {
      ExcessIs(share, optimal, offset);
    }
    hide RayMul, RayDiv;
  }

  lemma StableRateParts(p: Strategy, marketStableRate: nat, usage: int, share: int, premium: int, rate: int)
    requires IsStableRate(p, marketStableRate, usage, share, rate)
    requires share > p.optimalStableToTotalDebtRatio ==> p.optimalStableToTotalDebtRatio != RAY
    requires premium == if share > p.optimalStableToTotalDebtRatio then
        RayMul(p.stableRateExcessOffset,
          RayDiv(share - p.optimalStableToTotalDebtRatio, RAY - p.optimalStableToTotalDebtRatio))
      else 0
    ensures KinkDefined(usage, p.optimalUsageRatio)
    ensures rate == marketStableRate + Slopes(usage, p.optimalUsageRatio, p.stableRateSlope1, p.stableRateSlope2) + premium
  {
    hide RayMul, RayDiv, Slopes;
  }

  /** What is charged for a stable share beyond its optimum. */
  ghost predicate Premium(premium: int, share: int, optimal: int, offset: int) {
    && 0 <= premium <= offset
    && (share <= optimal ==> premium == 0)
    && (share > optimal ==>
          2 * Abs((RAY - optimal) * (RAY * premium) - RAY * (offset * (share - optimal))) <= (RAY - optimal) * (RAY + offset))
    && (share == RAY > optimal ==> premium == offset)
  }

  /** The supply rate in the rates quoted: over all liquidity it pays the percentage of what borrowers are charged that
      the reserve factor leaves, to the stated rounding on either side. */
  lemma SuppliersGetTheirShare(p: Strategy, marketStableRate: nat, totalStableDebt: nat, totalVariableDebt: nat,
    averageStableRate: nat, availableLiquidity: nat, totalLiquidity: nat)
    requires ValidStrategy(p) && availableLiquidity <= totalLiquidity && totalStableDebt + totalVariableDebt > 0
    requires RatesDefined(p, totalStableDebt, totalVariableDebt, availableLiquidity, totalLiquidity)
    ensures var rates := InterestRates(p, marketStableRate, totalStableDebt, totalVariableDebt, averageStableRate,
        availableLiquidity, totalLiquidity);
      var overall := OverallBorrowRate(totalStableDebt, totalVariableDebt, rates.variableBorrowRate, averageStableRate);
      var charged := totalVariableDebt * rates.variableBorrowRate + totalStableDebt * averageStableRate;
      var debt := totalStableDebt + totalVariableDebt;
      var total := totalLiquidity + debt;
      var (paid, kept) := (2 * (PERCENTAGE_FACTOR * (RAY * (rates.liquidityRate * total))), PERCENTAGE_FACTOR - p.reserveFactor);
      && kept * (RAY * (2 * charged - 2 * WAD - debt) - total * (overall + RAY)) - PERCENTAGE_FACTOR * (RAY * total) <= paid
      && paid <= kept * (RAY * (2 * charged + 2 * WAD + debt) + total * (overall + RAY)) + PERCENTAGE_FACTOR * (RAY * total)
  {
    hide *;
    SuppliersNeverPromisedMore(p, marketStableRate, totalStableDebt, totalVariableDebt, averageStableRate, availableLiquidity,
      totalLiquidity);
    RateIsShare(p, marketStableRate, totalStableDebt, totalVariableDebt, averageStableRate, availableLiquidity, totalLiquidity);
    var debt := totalStableDebt + totalVariableDebt;
    var total := totalLiquidity + debt;
    var rates := InterestRates(p, marketStableRate, totalStableDebt, totalVariableDebt, averageStableRate,
      availableLiquidity, totalLiquidity);
    var vr := rates.variableBorrowRate;
    var overall := OverallBorrowRate(totalStableDebt, totalVariableDebt, vr, averageStableRate);
    var (usage, charged) := (UsageRatio(debt, totalLiquidity), totalVariableDebt * vr + totalStableDebt * averageStableRate);
    OverallIsWeightedAverage(totalStableDebt, totalVariableDebt, vr, averageStableRate);
    AbsBound(charged - overall * debt);
    AbsFlip(overall * debt - charged);
    UsageRatioIs(debt, totalLiquidity);
    UsageRatioBounds(debt, totalLiquidity);
    MulAtNearest(overall, usage, RAY);
    RayMulIs(overall, usage);
    LeastShare(RayMul(overall, usage), overall, usage, debt, total, charged);
    LeastKept(rates.liquidityRate, RayMul(overall, usage), PERCENTAGE_FACTOR - p.reserveFactor, PERCENTAGE_FACTOR, total,
      RAY * (2 * charged - 2 * WAD - debt) - total * (overall + RAY));
  }

  lemma AbsFlip(x: int)
    ensures Abs(x) == Abs(-x)
  {
  }

  lemma RayMulIs(a: int, b: int)
    ensures RayMul(a, b) == MulAt(a, b, RAY)
  {
  }

  lemma LeastShare(share: int, overall: nat, usage: nat, debt: nat, total: nat, charged: int)
    requires Nearest(share, overall * usage, RAY) && Nearest(usage, debt * RAY, total)
    requires 2 * (charged - overall * debt) <= 2 * WAD + debt
    ensures RAY * (2 * charged - 2 * WAD - debt) - total * (overall + RAY) <= 2 * (RAY * (share * total))
  {
    TimesNearest(share, overall * usage, RAY, total);
    TimesNearest(usage, debt * RAY, total, overall);
    MulMono(2 * charged - 2 * WAD - debt, 2 * (overall * debt), RAY);
    ShareProducts(share, overall, usage, debt, total, RAY);
  }

  lemma ShareProducts(share: int, overall: int, usage: int, debt: int, total: int, f: int)
    ensures total * (f * share) == f * (share * total)
    ensures total * (overall * usage) == overall * (total * usage)
    ensures f * (2 * (overall * debt)) == 2 * (overall * (debt * f))
    ensures total * (overall + f) == overall * total + total * f
  {
  }

  lemma LeastKept(rate: int, share: int, q: nat, f: nat, total: nat, least: int)
    requires Nearest(rate, share * q, f) && least <= 2 * (RAY * (share * total))
    ensures q * least - f * (RAY * total) <= 2 * (f * (RAY * (rate * total)))
  {
    ProductNonneg(RAY, total);
    TimesNearest(rate, share * q, f, RAY * total);
    MulMono(least, 2 * (RAY * (share * total)), q);
    KeptProducts(rate, share, q, f, total, RAY);
  }

  lemma ProductNonneg(a: nat, b: nat)
    ensures 0 <= a * b
  {
  }

  lemma KeptProducts(rate: int, share: int, q: int, f: int, total: int, k: int)
    ensures (k * total) * (f * rate) == f * (k * (rate * total))
    ensures 2 * ((k * total) * (share * q)) == q * (2 * (k * (share * total)))
    ensures (k * total) * f == f * (k * total)
  {
    assert (k * total) * (share * q) == q * (k * (share * total));
  }

  // ----- averages -----

  /** An average stable rate, times the debt it stands for, is what the parts are charged, short of a truncation. */
  lemma AverageIsWeighted(averageRate: int, totalDebt: int, amountChanged: int, rate: int)
    ensures var (average, after) := (AverageStableRate(averageRate, totalDebt, amountChanged, rate), totalDebt + amountChanged);
      if after == 0 then
        average == 0
      else
        Abs(after * average - (averageRate * totalDebt + rate * amountChanged)) < Abs(after)
  {
    var after := totalDebt + amountChanged;
    if after != 0 {
      TruncError(averageRate * totalDebt + rate * amountChanged, after);
    }
    hide TruncDiv;
  }

  lemma TruncError(n: int, d: int)
    requires d != 0
    ensures Abs(d * TruncDiv(n, d) - n) < Abs(d)
  {
    if d > 0 {
      TruncDivError(n, d);
    } else {
      TruncDivError(n, -d);
      FlippedQuotient(n, d);
    }
  }

  /** The average of rebalancing, times its weight in mixed units, is what the parts are charged, to rounding. */
  lemma RebalanceIsWeighted(averageRate: int, totalDebt: int, amountChanged: int, rate: int)
    ensures var weighted := WadToRay(amountChanged);
      var (average, after) :=
        (AverageStableRateRebalance(averageRate, totalDebt, amountChanged, rate), totalDebt + weighted);
      if after == 0 then
        average == 0
      else
        2 * Abs(after * average - (averageRate * totalDebt + rate * weighted)) < 6 * RAY + 3 * Abs(after)
  {
    hide *;
    var weighted := WadToRay(amountChanged);
    RebalanceOf(averageRate, totalDebt, amountChanged, rate);
    if totalDebt + weighted != 0 {
      var (x, y) := (MulAt(averageRate, totalDebt, RAY), MulAt(rate, weighted, RAY));
      MulAtError(averageRate, totalDebt, RAY);
      MulAtError(rate, weighted, RAY);
      DivAtError(x + y, totalDebt + weighted, RAY);
      SumTimes(x, y, RAY);
      ThreeRoundings((totalDebt + weighted) * DivAt(x + y, totalDebt + weighted, RAY), (x + y) * RAY, RAY * x, RAY * y,
        averageRate * totalDebt, rate * weighted, Abs(totalDebt + weighted));
    }
  }

  lemma RebalanceOf(averageRate: int, totalDebt: int, amountChanged: int, rate: int)
    ensures var weighted := WadToRay(amountChanged);
      AverageStableRateRebalance(averageRate, totalDebt, amountChanged, rate)
      == if totalDebt + weighted == 0 then 0
         else DivAt(MulAt(averageRate, totalDebt, RAY) + MulAt(rate, weighted, RAY), totalDebt + weighted, RAY)
  {
    hide MulAt, DivAt, WadToRay;
  }

  lemma SumTimes(x: int, y: int, f: int)
    ensures (x + y) * f == f * x + f * y
  {
  }

  lemma ThreeRoundings(q: int, n: int, fx: int, fy: int, a: int, b: int, after: nat)
    requires n == fx + fy && -3 * after < 2 * (q - n) < 3 * after
    requires -3 * RAY < 2 * (fx - a) < 3 * RAY && -3 * RAY < 2 * (fy - b) < 3 * RAY
    ensures 2 * Abs(q - (a + b)) < 6 * RAY + 3 * after
  {
  }
}
