/** Laws of the rate computation: order along the kinked curve, the overall rate as a weighted
    average, and the supply side never being promised more than the borrow side is charged. */
module RateLaws {
  import opened WadRayMath
  import opened Rates

  // ----- the kinked curve -----

  lemma BelowKink(usage: nat, optimal: nat, slope1: nat, slope2: nat)
    requires usage <= optimal && 0 < optimal
    ensures 2 * (optimal * (Slopes(usage, optimal, slope1, slope2) - slope1)) <= RAY + optimal
  {
    var m := RayMul(slope1, usage);
    MulAtNearest(slope1, usage, RAY);
    DivAtNearest(m, optimal, RAY);
    var s := Slopes(usage, optimal, slope1, slope2);
    hide *;
    SlopeBelow(s, m, slope1, usage, optimal);
  }

  lemma SlopeBelow(s: int, m: int, slope1: nat, usage: nat, optimal: nat)
    requires usage <= optimal && Nearest(m, slope1 * usage, RAY) && Nearest(s, m * RAY, optimal)
    ensures 2 * (optimal * (s - slope1)) <= RAY + optimal
  {
    MulMono(usage, optimal, slope1);
    assert m * RAY == RAY * m;
    assert optimal * (s - slope1) == optimal * s - slope1 * optimal;
  }

  lemma AboveKink(usage: nat, optimal: nat, slope1: nat, slope2: nat)
    requires optimal < usage <= RAY
    ensures slope1 <= Slopes(usage, optimal, slope1, slope2) <= slope1 + slope2
  {
    var excess := RayDiv(usage - optimal, RAY - optimal);
    DivAtNearest(usage - optimal, RAY - optimal, RAY);
    DivAtMono(usage - optimal, RAY - optimal, RAY - optimal, RAY);
    DivAtUnit(RAY - optimal, RAY);
    RayMulMono(slope2, slope2, excess, RAY);
    MulAtUnit(slope2, RAY);
    MulAtNearest(slope2, excess, RAY);
  }

  lemma SameSideMono(usage: nat, usage': nat, optimal: nat, slope1: nat, slope2: nat)
    requires usage <= usage' <= RAY && 0 < optimal <= RAY && (usage <= optimal <==> usage' <= optimal)
    ensures Slopes(usage, optimal, slope1, slope2) <= Slopes(usage', optimal, slope1, slope2)
  {
    if usage <= optimal {
      RayMulMono(slope1, slope1, usage, usage');
      DivAtMono(RayMul(slope1, usage), RayMul(slope1, usage'), optimal, RAY);
    } else {
      DivAtNearest(usage - optimal, RAY - optimal, RAY);
      DivAtMono(usage - optimal, usage' - optimal, RAY - optimal, RAY);
      RayMulMono(slope2, slope2, RayDiv(usage - optimal, RAY - optimal), RayDiv(usage' - optimal, RAY - optimal));
    }
  }

  /** Rates rise with usage; only rounding at the kink can take some back, and never more than
      (RAY / optimal + 1) / 2 units. With the optimum above a third that is at most one unit. */
  lemma CurveOrder(usage: nat, usage': nat, optimal: nat, slope1: nat, slope2: nat)
    requires usage <= usage' <= RAY && 0 < optimal <= RAY
    ensures var loss := Slopes(usage, optimal, slope1, slope2) - Slopes(usage', optimal, slope1, slope2);
      && ((usage <= optimal <==> usage' <= optimal) ==> loss <= 0)
      && 2 * (optimal * loss) <= RAY + optimal
      && (3 * optimal > RAY ==> loss <= 1)
  {
    var low, high := Slopes(usage, optimal, slope1, slope2), Slopes(usage', optimal, slope1, slope2);
    if usage <= optimal < usage' {
      BelowKink(usage, optimal, slope1, slope2);
      AboveKink(usage', optimal, slope1, slope2);
      hide Slopes;
      MulMono(low - high, low - slope1, optimal);
    } else {
      SameSideMono(usage, usage', optimal, slope1, slope2);
      hide Slopes;
      MulMono(low - high, 0, optimal);
    }
    LossBound(low - high, optimal);
  }

  /** Rising usage never lowers the rate, anywhere on the curve. */
  ghost predicate MonotoneCurve(optimal: nat, slope1: nat, slope2: nat)
    requires 0 < optimal <= RAY
  {
    forall u: nat, u': nat | u <= u' <= RAY :: Slopes(u, optimal, slope1, slope2) <= Slopes(u', optimal, slope1, slope2)
  }

  /** The curve is monotone if and only if it has no upper part or does not step down at the kink: what rounding
      makes of the first slope at the optimum is at most the first slope and the first unit's share of the second. */
  lemma MonotoneExactly(optimal: nat, slope1: nat, slope2: nat)
    requires 0 < optimal <= RAY
    ensures MonotoneCurve(optimal, slope1, slope2)
        <==> (optimal == RAY
              || RayDiv(RayMul(slope1, optimal), optimal) <= slope1 + RayMul(slope2, RayDiv(1, RAY - optimal)))
  {
    hide RayMul, RayDiv;
    if optimal < RAY && MonotoneCurve(optimal, slope1, slope2) {
      assert Slopes(optimal, optimal, slope1, slope2) <= Slopes(optimal + 1, optimal, slope1, slope2);
    } else if optimal == RAY
           || RayDiv(RayMul(slope1, optimal), optimal) <= slope1 + RayMul(slope2, RayDiv(1, RAY - optimal)) {
      forall u: nat, u': nat | u <= u' <= RAY
        ensures Slopes(u, optimal, slope1, slope2) <= Slopes(u', optimal, slope1, slope2)
      {
        if u <= optimal < u' {
          SameSideMono(u, optimal, optimal, slope1, slope2);
          SameSideMono(optimal + 1, u', optimal, slope1, slope2);
        } else {
          SameSideMono(u, u', optimal, slope1, slope2);
        }
      }
    }
  }

  lemma LossBound(loss: int, optimal: nat)
    requires 2 * (optimal * loss) <= RAY + optimal
    ensures 3 * optimal > RAY ==> loss <= 1
  {
    if 3 * optimal > RAY && loss >= 2 {
      MulMono(2, loss, optimal);
    }
  }

  /** The variable rate of a valid strategy is monotone in usage up to one unit, and bounded. */
  lemma VariableRateOrder(p: Strategy, usage: nat, usage': nat)
    requires ValidStrategy(p) && usage <= usage' <= RAY && 3 * p.optimalUsageRatio > RAY
    ensures p.baseVariableBorrowRate <= VariableRate(p, usage) <= VariableRate(p, usage') + 1
    ensures VariableRate(p, usage) <= p.baseVariableBorrowRate + p.variableRateSlope1
      + (if p.variableRateSlope2 > 1 then p.variableRateSlope2 else 1)
  {
    CurveOrder(usage, usage', p.optimalUsageRatio, p.variableRateSlope1, p.variableRateSlope2);
    SlopesNonneg(usage, p.optimalUsageRatio, p.variableRateSlope1, p.variableRateSlope2);
    if usage <= p.optimalUsageRatio {
      BelowKink(usage, p.optimalUsageRatio, p.variableRateSlope1, p.variableRateSlope2);
      LossBound(VariableRate(p, usage) - p.baseVariableBorrowRate - p.variableRateSlope1, p.optimalUsageRatio) by {
        hide Slopes;
      }
    } else {
      AboveKink(usage, p.optimalUsageRatio, p.variableRateSlope1, p.variableRateSlope2);
    }
    hide Slopes;
  }

  /** The stable rate stays between the market rate and the market rate plus both slopes and the excess offset;
      the offset is charged only beyond the optimal share of stable debt. */
  lemma StableRateOrder(p: Strategy, marketStableRate: nat, usage: nat, stableRatio: nat)
    requires ValidStrategy(p) && usage <= RAY && stableRatio <= RAY
    ensures var rate := StableRate(p, marketStableRate, usage, stableRatio);
      var slopes := Slopes(usage, p.optimalUsageRatio, p.stableRateSlope1, p.stableRateSlope2);
      var steepest := p.stableRateSlope1 + if p.stableRateSlope2 > 1 then p.stableRateSlope2 else 1;
      && 0 <= slopes && (3 * p.optimalUsageRatio > RAY ==> slopes <= steepest)
      && marketStableRate + slopes <= rate <= marketStableRate + slopes + p.stableRateExcessOffset
      && (stableRatio <= p.optimalStableToTotalDebtRatio ==> rate == marketStableRate + slopes)
      && (stableRatio == RAY > p.optimalStableToTotalDebtRatio ==>
            rate == marketStableRate + slopes + p.stableRateExcessOffset)
  {
    SlopesNonneg(usage, p.optimalUsageRatio, p.stableRateSlope1, p.stableRateSlope2);
    if usage <= p.optimalUsageRatio {
      BelowKink(usage, p.optimalUsageRatio, p.stableRateSlope1, p.stableRateSlope2);
      LossBound(Slopes(usage, p.optimalUsageRatio, p.stableRateSlope1, p.stableRateSlope2) - p.stableRateSlope1,
        p.optimalUsageRatio) by {
        hide Slopes;
      }
    } else {
      AboveKink(usage, p.optimalUsageRatio, p.stableRateSlope1, p.stableRateSlope2);
    }
    var (optimal, offset) := (p.optimalStableToTotalDebtRatio, p.stableRateExcessOffset);
    if stableRatio > optimal {
      AboveKink(stableRatio, optimal, 0, offset);
      DivAtUnit(RAY - optimal, RAY);
      MulAtUnit(offset, RAY);
      assert Slopes(stableRatio, optimal, 0, offset) == RayMul(offset, RayDiv(stableRatio - optimal, RAY - optimal));
    }
    hide Slopes, RayMul, RayDiv;
  }

  /** Rates really can fall across the kink: by one unit for a slope of one and an optimum of a half... */
  lemma KinkCanLoseOne()
    ensures Slopes(RAY / 2, RAY / 2, 1, 0) == Slopes(RAY / 2 + 1, RAY / 2, 1, 0) + 1
  {
    ScaleValues();
    var half := RAY / 2;
    assert 2 * half == RAY;
    MulAtNearest(1, half, RAY);
    NearestUnique(RayMul(1, half), 1, half, RAY);
    DivAtNearest(1, half, RAY);
    NearestUnique(RayDiv(1, half), 2, RAY, half);
    DivAtNearest(1, RAY - half, RAY);
    MulAtZero(RayDiv(1, RAY - half), RAY);
    hide RayMul, RayDiv;
  }

  /** ...and by five once the optimum is a tenth. */
  lemma KinkCanLoseFive()
    ensures Slopes(RAY / 10, RAY / 10, 5, 0) == Slopes(RAY / 10 + 1, RAY / 10, 5, 0) + 5
  {
    ScaleValues();
    var tenth := RAY / 10;
    assert 10 * tenth == RAY;
    MulAtNearest(5, tenth, RAY);
    NearestUnique(RayMul(5, tenth), 1, 5 * tenth, RAY);
    DivAtNearest(1, tenth, RAY);
    NearestUnique(RayDiv(1, tenth), 10, RAY, tenth);
    DivAtNearest(1, RAY - tenth, RAY);
    MulAtZero(RayDiv(1, RAY - tenth), RAY);
    hide RayMul, RayDiv;
  }

  // ----- who pays whom -----

  /** The overall rate is the debt-weighted average of the two rates: over the whole debt it charges
      what the parts charge, up to 10^18 and half a unit per unit of debt. */
  lemma OverallIsWeightedAverage(totalStableDebt: nat, totalVariableDebt: nat, variableRate: nat, averageStableRate: nat)
    requires totalStableDebt + totalVariableDebt > 0
    ensures var debt := totalStableDebt + totalVariableDebt;
      var overall := OverallBorrowRate(totalStableDebt, totalVariableDebt, variableRate, averageStableRate);
      var charged := totalVariableDebt * variableRate + totalStableDebt * averageStableRate;
      0 <= overall && 2 * Abs(overall * debt - charged) <= 2 * WAD + debt
  {
    hide *;
    var mv, ms := OverallNearest(totalStableDebt, totalVariableDebt, variableRate, averageStableRate);
    WeightedArithmetic(totalStableDebt, totalVariableDebt, variableRate, averageStableRate, mv, ms,
      OverallBorrowRate(totalStableDebt, totalVariableDebt, variableRate, averageStableRate));
  }

  lemma OverallNearest(ts: nat, tv: nat, vr: nat, sr: nat) returns (mv: int, ms: int)
    requires ts + tv > 0
    ensures Nearest(mv, (tv * WAD_RAY_RATIO) * vr, RAY) && Nearest(ms, (ts * WAD_RAY_RATIO) * sr, RAY)
    ensures 0 <= OverallBorrowRate(ts, tv, vr, sr)
    ensures Nearest(OverallBorrowRate(ts, tv, vr, sr), (mv + ms) * RAY, (ts + tv) * WAD_RAY_RATIO)
  {
    var wv, ws := WadToRay(tv), WadToRay(ts);
    mv, ms := RayMul(wv, vr), RayMul(ws, sr);
    MulAtNearest(wv, vr, RAY);
    MulAtNearest(ws, sr, RAY);
    DivAtNearest(mv + ms, WadToRay(ts + tv), RAY);
    hide MulAt, DivAt, Nearest;
  }

  lemma WeightedArithmetic(ts: nat, tv: nat, vr: nat, sr: nat, mv: int, ms: int, overall: int)
    requires Nearest(mv, (tv * WAD_RAY_RATIO) * vr, RAY) && Nearest(ms, (ts * WAD_RAY_RATIO) * sr, RAY)
    requires Nearest(overall, (mv + ms) * RAY, (ts + tv) * WAD_RAY_RATIO)
    ensures 2 * Abs(overall * (ts + tv) - (tv * vr + ts * sr)) <= 2 * WAD + (ts + tv)
  {
    WeightedTerms(ts, tv, vr, sr, overall);
    ScaleRelation();
    WeightedLinear(tv * vr, ts * sr, mv, ms, overall * (ts + tv), ts + tv, WAD_RAY_RATIO, WAD, RAY);
  }

  lemma WeightedTerms(ts: int, tv: int, vr: int, sr: int, overall: int)
    ensures (tv * WAD_RAY_RATIO) * vr == WAD_RAY_RATIO * (tv * vr)
    ensures (ts * WAD_RAY_RATIO) * sr == WAD_RAY_RATIO * (ts * sr)
    ensures ((ts + tv) * WAD_RAY_RATIO) * overall == WAD_RAY_RATIO * (overall * (ts + tv))
  {
  }

  /** The same with every product of debt and rate named. */
  lemma WeightedLinear(x: int, y: int, mv: int, ms: int, z: int, d: int, k: int, w: int, f: int)
    requires k > 0 && f == w * k
    requires 2 * (k * x) - f < 2 * (f * mv) <= 2 * (k * x) + f
    requires 2 * (k * y) - f < 2 * (f * ms) <= 2 * (k * y) + f
    requires 2 * ((mv + ms) * f) - d * k < 2 * (k * z) <= 2 * ((mv + ms) * f) + d * k
    ensures 2 * Abs(z - (x + y)) <= 2 * w + d
  {
    var e := 2 * (z - (x + y));
    assert (mv + ms) * f == f * mv + f * ms;
    assert k * e == 2 * (k * z) - 2 * (k * x) - 2 * (k * y);
    assert k * (2 * w + d) == 2 * f + d * k;
    assert k * -(2 * w + d) == -(2 * f + d * k);
    CancelStrict(k, e, 2 * w + d + 1) by { assert k * (2 * w + d + 1) == k * (2 * w + d) + k; }
    CancelStrict(k, -(2 * w + d) - 1, e) by { assert k * (-(2 * w + d) - 1) == k * -(2 * w + d) - k; }
  }

  /** Rounding in the usage share and in the product can promise at most half a unit of rate,
      plus half a unit of usage, over the whole of the liquidity. */
  lemma UsageShare(overall: nat, debt: nat, liquidity: nat)
    requires debt > 0
    ensures var share := RayMul(overall, UsageRatio(debt, liquidity));
      var total := liquidity + debt;
      0 <= share && 2 * (RAY * (share * total)) <= 2 * (RAY * (overall * debt)) + total * (overall + RAY)
  {
    var total := liquidity + debt;
    var usage := UsageRatio(debt, liquidity);
    DivAtNearest(debt, total, RAY);
    MulAtNearest(overall, usage, RAY);
    var share := RayMul(overall, usage);
    hide RayMul, RayDiv, UsageRatio;
    UsageShareArithmetic(share, overall, usage, debt, total, RAY);
  }

  lemma UsageShareArithmetic(share: int, overall: nat, usage: int, debt: int, total: nat, f: int)
    requires Nearest(share, overall * usage, f) && Nearest(usage, debt * f, total)
    ensures 2 * (f * (share * total)) <= 2 * (f * (overall * debt)) + total * (overall + f)
  {
    ScaledShare(share, overall * usage, total, f);
    ScaledUsage(overall, usage, debt, total, f);
    assert total * (overall + f) == total * overall + total * f;
    assert total * (overall * usage) == overall * (total * usage);
  }

  lemma ScaledShare(share: int, n: int, total: nat, f: int)
    requires Nearest(share, n, f)
    ensures 2 * (f * (share * total)) <= 2 * (total * n) + total * f
  {
    MulMono(2 * (f * share), 2 * n + f, total);
    assert total * (2 * (f * share)) == 2 * (f * (share * total));
    assert total * (2 * n + f) == 2 * (total * n) + total * f;
  }

  lemma ScaledUsage(overall: nat, usage: int, debt: int, total: int, f: int)
    requires Nearest(usage, debt * f, total)
    ensures 2 * (overall * (total * usage)) <= 2 * (f * (overall * debt)) + total * overall
  {
    MulMono(2 * (total * usage), 2 * (debt * f) + total, overall);
    assert overall * (2 * (total * usage)) == 2 * (overall * (total * usage));
    assert overall * (2 * (debt * f) + total) == 2 * (f * (overall * debt)) + total * overall;
  }

  /** Suppliers are never promised more than their percentage of what borrowers are charged, up to rounding.
      With `total` the liquidity plus the debt and `kept` the reserve factor:
      liquidityRate * total <= (1 - kept) * (variableDebt * variableRate + stableDebt * averageStableRate
                               + 10^18 + debt / 2 + total * (overall / RAY + 1) / 2) + total / 2,
      and never more than the whole of the amount in parentheses. */
  lemma SuppliersNeverPromisedMore(p: Strategy, marketStableRate: nat, totalStableDebt: nat, totalVariableDebt: nat,
    averageStableRate: nat, availableLiquidity: nat, totalLiquidity: nat)
    requires ValidStrategy(p) && availableLiquidity <= totalLiquidity && totalStableDebt + totalVariableDebt > 0
    requires RatesDefined(p, totalStableDebt, totalVariableDebt, availableLiquidity, totalLiquidity)
    ensures var rates := InterestRates(p, marketStableRate, totalStableDebt, totalVariableDebt, averageStableRate,
        availableLiquidity, totalLiquidity);
      var overall := OverallBorrowRate(totalStableDebt, totalVariableDebt, rates.variableBorrowRate, averageStableRate);
      var charged := totalVariableDebt * rates.variableBorrowRate + totalStableDebt * averageStableRate;
      var debt := totalStableDebt + totalVariableDebt;
      var total := totalLiquidity + debt;
      var most := RAY * (2 * charged + 2 * WAD + debt) + total * (overall + RAY);
      && 2 * (RAY * (rates.liquidityRate * total)) <= most
      && 2 * (PERCENTAGE_FACTOR * (RAY * (rates.liquidityRate * total)))
         <= (PERCENTAGE_FACTOR - p.reserveFactor) * most + PERCENTAGE_FACTOR * (RAY * total)
  {
    hide *;
    RateIsShare(p, marketStableRate, totalStableDebt, totalVariableDebt, averageStableRate, availableLiquidity, totalLiquidity);
    var debt := totalStableDebt + totalVariableDebt;
    var total := totalLiquidity + debt;
    var rates := InterestRates(p, marketStableRate, totalStableDebt, totalVariableDebt, averageStableRate,
      availableLiquidity, totalLiquidity);
    var vr := rates.variableBorrowRate;
    var overall := OverallBorrowRate(totalStableDebt, totalVariableDebt, vr, averageStableRate);
    var share := RayMul(overall, UsageRatio(debt, totalLiquidity));
    var charged := totalVariableDebt * vr + totalStableDebt * averageStableRate;
    var most := RAY * (2 * charged + 2 * WAD + debt) + total * (overall + RAY);
    OverallIsWeightedAverage(totalStableDebt, totalVariableDebt, vr, averageStableRate);
    AbsBound(overall * debt - charged);
    UsageShare(overall, debt, totalLiquidity);
    ShareOfCharge(share, total, overall * debt, charged, debt, overall);
    KeptShare(rates.liquidityRate, share, PERCENTAGE_FACTOR - p.reserveFactor, PERCENTAGE_FACTOR, total, most);
  }

  lemma RateIsShare(p: Strategy, marketStableRate: nat, totalStableDebt: nat, totalVariableDebt: nat,
    averageStableRate: nat, availableLiquidity: nat, totalLiquidity: nat)
    requires ValidStrategy(p) && availableLiquidity <= totalLiquidity && totalStableDebt + totalVariableDebt > 0
    requires RatesDefined(p, totalStableDebt, totalVariableDebt, availableLiquidity, totalLiquidity)
    ensures totalLiquidity + (totalStableDebt + totalVariableDebt) != 0
    ensures var rates := InterestRates(p, marketStableRate, totalStableDebt, totalVariableDebt, averageStableRate,
        availableLiquidity, totalLiquidity);
      var overall := OverallBorrowRate(totalStableDebt, totalVariableDebt, rates.variableBorrowRate, averageStableRate);
      var share := RayMul(overall, UsageRatio(totalStableDebt + totalVariableDebt, totalLiquidity));
      && 0 <= rates.variableBorrowRate && 0 <= overall && 0 <= p.reserveFactor <= PERCENTAGE_FACTOR
      && rates.liquidityRate <= share
      && Nearest(rates.liquidityRate, share * (PERCENTAGE_FACTOR - p.reserveFactor), PERCENTAGE_FACTOR)
  {
    var debt := totalStableDebt + totalVariableDebt;
    RatesNonneg(p, marketStableRate, totalStableDebt, totalVariableDebt, averageStableRate, availableLiquidity, totalLiquidity);
    var rates := InterestRates(p, marketStableRate, totalStableDebt, totalVariableDebt, averageStableRate,
      availableLiquidity, totalLiquidity);
    OverallNonneg(totalStableDebt, totalVariableDebt, rates.variableBorrowRate, averageStableRate);
    var overall := OverallBorrowRate(totalStableDebt, totalVariableDebt, rates.variableBorrowRate, averageStableRate);
    UsageRatioBounds(debt, totalLiquidity);
    LiquidityRateBounds(p, overall, UsageRatio(debt, totalLiquidity));
    MulAtNearest(RayMul(overall, UsageRatio(debt, totalLiquidity)), PERCENTAGE_FACTOR - p.reserveFactor, PERCENTAGE_FACTOR);
    hide RayMul, MulAt, OverallBorrowRate, UsageRatio, VariableRate, StableRate, Nearest;
  }

  lemma ShareOfCharge(share: int, total: nat, interest: int, charged: int, debt: int, overall: int)
    requires 2 * (interest - charged) <= 2 * WAD + debt
    requires 2 * (RAY * (share * total)) <= 2 * (RAY * interest) + total * (overall + RAY)
    ensures 2 * (RAY * (share * total)) <= RAY * (2 * charged + 2 * WAD + debt) + total * (overall + RAY)
  {
    MulMono(2 * interest, 2 * charged + 2 * WAD + debt, RAY);
    TwiceProduct(RAY, interest);
  }

  lemma TwiceProduct(a: int, b: int)
    ensures a * (2 * b) == 2 * (a * b)
  {
  }

  lemma AbsBound(x: int)
    ensures x <= Abs(x)
  {
  }

  /** What is kept back of a share, over the whole of the liquidity. */
  lemma KeptShare(rate: int, share: int, q: nat, f: nat, total: nat, most: int)
    requires rate <= share && Nearest(rate, share * q, f) && 2 * (RAY * (share * total)) <= most
    ensures 2 * (RAY * (rate * total)) <= most
    ensures 2 * (f * (RAY * (rate * total))) <= q * most + f * (RAY * total)
  {
    MulMono(rate, share, total);
    MulMono(total * rate, total * share, RAY);
    MulMono(2 * (f * rate), 2 * (share * q) + f, RAY * total);
    MulMono(2 * (RAY * (share * total)), most, q);
    KeptTerms(rate, share, q, f, total, RAY);
  }

  lemma KeptTerms(rate: int, share: int, q: int, f: int, total: int, k: int)
    ensures (k * total) * (2 * (f * rate)) == 2 * (f * (k * (rate * total)))
    ensures (k * total) * (2 * (share * q) + f) == q * (2 * (k * (share * total))) + f * (k * total)
  {
    assert (k * total) * (f * rate) == f * (k * (rate * total));
    assert (k * total) * (share * q) == q * (k * (share * total));
    assert (k * total) * (2 * (share * q) + f) == 2 * ((k * total) * (share * q)) + (k * total) * f;
  }

  // ----- average stable rates -----

  /** What can be taken out of an average without the total or the average going below zero: no more than
      there is, and, unless it is everything, charging at most what the whole is charged and a unit less than
      one per unit left. */
  predicate Removable(averageRate: int, totalDebt: int, amount: int, rate: int) {
    && amount <= totalDebt
    && (amount == totalDebt || rate * amount < averageRate * totalDebt + (totalDebt - amount))
  }

  lemma RemovableExactly(averageRate: int, totalDebt: int, amount: int, rate: int)
    ensures Removable(averageRate, totalDebt, amount, rate)
        <==> amount <= totalDebt && 0 <= AverageStableRate(averageRate, totalDebt, -amount, rate)
  {
    var (n, d) := (averageRate * totalDebt + rate * -amount, totalDebt - amount);
    assert rate * -amount == -(rate * amount);
    if d > 0 {
      TruncNonneg(n, d);
    }
  }

  /** A truncated quotient is non-negative as long as the dividend is above minus the divisor. */
  lemma TruncNonneg(n: int, d: int)
    requires d > 0
    ensures 0 <= TruncDiv(n, d) <==> -d < n
  {
    if n >= 0 {
      TruncDivFloor(n, d);
    } else {
      TruncDivFloor(-n, d);
      var q := TruncDiv(-n, d);
      assert TruncDiv(n, d) == -q;
      if q > 0 {
        MulMono(1, q, d);
      } else {
        assert d * q == 0;
      }
    }
  }

  /** Adding debt moves the average toward the new rate and never past it. */
  lemma AverageStaysBetween(averageRate: nat, totalDebt: nat, amount: nat, rate: nat)
    requires totalDebt + amount > 0
    ensures var average := AverageStableRate(averageRate, totalDebt, amount, rate);
      (if averageRate < rate then averageRate else rate) <= average <= (if averageRate < rate then rate else averageRate)
  {
    var total := totalDebt + amount;
    var n := averageRate * totalDebt + rate * amount;
    var (low, high) := if averageRate < rate then (averageRate, rate) else (rate, averageRate);
    WeightsBetween(low, high, averageRate, totalDebt, rate, amount);
    TruncDivFloor(n, total);
    var q := TruncDiv(n, total);
    hide TruncDiv;
    CancelStrict(total, low, q + 1);
    CancelStrict(total, q, high + 1);
  }

  lemma WeightsBetween(low: nat, high: nat, a: nat, d: nat, b: nat, e: nat)
    requires low <= a <= high && low <= b <= high
    ensures 0 <= (d + e) * low <= a * d + b * e <= (d + e) * high
  {
    MulMono(low, a, d);
    MulMono(a, high, d);
    MulMono(low, b, e);
    MulMono(b, high, e);
    assert (d + e) * low == d * low + e * low;
    assert (d + e) * high == d * high + e * high;
  }

  /** `a / b` rounded up. */
  function CeilDiv(a: int, b: int): int
    requires a >= 0 && b > 0
  {
    (a + b - 1) / b
  }

  /** Adding debt and taking it out again never raises the average, and lowers it by at most one
      unit more than (amount - 1) / totalDebt. */
  lemma AddThenRemove(averageRate: int, totalDebt: int, amount: int, rate: int)
    requires averageRate >= 0 && rate >= 0 && totalDebt > 0 && amount > 0
    ensures var raised := AverageStableRate(averageRate, totalDebt, amount, rate);
      averageRate - 1 - CeilDiv(amount - 1, totalDebt)
      <= AverageStableRate(raised, totalDebt + amount, -amount, rate)
      <= averageRate
  {
    var total := totalDebt + amount;
    var n := averageRate * totalDebt + rate * amount;
    assert averageRate * totalDebt >= 0 && rate * amount >= 0;
    TruncDivFloor(n, total);
    var raised := TruncDiv(n, total);
    var m := raised * total + rate * -amount;
    assert m == raised * total - rate * amount;
    hide TruncDiv;
    TruncRange(m, totalDebt, averageRate, amount - 1);
  }

  lemma TruncRange(m: int, d: int, a: int, slack: int)
    requires d > 0 && a >= 0 && slack >= 0 && a * d - d - slack <= m <= a * d
    ensures a - 1 - CeilDiv(slack, d) <= TruncDiv(m, d) <= a
  {
    var (q, c) := (TruncDiv(m, d), CeilDiv(slack, d));
    CeilCovers(slack, d);
    TruncToward(m, d);
    hide TruncDiv, CeilDiv;
    assert d * (a - 1 - c) == a * d - d - d * c;
    CancelStrict(d, a - 1 - c, q + 1);
    if q > 0 {
      CancelStrict(d, q, a + 1);
    }
  }

  lemma CeilCovers(a: int, d: int)
    requires a >= 0 && d > 0
    ensures a <= d * CeilDiv(a, d)
  {
    FloorSpec(a + d - 1, d);
  }

  /** A truncated quotient is above the next lower integer, and a positive one is a floor. */
  lemma TruncToward(m: int, d: int)
    requires d > 0
    ensures m < d * (TruncDiv(m, d) + 1)
    ensures TruncDiv(m, d) > 0 ==> d * TruncDiv(m, d) <= m
  {
    if m >= 0 {
      TruncDivFloor(m, d);
    } else {
      TruncDivFloor(-m, d);
      assert TruncDiv(m, d) == -TruncDiv(-m, d);
    }
  }

  /** Rebalancing a borrower who holds all the stable debt, once that is at least 10^18,
      sets the average to exactly the current stable rate, whatever it was before. */
  lemma RebalanceSoleBorrower(averageRate: int, debt: int, userRate: int, stableRate: nat)
    requires debt >= WAD
    ensures var removed := AverageStableRateRebalance(averageRate, debt, -debt, userRate);
      AverageStableRateRebalance(removed, debt - debt, debt, stableRate) == stableRate
  {
    var removed := AverageStableRateRebalance(averageRate, debt, -debt, userRate);
    hide DivAt, TruncDiv, MulAt, AverageStableRateRebalance;
    ScaleRelation();
    MulMono(WAD, debt, WAD_RAY_RATIO);
    AddToNothing(removed, debt, stableRate);
  }

  lemma AddToNothing(rate: int, debt: nat, newRate: nat)
    requires WadToRay(debt) >= RAY
    ensures AverageStableRateRebalance(rate, 0, debt, newRate) == newRate
  {
    DivUndoesMul(newRate, WadToRay(debt), RAY);
    MulAtZero(rate, RAY);
    hide DivAt, TruncDiv, MulAt;
  }
}
