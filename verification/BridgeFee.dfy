/** Backing unbacked tokens hands the whole fee to those holding a claim: suppliers through the
    index, the treasury through new shares. */
module BridgeFee {
  import opened WadRayMath
  import opened Rates
  import opened Reserve
  import opened Actions

  /** The fee paid to suppliers as a fraction of all claims, in rays. */
  function FeeRatio(r: Reserve, b: Backing, t: int): int
    requires LiquidityIndexAt(r, t) != 0 && CanBack(r, b, t)
  {
    RayDiv(WadToRay(b.fee - PremiumToProtocol(b)),
      WadToRay(Claims(b.scaledATokenSupply, TreasuryAt(r, t), LiquidityIndexAt(r, t))))
  }

  /** All claims grow by exactly the fee, up to rounding:
      |claims after - (claims before + fee)|
        <= 2 + ratio / RAY + (claims before + scaled supply + scaled treasury + new index) / (2 * RAY). */
  lemma WholeFeeDistributed(p: Strategy, r: Reserve, b: Backing, t: int)
    requires Ready(p, r, t) && LiquidityIndexAt(r, t) != 0 && CanBack(r, b, t)
    ensures var after := AfterBackUnbacked(p, r, b, t);
      var treasury := TreasuryAt(r, t);
      var before := Claims(b.scaledATokenSupply, treasury, LiquidityIndexAt(r, t));
      var gained := Claims(b.scaledATokenSupply, after.accruedToTreasuryScaled, after.liquidityIndex) - before;
      2 * (RAY * Abs(gained - b.fee))
      <= 4 * RAY + 2 * FeeRatio(r, b, t) + before + b.scaledATokenSupply + treasury + after.liquidityIndex
  {
    hide *;
    ReadyMeans(p, r, t);
    BackedUnbackedSound(r, b, t);
    PricedInv(p, BackedUnbacked(r, b, t));
    AfterBacking(p, r, b, t);
    FeeShared(r, b, t);
  }

  lemma AfterBacking(p: Strategy, r: Reserve, b: Backing, t: int)
    requires Ready(p, r, t) && LiquidityIndexAt(r, t) != 0 && CanBack(r, b, t) && IndexAfterBacking(r, b, t) != 0
    ensures var after := AfterBackUnbacked(p, r, b, t);
      && after.liquidityIndex == IndexAfterBacking(r, b, t)
      && after.accruedToTreasuryScaled == TreasuryAt(r, t) + RayDiv(PremiumToProtocol(b), IndexAfterBacking(r, b, t))
  {
    hide RayMul, RayDiv, LiquidityIndexAt, VariableIndexAt, StableDebtOf, TreasuryAt, IndexAfterBacking, PremiumToProtocol,
      InterestRates, UsageRatio, RatesDefined, CanBack;
  }

  lemma FeeShared(r: Reserve, b: Backing, t: int)
    requires Inv(r) && r.lastUpdateTimestamp <= t && LiquidityIndexAt(r, t) != 0 && CanBack(r, b, t)
    requires IndexAfterBacking(r, b, t) != 0
    ensures var (supply, treasury, index) := (b.scaledATokenSupply, TreasuryAt(r, t), LiquidityIndexAt(r, t));
      var index' := IndexAfterBacking(r, b, t);
      var before := Claims(supply, treasury, index);
      var gained := Claims(supply, treasury + RayDiv(PremiumToProtocol(b), index'), index') - before;
      2 * (RAY * Abs(gained - b.fee)) <= 4 * RAY + 2 * FeeRatio(r, b, t) + before + supply + treasury + index'
  {
    hide *;
    BackingGrowsIndex(r, b, t);
    BackingParts(r, b, t);
    ClaimsGrow(b.scaledATokenSupply, TreasuryAt(r, t), LiquidityIndexAt(r, t), b.fee - PremiumToProtocol(b),
      PremiumToProtocol(b));
  }

  lemma BackingParts(r: Reserve, b: Backing, t: int)
    requires Inv(r) && r.lastUpdateTimestamp <= t && LiquidityIndexAt(r, t) != 0 && CanBack(r, b, t)
    ensures 0 <= b.scaledATokenSupply && 0 <= TreasuryAt(r, t) && RAY <= LiquidityIndexAt(r, t)
    ensures var before := Claims(b.scaledATokenSupply, TreasuryAt(r, t), LiquidityIndexAt(r, t));
      var premium := b.fee - PremiumToProtocol(b);
      && 0 < before && WadToRay(before) != 0
      && FeeRatio(r, b, t) == RayDiv(WadToRay(premium), WadToRay(before))
      && IndexAfterBacking(r, b, t) == CumulateToLiquidityIndex(LiquidityIndexAt(r, t), before, premium)
  {
    AccrueSound(r, t);
    hide RayMul, RayDiv, LiquidityIndexAt, TreasuryAt, PremiumToProtocol, Claims, CumulateToLiquidityIndex;
  }

  /** The index arithmetic of backing, on its own. */
  lemma ClaimsGrow(supply: nat, treasury: nat, index: nat, premium: nat, toProtocol: nat)
    requires index >= RAY && Claims(supply, treasury, index) > 0
    ensures var before := Claims(supply, treasury, index);
      var ratio := RayDiv(WadToRay(premium), WadToRay(before));
      var index' := CumulateToLiquidityIndex(index, before, premium);
      && index' > 0
      && var gained := Claims(supply, treasury + RayDiv(toProtocol, index'), index') - before;
      2 * (RAY * Abs(gained - (premium + toProtocol))) <= 4 * RAY + 2 * ratio + before + supply + treasury + index'
  {
    var before := Claims(supply, treasury, index);
    var ratio := RayDiv(WadToRay(premium), WadToRay(before));
    var index' := CumulateToLiquidityIndex(index, before, premium);
    MulAtNearest(supply, index, RAY);
    MulAtNearest(treasury, index, RAY);
    DivAtNearest(WadToRay(premium), WadToRay(before), RAY);
    MulAtNearest(ratio + RAY, index, RAY);
    GrowthAtLeastOne(ratio + RAY, index);
    var shares := RayDiv(toProtocol, index');
    DivAtNearest(toProtocol, index', RAY);
    MulAtNearest(supply, index', RAY);
    MulAtNearest(treasury + shares, index', RAY);
    hide MulAt, DivAt;
    FeeArithmetic(supply, treasury, index, RayMul(supply, index), RayMul(treasury, index), premium, toProtocol,
      ratio, index', shares, RayMul(supply, index'), RayMul(treasury + shares, index'), RAY);
  }

  lemma FeeArithmetic(s: nat, a: nat, i: nat, ws: int, wa: int, premium: nat, toProtocol: nat,
    ratio: nat, i': nat, x: nat, ws': int, wa': int, f: int)
    requires f > 0
    requires Nearest(ws, s * i, f) && Nearest(wa, a * i, f)
    requires Nearest(ratio, premium * WAD_RAY_RATIO * f, (ws + wa) * WAD_RAY_RATIO)
    requires Nearest(i', (ratio + f) * i, f)
    requires Nearest(x, toProtocol * f, i')
    requires Nearest(ws', s * i', f) && Nearest(wa', (a + x) * i', f)
    ensures 2 * (f * Abs(ws' + wa' - (ws + wa) - (premium + toProtocol)))
         <= 4 * f + 2 * ratio + (ws + wa) + s + a + i'
  {
    var (c, n) := (ws + wa, s + a);
    RatioWithoutScale(ratio, premium, c, f);
    ClaimsBefore(s, a, i, ws, wa, f);
    HoldersGain(n, i, i', c, ratio, f);
    ClaimsAfter(s, a, x, i', ws', wa', f);
    hide *;
    var slack := 4 * f + 2 * ratio + c + n + i';
    var e := ws' + wa' - c - (premium + toProtocol);
    Expand(f, ws' + wa', c, premium, toProtocol);
    assert -slack <= 2 * (f * e) <= slack;
    AbsScaled(e, f, slack);
  }

  lemma ClaimsBefore(s: int, a: int, i: int, ws: int, wa: int, f: int)
    requires Nearest(ws, s * i, f) && Nearest(wa, a * i, f)
    ensures 2 * (f * (ws + wa)) - 2 * f <= 2 * ((s + a) * i) <= 2 * (f * (ws + wa)) + 2 * f
  {
    assert (s + a) * i == s * i + a * i;
    assert f * (ws + wa) == f * ws + f * wa;
  }

  lemma Expand(f: int, w: int, c: int, p: int, q: int)
    ensures f * (w - c - (p + q)) == f * w - f * c - f * p - q * f
  {
  }

  lemma AbsScaled(e: int, f: int, slack: int)
    requires -slack <= 2 * (f * e) <= slack
    ensures 2 * (f * Abs(e)) <= slack
  {
    assert f * -e == -(f * e);
  }

  lemma RatioWithoutScale(ratio: int, premium: int, c: int, f: int)
    requires Nearest(ratio, premium * WAD_RAY_RATIO * f, c * WAD_RAY_RATIO)
    ensures 2 * (f * premium) - c <= 2 * (c * ratio) <= 2 * (f * premium) + c
  {
    assert premium * WAD_RAY_RATIO * f == WAD_RAY_RATIO * (f * premium);
    assert (c * WAD_RAY_RATIO) * ratio == WAD_RAY_RATIO * (c * ratio);
  }

  /** `n` shares valued at the new index are worth the old value times one plus the ratio. */
  lemma HoldersGain(n: nat, i: nat, i': int, c: int, ratio: nat, f: int)
    requires f > 0 && Nearest(i', (ratio + f) * i, f)
    requires 2 * (f * c) - 2 * f <= 2 * (n * i) <= 2 * (f * c) + 2 * f
    ensures var mid := 2 * (c * ratio) + 2 * (f * c);
      mid - 2 * (ratio + f) - n <= 2 * (n * i') <= mid + 2 * (ratio + f) + n
  {
    var g := ratio + f;
    var mid := 2 * (c * ratio) + 2 * (f * c);
    assert mid == 2 * (g * c);
    NewValue(n, g, i, i', f);
    OldValue(g, c, n, i, f);
    DistributeBounds(f, mid, 2 * g, n);
    hide *;
    var v := 2 * (n * i');
    CancelStrict(f, mid - 2 * g - n, v + 1) by { DistributeBounds(f, v, 0, -1); }
    CancelStrict(f, v, mid + 2 * g + n + 1) by { DistributeBounds(f, mid + 2 * g + n, 0, 1); }
  }

  lemma NewValue(n: nat, g: int, i: int, i': int, f: int)
    requires Nearest(i', g * i, f)
    ensures 2 * (g * (n * i)) - f * n <= f * (2 * (n * i')) <= 2 * (g * (n * i)) + f * n
  {
    MulMono(2 * (g * i) - f, 2 * (f * i'), n);
    MulMono(2 * (f * i'), 2 * (g * i) + f, n);
    assert n * (2 * (f * i')) == f * (2 * (n * i'));
    assert n * (2 * (g * i) - f) == 2 * (g * (n * i)) - f * n;
    assert n * (2 * (g * i) + f) == 2 * (g * (n * i)) + f * n;
  }

  lemma OldValue(g: nat, c: int, n: int, i: int, f: int)
    requires 2 * (f * c) - 2 * f <= 2 * (n * i) <= 2 * (f * c) + 2 * f
    ensures f * (2 * (g * c)) - f * (2 * g) <= 2 * (g * (n * i)) <= f * (2 * (g * c)) + f * (2 * g)
  {
    MulMono(2 * (f * c) - 2 * f, 2 * (n * i), g);
    MulMono(2 * (n * i), 2 * (f * c) + 2 * f, g);
    assert g * (2 * (n * i)) == 2 * (g * (n * i));
    assert g * (2 * (f * c) - 2 * f) == f * (2 * (g * c)) - f * (2 * g);
    assert g * (2 * (f * c) + 2 * f) == f * (2 * (g * c)) + f * (2 * g);
  }

  lemma DistributeBounds(f: int, m: int, a: int, b: int)
    ensures f * (m - a - b) == f * m - f * a - f * b
    ensures f * (m + a + b) == f * m + f * a + f * b
  {
  }

  lemma ClaimsAfter(s: int, a: int, x: int, i': int, ws': int, wa': int, f: int)
    requires Nearest(ws', s * i', f) && Nearest(wa', (a + x) * i', f)
    ensures 2 * ((s + a) * i') + 2 * (i' * x) - 2 * f <= 2 * (f * (ws' + wa')) <= 2 * ((s + a) * i') + 2 * (i' * x) + 2 * f
  {
    assert (a + x) * i' == a * i' + i' * x;
    assert (s + a) * i' == s * i' + a * i';
    assert f * (ws' + wa') == f * ws' + f * wa';
  }
}
