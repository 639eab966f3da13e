/** Over one accrual what suppliers and treasury gain is covered by what borrowers come to owe: the growth of the
    suppliers' claims plus the treasury's mint exceed the growth of debt by rounding only, for as long as stable
    debt grows at its rate. */
module Solvency {
  import opened WadRayMath
  import opened Interest
  import opened Shares
  import opened Rates
  import opened RateLaws
  import opened Reserve
  import opened Actions
  import opened Runs
  import opened Conservation

  /** A record as an action leaves it: debts up to date, rates and ratios those of its own debts. */
  ghost predicate FreshlyPriced(p: Strategy, r: Reserve) {
    && ValidStrategy(p) && p.reserveFactor == r.reserveFactor
    && UpToDate(r, r.lastUpdateTimestamp)
    && Priceable(p, r) && Priced(p, r) == r
  }

  function DebtOf(r: Reserve): int {
    r.totalStableDebt + r.totalVariableDebt
  }

  /** How far the growth of stable debt until `t` stays behind its average rate, in ray-years. */
  ghost function Shortfall(r: Reserve, t: int): int {
    r.totalStableDebt * (r.averageStableBorrowRate * (t - r.lastUpdateTimestamp))
    - RAY * ONE_YEAR * (StableDebtOf(r, t) - r.totalStableDebt)
  }

  /** What rounding can add in `seconds`: twice, in square ray-years. */
  ghost function Slack(r: Reserve, shares: int, seconds: int): int {
    var (debt, total) := (DebtOf(r), r.totalLiquidity + DebtOf(r));
    var overall := OverallBorrowRate(r.totalStableDebt, r.totalVariableDebt, r.variableBorrowRate, r.averageStableBorrowRate);
    seconds * (RAY * (2 * WAD + debt + 2 * total + r.liquidityRate + r.variableBorrowRate) + total * overall)
    + RAY * ONE_YEAR * (2 * r.totalVariableDebt + r.scaledVariableDebt + shares + 5 * RAY)
  }

  // ----- the parts -----

  /** A holding's worth grows with a linear factor by at most that part of what it is worth. */
  lemma WorthGrowsAtMost(k: nat, i: nat, i': nat, w: int, w': int, c: nat, total: int, f: int)
    requires f > 0 && w <= total
    requires Nearest(i', (c + f) * i, f) && Nearest(w, k * i, f) && Nearest(w', k * i', f)
    ensures 2 * (f * (w' - w)) <= c * (2 * total + 1) + k + 2 * f
  {
    var n := k * i;
    IndexTerms(k, i, i', c, f);
    MulMono(2 * (f * i'), 2 * ((c + f) * i) + f, k);
    MulMono(2 * (f * w'), 2 * (k * i') + f, f);
    MulMono(2 * n - f, 2 * (f * w), f);
    WorthAtMost(n, w, total, f, c);
    GrowthLinear(f, f * w, f * w', n, k * i', c, 2 * total + 1, k);
    Distribute(f, w', w);
  }

  lemma WorthAtMost(n: int, w: int, total: int, f: int, c: nat)
    requires f > 0 && w <= total && 2 * n - f < 2 * (f * w)
    ensures c * (2 * n) <= c * (f * (2 * total + 1))
  {
    MulMono(w, total, f);
    assert f * (2 * total + 1) == 2 * (f * total) + f;
    MulMono(2 * n, f * (2 * total + 1), c);
  }

  lemma IndexTerms(k: int, i: int, i': int, c: int, f: int)
    ensures k * (2 * (f * i')) == 2 * (f * (k * i'))
    ensures k * (2 * ((c + f) * i) + f) == 2 * (c * (k * i)) + 2 * (f * (k * i)) + f * k
    ensures k * (2 * ((c + f) * i) - f) == 2 * (c * (k * i)) + 2 * (f * (k * i)) - f * k
  {
    assert (c + f) * i == c * i + f * i;
    assert k * (c * i) == c * (k * i) && k * (f * i) == f * (k * i) && k * (f * i') == f * (k * i');
    assert k * ((c + f) * i) == k * (c * i) + k * (f * i);
  }

  lemma GrowthLinear(f: int, fw: int, fw': int, n: int, m: int, c: int, x: int, k: int)
    requires f > 0
    requires 2 * (f * m) <= 2 * (c * n) + 2 * (f * n) + f * k
    requires f * (2 * fw') <= f * (2 * m + f) && f * (2 * n - f) <= f * (2 * fw)
    requires c * (2 * n) <= c * (f * x)
    ensures 2 * (fw' - fw) <= c * x + k + 2 * f
  {
    ScaleTerms(f, m, n, c, x, k);
    Distribute(f, 2 * fw', 2 * fw);
    CancelStrict(f, 2 * fw' - 2 * fw, c * x + k + 2 * f + 1);
  }

  lemma Distribute(f: int, x: int, y: int)
    ensures f * (x - y) == f * x - f * y
  {
  }

  /** The products of both growth bounds, taken apart. */
  lemma ScaleTerms(f: int, m: int, n: int, c: int, x: int, k: int)
    ensures f * (2 * m + f) == 2 * (f * m) + f * f && f * (2 * m - f) == 2 * (f * m) - f * f
    ensures f * (2 * n + f) == 2 * (f * n) + f * f && f * (2 * n - f) == 2 * (f * n) - f * f
    ensures c * (f * x) == f * (c * x) && c * (2 * n) == 2 * (c * n)
    ensures f * (c * x + k + 2 * f + 1) == f * (c * x) + f * k + 2 * (f * f) + f
    ensures f * (c * x - k - 2 * f - 1) == f * (c * x) - f * k - 2 * (f * f) - f
  {
  }

  /** A debt's worth grows with a factor of at least `c` by at least that part of what it is worth. */
  lemma WorthGrowsAtLeast(k: nat, i: nat, i': nat, w: int, w': int, c: nat, factor: nat, f: int)
    requires f > 0 && c + f <= factor
    requires Nearest(i', factor * i, f) && Nearest(w, k * i, f) && Nearest(w', k * i', f)
    ensures 2 * (f * (w' - w)) >= c * (2 * w - 1) - k - 2 * f
  {
    var n := k * i;
    IndexTerms(k, i, i', c, f);
    MulMono(c + f, factor, i);
    MulMono(2 * ((c + f) * i) - f, 2 * (f * i'), k);
    MulMono(2 * (k * i') - f, 2 * (f * w'), f);
    MulMono(2 * (f * w), 2 * n + f, f);
    WorthAtLeast(n, w, f, c);
    ShrinkLinear(f, f * w, f * w', n, k * i', c, 2 * w - 1, k);
    Distribute(f, w', w);
  }

  lemma WorthAtLeast(n: int, w: int, f: int, c: nat)
    requires 2 * (f * w) <= 2 * n + f
    ensures c * (f * (2 * w - 1)) <= c * (2 * n)
  {
    assert f * (2 * w - 1) == 2 * (f * w) - f;
    MulMono(f * (2 * w - 1), 2 * n, c);
  }

  lemma ShrinkLinear(f: int, fw: int, fw': int, n: int, m: int, c: int, x: int, k: int)
    requires f > 0
    requires 2 * (f * m) >= 2 * (c * n) + 2 * (f * n) - f * k
    requires f * (2 * m - f) <= f * (2 * fw') && f * (2 * fw) <= f * (2 * n + f)
    requires c * (f * x) <= c * (2 * n)
    ensures 2 * (fw' - fw) >= c * x - k - 2 * f
  {
    ScaleTerms(f, m, n, c, x, k);
    Distribute(f, 2 * fw', 2 * fw);
    CancelStrict(f, c * x - k - 2 * f - 1, 2 * fw' - 2 * fw);
  }

  lemma SupplyIndex(r: Reserve, t: int)
    requires Inv(r) && r.lastUpdateTimestamp <= t
    ensures LiquidityIndexAt(r, t) == RayMul(LinearInterest(r.liquidityRate, t, r.lastUpdateTimestamp), r.liquidityIndex)
  {
    hide RayMul, LinearInterest;
    NoRate(r.lastUpdateTimestamp, t);
    UnitFactor(r.liquidityIndex);
  }

  /** Suppliers gain at most their rate on all they can claim. */
  lemma ClaimsGain(r: Reserve, shares: nat, excess: nat, t: int)
    requires Inv(r) && r.lastUpdateTimestamp <= t
    requires RayMul(shares, r.liquidityIndex) <= r.totalLiquidity + DebtOf(r) + excess
    ensures var (gain, earned) :=
        (RayMul(shares, LiquidityIndexAt(r, t)) - RayMul(shares, r.liquidityIndex), r.liquidityRate * (t - r.lastUpdateTimestamp));
      2 * (RAY * ONE_YEAR * gain)
      <= earned * (2 * (r.totalLiquidity + DebtOf(r)) + 1) + (ONE_YEAR * (shares + 2 * RAY) + 2 * (earned * excess))
  {
    hide *;
    var (i, i', total) := (r.liquidityIndex, LiquidityIndexAt(r, t), r.totalLiquidity + DebtOf(r));
    var factor := LinearInterest(r.liquidityRate, t, r.lastUpdateTimestamp);
    SupplyFacts(r, t);
    SupplyIndex(r, t);
    LinearFloor(r.liquidityRate, t, r.lastUpdateTimestamp);
    ProductNearest(factor, i);
    ProductNearest(shares, i);
    ProductNearest(shares, i');
    var (c, earned) := (factor - RAY, r.liquidityRate * (t - r.lastUpdateTimestamp));
    WorthGrowsAtMost(shares, i, i', RayMul(shares, i), RayMul(shares, i'), c, total + excess, RAY);
    YearlyGain(RayMul(shares, i') - RayMul(shares, i), c, total + excess, shares, earned, RAY, ONE_YEAR);
    EarnedOnAll(earned, total, excess);
  }

  lemma SupplyFacts(r: Reserve, t: int)
    requires Inv(r) && r.lastUpdateTimestamp <= t
    ensures 0 <= r.liquidityIndex && 0 <= r.liquidityRate && 0 <= LiquidityIndexAt(r, t)
    ensures 0 <= r.totalLiquidity + DebtOf(r)
  {
    IndexesGrow(r, t);
    hide LiquidityIndexAt, VariableIndexAt;
  }

  lemma ProductNearest(a: nat, b: nat)
    ensures Nearest(RayMul(a, b), a * b, RAY)
  {
    MulAtNearest(a, b, RAY);
    hide MulAt, Nearest;
  }

  lemma EarnedOnAll(earned: int, total: int, excess: int)
    ensures earned * (2 * (total + excess) + 1) == earned * (2 * total + 1) + 2 * (earned * excess)
  {
  }

  lemma YearlyGain(gain: int, c: nat, total: nat, k: int, earned: int, f: int, y: nat)
    requires 2 * (f * gain) <= c * (2 * total + 1) + k + 2 * f && y * c <= earned
    ensures 2 * (f * y * gain) <= earned * (2 * total + 1) + y * (k + 2 * f)
  {
    MulMono(2 * (f * gain), c * (2 * total + 1) + k + 2 * f, y);
    MulMono(y * c, earned, 2 * total + 1);
    assert y * (2 * (f * gain)) == 2 * (f * y * gain);
    assert y * (c * (2 * total + 1) + k + 2 * f) == (2 * total + 1) * (y * c) + y * (k + 2 * f);
  }

  /** Variable debt grows at least at its rate, up to rounding. */
  lemma VariableGain(r: Reserve, t: int)
    requires UpToDate(r, r.lastUpdateTimestamp) && r.lastUpdateTimestamp <= t
    ensures var charged := r.variableBorrowRate * (t - r.lastUpdateTimestamp);
      2 * (RAY * ONE_YEAR * (RayMul(r.scaledVariableDebt, VariableIndexAt(r, t)) - r.totalVariableDebt))
      >= 2 * (r.totalVariableDebt * charged) - 2 * (r.totalVariableDebt * ONE_YEAR) - charged
         - ONE_YEAR * (r.scaledVariableDebt + 2 * RAY)
  {
    var (k, i, i') := (r.scaledVariableDebt, r.variableBorrowIndex, VariableIndexAt(r, t));
    var (rate, last) := (r.variableBorrowRate, r.lastUpdateTimestamp);
    var linear := LinearInterest(rate, t, last);
    LinearFloor(rate, t, last);
    CompoundedAtLeastLinear(rate, t, last);
    IndexesGrow(r, t);
    if r.totalVariableDebt == 0 {
      WorthOfNothing(i');
      hide RayMul, VariableIndexAt, LinearInterest, CompoundedInterest;
      MulMono(0, k + 2 * RAY, ONE_YEAR);
    } else {
      var factor := CompoundedInterest(rate, t, last);
      MulAtNearest(factor, i, RAY);
      MulAtNearest(k, i, RAY);
      MulAtNearest(k, i', RAY);
      hide RayMul, MulAt, LinearInterest, CompoundedInterest;
      WorthGrowsAtLeast(k, i, i', r.totalVariableDebt, RayMul(k, i'), linear - RAY, factor, RAY);
      hide VariableIndexAt;
      YearlyCharge(RayMul(k, i') - r.totalVariableDebt, linear - RAY, r.totalVariableDebt, k, rate * (t - last), RAY, ONE_YEAR);
    }
  }

  lemma YearlyCharge(gain: int, c: nat, debt: nat, k: int, charged: int, f: int, y: nat)
    requires 2 * (f * gain) >= c * (2 * debt - 1) - k - 2 * f && y * c <= charged <= y * c + y
    ensures 2 * (f * y * gain) >= 2 * (debt * charged) - 2 * (debt * y) - charged - y * (k + 2 * f)
  {
    MulMono(c * (2 * debt - 1) - k - 2 * f, 2 * (f * gain), y);
    MulMono(charged - y, y * c, debt);
    assert y * (2 * (f * gain)) == 2 * (f * y * gain);
    assert y * (c * (2 * debt - 1) - k - 2 * f) == 2 * (debt * (y * c)) - y * c - y * (k + 2 * f);
    assert debt * (charged - y) == debt * charged - debt * y;
  }

  // ----- putting the parts together -----

  /** The rate promised to suppliers, over everything they can claim. */
  lemma RateBound(p: Strategy, r: Reserve)
    requires FreshlyPriced(p, r)
    ensures 2 * (PERCENTAGE_FACTOR * (RAY * (r.liquidityRate * (r.totalLiquidity + DebtOf(r)))))
         <= (PERCENTAGE_FACTOR - r.reserveFactor) * Most(r)
            + PERCENTAGE_FACTOR * (RAY * (r.totalLiquidity + DebtOf(r)))
    ensures 0 <= OverallBorrowRate(r.totalStableDebt, r.totalVariableDebt, r.variableBorrowRate, r.averageStableBorrowRate)
  {
    RatesArePriced(p, r);
    OverallOfRecord(r);
    hide *;
    if DebtOf(r) > 0 {
      RateBoundWithDebt(p, r);
    } else {
      NoDebtNoBound(r);
    }
  }

  lemma OverallOfRecord(r: Reserve)
    requires Inv(r)
    ensures 0 <= OverallBorrowRate(r.totalStableDebt, r.totalVariableDebt, r.variableBorrowRate, r.averageStableBorrowRate)
  {
    OverallNonneg(r.totalStableDebt, r.totalVariableDebt, r.variableBorrowRate, r.averageStableBorrowRate);
  }

  lemma RateBoundWithDebt(p: Strategy, r: Reserve)
    requires FreshlyPriced(p, r) && DebtOf(r) > 0
    ensures 2 * (PERCENTAGE_FACTOR * (RAY * (r.liquidityRate * (r.totalLiquidity + DebtOf(r)))))
         <= (PERCENTAGE_FACTOR - r.reserveFactor) * Most(r)
            + PERCENTAGE_FACTOR * (RAY * (r.totalLiquidity + DebtOf(r)))
  {
    hide *;
    RatesArePriced(p, r);
    MostOf(r);
    SuppliersNeverPromisedMore(p, r.marketStableRate, r.totalStableDebt, r.totalVariableDebt, r.averageStableBorrowRate,
      r.availableLiquidity, r.totalLiquidity);
  }

  lemma RatesArePriced(p: Strategy, r: Reserve)
    requires FreshlyPriced(p, r)
    ensures ValidStrategy(p) && p.reserveFactor == r.reserveFactor && Inv(r)
    ensures 0 <= r.totalStableDebt && 0 <= r.totalVariableDebt && 0 <= r.averageStableBorrowRate
    ensures 0 <= r.marketStableRate && 0 <= r.availableLiquidity <= r.totalLiquidity
    ensures RatesDefined(p, r.totalStableDebt, r.totalVariableDebt, r.availableLiquidity, r.totalLiquidity)
    ensures var rates := InterestRates(p, r.marketStableRate, r.totalStableDebt, r.totalVariableDebt,
        r.averageStableBorrowRate, r.availableLiquidity, r.totalLiquidity);
      r.liquidityRate == rates.liquidityRate && r.variableBorrowRate == rates.variableBorrowRate
    ensures DebtOf(r) <= 0 ==> r.liquidityRate == 0
  {
    hide InterestRates, RatesDefined;
  }

  /** Twice what borrowers are charged in a year, and what rounding adds to it. */
  ghost function Most(r: Reserve): int {
    var (debt, total) := (DebtOf(r), r.totalLiquidity + DebtOf(r));
    var overall := OverallBorrowRate(r.totalStableDebt, r.totalVariableDebt, r.variableBorrowRate, r.averageStableBorrowRate);
    var charged := r.totalVariableDebt * r.variableBorrowRate + r.totalStableDebt * r.averageStableBorrowRate;
    RAY * (2 * charged + 2 * WAD + debt) + total * (overall + RAY)
  }

  lemma MostOf(r: Reserve)
    ensures DebtOf(r) == r.totalStableDebt + r.totalVariableDebt
    ensures var overall := OverallBorrowRate(r.totalStableDebt, r.totalVariableDebt, r.variableBorrowRate, r.averageStableBorrowRate);
      var charged := r.totalVariableDebt * r.variableBorrowRate + r.totalStableDebt * r.averageStableBorrowRate;
      Most(r) == RAY * (2 * charged + 2 * WAD + DebtOf(r)) + (r.totalLiquidity + DebtOf(r)) * (overall + RAY)
  {
    hide OverallBorrowRate;
  }

  lemma NoDebtNoBound(r: Reserve)
    requires Inv(r)
    requires 0 <= OverallBorrowRate(r.totalStableDebt, r.totalVariableDebt, r.variableBorrowRate, r.averageStableBorrowRate)
    requires DebtOf(r) <= 0 && r.liquidityRate == 0
    ensures 2 * (PERCENTAGE_FACTOR * (RAY * (r.liquidityRate * (r.totalLiquidity + DebtOf(r)))))
         <= (PERCENTAGE_FACTOR - r.reserveFactor) * Most(r)
            + PERCENTAGE_FACTOR * (RAY * (r.totalLiquidity + DebtOf(r)))
  {
    var overall := OverallBorrowRate(r.totalStableDebt, r.totalVariableDebt, r.variableBorrowRate, r.averageStableBorrowRate);
    hide OverallBorrowRate;
    assert r.totalVariableDebt == 0 && r.totalStableDebt == 0;
    ProductMono(0, r.totalLiquidity, 0, overall + RAY);
    ProductMono(0, PERCENTAGE_FACTOR - r.reserveFactor, 0, Most(r));
  }

  /** Over `dt` seconds, with the year and the scales multiplied out. */
  lemma SupplySide(gain: int, rate: nat, dt: nat, total: nat, u: nat, q: nat, most: int, f: nat, y: nat, pf: nat)
    requires 2 * (f * y * gain) <= (rate * dt) * (2 * total + 1) + u
    requires 2 * (pf * (f * (rate * total))) <= q * most + pf * (f * total)
    ensures pf * f * (2 * (f * y * gain)) <= q * (dt * most) + pf * (dt * (f * total) + f * (rate * dt) + f * u)
  {
    MulMono(2 * (f * y * gain), (rate * dt) * (2 * total + 1) + u, pf * f);
    MulMono(2 * (pf * (f * (rate * total))), q * most + pf * (f * total), dt);
    SupplyTerms(rate, dt, total, u, q, most, f, pf);
  }

  lemma SupplyTerms(rate: int, dt: int, total: int, u: int, q: int, most: int, f: int, pf: int)
    ensures (pf * f) * ((rate * dt) * (2 * total + 1) + u)
         == dt * (2 * (pf * (f * (rate * total)))) + pf * (f * (rate * dt)) + pf * (f * u)
    ensures dt * (q * most + pf * (f * total)) == q * (dt * most) + pf * (dt * (f * total))
  {
    assert (rate * dt) * (2 * total + 1) == 2 * (dt * (rate * total)) + rate * dt;
    EarnedTerms(rate * total, rate * dt, u, dt, f, pf);
    TimesSum(dt, q, most, pf, f * total);
  }

  lemma EarnedTerms(x: int, e: int, u: int, dt: int, f: int, pf: int)
    ensures (pf * f) * (2 * (dt * x) + e + u) == dt * (2 * (pf * (f * x))) + pf * (f * e) + pf * (f * u)
  {
    Regroup(pf, f, 2 * (dt * x) + e + u);
    assert f * (2 * (dt * x) + e + u) == 2 * (dt * (f * x)) + f * e + f * u;
    TimesSum(pf, 2 * dt, f * x, 1, f * e + f * u);
    assert 2 * dt * (pf * (f * x)) == dt * (2 * (pf * (f * x)));
  }

  lemma Regroup(a: int, b: int, c: int)
    ensures (a * b) * c == a * (b * c)
  {
  }

  lemma TimesSum(a: int, b: int, x: int, c: int, z: int)
    ensures a * (b * x + c * z) == b * (a * x) + c * (a * z)
  {
    assert a * (b * x + c * z) == a * (b * x) + a * (c * z);
  }

  /** Both debts' charges over `dt` seconds are covered by what accrues, the shortfall of stable debt and rounding. */
  lemma BorrowSide(gainV: int, gainS: int, v: nat, b: nat, vr: nat, sr: nat, dt: nat, sv: nat, short: int, w: int,
    f: nat, y: nat)
    requires 2 * (f * y * gainV) >= 2 * (v * (vr * dt)) - 2 * (v * y) - vr * dt - y * (sv + 2 * f)
    requires short == b * (sr * dt) - f * y * gainS
    ensures dt * (f * (2 * (v * vr + b * sr)) + w)
         <= 2 * (f * (f * y * (gainV + gainS))) + f * (2 * (v * y) + vr * dt + y * (sv + 2 * f)) + 2 * (f * short) + dt * w
  {
    MulMono(2 * (v * (vr * dt)) - 2 * (v * y) - vr * dt - y * (sv + 2 * f), 2 * (f * y * gainV), f);
    BorrowTerms(gainV, gainS, v * (vr * dt), b * (sr * dt), 2 * (v * y) + vr * dt + y * (sv + 2 * f), short, f, f * y);
    assert dt * (f * (2 * (v * vr + b * sr)) + w) == 2 * (f * (v * (vr * dt) + b * (sr * dt))) + dt * w by {
      assert dt * (v * vr + b * sr) == v * (vr * dt) + b * (sr * dt);
      assert dt * (f * (2 * (v * vr + b * sr)) + w) == 2 * (f * (dt * (v * vr + b * sr))) + dt * w;
    }
  }

  lemma BorrowTerms(gainV: int, gainS: int, chargedV: int, chargedS: int, lost: int, short: int, f: int, fy: int)
    requires f * (2 * chargedV - lost) <= f * (2 * (fy * gainV)) && short == chargedS - fy * gainS
    ensures 2 * (f * (chargedV + chargedS)) <= 2 * (f * (fy * (gainV + gainS))) + f * lost + 2 * (f * short)
  {
    assert f * (2 * chargedV - lost) == 2 * (f * chargedV) - f * lost;
    assert f * (2 * (fy * gainV)) == 2 * (f * (fy * gainV));
    assert f * short == f * chargedS - f * (fy * gainS);
    assert f * (chargedV + chargedS) == f * chargedV + f * chargedS;
    assert fy * (gainV + gainS) == fy * gainV + fy * gainS;
    assert f * (fy * gainV + fy * gainS) == f * (fy * gainV) + f * (fy * gainS);
  }

  /** What suppliers keep and what the treasury takes are complementary shares of `owed`. */
  lemma Complementary(gain: int, minted: int, owed: int, q: nat, kept: nat, pf: nat, dtMost: int, lost: nat, other: int,
    short: int, f: nat, y: nat)
    requires pf == q + kept && Nearest(minted, owed * kept, pf)
    requires pf * f * (2 * (f * y * gain)) <= q * dtMost + pf * other
    requires dtMost <= 2 * (f * (f * y * owed)) + lost + 2 * (f * short)
    ensures 2 * (f * f * y * pf * (gain + minted - owed)) <= pf * (lost + other + f * f * y) + 2 * (f * q * short)
  {
    var z := f * f * y;
    MulMono(dtMost, 2 * (f * (f * y * owed)) + lost + 2 * (f * short), q);
    MulMono(q, pf, lost);
    MulMono(2 * (pf * minted), 2 * (owed * kept) + pf, z);
    KeptAndTaken(gain, minted, owed, q, kept, pf, z);
    Gathered(gain, owed, q, pf, lost, other, short, f, y);
  }

  lemma Gathered(gain: int, owed: int, q: int, pf: int, lost: int, other: int, short: int, f: int, y: int)
    ensures var z := f * f * y;
      && pf * f * (2 * (f * y * gain)) == 2 * (z * pf * gain)
      && q * (2 * (f * (f * y * owed)) + lost + 2 * (f * short)) == 2 * (q * (z * owed)) + q * lost + 2 * (f * q * short)
      && pf * (lost + other + z) == pf * lost + pf * other + pf * z
  {
    var z := f * f * y;
    assert f * (f * y * owed) == z * owed;
    assert f * (f * y * gain) == z * gain;
    Regroup(pf, f, 2 * (f * y * gain));
    assert f * (2 * (f * y * gain)) == 2 * (z * gain);
    assert pf * (2 * (z * gain)) == 2 * (z * pf * gain);
    assert q * (2 * (z * owed)) == 2 * (q * (z * owed));
    assert q * (2 * (f * short)) == 2 * (f * q * short);
    assert q * (2 * (z * owed) + lost + 2 * (f * short)) == q * (2 * (z * owed)) + q * lost + q * (2 * (f * short));
  }

  lemma KeptAndTaken(gain: int, minted: int, owed: int, q: int, kept: int, pf: int, z: int)
    requires pf == q + kept
    ensures z * pf * (gain + minted - owed) == z * pf * gain + z * pf * minted - q * (z * owed) - kept * (z * owed)
    ensures z * (2 * (pf * minted)) == 2 * (z * pf * minted)
    ensures z * (2 * (owed * kept) + pf) == 2 * (kept * (z * owed)) + pf * z
  {
    assert z * pf * owed == pf * (z * owed) == q * (z * owed) + kept * (z * owed);
    assert z * pf * (gain + minted - owed) == z * pf * gain + z * pf * minted - z * pf * owed;
    assert z * (pf * minted) == z * pf * minted;
    assert z * (owed * kept) == kept * (z * owed);
  }

  // ----- the law -----

  /** What one accrual credits to suppliers and treasury, beyond what it charges to borrowers. */
  function Uncovered(r: Reserve, shares: int, t: int): int {
    RayMul(shares, LiquidityIndexAt(r, t)) - RayMul(shares, r.liquidityIndex)
    + AmountToMint(r, t) - (DebtAt(r, t) - DebtOf(r))
  }

  /** However long the period: if all `shares`, the treasury's among them, can claim no more than liquidity and
      debt when it begins, and `excess`, then what it credits exceeds what it charges by at most the rounding in
      `Slack`, the suppliers' percentage of what stable debt stays behind its rate, and the supply rate on the excess. */
  lemma AccrualIsCovered(p: Strategy, r: Reserve, shares: nat, excess: nat, t: int)
    requires FreshlyPriced(p, r) && r.lastUpdateTimestamp <= t
    requires RayMul(shares, r.liquidityIndex) <= r.totalLiquidity + DebtOf(r) + excess
    ensures var seconds := t - r.lastUpdateTimestamp;
      2 * (RAY * RAY * ONE_YEAR * PERCENTAGE_FACTOR * Uncovered(r, shares, t))
      <= PERCENTAGE_FACTOR * (Slack(r, shares, seconds) + 2 * (RAY * (r.liquidityRate * seconds * excess)))
         + 2 * (RAY * (PERCENTAGE_FACTOR - r.reserveFactor) * Shortfall(r, t))
  {
    hide *;
    RatesArePriced(p, r);
    RecordFacts(p, r, t);
    var (dt, total, q) := (t - r.lastUpdateTimestamp, r.totalLiquidity + DebtOf(r), PERCENTAGE_FACTOR - r.reserveFactor);
    var gain := RayMul(shares, LiquidityIndexAt(r, t)) - RayMul(shares, r.liquidityIndex);
    var gainV := RayMul(r.scaledVariableDebt, VariableIndexAt(r, t)) - r.totalVariableDebt;
    var gainS := StableDebtOf(r, t) - r.totalStableDebt;
    var (minted, short) := (AmountToMint(r, t), Shortfall(r, t));
    ClaimsGain(r, shares, excess, t);
    RateBound(p, r);
    var onExcess := r.liquidityRate * dt * excess;
    ProductMono(0, r.liquidityRate, 0, dt);
    ProductMono(0, r.liquidityRate * dt, 0, excess);
    ProductMono(0, ONE_YEAR, 0, shares + 2 * RAY);
    SupplySide(gain, r.liquidityRate, dt, total, ONE_YEAR * (shares + 2 * RAY) + 2 * onExcess, q, Most(r), RAY, ONE_YEAR,
      PERCENTAGE_FACTOR);
    ExcessTerm(RAY, ONE_YEAR, shares + 2 * RAY, onExcess);
    VariableGain(r, t);
    var w := Most(r) - RAY * (2 * (r.totalVariableDebt * r.variableBorrowRate + r.totalStableDebt * r.averageStableBorrowRate));
    BorrowSide(gainV, gainS, r.totalVariableDebt, r.totalStableDebt, r.variableBorrowRate, r.averageStableBorrowRate, dt,
      r.scaledVariableDebt, short, w, RAY, ONE_YEAR);
    var lost := RAY * (2 * (r.totalVariableDebt * ONE_YEAR) + r.variableBorrowRate * dt
                       + ONE_YEAR * (r.scaledVariableDebt + 2 * RAY)) + dt * w;
    var other := dt * (RAY * total) + RAY * (r.liquidityRate * dt) + RAY * ONE_YEAR * (shares + 2 * RAY);
    SlackAdds(p, r, shares, dt, w, lost, other);
    Complementary(gain, minted, gainV + gainS, q, r.reserveFactor, PERCENTAGE_FACTOR, dt * Most(r), lost,
      other + 2 * (RAY * onExcess), short, RAY, ONE_YEAR);
    UncoveredIs(r, shares, t, gain, minted, gainV, gainS);
  }

  lemma ExcessTerm(f: int, y: int, k: int, x: int)
    ensures f * (y * k + 2 * x) == f * y * k + 2 * (f * x)
  {
    Regroup(f, y, k);
  }

  lemma UncoveredIs(r: Reserve, shares: int, t: int, gain: int, minted: int, gainV: int, gainS: int)
    requires gain == RayMul(shares, LiquidityIndexAt(r, t)) - RayMul(shares, r.liquidityIndex)
    requires gainV == RayMul(r.scaledVariableDebt, VariableIndexAt(r, t)) - r.totalVariableDebt
    requires gainS == StableDebtOf(r, t) - r.totalStableDebt && minted == AmountToMint(r, t)
    ensures Uncovered(r, shares, t) == gain + minted - (gainV + gainS)
  {
    hide RayMul, LiquidityIndexAt, VariableIndexAt, StableDebtOf, AmountToMint;
  }

  lemma RecordFacts(p: Strategy, r: Reserve, t: int)
    requires FreshlyPriced(p, r) && r.lastUpdateTimestamp <= t
    ensures UpToDate(r, r.lastUpdateTimestamp)
    ensures 0 <= r.scaledVariableDebt && 0 <= r.liquidityRate && 0 <= r.variableBorrowRate && 0 <= r.liquidityIndex
    ensures 0 <= r.reserveFactor <= PERCENTAGE_FACTOR && 0 <= DebtOf(r) && 0 <= r.totalLiquidity
    ensures Nearest(AmountToMint(r, t),
      (RayMul(r.scaledVariableDebt, VariableIndexAt(r, t)) - r.totalVariableDebt + (StableDebtOf(r, t) - r.totalStableDebt))
      * r.reserveFactor, PERCENTAGE_FACTOR)
    ensures Shortfall(r, t) == r.totalStableDebt * (r.averageStableBorrowRate * (t - r.lastUpdateTimestamp))
                             - RAY * ONE_YEAR * (StableDebtOf(r, t) - r.totalStableDebt)
  {
    assert UpToDate(r, r.lastUpdateTimestamp) by { hide Priced, Priceable; }
    hide *;
    RecordFields(r);
    MintedShare(r, t);
    ShortfallOf(r, t);
  }

  lemma RecordFields(r: Reserve)
    requires UpToDate(r, r.lastUpdateTimestamp)
    ensures 0 <= r.scaledVariableDebt && 0 <= r.liquidityRate && 0 <= r.variableBorrowRate && 0 <= r.liquidityIndex
    ensures 0 <= r.reserveFactor <= PERCENTAGE_FACTOR && 0 <= DebtOf(r) && 0 <= r.totalLiquidity
  {
    hide RayMul, StableDebtOf;
  }

  lemma ShortfallOf(r: Reserve, t: int)
    ensures Shortfall(r, t) == r.totalStableDebt * (r.averageStableBorrowRate * (t - r.lastUpdateTimestamp))
                             - RAY * ONE_YEAR * (StableDebtOf(r, t) - r.totalStableDebt)
  {
    hide StableDebtOf;
  }

  lemma MintedShare(r: Reserve, t: int)
    requires UpToDate(r, r.lastUpdateTimestamp) && r.lastUpdateTimestamp <= t
    ensures Nearest(AmountToMint(r, t),
      (RayMul(r.scaledVariableDebt, VariableIndexAt(r, t)) - r.totalVariableDebt + (StableDebtOf(r, t) - r.totalStableDebt))
      * r.reserveFactor, PERCENTAGE_FACTOR)
  {
    AccruedIsDebtGrowth(r, t);
    TreasuryGetsItsShare(r, t);
    hide RayMul, LiquidityIndexAt, VariableIndexAt, StableDebtOf, AmountToMint, TreasuryAt, DebtAccrued, Inv, Nearest;
  }

  /** The rounding of all parts adds up to the slack. */
  lemma SlackAdds(p: Strategy, r: Reserve, shares: nat, dt: nat, w: int, lost: int, other: int)
    requires FreshlyPriced(p, r)
    requires w == Most(r)
      - RAY * (2 * (r.totalVariableDebt * r.variableBorrowRate + r.totalStableDebt * r.averageStableBorrowRate))
    requires lost == RAY * (2 * (r.totalVariableDebt * ONE_YEAR) + r.variableBorrowRate * dt
                            + ONE_YEAR * (r.scaledVariableDebt + 2 * RAY)) + dt * w
    requires other == dt * (RAY * (r.totalLiquidity + DebtOf(r))) + RAY * (r.liquidityRate * dt)
                      + RAY * ONE_YEAR * (shares + 2 * RAY)
    ensures Most(r) == RAY * (2 * (r.totalVariableDebt * r.variableBorrowRate + r.totalStableDebt * r.averageStableBorrowRate)) + w
    ensures 0 <= lost && lost + other + RAY * RAY * ONE_YEAR == Slack(r, shares, dt)
  {
    hide *;
    RatesArePriced(p, r);
    RateBound(p, r);
    RecordFacts(p, r, r.lastUpdateTimestamp);
    MostOf(r);
    SlackOf(r, shares, dt);
    var (debt, total) := (DebtOf(r), r.totalLiquidity + DebtOf(r));
    var overall := OverallBorrowRate(r.totalStableDebt, r.totalVariableDebt, r.variableBorrowRate, r.averageStableBorrowRate);
    var charged := r.totalVariableDebt * r.variableBorrowRate + r.totalStableDebt * r.averageStableBorrowRate;
    SlackTerms(r.totalVariableDebt, r.variableBorrowRate, r.liquidityRate, r.scaledVariableDebt, shares, dt, debt, total,
      overall, charged, w, RAY, ONE_YEAR);
  }

  lemma SlackOf(r: Reserve, shares: int, dt: int)
    ensures var (debt, total) := (DebtOf(r), r.totalLiquidity + DebtOf(r));
      var overall := OverallBorrowRate(r.totalStableDebt, r.totalVariableDebt, r.variableBorrowRate, r.averageStableBorrowRate);
      Slack(r, shares, dt) == dt * (RAY * (2 * WAD + debt + 2 * total + r.liquidityRate + r.variableBorrowRate) + total * overall)
        + RAY * ONE_YEAR * (2 * r.totalVariableDebt + r.scaledVariableDebt + shares + 5 * RAY)
  {
    hide OverallBorrowRate, DebtOf;
  }

  lemma SlackTerms(v: nat, vr: nat, rate: nat, sv: nat, k: nat, dt: nat, debt: nat, total: nat, overall: nat, charged: int,
    w: int, f: nat, y: nat)
    requires w == f * (2 * charged + 2 * WAD + debt) + total * (overall + f) - f * (2 * charged)
    ensures var lost := f * (2 * (v * y) + vr * dt + y * (sv + 2 * f)) + dt * w;
      && 0 <= lost
      && lost + (dt * (f * total) + f * (rate * dt) + f * y * (k + 2 * f)) + f * f * y
         == dt * (f * (2 * WAD + debt + 2 * total + rate + vr) + total * overall) + f * y * (2 * v + sv + k + 5 * f)
  {
    assert f * (2 * charged + 2 * WAD + debt) == f * (2 * charged) + f * (2 * WAD + debt);
    assert total * (overall + f) == total * overall + f * total;
    var g := 2 * WAD + debt;
    assert w == f * g + total * overall + f * total;
    ProductMono(0, f, 0, g);
    ProductMono(0, f, 0, total);
    ProductMono(0, total, 0, overall);
    ProductMono(0, dt, 0, w);
    ProductMono(0, v, 0, y);
    ProductMono(0, vr, 0, dt);
    ProductMono(0, y, 0, sv + 2 * f);
    ProductMono(0, f, 0, 2 * (v * y) + vr * dt + y * (sv + 2 * f));
    SecondTerms(dt, f * g, total * overall, f * total, f * rate, f * vr);
    SecondFactors(f, g, total, rate, vr, dt);
    YearTerms(v, vr * dt, sv, k, f, y);
  }

  lemma SecondTerms(dt: int, a: int, b: int, c: int, d: int, e: int)
    ensures dt * (a + b + c) == dt * a + dt * b + dt * c
    ensures dt * (a + 2 * c + d + e + b) == dt * a + 2 * (dt * c) + dt * d + dt * e + dt * b
  {
  }

  lemma SecondFactors(f: int, g: int, total: int, rate: int, vr: int, dt: int)
    ensures f * (g + 2 * total + rate + vr) == f * g + 2 * (f * total) + f * rate + f * vr
    ensures dt * (f * rate) == f * (rate * dt) && dt * (f * vr) == f * (vr * dt)
  {
  }

  lemma YearTerms(v: int, h: int, sv: int, k: int, f: int, y: int)
    ensures f * (2 * (v * y) + h + y * (sv + 2 * f)) + f * y * (k + 2 * f) + f * f * y
         == f * h + f * y * (2 * v + sv + k + 5 * f)
  {
    var z := f * y;
    assert f * (2 * (v * y) + h + y * (sv + 2 * f)) == 2 * (f * (v * y)) + f * h + f * (y * (sv + 2 * f));
    assert f * (v * y) == z * v && f * (y * (sv + 2 * f)) == z * (sv + 2 * f) && f * f * y == z * f;
    assert z * (2 * v + sv + k + 5 * f) == 2 * (z * v) + z * (sv + 2 * f) + z * (k + 2 * f) + z * f;
  }

  // ----- stable debt that keeps pace -----

  /** Stable debt that was updated with the record stays behind its rate by rounding only. */
  lemma FreshStableDebtKeepsPace(r: Reserve, t: int)
    requires UpToDate(r, r.lastUpdateTimestamp) && r.lastUpdateTimestamp <= t
    requires r.totalStableDebtLastUpdated == r.lastUpdateTimestamp
    ensures 2 * Shortfall(r, t) <= ONE_YEAR * (2 * r.totalStableDebt + RAY)
  {
    var (rate, last, p) := (r.averageStableBorrowRate, r.lastUpdateTimestamp, r.principalStableDebt);
    NoPeriod(rate, last);
    UnitFactor(p);
    var (linear, factor) := (LinearInterest(rate, t, last), CompoundedInterest(rate, t, last));
    LinearFloor(rate, t, last);
    CompoundedAtLeastLinear(rate, t, last);
    MulAtNearest(factor, p, RAY);
    assert r.totalStableDebt == p && StableDebtOf(r, t) == RayMul(factor, p) by { hide RayMul, CompoundedInterest; }
    hide RayMul, MulAt, LinearInterest, CompoundedInterest, StableDebtOf;
    PaceTerms(RayMul(factor, p), p, linear - RAY, factor, rate * (t - last), RAY, ONE_YEAR);
  }

  lemma PaceTerms(debt': int, debt: nat, c: nat, factor: nat, charged: int, f: nat, y: nat)
    requires c + f <= factor && Nearest(debt', factor * debt, f) && charged <= y * c + y
    ensures 2 * (debt * charged - f * y * (debt' - debt)) <= y * (2 * debt + f)
  {
    MulMono(c + f, factor, debt);
    MulMono(2 * (debt * (c + f)) - f, 2 * (f * debt'), y);
    MulMono(charged, y * c + y, debt);
    PaceProducts(debt', debt, c, f, y);
  }

  lemma PaceProducts(debt': int, debt: int, c: int, f: int, y: int)
    ensures y * (2 * (f * debt')) == 2 * (f * y * debt')
    ensures y * (2 * (debt * (c + f)) - f) == 2 * (debt * (y * c)) + 2 * (f * y * debt) - y * f
    ensures f * y * (debt' - debt) == f * y * debt' - f * y * debt
    ensures debt * (y * c + y) == debt * (y * c) + y * debt
    ensures y * (2 * debt + f) == 2 * (y * debt) + y * f
  {
    assert debt * (c + f) == debt * c + f * debt;
    assert y * (debt * c) == debt * (y * c) && y * (f * debt) == f * y * debt;
    assert y * (2 * (debt * c + f * debt) - f) == 2 * (y * (debt * c)) + 2 * (y * (f * debt)) - y * f;
  }

  /** So with such stable debt, or none, an accrual credits no more than it charges, up to rounding. */
  lemma AccrualIsCoveredByFreshDebt(p: Strategy, r: Reserve, shares: nat, t: int)
    requires FreshlyPriced(p, r) && r.lastUpdateTimestamp <= t
    requires r.totalStableDebtLastUpdated == r.lastUpdateTimestamp || r.principalStableDebt == 0
    requires RayMul(shares, r.liquidityIndex) <= r.totalLiquidity + DebtOf(r)
    ensures 2 * (RAY * RAY * ONE_YEAR * Uncovered(r, shares, t))
         <= Slack(r, shares, t - r.lastUpdateTimestamp) + RAY * ONE_YEAR * (2 * r.totalStableDebt + RAY)
  {
    hide *;
    AccrualIsCovered(p, r, shares, 0, t);
    RecordFacts(p, r, t);
    RatesArePriced(p, r);
    if r.totalStableDebtLastUpdated == r.lastUpdateTimestamp {
      FreshStableDebtKeepsPace(r, t);
    } else {
      NoStableDebtNoShortfall(r, t);
    }
    ProductMono(0, RAY, 0, RAY);
    ProductMono(0, RAY * RAY, 0, ONE_YEAR);
    ProductMono(0, ONE_YEAR, 0, 2 * r.totalStableDebt + RAY);
    Regroup(RAY, ONE_YEAR, 2 * r.totalStableDebt + RAY);
    WholeShare(RAY * RAY * ONE_YEAR, Uncovered(r, shares, t), Slack(r, shares, t - r.lastUpdateTimestamp),
      RAY * ONE_YEAR * (2 * r.totalStableDebt + RAY), Shortfall(r, t), ONE_YEAR * (2 * r.totalStableDebt + RAY),
      PERCENTAGE_FACTOR - r.reserveFactor, PERCENTAGE_FACTOR, RAY);
  }

  lemma NoStableDebtNoShortfall(r: Reserve, t: int)
    requires UpToDate(r, r.lastUpdateTimestamp) && r.principalStableDebt == 0 && r.lastUpdateTimestamp <= t
    ensures 2 * Shortfall(r, t) <= ONE_YEAR * (2 * r.totalStableDebt + RAY)
  {
    NothingGrows(r.averageStableBorrowRate, r.totalStableDebtLastUpdated, t);
    NothingGrows(r.averageStableBorrowRate, r.totalStableDebtLastUpdated, r.lastUpdateTimestamp);
    assert r.totalStableDebt == 0 && StableDebtOf(r, t) == 0 by { hide TotalStableDebtAt; }
    hide StableDebtOf;
  }

  lemma NothingGrows(rate: int, last: int, t: int)
    ensures TotalStableDebtAt(0, rate, last, t) == 0
  {
    MulAtZero(CompoundedInterest(rate, t, last), RAY);
    hide MulAt, CompoundedInterest;
  }

  lemma WholeShare(z: nat, uncovered: int, slack: int, extra: int, short: int, most: nat, q: nat, pf: nat, f: nat)
    requires q <= pf && 0 < pf && 2 * short <= most && extra == f * most
    requires 2 * (z * pf * uncovered) <= pf * slack + 2 * (f * q * short)
    ensures 2 * (z * uncovered) <= slack + extra
  {
    MulMono(2 * short, most, f * q);
    MulMono(q, pf, extra);
    assert (f * q) * (2 * short) == 2 * (f * q * short);
    assert (f * q) * most == extra * q;
    assert z * pf * uncovered == pf * (z * uncovered);
    assert pf * (slack + extra) == pf * slack + extra * pf;
    CancelStrict(pf, 2 * (z * uncovered), slack + extra + 1) by {
      assert pf * (slack + extra + 1) == pf * (slack + extra) + pf;
      assert pf * (2 * (z * uncovered)) == 2 * (pf * (z * uncovered));
    }
  }

  /** A deposit leaves such a record. */
  lemma DepositPricesFreshly(p: Strategy, r: Reserve, amount: nat, t: int)
    requires Ready(p, r, t) && p.reserveFactor == r.reserveFactor
    ensures FreshlyPriced(p, AfterDeposit(p, r, amount, t))
  {
    AccrueSound(r, t);
    var s := WithLiquidity(Accrue(r, t), amount, 0);
    PricedInv(p, s);
    DepositUpToDate(p, r, amount, t);
    hide RayMul, RayDiv, LiquidityIndexAt, VariableIndexAt, StableDebtOf, TreasuryAt, RatesDefined, InterestRates, UsageRatio, Inv,
      UpToDate;
    PricedForgetsRates(p, s, Priced(p, s));
  }
}
