/** The reserve as a value: accrual, the views a user is shown, and what every action makes of the record. */
module Reserve {
  import opened WadRayMath
  import opened Interest
  import opened Rates

  datatype RateMode = None | Stable | Variable

  datatype Reserve = Reserve(
    reserveFactor: int,
    unbacked: int,
    accruedToTreasuryScaled: int,
    availableLiquidity: int,
    totalLiquidity: int,
    borrowUsageRatio: int,
    supplyUsageRatio: int,
    totalStableDebt: int,
    totalVariableDebt: int,
    principalStableDebt: int,
    scaledVariableDebt: int,
    averageStableBorrowRate: int,
    liquidityRate: int,
    stableBorrowRate: int,
    variableBorrowRate: int,
    liquidityIndex: int,
    variableBorrowIndex: int,
    marketStableRate: int,
    lastUpdateTimestamp: int,
    totalStableDebtLastUpdated: int)

  datatype User = User(
    scaledATokenBalance: int,
    currentATokenBalance: int,
    currentStableDebt: int,
    currentVariableDebt: int,
    principalStableDebt: int,
    scaledVariableDebt: int,
    liquidityRate: int,
    stableBorrowRate: int,
    stableRateLastUpdated: int,
    usageAsCollateralEnabled: bool,
    walletBalance: int)

  // ----- views: what a balance is worth at a moment -----

  function NormalizedIncome(r: Reserve, t: int): int {
    if r.liquidityRate == 0 then
      r.liquidityIndex
    else
      RayMul(LinearInterest(r.liquidityRate, t, r.lastUpdateTimestamp), r.liquidityIndex)
  }

  function NormalizedDebt(variableBorrowRate: int, variableBorrowIndex: int, lastUpdateTimestamp: int, t: int): int {
    if variableBorrowRate == 0 then
      variableBorrowIndex
    else
      RayMul(CompoundedInterest(variableBorrowRate, t, lastUpdateTimestamp), variableBorrowIndex)
  }

  function ATokenBalance(r: Reserve, u: User, t: int): int {
    RayMul(u.scaledATokenBalance, NormalizedIncome(r, t))
  }

  function VariableDebtBalance(r: Reserve, u: User, t: int): int {
    RayMul(u.scaledVariableDebt,
      NormalizedDebt(r.variableBorrowRate, r.variableBorrowIndex, r.lastUpdateTimestamp, t))
  }

  function StableDebtBalance(principal: int, rate: int, lastUpdated: int, t: int): int {
    if rate == 0 || t == lastUpdated || lastUpdated == 0 then
      principal
    else
      RayMul(principal, CompoundedInterest(rate, t, lastUpdated))
  }

  function UserStableDebt(u: User, t: int): int {
    StableDebtBalance(u.principalStableDebt, u.stableBorrowRate, u.stableRateLastUpdated, t)
  }

  // ----- accrual -----

  function LiquidityIndexAt(r: Reserve, t: int): int {
    if r.supplyUsageRatio == 0 then
      r.liquidityIndex
    else
      RayMul(LinearInterest(r.liquidityRate, t, r.lastUpdateTimestamp), r.liquidityIndex)
  }

  function VariableIndexAt(r: Reserve, t: int): int {
    if r.totalVariableDebt == 0 then
      r.variableBorrowIndex
    else
      RayMul(CompoundedInterest(r.variableBorrowRate, t, r.lastUpdateTimestamp), r.variableBorrowIndex)
  }

  function TotalStableDebtAt(principal: int, averageRate: int, lastUpdated: int, t: int): int {
    RayMul(CompoundedInterest(averageRate, t, lastUpdated), principal)
  }

  function StableDebtOf(r: Reserve, t: int): int {
    TotalStableDebtAt(r.principalStableDebt, r.averageStableBorrowRate, r.totalStableDebtLastUpdated, t)
  }

  /** All debt at `t`. */
  function DebtAt(r: Reserve, t: int): int {
    StableDebtOf(r, t) + RayMul(r.scaledVariableDebt, VariableIndexAt(r, t))
  }

  /** Interest that accrued on all debt between the record's last update and `t`. */
  function DebtAccrued(r: Reserve, t: int): int {
    RayMul(r.scaledVariableDebt, VariableIndexAt(r, t))
    + StableDebtOf(r, t)
    - RayMul(r.scaledVariableDebt, r.variableBorrowIndex)
    - RayMul(r.principalStableDebt,
        CompoundedInterest(r.averageStableBorrowRate, r.lastUpdateTimestamp, r.totalStableDebtLastUpdated))
  }

  function AmountToMint(r: Reserve, t: int): int {
    PercentMul(DebtAccrued(r, t), r.reserveFactor)
  }

  function TreasuryAt(r: Reserve, t: int): int
    requires LiquidityIndexAt(r, t) != 0
  {
    if r.reserveFactor == 0 then
      r.accruedToTreasuryScaled
    else if AmountToMint(r, t) > 0 then
      r.accruedToTreasuryScaled + RayDiv(AmountToMint(r, t), LiquidityIndexAt(r, t))
    else
      r.accruedToTreasuryScaled
  }

  /** The record with its indexes, debts and treasury brought up to `t`. */
  function Accrue(r: Reserve, t: int): Reserve
    requires LiquidityIndexAt(r, t) != 0
  {
    r.(liquidityIndex := LiquidityIndexAt(r, t),
       variableBorrowIndex := VariableIndexAt(r, t),
       totalStableDebt := StableDebtOf(r, t),
       totalVariableDebt := RayMul(r.scaledVariableDebt, VariableIndexAt(r, t)),
       accruedToTreasuryScaled := TreasuryAt(r, t),
       lastUpdateTimestamp := t)
  }

  // ----- the parts every action ends with -----

  function WithLiquidity(r: Reserve, added: int, taken: int): Reserve {
    var available := r.availableLiquidity + added - taken;
    r.(availableLiquidity := available, totalLiquidity := available + r.unbacked)
  }

  predicate Priceable(p: Strategy, r: Reserve) {
    RatesDefined(p, r.totalStableDebt, r.totalVariableDebt, r.availableLiquidity, r.totalLiquidity)
  }

  function RatesOf(p: Strategy, r: Reserve): Rates
    requires Priceable(p, r)
  {
    InterestRates(p, r.marketStableRate, r.totalStableDebt, r.totalVariableDebt, r.averageStableBorrowRate,
      r.availableLiquidity, r.totalLiquidity)
  }

  function WithRates(r: Reserve, rates: Rates): Reserve {
    r.(liquidityRate := rates.liquidityRate,
       stableBorrowRate := rates.stableBorrowRate,
       variableBorrowRate := rates.variableBorrowRate)
  }

  predicate UsageDefined(r: Reserve) {
    var debt := r.totalStableDebt + r.totalVariableDebt;
    debt != 0 ==> r.availableLiquidity + debt != 0 && r.totalLiquidity + debt != 0
  }

  function WithUsage(r: Reserve): Reserve
    requires UsageDefined(r)
  {
    var debt := r.totalStableDebt + r.totalVariableDebt;
    r.(borrowUsageRatio := UsageRatio(debt, r.availableLiquidity),
       supplyUsageRatio := UsageRatio(debt, r.totalLiquidity))
  }

  function Priced(p: Strategy, r: Reserve): Reserve
    requires Priceable(p, r)
  {
    WithUsage(WithRates(r, RatesOf(p, r)))
  }

  /** `r` and `r'` differ at most in rates and usage ratios. */
  ghost predicate SameButRates(r: Reserve, r': Reserve) {
    r' == r.(liquidityRate := r'.liquidityRate, stableBorrowRate := r'.stableBorrowRate,
             variableBorrowRate := r'.variableBorrowRate, borrowUsageRatio := r'.borrowUsageRatio,
             supplyUsageRatio := r'.supplyUsageRatio)
  }

  /** Pricing does not depend on the rates and ratios a record had before. */
  lemma PricedForgetsRates(p: Strategy, r: Reserve, r': Reserve)
    requires SameButRates(r, r') && Priceable(p, r) && Priceable(p, r')
    ensures Priced(p, r) == Priced(p, r')
  {
    hide InterestRates, UsageRatio, RatesDefined;
  }

  // ----- the invariant -----

  /** Everything the invariant says that does not concern rates and ratios. */
  predicate Sound(r: Reserve) {
    && 0 <= r.reserveFactor <= PERCENTAGE_FACTOR
    && 0 <= r.unbacked && 0 <= r.accruedToTreasuryScaled
    && 0 <= r.availableLiquidity && r.totalLiquidity == r.availableLiquidity + r.unbacked
    && 0 <= r.totalStableDebt && 0 <= r.totalVariableDebt
    && 0 <= r.principalStableDebt && 0 <= r.scaledVariableDebt
    && (r.totalVariableDebt == 0 ==> r.scaledVariableDebt == 0)
    && 0 <= r.averageStableBorrowRate && 0 <= r.marketStableRate
    && RAY <= r.liquidityIndex && RAY <= r.variableBorrowIndex
    && r.totalStableDebtLastUpdated <= r.lastUpdateTimestamp
  }

  predicate Inv(r: Reserve) {
    && Sound(r)
    && 0 <= r.liquidityRate && 0 <= r.stableBorrowRate && 0 <= r.variableBorrowRate
    && 0 <= r.supplyUsageRatio <= r.borrowUsageRatio <= RAY
    && (r.supplyUsageRatio == 0 ==> r.liquidityRate == 0)
  }

  lemma SoundMeans(r: Reserve)
    requires Sound(r)
    ensures 0 <= r.totalStableDebt && 0 <= r.totalVariableDebt && 0 <= r.averageStableBorrowRate
    ensures 0 <= r.marketStableRate && 0 <= r.availableLiquidity <= r.totalLiquidity
  {
  }

  /** An action may run on `r` at `t`: the record is valid and time has not gone backwards. */
  predicate Ready(p: Strategy, r: Reserve, t: int) {
    ValidStrategy(p) && Inv(r) && r.lastUpdateTimestamp <= t
  }

  lemma ReadyMeans(p: Strategy, r: Reserve, t: int)
    requires Ready(p, r, t)
    ensures ValidStrategy(p) && Inv(r) && r.lastUpdateTimestamp <= t
  {
  }

  // ----- accrual keeps the record sound -----

  lemma GrowthAtLeastOne(cumulated: nat, index: nat)
    requires cumulated >= RAY
    ensures index <= RayMul(cumulated, index) && index <= RayMul(index, cumulated)
  {
    MulAtUnit(index, RAY);
    RayMulMono(RAY, cumulated, index, index);
    MulAtCommutes(index, cumulated, RAY);
  }

  lemma IndexesGrow(r: Reserve, t: int)
    requires Inv(r) && r.lastUpdateTimestamp <= t
    ensures r.liquidityIndex <= LiquidityIndexAt(r, t) && r.variableBorrowIndex <= VariableIndexAt(r, t)
  {
    LinearMono(r.liquidityRate, r.lastUpdateTimestamp, t, t);
    CompoundedMono(r.variableBorrowRate, r.variableBorrowRate, r.lastUpdateTimestamp, t, t);
    hide LinearInterest, CompoundedInterest, RayMul;
    GrowthAtLeastOne(LinearInterest(r.liquidityRate, t, r.lastUpdateTimestamp), r.liquidityIndex);
    GrowthAtLeastOne(CompoundedInterest(r.variableBorrowRate, t, r.lastUpdateTimestamp), r.variableBorrowIndex);
  }

  lemma StableDebtGrows(principal: nat, rate: nat, lastUpdated: int, t: int, t': int)
    requires lastUpdated <= t <= t'
    ensures principal <= TotalStableDebtAt(principal, rate, lastUpdated, t)
                      <= TotalStableDebtAt(principal, rate, lastUpdated, t')
    ensures principal <= StableDebtBalance(principal, rate, lastUpdated, t)
                      <= TotalStableDebtAt(principal, rate, lastUpdated, t)
  {
    CompoundedMono(rate, rate, lastUpdated, t, t');
    var (c, c') := (CompoundedInterest(rate, t, lastUpdated), CompoundedInterest(rate, t', lastUpdated));
    hide CompoundedInterest;
    GrowthAtLeastOne(c, principal);
    RayMulMono(c, c', principal, principal);
    MulAtCommutes(c, principal, RAY);
  }

  /** The debt that accrues is real interest: never negative. */
  lemma AccrualNonneg(r: Reserve, t: int)
    requires Inv(r) && r.lastUpdateTimestamp <= t
    ensures 0 <= DebtAccrued(r, t)
    ensures 0 <= AmountToMint(r, t) <= DebtAccrued(r, t)
    ensures r.reserveFactor == PERCENTAGE_FACTOR ==> AmountToMint(r, t) == DebtAccrued(r, t)
  {
    IndexesGrow(r, t);
    var last := r.totalStableDebtLastUpdated;
    StableDebtGrows(r.principalStableDebt, r.averageStableBorrowRate, last, r.lastUpdateTimestamp, t);
    MulAtCommutes(r.principalStableDebt,
      CompoundedInterest(r.averageStableBorrowRate, r.lastUpdateTimestamp, last), RAY);
    assert RayMul(r.principalStableDebt, CompoundedInterest(r.averageStableBorrowRate, r.lastUpdateTimestamp, last))
        == TotalStableDebtAt(r.principalStableDebt, r.averageStableBorrowRate, last, r.lastUpdateTimestamp) by {
      hide CompoundedInterest;
    }
    hide LinearInterest, CompoundedInterest, PercentMul, VariableIndexAt, TotalStableDebtAt;
    RayMulMono(r.scaledVariableDebt, r.scaledVariableDebt, r.variableBorrowIndex, VariableIndexAt(r, t));
    hide RayMul;
    PercentShare(DebtAccrued(r, t), r.reserveFactor);
  }

  /** Accrual keeps the record sound and never lowers an index or the treasury. */
  lemma AccrueSound(r: Reserve, t: int)
    requires Inv(r) && r.lastUpdateTimestamp <= t
    ensures LiquidityIndexAt(r, t) != 0
    ensures var s := Accrue(r, t);
      && Sound(s)
      && r.liquidityIndex <= s.liquidityIndex && r.variableBorrowIndex <= s.variableBorrowIndex
      && r.accruedToTreasuryScaled <= s.accruedToTreasuryScaled
  {
    IndexesGrow(r, t);
    StableDebtGrows(r.principalStableDebt, r.averageStableBorrowRate, r.totalStableDebtLastUpdated, t, t);
    AccrualNonneg(r, t);
    hide LinearInterest, CompoundedInterest, PercentMul, VariableIndexAt, LiquidityIndexAt, TotalStableDebtAt, AmountToMint;
    GrowthAtLeastOne(VariableIndexAt(r, t), r.scaledVariableDebt);
    DivAtNearest(AmountToMint(r, t), LiquidityIndexAt(r, t), RAY);
    hide RayMul, DivAt;
  }

  /** A sound record stays within the invariant once it is priced. */
  lemma PricedInv(p: Strategy, r: Reserve)
    requires ValidStrategy(p) && Sound(r)
    ensures Priceable(p, r) && Inv(Priced(p, r))
  {
    hide *;
    SoundMeans(r);
    CurveIsTotal(p, r.totalStableDebt, r.totalVariableDebt, r.availableLiquidity, r.totalLiquidity);
    PricedIs(p, r);
    RatesNonneg(p, r.marketStableRate, r.totalStableDebt, r.totalVariableDebt, r.averageStableBorrowRate,
      r.availableLiquidity, r.totalLiquidity);
    PricedIsValid(r, Priced(p, r));
  }

  lemma PricedIs(p: Strategy, r: Reserve)
    requires RatesDefined(p, r.totalStableDebt, r.totalVariableDebt, r.availableLiquidity, r.totalLiquidity)
    ensures UsageDefined(r) && Priceable(p, r) && SameButRates(r, Priced(p, r))
    ensures var rates := InterestRates(p, r.marketStableRate, r.totalStableDebt, r.totalVariableDebt,
        r.averageStableBorrowRate, r.availableLiquidity, r.totalLiquidity);
      var debt := r.totalStableDebt + r.totalVariableDebt;
      Priced(p, r) == r.(liquidityRate := rates.liquidityRate, stableBorrowRate := rates.stableBorrowRate,
        variableBorrowRate := rates.variableBorrowRate, borrowUsageRatio := UsageRatio(debt, r.availableLiquidity),
        supplyUsageRatio := UsageRatio(debt, r.totalLiquidity))
  {
    hide InterestRates, UsageRatio;
  }

  lemma PricedIsValid(r: Reserve, r': Reserve)
    requires Sound(r) && SameButRates(r, r')
    requires 0 <= r'.liquidityRate && 0 <= r'.stableBorrowRate && 0 <= r'.variableBorrowRate
    requires 0 <= r'.supplyUsageRatio <= r'.borrowUsageRatio <= RAY
    requires r'.supplyUsageRatio == 0 ==> r'.liquidityRate == 0
    ensures Inv(r')
  {
  }
}
