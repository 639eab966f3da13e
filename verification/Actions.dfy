/** What each action makes of the reserve record, and when it may be taken. */
module Actions {
  import opened WadRayMath
  import opened Interest
  import opened Shares
  import opened Rates
  import opened RateLaws
  import opened Reserve

  // ----- supplying and withdrawing -----

  function AfterDeposit(p: Strategy, r: Reserve, amount: int, t: int): Reserve
    requires Ready(p, r, t) && amount >= 0
  {
    AccrueSound(r, t);
    var s := WithLiquidity(Accrue(r, t), amount, 0);
    PricedInv(p, s);
    Priced(p, s)
  }

  function AmountWithdrawn(r: Reserve, u: User, amount: int, t: int): int {
    if amount == MAX_UINT_AMOUNT then ATokenBalance(r, u, t) else amount
  }

  predicate CanWithdraw(r: Reserve, u: User, amount: int, t: int) {
    0 <= AmountWithdrawn(r, u, amount, t) <= r.availableLiquidity
  }

  function AfterWithdraw(p: Strategy, r: Reserve, u: User, amount: int, t: int): Reserve
    requires Ready(p, r, t) && CanWithdraw(r, u, amount, t)
  {
    AccrueSound(r, t);
    var s := WithLiquidity(Accrue(r, t), 0, AmountWithdrawn(r, u, amount, t));
    PricedInv(p, s);
    Priced(p, s)
  }

  // ----- the bridge -----

  function MintedUnbacked(r: Reserve, amount: int, t: int): Reserve
    requires LiquidityIndexAt(r, t) != 0
  {
    var s := Accrue(r, t).(
      unbacked := r.unbacked + amount,
      averageStableBorrowRate := AverageStableRate(r.averageStableBorrowRate, r.totalStableDebt, 0, r.stableBorrowRate));
    WithLiquidity(s, 0, 0)
  }

  function AfterMintUnbacked(p: Strategy, r: Reserve, amount: int, t: int): Reserve
    requires Ready(p, r, t) && amount >= 0
  {
    MintedUnbackedSound(r, amount, t);
    PricedInv(p, MintedUnbacked(r, amount, t));
    Priced(p, MintedUnbacked(r, amount, t))
  }

  /** What suppliers and treasury together can claim at an index. */
  function Claims(scaledSupply: int, scaledTreasury: int, index: int): int {
    RayMul(scaledSupply, index) + RayMul(scaledTreasury, index)
  }

  /** The index after handing `premium` to everyone holding a claim. */
  function CumulateToLiquidityIndex(index: int, totalLiquidity: int, premium: int): int
    requires totalLiquidity != 0
  {
    RayMul(RayDiv(WadToRay(premium), WadToRay(totalLiquidity)) + RAY, index)
  }

  datatype Backing = Backing(scaledATokenSupply: int, amount: int, fee: int, protocolFee: int)

  predicate CanBack(r: Reserve, b: Backing, t: int)
    requires LiquidityIndexAt(r, t) != 0
  {
    && 0 <= b.amount && 0 <= b.fee && 0 <= b.protocolFee <= PERCENTAGE_FACTOR && 0 <= b.scaledATokenSupply
    && 0 < Claims(b.scaledATokenSupply, TreasuryAt(r, t), LiquidityIndexAt(r, t))
  }

  function BackingAmount(r: Reserve, b: Backing): int {
    if b.amount < r.unbacked then b.amount else r.unbacked
  }

  function PremiumToProtocol(b: Backing): int { PercentMul(b.fee, b.protocolFee) }

  function IndexAfterBacking(r: Reserve, b: Backing, t: int): int
    requires LiquidityIndexAt(r, t) != 0 && CanBack(r, b, t)
  {
    CumulateToLiquidityIndex(LiquidityIndexAt(r, t),
      Claims(b.scaledATokenSupply, TreasuryAt(r, t), LiquidityIndexAt(r, t)), b.fee - PremiumToProtocol(b))
  }

  function BackedUnbacked(r: Reserve, b: Backing, t: int): Reserve
    requires LiquidityIndexAt(r, t) != 0 && CanBack(r, b, t) && IndexAfterBacking(r, b, t) != 0
  {
    var index := IndexAfterBacking(r, b, t);
    var s := Accrue(r, t).(
      liquidityIndex := index,
      accruedToTreasuryScaled := TreasuryAt(r, t) + RayDiv(PremiumToProtocol(b), index),
      unbacked := r.unbacked - BackingAmount(r, b),
      averageStableBorrowRate := AverageStableRate(r.averageStableBorrowRate, r.totalStableDebt, 0, r.stableBorrowRate));
    WithLiquidity(s, BackingAmount(r, b) + b.fee, 0)
  }

  function AfterBackUnbacked(p: Strategy, r: Reserve, b: Backing, t: int): Reserve
    requires Ready(p, r, t) && LiquidityIndexAt(r, t) != 0 && CanBack(r, b, t)
  {
    BackedUnbackedSound(r, b, t);
    PricedInv(p, BackedUnbacked(r, b, t));
    Priced(p, BackedUnbacked(r, b, t))
  }

  // ----- borrowing -----

  /** The record as it stands in the transaction, when the new rates are set. */
  function Borrowed(r: Reserve, amount: int, mode: RateMode, t: int): Reserve
    requires LiquidityIndexAt(r, t) != 0 && VariableIndexAt(r, t) != 0
  {
    var s := WithLiquidity(Accrue(r, t), 0, amount);
    if mode == Stable then
      var principal := StableDebtOf(r, t) + amount;
      s.(principalStableDebt := principal,
         totalStableDebt := principal,
         averageStableBorrowRate :=
           AverageStableRate(r.averageStableBorrowRate, StableDebtOf(r, t), amount, r.stableBorrowRate),
         totalStableDebtLastUpdated := t)
    else
      var scaled := r.scaledVariableDebt + RayDiv(amount, s.variableBorrowIndex);
      s.(totalStableDebt :=
           StableDebtBalance(r.principalStableDebt, r.averageStableBorrowRate, r.totalStableDebtLastUpdated, t),
         scaledVariableDebt := scaled,
         totalVariableDebt := RayMul(scaled, s.variableBorrowIndex))
  }

  /** The debts of a freshly priced record as they are read at a later moment. */
  function DebtsReadAt(r: Reserve, t: int, now: int): Reserve {
    r.(totalStableDebt :=
         TotalStableDebtAt(r.principalStableDebt, r.averageStableBorrowRate, r.totalStableDebtLastUpdated, now),
       totalVariableDebt :=
         RayMul(r.scaledVariableDebt, NormalizedDebt(r.variableBorrowRate, r.variableBorrowIndex, t, now)))
  }

  function AfterBorrow(p: Strategy, r: Reserve, amount: int, mode: RateMode, t: int, now: int): Reserve
    requires Ready(p, r, t) && 0 <= amount <= r.availableLiquidity && t <= now
  {
    BorrowedSound(r, amount, mode, t);
    var s := Borrowed(r, amount, mode, t);
    PricedInv(p, s);
    DebtsReadSound(p, r, amount, mode, t, now);
    WithUsage(DebtsReadAt(WithRates(s, RatesOf(p, s)), t, now))
  }

  // ----- repaying -----

  function AmountRepaid(r: Reserve, u: User, amount: int, mode: RateMode, t: int): int {
    if Abs(amount) == MAX_UINT_AMOUNT then
      if mode == Stable then UserStableDebt(u, t) else VariableDebtBalance(r, u, t)
    else
      amount
  }

  /** A repayment is not negative; a variable one is at most the user's debt, and the user's shares are
      part of the reserve's. */
  predicate MayPay(r: Reserve, u: User, repaid: int, mode: RateMode, t: int) {
    && 0 <= repaid
    && (mode != Stable ==> 0 <= u.scaledVariableDebt <= r.scaledVariableDebt && repaid <= VariableDebtBalance(r, u, t))
  }

  predicate CanRepay(r: Reserve, u: User, amount: int, mode: RateMode, t: int) {
    MayPay(r, u, AmountRepaid(r, u, amount, mode, t), mode, t)
  }

  function NoStableDebt(r: Reserve): Reserve {
    r.(principalStableDebt := 0, totalStableDebt := 0, averageStableBorrowRate := 0)
  }

  /** Stable repayment. Rounding can leave the total, or the average, below zero: both are then cleared. */
  function StableRepaid(r: Reserve, s: Reserve, repaid: int, userRate: int, t: int): Reserve {
    var before := StableDebtOf(r, t);
    var rest := before - repaid;
    var average := AverageStableRate(r.averageStableBorrowRate, before, -repaid, userRate);
    var s' := s.(totalStableDebtLastUpdated := t);
    if rest < 0 || average < 0 then
      NoStableDebt(s')
    else
      s'.(principalStableDebt := rest, totalStableDebt := rest, averageStableBorrowRate := average)
  }

  function VariableRepaid(s: Reserve, repaid: int): Reserve
    requires s.variableBorrowIndex != 0
  {
    var scaled := s.scaledVariableDebt - RayDiv(repaid, s.variableBorrowIndex);
    s.(scaledVariableDebt := scaled, totalVariableDebt := RayMul(scaled, s.variableBorrowIndex))
  }

  function Repaid(r: Reserve, repaid: int, userRate: int, mode: RateMode, t: int): Reserve
    requires LiquidityIndexAt(r, t) != 0 && VariableIndexAt(r, t) != 0
  {
    var s := WithLiquidity(Accrue(r, t), repaid, 0);
    if mode == Stable then StableRepaid(r, s, repaid, userRate, t) else VariableRepaid(s, repaid)
  }

  function AfterRepay(p: Strategy, r: Reserve, u: User, amount: int, mode: RateMode, t: int): Reserve
    requires Ready(p, r, t) && CanRepay(r, u, amount, mode, t)
  {
    var repaid := AmountRepaid(r, u, amount, mode, t);
    RepaidSound(r, u, repaid, mode, t);
    var s := Repaid(r, repaid, u.stableBorrowRate, mode, t);
    PricedInv(p, s);
    Priced(p, s)
  }

  // ----- changing the rate mode, rebalancing -----

  function SwappedToVariable(r: Reserve, stableDebt: int, userRate: int, t: int): Reserve
    requires LiquidityIndexAt(r, t) != 0 && VariableIndexAt(r, t) != 0
  {
    var s := WithLiquidity(Accrue(r, t), 0, 0);
    var scaled := r.scaledVariableDebt + RayDiv(stableDebt, s.variableBorrowIndex);
    var total := s.totalStableDebt - stableDebt;
    s.(scaledVariableDebt := scaled,
       totalVariableDebt := RayMul(scaled, s.variableBorrowIndex),
       principalStableDebt := total,
       totalStableDebt := total,
       averageStableBorrowRate := AverageStableRate(r.averageStableBorrowRate, total + stableDebt, -stableDebt, userRate),
       totalStableDebtLastUpdated := t)
  }

  function SwappedToStable(r: Reserve, variableDebt: int, t: int): Reserve
    requires LiquidityIndexAt(r, t) != 0 && VariableIndexAt(r, t) != 0
  {
    var s := WithLiquidity(Accrue(r, t), 0, 0);
    var scaled := r.scaledVariableDebt - RayDiv(variableDebt, s.variableBorrowIndex);
    var total := s.totalStableDebt + variableDebt;
    s.(scaledVariableDebt := scaled,
       totalVariableDebt := RayMul(scaled, s.variableBorrowIndex),
       principalStableDebt := total,
       totalStableDebt := total,
       averageStableBorrowRate :=
         AverageStableRate(r.averageStableBorrowRate, r.totalStableDebt, variableDebt, r.stableBorrowRate),
       totalStableDebtLastUpdated := t)
  }

  /** `mode` is the mode the user leaves. */
  function Swapped(r: Reserve, u: User, mode: RateMode, t: int): Reserve
    requires LiquidityIndexAt(r, t) != 0 && VariableIndexAt(r, t) != 0
  {
    if mode == Stable then
      SwappedToVariable(r, UserStableDebt(u, t), u.stableBorrowRate, t)
    else
      SwappedToStable(r, VariableDebtBalance(r, u, t), t)
  }

  function AfterSwapRateMode(p: Strategy, r: Reserve, u: User, mode: RateMode, t: int): Reserve
    requires LiquidityIndexAt(r, t) != 0 && VariableIndexAt(r, t) != 0
    requires Priceable(p, Swapped(r, u, mode, t))
  {
    Priced(p, Swapped(r, u, mode, t))
  }

  function Rebalanced(r: Reserve, u: User, t: int): Reserve
    requires LiquidityIndexAt(r, t) != 0
  {
    var s := WithLiquidity(Accrue(r, t), 0, 0);
    var debt := UserStableDebt(u, t);
    var total := StableDebtOf(r, t);
    var without := AverageStableRateRebalance(r.averageStableBorrowRate, total, -debt, u.stableBorrowRate);
    s.(principalStableDebt := total,
       totalStableDebt := total,
       averageStableBorrowRate := AverageStableRateRebalance(without, total - debt, debt, r.stableBorrowRate),
       totalStableDebtLastUpdated := t)
  }

  function AfterStableRateRebalance(p: Strategy, r: Reserve, u: User, t: int): Reserve
    requires LiquidityIndexAt(r, t) != 0 && Priceable(p, Rebalanced(r, u, t))
  {
    Priced(p, Rebalanced(r, u, t))
  }

  /** A swap away from stable debt must leave the reserve a total and an average that are not negative;
      a swap away from variable debt is of shares that are part of the reserve's. */
  predicate CanSwap(r: Reserve, u: User, mode: RateMode, t: int) {
    if mode == Stable then
      && 0 <= UserStableDebt(u, t)
      && Removable(r.averageStableBorrowRate, StableDebtOf(r, t), UserStableDebt(u, t), u.stableBorrowRate)
    else
      0 <= u.scaledVariableDebt <= r.scaledVariableDebt
  }

  /** What rebalancing averages must exceed minus one and a half times the weight it is divided by: then the
      quotient, rounded half up and truncated, is not negative. */
  predicate CanRebalance(r: Reserve, u: User, t: int) {
    var (total, debt) := (StableDebtOf(r, t), UserStableDebt(u, t));
    var without := AverageStableRateRebalance(r.averageStableBorrowRate, total, -debt, u.stableBorrowRate);
    var charged := RayMul(without, total - debt) + RayMul(r.stableBorrowRate, WadToRay(debt));
    var weight := total - debt + WadToRay(debt);
    0 <= debt && (weight == 0 || 0 < charged * RAY + weight + weight / 2)
  }

  // ----- every action keeps the record sound -----

  lemma AverageNonneg(averageRate: nat, totalDebt: nat, amount: nat, rate: nat)
    ensures 0 <= AverageStableRate(averageRate, totalDebt, amount, rate)
  {
    if totalDebt + amount > 0 {
      TruncDivFloor(averageRate * totalDebt + rate * amount, totalDebt + amount);
    }
  }

  lemma MintedUnbackedSound(r: Reserve, amount: nat, t: int)
    requires Inv(r) && r.lastUpdateTimestamp <= t
    ensures LiquidityIndexAt(r, t) != 0 && Sound(MintedUnbacked(r, amount, t))
  {
    AccrueSound(r, t);
    AverageNonneg(r.averageStableBorrowRate, r.totalStableDebt, 0, r.stableBorrowRate);
    hide RayMul, LiquidityIndexAt, VariableIndexAt, StableDebtOf, TreasuryAt, AverageStableRate;
  }

  lemma BackingGrowsIndex(r: Reserve, b: Backing, t: int)
    requires Inv(r) && r.lastUpdateTimestamp <= t && LiquidityIndexAt(r, t) != 0 && CanBack(r, b, t)
    ensures LiquidityIndexAt(r, t) <= IndexAfterBacking(r, b, t)
    ensures 0 <= PremiumToProtocol(b) <= b.fee
  {
    AccrueSound(r, t);
    PercentShare(b.fee, b.protocolFee);
    var index := LiquidityIndexAt(r, t);
    var claims := Claims(b.scaledATokenSupply, TreasuryAt(r, t), index);
    var premium := b.fee - PremiumToProtocol(b);
    DivAtNearest(WadToRay(premium), WadToRay(claims), RAY);
    GrowthAtLeastOne(RayDiv(WadToRay(premium), WadToRay(claims)) + RAY, index);
    hide RayMul, RayDiv, LiquidityIndexAt, TreasuryAt, WadToRay, PercentMul;
  }

  lemma BackedUnbackedSound(r: Reserve, b: Backing, t: int)
    requires Inv(r) && r.lastUpdateTimestamp <= t && LiquidityIndexAt(r, t) != 0 && CanBack(r, b, t)
    ensures IndexAfterBacking(r, b, t) != 0 && Sound(BackedUnbacked(r, b, t))
    ensures r.liquidityIndex <= IndexAfterBacking(r, b, t)
    ensures r.accruedToTreasuryScaled <= BackedUnbacked(r, b, t).accruedToTreasuryScaled
  {
    AccrueSound(r, t);
    BackingGrowsIndex(r, b, t);
    AverageNonneg(r.averageStableBorrowRate, r.totalStableDebt, 0, r.stableBorrowRate);
    DivAtNearest(PremiumToProtocol(b), IndexAfterBacking(r, b, t), RAY);
    hide RayMul, MulAt, DivAt, LiquidityIndexAt, VariableIndexAt, StableDebtOf, TreasuryAt, AverageStableRate,
      IndexAfterBacking, PremiumToProtocol;
  }

  lemma BorrowedSound(r: Reserve, amount: nat, mode: RateMode, t: int)
    requires Inv(r) && r.lastUpdateTimestamp <= t && amount <= r.availableLiquidity
    ensures LiquidityIndexAt(r, t) != 0 && VariableIndexAt(r, t) != 0 && Sound(Borrowed(r, amount, mode, t))
  {
    AccrueSound(r, t);
    AverageNonneg(r.averageStableBorrowRate, StableDebtOf(r, t), amount, r.stableBorrowRate);
    StableDebtGrows(r.principalStableDebt, r.averageStableBorrowRate, r.totalStableDebtLastUpdated, t, t);
    var index := VariableIndexAt(r, t);
    DivAtNearest(amount, index, RAY);
    WorthAtLeastShares(r.scaledVariableDebt + RayDiv(amount, index), index);
    hide RayMul, MulAt, DivAt, LiquidityIndexAt, VariableIndexAt, StableDebtOf, TreasuryAt, AverageStableRate, StableDebtBalance;
  }

  /** Reading the debts later only raises them. */
  lemma DebtsReadGrow(s: Reserve, t: int, now: int)
    requires Sound(s) && 0 <= s.variableBorrowRate && s.lastUpdateTimestamp == t <= now
    requires s.totalVariableDebt == RayMul(s.scaledVariableDebt, s.variableBorrowIndex)
    requires s.totalStableDebt <= StableDebtOf(s, t)
    ensures var s' := DebtsReadAt(s, t, now);
      s.totalStableDebt <= s'.totalStableDebt && s.totalVariableDebt <= s'.totalVariableDebt
  {
    var index := s.variableBorrowIndex;
    CompoundedMono(s.variableBorrowRate, s.variableBorrowRate, t, now, now);
    StableDebtGrows(s.principalStableDebt, s.averageStableBorrowRate, s.totalStableDebtLastUpdated, t, now);
    GrowthAtLeastOne(CompoundedInterest(s.variableBorrowRate, now, t), index);
    var index' := NormalizedDebt(s.variableBorrowRate, index, t, now);
    assert index <= index' by { hide CompoundedInterest, RayMul; }
    RayMulMono(s.scaledVariableDebt, s.scaledVariableDebt, index, index');
    hide CompoundedInterest, RayMul, NormalizedDebt, TotalStableDebtAt;
  }

  lemma BorrowedDebts(r: Reserve, amount: nat, mode: RateMode, t: int)
    requires Inv(r) && r.lastUpdateTimestamp <= t && amount <= r.availableLiquidity
    requires LiquidityIndexAt(r, t) != 0 && VariableIndexAt(r, t) != 0
    ensures var s := Borrowed(r, amount, mode, t);
      && s.totalVariableDebt == RayMul(s.scaledVariableDebt, s.variableBorrowIndex)
      && s.totalStableDebt <= StableDebtOf(s, t)
  {
    var s := Borrowed(r, amount, mode, t);
    BorrowedSound(r, amount, mode, t);
    StableDebtGrows(s.principalStableDebt, s.averageStableBorrowRate, s.totalStableDebtLastUpdated, t, t);
    hide RayMul, RayDiv, LiquidityIndexAt, VariableIndexAt, TreasuryAt, AverageStableRate, StableDebtBalance, CompoundedInterest;
  }

  lemma DebtsReadSound(p: Strategy, r: Reserve, amount: nat, mode: RateMode, t: int, now: int)
    requires Ready(p, r, t) && amount <= r.availableLiquidity && t <= now
    requires LiquidityIndexAt(r, t) != 0 && VariableIndexAt(r, t) != 0
    requires Priceable(p, Borrowed(r, amount, mode, t))
    ensures var s := Borrowed(r, amount, mode, t);
      var s' := DebtsReadAt(WithRates(s, RatesOf(p, s)), t, now);
      UsageDefined(s') && Inv(WithUsage(s'))
  {
    BorrowedSound(r, amount, mode, t);
    BorrowedDebts(r, amount, mode, t);
    var s := Borrowed(r, amount, mode, t);
    assert s.lastUpdateTimestamp == t;
    hide *;
    ReadKeepsInv(p, s, t, now);
  }

  /** Pricing a sound record in the transaction and reading its debts later keeps the invariant,
      also the clause tying the supply rate of then to the usage ratio of now. */
  lemma ReadKeepsInv(p: Strategy, s: Reserve, t: int, now: int)
    requires ValidStrategy(p) && Sound(s) && Priceable(p, s) && s.lastUpdateTimestamp == t <= now
    requires s.totalVariableDebt == RayMul(s.scaledVariableDebt, s.variableBorrowIndex)
    requires s.totalStableDebt <= StableDebtOf(s, t)
    ensures var s' := DebtsReadAt(WithRates(s, RatesOf(p, s)), t, now); UsageDefined(s') && Inv(WithUsage(s'))
  {
    PricedInv(p, s);
    hide RayMul, CompoundedInterest, NormalizedDebt, TotalStableDebtAt, RatesDefined, InterestRates;
    var s0 := WithRates(s, RatesOf(p, s));
    DebtsReadGrow(s0, t, now);
    MoreDebtKeepsInv(s0, DebtsReadAt(s0, t, now));
    hide UsageRatio;
  }

  lemma MoreDebtKeepsInv(s: Reserve, s': Reserve)
    requires UsageDefined(s) && Inv(WithUsage(s)) && s.totalStableDebt <= s'.totalStableDebt
    requires s.totalVariableDebt <= s'.totalVariableDebt
    requires s' == s.(totalStableDebt := s'.totalStableDebt, totalVariableDebt := s'.totalVariableDebt)
    ensures UsageDefined(s') && Inv(WithUsage(s'))
  {
    var (debt, debt') := (s.totalStableDebt + s.totalVariableDebt, s'.totalStableDebt + s'.totalVariableDebt);
    hide UsageRatio;
    RatioOfMoreDebt(debt, debt', s.availableLiquidity, s.totalLiquidity);
  }

  lemma RatioOfMoreDebt(debt: nat, debt': nat, available: nat, total: nat)
    requires debt <= debt' && available <= total
    ensures 0 <= UsageRatio(debt', total) <= UsageRatio(debt', available) <= RAY
    ensures 0 <= UsageRatio(debt, total) <= UsageRatio(debt', total)
  {
    UsageRatioBounds(debt, total);
    UsageRatioBounds(debt', available);
    UsageRatioBounds(debt', total);
    UsageRatioOrder(debt', total, debt', available);
    UsageRatioOrder(debt, total, debt', total);
  }

  /** The update path and the view path show a borrower the same debt. */
  lemma VariableViewsAgree(r: Reserve, u: User, t: int)
    requires Inv(r) && r.lastUpdateTimestamp <= t && 0 <= u.scaledVariableDebt <= r.scaledVariableDebt
    ensures VariableDebtBalance(r, u, t) == RayMul(u.scaledVariableDebt, VariableIndexAt(r, t))
  {
    hide RayMul, CompoundedInterest;
    NoRate(r.lastUpdateTimestamp, t);
    UnitFactor(r.variableBorrowIndex);
    WorthOfNothing(VariableIndexAt(r, t));
    WorthOfNothing(NormalizedDebt(r.variableBorrowRate, r.variableBorrowIndex, r.lastUpdateTimestamp, t));
  }

  lemma UnitFactor(index: nat)
    ensures RayMul(RAY, index) == index
  {
    MulAtUnit(index, RAY);
  }

  /** The update path and the view path show a supplier the same balance. */
  lemma SupplyViewsAgree(r: Reserve, t: int)
    requires Inv(r) && r.lastUpdateTimestamp <= t
    ensures NormalizedIncome(r, t) == LiquidityIndexAt(r, t)
  {
    hide RayMul, LinearInterest;
    NoRate(r.lastUpdateTimestamp, t);
    UnitFactor(r.liquidityIndex);
  }

  lemma RepaidSound(r: Reserve, u: User, repaid: int, mode: RateMode, t: int)
    requires Inv(r) && r.lastUpdateTimestamp <= t && MayPay(r, u, repaid, mode, t)
    ensures LiquidityIndexAt(r, t) != 0 && VariableIndexAt(r, t) != 0
    ensures Sound(Repaid(r, repaid, u.stableBorrowRate, mode, t))
  {
    AccrueSound(r, t);
    var index := VariableIndexAt(r, t);
    if mode != Stable {
      VariableViewsAgree(r, u, t);
      PartOfHolding(u.scaledVariableDebt, repaid, index);
      WorthAtLeastShares(r.scaledVariableDebt - RayDiv(repaid, index), index);
    }
    hide RayMul, RayDiv, LiquidityIndexAt, VariableIndexAt, StableDebtOf, TreasuryAt, AverageStableRate, VariableDebtBalance;
  }

  // ----- swapping and rebalancing -----

  /** Swapping stable to variable debt keeps the record sound if and only if the user's stable debt can be taken
      out of the reserve's. */
  lemma SwapToVariableSound(r: Reserve, u: User, t: int)
    requires Inv(r) && r.lastUpdateTimestamp <= t && 0 <= UserStableDebt(u, t)
    ensures LiquidityIndexAt(r, t) != 0 && VariableIndexAt(r, t) != 0
    ensures Sound(Swapped(r, u, Stable, t))
        <==> Removable(r.averageStableBorrowRate, StableDebtOf(r, t), UserStableDebt(u, t), u.stableBorrowRate)
  {
    AccrueSound(r, t);
    var (index, debt) := (VariableIndexAt(r, t), UserStableDebt(u, t));
    DivAtNearest(debt, index, RAY);
    WorthAtLeastShares(r.scaledVariableDebt + RayDiv(debt, index), index);
    RemovableExactly(r.averageStableBorrowRate, StableDebtOf(r, t), debt, u.stableBorrowRate);
    hide RayMul, MulAt, DivAt, LiquidityIndexAt, VariableIndexAt, StableDebtOf, TreasuryAt, AverageStableRate, UserStableDebt,
      Removable;
  }

  /** Swapping variable to stable debt always does. */
  lemma SwapToStableSound(r: Reserve, u: User, t: int)
    requires Inv(r) && r.lastUpdateTimestamp <= t && 0 <= u.scaledVariableDebt <= r.scaledVariableDebt
    ensures LiquidityIndexAt(r, t) != 0 && VariableIndexAt(r, t) != 0
    ensures Sound(Swapped(r, u, Variable, t))
  {
    AccrueSound(r, t);
    SwappedParts(r, u, t);
    hide *;
    SwappedIs(r, u, t);
    StableSwapIsSound(Accrue(r, t), Swapped(r, u, Variable, t));
  }

  lemma SwappedIs(r: Reserve, u: User, t: int)
    requires Inv(r) && r.lastUpdateTimestamp <= t && LiquidityIndexAt(r, t) != 0 && VariableIndexAt(r, t) != 0
    ensures var (a, debt) := (Accrue(r, t), VariableDebtBalance(r, u, t));
      && a.lastUpdateTimestamp == t && a.scaledVariableDebt == r.scaledVariableDebt && a.totalStableDebt == StableDebtOf(r, t)
      && Swapped(r, u, Variable, t) == a.(
           totalLiquidity := a.availableLiquidity + a.unbacked,
           scaledVariableDebt := r.scaledVariableDebt - RayDiv(debt, VariableIndexAt(r, t)),
           totalVariableDebt := RayMul(r.scaledVariableDebt - RayDiv(debt, VariableIndexAt(r, t)), VariableIndexAt(r, t)),
           principalStableDebt := StableDebtOf(r, t) + debt,
           totalStableDebt := StableDebtOf(r, t) + debt,
           averageStableBorrowRate := AverageStableRate(r.averageStableBorrowRate, r.totalStableDebt, debt, r.stableBorrowRate),
           totalStableDebtLastUpdated := t)
  {
    hide RayMul, RayDiv, LiquidityIndexAt, VariableIndexAt, StableDebtOf, TreasuryAt, AverageStableRate, VariableDebtBalance, Inv;
  }

  lemma StableSwapIsSound(a: Reserve, s: Reserve)
    requires Sound(a) && 0 <= s.totalStableDebt && 0 <= s.averageStableBorrowRate
    requires 0 <= s.scaledVariableDebt <= s.totalVariableDebt
    requires s == a.(totalLiquidity := a.availableLiquidity + a.unbacked, scaledVariableDebt := s.scaledVariableDebt,
      totalVariableDebt := s.totalVariableDebt, principalStableDebt := s.totalStableDebt, totalStableDebt := s.totalStableDebt,
      averageStableBorrowRate := s.averageStableBorrowRate, totalStableDebtLastUpdated := a.lastUpdateTimestamp)
    ensures Sound(s)
  {
  }

  lemma SwappedParts(r: Reserve, u: User, t: int)
    requires Inv(r) && r.lastUpdateTimestamp <= t && 0 <= u.scaledVariableDebt <= r.scaledVariableDebt
    ensures var (index, debt) := (VariableIndexAt(r, t), VariableDebtBalance(r, u, t));
      && index != 0
      && RayDiv(debt, index) == u.scaledVariableDebt
      && r.scaledVariableDebt - u.scaledVariableDebt <= RayMul(r.scaledVariableDebt - u.scaledVariableDebt, index)
      && 0 <= debt
      && 0 <= AverageStableRate(r.averageStableBorrowRate, r.totalStableDebt, debt, r.stableBorrowRate)
  {
    IndexesGrow(r, t);
    VariableViewsAgree(r, u, t);
    var (index, debt) := (VariableIndexAt(r, t), VariableDebtBalance(r, u, t));
    WholeHolding(u.scaledVariableDebt, index);
    WorthAtLeastShares(u.scaledVariableDebt, index);
    WorthAtLeastShares(r.scaledVariableDebt - u.scaledVariableDebt, index);
    hide RayMul, RayDiv, LiquidityIndexAt, VariableIndexAt, VariableDebtBalance;
    AverageNonneg(r.averageStableBorrowRate, r.totalStableDebt, debt, r.stableBorrowRate);
  }

  lemma SwapSound(r: Reserve, u: User, mode: RateMode, t: int)
    requires Inv(r) && r.lastUpdateTimestamp <= t && CanSwap(r, u, mode, t)
    ensures LiquidityIndexAt(r, t) != 0 && VariableIndexAt(r, t) != 0
    ensures Sound(Swapped(r, u, mode, t))
  {
    hide Removable, UserStableDebt, LiquidityIndexAt, VariableIndexAt, StableDebtOf, Sound;
    if mode == Stable {
      SwapToVariableSound(r, u, t);
    } else {
      SwapToStableSound(r, u, t);
      assert Swapped(r, u, mode, t) == Swapped(r, u, Variable, t);
    }
  }

  /** A half-up quotient by `d` is non-negative as long as the fraction is above minus one and a half. */
  lemma DivAtNonneg(n: int, d: int, f: int)
    requires d > 0
    ensures 0 <= DivAt(n, d, f) <==> 0 < n * f + d + d / 2
  {
    TruncNonneg(TruncDiv(d, 2) + n * f, d);
    assert TruncDiv(d, 2) == d / 2;
  }

  /** Rebalancing never leaves a negative debt. It keeps the record sound if and only if the average rate it
      arrives at is not negative, which its mixed units do not rule out. */
  lemma RebalanceSound(r: Reserve, u: User, t: int)
    requires Inv(r) && r.lastUpdateTimestamp <= t && 0 <= UserStableDebt(u, t)
    ensures LiquidityIndexAt(r, t) != 0
    ensures var s := Rebalanced(r, u, t);
      && 0 <= s.totalStableDebt && 0 <= s.principalStableDebt && 0 <= s.totalVariableDebt && 0 <= s.scaledVariableDebt
      && (Sound(s) <==> CanRebalance(r, u, t))
  {
    AccrueSound(r, t);
    var (total, debt) := (StableDebtOf(r, t), UserStableDebt(u, t));
    var without := AverageStableRateRebalance(r.averageStableBorrowRate, total, -debt, u.stableBorrowRate);
    RebalancedAverage(without, total, debt, r.stableBorrowRate);
    assert CanRebalance(r, u, t) <==>
      0 <= AverageStableRateRebalance(without, total - debt, debt, r.stableBorrowRate) by {
      hide RayMul, StableDebtOf, AverageStableRateRebalance, UserStableDebt, WadToRay;
    }
    hide RayMul, LiquidityIndexAt, VariableIndexAt, StableDebtOf, TreasuryAt, AverageStableRateRebalance, UserStableDebt,
      WadToRay, CanRebalance;
  }

  lemma RebalancedAverage(without: int, total: nat, debt: nat, rate: int)
    ensures var charged := RayMul(without, total - debt) + RayMul(rate, WadToRay(debt));
      var weight := total - debt + WadToRay(debt);
      0 <= AverageStableRateRebalance(without, total - debt, debt, rate)
      <==> weight == 0 || 0 < charged * RAY + weight + weight / 2
  {
    var weight := total - debt + WadToRay(debt);
    MulMono(1, WAD_RAY_RATIO, debt);
    assert 0 <= weight;
    if weight > 0 {
      DivAtNonneg(RayMul(without, total - debt) + RayMul(rate, WadToRay(debt)), weight, RAY);
    }
    hide RayMul, DivAt, WadToRay;
  }
}
