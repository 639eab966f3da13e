/** What the fields of a reserve's record hold after an action: ratios and rates of its own amounts, accrued indexes,
    weighted averages, and in every other field what was there before. */
module RecordValues {
  import opened WadRayMath
  import opened Interest
  import opened Shares
  import opened Rates
  import opened RateLaws
  import opened RateValues
  import opened Reserve
  import opened Actions
  import opened Runs
  import opened BridgeFee
  import opened Solvency
  import opened RunSolvency

  // ----- usage ratios -----

  /** Both ratio fields are those of the record's own debts and liquidity, to the nearest unit of a ray. */
  ghost predicate CarriesUsage(r: Reserve) {
    var debt := r.totalStableDebt + r.totalVariableDebt;
    if debt == 0 then
      r.borrowUsageRatio == r.supplyUsageRatio == 0
    else
      && Nearest(r.borrowUsageRatio, debt * RAY, r.availableLiquidity + debt)
      && Nearest(r.supplyUsageRatio, debt * RAY, r.totalLiquidity + debt)
  }

  lemma WithUsageCarries(s: Reserve)
    requires UsageDefined(s) && 0 <= s.totalStableDebt && 0 <= s.totalVariableDebt
    requires 0 <= s.availableLiquidity <= s.totalLiquidity
    ensures CarriesUsage(WithUsage(s))
  {
    var debt := s.totalStableDebt + s.totalVariableDebt;
    UsageRatioIs(debt, s.availableLiquidity);
    UsageRatioIs(debt, s.totalLiquidity);
    hide UsageRatio, Nearest;
  }

  lemma PricedCarries(p: Strategy, s: Reserve)
    requires Sound(s) && Priceable(p, s)
    ensures CarriesUsage(Priced(p, s))
  {
    SoundMeans(s);
    assert UsageDefined(WithRates(s, RatesOf(p, s))) by { hide InterestRates, UsageRatio; }
    hide Sound, InterestRates, RatesDefined, CarriesUsage, Priceable;
    WithUsageCarries(WithRates(s, RatesOf(p, s)));
  }

  /** Whatever the action, and however late a borrow is read. */
  lemma StepCarriesUsage(r: Reserve, step: Step)
    requires Enabled(r, step)
    ensures CarriesUsage(Next(r, step))
  {
    hide *;
    match step.action
    case Borrow(amount, mode, now) =>
      EnabledMeans(r, step);
      BorrowGuard(r, step);
      BorrowCarries(step.strategy, r, amount, mode, step.t, now);
    case Repay(_, _, _) => DebtCarries(r, step);
    case SwapRateMode(_, _) => DebtCarries(r, step);
    case RebalanceStableRate(_) => DebtCarries(r, step);
    case Deposit(_) => LiquidityCarries(r, step);
    case Withdraw(_, _) => LiquidityCarries(r, step);
    case MintUnbacked(_) => BridgeCarries(r, step);
    case BackUnbacked(_) => BridgeCarries(r, step);
  }

  lemma BorrowGuard(r: Reserve, step: Step)
    requires Enabled(r, step) && step.action.Borrow?
    ensures 0 <= step.action.amount <= r.availableLiquidity && step.t <= step.action.now
    ensures Next(r, step) == AfterBorrow(step.strategy, r, step.action.amount, step.action.mode, step.t, step.action.now)
  {
    hide Inv, AfterBorrow;
  }

  lemma LiquidityCarries(r: Reserve, step: Step)
    requires Enabled(r, step) && (step.action.Deposit? || step.action.Withdraw?)
    ensures CarriesUsage(Next(r, step))
  {
    var (p, t) := (step.strategy, step.t);
    AccrueSound(r, t);
    hide LiquidityIndexAt, VariableIndexAt, Accrue, WithLiquidity, Borrowed, Repaid, Swapped, Rebalanced, MintedUnbacked,
      BackedUnbacked, Priced, Priceable, CarriesUsage, Sound, AmountWithdrawn, AmountRepaid, CanSwap, CanRebalance, CanBack,
      CanWithdraw, MayPay, AfterBorrow;
    match step.action
    case Deposit(amount) => MovedCarries(p, r, amount, 0, t);
    case Withdraw(user, amount) =>
      WithdrawnAtMost(r, user, amount, t);
      MovedCarries(p, r, 0, AmountWithdrawn(r, user, amount, t), t);
  }

  lemma BridgeCarries(r: Reserve, step: Step)
    requires Enabled(r, step) && (step.action.MintUnbacked? || step.action.BackUnbacked?)
    ensures CarriesUsage(Next(r, step))
  {
    var (p, t) := (step.strategy, step.t);
    hide LiquidityIndexAt, VariableIndexAt, Accrue, WithLiquidity, Borrowed, Repaid, Swapped, Rebalanced, MintedUnbacked,
      BackedUnbacked, Priced, Priceable, CarriesUsage, Sound, AmountWithdrawn, AmountRepaid, CanSwap, CanRebalance, CanBack,
      CanWithdraw, MayPay, AfterBorrow;
    match step.action
    case MintUnbacked(amount) =>
      MintedUnbackedSound(r, amount, t);
      SoundCarries(p, MintedUnbacked(r, amount, t));
    case BackUnbacked(b) =>
      BackedUnbackedSound(r, b, t);
      SoundCarries(p, BackedUnbacked(r, b, t));
  }

  lemma DebtCarries(r: Reserve, step: Step)
    requires Enabled(r, step) && (step.action.Repay? || step.action.SwapRateMode? || step.action.RebalanceStableRate?)
    ensures CarriesUsage(Next(r, step))
  {
    var (p, t) := (step.strategy, step.t);
    hide LiquidityIndexAt, VariableIndexAt, Accrue, WithLiquidity, Borrowed, Repaid, Swapped, Rebalanced, MintedUnbacked,
      BackedUnbacked, Priced, Priceable, CarriesUsage, Sound, AmountWithdrawn, AmountRepaid, CanSwap, CanRebalance, CanBack,
      CanWithdraw, MayPay, AfterBorrow;
    match step.action
    case Repay(user, amount, mode) =>
      var repaid := AmountRepaid(r, user, amount, mode, t);
      RepaidSound(r, user, repaid, mode, t);
      SoundCarries(p, Repaid(r, repaid, user.stableBorrowRate, mode, t));
    case SwapRateMode(user, mode) =>
      SwapSound(r, user, mode, t);
      SoundCarries(p, Swapped(r, user, mode, t));
    case RebalanceStableRate(user) =>
      OwesSomething(r, user, t);
      RebalanceSound(r, user, t);
      SoundCarries(p, Rebalanced(r, user, t));
  }

  lemma WithdrawnAtMost(r: Reserve, u: User, amount: int, t: int)
    requires CanWithdraw(r, u, amount, t)
    ensures 0 <= AmountWithdrawn(r, u, amount, t) <= r.availableLiquidity
  {
    hide AmountWithdrawn;
  }

  lemma SoundCarries(p: Strategy, s: Reserve)
    requires ValidStrategy(p) && Sound(s)
    ensures Priceable(p, s) && CarriesUsage(Priced(p, s))
  {
    hide *;
    PricedInv(p, s);
    PricedCarries(p, s);
  }

  lemma MovedCarries(p: Strategy, r: Reserve, added: int, taken: int, t: int)
    requires ValidStrategy(p) && Inv(r) && r.lastUpdateTimestamp <= t && 0 <= r.availableLiquidity + added - taken
    ensures LiquidityIndexAt(r, t) != 0
    ensures var s := WithLiquidity(Accrue(r, t), added, taken); Priceable(p, s) && CarriesUsage(Priced(p, s))
  {
    hide *;
    LiquiditySound(r, added, taken, t);
    SoundCarries(p, WithLiquidity(Accrue(r, t), added, taken));
  }

  lemma BorrowCarries(p: Strategy, r: Reserve, amount: nat, mode: RateMode, t: int, now: int)
    requires Ready(p, r, t) && amount <= r.availableLiquidity && t <= now
    ensures CarriesUsage(AfterBorrow(p, r, amount, mode, t, now))
  {
    BorrowedSound(r, amount, mode, t);
    PricedInv(p, Borrowed(r, amount, mode, t));
    DebtsReadSound(p, r, amount, mode, t, now);
    var s := Borrowed(r, amount, mode, t);
    var s' := DebtsReadAt(WithRates(s, RatesOf(p, s)), t, now);
    assert Sound(WithUsage(s')) by { hide Sound, DebtsReadAt, WithRates, WithUsage, RatesOf, Priceable, Borrowed; }
    hide Sound, Inv, DebtsReadAt, WithRates, RatesOf, Priceable, Borrowed, UsageRatio, CarriesUsage;
    SoundMeans(WithUsage(s'));
    WithUsageCarries(s');
  }

  // ----- rates -----

  /** The variable and the supply rate a freshly priced record quotes, in its own amounts. */
  lemma RecordQuotes(p: Strategy, r: Reserve)
    requires FreshlyPriced(p, r)
    ensures var (debt, available) := (r.totalStableDebt + r.totalVariableDebt, r.availableLiquidity);
      OnCurve(r.variableBorrowRate - p.baseVariableBorrowRate, r.borrowUsageRatio, debt == 0, debt > 0 && available == 0,
        p.optimalUsageRatio, p.variableRateSlope1, p.variableRateSlope2)
    ensures var debt := r.totalStableDebt + r.totalVariableDebt;
      var total := r.totalLiquidity + debt;
      var charged := r.totalVariableDebt * r.variableBorrowRate + r.totalStableDebt * r.averageStableBorrowRate;
      var overall := OverallBorrowRate(r.totalStableDebt, r.totalVariableDebt, r.variableBorrowRate, r.averageStableBorrowRate);
      var (paid, kept) := (2 * (PERCENTAGE_FACTOR * (RAY * (r.liquidityRate * total))), PERCENTAGE_FACTOR - r.reserveFactor);
      if debt == 0 then
        r.liquidityRate == 0
      else
        && kept * (RAY * (2 * charged - 2 * WAD - debt) - total * (overall + RAY)) - PERCENTAGE_FACTOR * (RAY * total) <= paid
        && paid <= kept * (RAY * (2 * charged + 2 * WAD + debt) + total * (overall + RAY)) + PERCENTAGE_FACTOR * (RAY * total)
  {
    hide *;
    RatesArePriced(p, r);
    RatiosArePriced(p, r);
    VariableRateQuoted(p, r.marketStableRate, r.totalStableDebt, r.totalVariableDebt, r.averageStableBorrowRate,
      r.availableLiquidity, r.totalLiquidity);
    DebtOfIs(r);
    if r.totalStableDebt + r.totalVariableDebt > 0 {
      SuppliersGetTheirShare(p, r.marketStableRate, r.totalStableDebt, r.totalVariableDebt, r.averageStableBorrowRate,
        r.availableLiquidity, r.totalLiquidity);
    }
  }

  /** The stable rate it quotes: the market rate, what the curve adds at its usage, and a premium for the stable share of
      its debt. */
  lemma RecordQuotesStable(p: Strategy, r: Reserve) returns (added: int, premium: int)
    requires FreshlyPriced(p, r)
    ensures r.stableBorrowRate == r.marketStableRate + added + premium
    ensures var (debt, available) := (r.totalStableDebt + r.totalVariableDebt, r.availableLiquidity);
      OnCurve(added, r.borrowUsageRatio, debt == 0, debt > 0 && available == 0, p.optimalUsageRatio, p.stableRateSlope1,
        p.stableRateSlope2)
    ensures 0 <= r.totalStableDebt <= r.totalStableDebt + r.totalVariableDebt
    ensures var debt := r.totalStableDebt + r.totalVariableDebt;
      var share := StableToTotalDebtRatio(r.totalStableDebt, debt);
      && Premium(premium, share, p.optimalStableToTotalDebtRatio, p.stableRateExcessOffset)
      && (debt == 0 ==> premium == 0)
  {
    hide *;
    RatesArePriced(p, r);
    RatiosArePriced(p, r);
    added, premium := StableRateQuoted(p, r.marketStableRate, r.totalStableDebt, r.totalVariableDebt,
      r.averageStableBorrowRate, r.availableLiquidity, r.totalLiquidity);
  }

  /** When a borrow is read does not matter to the rates it quotes: they are those of its own transaction. */
  lemma BorrowQuotesAtOnce(p: Strategy, r: Reserve, amount: nat, mode: RateMode, t: int, now: int)
    requires Ready(p, r, t) && amount <= r.availableLiquidity && t <= now
    ensures var (read, atOnce) := (AfterBorrow(p, r, amount, mode, t, now), AfterBorrow(p, r, amount, mode, t, t));
      && read.liquidityRate == atOnce.liquidityRate && read.stableBorrowRate == atOnce.stableBorrowRate
      && read.variableBorrowRate == atOnce.variableBorrowRate
  {
    BorrowedSound(r, amount, mode, t);
    PricedInv(p, Borrowed(r, amount, mode, t));
    DebtsReadSound(p, r, amount, mode, t, t);
    DebtsReadSound(p, r, amount, mode, t, now);
    hide Borrowed, Inv, RatesDefined, InterestRates, UsageRatio, TotalStableDebtAt, NormalizedDebt, RayMul;
  }

  lemma RatiosArePriced(p: Strategy, r: Reserve)
    requires FreshlyPriced(p, r)
    ensures RatesDefined(p, r.totalStableDebt, r.totalVariableDebt, r.availableLiquidity, r.totalLiquidity)
    ensures r.borrowUsageRatio == UsageRatio(r.totalStableDebt + r.totalVariableDebt, r.availableLiquidity)
    ensures r.stableBorrowRate == InterestRates(p, r.marketStableRate, r.totalStableDebt, r.totalVariableDebt,
      r.averageStableBorrowRate, r.availableLiquidity, r.totalLiquidity).stableBorrowRate
  {
    hide InterestRates, UsageRatio, UpToDate;
  }

  // ----- accrual -----

  /** Both indexes accrue by their interest, to the nearest unit: linear for suppliers, compounding for borrowers as long
      as there is variable debt. */
  lemma IndexesAccrue(r: Reserve, t: int)
    requires Inv(r) && r.lastUpdateTimestamp <= t
    ensures Nearest(LiquidityIndexAt(r, t), LinearInterest(r.liquidityRate, t, r.lastUpdateTimestamp) * r.liquidityIndex, RAY)
    ensures r.totalVariableDebt != 0 ==>
      Nearest(VariableIndexAt(r, t), ClosedForm(r.variableBorrowRate, t - r.lastUpdateTimestamp) * r.variableBorrowIndex, RAY)
    ensures r.totalVariableDebt == 0 ==> VariableIndexAt(r, t) == r.variableBorrowIndex
  {
    SupplyIndex(r, t);
    LinearMono(r.liquidityRate, r.lastUpdateTimestamp, t, t);
    CompoundedMono(r.variableBorrowRate, r.variableBorrowRate, r.lastUpdateTimestamp, t, t);
    CompoundedIsClosedForm(r.variableBorrowRate, t, r.lastUpdateTimestamp);
    MulAtNearest(LinearInterest(r.liquidityRate, t, r.lastUpdateTimestamp), r.liquidityIndex, RAY);
    MulAtNearest(CompoundedInterest(r.variableBorrowRate, t, r.lastUpdateTimestamp), r.variableBorrowIndex, RAY);
    hide LinearInterest, CompoundedInterest, ClosedForm, MulAt, Nearest;
  }

  // ----- what stays as it was -----

  /** No action touches the reserve factor or the market rate, and each sets the update time. Supplying, withdrawing and
      the bridge leave the shares and the principal of the debts alone, the others the unbacked tokens and, past accrual,
      both indexes and the treasury. Debt in one mode leaves debt in the other alone. */
  ghost predicate Kept(r: Reserve, step: Step, r': Reserve)
    requires Enabled(r, step) && LiquidityIndexAt(r, step.t) != 0
  {
    var (a, t) := (step.action, step.t);
    && r'.reserveFactor == r.reserveFactor && r'.marketStableRate == r.marketStableRate && r'.lastUpdateTimestamp == t
    && r'.variableBorrowIndex == VariableIndexAt(r, t)
    && (!a.BackUnbacked? ==>
          r'.liquidityIndex == LiquidityIndexAt(r, t) && r'.accruedToTreasuryScaled == TreasuryAt(r, t))
    && (!a.MintUnbacked? && !a.BackUnbacked? ==> r'.unbacked == r.unbacked)
    && (a.Deposit? || a.Withdraw? || a.MintUnbacked? || a.BackUnbacked? ==>
          && r'.scaledVariableDebt == r.scaledVariableDebt && r'.principalStableDebt == r.principalStableDebt
          && r'.totalStableDebtLastUpdated == r.totalStableDebtLastUpdated
          && r'.totalStableDebt == StableDebtOf(r, t)
          && r'.totalVariableDebt == RayMul(r.scaledVariableDebt, VariableIndexAt(r, t)))
    && (a.Deposit? || a.Withdraw? ==> r'.averageStableBorrowRate == r.averageStableBorrowRate)
    && ((a.Borrow? || a.Repay?) && a.mode == Stable ==>
          r'.scaledVariableDebt == r.scaledVariableDebt && r'.totalStableDebtLastUpdated == t)
    && ((a.Borrow? || a.Repay?) && a.mode != Stable ==>
          && r'.principalStableDebt == r.principalStableDebt && r'.averageStableBorrowRate == r.averageStableBorrowRate
          && r'.totalStableDebtLastUpdated == r.totalStableDebtLastUpdated)
    && r'.averageStableBorrowRate == Unpriced(r, step).averageStableBorrowRate
    && (a.SwapRateMode? || a.RebalanceStableRate? ==>
          r'.principalStableDebt == r'.totalStableDebt && r'.totalStableDebtLastUpdated == t)
    && (a.RebalanceStableRate? ==>
          && r'.scaledVariableDebt == r.scaledVariableDebt && r'.totalStableDebt == StableDebtOf(r, t)
          && r'.totalVariableDebt == RayMul(r.scaledVariableDebt, VariableIndexAt(r, t)))
  }

  lemma StepKeeps(r: Reserve, step: Step)
    requires Enabled(r, step)
    ensures LiquidityIndexAt(r, step.t) != 0 && Kept(r, step, Next(r, step))
  {
    hide *;
    EnabledMeans(r, step);
    IndexPositive(r, step.t);
    match step.action
    case Deposit(_) => LiquidityKeeps(r, step);
    case Withdraw(_, _) => LiquidityKeeps(r, step);
    case Borrow(_, _, _) => BorrowKeeps(r, step);
    case Repay(_, _, _) => RepayKeeps(r, step);
    case SwapRateMode(_, _) => SwapKeeps(r, step);
    case RebalanceStableRate(_) => RebalanceKeeps(r, step);
    case MintUnbacked(_) => MintKeeps(r, step);
    case BackUnbacked(_) => BackingKeeps(r, step);
  }

  lemma EnabledMeans(r: Reserve, step: Step)
    requires Enabled(r, step)
    ensures Inv(r) && r.lastUpdateTimestamp <= step.t && Ready(step.strategy, r, step.t)
  {
    hide Inv;
  }

  lemma LiquidityKeeps(r: Reserve, step: Step)
    requires Enabled(r, step) && LiquidityIndexAt(r, step.t) != 0 && (step.action.Deposit? || step.action.Withdraw?)
    ensures Kept(r, step, Next(r, step))
  {
    var (p, t) := (step.strategy, step.t);
    AccrueSound(r, t);
    hide RayMul, RayDiv, LiquidityIndexAt, VariableIndexAt, StableDebtOf, TreasuryAt, AverageStableRate, AverageStableRateRebalance,
      RatesDefined, InterestRates, UsageRatio, UserStableDebt, VariableDebtBalance, AmountWithdrawn, AmountRepaid, MayPay,
      CanSwap, CanRebalance, CanBack, IndexAfterBacking, PremiumToProtocol, NormalizedDebt, TotalStableDebtAt,
      StableDebtBalance, Inv, Sound;
  }

  lemma BorrowKeeps(r: Reserve, step: Step)
    requires Enabled(r, step) && LiquidityIndexAt(r, step.t) != 0 && step.action.Borrow?
    ensures Kept(r, step, Next(r, step))
  {
    hide *;
    EnabledMeans(r, step);
    BorrowGuard(r, step);
    var (a, t) := (step.action, step.t);
    BorrowedSound(r, a.amount, a.mode, t);
    BorrowedKeeps(r, a.amount, a.mode, t);
    ReadAlike(step.strategy, r, a.amount, a.mode, t, a.now);
    BorrowUnpriced(r, step);
    KeptByBorrow(r, step, Borrowed(r, a.amount, a.mode, t), Next(r, step));
  }

  lemma BorrowUnpriced(r: Reserve, step: Step)
    requires Enabled(r, step) && step.action.Borrow?
    ensures LiquidityIndexAt(r, step.t) != 0 && VariableIndexAt(r, step.t) != 0
    ensures Unpriced(r, step) == Borrowed(r, step.action.amount, step.action.mode, step.t)
    ensures ValidStrategy(step.strategy)
  {
    BorrowedSound(r, step.action.amount, step.action.mode, step.t);
    hide LiquidityIndexAt, VariableIndexAt, Borrowed, Inv, Sound;
  }

  /** Reading debts later changes nothing but the two totals, the rates and the ratios. */
  ghost predicate SameButDebts(s: Reserve, s': Reserve) {
    SameButRates(s.(totalStableDebt := s'.totalStableDebt, totalVariableDebt := s'.totalVariableDebt), s')
  }

  lemma ReadAlike(p: Strategy, r: Reserve, amount: nat, mode: RateMode, t: int, now: int)
    requires Ready(p, r, t) && amount <= r.availableLiquidity && t <= now
    requires LiquidityIndexAt(r, t) != 0 && VariableIndexAt(r, t) != 0
    ensures SameButDebts(Borrowed(r, amount, mode, t), AfterBorrow(p, r, amount, mode, t, now))
  {
    BorrowedSound(r, amount, mode, t);
    PricedInv(p, Borrowed(r, amount, mode, t));
    DebtsReadSound(p, r, amount, mode, t, now);
    hide Borrowed, Inv, Sound, RatesDefined, InterestRates, UsageRatio, TotalStableDebtAt, NormalizedDebt, RayMul;
  }

  lemma BorrowedKeeps(r: Reserve, amount: int, mode: RateMode, t: int)
    requires LiquidityIndexAt(r, t) != 0 && VariableIndexAt(r, t) != 0
    ensures DebtActionKeeps(r, Borrowed(r, amount, mode, t), mode, t)
  {
    hide RayMul, RayDiv, LiquidityIndexAt, VariableIndexAt, StableDebtOf, TreasuryAt, AverageStableRate, StableDebtBalance;
  }

  /** What borrowing and repaying have in common. */
  ghost predicate DebtActionKeeps(r: Reserve, s: Reserve, mode: RateMode, t: int)
    requires LiquidityIndexAt(r, t) != 0
  {
    && s.reserveFactor == r.reserveFactor && s.marketStableRate == r.marketStableRate && s.lastUpdateTimestamp == t
    && s.variableBorrowIndex == VariableIndexAt(r, t) && s.liquidityIndex == LiquidityIndexAt(r, t)
    && s.accruedToTreasuryScaled == TreasuryAt(r, t) && s.unbacked == r.unbacked
    && (if mode == Stable then
          s.scaledVariableDebt == r.scaledVariableDebt && s.totalStableDebtLastUpdated == t
        else
          && s.principalStableDebt == r.principalStableDebt && s.averageStableBorrowRate == r.averageStableBorrowRate
          && s.totalStableDebtLastUpdated == r.totalStableDebtLastUpdated)
  }

  lemma KeptByBorrow(r: Reserve, step: Step, s: Reserve, r': Reserve)
    requires Enabled(r, step) && LiquidityIndexAt(r, step.t) != 0 && step.action.Borrow?
    requires Unpriced(r, step) == s && SameButDebts(s, r') && DebtActionKeeps(r, s, step.action.mode, step.t)
    ensures Kept(r, step, r')
  {
    hide Enabled, Unpriced, LiquidityIndexAt, VariableIndexAt, TreasuryAt, StableDebtOf, RayMul;
  }

  lemma RepayKeeps(r: Reserve, step: Step)
    requires Enabled(r, step) && LiquidityIndexAt(r, step.t) != 0 && step.action.Repay?
    ensures Kept(r, step, Next(r, step))
  {
    hide *;
    EnabledMeans(r, step);
    RepaysAre(r, step);
    var (user, mode, t) := (step.action.user, step.action.mode, step.t);
    var repaid := AmountRepaid(r, user, step.action.amount, mode, t);
    RepaidSound(r, user, repaid, mode, t);
    PricedInv(step.strategy, Repaid(r, repaid, user.stableBorrowRate, mode, t));
    RepaidKeeps(r, repaid, user.stableBorrowRate, mode, t);
    PricedAlike(step.strategy, Repaid(r, repaid, user.stableBorrowRate, mode, t));
    KeptByRepay(r, step, Repaid(r, repaid, user.stableBorrowRate, mode, t), Next(r, step));
  }

  lemma RepaysAre(r: Reserve, step: Step)
    requires Enabled(r, step) && step.action.Repay?
    ensures var (user, mode, t) := (step.action.user, step.action.mode, step.t);
      var repaid := AmountRepaid(r, user, step.action.amount, mode, t);
      && MayPay(r, user, repaid, mode, t)
      && LiquidityIndexAt(r, t) != 0 && VariableIndexAt(r, t) != 0
      && var s := Repaid(r, repaid, user.stableBorrowRate, mode, t);
      && Priceable(step.strategy, s) && Next(r, step) == Priced(step.strategy, s) && Unpriced(r, step) == s
      && ValidStrategy(step.strategy)
  {
    var (user, mode, t) := (step.action.user, step.action.mode, step.t);
    RepaidSound(r, user, AmountRepaid(r, user, step.action.amount, mode, t), mode, t);
    PricedInv(step.strategy, Repaid(r, AmountRepaid(r, user, step.action.amount, mode, t), user.stableBorrowRate, mode, t));
    hide LiquidityIndexAt, VariableIndexAt, Repaid, Priced, Priceable, MayPay, AmountRepaid, Sound;
  }

  lemma RepaidKeeps(r: Reserve, repaid: int, userRate: int, mode: RateMode, t: int)
    requires LiquidityIndexAt(r, t) != 0 && VariableIndexAt(r, t) != 0
    ensures DebtActionKeeps(r, Repaid(r, repaid, userRate, mode, t), mode, t)
  {
    hide RayMul, RayDiv, LiquidityIndexAt, VariableIndexAt, StableDebtOf, TreasuryAt, AverageStableRate;
  }

  lemma KeptByRepay(r: Reserve, step: Step, s: Reserve, r': Reserve)
    requires Enabled(r, step) && LiquidityIndexAt(r, step.t) != 0 && step.action.Repay?
    requires Unpriced(r, step) == s && SameButRates(s, r') && DebtActionKeeps(r, s, step.action.mode, step.t)
    ensures Kept(r, step, r')
  {
    hide Enabled, Unpriced, LiquidityIndexAt, VariableIndexAt, TreasuryAt, StableDebtOf, RayMul;
  }

  lemma SwapKeeps(r: Reserve, step: Step)
    requires Enabled(r, step) && LiquidityIndexAt(r, step.t) != 0 && step.action.SwapRateMode?
    ensures Kept(r, step, Next(r, step))
  {
    var (p, t) := (step.strategy, step.t);
    SwapSound(r, step.action.user, step.action.mode, t);
    hide RayMul, RayDiv, LiquidityIndexAt, VariableIndexAt, StableDebtOf, TreasuryAt, AverageStableRate, AverageStableRateRebalance,
      RatesDefined, InterestRates, UsageRatio, UserStableDebt, VariableDebtBalance, AmountWithdrawn, AmountRepaid, MayPay,
      CanSwap, CanRebalance, CanBack, IndexAfterBacking, PremiumToProtocol, NormalizedDebt, TotalStableDebtAt,
      StableDebtBalance, Inv, Sound;
  }

  lemma RebalanceKeeps(r: Reserve, step: Step)
    requires Enabled(r, step) && LiquidityIndexAt(r, step.t) != 0 && step.action.RebalanceStableRate?
    ensures Kept(r, step, Next(r, step))
  {
    var (p, t) := (step.strategy, step.t);
    hide RayMul, RayDiv, LiquidityIndexAt, VariableIndexAt, StableDebtOf, TreasuryAt, AverageStableRate, AverageStableRateRebalance,
      RatesDefined, InterestRates, UsageRatio, UserStableDebt, VariableDebtBalance, AmountWithdrawn, AmountRepaid, MayPay,
      CanSwap, CanRebalance, CanBack, IndexAfterBacking, PremiumToProtocol, NormalizedDebt, TotalStableDebtAt,
      StableDebtBalance, Inv, Sound;
  }

  lemma MintKeeps(r: Reserve, step: Step)
    requires Enabled(r, step) && LiquidityIndexAt(r, step.t) != 0 && step.action.MintUnbacked?
    ensures Kept(r, step, Next(r, step))
  {
    var (p, t) := (step.strategy, step.t);
    MintedUnbackedSound(r, step.action.amount, t);
    hide RayMul, RayDiv, LiquidityIndexAt, VariableIndexAt, StableDebtOf, TreasuryAt, AverageStableRate, AverageStableRateRebalance,
      RatesDefined, InterestRates, UsageRatio, UserStableDebt, VariableDebtBalance, AmountWithdrawn, AmountRepaid, MayPay,
      CanSwap, CanRebalance, CanBack, IndexAfterBacking, PremiumToProtocol, NormalizedDebt, TotalStableDebtAt,
      StableDebtBalance, Inv, Sound;
  }

  lemma BackingKeeps(r: Reserve, step: Step)
    requires Enabled(r, step) && LiquidityIndexAt(r, step.t) != 0 && step.action.BackUnbacked?
    ensures Kept(r, step, Next(r, step))
  {
    var (p, t) := (step.strategy, step.t);
    BackedUnbackedSound(r, step.action.backing, t);
    hide RayMul, RayDiv, LiquidityIndexAt, VariableIndexAt, StableDebtOf, TreasuryAt, AverageStableRate, AverageStableRateRebalance,
      RatesDefined, InterestRates, UsageRatio, UserStableDebt, VariableDebtBalance, AmountWithdrawn, AmountRepaid, MayPay,
      CanSwap, CanRebalance, CanBack, IndexAfterBacking, PremiumToProtocol, NormalizedDebt, TotalStableDebtAt,
      StableDebtBalance, Inv, Sound;
  }

  // ----- average stable rates -----

  /** Over the debt it stands for, a record's average rate charges `charged`, short of a truncation. */
  ghost predicate Averages(s: Reserve, charged: int) {
    if s.totalStableDebt == 0 then
      s.averageStableBorrowRate == 0
    else
      Abs(s.totalStableDebt * s.averageStableBorrowRate - charged) < Abs(s.totalStableDebt)
  }

  /** A stable borrow adds what it is quoted. */
  lemma BorrowAverages(r: Reserve, amount: int, t: int)
    requires LiquidityIndexAt(r, t) != 0 && VariableIndexAt(r, t) != 0
    ensures Averages(Borrowed(r, amount, Stable, t),
      r.averageStableBorrowRate * StableDebtOf(r, t) + r.stableBorrowRate * amount)
  {
    AverageIsWeighted(r.averageStableBorrowRate, StableDebtOf(r, t), amount, r.stableBorrowRate);
    hide RayMul, RayDiv, LiquidityIndexAt, VariableIndexAt, TreasuryAt, StableDebtOf, AverageStableRate;
  }

  /** A stable repayment takes out what the user is charged, unless the debt is written off. */
  lemma RepayAverages(r: Reserve, repaid: int, userRate: int, t: int)
    requires LiquidityIndexAt(r, t) != 0 && VariableIndexAt(r, t) != 0
    ensures var (s, charged) := (Repaid(r, repaid, userRate, Stable, t),
        r.averageStableBorrowRate * StableDebtOf(r, t) - userRate * repaid);
      if Removable(r.averageStableBorrowRate, StableDebtOf(r, t), repaid, userRate) then
        s.totalStableDebt == StableDebtOf(r, t) - repaid && Averages(s, charged)
      else
        s.totalStableDebt == 0 && s.averageStableBorrowRate == 0
  {
    AverageIsWeighted(r.averageStableBorrowRate, StableDebtOf(r, t), -repaid, userRate);
    RemovableExactly(r.averageStableBorrowRate, StableDebtOf(r, t), repaid, userRate);
    assert userRate * -repaid == -(userRate * repaid);
    hide RayMul, RayDiv, LiquidityIndexAt, VariableIndexAt, TreasuryAt, StableDebtOf, AverageStableRate, Removable;
  }

  /** Swapping to variable takes out what the user is charged. Swapping to stable adds what is quoted to what the debt of the
      record before, not yet accrued, was charged. */
  lemma SwapAverages(r: Reserve, u: User, mode: RateMode, t: int)
    requires LiquidityIndexAt(r, t) != 0 && VariableIndexAt(r, t) != 0
    ensures var s := Swapped(r, u, mode, t);
      if mode == Stable then
        Averages(s, r.averageStableBorrowRate * StableDebtOf(r, t) - u.stableBorrowRate * UserStableDebt(u, t))
      else
        var (debt, after) := (VariableDebtBalance(r, u, t), r.totalStableDebt + VariableDebtBalance(r, u, t));
        if after == 0 then
          s.averageStableBorrowRate == 0
        else
          Abs(after * s.averageStableBorrowRate - (r.averageStableBorrowRate * r.totalStableDebt + r.stableBorrowRate * debt))
          < Abs(after)
  {
    AverageIsWeighted(r.averageStableBorrowRate, StableDebtOf(r, t), -UserStableDebt(u, t), u.stableBorrowRate);
    AverageIsWeighted(r.averageStableBorrowRate, r.totalStableDebt, VariableDebtBalance(r, u, t), r.stableBorrowRate);
    assert u.stableBorrowRate * -UserStableDebt(u, t) == -(u.stableBorrowRate * UserStableDebt(u, t)) by {
      hide UserStableDebt;
    }
    hide RayMul, RayDiv, LiquidityIndexAt, VariableIndexAt, TreasuryAt, StableDebtOf, AverageStableRate, UserStableDebt,
      VariableDebtBalance;
  }

  /** Rebalancing takes out what the user is charged and puts back what is quoted, each over its weight in mixed units. */
  lemma RebalanceAverages(r: Reserve, u: User, t: int) returns (without: int)
    requires LiquidityIndexAt(r, t) != 0
    ensures var (total, weighted) := (StableDebtOf(r, t), WadToRay(-UserStableDebt(u, t)));
      if total + weighted == 0 then
        without == 0
      else
        2 * Abs((total + weighted) * without - (r.averageStableBorrowRate * total + u.stableBorrowRate * weighted))
        < 6 * RAY + 3 * Abs(total + weighted)
    ensures var (rest, weighted) := (StableDebtOf(r, t) - UserStableDebt(u, t), WadToRay(UserStableDebt(u, t)));
      var average := Rebalanced(r, u, t).averageStableBorrowRate;
      if rest + weighted == 0 then
        average == 0
      else
        2 * Abs((rest + weighted) * average - (without * rest + r.stableBorrowRate * weighted))
        < 6 * RAY + 3 * Abs(rest + weighted)
  {
    var (total, debt) := (StableDebtOf(r, t), UserStableDebt(u, t));
    without := AverageStableRateRebalance(r.averageStableBorrowRate, total, -debt, u.stableBorrowRate);
    RebalanceIsWeighted(r.averageStableBorrowRate, total, -debt, u.stableBorrowRate);
    RebalanceIsWeighted(without, total - debt, debt, r.stableBorrowRate);
    hide RayMul, LiquidityIndexAt, VariableIndexAt, TreasuryAt, StableDebtOf, AverageStableRateRebalance, UserStableDebt, WadToRay;
  }

  // ----- the two parts of a bridge fee -----

  /** The treasury's part of the fee is the protocol's percentage, to the nearest unit, and becomes shares worth it. The
      rest raises the index by its part of all claims, to the nearest unit of a ray. */
  lemma FeeIsSplit(p: Strategy, r: Reserve, b: Backing, t: int) returns (toProtocol: int, ratio: int)
    requires Ready(p, r, t) && LiquidityIndexAt(r, t) != 0 && CanBack(r, b, t)
    ensures Nearest(toProtocol, b.fee * b.protocolFee, PERCENTAGE_FACTOR) && 0 <= toProtocol <= b.fee
    ensures var (after, claims) :=
        (AfterBackUnbacked(p, r, b, t), Claims(b.scaledATokenSupply, TreasuryAt(r, t), LiquidityIndexAt(r, t)));
      && 2 * Abs(claims * ratio - RAY * (b.fee - toProtocol)) <= claims
      && Nearest(after.liquidityIndex, (ratio + RAY) * LiquidityIndexAt(r, t), RAY)
      && 2 * (RAY * Abs(RayMul(after.accruedToTreasuryScaled, after.liquidityIndex)
                        - (RayMul(TreasuryAt(r, t), after.liquidityIndex) + toProtocol))) < 2 * RAY + after.liquidityIndex
  {
    hide *;
    ReadyMeans(p, r, t);
    BackingParts(r, b, t);
    BackingGrowsIndex(r, b, t);
    AfterBacking(p, r, b, t);
    var index' := IndexAfterBacking(r, b, t);
    toProtocol := PremiumToProtocol(b);
    ratio := FeeRatio(r, b, t);
    PremiumIs(r, b, t);
    var (premium, claims) := (b.fee - toProtocol, Claims(b.scaledATokenSupply, TreasuryAt(r, t), LiquidityIndexAt(r, t)));
    ScaledAmounts(premium, claims);
    DivAtNearest(WadToRay(premium), WadToRay(claims), RAY);
    RayDivIs(WadToRay(premium), WadToRay(claims));
    RatioIs(ratio, premium, claims);
    ProductNearest(ratio + RAY, LiquidityIndexAt(r, t));
    CumulatedIs(LiquidityIndexAt(r, t), claims, premium);
    AddError(TreasuryAt(r, t), toProtocol, index');
  }

  lemma PremiumIs(r: Reserve, b: Backing, t: int)
    requires LiquidityIndexAt(r, t) != 0 && CanBack(r, b, t)
    ensures Nearest(PremiumToProtocol(b), b.fee * b.protocolFee, PERCENTAGE_FACTOR)
  {
    MulAtNearest(b.fee, b.protocolFee, PERCENTAGE_FACTOR);
    hide MulAt, Claims, Nearest;
  }

  lemma RatioIs(ratio: int, premium: int, claims: int)
    requires Nearest(ratio, WadToRay(premium) * RAY, WadToRay(claims))
    ensures 2 * Abs(claims * ratio - RAY * premium) <= claims
  {
    RatioWithoutScale(ratio, premium, claims, RAY);
  }

  lemma CumulatedIs(index: int, claims: int, premium: int)
    requires claims != 0 && WadToRay(claims) != 0
    ensures CumulateToLiquidityIndex(index, claims, premium)
         == RayMul(RayDiv(WadToRay(premium), WadToRay(claims)) + RAY, index)
  {
    hide RayMul, RayDiv, WadToRay;
  }
}
