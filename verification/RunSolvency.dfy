/** Solvency over whole runs: what all shares can claim exceeds liquidity and debt by at most what rounding,
    write-offs and the shortfall of stable debt have added along the way, each carried on at the supply rate. */
module RunSolvency {
  import opened WadRayMath
  import opened Interest
  import opened Shares
  import opened Rates
  import opened RateLaws
  import opened Reserve
  import opened Actions
  import opened Users
  import opened Runs
  import opened Conservation
  import opened BridgeFee
  import opened Solvency

  // ----- every action leaves a freshly priced record -----

  /** The debts of the record are those its shares and principal stand for. */
  ghost predicate Settled(r: Reserve) {
    && r.totalStableDebt == StableDebtOf(r, r.lastUpdateTimestamp)
    && r.totalVariableDebt == RayMul(r.scaledVariableDebt, r.variableBorrowIndex)
  }

  lemma PricesFreshly(p: Strategy, s: Reserve)
    requires ValidStrategy(p) && Sound(s) && Settled(s) && p.reserveFactor == s.reserveFactor
    ensures Priceable(p, s) && FreshlyPriced(p, Priced(p, s))
  {
    PricedInv(p, s);
    var s' := Priced(p, s);
    hide RatesDefined, InterestRates, UsageRatio, Inv, Sound, StableDebtOf, RayMul;
    assert SameButRates(s, s') && Priceable(p, s');
    assert UpToDate(s', s'.lastUpdateTimestamp) by { StableDebtKept(s, s'); }
    PricedForgetsRates(p, s, s');
  }

  lemma StableDebtKept(s: Reserve, s': Reserve)
    requires SameButRates(s, s')
    ensures StableDebtOf(s', s'.lastUpdateTimestamp) == StableDebtOf(s, s.lastUpdateTimestamp)
  {
    hide TotalStableDebtAt;
  }

  /** Stable debt updated now is its principal. */
  lemma FreshDebtIsPrincipal(s: Reserve)
    requires s.totalStableDebtLastUpdated == s.lastUpdateTimestamp && 0 <= s.principalStableDebt && 0 <= s.averageStableBorrowRate
    ensures StableDebtOf(s, s.lastUpdateTimestamp) == s.principalStableDebt
  {
    NoPeriod(s.averageStableBorrowRate, s.lastUpdateTimestamp);
    UnitFactor(s.principalStableDebt);
    hide CompoundedInterest, RayMul;
  }

  lemma AccruedSettled(r: Reserve, added: int, taken: int, t: int)
    requires LiquidityIndexAt(r, t) != 0
    ensures var s := WithLiquidity(Accrue(r, t), added, taken); Settled(s) && s.reserveFactor == r.reserveFactor
  {
    hide LiquidityIndexAt, VariableIndexAt, TreasuryAt, TotalStableDebtAt, RayMul;
  }

  /** Averaging in no debt keeps the average of an up-to-date record, unless there is no debt it could matter to. */
  lemma AverageKept(r: Reserve)
    requires UpToDate(r, r.lastUpdateTimestamp)
    ensures var average := AverageStableRate(r.averageStableBorrowRate, r.totalStableDebt, 0, r.stableBorrowRate);
      average == r.averageStableBorrowRate || r.principalStableDebt == 0
  {
    var n := r.averageStableBorrowRate * r.totalStableDebt;
    StableDebtGrows(r.principalStableDebt, r.averageStableBorrowRate, r.totalStableDebtLastUpdated, r.lastUpdateTimestamp,
      r.lastUpdateTimestamp);
    if r.totalStableDebt != 0 {
      assert r.stableBorrowRate * 0 == 0;
      assert n == r.totalStableDebt * r.averageStableBorrowRate;
      ExactQuotient(n, r.totalStableDebt, r.averageStableBorrowRate);
    }
    hide TruncDiv, StableDebtBalance, TotalStableDebtAt;
  }

  lemma AverageOfNothing(rate: int, rate': int, last: int, t: int)
    ensures TotalStableDebtAt(0, rate, last, t) == TotalStableDebtAt(0, rate', last, t)
  {
    NothingGrows(rate, last, t);
    NothingGrows(rate', last, t);
  }

  lemma MintedSettled(r: Reserve, amount: int, t: int)
    requires UpToDate(r, r.lastUpdateTimestamp) && LiquidityIndexAt(r, t) != 0
    ensures var s := MintedUnbacked(r, amount, t); Settled(s) && s.reserveFactor == r.reserveFactor
  {
    AverageKept(r);
    AverageOfNothing(AverageStableRate(r.averageStableBorrowRate, r.totalStableDebt, 0, r.stableBorrowRate),
      r.averageStableBorrowRate, r.totalStableDebtLastUpdated, t);
    hide LiquidityIndexAt, VariableIndexAt, TreasuryAt, TotalStableDebtAt, RayMul, AverageStableRate, UpToDate;
  }

  lemma BackedSettled(r: Reserve, b: Backing, t: int)
    requires UpToDate(r, r.lastUpdateTimestamp) && LiquidityIndexAt(r, t) != 0 && CanBack(r, b, t)
    requires IndexAfterBacking(r, b, t) != 0
    ensures var s := BackedUnbacked(r, b, t); Settled(s) && s.reserveFactor == r.reserveFactor
  {
    AverageKept(r);
    AverageOfNothing(AverageStableRate(r.averageStableBorrowRate, r.totalStableDebt, 0, r.stableBorrowRate),
      r.averageStableBorrowRate, r.totalStableDebtLastUpdated, t);
    hide LiquidityIndexAt, VariableIndexAt, TreasuryAt, TotalStableDebtAt, RayMul, RayDiv, AverageStableRate, UpToDate,
      IndexAfterBacking, PremiumToProtocol, CanBack;
  }

  lemma RepaidSettled(r: Reserve, u: User, repaid: int, mode: RateMode, t: int)
    requires Inv(r) && r.lastUpdateTimestamp <= t && MayPay(r, u, repaid, mode, t)
    ensures LiquidityIndexAt(r, t) != 0 && VariableIndexAt(r, t) != 0
    ensures var s := Repaid(r, repaid, u.stableBorrowRate, mode, t); Settled(s) && s.reserveFactor == r.reserveFactor
  {
    RepaidSound(r, u, repaid, mode, t);
    var s := Repaid(r, repaid, u.stableBorrowRate, mode, t);
    if mode == Stable {
      hide LiquidityIndexAt, VariableIndexAt, TreasuryAt, StableDebtOf, RayMul, AverageStableRate;
      FreshDebtIsPrincipal(s);
    } else {
      hide LiquidityIndexAt, VariableIndexAt, TreasuryAt, TotalStableDebtAt, RayMul, RayDiv, AverageStableRate, Sound;
    }
  }

  lemma SwappedSettled(r: Reserve, u: User, mode: RateMode, t: int)
    requires Inv(r) && r.lastUpdateTimestamp <= t && CanSwap(r, u, mode, t)
    ensures LiquidityIndexAt(r, t) != 0 && VariableIndexAt(r, t) != 0
    ensures var s := Swapped(r, u, mode, t); Settled(s) && s.reserveFactor == r.reserveFactor
  {
    SwapSound(r, u, mode, t);
    var s := Swapped(r, u, mode, t);
    hide LiquidityIndexAt, VariableIndexAt, TreasuryAt, StableDebtOf, RayMul, RayDiv, AverageStableRate, UserStableDebt,
      VariableDebtBalance, CanSwap;
    FreshDebtIsPrincipal(s);
  }

  lemma RebalancedSettled(r: Reserve, u: User, t: int)
    requires Inv(r) && r.lastUpdateTimestamp <= t && CanRebalance(r, u, t)
    ensures LiquidityIndexAt(r, t) != 0
    ensures var s := Rebalanced(r, u, t); Settled(s) && s.reserveFactor == r.reserveFactor
  {
    RebalanceSound(r, u, t);
    var s := Rebalanced(r, u, t);
    hide LiquidityIndexAt, VariableIndexAt, TreasuryAt, StableDebtOf, RayMul, AverageStableRateRebalance, UserStableDebt,
      CanRebalance;
    FreshDebtIsPrincipal(s);
  }

  /** No stable debt claims never to have been updated. */
  predicate Timed(r: Reserve) {
    r.totalStableDebtLastUpdated != 0 || r.principalStableDebt == 0
  }

  lemma BorrowedSettled(r: Reserve, amount: nat, mode: RateMode, t: int)
    requires Inv(r) && r.lastUpdateTimestamp <= t && amount <= r.availableLiquidity && Timed(r)
    ensures LiquidityIndexAt(r, t) != 0 && VariableIndexAt(r, t) != 0
    ensures var s := Borrowed(r, amount, mode, t); Settled(s) && s.reserveFactor == r.reserveFactor
  {
    BorrowedSound(r, amount, mode, t);
    var s := Borrowed(r, amount, mode, t);
    if mode == Stable {
      hide LiquidityIndexAt, VariableIndexAt, TreasuryAt, StableDebtOf, RayMul, AverageStableRate;
      FreshDebtIsPrincipal(s);
    } else {
      StableViewsAgree(r.principalStableDebt, r.averageStableBorrowRate, r.totalStableDebtLastUpdated, t);
      hide LiquidityIndexAt, VariableIndexAt, TreasuryAt, TotalStableDebtAt, RayMul, RayDiv, StableDebtBalance, Sound;
    }
  }

  /** A borrow read in its own transaction leaves the record that pricing its debts leaves. */
  lemma BorrowReadAtOnce(p: Strategy, r: Reserve, amount: nat, mode: RateMode, t: int)
    requires Ready(p, r, t) && amount <= r.availableLiquidity && Timed(r)
    ensures LiquidityIndexAt(r, t) != 0 && VariableIndexAt(r, t) != 0 && Priceable(p, Borrowed(r, amount, mode, t))
    ensures AfterBorrow(p, r, amount, mode, t, t) == Priced(p, Borrowed(r, amount, mode, t))
  {
    BorrowedSettled(r, amount, mode, t);
    BorrowedSound(r, amount, mode, t);
    var s := Borrowed(r, amount, mode, t);
    PricedInv(p, s);
    DebtsReadSound(p, r, amount, mode, t, t);
    var s0 := WithRates(s, RatesOf(p, s));
    assert s.lastUpdateTimestamp == t by { hide LiquidityIndexAt, VariableIndexAt, TreasuryAt, StableDebtOf, RayMul, RayDiv; }
    assert DebtsReadAt(s0, t, t) == s0 by {
      NoPeriod(s0.variableBorrowRate, t);
      UnitFactor(s0.variableBorrowIndex);
      hide RayMul, CompoundedInterest, TotalStableDebtAt, Borrowed, RatesDefined, InterestRates;
    }
    hide Borrowed, RatesOf, WithRates, DebtsReadAt, Inv;
  }

  /** A borrow is read in its own transaction, and of debt whose update time is known. */
  predicate ReadAtOnce(r: Reserve, step: Step) {
    step.action.Borrow? ==> step.action.now == step.t && Timed(r)
  }

  /** What a step makes of the record before it sets rates and ratios. */
  function Unpriced(r: Reserve, step: Step): Reserve
    requires Enabled(r, step)
  {
    var t := step.t;
    AccrueSound(r, t);
    match step.action
    case Deposit(amount) => WithLiquidity(Accrue(r, t), amount, 0)
    case Withdraw(user, amount) => WithLiquidity(Accrue(r, t), 0, AmountWithdrawn(r, user, amount, t))
    case Borrow(amount, mode, _) =>
      BorrowedSound(r, amount, mode, t);
      Borrowed(r, amount, mode, t)
    case Repay(user, amount, mode) =>
      RepaidSound(r, user, AmountRepaid(r, user, amount, mode, t), mode, t);
      Repaid(r, AmountRepaid(r, user, amount, mode, t), user.stableBorrowRate, mode, t)
    case SwapRateMode(user, mode) =>
      SwapSound(r, user, mode, t);
      Swapped(r, user, mode, t)
    case RebalanceStableRate(user) => Rebalanced(r, user, t)
    case MintUnbacked(amount) => MintedUnbacked(r, amount, t)
    case BackUnbacked(b) =>
      BackedUnbackedSound(r, b, t);
      BackedUnbacked(r, b, t)
  }

  lemma LiquiditySound(r: Reserve, added: int, taken: int, t: int)
    requires Inv(r) && r.lastUpdateTimestamp <= t && 0 <= r.availableLiquidity + added - taken
    ensures LiquidityIndexAt(r, t) != 0
    ensures var s := WithLiquidity(Accrue(r, t), added, taken);
      Sound(s) && Settled(s) && s.reserveFactor == r.reserveFactor
  {
    AccrueSound(r, t);
    AccruedSettled(r, added, taken, t);
    hide LiquidityIndexAt, VariableIndexAt, TreasuryAt, StableDebtOf, RayMul, Settled;
  }

  lemma UnpricedSound(r: Reserve, step: Step)
    requires Enabled(r, step) && UpToDate(r, r.lastUpdateTimestamp) && ReadAtOnce(r, step)
    ensures var s := Unpriced(r, step); Sound(s) && Settled(s) && s.reserveFactor == r.reserveFactor
  {
    var t := step.t;
    AccrueSound(r, t);
    hide LiquidityIndexAt, VariableIndexAt, Sound, Settled, Inv, UpToDate, CanSwap, CanRebalance, CanBack, Borrowed, Repaid,
      Swapped, Rebalanced, MintedUnbacked, BackedUnbacked, Accrue, WithLiquidity, Timed;
    match step.action
    case Deposit(amount) => StepLiquidity(r, step);
    case Withdraw(user, amount) => StepLiquidity(r, step);
    case Borrow(amount, mode, _) =>
      BorrowedSound(r, amount, mode, t);
      BorrowedSettled(r, amount, mode, t);
    case Repay(user, amount, mode) =>
      RepaidSound(r, user, AmountRepaid(r, user, amount, mode, t), mode, t);
      RepaidSettled(r, user, AmountRepaid(r, user, amount, mode, t), mode, t);
    case SwapRateMode(user, mode) =>
      SwapSound(r, user, mode, t);
      SwappedSettled(r, user, mode, t);
    case RebalanceStableRate(user) =>
      OwesSomething(r, user, t);
      RebalanceSound(r, user, t);
      RebalancedSettled(r, user, t);
    case MintUnbacked(amount) =>
      MintedUnbackedSound(r, amount, t);
      MintedSettled(r, amount, t);
    case BackUnbacked(b) =>
      BackedUnbackedSound(r, b, t);
      BackedSettled(r, b, t);
  }

  lemma OwesSomething(r: Reserve, u: User, t: int)
    requires CanRebalance(r, u, t)
    ensures 0 <= UserStableDebt(u, t)
  {
    hide RayMul, AverageStableRateRebalance, StableDebtOf, UserStableDebt;
  }

  lemma StepLiquidity(r: Reserve, step: Step)
    requires Enabled(r, step) && (step.action.Deposit? || step.action.Withdraw?)
    ensures var s := Unpriced(r, step); Sound(s) && Settled(s) && s.reserveFactor == r.reserveFactor
  {
    assert 0 <= r.availableLiquidity by { hide RayMul; }
    hide LiquidityIndexAt, Sound, Settled, Accrue, WithLiquidity, AmountWithdrawn, Inv;
    match step.action
    case Deposit(amount) => LiquiditySound(r, amount, 0, step.t);
    case Withdraw(user, amount) => LiquiditySound(r, 0, AmountWithdrawn(r, user, amount, step.t), step.t);
  }

  /** Every step ends by pricing what it made of the record. */
  lemma StepPrices(r: Reserve, step: Step)
    requires Enabled(r, step) && UpToDate(r, r.lastUpdateTimestamp) && ReadAtOnce(r, step)
    ensures Priceable(step.strategy, Unpriced(r, step))
    ensures Next(r, step) == Priced(step.strategy, Unpriced(r, step))
  {
    UnpricedSound(r, step);
    PricedInv(step.strategy, Unpriced(r, step));
    hide LiquidityIndexAt, VariableIndexAt, Sound, Settled, UpToDate, CanSwap, CanRebalance, CanBack, Borrowed, Repaid,
      Swapped, Rebalanced, MintedUnbacked, BackedUnbacked, Accrue, WithLiquidity, Priced, Priceable, Timed, AmountWithdrawn,
      AmountRepaid, CanWithdraw, CanRepay, AfterBorrow;
    if step.action.Borrow? {
      BorrowReadAtOnce(step.strategy, r, step.action.amount, step.action.mode, step.t);
    }
  }

  /** So every step after a freshly priced record leaves one: rates and ratios are always those of the record's own
      debts, whatever the strategies along the way. */
  lemma StepPricesFreshly(q: Strategy, r: Reserve, step: Step)
    requires FreshlyPriced(q, r) && Enabled(r, step) && step.strategy.reserveFactor == r.reserveFactor && ReadAtOnce(r, step)
    ensures FreshlyPriced(step.strategy, Next(r, step))
  {
    assert UpToDate(r, r.lastUpdateTimestamp) && ValidStrategy(step.strategy) by { hide Priced, Priceable; }
    hide *;
    UnpricedSound(r, step);
    StepPrices(r, step);
    PricesFreshly(step.strategy, Unpriced(r, step));
  }

  // ----- what all shares can claim beyond what is there -----

  /** By how much the claims of suppliers and treasury exceed the liquidity claimed on and the debt. `supply` counts the
      suppliers' shares. */
  function Deficit(r: Reserve, supply: int): int {
    RayMul(supply + r.accruedToTreasuryScaled, r.liquidityIndex) - (r.totalLiquidity + DebtOf(r))
  }

  function SupplyAfter(r: Reserve, supply: int, step: Step): int
    requires Enabled(r, step)
  {
    AccrueSound(r, step.t);
    var index := LiquidityIndexAt(r, step.t);
    match step.action
    case Deposit(amount) => supply + RayDiv(amount, index)
    case Withdraw(user, amount) => supply - RayDiv(AmountWithdrawn(r, user, amount, step.t), index)
    case MintUnbacked(amount) => supply + RayDiv(amount, index)
    case _ => supply
  }

  /** The treasury's new shares are worth what was minted, to one unit and half a share, so accrual adds to the deficit
      what it leaves uncovered and that. */
  lemma AccrualDeficit(r: Reserve, supply: nat, t: int)
    requires Inv(r) && r.lastUpdateTimestamp <= t
    ensures LiquidityIndexAt(r, t) != 0
    ensures var added := Deficit(Accrue(r, t), supply) - Deficit(r, supply)
        - Uncovered(r, supply + r.accruedToTreasuryScaled, t);
      2 * (RAY * added) <= 2 * RAY + LiquidityIndexAt(r, t)
  {
    hide *;
    AccrueSound(r, t);
    IndexPositive(r, t);
    AccrualNonneg(r, t);
    TreasuryIs(r, t);
    var shares := supply + r.accruedToTreasuryScaled;
    AddError(shares, AmountToMint(r, t), LiquidityIndexAt(r, t));
    DeficitOfAccrued(r, supply, t);
    Above(RayMul(shares + RayDiv(AmountToMint(r, t), LiquidityIndexAt(r, t)), LiquidityIndexAt(r, t))
          - (RayMul(shares, LiquidityIndexAt(r, t)) + AmountToMint(r, t)), LiquidityIndexAt(r, t));
  }

  lemma Above(x: int, index: int)
    requires 2 * (RAY * Abs(x)) < 2 * RAY + index
    ensures 2 * (RAY * x) <= 2 * RAY + index
    ensures 2 * (RAY * -x) <= 2 * RAY + index
  {
    MulMono(x, Abs(x), RAY);
    MulMono(-x, Abs(x), RAY);
  }

  lemma IndexPositive(r: Reserve, t: int)
    requires Inv(r) && r.lastUpdateTimestamp <= t
    ensures 0 < LiquidityIndexAt(r, t) && 0 < VariableIndexAt(r, t) && 0 <= r.accruedToTreasuryScaled
    ensures 0 <= r.scaledVariableDebt && RAY <= VariableIndexAt(r, t) && r.totalLiquidity == r.availableLiquidity + r.unbacked
  {
    IndexesGrow(r, t);
    hide RayMul, LiquidityIndexAt, VariableIndexAt;
  }

  lemma TreasuryIs(r: Reserve, t: int)
    requires Inv(r) && r.lastUpdateTimestamp <= t
    ensures LiquidityIndexAt(r, t) != 0
    ensures TreasuryAt(r, t) == r.accruedToTreasuryScaled + RayDiv(AmountToMint(r, t), LiquidityIndexAt(r, t))
  {
    IndexPositive(r, t);
    AccrualNonneg(r, t);
    NoShareOfNothing(DebtAccrued(r, t), r.reserveFactor);
    ZeroShares(LiquidityIndexAt(r, t));
    hide RayDiv, PercentMul, LiquidityIndexAt, DebtAccrued;
  }

  lemma DeficitOfAccrued(r: Reserve, supply: int, t: int)
    requires LiquidityIndexAt(r, t) != 0
    requires TreasuryAt(r, t) == r.accruedToTreasuryScaled + RayDiv(AmountToMint(r, t), LiquidityIndexAt(r, t))
    ensures var (shares, index, minted) := (supply + r.accruedToTreasuryScaled, LiquidityIndexAt(r, t), AmountToMint(r, t));
      Deficit(Accrue(r, t), supply) - Deficit(r, supply) - Uncovered(r, shares, t)
      == RayMul(shares + RayDiv(minted, index), index) - (RayMul(shares, index) + minted)
  {
    var a := Accrue(r, t);
    assert a.liquidityIndex == LiquidityIndexAt(r, t) && a.totalLiquidity == r.totalLiquidity
        && a.accruedToTreasuryScaled == TreasuryAt(r, t) && DebtOf(a) == DebtAt(r, t) by {
      hide RayMul, LiquidityIndexAt, VariableIndexAt, StableDebtOf, TreasuryAt;
    }
    hide RayMul, RayDiv, LiquidityIndexAt, DebtAt, DebtOf, AmountToMint, TreasuryAt, Accrue;
    assert supply + a.accruedToTreasuryScaled == supply + r.accruedToTreasuryScaled + RayDiv(AmountToMint(r, t), LiquidityIndexAt(r, t));
  }

  // ----- what the action itself adds -----

  /** What stable debt is forgiven beyond the amount paid, when a repayment writes it off. */
  function Forgiven(r: Reserve, u: User, repaid: int, mode: RateMode, t: int): int {
    if mode == Stable && !Removable(r.averageStableBorrowRate, StableDebtOf(r, t), repaid, u.stableBorrowRate) then
      StableDebtOf(r, t) - repaid
    else
      0
  }

  function PositivePart(x: int): nat {
    if x < 0 then 0 else x
  }

  /** Twice, in rays. */
  ghost function ActionBound(r: Reserve, step: Step): int
    requires Enabled(r, step)
  {
    var t := step.t;
    AccrueSound(r, t);
    match step.action
    case Deposit(_) => 2 * RAY + LiquidityIndexAt(r, t)
    case Withdraw(_, _) => 2 * RAY + LiquidityIndexAt(r, t)
    case MintUnbacked(_) => 2 * RAY + LiquidityIndexAt(r, t)
    case Borrow(_, _, _) => 2 * RAY + VariableIndexAt(r, t)
    case SwapRateMode(_, _) => 2 * RAY + VariableIndexAt(r, t)
    case Repay(user, amount, mode) =>
      2 * RAY + VariableIndexAt(r, t)
      + 2 * (RAY * PositivePart(Forgiven(r, user, AmountRepaid(r, user, amount, mode, t), mode, t)))
    case RebalanceStableRate(_) => 0
    case BackUnbacked(b) =>
      8 * RAY + 2 * FeeRatio(r, b, t) + Claims(b.scaledATokenSupply, TreasuryAt(r, t), LiquidityIndexAt(r, t))
      + b.scaledATokenSupply + TreasuryAt(r, t) + IndexAfterBacking(r, b, t)
  }

  /** Two records with the same claims. */
  lemma DeficitByDebt(a: Reserve, s: Reserve, supply: int)
    requires s.accruedToTreasuryScaled == a.accruedToTreasuryScaled && s.liquidityIndex == a.liquidityIndex
    ensures Deficit(s, supply) - Deficit(a, supply) == a.totalLiquidity + DebtOf(a) - (s.totalLiquidity + DebtOf(s))
  {
    hide RayMul;
  }

  lemma AccruedFields(r: Reserve, t: int)
    requires LiquidityIndexAt(r, t) != 0
    ensures var a := Accrue(r, t);
      && a.liquidityIndex == LiquidityIndexAt(r, t) && a.accruedToTreasuryScaled == TreasuryAt(r, t)
      && a.totalLiquidity == r.totalLiquidity && a.availableLiquidity == r.availableLiquidity && a.unbacked == r.unbacked
      && DebtOf(a) == DebtAt(r, t)
  {
    hide RayMul, LiquidityIndexAt, VariableIndexAt, StableDebtOf, TreasuryAt;
  }

  lemma MovedFields(a: Reserve, added: int, taken: int)
    requires a.totalLiquidity == a.availableLiquidity + a.unbacked
    ensures var s := WithLiquidity(a, added, taken);
      && s.liquidityIndex == a.liquidityIndex && s.accruedToTreasuryScaled == a.accruedToTreasuryScaled
      && s.totalLiquidity == a.totalLiquidity + added - taken && DebtOf(s) == DebtOf(a)
  {
  }

  lemma SharesIn(r: Reserve, supply: nat, amount: nat, s: Reserve, t: int)
    requires Inv(r) && r.lastUpdateTimestamp <= t && LiquidityIndexAt(r, t) > 0
    requires s.liquidityIndex == LiquidityIndexAt(r, t) && s.accruedToTreasuryScaled == TreasuryAt(r, t)
    requires s.totalLiquidity == r.totalLiquidity + amount && DebtOf(s) == DebtAt(r, t)
    ensures var added := Deficit(s, supply + RayDiv(amount, LiquidityIndexAt(r, t))) - Deficit(Accrue(r, t), supply);
      2 * (RAY * added) <= 2 * RAY + LiquidityIndexAt(r, t)
  {
    hide *;
    var (index, shares) := (LiquidityIndexAt(r, t), supply + TreasuryAt(r, t));
    TreasuryNonneg(r, t);
    AccruedFields(r, t);
    AddError(shares, amount, index);
    DeficitIs(s, supply + RayDiv(amount, index));
    DeficitIs(Accrue(r, t), supply);
    Above(RayMul(shares + RayDiv(amount, index), index) - (RayMul(shares, index) + amount), index);
    assert supply + RayDiv(amount, index) + TreasuryAt(r, t) == shares + RayDiv(amount, index);
  }

  lemma SharesOut(r: Reserve, supply: nat, amount: nat, s: Reserve, t: int)
    requires Inv(r) && r.lastUpdateTimestamp <= t && LiquidityIndexAt(r, t) > 0
    requires s.liquidityIndex == LiquidityIndexAt(r, t) && s.accruedToTreasuryScaled == TreasuryAt(r, t)
    requires s.totalLiquidity == r.totalLiquidity - amount && DebtOf(s) == DebtAt(r, t)
    requires RayDiv(amount, LiquidityIndexAt(r, t)) <= supply
    ensures var added := Deficit(s, supply - RayDiv(amount, LiquidityIndexAt(r, t))) - Deficit(Accrue(r, t), supply);
      2 * (RAY * added) <= 2 * RAY + LiquidityIndexAt(r, t)
  {
    hide *;
    var (index, shares) := (LiquidityIndexAt(r, t), supply + TreasuryAt(r, t));
    TreasuryNonneg(r, t);
    AccruedFields(r, t);
    SubError(shares, amount, index);
    DeficitIs(s, supply - RayDiv(amount, index));
    DeficitIs(Accrue(r, t), supply);
    Above(RayMul(shares - RayDiv(amount, index), index) - (RayMul(shares, index) - amount), index);
    assert supply - RayDiv(amount, index) + TreasuryAt(r, t) == shares - RayDiv(amount, index);
  }

  lemma DeficitIs(r: Reserve, supply: int)
    ensures Deficit(r, supply) == RayMul(supply + r.accruedToTreasuryScaled, r.liquidityIndex) - (r.totalLiquidity + DebtOf(r))
  {
    hide RayMul, DebtOf;
  }

  lemma TreasuryNonneg(r: Reserve, t: int)
    requires Inv(r) && r.lastUpdateTimestamp <= t
    ensures LiquidityIndexAt(r, t) != 0 && 0 <= TreasuryAt(r, t)
  {
    AccrueSound(r, t);
    hide LiquidityIndexAt, VariableIndexAt, StableDebtOf, TreasuryAt, RayMul;
  }

  lemma DepositDeficit(r: Reserve, supply: nat, amount: nat, t: int)
    requires Inv(r) && r.lastUpdateTimestamp <= t
    ensures LiquidityIndexAt(r, t) != 0
    ensures var s := WithLiquidity(Accrue(r, t), amount, 0);
      2 * (RAY * (Deficit(s, supply + RayDiv(amount, LiquidityIndexAt(r, t))) - Deficit(Accrue(r, t), supply)))
      <= 2 * RAY + LiquidityIndexAt(r, t)
  {
    hide *;
    IndexPositive(r, t);
    AccruedFields(r, t);
    MovedFields(Accrue(r, t), amount, 0);
    SharesIn(r, supply, amount, WithLiquidity(Accrue(r, t), amount, 0), t);
  }

  lemma WithdrawDeficit(r: Reserve, supply: nat, amount: nat, t: int)
    requires Inv(r) && r.lastUpdateTimestamp <= t && LiquidityIndexAt(r, t) != 0
    requires RayDiv(amount, LiquidityIndexAt(r, t)) <= supply
    ensures var s := WithLiquidity(Accrue(r, t), 0, amount);
      2 * (RAY * (Deficit(s, supply - RayDiv(amount, LiquidityIndexAt(r, t))) - Deficit(Accrue(r, t), supply)))
      <= 2 * RAY + LiquidityIndexAt(r, t)
  {
    hide *;
    IndexPositive(r, t);
    AccruedFields(r, t);
    MovedFields(Accrue(r, t), 0, amount);
    SharesOut(r, supply, amount, WithLiquidity(Accrue(r, t), 0, amount), t);
  }

  lemma MintDeficit(r: Reserve, supply: nat, amount: nat, t: int)
    requires Inv(r) && r.lastUpdateTimestamp <= t
    ensures LiquidityIndexAt(r, t) != 0
    ensures 2 * (RAY * (Deficit(MintedUnbacked(r, amount, t), supply + RayDiv(amount, LiquidityIndexAt(r, t)))
                        - Deficit(Accrue(r, t), supply)))
         <= 2 * RAY + LiquidityIndexAt(r, t)
  {
    hide *;
    IndexPositive(r, t);
    MintedFields(r, amount, t);
    SharesIn(r, supply, amount, MintedUnbacked(r, amount, t), t);
  }

  lemma MintedFields(r: Reserve, amount: int, t: int)
    requires LiquidityIndexAt(r, t) != 0 && r.totalLiquidity == r.availableLiquidity + r.unbacked
    ensures var s := MintedUnbacked(r, amount, t);
      && s.liquidityIndex == LiquidityIndexAt(r, t) && s.accruedToTreasuryScaled == TreasuryAt(r, t)
      && s.totalLiquidity == r.totalLiquidity + amount && DebtOf(s) == DebtAt(r, t)
  {
    hide RayMul, LiquidityIndexAt, VariableIndexAt, StableDebtOf, TreasuryAt, AverageStableRate;
  }

  /** Liquidity and debt changed together by `change`, to rounding. */
  lemma DebtSide(r: Reserve, supply: int, s: Reserve, t: int, change: int)
    requires LiquidityIndexAt(r, t) != 0 && r.totalLiquidity == r.availableLiquidity + r.unbacked
    requires s.liquidityIndex == LiquidityIndexAt(r, t) && s.accruedToTreasuryScaled == TreasuryAt(r, t)
    requires s.totalLiquidity == s.availableLiquidity + r.unbacked
    requires change == s.availableLiquidity + s.totalStableDebt + s.totalVariableDebt - (r.availableLiquidity + DebtAt(r, t))
    ensures Deficit(s, supply) - Deficit(Accrue(r, t), supply) == -change
  {
    hide *;
    AccruedFields(r, t);
    DeficitByDebt(Accrue(r, t), s, supply);
    DebtOfIs(s);
  }

  lemma DebtOfIs(s: Reserve)
    ensures DebtOf(s) == s.totalStableDebt + s.totalVariableDebt
  {
  }

  lemma BorrowDeficit(r: Reserve, supply: int, amount: nat, mode: RateMode, t: int)
    requires Inv(r) && r.lastUpdateTimestamp <= t && amount <= r.availableLiquidity && Timed(r)
    ensures LiquidityIndexAt(r, t) != 0 && VariableIndexAt(r, t) != 0
    ensures 2 * (RAY * (Deficit(Borrowed(r, amount, mode, t), supply) - Deficit(Accrue(r, t), supply)))
         <= 2 * RAY + VariableIndexAt(r, t)
  {
    hide *;
    IndexPositive(r, t);
    BorrowConserves(r, amount, mode, t);
    NothingUnread(r, t);
    BorrowedFields(r, amount, mode, t);
    var s := Borrowed(r, amount, mode, t);
    var change := s.availableLiquidity + s.totalStableDebt + s.totalVariableDebt - (r.availableLiquidity + DebtAt(r, t));
    DebtSide(r, supply, s, t, change);
    if mode == Stable {
      Unchanged(change, VariableIndexAt(r, t));
    } else {
      Above(change, VariableIndexAt(r, t));
    }
  }

  lemma Unchanged(x: int, index: nat)
    requires x == 0
    ensures 2 * (RAY * -x) <= 2 * RAY + index
  {
  }

  lemma NothingUnread(r: Reserve, t: int)
    requires Timed(r)
    ensures r.totalStableDebtLastUpdated == 0 ==> StableDebtOf(r, t) == r.principalStableDebt == 0
  {
    NothingGrows(r.averageStableBorrowRate, r.totalStableDebtLastUpdated, t);
    hide TotalStableDebtAt;
  }

  lemma BorrowedFields(r: Reserve, amount: int, mode: RateMode, t: int)
    requires LiquidityIndexAt(r, t) != 0 && VariableIndexAt(r, t) != 0
    ensures var s := Borrowed(r, amount, mode, t);
      && s.liquidityIndex == LiquidityIndexAt(r, t) && s.accruedToTreasuryScaled == TreasuryAt(r, t)
      && s.variableBorrowIndex == VariableIndexAt(r, t) && s.totalLiquidity == s.availableLiquidity + r.unbacked
  {
    hide RayMul, RayDiv, LiquidityIndexAt, VariableIndexAt, StableDebtOf, TreasuryAt, AverageStableRate, StableDebtBalance;
  }

  lemma RepayDeficit(r: Reserve, supply: int, u: User, repaid: int, mode: RateMode, t: int)
    requires Inv(r) && r.lastUpdateTimestamp <= t && MayPay(r, u, repaid, mode, t)
    ensures LiquidityIndexAt(r, t) != 0 && VariableIndexAt(r, t) != 0
    ensures 2 * (RAY * (Deficit(Repaid(r, repaid, u.stableBorrowRate, mode, t), supply) - Deficit(Accrue(r, t), supply)))
         <= 2 * RAY + VariableIndexAt(r, t) + 2 * (RAY * PositivePart(Forgiven(r, u, repaid, mode, t)))
  {
    hide *;
    IndexPositive(r, t);
    RepayConserves(r, u, repaid, mode, t);
    RepaidFields(r, repaid, u.stableBorrowRate, mode, t);
    ForgivenIs(r, u, repaid, mode, t);
    var s := Repaid(r, repaid, u.stableBorrowRate, mode, t);
    var change := s.availableLiquidity + s.totalStableDebt + s.totalVariableDebt - (r.availableLiquidity + DebtAt(r, t));
    DebtSide(r, supply, s, t, change);
    ForgivenPart(Forgiven(r, u, repaid, mode, t));
    if mode == Stable {
      MulMono(-change, PositivePart(Forgiven(r, u, repaid, mode, t)), RAY);
    } else {
      Above(change, VariableIndexAt(r, t));
    }
  }

  lemma ForgivenPart(x: int)
    ensures x <= PositivePart(x) && 0 <= RAY * PositivePart(x)
  {
  }

  lemma ForgivenIs(r: Reserve, u: User, repaid: int, mode: RateMode, t: int)
    ensures var removable := Removable(r.averageStableBorrowRate, StableDebtOf(r, t), repaid, u.stableBorrowRate);
      Forgiven(r, u, repaid, mode, t) == if mode == Stable && !removable then StableDebtOf(r, t) - repaid else 0
  {
    hide Removable, StableDebtOf;
  }

  lemma RepaidFields(r: Reserve, repaid: int, userRate: int, mode: RateMode, t: int)
    requires LiquidityIndexAt(r, t) != 0 && VariableIndexAt(r, t) != 0
    ensures var s := Repaid(r, repaid, userRate, mode, t);
      && s.liquidityIndex == LiquidityIndexAt(r, t) && s.accruedToTreasuryScaled == TreasuryAt(r, t)
      && s.variableBorrowIndex == VariableIndexAt(r, t) && s.totalLiquidity == s.availableLiquidity + r.unbacked
  {
    hide RayMul, RayDiv, LiquidityIndexAt, VariableIndexAt, StableDebtOf, TreasuryAt, AverageStableRate;
  }

  lemma SwapDeficit(r: Reserve, supply: int, u: User, mode: RateMode, t: int)
    requires Inv(r) && r.lastUpdateTimestamp <= t && CanSwap(r, u, mode, t)
    ensures LiquidityIndexAt(r, t) != 0 && VariableIndexAt(r, t) != 0
    ensures 2 * (RAY * (Deficit(Swapped(r, u, mode, t), supply) - Deficit(Accrue(r, t), supply)))
         <= 2 * RAY + VariableIndexAt(r, t)
  {
    hide *;
    IndexPositive(r, t);
    var index := VariableIndexAt(r, t);
    SwappedFields(r, u, mode, t);
    MaySwap(r, u, mode, t);
    var s := Swapped(r, u, mode, t);
    var change := s.availableLiquidity + s.totalStableDebt + s.totalVariableDebt - (r.availableLiquidity + DebtAt(r, t));
    DebtSide(r, supply, s, t, change);
    if mode == Stable {
      AddError(r.scaledVariableDebt, UserStableDebt(u, t), index);
    } else {
      VariableViewsAgree(r, u, t);
      WholeHolding(u.scaledVariableDebt, index);
      SplitHolding(r.scaledVariableDebt, u.scaledVariableDebt, index);
      AtMostOne(change, index);
    }
    Above(change, index);
  }

  lemma AtMostOne(x: int, index: int)
    requires Abs(x) <= 1 && 0 < index
    ensures 2 * (RAY * Abs(x)) < 2 * RAY + index
  {
    MulMono(Abs(x), 1, RAY);
  }

  lemma MaySwap(r: Reserve, u: User, mode: RateMode, t: int)
    requires CanSwap(r, u, mode, t)
    ensures if mode == Stable then 0 <= UserStableDebt(u, t) else 0 <= u.scaledVariableDebt <= r.scaledVariableDebt
  {
    hide UserStableDebt, Removable, StableDebtOf;
  }

  lemma SwappedFields(r: Reserve, u: User, mode: RateMode, t: int)
    requires LiquidityIndexAt(r, t) != 0 && VariableIndexAt(r, t) != 0
    ensures var (s, index) := (Swapped(r, u, mode, t), VariableIndexAt(r, t));
      && s.liquidityIndex == LiquidityIndexAt(r, t) && s.accruedToTreasuryScaled == TreasuryAt(r, t)
      && s.totalLiquidity == s.availableLiquidity + r.unbacked && s.availableLiquidity == r.availableLiquidity
      && DebtAt(r, t) == StableDebtOf(r, t) + RayMul(r.scaledVariableDebt, index)
      && (if mode == Stable then
            && s.totalStableDebt == StableDebtOf(r, t) - UserStableDebt(u, t)
            && s.totalVariableDebt == RayMul(r.scaledVariableDebt + RayDiv(UserStableDebt(u, t), index), index)
          else
            && s.totalStableDebt == StableDebtOf(r, t) + VariableDebtBalance(r, u, t)
            && s.totalVariableDebt == RayMul(r.scaledVariableDebt - RayDiv(VariableDebtBalance(r, u, t), index), index))
  {
    hide RayMul, RayDiv, LiquidityIndexAt, VariableIndexAt, StableDebtOf, TreasuryAt, AverageStableRate, UserStableDebt,
      VariableDebtBalance;
  }

  lemma RebalanceDeficit(r: Reserve, supply: int, u: User, t: int)
    requires Inv(r) && r.lastUpdateTimestamp <= t
    ensures LiquidityIndexAt(r, t) != 0
    ensures Deficit(Rebalanced(r, u, t), supply) == Deficit(Accrue(r, t), supply)
  {
    hide *;
    IndexPositive(r, t);
    RebalancedFields(r, u, t);
    DebtSide(r, supply, Rebalanced(r, u, t), t, 0);
  }

  lemma RebalancedFields(r: Reserve, u: User, t: int)
    requires LiquidityIndexAt(r, t) != 0
    ensures var s := Rebalanced(r, u, t);
      && s.liquidityIndex == LiquidityIndexAt(r, t) && s.accruedToTreasuryScaled == TreasuryAt(r, t)
      && s.totalLiquidity == s.availableLiquidity + r.unbacked && s.availableLiquidity == r.availableLiquidity
      && s.totalStableDebt + s.totalVariableDebt == DebtAt(r, t)
  {
    hide RayMul, LiquidityIndexAt, VariableIndexAt, StableDebtOf, TreasuryAt, AverageStableRateRebalance, UserStableDebt;
  }

  lemma BackingDeficit(r: Reserve, b: Backing, t: int)
    requires Inv(r) && r.lastUpdateTimestamp <= t && LiquidityIndexAt(r, t) != 0 && CanBack(r, b, t)
    ensures IndexAfterBacking(r, b, t) != 0
    ensures 2 * (RAY * (Deficit(BackedUnbacked(r, b, t), b.scaledATokenSupply) - Deficit(Accrue(r, t), b.scaledATokenSupply)))
         <= 8 * RAY + 2 * FeeRatio(r, b, t) + Claims(b.scaledATokenSupply, TreasuryAt(r, t), LiquidityIndexAt(r, t))
            + b.scaledATokenSupply + TreasuryAt(r, t) + IndexAfterBacking(r, b, t)
  {
    hide *;
    IndexPositive(r, t);
    BackingGrowsIndex(r, b, t);
    BackingParts(r, b, t);
    FeeShared(r, b, t);
    BackedFields(r, b, t);
    AccruedFields(r, t);
    var (supply, treasury, index, index') :=
      (b.scaledATokenSupply, TreasuryAt(r, t), LiquidityIndexAt(r, t), IndexAfterBacking(r, b, t));
    var shares := RayDiv(PremiumToProtocol(b), index');
    DivAtNearest(PremiumToProtocol(b), index', RAY);
    RayDivIs(PremiumToProtocol(b), index');
    SplitHolding(supply + treasury, supply, index);
    SplitHolding(supply + (treasury + shares), supply, index');
    DeficitIs(Accrue(r, t), supply);
    DeficitIs(BackedUnbacked(r, b, t), supply);
    ClaimsAre(supply, treasury, index);
    ClaimsAre(supply, treasury + shares, index');
    SplitClaims(Claims(supply, treasury, index), Claims(supply, treasury + shares, index'),
      RayMul(supply + treasury, index), RayMul(supply + (treasury + shares), index'), b.fee,
      4 * RAY + 2 * FeeRatio(r, b, t) + Claims(supply, treasury, index) + supply + treasury + index');
  }

  lemma RayDivIs(a: int, b: int)
    requires b != 0
    ensures RayDiv(a, b) == DivAt(a, b, RAY)
  {
    hide DivAt;
  }

  lemma ClaimsAre(supply: int, treasury: int, index: int)
    ensures Claims(supply, treasury, index) == RayMul(supply, index) + RayMul(treasury, index)
  {
    hide RayMul;
  }

  /** Counting suppliers and treasury apart or together makes a difference of one unit. */
  lemma SplitClaims(before: int, after: int, before': int, after': int, fee: int, bound: int)
    requires 2 * (RAY * Abs(after - before - fee)) <= bound
    requires Abs(before - before') <= 1 && Abs(after - after') <= 1
    ensures 2 * (RAY * (after' - before' - fee)) <= bound + 4 * RAY
  {
    MulMono(after' - before' - fee, Abs(after - before - fee) + 2, RAY);
    assert RAY * (Abs(after - before - fee) + 2) == RAY * Abs(after - before - fee) + 2 * RAY;
  }

  lemma BackedFields(r: Reserve, b: Backing, t: int)
    requires LiquidityIndexAt(r, t) != 0 && CanBack(r, b, t) && IndexAfterBacking(r, b, t) != 0
    requires r.totalLiquidity == r.availableLiquidity + r.unbacked
    ensures var s := BackedUnbacked(r, b, t);
      && s.liquidityIndex == IndexAfterBacking(r, b, t)
      && s.accruedToTreasuryScaled == TreasuryAt(r, t) + RayDiv(PremiumToProtocol(b), IndexAfterBacking(r, b, t))
      && s.totalLiquidity == r.totalLiquidity + b.fee && DebtOf(s) == DebtAt(r, t)
  {
    hide RayMul, RayDiv, LiquidityIndexAt, VariableIndexAt, StableDebtOf, TreasuryAt, AverageStableRate, IndexAfterBacking,
      PremiumToProtocol, CanBack;
  }

  // ----- one step -----

  /** The step passes its guard, keeps the reserve factor, and moves shares the suppliers have. */
  predicate Fits(r: Reserve, supply: int, step: Step)
    requires Inv(r)
  {
    && Guard(r, step) && ReadAtOnce(r, step)
    && step.strategy.reserveFactor == r.reserveFactor && step.t != 0
    && 0 <= SupplyAfter(r, supply, step)
    && (step.action.BackUnbacked? ==> step.action.backing.scaledATokenSupply == supply)
  }

  lemma ActionDeficit(r: Reserve, supply: nat, step: Step)
    requires Inv(r) && Fits(r, supply, step)
    ensures LiquidityIndexAt(r, step.t) != 0
    ensures 2 * (RAY * (Deficit(Unpriced(r, step), SupplyAfter(r, supply, step)) - Deficit(Accrue(r, step.t), supply)))
         <= ActionBound(r, step)
  {
    hide *;
    if step.action.Deposit? || step.action.MintUnbacked? {
      SharesAction(r, supply, step);
    } else if step.action.Withdraw? {
      WithdrawAction(r, supply, step);
    } else if step.action.BackUnbacked? {
      BackingAction(r, supply, step);
    } else if step.action.Borrow? || step.action.Repay? {
      DebtAction(r, supply, step);
    } else {
      ModeAction(r, supply, step);
    }
  }

  lemma SharesAction(r: Reserve, supply: nat, step: Step)
    requires Inv(r) && Fits(r, supply, step) && (step.action.Deposit? || step.action.MintUnbacked?)
    ensures LiquidityIndexAt(r, step.t) != 0
    ensures 2 * (RAY * (Deficit(Unpriced(r, step), SupplyAfter(r, supply, step)) - Deficit(Accrue(r, step.t), supply)))
         <= ActionBound(r, step)
  {
    var t := step.t;
    hide LiquidityIndexAt, VariableIndexAt, Inv, CanSwap, CanRebalance, CanBack, Borrowed, Repaid, Swapped, Rebalanced,
      MintedUnbacked, BackedUnbacked, Accrue, WithLiquidity, Timed, Deficit, Forgiven, FeeRatio, Claims, RayDiv, RayMul,
      TreasuryAt, IndexAfterBacking, StableDebtOf, AmountRepaid, AmountWithdrawn, MayPay;
    match step.action
    case Deposit(amount) => DepositDeficit(r, supply, amount, t);
    case MintUnbacked(amount) => MintDeficit(r, supply, amount, t);
  }

  lemma WithdrawAction(r: Reserve, supply: nat, step: Step)
    requires Inv(r) && Fits(r, supply, step) && step.action.Withdraw?
    ensures LiquidityIndexAt(r, step.t) != 0
    ensures 2 * (RAY * (Deficit(Unpriced(r, step), SupplyAfter(r, supply, step)) - Deficit(Accrue(r, step.t), supply)))
         <= ActionBound(r, step)
  {
    var t := step.t;
    AccrueSound(r, t);
    hide LiquidityIndexAt, VariableIndexAt, Inv, CanSwap, CanRebalance, CanBack, Borrowed, Repaid, Swapped, Rebalanced,
      MintedUnbacked, BackedUnbacked, Accrue, WithLiquidity, Timed, Deficit, Forgiven, FeeRatio, Claims, RayDiv, RayMul,
      TreasuryAt, IndexAfterBacking, StableDebtOf, AmountRepaid, AmountWithdrawn, MayPay;
    match step.action
    case Withdraw(user, amount) => WithdrawDeficit(r, supply, AmountWithdrawn(r, user, amount, t), t);
  }

  lemma BackingAction(r: Reserve, supply: nat, step: Step)
    requires Inv(r) && Fits(r, supply, step) && step.action.BackUnbacked?
    ensures LiquidityIndexAt(r, step.t) != 0
    ensures 2 * (RAY * (Deficit(Unpriced(r, step), SupplyAfter(r, supply, step)) - Deficit(Accrue(r, step.t), supply)))
         <= ActionBound(r, step)
  {
    var t := step.t;
    hide LiquidityIndexAt, VariableIndexAt, Inv, CanSwap, CanRebalance, CanBack, Borrowed, Repaid, Swapped, Rebalanced,
      MintedUnbacked, BackedUnbacked, Accrue, WithLiquidity, Timed, Deficit, Forgiven, FeeRatio, Claims, RayDiv, RayMul,
      TreasuryAt, IndexAfterBacking, StableDebtOf, AmountRepaid, AmountWithdrawn, MayPay;
    match step.action
    case BackUnbacked(b) => BackingDeficit(r, b, t);
  }

  lemma DebtAction(r: Reserve, supply: nat, step: Step)
    requires Inv(r) && Fits(r, supply, step) && (step.action.Borrow? || step.action.Repay?)
    ensures LiquidityIndexAt(r, step.t) != 0
    ensures 2 * (RAY * (Deficit(Unpriced(r, step), SupplyAfter(r, supply, step)) - Deficit(Accrue(r, step.t), supply)))
         <= ActionBound(r, step)
  {
    var t := step.t;
    hide LiquidityIndexAt, VariableIndexAt, Inv, CanSwap, CanRebalance, CanBack, Borrowed, Repaid, Swapped, Rebalanced,
      MintedUnbacked, BackedUnbacked, Accrue, WithLiquidity, Timed, Deficit, Forgiven, FeeRatio, Claims, RayDiv, RayMul,
      TreasuryAt, IndexAfterBacking, StableDebtOf, AmountRepaid, AmountWithdrawn, MayPay;
    match step.action
    case Borrow(amount, mode, _) => BorrowDeficit(r, supply, amount, mode, t);
    case Repay(user, amount, mode) => RepayDeficit(r, supply, user, AmountRepaid(r, user, amount, mode, t), mode, t);
  }

  lemma ModeAction(r: Reserve, supply: nat, step: Step)
    requires Inv(r) && Fits(r, supply, step) && (step.action.SwapRateMode? || step.action.RebalanceStableRate?)
    ensures LiquidityIndexAt(r, step.t) != 0
    ensures 2 * (RAY * (Deficit(Unpriced(r, step), SupplyAfter(r, supply, step)) - Deficit(Accrue(r, step.t), supply)))
         <= ActionBound(r, step)
  {
    var t := step.t;
    hide LiquidityIndexAt, VariableIndexAt, Inv, CanSwap, CanRebalance, CanBack, Borrowed, Repaid, Swapped, Rebalanced,
      MintedUnbacked, BackedUnbacked, Accrue, WithLiquidity, Timed, Deficit, Forgiven, FeeRatio, Claims, RayDiv, RayMul,
      TreasuryAt, IndexAfterBacking, StableDebtOf, AmountRepaid, AmountWithdrawn, MayPay;
    match step.action
    case SwapRateMode(user, mode) => SwapDeficit(r, supply, user, mode, t);
    case RebalanceStableRate(user) => RebalanceDeficit(r, supply, user, t);
  }

  lemma PricedDeficit(p: Strategy, s: Reserve, supply: int)
    requires Priceable(p, s)
    ensures Deficit(Priced(p, s), supply) == Deficit(s, supply)
  {
    PricedIs(p, s);
    hide RayMul, Priced, Priceable, RatesDefined, InterestRates, UsageRatio;
  }

  /** What an accrual leaves uncovered and the step's rounding are all that is added to the deficit. */
  lemma StepDeficit(r: Reserve, supply: nat, step: Step)
    requires Inv(r) && Fits(r, supply, step) && UpToDate(r, r.lastUpdateTimestamp)
    ensures LiquidityIndexAt(r, step.t) != 0
    ensures var uncovered := Uncovered(r, supply + r.accruedToTreasuryScaled, step.t);
      2 * (RAY * (Deficit(Next(r, step), SupplyAfter(r, supply, step)) - Deficit(r, supply) - uncovered))
      <= 2 * RAY + LiquidityIndexAt(r, step.t) + ActionBound(r, step)
  {
    hide *;
    FitsMeans(r, supply, step);
    AccrualDeficit(r, supply, step.t);
    ActionDeficit(r, supply, step);
    StepPrices(r, step);
    PricedDeficit(step.strategy, Unpriced(r, step), SupplyAfter(r, supply, step));
    var a := Deficit(Accrue(r, step.t), supply);
    TwoParts(a - Deficit(r, supply) - Uncovered(r, supply + r.accruedToTreasuryScaled, step.t),
      Deficit(Unpriced(r, step), SupplyAfter(r, supply, step)) - a);
  }

  lemma TwoParts(x: int, y: int)
    ensures 2 * (RAY * (x + y)) == 2 * (RAY * x) + 2 * (RAY * y)
  {
  }

  lemma FitsMeans(r: Reserve, supply: int, step: Step)
    requires Inv(r) && Fits(r, supply, step)
    ensures Enabled(r, step) && ReadAtOnce(r, step) && r.lastUpdateTimestamp <= step.t && step.t != 0
    ensures step.strategy.reserveFactor == r.reserveFactor && 0 <= SupplyAfter(r, supply, step)
    ensures 0 <= r.accruedToTreasuryScaled
  {
    hide ReadAtOnce, SupplyAfter, RayMul;
  }

  // ----- the bound -----

  ghost function Share(n: int, k: Positive): real {
    n as real / k as real
  }

  const TWO_RAYS: Positive := ProductPositive(2, RAY)

  const ACCRUAL_SCALE: Positive := ProductPositive(TWO_RAYS, PERCENTAGE_FACTOR)

  /** The rounding of one accrual and the suppliers' percentage of the shortfall, if there is one. */
  ghost function AccrualLoss(r: Reserve, shares: int, t: int): int {
    PERCENTAGE_FACTOR * Slack(r, shares, t - r.lastUpdateTimestamp)
    + 2 * (RAY * (PERCENTAGE_FACTOR - r.reserveFactor) * PositivePart(Shortfall(r, t)))
  }

  /** What the supply rate makes of one unit until `t`, beyond the unit. */
  ghost function Growth(r: Reserve, t: int): real {
    Share(r.liquidityRate * (t - r.lastUpdateTimestamp), UNIT)
  }

  /** The deficit so far, carried on at the supply rate, and what the step adds to it. */
  ghost function StepBound(r: Reserve, supply: int, step: Step, start: real): real
    requires Enabled(r, step)
  {
    start + start * Growth(r, step.t)
    + Share(AccrualLoss(r, supply + r.accruedToTreasuryScaled, step.t), ProductPositive(ACCRUAL_SCALE, UNIT))
    + Share(2 * RAY + LiquidityIndexAt(r, step.t) + ActionBound(r, step), TWO_RAYS)
  }

  lemma AtMost(x: int, n: int, k: Positive)
    requires k * x <= n
    ensures x as real <= Share(n, k)
  {
    var q := n as real / k as real;
    assert (k * x) as real == k as real * x as real;
    if q < x as real {
      RealScale(k as real, q, x as real);
    }
  }

  lemma RealScale(k: real, a: real, b: real)
    requires k > 0.0 && a < b
    ensures k * a < k * b
  {
  }

  lemma ShareSum(n: int, m: Positive, g: int, unit: Positive)
    ensures Share(n + m * g, ProductPositive(m, unit)) == Share(n, ProductPositive(m, unit)) + Share(g, unit)
  {
    var k := ProductPositive(m, unit);
    assert k as real == m as real * unit as real;
    assert (n + m * g) as real == n as real + m as real * g as real;
    QuotientSum(n as real, m as real, g as real, unit as real, k as real);
  }

  lemma QuotientSum(n: real, m: real, g: real, unit: real, k: real)
    requires m > 0.0 && unit > 0.0 && k == m * unit && k > 0.0
    ensures (n + m * g) / k == n / k + g / unit
  {
    assert m * g / (m * unit) == g / unit;
  }

  lemma ShareScaled(g: int, e: int, unit: Positive)
    ensures Share(g * e, unit) == e as real * Share(g, unit)
  {
    assert (g * e) as real == g as real * e as real;
  }

  lemma ShareNonneg(g: nat, unit: Positive)
    ensures 0.0 <= Share(g, unit)
  {
  }

  // ----- the bound is not negative -----

  lemma SlackNonneg(q: Strategy, r: Reserve, shares: nat, seconds: nat)
    requires FreshlyPriced(q, r)
    ensures 0 <= Slack(r, shares, seconds)
  {
    hide *;
    RatesArePriced(q, r);
    RateBound(q, r);
    RecordFacts(q, r, r.lastUpdateTimestamp);
    SlackOf(r, shares, seconds);
    var (debt, total) := (DebtOf(r), r.totalLiquidity + DebtOf(r));
    var overall := OverallBorrowRate(r.totalStableDebt, r.totalVariableDebt, r.variableBorrowRate, r.averageStableBorrowRate);
    ProductMono(0, RAY, 0, 2 * WAD + debt + 2 * total + r.liquidityRate + r.variableBorrowRate);
    ProductMono(0, total, 0, overall);
    ProductMono(0, seconds, 0,
      RAY * (2 * WAD + debt + 2 * total + r.liquidityRate + r.variableBorrowRate) + total * overall);
    ProductMono(0, RAY, 0, ONE_YEAR);
    ProductMono(0, RAY * ONE_YEAR, 0, 2 * r.totalVariableDebt + r.scaledVariableDebt + shares + 5 * RAY);
  }

  lemma LossNonneg(q: Strategy, r: Reserve, shares: nat, t: int)
    requires FreshlyPriced(q, r) && r.lastUpdateTimestamp <= t
    ensures 0 <= AccrualLoss(r, shares, t)
  {
    hide *;
    RecordFacts(q, r, t);
    SlackNonneg(q, r, shares, t - r.lastUpdateTimestamp);
    LossIs(r, shares, t);
    ProductMono(0, PERCENTAGE_FACTOR, 0, Slack(r, shares, t - r.lastUpdateTimestamp));
    ProductMono(0, RAY, 0, PERCENTAGE_FACTOR - r.reserveFactor);
    ProductMono(0, RAY * (PERCENTAGE_FACTOR - r.reserveFactor), 0, PositivePart(Shortfall(r, t)));
  }

  lemma ActionBoundNonneg(r: Reserve, step: Step)
    requires Enabled(r, step)
    ensures 0 <= ActionBound(r, step)
  {
    var t := step.t;
    IndexPositive(r, t);
    if step.action.BackUnbacked? {
      BackingBoundNonneg(r, step.action.backing, t);
    } else if step.action.Repay? {
      ForgivenPart(Forgiven(r, step.action.user, AmountRepaid(r, step.action.user, step.action.amount, step.action.mode, t),
        step.action.mode, t));
    }
    hide LiquidityIndexAt, VariableIndexAt, Guard, Inv, Forgiven, FeeRatio, Claims, TreasuryAt, IndexAfterBacking, PositivePart,
      AmountRepaid, CanBack;
  }

  lemma BackingBoundNonneg(r: Reserve, b: Backing, t: int)
    requires Inv(r) && r.lastUpdateTimestamp <= t && LiquidityIndexAt(r, t) != 0 && CanBack(r, b, t)
    ensures 0 <= FeeRatio(r, b, t) && 0 <= Claims(b.scaledATokenSupply, TreasuryAt(r, t), LiquidityIndexAt(r, t))
    ensures 0 <= b.scaledATokenSupply && 0 <= TreasuryAt(r, t) && 0 <= IndexAfterBacking(r, b, t)
  {
    hide *;
    BackingGrowsIndex(r, b, t);
    BackingParts(r, b, t);
    var before := Claims(b.scaledATokenSupply, TreasuryAt(r, t), LiquidityIndexAt(r, t));
    ScaledAmounts(b.fee - PremiumToProtocol(b), before);
    DivAtNearest(WadToRay(b.fee - PremiumToProtocol(b)), WadToRay(before), RAY);
    RayDivIs(WadToRay(b.fee - PremiumToProtocol(b)), WadToRay(before));
  }

  lemma ScaledAmounts(a: nat, b: nat)
    requires b > 0
    ensures 0 <= WadToRay(a) && 0 < WadToRay(b)
  {
  }

  lemma StepBoundNonneg(q: Strategy, r: Reserve, supply: nat, step: Step, start: real)
    requires FreshlyPriced(q, r) && Inv(r) && Fits(r, supply, step) && 0.0 <= start
    ensures Enabled(r, step) && 0.0 <= StepBound(r, supply, step, start)
  {
    hide *;
    FitsMeans(r, supply, step);
    RecordFacts(q, r, step.t);
    IndexPositive(r, step.t);
    LossNonneg(q, r, supply + r.accruedToTreasuryScaled, step.t);
    ActionBoundNonneg(r, step);
    var earned := r.liquidityRate * (step.t - r.lastUpdateTimestamp);
    ProductMono(0, r.liquidityRate, 0, step.t - r.lastUpdateTimestamp);
    GrowthIs(r, step.t);
    ShareNonneg(earned, UNIT);
    ScaledBy(0.0, start, Growth(r, step.t));
    ShareNonneg(AccrualLoss(r, supply + r.accruedToTreasuryScaled, step.t), ProductPositive(ACCRUAL_SCALE, UNIT));
    ShareNonneg(2 * RAY + LiquidityIndexAt(r, step.t) + ActionBound(r, step), TWO_RAYS);
    StepBoundIs(r, supply, step, start);
  }

  /** Stable debt either keeps its update time and principal or is updated now. */
  lemma StepTimed(r: Reserve, step: Step)
    requires Enabled(r, step) && Timed(r) && step.t != 0 && UpToDate(r, r.lastUpdateTimestamp) && ReadAtOnce(r, step)
    ensures Timed(Next(r, step))
  {
    hide *;
    StepPrices(r, step);
    PricedAlike(step.strategy, Unpriced(r, step));
    UnpricedTimed(r, step);
    TimedAlike(Unpriced(r, step), Next(r, step));
  }

  lemma PricedAlike(p: Strategy, s: Reserve)
    requires Priceable(p, s)
    ensures SameButRates(s, Priced(p, s))
  {
    PricedIs(p, s);
    hide SameButRates, Priced, RatesDefined;
  }

  lemma TimedAlike(s: Reserve, s': Reserve)
    requires SameButRates(s, s') && Timed(s)
    ensures Timed(s')
  {
  }

  lemma UnpricedTimed(r: Reserve, step: Step)
    requires Enabled(r, step) && Timed(r) && step.t != 0
    ensures Timed(Unpriced(r, step))
  {
    hide LiquidityIndexAt, VariableIndexAt, Guard, Inv, RayMul, RayDiv, TreasuryAt, StableDebtOf, AverageStableRate,
      AverageStableRateRebalance, UserStableDebt, VariableDebtBalance, AmountRepaid, AmountWithdrawn, IndexAfterBacking,
      PremiumToProtocol, StableDebtBalance, CanBack;
  }

  // ----- runs -----

  /** After an accrual that starts from a deficit of at most `start`. */
  lemma UncoveredBound(q: Strategy, r: Reserve, supply: nat, t: int, start: real)
    requires FreshlyPriced(q, r) && r.lastUpdateTimestamp <= t && 0 <= r.accruedToTreasuryScaled
    requires Deficit(r, supply) as real <= start && 0.0 <= start
    ensures var shares := supply + r.accruedToTreasuryScaled;
      Uncovered(r, shares, t) as real
      <= Share(AccrualLoss(r, shares, t), ProductPositive(ACCRUAL_SCALE, UNIT)) + start * Growth(r, t)
  {
    hide *;
    var (shares, excess) := (supply + r.accruedToTreasuryScaled, PositivePart(Deficit(r, supply)));
    var earned := r.liquidityRate * (t - r.lastUpdateTimestamp);
    RecordFacts(q, r, t);
    DeficitIs(r, supply);
    PartIs(Deficit(r, supply));
    AccrualIsCovered(q, r, shares, excess, t);
    ProductMono(0, r.liquidityRate, 0, t - r.lastUpdateTimestamp);
    LossBound(r, shares, t, earned * excess, Uncovered(r, shares, t));
    AtMost(Uncovered(r, shares, t), AccrualLoss(r, shares, t) + ACCRUAL_SCALE * (earned * excess),
      ProductPositive(ACCRUAL_SCALE, UNIT));
    ShareSum(AccrualLoss(r, shares, t), ACCRUAL_SCALE, earned * excess, UNIT);
    ShareScaled(earned, excess, UNIT);
    ShareNonneg(earned, UNIT);
    GrowthIs(r, t);
    ScaledBy(excess as real, start, Share(earned, UNIT));
  }

  lemma ScaledBy(e: real, start: real, g: real)
    requires e <= start && 0.0 <= g
    ensures e * g <= start * g
  {
  }

  lemma PartIs(x: int)
    ensures x <= PositivePart(x) && (PositivePart(x) == x || PositivePart(x) == 0)
  {
  }

  lemma GrowthIs(r: Reserve, t: int)
    ensures Growth(r, t) == Share(r.liquidityRate * (t - r.lastUpdateTimestamp), UNIT)
  {
  }

  /** The bound of an accrual, with a shortfall counted only if there is one. */
  lemma LossBound(r: Reserve, shares: int, t: int, onExcess: int, uncovered: int)
    requires 0 <= r.reserveFactor <= PERCENTAGE_FACTOR
    requires 2 * (RAY * RAY * ONE_YEAR * PERCENTAGE_FACTOR * uncovered)
          <= PERCENTAGE_FACTOR * (Slack(r, shares, t - r.lastUpdateTimestamp) + 2 * (RAY * onExcess))
             + 2 * (RAY * (PERCENTAGE_FACTOR - r.reserveFactor) * Shortfall(r, t))
    ensures ProductPositive(ACCRUAL_SCALE, UNIT) * uncovered <= AccrualLoss(r, shares, t) + ACCRUAL_SCALE * onExcess
  {
    hide *;
    var (slack, short, q) := (Slack(r, shares, t - r.lastUpdateTimestamp), Shortfall(r, t), PERCENTAGE_FACTOR - r.reserveFactor);
    PartIs(short);
    ProductMono(0, RAY, 0, q);
    MulMono(short, PositivePart(short), RAY * q);
    LossIs(r, shares, t);
    ScaleIs();
    ScaleProducts(RAY, ONE_YEAR, PERCENTAGE_FACTOR, uncovered, slack, onExcess);
  }

  lemma LossIs(r: Reserve, shares: int, t: int)
    ensures AccrualLoss(r, shares, t) == PERCENTAGE_FACTOR * Slack(r, shares, t - r.lastUpdateTimestamp)
      + 2 * (RAY * (PERCENTAGE_FACTOR - r.reserveFactor) * PositivePart(Shortfall(r, t)))
  {
    hide Slack, Shortfall, PositivePart;
  }

  lemma ScaleIs()
    ensures ACCRUAL_SCALE == 2 * RAY * PERCENTAGE_FACTOR && UNIT == RAY * ONE_YEAR
    ensures ProductPositive(ACCRUAL_SCALE, UNIT) == 2 * RAY * PERCENTAGE_FACTOR * (RAY * ONE_YEAR)
  {
  }

  lemma ScaleProducts(f: int, y: int, pf: int, x: int, slack: int, e: int)
    ensures 2 * (f * f * y * pf * x) == 2 * f * pf * (f * y) * x
    ensures pf * (slack + 2 * (f * e)) == pf * slack + 2 * f * pf * e
  {
    assert f * f * y * pf == f * pf * (f * y);
    assert 2 * f * pf * e == 2 * (pf * (f * e));
    assert 2 * f * pf * (f * y) * x == 2 * (f * pf * (f * y) * x);
  }

  /** One step keeps the deficit within the bound carried on. */
  lemma StepStaysSolvent(q: Strategy, r: Reserve, supply: nat, step: Step, start: real)
    requires FreshlyPriced(q, r) && Inv(r) && Fits(r, supply, step)
    requires Deficit(r, supply) as real <= start && 0.0 <= start
    ensures Enabled(r, step)
    ensures Deficit(Next(r, step), SupplyAfter(r, supply, step)) as real <= StepBound(r, supply, step, start)
  {
    hide *;
    FitsMeans(r, supply, step);
    RecordFacts(q, r, step.t);
    StepDeficit(r, supply, step);
    UncoveredBound(q, r, supply, step.t, start);
    var shares := supply + r.accruedToTreasuryScaled;
    var uncovered := Uncovered(r, shares, step.t);
    var rest := Deficit(Next(r, step), SupplyAfter(r, supply, step)) - Deficit(r, supply) - uncovered;
    var n := 2 * RAY + LiquidityIndexAt(r, step.t) + ActionBound(r, step);
    TwoRays(rest);
    AtMost(rest, n, TWO_RAYS);
    StepBoundIs(r, supply, step, start);
  }

  lemma TwoRays(x: int)
    ensures TWO_RAYS * x == 2 * (RAY * x)
  {
  }

  lemma StepBoundIs(r: Reserve, supply: int, step: Step, start: real)
    requires Enabled(r, step)
    ensures StepBound(r, supply, step, start) == start + start * Growth(r, step.t)
      + Share(AccrualLoss(r, supply + r.accruedToTreasuryScaled, step.t), ProductPositive(ACCRUAL_SCALE, UNIT))
      + Share(2 * RAY + LiquidityIndexAt(r, step.t) + ActionBound(r, step), TWO_RAYS)
  {
    hide Growth, AccrualLoss, LiquidityIndexAt, ActionBound, Share, Guard, Inv;
  }

  /** Every step of the run fits the state it is taken in. */
  predicate Sustained(r: Reserve, supply: int, run: seq<Step>)
    requires Inv(r)
    decreases |run|
  {
    run != [] ==>
      && Fits(r, supply, run[0])
      && (StepGrows(r, run[0]); Sustained(Next(r, run[0]), SupplyAfter(r, supply, run[0]), run[1..]))
  }

  lemma {:induction false} SustainedIsAllowed(r: Reserve, supply: int, run: seq<Step>)
    requires Inv(r) && Sustained(r, supply, run)
    ensures Allowed(r, run)
    decreases |run|
  {
    hide Inv, Next, SupplyAfter, ReadAtOnce, Guard;
    if run != [] {
      StepGrows(r, run[0]);
      SustainedIsAllowed(Next(r, run[0]), SupplyAfter(r, supply, run[0]), run[1..]);
    }
  }

  function FinalSupply(r: Reserve, supply: int, run: seq<Step>): int
    requires Inv(r) && Sustained(r, supply, run)
    decreases |run|
  {
    if run == [] then supply
    else
      StepGrows(r, run[0]);
      FinalSupply(Next(r, run[0]), SupplyAfter(r, supply, run[0]), run[1..])
  }

  /** What the steps of a run add up to, each carried on at the supply rate of the steps after it. */
  ghost function Bound(r: Reserve, supply: int, run: seq<Step>, start: real): real
    requires Inv(r) && Sustained(r, supply, run)
    decreases |run|
  {
    if run == [] then start
    else
      StepGrows(r, run[0]);
      Bound(Next(r, run[0]), SupplyAfter(r, supply, run[0]), run[1..], StepBound(r, supply, run[0], start))
  }

  /** Solvency: after any run from a freshly priced record, whatever its length and its strategies, all shares together
      claim at most liquidity and debt, plus the deficit there was, the rounding and the shortfalls of the accruals, the
      rounding of the actions and what repayments forgave, each carried on at the supply rate. */
  lemma {:induction false} RunStaysSolvent(q: Strategy, r: Reserve, supply: nat, run: seq<Step>, start: real)
    requires FreshlyPriced(q, r) && Inv(r) && Timed(r) && Sustained(r, supply, run)
    requires Deficit(r, supply) as real <= start && 0.0 <= start
    ensures Allowed(r, run)
    ensures Deficit(Final(r, run), FinalSupply(r, supply, run)) as real <= Bound(r, supply, run, start)
    decreases |run|
  {
    SustainedIsAllowed(r, supply, run);
    hide FreshlyPriced, Inv, Next, SupplyAfter, Timed, Deficit, StepBound, Guard, ReadAtOnce, Fits;
    if run != [] {
      var step := run[0];
      FitsMeans(r, supply, step);
      StepGrows(r, step);
      GrownMeans(r, Next(r, step));
      FreshMeans(q, r);
      StepPricesFreshly(q, r, step);
      StepTimed(r, step);
      StepStaysSolvent(q, r, supply, step, start);
      StepBoundNonneg(q, r, supply, step, start);
      RunStaysSolvent(step.strategy, Next(r, step), SupplyAfter(r, supply, step), run[1..], StepBound(r, supply, step, start));
    }
  }

  lemma FreshMeans(q: Strategy, r: Reserve)
    requires FreshlyPriced(q, r)
    ensures UpToDate(r, r.lastUpdateTimestamp)
  {
    hide Priced, Priceable, UpToDate;
  }

  lemma GrownMeans(r: Reserve, r': Reserve)
    requires Grown(r, r')
    ensures Inv(r')
  {
  }
}
