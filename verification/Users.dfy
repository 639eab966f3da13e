/** What an action makes of the acting user's record, and how that record and the reserve's stay in step. */
module Users {
  import opened WadRayMath
  import opened Interest
  import opened Shares
  import opened Tolerance
  import opened Rates
  import opened RateLaws
  import opened Reserve
  import opened Actions

  // ----- the user's record after each action -----

  /** `after` is the reserve's record after the same action. The last two assignments of the source
      leave the variable debt in the stable principal. */
  function UserAfterDeposit(amount: int, r: Reserve, after: Reserve, u: User, t: int): User
    requires after.liquidityIndex != 0
  {
    User(
      u.scaledATokenBalance + RayDiv(amount, after.liquidityIndex) - RayDiv(0, after.liquidityIndex),
      ATokenBalance(r, u, t) + amount,
      UserStableDebt(u, t),
      VariableDebtBalance(r, u, t),
      VariableDebtBalance(r, u, t),
      u.scaledVariableDebt,
      after.liquidityRate,
      u.stableBorrowRate,
      u.stableRateLastUpdated,
      u.currentATokenBalance == 0 || u.usageAsCollateralEnabled,
      u.walletBalance - amount)
  }

  function UserAfterWithdraw(amount: int, r: Reserve, after: Reserve, u: User, t: int): User
    requires after.liquidityIndex != 0
  {
    var withdrawn := AmountWithdrawn(r, u, amount, t);
    var left := ATokenBalance(r, u, t) - withdrawn;
    User(
      u.scaledATokenBalance + RayDiv(0, after.liquidityIndex) - RayDiv(withdrawn, after.liquidityIndex),
      left,
      UserStableDebt(u, t),
      VariableDebtBalance(r, u, t),
      u.principalStableDebt,
      u.scaledVariableDebt,
      after.liquidityRate,
      u.stableBorrowRate,
      u.stableRateLastUpdated,
      u.currentATokenBalance == 0 || (left != 0 && u.usageAsCollateralEnabled),
      u.walletBalance + withdrawn)
  }

  /** Balances are read at `now`, which may be later than the transaction at `t`.
      `ownAccount` says whether the user pays their own debt. */
  function UserAfterRepay(amount: int, mode: RateMode, r: Reserve, after: Reserve, u: User, ownAccount: bool,
    t: int, now: int): User
    requires after.variableBorrowIndex != 0
  {
    var repaid := AmountRepaid(r, u, amount, mode, now);
    var wallet := if ownAccount then u.walletBalance - repaid else u.walletBalance;
    var balance := ATokenBalance(r, u, t);
    if mode == Stable then
      var rest := UserStableDebt(u, now) - repaid;
      User(u.scaledATokenBalance, balance, rest, VariableDebtBalance(r, u, now), rest, u.scaledVariableDebt,
        after.liquidityRate,
        if rest == 0 then 0 else u.stableBorrowRate,
        if rest == 0 then 0 else t,
        u.usageAsCollateralEnabled, wallet)
    else
      var scaled := u.scaledVariableDebt - RayDiv(repaid, after.variableBorrowIndex);
      User(u.scaledATokenBalance, balance, u.principalStableDebt, RayMul(scaled, after.variableBorrowIndex),
        UserStableDebt(u, now), scaled, after.liquidityRate, u.stableBorrowRate, u.stableRateLastUpdated,
        u.usageAsCollateralEnabled, wallet)
  }

  function UserStableRate(balance: int, rate: int, amount: int, rateNew: int): int
    requires balance + amount != 0
  {
    TruncDiv(balance * rate + amount * rateNew, balance + amount)
  }

  function UserAfterSwapRateMode(r: Reserve, after: Reserve, u: User, mode: RateMode, t: int): User
    requires after.variableBorrowIndex != 0
    requires mode != Stable ==> UserStableDebt(u, t) + VariableDebtBalance(r, u, t) != 0
  {
    var stableDebt := UserStableDebt(u, t);
    var variableDebt := VariableDebtBalance(r, u, t);
    var u' := u.(currentATokenBalance := ATokenBalance(r, u, t), liquidityRate := after.liquidityRate);
    if mode == Stable then
      var scaled := u.scaledVariableDebt + RayDiv(stableDebt, after.variableBorrowIndex);
      u'.(currentStableDebt := 0, principalStableDebt := 0, stableBorrowRate := 0, stableRateLastUpdated := 0,
          scaledVariableDebt := scaled,
          currentVariableDebt := RayMul(scaled, after.variableBorrowIndex))
    else
      u'.(currentStableDebt := u.currentStableDebt + variableDebt,
          principalStableDebt := u.currentStableDebt + variableDebt,
          stableBorrowRate := UserStableRate(stableDebt, u.stableBorrowRate, variableDebt, r.stableBorrowRate),
          stableRateLastUpdated := t,
          scaledVariableDebt := 0,
          currentVariableDebt := 0)
  }

  // ----- the record after a deposit or withdrawal against the shares it holds -----

  /** The expected balance after a deposit and the worth of the expected shares differ by less than one
      unit and half a share, and by at most `k` units at every index that tolerates `k`. */
  lemma DepositRecordAgrees(p: Strategy, r: Reserve, u: User, amount: nat, t: int)
    requires Ready(p, r, t) && 0 <= u.scaledATokenBalance
    ensures var after := AfterDeposit(p, r, amount, t);
      && RAY <= after.liquidityIndex
      && var u' := UserAfterDeposit(amount, r, after, u, t);
         var error := Abs(RayMul(u'.scaledATokenBalance, after.liquidityIndex) - u'.currentATokenBalance);
      && 2 * (RAY * error) < 2 * RAY + after.liquidityIndex
      && (forall k: nat | Tolerates(after.liquidityIndex, k) :: error <= k)
  {
    hide *;
    ReadyMeans(p, r, t);
    SupplySide(r, u, t);
    var index := LiquidityIndexAt(r, t);
    DepositIndex(p, r, amount, t);
    DepositedShares(amount, r, AfterDeposit(p, r, amount, t), u, t);
    ZeroShares(index);
    AddError(u.scaledATokenBalance, amount, index);
    DepositWithinAll(u.scaledATokenBalance, amount, index);
    ErrorsOf(u.scaledATokenBalance, amount, index);
  }

  /** The index a supplier is shown is the one accrual sets. */
  lemma SupplySide(r: Reserve, u: User, t: int)
    requires Inv(r) && r.lastUpdateTimestamp <= t
    ensures RAY <= LiquidityIndexAt(r, t)
    ensures ATokenBalance(r, u, t) == RayMul(u.scaledATokenBalance, LiquidityIndexAt(r, t))
  {
    AccrueSound(r, t);
    SupplyViewsAgree(r, t);
    hide RayMul, LiquidityIndexAt, NormalizedIncome, VariableIndexAt, StableDebtOf, TreasuryAt;
  }

  lemma DepositedShares(amount: int, r: Reserve, after: Reserve, u: User, t: int)
    requires after.liquidityIndex != 0
    ensures var u' := UserAfterDeposit(amount, r, after, u, t);
      && u'.scaledATokenBalance
         == u.scaledATokenBalance + RayDiv(amount, after.liquidityIndex) - RayDiv(0, after.liquidityIndex)
      && u'.currentATokenBalance == ATokenBalance(r, u, t) + amount
  {
    hide RayDiv, ATokenBalance, VariableDebtBalance, UserStableDebt;
  }

  lemma ErrorsOf(s: nat, a: nat, index: nat)
    requires index > 0
    ensures DepositError(s, a, index) == RayMul(s + RayDiv(a, index), index) - (RayMul(s, index) + a)
    ensures WithdrawError(s, a, index) == RayMul(s - RayDiv(a, index), index) - (RayMul(s, index) - a)
  {
    hide RayMul, RayDiv;
  }

  lemma DepositIndex(p: Strategy, r: Reserve, amount: nat, t: int)
    requires Ready(p, r, t)
    ensures AfterDeposit(p, r, amount, t).liquidityIndex == LiquidityIndexAt(r, t)
  {
    hide LiquidityIndexAt, VariableIndexAt, StableDebtOf, TreasuryAt, InterestRates, UsageRatio, RatesDefined;
  }

  lemma ZeroShares(index: nat)
    requires index > 0
    ensures RayDiv(0, index) == 0
  {
    DivAtNearest(0, index, RAY);
    NearestUnique(RayDiv(0, index), 0, 0, index);
  }

  lemma WithdrawIndex(p: Strategy, r: Reserve, u: User, amount: int, t: int)
    requires Ready(p, r, t) && CanWithdraw(r, u, amount, t)
    ensures AfterWithdraw(p, r, u, amount, t).liquidityIndex == LiquidityIndexAt(r, t)
    ensures AfterWithdraw(p, r, u, amount, t).availableLiquidity
         == r.availableLiquidity - AmountWithdrawn(r, u, amount, t)
  {
    hide LiquidityIndexAt, VariableIndexAt, StableDebtOf, TreasuryAt, InterestRates, UsageRatio, RatesDefined, AmountWithdrawn;
  }

  lemma WithdrawRecordAgrees(p: Strategy, r: Reserve, u: User, amount: int, t: int)
    requires Ready(p, r, t) && CanWithdraw(r, u, amount, t) && 0 <= u.scaledATokenBalance
    requires AmountWithdrawn(r, u, amount, t) <= ATokenBalance(r, u, t)
    ensures var after := AfterWithdraw(p, r, u, amount, t);
      && RAY <= after.liquidityIndex
      && var u' := UserAfterWithdraw(amount, r, after, u, t);
         var error := Abs(RayMul(u'.scaledATokenBalance, after.liquidityIndex) - u'.currentATokenBalance);
      && 0 <= u'.scaledATokenBalance && 0 <= u'.currentATokenBalance
      && 2 * (RAY * error) < 2 * RAY + after.liquidityIndex
      && (forall k: nat | Tolerates(after.liquidityIndex, k) :: error <= k)
  {
    hide *;
    ReadyMeans(p, r, t);
    SupplySide(r, u, t);
    var (index, withdrawn) := (LiquidityIndexAt(r, t), AmountWithdrawn(r, u, amount, t));
    WithdrawnNonneg(r, u, amount, t);
    WithdrawIndex(p, r, u, amount, t);
    WithdrawnShares(amount, r, AfterWithdraw(p, r, u, amount, t), u, t);
    ZeroShares(index);
    PartOfHolding(u.scaledATokenBalance, withdrawn, index);
    SubError(u.scaledATokenBalance, withdrawn, index);
    WithdrawWithinAll(u.scaledATokenBalance, withdrawn, index);
    ErrorsOf(u.scaledATokenBalance, withdrawn, index);
  }

  lemma WithdrawnNonneg(r: Reserve, u: User, amount: int, t: int)
    requires CanWithdraw(r, u, amount, t)
    ensures 0 <= AmountWithdrawn(r, u, amount, t)
  {
    hide AmountWithdrawn;
  }

  lemma WithdrawnShares(amount: int, r: Reserve, after: Reserve, u: User, t: int)
    requires after.liquidityIndex != 0
    ensures var (u', withdrawn) := (UserAfterWithdraw(amount, r, after, u, t), AmountWithdrawn(r, u, amount, t));
      && u'.scaledATokenBalance
         == u.scaledATokenBalance + RayDiv(0, after.liquidityIndex) - RayDiv(withdrawn, after.liquidityIndex)
      && u'.currentATokenBalance == ATokenBalance(r, u, t) - withdrawn
  {
    hide RayDiv, ATokenBalance, VariableDebtBalance, UserStableDebt, AmountWithdrawn;
  }

  // ----- full exit -----

  /** Asking for everything leaves a supplier with nothing: no balance, not one share, and a positive
      balance no longer counts as collateral. The pool pays out exactly the balance. */
  lemma WithdrawEverything(p: Strategy, r: Reserve, u: User, t: int)
    requires Ready(p, r, t) && CanWithdraw(r, u, MAX_UINT_AMOUNT, t) && 0 <= u.scaledATokenBalance
    ensures var after := AfterWithdraw(p, r, u, MAX_UINT_AMOUNT, t);
      && RAY <= after.liquidityIndex
      && var u' := UserAfterWithdraw(MAX_UINT_AMOUNT, r, after, u, t);
      && u'.scaledATokenBalance == 0 && u'.currentATokenBalance == 0
      && (u.currentATokenBalance != 0 ==> !u'.usageAsCollateralEnabled)
      && u'.walletBalance - u.walletBalance == r.availableLiquidity - after.availableLiquidity == ATokenBalance(r, u, t)
  {
    AccrueSound(r, t);
    SupplyViewsAgree(r, t);
    var index := LiquidityIndexAt(r, t);
    ZeroShares(index);
    WholeHolding(u.scaledATokenBalance, index);
    WithdrawIndex(p, r, u, MAX_UINT_AMOUNT, t);
    hide RayMul, RayDiv, LiquidityIndexAt, NormalizedIncome, AfterWithdraw, VariableDebtBalance, UserStableDebt;
  }

  lemma RepayShares(p: Strategy, r: Reserve, u: User, amount: int, t: int)
    requires Ready(p, r, t) && CanRepay(r, u, amount, Variable, t)
    ensures var after := AfterRepay(p, r, u, amount, Variable, t);
      && after.variableBorrowIndex == VariableIndexAt(r, t) != 0
      && after.scaledVariableDebt
         == r.scaledVariableDebt - RayDiv(AmountRepaid(r, u, amount, Variable, t), VariableIndexAt(r, t))
  {
    hide RayMul, RayDiv, LiquidityIndexAt, VariableIndexAt, StableDebtOf, TreasuryAt, InterestRates, UsageRatio, RatesDefined,
      AmountRepaid, VariableDebtBalance;
    RepaidSound(r, u, AmountRepaid(r, u, amount, Variable, t), Variable, t);
  }

  /** Repaying all variable debt in the transaction's own block leaves the borrower without a share of
      debt and takes exactly the borrower's shares off the reserve. */
  lemma RepayEverything(p: Strategy, r: Reserve, u: User, ownAccount: bool, t: int)
    requires Ready(p, r, t) && CanRepay(r, u, MAX_UINT_AMOUNT, Variable, t)
    ensures var after := AfterRepay(p, r, u, MAX_UINT_AMOUNT, Variable, t);
      && after.variableBorrowIndex != 0
      && after.scaledVariableDebt == r.scaledVariableDebt - u.scaledVariableDebt
      && var u' := UserAfterRepay(MAX_UINT_AMOUNT, Variable, r, after, u, ownAccount, t, t);
         u'.scaledVariableDebt == 0 && u'.currentVariableDebt == 0
  {
    hide RayMul, RayDiv, VariableIndexAt, VariableDebtBalance, AfterRepay, UserAfterRepay, AmountRepaid;
    FullRepayment(r, u, t);
    RepayShares(p, r, u, MAX_UINT_AMOUNT, t);
    var after := AfterRepay(p, r, u, MAX_UINT_AMOUNT, Variable, t);
    UserVariableRepay(MAX_UINT_AMOUNT, r, after, u, ownAccount, t, t);
    WorthOfNothing(after.variableBorrowIndex);
  }

  lemma UserVariableRepay(amount: int, r: Reserve, after: Reserve, u: User, ownAccount: bool, t: int, now: int)
    requires after.variableBorrowIndex != 0
    ensures var u' := UserAfterRepay(amount, Variable, r, after, u, ownAccount, t, now);
      && u'.scaledVariableDebt
         == u.scaledVariableDebt - RayDiv(AmountRepaid(r, u, amount, Variable, now), after.variableBorrowIndex)
      && u'.currentVariableDebt == RayMul(u'.scaledVariableDebt, after.variableBorrowIndex)
  {
    hide RayMul, RayDiv, AmountRepaid, UserStableDebt, ATokenBalance;
  }

  lemma FullRepayment(r: Reserve, u: User, t: int)
    requires Inv(r) && r.lastUpdateTimestamp <= t && 0 <= u.scaledVariableDebt <= r.scaledVariableDebt
    ensures VariableIndexAt(r, t) != 0
    ensures RayDiv(AmountRepaid(r, u, MAX_UINT_AMOUNT, Variable, t), VariableIndexAt(r, t)) == u.scaledVariableDebt
  {
    AccrueSound(r, t);
    VariableViewsAgree(r, u, t);
    WholeHolding(u.scaledVariableDebt, VariableIndexAt(r, t));
    hide RayMul, RayDiv, VariableIndexAt, VariableDebtBalance;
  }

  /** Read later, the same call never leaves the borrower with debt but may overshoot, since the balance paid
      has grown while the index has not. It leaves exactly nothing if and only if the balance read later is
      worth less than half a share more than what the borrower holds. */
  lemma RepayEverythingReadLater(p: Strategy, r: Reserve, u: User, ownAccount: bool, t: int, now: int)
    requires Ready(p, r, t) && t <= now && CanRepay(r, u, MAX_UINT_AMOUNT, Variable, t)
    ensures var after := AfterRepay(p, r, u, MAX_UINT_AMOUNT, Variable, t);
      && after.variableBorrowIndex != 0
      && var left := UserAfterRepay(MAX_UINT_AMOUNT, Variable, r, after, u, ownAccount, t, now).scaledVariableDebt;
      && left <= 0
      && (left == 0 <==> 2 * (VariableDebtBalance(r, u, now) * RAY)
                         < (2 * u.scaledVariableDebt + 1) * after.variableBorrowIndex)
  {
    hide RayMul, RayDiv, VariableIndexAt, VariableDebtBalance, AfterRepay, UserAfterRepay, AmountRepaid;
    RepayShares(p, r, u, MAX_UINT_AMOUNT, t);
    var after := AfterRepay(p, r, u, MAX_UINT_AMOUNT, Variable, t);
    UserVariableRepay(MAX_UINT_AMOUNT, r, after, u, ownAccount, t, now);
    LaterShares(r, u, t, now);
  }

  lemma LaterShares(r: Reserve, u: User, t: int, now: int)
    requires Inv(r) && r.lastUpdateTimestamp <= t <= now && 0 <= u.scaledVariableDebt <= r.scaledVariableDebt
    requires VariableIndexAt(r, t) != 0
    ensures var (s, index, paid) :=
        (u.scaledVariableDebt, VariableIndexAt(r, t), AmountRepaid(r, u, MAX_UINT_AMOUNT, Variable, now));
      && paid == VariableDebtBalance(r, u, now)
      && s <= RayDiv(paid, index)
      && (RayDiv(paid, index) == s <==> 2 * (paid * RAY) < (2 * s + 1) * index)
  {
    AccrueSound(r, t);
    VariableViewsAgree(r, u, now);
    VariableIndexMono(r, t, now);
    var (s, index, index') := (u.scaledVariableDebt, VariableIndexAt(r, t), VariableIndexAt(r, now));
    WholeHolding(s, index);
    MulAtNearest(s, index, RAY);
    RayMulMono(s, s, index, index');
    var paid := RayMul(s, index');
    DivAtMono(RayMul(s, index), paid, index, RAY);
    DivAtNearest(paid, index, RAY);
    var q := RayDiv(paid, index);
    hide RayMul, RayDiv, DivAt, VariableIndexAt, VariableDebtBalance;
    NearestIsLow(q, s, paid * RAY, index);
  }

  /** A rounded quotient that is at least `s` is `s` exactly when the fraction is below `s + 1/2`. */
  lemma NearestIsLow(q: int, s: int, n: int, d: int)
    requires d > 0 && s <= q && Nearest(q, n, d)
    ensures q == s <==> 2 * n < (2 * s + 1) * d
  {
    assert (2 * s + 1) * d == 2 * (d * s) + d;
    if q > s {
      MulMono(s + 1, q, d);
    }
  }

  lemma VariableIndexMono(r: Reserve, t: int, t': int)
    requires Inv(r) && r.lastUpdateTimestamp <= t <= t'
    ensures VariableIndexAt(r, t) <= VariableIndexAt(r, t')
  {
    CompoundedMono(r.variableBorrowRate, r.variableBorrowRate, r.lastUpdateTimestamp, t, t');
    hide CompoundedInterest;
    RayMulMono(CompoundedInterest(r.variableBorrowRate, t, r.lastUpdateTimestamp),
      CompoundedInterest(r.variableBorrowRate, t', r.lastUpdateTimestamp), r.variableBorrowIndex, r.variableBorrowIndex);
  }

  // ----- changing the rate mode -----

  /** Variable to stable: the reserve loses exactly the user's shares, the user keeps none, and the
      total debt moves by at most one unit. */
  lemma SwapToStable(r: Reserve, after: Reserve, u: User, t: int)
    requires Inv(r) && r.lastUpdateTimestamp <= t && 0 <= u.scaledVariableDebt <= r.scaledVariableDebt
    requires LiquidityIndexAt(r, t) != 0 && VariableIndexAt(r, t) != 0
    requires after.variableBorrowIndex == VariableIndexAt(r, t)
    requires UserStableDebt(u, t) + VariableDebtBalance(r, u, t) != 0
    ensures var s := Swapped(r, u, Variable, t);
      && s.scaledVariableDebt == r.scaledVariableDebt - u.scaledVariableDebt
      && UserAfterSwapRateMode(r, after, u, Variable, t).scaledVariableDebt == 0
      && Abs(s.totalStableDebt + s.totalVariableDebt - DebtAt(r, t)) <= 1
  {
    AccrueSound(r, t);
    VariableViewsAgree(r, u, t);
    var index := VariableIndexAt(r, t);
    WholeHolding(u.scaledVariableDebt, index);
    SplitHolding(r.scaledVariableDebt, u.scaledVariableDebt, index);
    hide RayMul, RayDiv, LiquidityIndexAt, VariableIndexAt, StableDebtOf, TreasuryAt, VariableDebtBalance, UserStableDebt,
      AverageStableRate, UserStableRate, ATokenBalance;
  }

  /** Stable to variable: user and reserve gain the same shares, the user's stable debt is gone, and the
      total debt moves by less than one unit and half a share. */
  lemma SwapToVariable(r: Reserve, after: Reserve, u: User, t: int)
    requires Inv(r) && r.lastUpdateTimestamp <= t && 0 <= UserStableDebt(u, t)
    requires LiquidityIndexAt(r, t) != 0 && VariableIndexAt(r, t) != 0
    requires after.variableBorrowIndex == VariableIndexAt(r, t)
    ensures var s := Swapped(r, u, Stable, t);
      var u' := UserAfterSwapRateMode(r, after, u, Stable, t);
      && s.scaledVariableDebt - r.scaledVariableDebt == u'.scaledVariableDebt - u.scaledVariableDebt
         == RayDiv(UserStableDebt(u, t), VariableIndexAt(r, t))
      && u'.principalStableDebt == 0
      && 2 * (RAY * Abs(s.totalStableDebt + s.totalVariableDebt - DebtAt(r, t))) < 2 * RAY + VariableIndexAt(r, t)
  {
    AccrueSound(r, t);
    AddError(r.scaledVariableDebt, UserStableDebt(u, t), VariableIndexAt(r, t));
    hide RayMul, RayDiv, LiquidityIndexAt, VariableIndexAt, StableDebtOf, TreasuryAt, VariableDebtBalance, UserStableDebt,
      AverageStableRate, UserStableRate, ATokenBalance;
  }

  /** Rebalancing the only stable borrower, with at least 10^18 of debt, puts the average stable rate at
      exactly the rate the reserve quoted. */
  lemma RebalanceSole(r: Reserve, u: User, t: int)
    requires Inv(r) && LiquidityIndexAt(r, t) != 0
    requires UserStableDebt(u, t) == StableDebtOf(r, t) >= WAD
    ensures Rebalanced(r, u, t).averageStableBorrowRate == r.stableBorrowRate
  {
    hide *;
    RebalancedRate(r, u, t);
    RebalanceSoleBorrower(r.averageStableBorrowRate, StableDebtOf(r, t), u.stableBorrowRate, r.stableBorrowRate);
  }

  lemma RebalancedRate(r: Reserve, u: User, t: int)
    requires Inv(r) && LiquidityIndexAt(r, t) != 0
    ensures 0 <= r.stableBorrowRate
    ensures var (total, debt) := (StableDebtOf(r, t), UserStableDebt(u, t));
      var removed := AverageStableRateRebalance(r.averageStableBorrowRate, total, -debt, u.stableBorrowRate);
      Rebalanced(r, u, t).averageStableBorrowRate
      == AverageStableRateRebalance(removed, total - debt, debt, r.stableBorrowRate)
  {
    hide LiquidityIndexAt, VariableIndexAt, StableDebtOf, TreasuryAt, UserStableDebt, AverageStableRateRebalance, RayMul;
  }
}
