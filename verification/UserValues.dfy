/** What the fields of a user's record hold after an action, against the reserve's record and the user's wallet. */
module UserValues {
  import opened WadRayMath
  import opened Interest
  import opened Shares
  import opened Rates
  import opened RateLaws
  import opened RateValues
  import opened Reserve
  import opened Actions
  import opened Users
  import opened Runs

  // ----- amounts and debts -----

  /** The sentinel stands for the whole balance or debt; for a repayment, of either sign. Any other amount is itself. */
  lemma AmountsResolved(r: Reserve, u: User, amount: int, mode: RateMode, t: int)
    ensures AmountWithdrawn(r, u, MAX_UINT_AMOUNT, t) == ATokenBalance(r, u, t)
    ensures amount != MAX_UINT_AMOUNT ==> AmountWithdrawn(r, u, amount, t) == amount
    ensures amount == MAX_UINT_AMOUNT || amount == -MAX_UINT_AMOUNT ==>
      AmountRepaid(r, u, amount, mode, t) == if mode == Stable then UserStableDebt(u, t) else VariableDebtBalance(r, u, t)
    ensures amount != MAX_UINT_AMOUNT && amount != -MAX_UINT_AMOUNT ==> AmountRepaid(r, u, amount, mode, t) == amount
  {
    MaxIsPositive();
    hide ATokenBalance, UserStableDebt, VariableDebtBalance;
  }

  /** A user's stable debt is its principal compounded at the user's own rate, to the nearest unit; a debt that claims
      never to have been updated is only its principal. */
  lemma UserStableDebtIs(u: User, t: int)
    requires 0 <= u.principalStableDebt && 0 <= u.stableBorrowRate && u.stableRateLastUpdated <= t
    ensures u.stableRateLastUpdated == 0 ==> UserStableDebt(u, t) == u.principalStableDebt
    ensures u.stableRateLastUpdated != 0 ==>
      Nearest(UserStableDebt(u, t), u.principalStableDebt * ClosedForm(u.stableBorrowRate, t - u.stableRateLastUpdated), RAY)
  {
    var (rate, last, principal) := (u.stableBorrowRate, u.stableRateLastUpdated, u.principalStableDebt);
    CompoundedIsClosedForm(rate, t, last);
    CompoundedMono(rate, rate, last, t, t);
    NoRate(last, t);
    NoPeriod(rate, t);
    var factor := CompoundedInterest(rate, t, last);
    MulAtNearest(principal, factor, RAY);
    MulAtUnit(principal, RAY);
    hide CompoundedInterest, ClosedForm, MulAt, Nearest;
  }

  // ----- the wallet against the pool -----

  /** What a deposit adds to the pool it takes from the wallet, and the other way round for a withdrawal. A repayment in
      its own transaction takes from the wallet what the pool gains, if the user pays their own debt, and otherwise leaves
      the wallet alone. */
  lemma WalletAndPool(r: Reserve, u: User, step: Step, ownAccount: bool)
    requires Enabled(r, step) && (step.action.Deposit? || step.action.Withdraw? || step.action.Repay?)
    requires step.action.Withdraw? || step.action.Repay? ==> step.action.user == u
    requires Next(r, step).liquidityIndex != 0 && Next(r, step).variableBorrowIndex != 0
    ensures var (after, t) := (Next(r, step), step.t);
      var wallet := match step.action
        case Deposit(amount) => UserAfterDeposit(amount, r, after, u, t).walletBalance
        case Withdraw(_, amount) => UserAfterWithdraw(amount, r, after, u, t).walletBalance
        case Repay(_, amount, mode) => UserAfterRepay(amount, mode, r, after, u, ownAccount, t, t).walletBalance
        case _ => u.walletBalance;
      if step.action.Repay? && !ownAccount then
        wallet == u.walletBalance
      else
        wallet + after.availableLiquidity == u.walletBalance + r.availableLiquidity
  {
    StepConserves(r, step);
    hide Next, Enabled, RayMul, RayDiv, ATokenBalance, UserStableDebt, VariableDebtBalance, AmountWithdrawn, AmountRepaid;
  }

  // ----- deposits and withdrawals -----

  /** The parts of a user's record that show debts, read at `t`. */
  ghost predicate ShowsDebts(r: Reserve, u: User, u': User, t: int)
    requires Inv(r) && r.lastUpdateTimestamp <= t
  {
    && u'.currentStableDebt == UserStableDebt(u, t)
    && (0 <= u.scaledVariableDebt <= r.scaledVariableDebt ==>
          u'.currentVariableDebt == RayMul(u.scaledVariableDebt, VariableIndexAt(r, t)))
    && u'.scaledVariableDebt == u.scaledVariableDebt
    && u'.stableBorrowRate == u.stableBorrowRate && u'.stableRateLastUpdated == u.stableRateLastUpdated
  }

  lemma VariableShown(r: Reserve, u: User, t: int)
    requires Inv(r) && r.lastUpdateTimestamp <= t
    ensures 0 <= u.scaledVariableDebt <= r.scaledVariableDebt ==>
      VariableDebtBalance(r, u, t) == RayMul(u.scaledVariableDebt, VariableIndexAt(r, t))
  {
    hide *;
    if 0 <= u.scaledVariableDebt <= r.scaledVariableDebt {
      VariableViewsAgree(r, u, t);
    }
  }

  /** A deposit raises the balance by exactly the amount, shows the debts as they are at `t`, but leaves the variable debt in
      the stable principal, and makes a first deposit collateral. */
  lemma DepositRecordIs(amount: int, r: Reserve, after: Reserve, u: User, t: int)
    requires Inv(r) && r.lastUpdateTimestamp <= t && after.liquidityIndex != 0
    ensures var u' := UserAfterDeposit(amount, r, after, u, t);
      && u'.currentATokenBalance == RayMul(u.scaledATokenBalance, LiquidityIndexAt(r, t)) + amount
      && ShowsDebts(r, u, u', t) && u'.principalStableDebt == u'.currentVariableDebt
      && u'.liquidityRate == after.liquidityRate
      && (if u.currentATokenBalance == 0 then u'.usageAsCollateralEnabled
          else u'.usageAsCollateralEnabled == u.usageAsCollateralEnabled)
      && u'.walletBalance == u.walletBalance - amount
  {
    SupplySide(r, u, t);
    VariableShown(r, u, t);
    hide RayMul, RayDiv, LiquidityIndexAt, VariableIndexAt, ATokenBalance, UserStableDebt, VariableDebtBalance, Inv;
  }

  /** A withdrawal lowers the balance by exactly what is withdrawn, shows the debts as they are at `t`, keeps the principal, and
      ends the use as collateral only with the balance. */
  lemma WithdrawRecordIs(amount: int, r: Reserve, after: Reserve, u: User, t: int)
    requires Inv(r) && r.lastUpdateTimestamp <= t && after.liquidityIndex != 0
    ensures var u' := UserAfterWithdraw(amount, r, after, u, t);
      && u'.currentATokenBalance == RayMul(u.scaledATokenBalance, LiquidityIndexAt(r, t)) - AmountWithdrawn(r, u, amount, t)
      && ShowsDebts(r, u, u', t) && u'.principalStableDebt == u.principalStableDebt
      && u'.liquidityRate == after.liquidityRate
      && (if u.currentATokenBalance == 0 then u'.usageAsCollateralEnabled
          else if u'.currentATokenBalance == 0 then !u'.usageAsCollateralEnabled
          else u'.usageAsCollateralEnabled == u.usageAsCollateralEnabled)
      && u'.walletBalance == u.walletBalance + AmountWithdrawn(r, u, amount, t)
  {
    SupplySide(r, u, t);
    VariableShown(r, u, t);
    hide RayMul, RayDiv, LiquidityIndexAt, VariableIndexAt, ATokenBalance, UserStableDebt, VariableDebtBalance, AmountWithdrawn,
      Inv;
  }

  // ----- repayments -----

  /** A repayment leaves the supply side alone. */
  ghost predicate SupplyKept(r: Reserve, after: Reserve, u: User, u': User, t: int)
    requires Inv(r) && r.lastUpdateTimestamp <= t
  {
    && u'.scaledATokenBalance == u.scaledATokenBalance
    && u'.currentATokenBalance == RayMul(u.scaledATokenBalance, LiquidityIndexAt(r, t))
    && u'.liquidityRate == after.liquidityRate && u'.usageAsCollateralEnabled == u.usageAsCollateralEnabled
  }

  /** Stable debt falls by exactly what is repaid. Once nothing is left, neither is a rate or an update time; otherwise the rate
      stays and the time is the transaction's. Variable debt is only read. */
  lemma StableRepaymentIs(amount: int, r: Reserve, after: Reserve, u: User, ownAccount: bool, t: int, now: int)
    requires Inv(r) && r.lastUpdateTimestamp <= t && after.variableBorrowIndex != 0
    ensures var (u', repaid) := (UserAfterRepay(amount, Stable, r, after, u, ownAccount, t, now),
        AmountRepaid(r, u, amount, Stable, now));
      && u'.currentStableDebt == u'.principalStableDebt == UserStableDebt(u, now) - repaid
      && (if u'.currentStableDebt == 0 then u'.stableBorrowRate == u'.stableRateLastUpdated == 0
          else u'.stableBorrowRate == u.stableBorrowRate && u'.stableRateLastUpdated == t)
      && u'.scaledVariableDebt == u.scaledVariableDebt && u'.currentVariableDebt == VariableDebtBalance(r, u, now)
      && SupplyKept(r, after, u, u', t)
      && u'.walletBalance == if ownAccount then u.walletBalance - repaid else u.walletBalance
  {
    SupplySide(r, u, t);
    hide RayMul, RayDiv, LiquidityIndexAt, ATokenBalance, UserStableDebt, VariableDebtBalance, AmountRepaid, Inv;
  }

  /** The worth of variable debt falls by what is repaid, to one unit and half a share. The stable debt read and its principal
      trade places. */
  lemma VariableRepaymentIs(amount: int, r: Reserve, after: Reserve, u: User, ownAccount: bool, t: int, now: int)
    requires Inv(r) && r.lastUpdateTimestamp <= t && after.variableBorrowIndex > 0
    ensures var (u', repaid, index) := (UserAfterRepay(amount, Variable, r, after, u, ownAccount, t, now),
        AmountRepaid(r, u, amount, Variable, now), after.variableBorrowIndex);
      && (0 <= repaid && RayDiv(repaid, index) <= u.scaledVariableDebt ==>
            && 0 <= u'.scaledVariableDebt <= u.scaledVariableDebt
            && 2 * (RAY * Abs(u'.currentVariableDebt - (RayMul(u.scaledVariableDebt, index) - repaid))) < 2 * RAY + index)
      && u'.currentVariableDebt == RayMul(u'.scaledVariableDebt, index)
      && u'.currentStableDebt == u.principalStableDebt && u'.principalStableDebt == UserStableDebt(u, now)
      && u'.stableBorrowRate == u.stableBorrowRate && u'.stableRateLastUpdated == u.stableRateLastUpdated
      && SupplyKept(r, after, u, u', t)
      && u'.walletBalance == if ownAccount then u.walletBalance - repaid else u.walletBalance
  {
    var (repaid, index) := (AmountRepaid(r, u, amount, Variable, now), after.variableBorrowIndex);
    SupplySide(r, u, t);
    if 0 <= repaid && RayDiv(repaid, index) <= u.scaledVariableDebt {
      DivAtNearest(repaid, index, RAY);
      SubError(u.scaledVariableDebt, repaid, index);
    }
    hide RayMul, RayDiv, DivAt, LiquidityIndexAt, ATokenBalance, UserStableDebt, VariableDebtBalance, AmountRepaid, Inv;
  }

  // ----- changing the rate mode -----

  /** Variable to stable: the stable debt shown rises by exactly what the user's shares are worth, which is what the reserve's
      stable debt rises by, no variable debt is left, and the new rate lies between the user's old rate and the quoted one. */
  lemma SwapToStableMovesDebt(r: Reserve, after: Reserve, u: User, t: int)
    requires Inv(r) && r.lastUpdateTimestamp <= t && 0 <= u.scaledVariableDebt <= r.scaledVariableDebt
    requires 0 <= UserStableDebt(u, t) && 0 <= u.stableBorrowRate && 0 < UserStableDebt(u, t) + VariableDebtBalance(r, u, t)
    requires LiquidityIndexAt(r, t) != 0 && VariableIndexAt(r, t) != 0 && after.variableBorrowIndex != 0
    ensures var (s, u') := (Swapped(r, u, Variable, t), UserAfterSwapRateMode(r, after, u, Variable, t));
      var worth := RayMul(u.scaledVariableDebt, VariableIndexAt(r, t));
      && u'.currentStableDebt == u'.principalStableDebt == u.currentStableDebt + worth
      && s.totalStableDebt - StableDebtOf(r, t) == worth
      && u'.currentVariableDebt == u'.scaledVariableDebt == 0
      && (if u.stableBorrowRate < r.stableBorrowRate then u.stableBorrowRate else r.stableBorrowRate) <= u'.stableBorrowRate
      && u'.stableBorrowRate <= (if u.stableBorrowRate < r.stableBorrowRate then r.stableBorrowRate else u.stableBorrowRate)
      && Abs((UserStableDebt(u, t) + worth) * u'.stableBorrowRate
             - (u.stableBorrowRate * UserStableDebt(u, t) + r.stableBorrowRate * worth)) < UserStableDebt(u, t) + worth
      && u'.stableRateLastUpdated == t
      && SwapKeeps(r, after, u, u', t)
  {
    hide *;
    VariableShown(r, u, t);
    SupplySide(r, u, t);
    StableRateSwapped(r, u, t);
    SwapFields(r, after, u, t);
    var worth := RayMul(u.scaledVariableDebt, VariableIndexAt(r, t));
    IndexesGrow(r, t);
    WorthNonneg(r, u, t);
    UserAverage(UserStableDebt(u, t), u.stableBorrowRate, worth, r.stableBorrowRate);
  }

  lemma WorthNonneg(r: Reserve, u: User, t: int)
    requires Inv(r) && r.lastUpdateTimestamp <= t && 0 <= u.scaledVariableDebt
    ensures 0 <= RayMul(u.scaledVariableDebt, VariableIndexAt(r, t)) && 0 <= r.stableBorrowRate
  {
    IndexesGrow(r, t);
    MulAtNearest(u.scaledVariableDebt, VariableIndexAt(r, t), RAY);
    hide MulAt, VariableIndexAt, LiquidityIndexAt, Nearest;
  }

  /** What a swap does not move. */
  ghost predicate SwapKeeps(r: Reserve, after: Reserve, u: User, u': User, t: int)
    requires Inv(r) && r.lastUpdateTimestamp <= t
  {
    && SupplyKept(r, after, u, u', t)
    && u'.walletBalance == u.walletBalance
  }

  lemma StableRateSwapped(r: Reserve, u: User, t: int)
    requires LiquidityIndexAt(r, t) != 0 && VariableIndexAt(r, t) != 0
    ensures Swapped(r, u, Variable, t).totalStableDebt == StableDebtOf(r, t) + VariableDebtBalance(r, u, t)
  {
    hide RayMul, RayDiv, LiquidityIndexAt, VariableIndexAt, TreasuryAt, StableDebtOf, AverageStableRate, VariableDebtBalance;
  }

  lemma SwapFields(r: Reserve, after: Reserve, u: User, t: int)
    requires Inv(r) && r.lastUpdateTimestamp <= t && after.variableBorrowIndex != 0
    requires UserStableDebt(u, t) + VariableDebtBalance(r, u, t) != 0
    requires ATokenBalance(r, u, t) == RayMul(u.scaledATokenBalance, LiquidityIndexAt(r, t))
    ensures var (u', debt) := (UserAfterSwapRateMode(r, after, u, Variable, t), VariableDebtBalance(r, u, t));
      && u'.currentStableDebt == u'.principalStableDebt == u.currentStableDebt + debt
      && u'.currentVariableDebt == u'.scaledVariableDebt == 0 && u'.stableRateLastUpdated == t
      && u'.stableBorrowRate == UserStableRate(UserStableDebt(u, t), u.stableBorrowRate, debt, r.stableBorrowRate)
      && SwapKeeps(r, after, u, u', t)
  {
    hide RayMul, RayDiv, LiquidityIndexAt, VariableDebtBalance, UserStableDebt, UserStableRate, ATokenBalance, Inv;
  }

  lemma UserAverage(balance: nat, rate: nat, amount: nat, quoted: nat)
    requires balance + amount > 0
    ensures var average := UserStableRate(balance, rate, amount, quoted);
      && (if rate < quoted then rate else quoted) <= average <= (if rate < quoted then quoted else rate)
      && Abs((balance + amount) * average - (rate * balance + quoted * amount)) < balance + amount
  {
    AverageStaysBetween(rate, balance, amount, quoted);
    AverageIsWeighted(rate, balance, amount, quoted);
    assert UserStableRate(balance, rate, amount, quoted) == AverageStableRate(rate, balance, amount, quoted) by {
      assert balance * rate == rate * balance && amount * quoted == quoted * amount;
      hide TruncDiv;
    }
    hide AverageStableRate, UserStableRate;
  }

  /** Stable to variable: no stable debt, rate or time is left, and the worth of variable debt rises by the stable debt, to one
      unit and half a share, as the reserve's stable debt falls by exactly it. */
  lemma SwapToVariableMovesDebt(r: Reserve, after: Reserve, u: User, t: int)
    requires Inv(r) && r.lastUpdateTimestamp <= t && 0 <= UserStableDebt(u, t) && 0 <= u.scaledVariableDebt
    requires LiquidityIndexAt(r, t) != 0 && VariableIndexAt(r, t) != 0 && after.variableBorrowIndex > 0
    ensures var (s, u') := (Swapped(r, u, Stable, t), UserAfterSwapRateMode(r, after, u, Stable, t));
      var (debt, index) := (UserStableDebt(u, t), after.variableBorrowIndex);
      && u'.currentStableDebt == u'.principalStableDebt == u'.stableBorrowRate == u'.stableRateLastUpdated == 0
      && StableDebtOf(r, t) - s.totalStableDebt == debt
      && u'.currentVariableDebt == RayMul(u'.scaledVariableDebt, index)
      && 2 * (RAY * Abs(u'.currentVariableDebt - (RayMul(u.scaledVariableDebt, index) + debt))) < 2 * RAY + index
      && SwapKeeps(r, after, u, u', t)
  {
    SupplySide(r, u, t);
    AddError(u.scaledVariableDebt, UserStableDebt(u, t), after.variableBorrowIndex);
    hide RayMul, RayDiv, LiquidityIndexAt, VariableIndexAt, TreasuryAt, StableDebtOf, AverageStableRate, VariableDebtBalance,
      UserStableDebt, UserStableRate, ATokenBalance, Inv;
  }
}
