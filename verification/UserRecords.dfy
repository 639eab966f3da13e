/** The user's record, filled field by field as the source does. */
module UserRecords {
  import opened WadRayMath
  import opened Reserve
  import opened Actions
  import opened Users

  class UserRecord {
    var scaledATokenBalance: int
    var currentATokenBalance: int
    var currentStableDebt: int
    var currentVariableDebt: int
    var principalStableDebt: int
    var scaledVariableDebt: int
    var liquidityRate: int
    var stableBorrowRate: int
    var stableRateLastUpdated: int
    var usageAsCollateralEnabled: bool
    var walletBalance: int

    function Value(): User
      reads this
    {
      User(scaledATokenBalance, currentATokenBalance, currentStableDebt, currentVariableDebt, principalStableDebt,
        scaledVariableDebt, liquidityRate, stableBorrowRate, stableRateLastUpdated, usageAsCollateralEnabled,
        walletBalance)
    }

    /** An empty record: every field is arbitrary until it is assigned. */
    constructor () {
    }

    /** A shallow copy. */
    constructor CopyOf(u: UserRecord)
      ensures Value() == u.Value()
    {
      scaledATokenBalance := u.scaledATokenBalance;
      currentATokenBalance := u.currentATokenBalance;
      currentStableDebt := u.currentStableDebt;
      currentVariableDebt := u.currentVariableDebt;
      principalStableDebt := u.principalStableDebt;
      scaledVariableDebt := u.scaledVariableDebt;
      liquidityRate := u.liquidityRate;
      stableBorrowRate := u.stableBorrowRate;
      stableRateLastUpdated := u.stableRateLastUpdated;
      usageAsCollateralEnabled := u.usageAsCollateralEnabled;
      walletBalance := u.walletBalance;
    }

    /** The debts of a user who neither borrowed nor repaid, read at `t`. */
    method ReadDebts(before: UserRecord, r: Reserve, t: int)
      requires before != this
      modifies this
      ensures var u := before.Value();
        Value() == old(Value()).(
          currentStableDebt := UserStableDebt(u, t),
          currentVariableDebt := VariableDebtBalance(r, u, t),
          principalStableDebt := u.principalStableDebt,
          scaledVariableDebt := u.scaledVariableDebt,
          stableBorrowRate := u.stableBorrowRate,
          stableRateLastUpdated := u.stableRateLastUpdated)
    {
      hide VariableDebtBalance, UserStableDebt;
      currentStableDebt := UserStableDebt(before.Value(), t);
      currentVariableDebt := VariableDebtBalance(r, before.Value(), t);
      principalStableDebt := before.principalStableDebt;
      scaledVariableDebt := before.scaledVariableDebt;
      stableBorrowRate := before.stableBorrowRate;
      stableRateLastUpdated := before.stableRateLastUpdated;
    }

    /** The supply side of a user who neither deposited nor withdrew. */
    method ReadSupply(before: UserRecord, r: Reserve, after: Reserve, t: int)
      requires before != this
      modifies this
      ensures var u := before.Value();
        Value() == old(Value()).(
          liquidityRate := after.liquidityRate,
          usageAsCollateralEnabled := u.usageAsCollateralEnabled,
          currentATokenBalance := ATokenBalance(r, u, t),
          scaledATokenBalance := u.scaledATokenBalance)
    {
      hide ATokenBalance;
      liquidityRate := after.liquidityRate;
      usageAsCollateralEnabled := before.usageAsCollateralEnabled;
      currentATokenBalance := ATokenBalance(r, before.Value(), t);
      scaledATokenBalance := before.scaledATokenBalance;
    }

    /** The collateral flag after a withdrawal, given the flag and balance from before it. */
    method TakeCollateralFlag(balanceBefore: int, enabledBefore: bool)
      modifies this`usageAsCollateralEnabled
      ensures Value() == old(Value()).(usageAsCollateralEnabled :=
        balanceBefore == 0 || (currentATokenBalance != 0 && enabledBefore))
    {
      if balanceBefore == 0 {
        usageAsCollateralEnabled := true;
      } else if currentATokenBalance == 0 {
        usageAsCollateralEnabled := false;
      } else {
        usageAsCollateralEnabled := enabledBefore;
      }
    }

    /** Debts and stable rate of a user who owes `stableDebt` and `variableDebt` and pays off `repaid`. */
    method TakeRepayment(u: User, mode: RateMode, stableDebt: int, variableDebt: int, repaid: int, index: int, t: int)
      requires index != 0
      modifies this
      ensures Value() == old(Value()).(
        currentStableDebt := currentStableDebt,
        currentVariableDebt := currentVariableDebt,
        principalStableDebt := principalStableDebt,
        scaledVariableDebt := scaledVariableDebt,
        stableBorrowRate := stableBorrowRate,
        stableRateLastUpdated := stableRateLastUpdated)
      ensures mode == Stable ==>
        && currentStableDebt == principalStableDebt == stableDebt - repaid
        && stableBorrowRate == (if stableDebt == repaid then 0 else u.stableBorrowRate)
        && stableRateLastUpdated == (if stableDebt == repaid then 0 else t)
        && scaledVariableDebt == u.scaledVariableDebt && currentVariableDebt == variableDebt
      ensures mode != Stable ==>
        && currentStableDebt == u.principalStableDebt && principalStableDebt == stableDebt
        && stableBorrowRate == u.stableBorrowRate && stableRateLastUpdated == u.stableRateLastUpdated
        && scaledVariableDebt == u.scaledVariableDebt - RayDiv(repaid, index)
        && currentVariableDebt == RayMul(scaledVariableDebt, index)
    {
      hide RayMul, RayDiv;
      if mode == Stable {
        scaledVariableDebt := u.scaledVariableDebt;
        currentVariableDebt := variableDebt;
        currentStableDebt := stableDebt - repaid;
        principalStableDebt := currentStableDebt;
        if currentStableDebt == 0 {
          stableRateLastUpdated := 0;
          stableBorrowRate := stableRateLastUpdated;
        } else {
          stableBorrowRate := u.stableBorrowRate;
          stableRateLastUpdated := t;
        }
      } else {
        currentStableDebt := u.principalStableDebt;
        principalStableDebt := stableDebt;
        stableBorrowRate := u.stableBorrowRate;
        stableRateLastUpdated := u.stableRateLastUpdated;
        scaledVariableDebt := u.scaledVariableDebt - RayDiv(repaid, index);
        currentVariableDebt := RayMul(scaledVariableDebt, index);
      }
    }
  }

  function ScaledATokenBalance(u: User, index: int, amountAdded: int, amountTaken: int): int
    requires index != 0
  {
    u.scaledATokenBalance + RayDiv(amountAdded, index) - RayDiv(amountTaken, index)
  }

  method UserDataAfterDeposit(amountDeposited: int, r: Reserve, after: Reserve, before: UserRecord, t: int)
    returns (expected: UserRecord)
    requires after.liquidityIndex != 0
    ensures fresh(expected)
    ensures expected.Value() == UserAfterDeposit(amountDeposited, r, after, before.Value(), t)
  {
    hide RayDiv, ATokenBalance, VariableDebtBalance, StableDebtBalance;
    var u := before.Value();
    expected := new UserRecord();
    expected.ReadDebts(before, r, t);
    expected.liquidityRate := after.liquidityRate;
    expected.scaledATokenBalance := ScaledATokenBalance(u, after.liquidityIndex, amountDeposited, 0);
    expected.currentATokenBalance := ATokenBalance(r, u, t) + amountDeposited;
    if before.currentATokenBalance == 0 {
      expected.usageAsCollateralEnabled := true;
    } else {
      expected.usageAsCollateralEnabled := before.usageAsCollateralEnabled;
    }
    expected.walletBalance := before.walletBalance - amountDeposited;
    expected.principalStableDebt := UserStableDebt(u, t);
    expected.currentStableDebt := expected.principalStableDebt;
    expected.principalStableDebt := VariableDebtBalance(r, u, t);
    expected.currentVariableDebt := expected.principalStableDebt;
  }

  /** The sentinel amount stands for the user's whole balance. */
  method ResolveWithdrawn(amountWithdrawn: int, r: Reserve, u: User, t: int) returns (amount: int)
    ensures amount == AmountWithdrawn(r, u, amountWithdrawn, t)
  {
    hide ATokenBalance;
    amount := amountWithdrawn;
    if amount == MAX_UINT_AMOUNT {
      amount := ATokenBalance(r, u, t);
    }
  }

  /** The sentinel amount, of either sign, stands for the user's whole debt. */
  method ResolveRepaid(totalRepaid: int, mode: RateMode, r: Reserve, u: User, now: int) returns (repaid: int)
    ensures repaid == AmountRepaid(r, u, totalRepaid, mode, now)
  {
    hide UserStableDebt, VariableDebtBalance;
    repaid := totalRepaid;
    if Abs(repaid) == MAX_UINT_AMOUNT {
      repaid := if mode == Stable then UserStableDebt(u, now) else VariableDebtBalance(r, u, now);
    }
  }

  method UserDataAfterWithdraw(amountWithdrawn: int, r: Reserve, after: Reserve, before: UserRecord, t: int)
    returns (expected: UserRecord)
    requires after.liquidityIndex != 0
    ensures fresh(expected)
    ensures expected.Value() == UserAfterWithdraw(amountWithdrawn, r, after, before.Value(), t)
  {
    hide RayDiv, ATokenBalance, VariableDebtBalance, StableDebtBalance;
    var u := before.Value();
    expected := new UserRecord();
    hide AmountWithdrawn, UserStableDebt;
    var aTokenBalance := ATokenBalance(r, u, t);
    var amount := ResolveWithdrawn(amountWithdrawn, r, u, t);
    expected.scaledATokenBalance := ScaledATokenBalance(u, after.liquidityIndex, 0, amount);
    expected.currentATokenBalance := aTokenBalance - amount;
    expected.ReadDebts(before, r, t);
    expected.liquidityRate := after.liquidityRate;
    expected.TakeCollateralFlag(before.currentATokenBalance, before.usageAsCollateralEnabled);
    expected.walletBalance := before.walletBalance + amount;
    assert before.Value() == u;
    assert expected.Value() == UserAfterWithdraw(amountWithdrawn, r, after, u, t);
  }

  method UserDataAfterRepay(totalRepaid: int, mode: RateMode, r: Reserve, after: Reserve, before: UserRecord,
    ownAccount: bool, t: int, now: int) returns (expected: UserRecord)
    requires after.variableBorrowIndex != 0
    ensures fresh(expected)
    ensures expected.Value() == UserAfterRepay(totalRepaid, mode, r, after, before.Value(), ownAccount, t, now)
  {
    hide RayMul, RayDiv, ATokenBalance, VariableDebtBalance, StableDebtBalance;
    var u := before.Value();
    expected := new UserRecord();
    var variableDebt := VariableDebtBalance(r, u, now);
    var stableDebt := UserStableDebt(u, now);
    hide AmountRepaid, UserStableDebt;
    var repaid := ResolveRepaid(totalRepaid, mode, r, u, now);
    expected.TakeRepayment(u, mode, stableDebt, variableDebt, repaid, after.variableBorrowIndex, t);
    expected.ReadSupply(before, r, after, t);
    if ownAccount {
      expected.walletBalance := before.walletBalance - repaid;
    } else {
      expected.walletBalance := before.walletBalance;
    }
    assert before.Value() == u;
    assert expected.Value() == UserAfterRepay(totalRepaid, mode, r, after, u, ownAccount, t, now);
  }

  method UserDataAfterSwapRateMode(r: Reserve, after: Reserve, before: UserRecord, mode: RateMode, t: int)
    returns (expected: UserRecord)
    requires after.variableBorrowIndex != 0
    requires mode != Stable ==> UserStableDebt(before.Value(), t) + VariableDebtBalance(r, before.Value(), t) != 0
    ensures fresh(expected)
    ensures expected.Value() == UserAfterSwapRateMode(r, after, before.Value(), mode, t)
  {
    hide RayMul, RayDiv, ATokenBalance, VariableDebtBalance, StableDebtBalance, UserStableRate;
    var u := before.Value();
    expected := new UserRecord.CopyOf(before);
    var stableDebtBalance := UserStableDebt(u, t);
    var variableDebtBalance := VariableDebtBalance(r, u, t);
    expected.currentATokenBalance := ATokenBalance(r, u, t);
    if mode == Stable {
      expected.currentStableDebt, expected.principalStableDebt := 0, 0;
      expected.stableBorrowRate := 0;
      expected.scaledVariableDebt :=
        before.scaledVariableDebt + RayDiv(stableDebtBalance, after.variableBorrowIndex);
      expected.currentVariableDebt := RayMul(expected.scaledVariableDebt, after.variableBorrowIndex);
      expected.stableRateLastUpdated := 0;
    } else {
      expected.currentStableDebt := before.currentStableDebt + variableDebtBalance;
      expected.principalStableDebt := expected.currentStableDebt;
      expected.stableBorrowRate :=
        UserStableRate(stableDebtBalance, before.stableBorrowRate, variableDebtBalance, r.stableBorrowRate);
      expected.stableRateLastUpdated := t;
      expected.currentVariableDebt, expected.scaledVariableDebt := 0, 0;
    }
    expected.liquidityRate := after.liquidityRate;
  }
}
