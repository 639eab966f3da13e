/** Debt is neither lost nor invented: the treasury is paid out of real growth, and borrowing and
    repaying only exchange debt for liquidity, up to rounding. */
module Conservation {
  import opened WadRayMath
  import opened Interest
  import opened Shares
  import opened Rates
  import opened RateLaws
  import opened Reserve
  import opened Actions
  import opened Runs

  /** On a record whose debts are up to date, what accrues until `t` is exactly the growth of its debts. */
  lemma AccruedIsDebtGrowth(r: Reserve, t: int)
    requires UpToDate(r, r.lastUpdateTimestamp) && r.lastUpdateTimestamp <= t
    ensures LiquidityIndexAt(r, t) != 0
    ensures var s := Accrue(r, t);
      DebtAccrued(r, t) == s.totalStableDebt + s.totalVariableDebt - r.totalStableDebt - r.totalVariableDebt
  {
    AccrueSound(r, t);
    MulAtCommutes(r.principalStableDebt,
      CompoundedInterest(r.averageStableBorrowRate, r.lastUpdateTimestamp, r.totalStableDebtLastUpdated), RAY);
    hide CompoundedInterest, LiquidityIndexAt, VariableIndexAt, TreasuryAt;
  }

  /** The treasury's new shares are worth the reserve factor's percentage of the accrued debt: the amount is
      that percentage to the nearest unit, and the shares are worth the amount to one unit and half a share. */
  lemma TreasuryGetsItsShare(r: Reserve, t: int)
    requires Inv(r) && r.lastUpdateTimestamp <= t
    ensures LiquidityIndexAt(r, t) != 0
    ensures var s := Accrue(r, t);
      var minted := AmountToMint(r, t);
      && Nearest(minted, DebtAccrued(r, t) * r.reserveFactor, PERCENTAGE_FACTOR)
      && 2 * (RAY * Abs(RayMul(s.accruedToTreasuryScaled, s.liquidityIndex)
                        - (RayMul(r.accruedToTreasuryScaled, s.liquidityIndex) + minted))) < 2 * RAY + s.liquidityIndex
  {
    AccrueSound(r, t);
    AccrualNonneg(r, t);
    MulAtNearest(DebtAccrued(r, t), r.reserveFactor, PERCENTAGE_FACTOR);
    NoShareOfNothing(DebtAccrued(r, t), r.reserveFactor);
    AddError(r.accruedToTreasuryScaled, AmountToMint(r, t), LiquidityIndexAt(r, t));
    hide RayMul, RayDiv, PercentMul, MulAt, LiquidityIndexAt, VariableIndexAt, StableDebtOf, DebtAccrued;
  }

  lemma NoShareOfNothing(a: nat, bps: nat)
    ensures bps == 0 ==> PercentMul(a, bps) == 0
  {
    assert a * 0 == 0;
  }

  /** The two ways of reading stable debt agree, except on debt that claims never to have been updated:
      of that, the interest goes unread. */
  lemma StableViewsAgree(principal: nat, rate: nat, lastUpdated: int, t: int)
    requires lastUpdated <= t
    ensures StableDebtBalance(principal, rate, lastUpdated, t)
         == if lastUpdated == 0 then principal else TotalStableDebtAt(principal, rate, lastUpdated, t)
    ensures principal == 0 ==> TotalStableDebtAt(principal, rate, lastUpdated, t) == 0
  {
    NoRate(lastUpdated, t);
    NoPeriod(rate, t);
    UnitFactor(principal);
    MulAtCommutes(principal, CompoundedInterest(rate, t, lastUpdated), RAY);
    WorthOfNothing(CompoundedInterest(rate, t, lastUpdated));
    hide CompoundedInterest, MulAt;
  }

  /** Borrowing turns liquidity into debt: their sum keeps its value at the transaction, exactly for stable
      debt, and to one unit and half a share for variable debt. A variable borrow reads the stable debt without
      its interest when that debt claims never to have been updated, and then the sum lacks that interest. */
  lemma BorrowConserves(r: Reserve, amount: nat, mode: RateMode, t: int)
    requires Inv(r) && r.lastUpdateTimestamp <= t && amount <= r.availableLiquidity
    ensures LiquidityIndexAt(r, t) != 0 && VariableIndexAt(r, t) != 0
    ensures var s := Borrowed(r, amount, mode, t);
      var change := s.availableLiquidity + s.totalStableDebt + s.totalVariableDebt - (r.availableLiquidity + DebtAt(r, t));
      var unread := if r.totalStableDebtLastUpdated == 0 then StableDebtOf(r, t) - r.principalStableDebt else 0;
      if mode == Stable then
        change == 0
      else
        2 * (RAY * Abs(change + unread)) < 2 * RAY + s.variableBorrowIndex
  {
    BorrowedSound(r, amount, mode, t);
    AccrueSound(r, t);
    AddError(r.scaledVariableDebt, amount, VariableIndexAt(r, t));
    StableViewsAgree(r.principalStableDebt, r.averageStableBorrowRate, r.totalStableDebtLastUpdated, t);
    hide RayMul, RayDiv, LiquidityIndexAt, VariableIndexAt, TreasuryAt, AverageStableRate, StableDebtBalance, TotalStableDebtAt;
  }

  /** A stable borrow moves the average rate toward the quoted rate, never past it. */
  lemma BorrowAverageBetween(r: Reserve, amount: nat, t: int)
    requires Inv(r) && r.lastUpdateTimestamp <= t && 0 < amount <= r.availableLiquidity
    requires LiquidityIndexAt(r, t) != 0 && VariableIndexAt(r, t) != 0
    ensures var (low, high) := if r.averageStableBorrowRate < r.stableBorrowRate
        then (r.averageStableBorrowRate, r.stableBorrowRate) else (r.stableBorrowRate, r.averageStableBorrowRate);
      low <= Borrowed(r, amount, Stable, t).averageStableBorrowRate <= high
  {
    AccrueSound(r, t);
    AverageStaysBetween(r.averageStableBorrowRate, StableDebtOf(r, t), amount, r.stableBorrowRate);
    hide RayMul, LiquidityIndexAt, VariableIndexAt, TreasuryAt, AverageStableRate, StableDebtOf;
  }

  /** What a borrower's record shows at a later moment is what accruing the new record to that moment gives. */
  lemma BorrowReadsAhead(p: Strategy, r: Reserve, amount: nat, mode: RateMode, t: int, now: int)
    requires Ready(p, r, t) && amount <= r.availableLiquidity && t <= now
    ensures var s := AfterBorrow(p, r, amount, mode, t, now);
      && LiquidityIndexAt(s, now) != 0
      && Accrue(s, now).totalStableDebt == s.totalStableDebt
      && Accrue(s, now).totalVariableDebt == s.totalVariableDebt
  {
    BorrowedSound(r, amount, mode, t);
    PricedInv(p, Borrowed(r, amount, mode, t));
    DebtsReadSound(p, r, amount, mode, t, now);
    var s0 := WithRates(Borrowed(r, amount, mode, t), RatesOf(p, Borrowed(r, amount, mode, t)));
    var s := AfterBorrow(p, r, amount, mode, t, now);
    assert s0.lastUpdateTimestamp == t by {
      hide RayMul, LiquidityIndexAt, VariableIndexAt, StableDebtOf, TreasuryAt, AverageStableRate, InterestRates;
    }
    AccrueSound(s, now);
    hide Borrowed, RatesDefined, InterestRates, UsageRatio;
    ReadIsAccrual(s0, s, t, now);
  }

  lemma ReadIsAccrual(s0: Reserve, s: Reserve, t: int, now: int)
    requires Inv(s) && s0.lastUpdateTimestamp == t <= now
    requires SameButRates(DebtsReadAt(s0, t, now), s) && s.variableBorrowRate == s0.variableBorrowRate
    ensures StableDebtOf(s, now) == s.totalStableDebt
    ensures RayMul(s.scaledVariableDebt, VariableIndexAt(s, now)) == s.totalVariableDebt
  {
    hide RayMul, CompoundedInterest, TotalStableDebtAt;
    NoRate(t, now);
    UnitFactor(s.variableBorrowIndex);
    WorthOfNothing(VariableIndexAt(s, now));
  }

  /** Repaying turns debt into liquidity: the sum keeps its value, to one unit and half a share for variable
      debt. For stable debt it keeps its value exactly if and only if the amount can be taken out of the
      reserve's stable debt. If it cannot, all stable debt is written off, and the sum changes by the amount
      beyond the stable debt or by what others still owed. */
  lemma RepayConserves(r: Reserve, u: User, repaid: int, mode: RateMode, t: int)
    requires Inv(r) && r.lastUpdateTimestamp <= t && MayPay(r, u, repaid, mode, t)
    ensures LiquidityIndexAt(r, t) != 0 && VariableIndexAt(r, t) != 0
    ensures var s := Repaid(r, repaid, u.stableBorrowRate, mode, t);
      var change := s.availableLiquidity + s.totalStableDebt + s.totalVariableDebt - (r.availableLiquidity + DebtAt(r, t));
      var removable := Removable(r.averageStableBorrowRate, StableDebtOf(r, t), repaid, u.stableBorrowRate);
      if mode != Stable then
        2 * (RAY * Abs(change)) < 2 * RAY + s.variableBorrowIndex
      else
        && (change == 0 <==> removable)
        && (!removable ==>
              && s.totalStableDebt == s.principalStableDebt == s.averageStableBorrowRate == 0
              && change == repaid - StableDebtOf(r, t))
  {
    RepaidSound(r, u, repaid, mode, t);
    AccrueSound(r, t);
    RemovableExactly(r.averageStableBorrowRate, StableDebtOf(r, t), repaid, u.stableBorrowRate);
    var index := VariableIndexAt(r, t);
    if mode != Stable {
      VariableViewsAgree(r, u, t);
      PartOfHolding(u.scaledVariableDebt, repaid, index);
      SubError(r.scaledVariableDebt, repaid, index);
    }
    hide RayMul, RayDiv, LiquidityIndexAt, VariableIndexAt, StableDebtOf, TreasuryAt, AverageStableRate, VariableDebtBalance;
  }

  /** Minting unbacked tokens keeps the average stable rate of a reserve with stable debt. */
  lemma MintKeepsAverage(r: Reserve, amount: nat, t: int)
    requires Inv(r) && LiquidityIndexAt(r, t) != 0
    ensures MintedUnbacked(r, amount, t).averageStableBorrowRate
         == if r.totalStableDebt == 0 then 0 else r.averageStableBorrowRate
  {
    if r.totalStableDebt != 0 {
      var n := r.averageStableBorrowRate * r.totalStableDebt;
      assert r.stableBorrowRate * 0 == 0;
      assert n == r.totalStableDebt * r.averageStableBorrowRate;
      ExactQuotient(n, r.totalStableDebt, r.averageStableBorrowRate);
    }
    hide LiquidityIndexAt, VariableIndexAt, StableDebtOf, TreasuryAt, TruncDiv;
  }

  /** So does backing them. */
  lemma BackingKeepsAverage(r: Reserve, b: Backing, t: int)
    requires Inv(r) && LiquidityIndexAt(r, t) != 0 && CanBack(r, b, t) && IndexAfterBacking(r, b, t) != 0
    ensures BackedUnbacked(r, b, t).averageStableBorrowRate
         == if r.totalStableDebt == 0 then 0 else r.averageStableBorrowRate
  {
    MintKeepsAverage(r, 0, t);
    hide LiquidityIndexAt, VariableIndexAt, StableDebtOf, TreasuryAt, AverageStableRate, IndexAfterBacking, PremiumToProtocol,
      CanBack, RayDiv, RayMul;
  }
}
