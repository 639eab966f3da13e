/** The records as the source handles them: objects created empty and filled field by field, in the
    source's order. Every method is proved to produce exactly the value its specification names, and a
    field that is read before it was set would make that proof fail, since fields start out arbitrary. */
module Records {
  import opened WadRayMath
  import opened Interest
  import opened Rates
  import opened Reserve
  import opened Actions

  class ReserveRecord {
    var reserveFactor: int
    var unbacked: int
    var accruedToTreasuryScaled: int
    var availableLiquidity: int
    var totalLiquidity: int
    var borrowUsageRatio: int
    var supplyUsageRatio: int
    var totalStableDebt: int
    var totalVariableDebt: int
    var principalStableDebt: int
    var scaledVariableDebt: int
    var averageStableBorrowRate: int
    var liquidityRate: int
    var stableBorrowRate: int
    var variableBorrowRate: int
    var liquidityIndex: int
    var variableBorrowIndex: int
    var marketStableRate: int
    var lastUpdateTimestamp: int
    var totalStableDebtLastUpdated: int

    function Value(): Reserve
      reads this
    {
      Reserve(reserveFactor, unbacked, accruedToTreasuryScaled, availableLiquidity, totalLiquidity,
        borrowUsageRatio, supplyUsageRatio, totalStableDebt, totalVariableDebt, principalStableDebt,
        scaledVariableDebt, averageStableBorrowRate, liquidityRate, stableBorrowRate, variableBorrowRate,
        liquidityIndex, variableBorrowIndex, marketStableRate, lastUpdateTimestamp, totalStableDebtLastUpdated)
    }

    /** An empty record for the outcome of a transaction at `t`. Only the data the next action will read
        back from the chain is carried over here. */
    constructor Expected(before: ReserveRecord, t: int)
      ensures reserveFactor == before.reserveFactor && unbacked == before.unbacked
      ensures marketStableRate == before.marketStableRate
      ensures lastUpdateTimestamp == t && totalStableDebtLastUpdated == before.totalStableDebtLastUpdated
    {
      reserveFactor := before.reserveFactor;
      unbacked := before.unbacked;
      marketStableRate := before.marketStableRate;
      lastUpdateTimestamp := t;
      totalStableDebtLastUpdated := before.totalStableDebtLastUpdated;
    }

    /** Indexes first, then debts, then the treasury's share of the interest between the two records. */
    method UpdateState(before: ReserveRecord, t: int)
      requires before != this && LiquidityIndexAt(before.Value(), t) != 0
      modifies this`liquidityIndex, this`variableBorrowIndex, this`totalStableDebt, this`totalVariableDebt,
        this`scaledVariableDebt, this`principalStableDebt, this`accruedToTreasuryScaled
      ensures var r := before.Value();
        Value() == old(Value()).(
          liquidityIndex := LiquidityIndexAt(r, t),
          variableBorrowIndex := VariableIndexAt(r, t),
          totalStableDebt := StableDebtOf(r, t),
          totalVariableDebt := RayMul(r.scaledVariableDebt, VariableIndexAt(r, t)),
          scaledVariableDebt := r.scaledVariableDebt,
          principalStableDebt := r.principalStableDebt,
          accruedToTreasuryScaled := TreasuryAt(r, t))
    {
      hide RayMul, LiquidityIndexAt, VariableIndexAt, StableDebtOf, TreasuryAt;
      UpdateIndexes(before, t);
      UpdateDebts(before, t);
      AccrueToTreasury(before, t);
    }

    method UpdateIndexes(before: ReserveRecord, t: int)
      requires before != this
      modifies this`liquidityIndex, this`variableBorrowIndex
      ensures var r := before.Value();
        Value() == old(Value()).(liquidityIndex := LiquidityIndexAt(r, t), variableBorrowIndex := VariableIndexAt(r, t))
    {
      hide RayMul, CompoundedInterest, LinearInterest;
      if before.supplyUsageRatio == 0 {
        liquidityIndex := before.liquidityIndex;
      } else {
        var cumulatedInterest := LinearInterest(before.liquidityRate, t, before.lastUpdateTimestamp);
        liquidityIndex := RayMul(cumulatedInterest, before.liquidityIndex);
      }
      if before.totalVariableDebt == 0 {
        variableBorrowIndex := before.variableBorrowIndex;
      } else {
        var cumulatedInterest := CompoundedInterest(before.variableBorrowRate, t, before.lastUpdateTimestamp);
        variableBorrowIndex := RayMul(cumulatedInterest, before.variableBorrowIndex);
      }
    }

    method UpdateDebts(before: ReserveRecord, t: int)
      requires before != this
      modifies this`totalStableDebt, this`totalVariableDebt, this`scaledVariableDebt, this`principalStableDebt
      ensures var r := before.Value();
        Value() == old(Value()).(
          totalStableDebt := StableDebtOf(r, t),
          totalVariableDebt := RayMul(r.scaledVariableDebt, variableBorrowIndex),
          scaledVariableDebt := r.scaledVariableDebt,
          principalStableDebt := r.principalStableDebt)
    {
      hide RayMul, TotalStableDebtAt;
      totalStableDebt := TotalStableDebtAt(before.principalStableDebt, before.averageStableBorrowRate,
        before.totalStableDebtLastUpdated, t);
      totalVariableDebt := RayMul(before.scaledVariableDebt, variableBorrowIndex);
      scaledVariableDebt := before.scaledVariableDebt;
      principalStableDebt := before.principalStableDebt;
    }

    /** The treasury is paid its percentage of what all debt has grown by, in shares at the new index. */
    method AccrueToTreasury(before: ReserveRecord, t: int)
      requires before != this && LiquidityIndexAt(before.Value(), t) != 0
      requires liquidityIndex == LiquidityIndexAt(before.Value(), t)
      requires variableBorrowIndex == VariableIndexAt(before.Value(), t)
      requires totalStableDebt == StableDebtOf(before.Value(), t)
      requires scaledVariableDebt == before.scaledVariableDebt
      modifies this`accruedToTreasuryScaled
      ensures Value() == old(Value()).(accruedToTreasuryScaled := TreasuryAt(before.Value(), t))
    {
      hide RayMul, RayDiv, PercentMul, CompoundedInterest, LiquidityIndexAt, VariableIndexAt, StableDebtOf;
      accruedToTreasuryScaled := before.accruedToTreasuryScaled;
      if before.reserveFactor != 0 {
        var prevTotalVariableDebt := RayMul(before.scaledVariableDebt, before.variableBorrowIndex);
        var currTotalVariableDebt := RayMul(scaledVariableDebt, variableBorrowIndex);
        var cumulatedStableInterest := CompoundedInterest(before.averageStableBorrowRate, before.lastUpdateTimestamp,
          before.totalStableDebtLastUpdated);
        var prevTotalStableDebt := RayMul(before.principalStableDebt, cumulatedStableInterest);
        var totalDebtAccrued := currTotalVariableDebt + totalStableDebt - prevTotalVariableDebt - prevTotalStableDebt;
        var amountToMint := PercentMul(totalDebtAccrued, before.reserveFactor);
        assert amountToMint == AmountToMint(before.Value(), t);
        if amountToMint > 0 {
          accruedToTreasuryScaled := accruedToTreasuryScaled + RayDiv(amountToMint, liquidityIndex);
        }
      }
    }

    /** The suppliers' part of the fee raises the index; the protocol's part becomes treasury shares at
        the raised index. */
    method DistributeFee(ghost r: Reserve, b: Backing, t: int)
      requires Inv(r) && r.lastUpdateTimestamp <= t && LiquidityIndexAt(r, t) != 0 && CanBack(r, b, t)
      requires liquidityIndex == LiquidityIndexAt(r, t) && accruedToTreasuryScaled == TreasuryAt(r, t)
      modifies this`liquidityIndex, this`accruedToTreasuryScaled
      ensures liquidityIndex == IndexAfterBacking(r, b, t) != 0
      ensures Value() == old(Value()).(liquidityIndex := liquidityIndex,
        accruedToTreasuryScaled := TreasuryAt(r, t) + RayDiv(PremiumToProtocol(b), liquidityIndex))
    {
      hide RayMul, RayDiv, LiquidityIndexAt, TreasuryAt, PercentMul, CumulateToLiquidityIndex, IndexAfterBacking;
      BackedUnbackedSound(r, b, t);
      BackingIndexSteps(r, b, t);
      var premiumToProtocol := PercentMul(b.fee, b.protocolFee);
      var premiumToLP := b.fee - premiumToProtocol;
      var totalSupply := RayMul(b.scaledATokenSupply, liquidityIndex);
      liquidityIndex := CumulateToLiquidityIndex(liquidityIndex,
        totalSupply + RayMul(accruedToTreasuryScaled, liquidityIndex), premiumToLP);
      accruedToTreasuryScaled := accruedToTreasuryScaled + RayDiv(premiumToProtocol, liquidityIndex);
    }

    method UpdateUsageRatios()
      requires UsageDefined(Value())
      modifies this`borrowUsageRatio, this`supplyUsageRatio
      ensures Value() == WithUsage(old(Value()))
    {
      hide RayDiv;
      var totalDebt := totalStableDebt + totalVariableDebt;
      borrowUsageRatio := if totalDebt == 0 then 0 else RayDiv(totalDebt, availableLiquidity + totalDebt);
      supplyUsageRatio := if totalDebt == 0 then 0 else RayDiv(totalDebt, totalLiquidity + totalDebt);
    }

    method UpdateLiquidityAndUsageRatios(before: ReserveRecord, liquidityAdded: int, liquidityTaken: int)
      requires before != this
      requires 0 <= totalStableDebt && 0 <= totalVariableDebt && 0 <= unbacked
      requires 0 <= before.availableLiquidity + liquidityAdded - liquidityTaken
      modifies this`availableLiquidity, this`totalLiquidity, this`borrowUsageRatio, this`supplyUsageRatio
      ensures var available := before.availableLiquidity + liquidityAdded - liquidityTaken;
        var moved := old(Value()).(availableLiquidity := available, totalLiquidity := available + unbacked);
        UsageDefined(moved) && Value() == WithUsage(moved)
    {
      availableLiquidity := before.availableLiquidity + liquidityAdded - liquidityTaken;
      totalLiquidity := availableLiquidity + unbacked;
      UpdateUsageRatios();
    }

    /** How most actions begin: accrue, then move the liquidity. */
    method Begin(before: ReserveRecord, liquidityAdded: int, liquidityTaken: int, t: int)
      requires before != this && Inv(before.Value()) && before.lastUpdateTimestamp <= t
      requires reserveFactor == before.reserveFactor && unbacked == before.unbacked
      requires marketStableRate == before.marketStableRate
      requires lastUpdateTimestamp == t && totalStableDebtLastUpdated == before.totalStableDebtLastUpdated
      requires 0 <= before.availableLiquidity + liquidityAdded - liquidityTaken
      modifies this
      ensures LiquidityIndexAt(before.Value(), t) != 0 && Accrued(before, this, liquidityAdded, liquidityTaken, t)
    {
      hide RayMul, RayDiv, LiquidityIndexAt, VariableIndexAt, StableDebtOf, TreasuryAt, UsageRatio;
      AccrueSound(before.Value(), t);
      UpdateState(before, t);
      UpdateLiquidityAndUsageRatios(before, liquidityAdded, liquidityTaken);
    }

    method TakeRates(rates: Rates)
      modifies this`liquidityRate, this`stableBorrowRate, this`variableBorrowRate
      ensures Value() == WithRates(old(Value()), rates)
    {
      liquidityRate := rates.liquidityRate;
      stableBorrowRate := rates.stableBorrowRate;
      variableBorrowRate := rates.variableBorrowRate;
    }

    method SetRates(p: Strategy)
      requires Priceable(p, Value())
      modifies this`liquidityRate, this`stableBorrowRate, this`variableBorrowRate
      ensures Value() == WithRates(old(Value()), RatesOf(p, old(Value())))
    {
      var rates := CalcExpectedInterestRates(p, marketStableRate, totalStableDebt, totalVariableDebt,
        averageStableBorrowRate, availableLiquidity, totalLiquidity);
      TakeRates(rates);
    }

    method UpdateTotalLiquidityAndUsageRatio()
      requires UsageDefined(Value().(totalLiquidity := availableLiquidity + unbacked))
      modifies this`totalLiquidity, this`borrowUsageRatio, this`supplyUsageRatio
      ensures Value() == WithUsage(old(Value()).(totalLiquidity := availableLiquidity + unbacked))
    {
      totalLiquidity := availableLiquidity + unbacked;
      UpdateUsageRatios();
    }

    /** Average rate and principal once `amountBorrowed` is added to the stable debt at `t`. */
    method TakeStableBorrow(before: ReserveRecord, amountBorrowed: int, t: int)
      requires before != this
      modifies this`averageStableBorrowRate, this`principalStableDebt, this`totalStableDebtLastUpdated
      ensures var r := before.Value();
        Value() == old(Value()).(
          averageStableBorrowRate :=
            AverageStableRate(r.averageStableBorrowRate, StableDebtOf(r, t), amountBorrowed, r.stableBorrowRate),
          principalStableDebt := StableDebtOf(r, t) + amountBorrowed,
          totalStableDebtLastUpdated := t)
    {
      hide AverageStableRate, TotalStableDebtAt;
      var expectedStableDebtUntilTx := TotalStableDebtAt(before.principalStableDebt, before.averageStableBorrowRate,
        before.totalStableDebtLastUpdated, t);
      averageStableBorrowRate := AverageStableRate(before.averageStableBorrowRate, expectedStableDebtUntilTx,
        amountBorrowed, before.stableBorrowRate);
      principalStableDebt := expectedStableDebtUntilTx + amountBorrowed;
      totalStableDebtLastUpdated := t;
    }

    /** How most actions end: new rates, then the ratios once more. Whatever rates and ratios the record
        held before, it now holds those of `target`. */
    method Finish(p: Strategy, ghost target: Reserve)
      requires SameButRates(target, Value()) && Priceable(p, target)
      requires target.totalLiquidity == target.availableLiquidity + target.unbacked
      modifies this
      ensures Value() == Priced(p, target)
    {
      hide InterestRates, UsageRatio, KinkDefined, StableToTotalDebtRatio;
      SetRates(p);
      UpdateTotalLiquidityAndUsageRatio();
    }
  }

  /** `expected` has been accrued to `t` and its liquidity updated; its average stable rate, its rates and
      its ratios are still open. */
  ghost predicate Accrued(before: ReserveRecord, expected: ReserveRecord, added: int, taken: int, t: int)
    requires LiquidityIndexAt(before.Value(), t) != 0
    reads before, expected
  {
    var e := expected.Value();
    SameButRates(
      WithLiquidity(Accrue(before.Value(), t), added, taken).(averageStableBorrowRate := e.averageStableBorrowRate), e)
  }

  method ReserveAfterDeposit(p: Strategy, amountDeposited: int, before: ReserveRecord, t: int)
    returns (expected: ReserveRecord)
    requires Ready(p, before.Value(), t) && amountDeposited >= 0
    ensures fresh(expected)
    ensures expected.Value() == AfterDeposit(p, before.Value(), amountDeposited, t)
  {
    hide RayMul, RayDiv, LiquidityIndexAt, VariableIndexAt, StableDebtOf, TreasuryAt, RatesDefined, InterestRates, UsageRatio;
    ghost var r := before.Value();
    AccrueSound(r, t);
    PricedInv(p, WithLiquidity(Accrue(r, t), amountDeposited, 0));
    expected := new ReserveRecord.Expected(before, t);
    expected.Begin(before, amountDeposited, 0, t);
    expected.averageStableBorrowRate := before.averageStableBorrowRate;
    expected.Finish(p, WithLiquidity(Accrue(r, t), amountDeposited, 0));
  }

  method ReserveAfterWithdraw(p: Strategy, amountWithdrawn: int, before: ReserveRecord, u: User, t: int)
    returns (expected: ReserveRecord)
    requires Ready(p, before.Value(), t) && CanWithdraw(before.Value(), u, amountWithdrawn, t)
    ensures fresh(expected)
    ensures expected.Value() == AfterWithdraw(p, before.Value(), u, amountWithdrawn, t)
  {
    hide RayMul, RayDiv, LiquidityIndexAt, VariableIndexAt, StableDebtOf, TreasuryAt, RatesDefined, InterestRates, UsageRatio,
      ATokenBalance;
    ghost var r := before.Value();
    AccrueSound(r, t);
    PricedInv(p, WithLiquidity(Accrue(r, t), 0, AmountWithdrawn(r, u, amountWithdrawn, t)));
    expected := new ReserveRecord.Expected(before, t);
    var amount := amountWithdrawn;
    if amount == MAX_UINT_AMOUNT {
      amount := ATokenBalance(before.Value(), u, t);
    }
    expected.Begin(before, 0, amount, t);
    expected.averageStableBorrowRate := before.averageStableBorrowRate;
    expected.Finish(p, WithLiquidity(Accrue(r, t), 0, AmountWithdrawn(r, u, amountWithdrawn, t)));
  }

  method ReserveAfterMintUnbacked(p: Strategy, amountMinted: int, before: ReserveRecord, t: int)
    returns (expected: ReserveRecord)
    requires Ready(p, before.Value(), t) && amountMinted >= 0
    ensures fresh(expected)
    ensures expected.Value() == AfterMintUnbacked(p, before.Value(), amountMinted, t)
  {
    hide RayMul, RayDiv, LiquidityIndexAt, VariableIndexAt, StableDebtOf, TreasuryAt, RatesDefined, InterestRates, UsageRatio,
      AverageStableRate;
    ghost var r := before.Value();
    AccrueSound(r, t);
    MintedUnbackedSound(r, amountMinted, t);
    PricedInv(p, MintedUnbacked(r, amountMinted, t));
    expected := new ReserveRecord.Expected(before, t);
    expected.UpdateState(before, t);
    expected.unbacked := before.unbacked + amountMinted;
    expected.UpdateLiquidityAndUsageRatios(before, 0, 0);
    expected.averageStableBorrowRate :=
      AverageStableRate(before.averageStableBorrowRate, before.totalStableDebt, 0, before.stableBorrowRate);
    expected.Finish(p, MintedUnbacked(r, amountMinted, t));
  }

  lemma BackingIndexSteps(r: Reserve, b: Backing, t: int)
    requires LiquidityIndexAt(r, t) != 0 && CanBack(r, b, t)
    ensures var index := LiquidityIndexAt(r, t);
      var total := RayMul(b.scaledATokenSupply, index) + RayMul(TreasuryAt(r, t), index);
      && total != 0
      && IndexAfterBacking(r, b, t) == CumulateToLiquidityIndex(index, total, b.fee - PercentMul(b.fee, b.protocolFee))
  {
    hide RayMul, RayDiv, PercentMul, LiquidityIndexAt, TreasuryAt, CumulateToLiquidityIndex;
  }

  method ReserveAfterBackUnbacked(p: Strategy, b: Backing, before: ReserveRecord, t: int)
    returns (expected: ReserveRecord)
    requires Ready(p, before.Value(), t) && LiquidityIndexAt(before.Value(), t) != 0 && CanBack(before.Value(), b, t)
    ensures fresh(expected)
    ensures expected.Value() == AfterBackUnbacked(p, before.Value(), b, t)
  {
    hide RayMul, RayDiv, LiquidityIndexAt, RatesDefined, InterestRates, IndexAfterBacking, BackedUnbacked, CanBack;
    ghost var r := before.Value();
    BackedUnbackedSound(r, b, t);
    PricedInv(p, BackedUnbacked(r, b, t));
    expected := new ReserveRecord.Expected(before, t);
    BackUnbacked(b, before, expected, t);
    expected.Finish(p, BackedUnbacked(r, b, t));
  }

  lemma BackingFacts(r: Reserve, b: Backing, t: int)
    requires Inv(r) && r.lastUpdateTimestamp <= t && LiquidityIndexAt(r, t) != 0 && CanBack(r, b, t)
    ensures 0 <= r.unbacked - BackingAmount(r, b) && 0 <= r.availableLiquidity + BackingAmount(r, b) + b.fee
    ensures 0 <= Accrue(r, t).totalStableDebt && 0 <= Accrue(r, t).totalVariableDebt
  {
    AccrueSound(r, t);
    hide RayMul, LiquidityIndexAt, VariableIndexAt, StableDebtOf, TreasuryAt, Claims;
  }

  method BackUnbacked(b: Backing, before: ReserveRecord, expected: ReserveRecord, t: int)
    requires before != expected && Inv(before.Value()) && before.lastUpdateTimestamp <= t
    requires LiquidityIndexAt(before.Value(), t) != 0 && CanBack(before.Value(), b, t)
    requires IndexAfterBacking(before.Value(), b, t) != 0
    requires expected.reserveFactor == before.reserveFactor && expected.marketStableRate == before.marketStableRate
    requires expected.lastUpdateTimestamp == t
    requires expected.totalStableDebtLastUpdated == before.totalStableDebtLastUpdated
    modifies expected
    ensures SameButRates(BackedUnbacked(before.Value(), b, t), expected.Value())
  {
    hide RayMul, RayDiv, LiquidityIndexAt, VariableIndexAt, StableDebtOf, TreasuryAt, UsageRatio, AverageStableRate,
      PremiumToProtocol, IndexAfterBacking, CanBack;
    hide Inv, Sound;
    ghost var r := before.Value();
    BackingFacts(r, b, t);
    expected.UpdateState(before, t);
    var backingAmount := if b.amount < before.unbacked then b.amount else before.unbacked;
    expected.DistributeFee(r, b, t);
    expected.unbacked := before.unbacked - backingAmount;
    expected.UpdateLiquidityAndUsageRatios(before, backingAmount + b.fee, 0);
    expected.averageStableBorrowRate :=
      AverageStableRate(before.averageStableBorrowRate, before.totalStableDebt, 0, before.stableBorrowRate);
  }

  method ReserveAfterBorrow(p: Strategy, amountBorrowed: int, mode: RateMode, before: ReserveRecord, t: int, now: int)
    returns (expected: ReserveRecord)
    requires Ready(p, before.Value(), t) && 0 <= amountBorrowed <= before.availableLiquidity && t <= now
    ensures fresh(expected)
    ensures expected.Value() == AfterBorrow(p, before.Value(), amountBorrowed, mode, t, now)
  {
    hide RayMul, RayDiv, LiquidityIndexAt, VariableIndexAt, StableDebtOf, TreasuryAt, RatesDefined, InterestRates, UsageRatio,
      AverageStableRate, NormalizedDebt, TotalStableDebtAt, StableDebtBalance;
    ghost var r := before.Value();
    AccrueSound(r, t);
    BorrowedSound(r, amountBorrowed, mode, t);
    PricedInv(p, Borrowed(r, amountBorrowed, mode, t));
    DebtsReadSound(p, r, amountBorrowed, mode, t, now);
    expected := new ReserveRecord.Expected(before, t);
    expected.lastUpdateTimestamp := t;
    expected.Begin(before, 0, amountBorrowed, t);
    if mode == Stable {
      StableBorrow(p, amountBorrowed, before, expected, t, now);
    } else {
      VariableBorrow(p, amountBorrowed, mode, before, expected, t, now);
    }
  }

  method StableBorrow(p: Strategy, amountBorrowed: int, before: ReserveRecord, expected: ReserveRecord, t: int, now: int)
    requires before != expected && Ready(p, before.Value(), t) && 0 <= amountBorrowed <= before.availableLiquidity && t <= now
    requires LiquidityIndexAt(before.Value(), t) != 0 && Accrued(before, expected, 0, amountBorrowed, t)
    modifies expected
    ensures expected.Value() == AfterBorrow(p, before.Value(), amountBorrowed, Stable, t, now)
  {
    hide RayMul, RayDiv, LiquidityIndexAt, VariableIndexAt, TreasuryAt, RatesDefined, InterestRates, UsageRatio,
      AverageStableRate, NormalizedDebt, TotalStableDebtAt, StableDebtBalance;
    ghost var r := before.Value();
    BorrowedSound(r, amountBorrowed, Stable, t);
    PricedInv(p, Borrowed(r, amountBorrowed, Stable, t));
    DebtsReadSound(p, r, amountBorrowed, Stable, t, now);
    expected.TakeStableBorrow(before, amountBorrowed, t);
    var ratesAfterTx := CalcExpectedInterestRates(p, before.marketStableRate, expected.principalStableDebt,
      expected.totalVariableDebt, expected.averageStableBorrowRate, expected.availableLiquidity, expected.totalLiquidity);
    expected.TakeRates(ratesAfterTx);
    expected.totalStableDebt :=
      TotalStableDebtAt(expected.principalStableDebt, expected.averageStableBorrowRate, t, now);
    expected.totalVariableDebt := RayMul(before.scaledVariableDebt,
      NormalizedDebt(expected.variableBorrowRate, expected.variableBorrowIndex, t, now));
    expected.UpdateUsageRatios();
  }

  method VariableBorrow(p: Strategy, amountBorrowed: int, mode: RateMode, before: ReserveRecord, expected: ReserveRecord,
    t: int, now: int)
    requires before != expected && Ready(p, before.Value(), t) && 0 <= amountBorrowed <= before.availableLiquidity && t <= now
    requires LiquidityIndexAt(before.Value(), t) != 0 && Accrued(before, expected, 0, amountBorrowed, t)
    requires mode != Stable
    modifies expected
    ensures expected.Value() == AfterBorrow(p, before.Value(), amountBorrowed, mode, t, now)
  {
    hide RayMul, RayDiv, LiquidityIndexAt, VariableIndexAt, TreasuryAt, RatesDefined, InterestRates, UsageRatio,
      AverageStableRate, NormalizedDebt, TotalStableDebtAt, StableDebtBalance;
    ghost var r := before.Value();
    AccrueSound(r, t);
    BorrowedSound(r, amountBorrowed, mode, t);
    PricedInv(p, Borrowed(r, amountBorrowed, mode, t));
    DebtsReadSound(p, r, amountBorrowed, mode, t, now);
    StableDebtGrows(r.principalStableDebt, r.averageStableBorrowRate, r.totalStableDebtLastUpdated, t, now);
    expected.principalStableDebt := before.principalStableDebt;
    var totalStableDebtAfterTx := StableDebtBalance(before.principalStableDebt, before.averageStableBorrowRate,
      before.totalStableDebtLastUpdated, t);
    expected.totalStableDebt := TotalStableDebtAt(before.principalStableDebt, before.averageStableBorrowRate,
      before.totalStableDebtLastUpdated, now);
    expected.averageStableBorrowRate := before.averageStableBorrowRate;
    expected.scaledVariableDebt :=
      before.scaledVariableDebt + RayDiv(amountBorrowed, expected.variableBorrowIndex);
    var totalVariableDebtAfterTx := RayMul(expected.scaledVariableDebt, expected.variableBorrowIndex);
    expected.UpdateUsageRatios();
    var rates := CalcExpectedInterestRates(p, before.marketStableRate, totalStableDebtAfterTx, totalVariableDebtAfterTx,
      expected.averageStableBorrowRate, expected.availableLiquidity, expected.totalLiquidity);
    expected.TakeRates(rates);
    expected.totalVariableDebt := RayMul(expected.scaledVariableDebt,
      NormalizedDebt(expected.variableBorrowRate, expected.variableBorrowIndex, t, now));
    expected.UpdateUsageRatios();
  }

  method ReserveAfterRepay(p: Strategy, amountRepaid: int, mode: RateMode, before: ReserveRecord, u: User, t: int)
    returns (expected: ReserveRecord)
    requires Ready(p, before.Value(), t) && CanRepay(before.Value(), u, amountRepaid, mode, t)
    ensures fresh(expected)
    ensures expected.Value() == AfterRepay(p, before.Value(), u, amountRepaid, mode, t)
  {
    hide RayMul, RayDiv, LiquidityIndexAt, VariableIndexAt, TreasuryAt, RatesDefined, InterestRates, UsageRatio,
      AverageStableRate, TotalStableDebtAt, UserStableDebt, VariableDebtBalance;
    ghost var r := before.Value();
    AccrueSound(r, t);
    RepaidSound(r, u, AmountRepaid(r, u, amountRepaid, mode, t), mode, t);
    ghost var target := Repaid(r, AmountRepaid(r, u, amountRepaid, mode, t), u.stableBorrowRate, mode, t);
    PricedInv(p, target);
    expected := new ReserveRecord.Expected(before, t);
    var amount := ResolveRepaid(before, u, amountRepaid, mode, t);
    expected.Begin(before, amount, 0, t);
    hide SameButRates, Repaid, Accrued;
    PayOff(before, expected, amount, u.stableBorrowRate, mode, t);
    expected.Finish(p, target);
  }

  /** The sentinel amount, of either sign, stands for the user's whole debt. */
  method ResolveRepaid(before: ReserveRecord, u: User, amountRepaid: int, mode: RateMode, t: int) returns (amount: int)
    ensures amount == AmountRepaid(before.Value(), u, amountRepaid, mode, t)
  {
    hide UserStableDebt, VariableDebtBalance;
    var userStableDebt := UserStableDebt(u, t);
    var userVariableDebt := VariableDebtBalance(before.Value(), u, t);
    amount := amountRepaid;
    if Abs(amount) == MAX_UINT_AMOUNT {
      if mode == Stable {
        amount := userStableDebt;
      } else {
        amount := userVariableDebt;
      }
    }
  }

  method PayOff(before: ReserveRecord, expected: ReserveRecord, amount: int, userRate: int, mode: RateMode, t: int)
    requires before != expected && LiquidityIndexAt(before.Value(), t) != 0 && VariableIndexAt(before.Value(), t) != 0
    requires Accrued(before, expected, amount, 0, t)
    requires UsageDefined(Repaid(before.Value(), amount, userRate, mode, t))
    modifies expected
    ensures SameButRates(Repaid(before.Value(), amount, userRate, mode, t), expected.Value())
  {
    hide RayMul, RayDiv, LiquidityIndexAt, VariableIndexAt, TreasuryAt, UsageRatio, AverageStableRate, TotalStableDebtAt;
    if mode == Stable {
      RepayStable(before, expected, amount, userRate, t);
    } else {
      RepayVariable(before, expected, amount, t);
    }
    expected.UpdateUsageRatios();
    expected.lastUpdateTimestamp := t;
  }

  method RepayVariable(before: ReserveRecord, expected: ReserveRecord, amount: int, t: int)
    requires before != expected && LiquidityIndexAt(before.Value(), t) != 0 && VariableIndexAt(before.Value(), t) != 0
    requires Accrued(before, expected, amount, 0, t)
    modifies expected
    ensures SameButRates(VariableRepaid(WithLiquidity(Accrue(before.Value(), t), amount, 0), amount), expected.Value())
  {
    hide RayMul, RayDiv, LiquidityIndexAt, VariableIndexAt, StableDebtOf, TreasuryAt;
    expected.scaledVariableDebt := before.scaledVariableDebt - RayDiv(amount, expected.variableBorrowIndex);
    expected.totalVariableDebt := RayMul(expected.scaledVariableDebt, expected.variableBorrowIndex);
    expected.averageStableBorrowRate := before.averageStableBorrowRate;
  }

  method RepayStable(before: ReserveRecord, expected: ReserveRecord, amount: int, userRate: int, t: int)
    requires before != expected && LiquidityIndexAt(before.Value(), t) != 0
    requires Accrued(before, expected, amount, 0, t)
    modifies expected
    ensures var r := before.Value();
      SameButRates(StableRepaid(r, WithLiquidity(Accrue(r, t), amount, 0), amount, userRate, t), expected.Value())
  {
    hide RayMul, RayDiv, LiquidityIndexAt, VariableIndexAt, TreasuryAt, AverageStableRate, TotalStableDebtAt;
    var expectedDebt := TotalStableDebtAt(before.principalStableDebt, before.averageStableBorrowRate,
      before.totalStableDebtLastUpdated, t);
    expected.principalStableDebt, expected.totalStableDebt := expectedDebt - amount, expectedDebt - amount;
    expected.totalStableDebtLastUpdated := t;
    if expected.totalStableDebt < 0 {
      expected.principalStableDebt, expected.totalStableDebt, expected.averageStableBorrowRate := 0, 0, 0;
    } else {
      expected.averageStableBorrowRate :=
        AverageStableRate(before.averageStableBorrowRate, expectedDebt, -amount, userRate);
      if expected.averageStableBorrowRate < 0 {
        expected.principalStableDebt, expected.totalStableDebt, expected.averageStableBorrowRate := 0, 0, 0;
      }
    }
  }

  method ReserveAfterSwapRateMode(p: Strategy, before: ReserveRecord, u: User, mode: RateMode, t: int)
    returns (expected: ReserveRecord)
    requires Ready(p, before.Value(), t)
    requires LiquidityIndexAt(before.Value(), t) != 0 && VariableIndexAt(before.Value(), t) != 0
    requires Priceable(p, Swapped(before.Value(), u, mode, t))
    ensures fresh(expected)
    ensures expected.Value() == AfterSwapRateMode(p, before.Value(), u, mode, t)
  {
    hide RayMul, RayDiv, LiquidityIndexAt, VariableIndexAt, StableDebtOf, TreasuryAt, InterestRates, UsageRatio,
      AverageStableRate, UserStableDebt, VariableDebtBalance, KinkDefined, StableToTotalDebtRatio;
    ghost var r := before.Value();
    AccrueSound(r, t);
    expected := new ReserveRecord.Expected(before, t);
    expected.Begin(before, 0, 0, t);
    var variableDebt := VariableDebtBalance(before.Value(), u, t);
    var stableDebt := UserStableDebt(u, t);
    if mode == Stable {
      SwapToVariable(before, expected, stableDebt, u.stableBorrowRate, t);
    } else {
      SwapToStable(before, expected, variableDebt, t);
    }
    expected.UpdateUsageRatios();
    expected.Finish(p, Swapped(r, u, mode, t));
  }

  method SwapToVariable(before: ReserveRecord, expected: ReserveRecord, stableDebt: int, userRate: int, t: int)
    requires before != expected && LiquidityIndexAt(before.Value(), t) != 0 && VariableIndexAt(before.Value(), t) != 0
    requires Accrued(before, expected, 0, 0, t)
    modifies expected
    ensures SameButRates(SwappedToVariable(before.Value(), stableDebt, userRate, t), expected.Value())
  {
    hide RayMul, RayDiv, LiquidityIndexAt, VariableIndexAt, StableDebtOf, TreasuryAt, AverageStableRate;
    var totalStableDebtUntilTx := expected.totalStableDebt;
    expected.scaledVariableDebt := before.scaledVariableDebt + RayDiv(stableDebt, expected.variableBorrowIndex);
    expected.totalVariableDebt := RayMul(expected.scaledVariableDebt, expected.variableBorrowIndex);
    expected.totalStableDebt := totalStableDebtUntilTx - stableDebt;
    expected.principalStableDebt := expected.totalStableDebt;
    expected.averageStableBorrowRate := AverageStableRate(before.averageStableBorrowRate,
      expected.principalStableDebt + stableDebt, -stableDebt, userRate);
    expected.totalStableDebtLastUpdated := t;
  }

  method SwapToStable(before: ReserveRecord, expected: ReserveRecord, variableDebt: int, t: int)
    requires before != expected && LiquidityIndexAt(before.Value(), t) != 0 && VariableIndexAt(before.Value(), t) != 0
    requires Accrued(before, expected, 0, 0, t)
    modifies expected
    ensures SameButRates(SwappedToStable(before.Value(), variableDebt, t), expected.Value())
  {
    hide RayMul, RayDiv, LiquidityIndexAt, VariableIndexAt, StableDebtOf, TreasuryAt, AverageStableRate;
    var totalStableDebtUntilTx := expected.totalStableDebt;
    expected.totalStableDebt := totalStableDebtUntilTx + variableDebt;
    expected.principalStableDebt := expected.totalStableDebt;
    expected.scaledVariableDebt := before.scaledVariableDebt - RayDiv(variableDebt, expected.variableBorrowIndex);
    expected.totalVariableDebt := RayMul(expected.scaledVariableDebt, expected.variableBorrowIndex);
    expected.averageStableBorrowRate := AverageStableRate(before.averageStableBorrowRate, before.totalStableDebt,
      variableDebt, before.stableBorrowRate);
    expected.totalStableDebtLastUpdated := t;
  }

  method ReserveAfterStableRateRebalance(p: Strategy, before: ReserveRecord, u: User, t: int)
    returns (expected: ReserveRecord)
    requires Ready(p, before.Value(), t)
    requires LiquidityIndexAt(before.Value(), t) != 0 && Priceable(p, Rebalanced(before.Value(), u, t))
    ensures fresh(expected)
    ensures expected.Value() == AfterStableRateRebalance(p, before.Value(), u, t)
  {
    hide RayMul, RayDiv, LiquidityIndexAt, VariableIndexAt, TreasuryAt, InterestRates, UsageRatio,
      AverageStableRateRebalance, UserStableDebt, TotalStableDebtAt, KinkDefined, StableToTotalDebtRatio;
    ghost var r := before.Value();
    AccrueSound(r, t);
    expected := new ReserveRecord.Expected(before, t);
    expected.Begin(before, 0, 0, t);
    hide SameButRates, Rebalanced, Accrued;
    Rebalance(before, expected, u, t);
    expected.Finish(p, Rebalanced(r, u, t));
  }

  method Rebalance(before: ReserveRecord, expected: ReserveRecord, u: User, t: int)
    requires before != expected && LiquidityIndexAt(before.Value(), t) != 0
    requires Accrued(before, expected, 0, 0, t) && UsageDefined(Rebalanced(before.Value(), u, t))
    modifies expected
    ensures SameButRates(Rebalanced(before.Value(), u, t), expected.Value())
  {
    hide RayMul, RayDiv, LiquidityIndexAt, VariableIndexAt, TreasuryAt, UsageRatio, AverageStableRateRebalance,
      UserStableDebt, TotalStableDebtAt;
    ghost var r := before.Value();
    var userStableDebt := UserStableDebt(u, t);
    expected.totalStableDebt := TotalStableDebtAt(before.principalStableDebt, before.averageStableBorrowRate,
      before.totalStableDebtLastUpdated, t);
    expected.principalStableDebt := expected.totalStableDebt;
    var avgRateBefore := AverageStableRateRebalance(before.averageStableBorrowRate, expected.totalStableDebt,
      -userStableDebt, u.stableBorrowRate);
    expected.averageStableBorrowRate := AverageStableRateRebalance(avgRateBefore,
      expected.totalStableDebt - userStableDebt, userStableDebt, before.stableBorrowRate);
    expected.totalStableDebtLastUpdated := t;
    assert SameButRates(Rebalanced(r, u, t), expected.Value());
    expected.UpdateUsageRatios();
  }
}
