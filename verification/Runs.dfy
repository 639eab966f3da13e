/** Whole runs: any sequence of deposits, withdrawals, borrows, repayments, rate mode swaps, rebalancings and
    bridge actions, each with its own strategy parameters and at its own time. */
module Runs {
  import opened WadRayMath
  import opened Interest
  import opened Rates
  import opened Reserve
  import opened Actions

  datatype Action =
    | Deposit(amount: int)
    | Withdraw(user: User, amount: int)
    | Borrow(amount: int, mode: RateMode, now: int)
    | Repay(user: User, amount: int, mode: RateMode)
    | SwapRateMode(user: User, mode: RateMode)
    | RebalanceStableRate(user: User)
    | MintUnbacked(amount: int)
    | BackUnbacked(backing: Backing)

  datatype Step = Step(strategy: Strategy, action: Action, t: int)

  /** When a step may be taken: for most actions what the chain checks of a transaction, its strategy, its time and
      its amounts. No chain checks the guards of swapping and rebalancing stable debt, `CanSwap` and `CanRebalance`:
      these are the exact conditions under which the actions keep the record sound. */
  predicate Guard(r: Reserve, step: Step) {
    && ValidStrategy(step.strategy) && r.lastUpdateTimestamp <= step.t
    && match step.action
       case Deposit(amount) => 0 <= amount
       case Withdraw(user, amount) => CanWithdraw(r, user, amount, step.t)
       case Borrow(amount, _, now) => 0 <= amount <= r.availableLiquidity && step.t <= now
       case Repay(user, amount, mode) => CanRepay(r, user, amount, mode, step.t)
       case SwapRateMode(user, mode) => CanSwap(r, user, mode, step.t)
       case RebalanceStableRate(user) => CanRebalance(r, user, step.t)
       case MintUnbacked(amount) => 0 <= amount
       case BackUnbacked(backing) => LiquidityIndexAt(r, step.t) != 0 && CanBack(r, backing, step.t)
  }

  predicate Enabled(r: Reserve, step: Step) {
    Inv(r) && Guard(r, step)
  }

  function Next(r: Reserve, step: Step): Reserve
    requires Enabled(r, step)
  {
    match step.action
    case Deposit(amount) => AfterDeposit(step.strategy, r, amount, step.t)
    case Withdraw(user, amount) => AfterWithdraw(step.strategy, r, user, amount, step.t)
    case Borrow(amount, mode, now) => AfterBorrow(step.strategy, r, amount, mode, step.t, now)
    case Repay(user, amount, mode) => AfterRepay(step.strategy, r, user, amount, mode, step.t)
    case SwapRateMode(user, mode) =>
      SwapSound(r, user, mode, step.t);
      PricedInv(step.strategy, Swapped(r, user, mode, step.t));
      AfterSwapRateMode(step.strategy, r, user, mode, step.t)
    case RebalanceStableRate(user) =>
      RebalanceSound(r, user, step.t);
      PricedInv(step.strategy, Rebalanced(r, user, step.t));
      AfterStableRateRebalance(step.strategy, r, user, step.t)
    case MintUnbacked(amount) => AfterMintUnbacked(step.strategy, r, amount, step.t)
    case BackUnbacked(backing) => AfterBackUnbacked(step.strategy, r, backing, step.t)
  }

  /** Every step is guarded in the state it is taken in. That each such state is valid again is not
      assumed: `StepGrows` proves it. */
  predicate Allowed(r: Reserve, run: seq<Step>)
    requires Inv(r)
    decreases |run|
  {
    run != [] ==> Guard(r, run[0]) && (StepGrows(r, run[0]); Allowed(Next(r, run[0]), run[1..]))
  }

  function Final(r: Reserve, run: seq<Step>): Reserve
    requires Inv(r) && Allowed(r, run)
    decreases |run|
  {
    if run == [] then r
    else
      StepGrows(r, run[0]);
      Final(Next(r, run[0]), run[1..])
  }

  // ----- safety -----

  /** `r'` is a possible successor of `r`: valid, later, and with no index or treasury lowered. */
  ghost predicate Grown(r: Reserve, r': Reserve) {
    && Inv(r')
    && r.liquidityIndex <= r'.liquidityIndex
    && r.variableBorrowIndex <= r'.variableBorrowIndex
    && r.accruedToTreasuryScaled <= r'.accruedToTreasuryScaled
    && r.lastUpdateTimestamp <= r'.lastUpdateTimestamp
  }

  lemma DepositGrows(p: Strategy, r: Reserve, amount: int, t: int)
    requires Ready(p, r, t) && 0 <= amount
    ensures var r' := AfterDeposit(p, r, amount, t); Grown(r, r') && r'.lastUpdateTimestamp == t
  {
    AccrueSound(r, t);
    hide RayMul, RayDiv, LiquidityIndexAt, VariableIndexAt, StableDebtOf, TreasuryAt, AverageStableRate, RatesDefined,
      InterestRates, UsageRatio, Sound;
    PricedInv(p, WithLiquidity(Accrue(r, t), amount, 0));
  }

  lemma WithdrawGrows(p: Strategy, r: Reserve, u: User, amount: int, t: int)
    requires Ready(p, r, t) && CanWithdraw(r, u, amount, t)
    ensures var r' := AfterWithdraw(p, r, u, amount, t); Grown(r, r') && r'.lastUpdateTimestamp == t
  {
    AccrueSound(r, t);
    hide RayMul, RayDiv, LiquidityIndexAt, VariableIndexAt, StableDebtOf, TreasuryAt, AverageStableRate, RatesDefined,
      InterestRates, UsageRatio, Sound, AmountWithdrawn;
    PricedInv(p, WithLiquidity(Accrue(r, t), 0, AmountWithdrawn(r, u, amount, t)));
  }

  lemma BorrowGrows(p: Strategy, r: Reserve, amount: int, mode: RateMode, t: int, now: int)
    requires Ready(p, r, t) && 0 <= amount <= r.availableLiquidity && t <= now
    ensures var r' := AfterBorrow(p, r, amount, mode, t, now); Grown(r, r') && r'.lastUpdateTimestamp == t
  {
    AccrueSound(r, t);
    hide RayMul, RayDiv, LiquidityIndexAt, VariableIndexAt, StableDebtOf, TreasuryAt, AverageStableRate, RatesDefined,
      InterestRates, UsageRatio, Sound, NormalizedDebt, TotalStableDebtAt, StableDebtBalance;
    BorrowedSound(r, amount, mode, t);
    PricedInv(p, Borrowed(r, amount, mode, t));
    DebtsReadSound(p, r, amount, mode, t, now);
  }

  lemma RepayGrows(p: Strategy, r: Reserve, u: User, amount: int, mode: RateMode, t: int)
    requires Ready(p, r, t) && CanRepay(r, u, amount, mode, t)
    ensures var r' := AfterRepay(p, r, u, amount, mode, t); Grown(r, r') && r'.lastUpdateTimestamp == t
  {
    AccrueSound(r, t);
    hide RayMul, RayDiv, LiquidityIndexAt, VariableIndexAt, StableDebtOf, TreasuryAt, AverageStableRate, RatesDefined,
      InterestRates, UsageRatio, Sound, AmountRepaid;
    var repaid := AmountRepaid(r, u, amount, mode, t);
    RepaidSound(r, u, repaid, mode, t);
    PricedInv(p, Repaid(r, repaid, u.stableBorrowRate, mode, t));
  }

  lemma SwapGrows(p: Strategy, r: Reserve, u: User, mode: RateMode, t: int)
    requires Ready(p, r, t) && CanSwap(r, u, mode, t)
    ensures LiquidityIndexAt(r, t) != 0 && VariableIndexAt(r, t) != 0 && Priceable(p, Swapped(r, u, mode, t))
    ensures var r' := AfterSwapRateMode(p, r, u, mode, t); Grown(r, r') && r'.lastUpdateTimestamp == t
  {
    AccrueSound(r, t);
    SwapSound(r, u, mode, t);
    hide RayMul, RayDiv, LiquidityIndexAt, VariableIndexAt, StableDebtOf, TreasuryAt, AverageStableRate, RatesDefined,
      InterestRates, UsageRatio, Sound, UserStableDebt, VariableDebtBalance, CanSwap;
    PricedInv(p, Swapped(r, u, mode, t));
  }

  lemma RebalanceGrows(p: Strategy, r: Reserve, u: User, t: int)
    requires Ready(p, r, t) && CanRebalance(r, u, t)
    ensures LiquidityIndexAt(r, t) != 0 && Priceable(p, Rebalanced(r, u, t))
    ensures var r' := AfterStableRateRebalance(p, r, u, t); Grown(r, r') && r'.lastUpdateTimestamp == t
  {
    AccrueSound(r, t);
    RebalanceSound(r, u, t);
    hide RayMul, RayDiv, LiquidityIndexAt, VariableIndexAt, StableDebtOf, TreasuryAt, AverageStableRateRebalance, RatesDefined,
      InterestRates, UsageRatio, Sound, UserStableDebt, CanRebalance;
    PricedInv(p, Rebalanced(r, u, t));
  }

  lemma MintGrows(p: Strategy, r: Reserve, amount: int, t: int)
    requires Ready(p, r, t) && 0 <= amount
    ensures var r' := AfterMintUnbacked(p, r, amount, t); Grown(r, r') && r'.lastUpdateTimestamp == t
  {
    AccrueSound(r, t);
    hide RayMul, RayDiv, LiquidityIndexAt, VariableIndexAt, StableDebtOf, TreasuryAt, AverageStableRate, RatesDefined,
      InterestRates, UsageRatio, Sound;
    MintedUnbackedSound(r, amount, t);
    PricedInv(p, MintedUnbacked(r, amount, t));
  }

  lemma BackingGrows(p: Strategy, r: Reserve, b: Backing, t: int)
    requires Ready(p, r, t) && LiquidityIndexAt(r, t) != 0 && CanBack(r, b, t)
    ensures var r' := AfterBackUnbacked(p, r, b, t); Grown(r, r') && r'.lastUpdateTimestamp == t
  {
    AccrueSound(r, t);
    hide RayMul, RayDiv, LiquidityIndexAt, VariableIndexAt, StableDebtOf, TreasuryAt, AverageStableRate, RatesDefined,
      InterestRates, UsageRatio, Sound, CanBack, IndexAfterBacking, PremiumToProtocol;
    BackedUnbackedSound(r, b, t);
    PricedInv(p, BackedUnbacked(r, b, t));
  }

  lemma StepGrows(r: Reserve, step: Step)
    requires Enabled(r, step)
    ensures Grown(r, Next(r, step)) && Next(r, step).lastUpdateTimestamp == step.t
  {
    var (p, t) := (step.strategy, step.t);
    hide Grown, AfterDeposit, AfterWithdraw, AfterBorrow, AfterRepay, AfterSwapRateMode, AfterStableRateRebalance,
      AfterMintUnbacked, AfterBackUnbacked;
    match step.action
    case Deposit(amount) => DepositGrows(p, r, amount, t);
    case Withdraw(user, amount) => WithdrawGrows(p, r, user, amount, t);
    case Borrow(amount, mode, now) => BorrowGrows(p, r, amount, mode, t, now);
    case Repay(user, amount, mode) => RepayGrows(p, r, user, amount, mode, t);
    case SwapRateMode(user, mode) => SwapGrows(p, r, user, mode, t);
    case RebalanceStableRate(user) => RebalanceGrows(p, r, user, t);
    case MintUnbacked(amount) => MintGrows(p, r, amount, t);
    case BackUnbacked(backing) => BackingGrows(p, r, backing, t);
  }

  /** Every run from a valid record ends in a valid record, and along the way neither index
      nor the treasury ever goes down. */
  lemma {:induction false} RunGrows(r: Reserve, run: seq<Step>)
    requires Inv(r) && Allowed(r, run)
    ensures Grown(r, Final(r, run))
    decreases |run|
  {
    if run != [] {
      StepGrows(r, run[0]);
      RunGrows(Next(r, run[0]), run[1..]);
    }
  }

  // ----- liquidity over runs -----

  /** What an action puts into the pool (negative: takes out). */
  function Flow(r: Reserve, step: Step): int {
    match step.action
    case Deposit(amount) => amount
    case Withdraw(user, amount) => -AmountWithdrawn(r, user, amount, step.t)
    case Borrow(amount, _, _) => -amount
    case Repay(user, amount, mode) => AmountRepaid(r, user, amount, mode, step.t)
    case SwapRateMode(_, _) => 0
    case RebalanceStableRate(_) => 0
    case MintUnbacked(_) => 0
    case BackUnbacked(backing) => (if backing.amount < r.unbacked then backing.amount else r.unbacked) + backing.fee
  }

  /** What an action adds to the liquidity suppliers have a claim on: minting unbacked tokens promises
      liquidity that is not there, and backing them only makes good the promise, so only the fee is new. */
  function TotalLiquidityFlow(r: Reserve, step: Step): int {
    match step.action
    case MintUnbacked(amount) => amount
    case BackUnbacked(backing) => backing.fee
    case _ => Flow(r, step)
  }

  lemma SwapConserves(p: Strategy, r: Reserve, u: User, mode: RateMode, t: int)
    requires Ready(p, r, t) && CanSwap(r, u, mode, t)
    ensures LiquidityIndexAt(r, t) != 0 && VariableIndexAt(r, t) != 0 && Priceable(p, Swapped(r, u, mode, t))
    ensures var r' := AfterSwapRateMode(p, r, u, mode, t);
      r'.availableLiquidity == r.availableLiquidity && r'.totalLiquidity == r.totalLiquidity
  {
    SwapSound(r, u, mode, t);
    PricedInv(p, Swapped(r, u, mode, t));
    hide RayMul, RayDiv, LiquidityIndexAt, VariableIndexAt, StableDebtOf, TreasuryAt, AverageStableRate, UserStableDebt,
      VariableDebtBalance, RatesDefined, InterestRates, UsageRatio, CanSwap;
  }

  lemma RebalanceConserves(p: Strategy, r: Reserve, u: User, t: int)
    requires Ready(p, r, t) && CanRebalance(r, u, t)
    ensures LiquidityIndexAt(r, t) != 0 && Priceable(p, Rebalanced(r, u, t))
    ensures var r' := AfterStableRateRebalance(p, r, u, t);
      r'.availableLiquidity == r.availableLiquidity && r'.totalLiquidity == r.totalLiquidity
  {
    RebalanceSound(r, u, t);
    PricedInv(p, Rebalanced(r, u, t));
    hide RayMul, RayDiv, LiquidityIndexAt, VariableIndexAt, StableDebtOf, TreasuryAt, AverageStableRateRebalance, UserStableDebt,
      RatesDefined, InterestRates, UsageRatio, CanRebalance;
  }

  lemma BorrowTakes(p: Strategy, r: Reserve, amount: int, mode: RateMode, t: int, now: int)
    requires Ready(p, r, t) && 0 <= amount <= r.availableLiquidity && t <= now
    ensures var r' := AfterBorrow(p, r, amount, mode, t, now);
      && r'.availableLiquidity == r.availableLiquidity - amount
      && r'.totalLiquidity == r.totalLiquidity - amount
  {
    BorrowedSound(r, amount, mode, t);
    hide RayMul, RayDiv, LiquidityIndexAt, VariableIndexAt, StableDebtOf, TreasuryAt, AverageStableRate, RatesDefined,
      InterestRates, UsageRatio, NormalizedDebt, TotalStableDebtAt, StableDebtBalance;
  }

  lemma RepayPutsBack(p: Strategy, r: Reserve, u: User, amount: int, mode: RateMode, t: int)
    requires Ready(p, r, t) && CanRepay(r, u, amount, mode, t)
    ensures var r' := AfterRepay(p, r, u, amount, mode, t);
      var repaid := AmountRepaid(r, u, amount, mode, t);
      && r'.availableLiquidity == r.availableLiquidity + repaid
      && r'.totalLiquidity == r.totalLiquidity + repaid
  {
    RepaidSound(r, u, AmountRepaid(r, u, amount, mode, t), mode, t);
    hide RayMul, RayDiv, LiquidityIndexAt, VariableIndexAt, StableDebtOf, TreasuryAt, AverageStableRate, RatesDefined,
      InterestRates, UsageRatio, AmountRepaid;
  }

  /** Backing pays in the amount offered, but no more than is unbacked, and the fee. */
  lemma BackingPutsIn(p: Strategy, r: Reserve, b: Backing, t: int)
    requires Ready(p, r, t) && LiquidityIndexAt(r, t) != 0 && CanBack(r, b, t)
    ensures var (r', backed) := (AfterBackUnbacked(p, r, b, t), if b.amount < r.unbacked then b.amount else r.unbacked);
      && r'.unbacked == r.unbacked - backed
      && r'.availableLiquidity == r.availableLiquidity + backed + b.fee
      && r'.totalLiquidity == r.totalLiquidity + b.fee
  {
    BackedUnbackedSound(r, b, t);
    hide RayMul, RayDiv, LiquidityIndexAt, VariableIndexAt, StableDebtOf, TreasuryAt, AverageStableRate, RatesDefined,
      InterestRates, UsageRatio, CanBack, IndexAfterBacking, PremiumToProtocol;
  }

  lemma DepositPutsIn(p: Strategy, r: Reserve, amount: int, t: int)
    requires Ready(p, r, t) && 0 <= amount
    ensures var r' := AfterDeposit(p, r, amount, t);
      && r'.availableLiquidity == r.availableLiquidity + amount
      && r'.totalLiquidity == r.totalLiquidity + amount
  {
    AccrueSound(r, t);
    hide RayMul, RayDiv, LiquidityIndexAt, VariableIndexAt, StableDebtOf, TreasuryAt, AverageStableRate, RatesDefined,
      InterestRates, UsageRatio;
  }

  lemma WithdrawTakes(p: Strategy, r: Reserve, u: User, amount: int, t: int)
    requires Ready(p, r, t) && CanWithdraw(r, u, amount, t)
    ensures var r' := AfterWithdraw(p, r, u, amount, t);
      && r'.availableLiquidity == r.availableLiquidity - AmountWithdrawn(r, u, amount, t)
      && r'.totalLiquidity == r.totalLiquidity - AmountWithdrawn(r, u, amount, t)
  {
    AccrueSound(r, t);
    hide RayMul, RayDiv, LiquidityIndexAt, VariableIndexAt, StableDebtOf, TreasuryAt, AverageStableRate, RatesDefined,
      InterestRates, UsageRatio, AmountWithdrawn;
  }

  lemma MintPromises(p: Strategy, r: Reserve, amount: int, t: int)
    requires Ready(p, r, t) && 0 <= amount
    ensures var r' := AfterMintUnbacked(p, r, amount, t);
      && r'.availableLiquidity == r.availableLiquidity
      && r'.totalLiquidity == r.totalLiquidity + amount
  {
    MintedUnbackedSound(r, amount, t);
    hide RayMul, RayDiv, LiquidityIndexAt, VariableIndexAt, StableDebtOf, TreasuryAt, AverageStableRate, RatesDefined,
      InterestRates, UsageRatio;
  }

  lemma StepConserves(r: Reserve, step: Step)
    requires Enabled(r, step)
    ensures Next(r, step).availableLiquidity == r.availableLiquidity + Flow(r, step)
    ensures Next(r, step).totalLiquidity == r.totalLiquidity + TotalLiquidityFlow(r, step)
  {
    var (p, t) := (step.strategy, step.t);
    hide LiquidityIndexAt, AmountWithdrawn, AmountRepaid, CanWithdraw, CanRepay, CanBack, CanSwap, CanRebalance, Inv,
      ValidStrategy, AfterDeposit, AfterWithdraw, AfterBorrow, AfterRepay, AfterSwapRateMode, AfterStableRateRebalance,
      AfterMintUnbacked, AfterBackUnbacked;
    match step.action
    case Deposit(amount) => DepositPutsIn(p, r, amount, t);
    case Withdraw(user, amount) => WithdrawTakes(p, r, user, amount, t);
    case Borrow(amount, mode, now) => BorrowTakes(p, r, amount, mode, t, now);
    case Repay(user, amount, mode) => RepayPutsBack(p, r, user, amount, mode, t);
    case SwapRateMode(user, mode) => SwapConserves(p, r, user, mode, t);
    case RebalanceStableRate(user) => RebalanceConserves(p, r, user, t);
    case MintUnbacked(amount) => MintPromises(p, r, amount, t);
    case BackUnbacked(backing) => BackingPutsIn(p, r, backing, t);
  }

  /** The sum of what the actions of a run add, each measured in the state it is taken in. */
  function TotalOf(r: Reserve, run: seq<Step>, measure: (Reserve, Step) -> int): int
    requires Inv(r) && Allowed(r, run)
    decreases |run|
  {
    if run == [] then 0
    else
      StepGrows(r, run[0]);
      measure(r, run[0]) + TotalOf(Next(r, run[0]), run[1..], measure)
  }

  /** Over any run the pool holds what was put in minus what was taken out, and the liquidity claimed on grows by the
      same plus what was minted unbacked, plus fees: the flows of the steps add up. That the pool never holds less
      than nothing is the invariant's. */
  lemma {:induction false} RunConserves(r: Reserve, run: seq<Step>)
    requires Inv(r) && Allowed(r, run)
    ensures Final(r, run).availableLiquidity == r.availableLiquidity + TotalOf(r, run, Flow) >= 0
    ensures Final(r, run).totalLiquidity == r.totalLiquidity + TotalOf(r, run, TotalLiquidityFlow)
    decreases |run|
  {
    if run != [] {
      StepGrows(r, run[0]);
      StepConserves(r, run[0]);
      RunConserves(Next(r, run[0]), run[1..]);
    }
  }

  // ----- a reserve that keeps everything -----

  /** With a reserve factor of 100% suppliers earn nothing. */
  lemma FullFactorPaysNothing(p: Strategy, s: Reserve)
    requires ValidStrategy(p) && Sound(s) && p.reserveFactor == PERCENTAGE_FACTOR && Priceable(p, s)
    ensures RatesOf(p, s).liquidityRate == 0
  {
    var debt := s.totalStableDebt + s.totalVariableDebt;
    CurveIsTotal(p, s.totalStableDebt, s.totalVariableDebt, s.availableLiquidity, s.totalLiquidity);
    RatesNonneg(p, s.marketStableRate, s.totalStableDebt, s.totalVariableDebt, s.averageStableBorrowRate,
      s.availableLiquidity, s.totalLiquidity);
    var rates := RatesOf(p, s);
    OverallNonneg(s.totalStableDebt, s.totalVariableDebt, rates.variableBorrowRate, s.averageStableBorrowRate);
    var overall := OverallBorrowRate(s.totalStableDebt, s.totalVariableDebt, rates.variableBorrowRate, s.averageStableBorrowRate);
    LiquidityRateBounds(p, overall, UsageRatio(debt, s.totalLiquidity));
    hide OverallBorrowRate, UsageRatio, LiquidityRate, VariableRate, StableRate;
  }

  lemma FrozenPriced(p: Strategy, s: Reserve)
    requires ValidStrategy(p) && Sound(s) && p.reserveFactor == PERCENTAGE_FACTOR
    ensures Priceable(p, s)
    ensures Priced(p, s).liquidityRate == RatesOf(p, s).liquidityRate == 0
    ensures Priced(p, s).liquidityIndex == s.liquidityIndex
  {
    PricedInv(p, s);
    FullFactorPaysNothing(p, s);
    hide RatesDefined, InterestRates, UsageRatio;
  }

  lemma NoRateNoGrowth(r: Reserve, t: int)
    requires Inv(r) && r.lastUpdateTimestamp <= t && r.liquidityRate == 0
    ensures LiquidityIndexAt(r, t) == r.liquidityIndex
  {
    SupplyViewsAgree(r, t);
  }

  lemma FrozenStep(r: Reserve, step: Step)
    requires Enabled(r, step) && step.strategy.reserveFactor == PERCENTAGE_FACTOR && !step.action.BackUnbacked?
    ensures Next(r, step).liquidityRate == 0
    ensures Next(r, step).liquidityIndex == LiquidityIndexAt(r, step.t)
  {
    var (p, t) := (step.strategy, step.t);
    AccrueSound(r, t);
    hide RayMul, RayDiv, LiquidityIndexAt, VariableIndexAt, StableDebtOf, TreasuryAt, AverageStableRate, AmountWithdrawn,
      AmountRepaid, MayPay, Priceable, RatesOf, Priced, NormalizedDebt, TotalStableDebtAt, StableDebtBalance, Sound,
      AverageStableRateRebalance, CanSwap, CanRebalance, UserStableDebt, Swapped;
    match step.action
    case Deposit(amount) => FrozenPriced(p, WithLiquidity(Accrue(r, t), amount, 0));
    case Withdraw(user, amount) => FrozenPriced(p, WithLiquidity(Accrue(r, t), 0, AmountWithdrawn(r, user, amount, t)));
    case Borrow(amount, mode, now) => FrozenBorrow(p, r, amount, mode, t, now);
    case Repay(user, amount, mode) => FrozenRepay(p, r, user, AmountRepaid(r, user, amount, mode, t), mode, t);
    case SwapRateMode(user, mode) =>
      SwapSound(r, user, mode, t);
      SwappedIndex(r, user, mode, t);
      FrozenPriced(p, Swapped(r, user, mode, t));
    case RebalanceStableRate(user) =>
      RebalanceSound(r, user, t);
      FrozenPriced(p, Rebalanced(r, user, t));
    case MintUnbacked(amount) =>
      MintedUnbackedSound(r, amount, t);
      FrozenPriced(p, MintedUnbacked(r, amount, t));
  }

  lemma SwappedIndex(r: Reserve, u: User, mode: RateMode, t: int)
    requires LiquidityIndexAt(r, t) != 0 && VariableIndexAt(r, t) != 0
    ensures Swapped(r, u, mode, t).liquidityIndex == LiquidityIndexAt(r, t)
  {
    hide RayMul, RayDiv, LiquidityIndexAt, VariableIndexAt, StableDebtOf, TreasuryAt, AverageStableRate, UserStableDebt,
      VariableDebtBalance;
  }

  lemma FrozenBorrow(p: Strategy, r: Reserve, amount: nat, mode: RateMode, t: int, now: int)
    requires Ready(p, r, t) && amount <= r.availableLiquidity && t <= now && p.reserveFactor == PERCENTAGE_FACTOR
    ensures AfterBorrow(p, r, amount, mode, t, now).liquidityRate == 0
    ensures AfterBorrow(p, r, amount, mode, t, now).liquidityIndex == LiquidityIndexAt(r, t)
  {
    AccrueSound(r, t);
    BorrowedSound(r, amount, mode, t);
    FrozenPriced(p, Borrowed(r, amount, mode, t));
    DebtsReadSound(p, r, amount, mode, t, now);
    hide RayMul, RayDiv, LiquidityIndexAt, VariableIndexAt, StableDebtOf, TreasuryAt, AverageStableRate, Priceable, RatesOf,
      Priced, NormalizedDebt, TotalStableDebtAt, StableDebtBalance, UsageRatio, Inv, Sound;
  }

  lemma FrozenRepay(p: Strategy, r: Reserve, u: User, repaid: int, mode: RateMode, t: int)
    requires Ready(p, r, t) && MayPay(r, u, repaid, mode, t) && p.reserveFactor == PERCENTAGE_FACTOR
    ensures LiquidityIndexAt(r, t) != 0 && VariableIndexAt(r, t) != 0
    ensures var s := Repaid(r, repaid, u.stableBorrowRate, mode, t);
      && Priceable(p, s)
      && Priced(p, s).liquidityRate == 0 && Priced(p, s).liquidityIndex == LiquidityIndexAt(r, t)
  {
    hide RayMul, RayDiv, LiquidityIndexAt, VariableIndexAt, StableDebtOf, TreasuryAt, AverageStableRate, Priceable, RatesOf,
      Priced, Sound, MayPay, Repaid;
    AccrueSound(r, t);
    RepaidSound(r, u, repaid, mode, t);
    RepaidIndex(r, repaid, u.stableBorrowRate, mode, t);
    FrozenPriced(p, Repaid(r, repaid, u.stableBorrowRate, mode, t));
  }

  lemma RepaidIndex(r: Reserve, repaid: int, userRate: int, mode: RateMode, t: int)
    requires LiquidityIndexAt(r, t) != 0 && VariableIndexAt(r, t) != 0
    ensures Repaid(r, repaid, userRate, mode, t).liquidityIndex == LiquidityIndexAt(r, t)
  {
    hide RayMul, RayDiv, LiquidityIndexAt, VariableIndexAt, StableDebtOf, TreasuryAt, AverageStableRate;
  }

  /** At a reserve factor of 100% the first action settles what suppliers had still earned;
      after it the liquidity index stands still for as long as nothing is backed. */
  lemma {:induction false} FullFactorFreezesIndex(r: Reserve, run: seq<Step>)
    requires Inv(r) && Allowed(r, run) && run != []
    requires forall i | 0 <= i < |run| ::
      run[i].strategy.reserveFactor == PERCENTAGE_FACTOR && !run[i].action.BackUnbacked?
    ensures Final(r, run).liquidityRate == 0
    ensures Final(r, run).liquidityIndex == LiquidityIndexAt(r, run[0].t)
    decreases |run|
  {
    hide Next, Guard, Inv, LiquidityIndexAt;
    var r' := Next(r, run[0]);
    StepGrows(r, run[0]);
    FrozenStep(r, run[0]);
    if |run| > 1 {
      var rest := run[1..];
      assert Enabled(r', rest[0]);
      LaterStep(r', rest[0]);
      FullFactorFreezesIndex(r', rest);
    }
  }

  lemma LaterStep(r: Reserve, step: Step)
    requires Inv(r) && Enabled(r, step) && r.liquidityRate == 0
    ensures LiquidityIndexAt(r, step.t) == r.liquidityIndex
  {
    NoRateNoGrowth(r, step.t);
  }

  // ----- one timestamp -----

  /** A record whose debts are up to date at `t`. */
  ghost predicate UpToDate(r: Reserve, t: int) {
    && Inv(r) && r.lastUpdateTimestamp == t
    && r.totalStableDebt == StableDebtOf(r, t)
    && r.totalVariableDebt == RayMul(r.scaledVariableDebt, r.variableBorrowIndex)
  }

  /** Accruing twice at one timestamp is accruing once. */
  lemma AccrueIdempotent(r: Reserve, t: int)
    requires UpToDate(r, t)
    ensures LiquidityIndexAt(r, t) != 0 && Accrue(r, t) == r
  {
    NoPeriod(r.liquidityRate, t);
    NoPeriod(r.variableBorrowRate, t);
    UnitFactor(r.liquidityIndex);
    UnitFactor(r.variableBorrowIndex);
    MulAtCommutes(r.principalStableDebt,
      CompoundedInterest(r.averageStableBorrowRate, t, r.totalStableDebtLastUpdated), RAY);
    hide CompoundedInterest, LinearInterest;
    assert DebtAccrued(r, t) == 0;
    assert PercentMul(0, r.reserveFactor) == 0;
  }

  /** Depositing an amount and withdrawing it at the same timestamp leaves the very record that a deposit of nothing
      would have left, with its indexes, debts, treasury, ratios and rates, if and only if the amount is not the
      sentinel that asks for the whole balance, or happens to be that balance. */
  lemma DepositThenWithdraw(p: Strategy, r: Reserve, u: User, amount: nat, t: int)
    requires Ready(p, r, t)
    ensures var deposited := AfterDeposit(p, r, amount, t);
      && Ready(p, deposited, t)
      && (amount != MAX_UINT_AMOUNT ==> CanWithdraw(deposited, u, amount, t))
      && (CanWithdraw(deposited, u, amount, t) ==>
            (AfterWithdraw(p, deposited, u, amount, t) == AfterDeposit(p, r, 0, t)
             <==> amount != MAX_UINT_AMOUNT || RayMul(u.scaledATokenBalance, LiquidityIndexAt(r, t)) == amount))
  {
    DepositUpToDate(p, r, amount, t);
    var deposited := AfterDeposit(p, r, amount, t);
    var withdrawn := AmountWithdrawn(deposited, u, amount, t);
    BalanceUpToDate(deposited, u, t);
    if CanWithdraw(deposited, u, amount, t) {
      if withdrawn == amount {
        WithdrawUndoes(p, r, u, amount, t);
      } else {
        WithdrawLeaves(p, r, u, amount, t);
      }
    }
    hide RayMul, LiquidityIndexAt, AfterDeposit, AfterWithdraw, ATokenBalance, Inv;
  }

  lemma DepositUpToDate(p: Strategy, r: Reserve, amount: nat, t: int)
    requires Ready(p, r, t)
    ensures var deposited := AfterDeposit(p, r, amount, t);
      && UpToDate(deposited, t) && Ready(p, deposited, t)
      && deposited.availableLiquidity == r.availableLiquidity + amount
      && deposited.liquidityIndex == LiquidityIndexAt(r, t)
  {
    AccrueSound(r, t);
    PricedInv(p, WithLiquidity(Accrue(r, t), amount, 0));
    hide RayMul, CompoundedInterest, RatesDefined, InterestRates, UsageRatio, LiquidityIndexAt, VariableIndexAt, TreasuryAt;
  }

  lemma BalanceUpToDate(r: Reserve, u: User, t: int)
    requires UpToDate(r, t)
    ensures ATokenBalance(r, u, t) == RayMul(u.scaledATokenBalance, r.liquidityIndex)
  {
    AccrueIdempotent(r, t);
    SupplyViewsAgree(r, t);
    hide RayMul, NormalizedIncome, LiquidityIndexAt, VariableIndexAt, StableDebtOf, TreasuryAt;
  }

  lemma WithdrawUndoes(p: Strategy, r: Reserve, u: User, amount: nat, t: int)
    requires Ready(p, r, t) && Ready(p, AfterDeposit(p, r, amount, t), t)
    requires CanWithdraw(AfterDeposit(p, r, amount, t), u, amount, t)
    requires AmountWithdrawn(AfterDeposit(p, r, amount, t), u, amount, t) == amount
    ensures AfterWithdraw(p, AfterDeposit(p, r, amount, t), u, amount, t) == AfterDeposit(p, r, 0, t)
  {
    AccrueSound(r, t);
    var a := Accrue(r, t);
    PricedInv(p, WithLiquidity(a, amount, 0));
    DepositUpToDate(p, r, amount, t);
    var deposited := AfterDeposit(p, r, amount, t);
    AccrueIdempotent(deposited, t);
    hide RayMul, CompoundedInterest, RatesDefined, InterestRates, UsageRatio, LiquidityIndexAt, VariableIndexAt, TreasuryAt,
      StableDebtOf, AmountWithdrawn;
    SameLiquidity(a, deposited, amount);
    PricedInv(p, WithLiquidity(a, 0, 0));
    PricedInv(p, WithLiquidity(deposited, 0, amount));
    PricedForgetsRates(p, WithLiquidity(deposited, 0, amount), WithLiquidity(a, 0, 0));
  }

  lemma WithdrawLeaves(p: Strategy, r: Reserve, u: User, amount: nat, t: int)
    requires Ready(p, r, t) && Ready(p, AfterDeposit(p, r, amount, t), t)
    requires CanWithdraw(AfterDeposit(p, r, amount, t), u, amount, t)
    requires AmountWithdrawn(AfterDeposit(p, r, amount, t), u, amount, t) != amount
    ensures AfterWithdraw(p, AfterDeposit(p, r, amount, t), u, amount, t) != AfterDeposit(p, r, 0, t)
  {
    var deposited := AfterDeposit(p, r, amount, t);
    DepositUpToDate(p, r, amount, t);
    DepositUpToDate(p, r, 0, t);
    StepConserves(deposited, Step(p, Withdraw(u, amount), t));
    hide AfterDeposit, AfterWithdraw, AmountWithdrawn, Inv;
  }

  /** A deposit of the sentinel amount stays in the pool when the user withdrawing it has no shares. */
  lemma SentinelDepositStays(p: Strategy, r: Reserve, u: User, t: int)
    requires Ready(p, r, t) && u.scaledATokenBalance == 0
    ensures var deposited := AfterDeposit(p, r, MAX_UINT_AMOUNT, t);
      && Ready(p, deposited, t) && CanWithdraw(deposited, u, MAX_UINT_AMOUNT, t)
      && AfterWithdraw(p, deposited, u, MAX_UINT_AMOUNT, t) != AfterDeposit(p, r, 0, t)
  {
    hide *;
    MaxIsPositive();
    DepositUpToDate(p, r, MAX_UINT_AMOUNT, t);
    DepositThenWithdraw(p, r, u, MAX_UINT_AMOUNT, t);
    NothingToWithdraw(AfterDeposit(p, r, MAX_UINT_AMOUNT, t), u, t);
    WorthNothing(u.scaledATokenBalance, LiquidityIndexAt(r, t));
  }

  lemma WorthNothing(shares: int, index: int)
    requires shares == 0
    ensures RayMul(shares, index) == 0
  {
    MulAtZero(index, RAY);
    hide MulAt;
  }

  lemma NothingToWithdraw(r: Reserve, u: User, t: int)
    requires UpToDate(r, t) && u.scaledATokenBalance == 0
    ensures CanWithdraw(r, u, MAX_UINT_AMOUNT, t)
  {
    BalanceUpToDate(r, u, t);
    WorthNothing(u.scaledATokenBalance, r.liquidityIndex);
    hide RayMul, ATokenBalance, StableDebtOf;
  }

  lemma SameLiquidity(a: Reserve, deposited: Reserve, amount: int)
    requires SameButRates(WithLiquidity(a, amount, 0), deposited)
    ensures SameButRates(WithLiquidity(deposited, 0, amount), WithLiquidity(a, 0, 0))
  {
  }
}
