/** Records on which the branches are reached that the general laws only bound: a user outgrowing the reserve's
    stable debt, an average rate going negative, a repayment read later than it was made. */
module Examples {
  import opened WadRayMath
  import opened Interest
  import opened Shares
  import opened Rates
  import opened RateLaws
  import opened Reserve
  import opened Actions
  import opened Conservation
  import opened Users
  import opened Runs
  import opened Solvency
  import opened StablePace

  /** A reserve without liquidity, last updated at time 1. */
  function Lent(principalStableDebt: int, averageStableRate: int, scaledVariableDebt: int, variableRate: int): Reserve {
    Reserve(0, 0, 0, 0, 0, RAY, RAY, principalStableDebt, scaledVariableDebt, principalStableDebt, scaledVariableDebt,
      averageStableRate, 0, 0, variableRate, RAY, RAY, 0, 1, 1)
  }

  function Borrower(principalStableDebt: int, stableRate: int, scaledVariableDebt: int): User {
    User(0, 0, 0, 0, principalStableDebt, scaledVariableDebt, 0, stableRate, 1, false, 0)
  }

  /** The yearly rate that charges `k` times the debt every second. */
  function PerSecond(k: nat): nat {
    k * RAY * ONE_YEAR
  }

  lemma LentIsValid(principalStableDebt: nat, averageStableRate: nat, scaledVariableDebt: nat, variableRate: nat)
    ensures Inv(Lent(principalStableDebt, averageStableRate, scaledVariableDebt, variableRate))
  {
  }

  lemma PositivePerSecond(k: nat)
    requires k > 0
    ensures PerSecond(k) > 0
  {
    assert k * RAY > 0;
  }

  // ----- concrete growth -----

  lemma ExactMul(n: nat, a: nat, b: nat)
    requires a * b == RAY * n
    ensures RayMul(a, b) == n
  {
    MulAtNearest(a, b, RAY);
    NearestUnique(RayMul(a, b), n, a * b, RAY);
  }

  lemma LinearPerSecond(k: nat, seconds: nat)
    ensures LinearPart(PerSecond(k), seconds) == k * RAY * seconds
  {
    assert PerSecond(k) * seconds == ONE_YEAR * (k * RAY * seconds);
    ExactQuotient(PerSecond(k) * seconds, ONE_YEAR, k * RAY * seconds);
  }

  lemma SquarePerSecond(k: nat)
    ensures BasePowerTwo(PerSecond(k)) == k * k * RAY
  {
    var rate := PerSecond(k);
    var n := ONE_YEAR * ONE_YEAR * (k * k * RAY);
    assert rate * rate == RAY * n by {
      assert rate == RAY * (k * ONE_YEAR);
      assert rate * rate == RAY * (RAY * ((k * ONE_YEAR) * (k * ONE_YEAR)));
      assert (k * ONE_YEAR) * (k * ONE_YEAR) == ONE_YEAR * ONE_YEAR * (k * k);
    }
    ExactMul(n, rate, rate);
    ExactQuotient(n, ONE_YEAR * ONE_YEAR, k * k * RAY);
  }

  lemma OneSecond(k: nat, t: int)
    ensures CompoundedInterest(PerSecond(k), t + 1, t) == (1 + k) * RAY
  {
    CompoundedIsClosedForm(PerSecond(k), t + 1, t);
    LinearPerSecond(k, 1);
    assert Choose(1, 2) == Choose(1, 3) == 0;
  }

  lemma TwoSeconds(k: nat, t: int)
    ensures CompoundedInterest(PerSecond(k), t + 2, t) == (1 + k) * (1 + k) * RAY
  {
    hide *;
    CompoundedIsClosedForm(PerSecond(k), t + 2, t);
    LinearPerSecond(k, 2);
    SquarePerSecond(k);
    TwoSecondsClosed(k);
    assert (1 + k) * (1 + k) * RAY == RAY + k * RAY * 2 + k * k * RAY;
  }

  lemma TwoSecondsClosed(k: nat)
    requires LinearPart(PerSecond(k), 2) == k * RAY * 2 && BasePowerTwo(PerSecond(k)) == k * k * RAY
    ensures ClosedForm(PerSecond(k), 2) == RAY + k * RAY * 2 + k * k * RAY
  {
    assert Choose(2, 2) == 1 && Choose(2, 3) == 0;
    hide BasePowerTwo, BasePowerThree, LinearPart, PerSecond, Choose;
  }

  // ----- a user who outgrows the reserve -----

  /** One unit lent at no rate and two at the rate that charges three times the debt every second average at
      twice the debt every second. */
  lemma AverageOfThree()
    ensures AverageStableRate(0, 1, 2, PerSecond(3)) == PerSecond(2)
  {
    assert PerSecond(3) * 2 == 3 * PerSecond(2);
    hide PerSecond;
    ExactQuotient(PerSecond(3) * 2, 3, PerSecond(2));
  }

  function Averaged(): Reserve { Lent(3, AverageStableRate(0, 1, 2, PerSecond(3)), 0, 0) }

  function Outgrowing(): User { Borrower(2, PerSecond(3), 0) }

  lemma ReserveAfterTwoSeconds(principal: nat, k: nat)
    ensures StableDebtOf(Lent(principal, PerSecond(k), 0, 0), 3) == (1 + k) * (1 + k) * principal
  {
    TwoSeconds(k, 1);
    hide CompoundedInterest, RayMul, PerSecond;
    Rescale((1 + k) * (1 + k), principal);
    ExactMul((1 + k) * (1 + k) * principal, (1 + k) * (1 + k) * RAY, principal);
  }

  lemma UserAfterTwoSeconds(principal: nat, k: nat)
    requires PerSecond(k) != 0
    ensures UserStableDebt(Borrower(principal, PerSecond(k), 0), 3) == (1 + k) * (1 + k) * principal
  {
    TwoSeconds(k, 1);
    hide CompoundedInterest, RayMul, PerSecond;
    Rescale((1 + k) * (1 + k), principal);
    ExactMul((1 + k) * (1 + k) * principal, principal, (1 + k) * (1 + k) * RAY);
  }

  lemma Rescale(n: nat, principal: nat)
    ensures n * RAY * principal == RAY * (n * principal) == principal * (n * RAY)
  {
  }

  /** Two seconds later the average has made 27 of the 3 units, but the second borrower alone owes 32:
      compounding an average falls behind compounding what was averaged. */
  lemma UserOutgrowsReserve()
    ensures Inv(Averaged()) && StableDebtOf(Averaged(), 3) == 27 && UserStableDebt(Outgrowing(), 3) == 32
  {
    hide *;
    Unfolded();
    LentIsValid(3, PerSecond(2), 0, 0);
    ReserveAfterTwoSeconds(3, 2);
    UserAfterTwoSeconds(2, 3);
  }

  lemma Unfolded()
    ensures Averaged() == Lent(3, PerSecond(2), 0, 0) && Averaged().lastUpdateTimestamp == 1
    ensures Outgrowing() == Borrower(2, PerSecond(3), 0) && PerSecond(3) != 0
  {
    AverageOfThree();
    hide AverageStableRate;
  }

  /** Swapping that user's debt leaves the reserve with a negative stable debt. */
  lemma SwapGoesNegative()
    ensures var (r, u) := (Averaged(), Outgrowing());
      && Inv(r) && LiquidityIndexAt(r, 3) != 0 && VariableIndexAt(r, 3) != 0
      && Swapped(r, u, Stable, 3).totalStableDebt == -5
      && !Sound(Swapped(r, u, Stable, 3))
  {
    hide *;
    Unfolded();
    UserOutgrowsReserve();
    SwapToVariableSound(Averaged(), Outgrowing(), 3);
    SwappedTotal(Averaged(), Outgrowing(), 3);
    NegativeIsUnsound(Swapped(Averaged(), Outgrowing(), Stable, 3));
  }

  lemma NegativeIsUnsound(r: Reserve)
    requires r.totalStableDebt < 0
    ensures !Sound(r)
  {
  }

  lemma SwappedTotal(r: Reserve, u: User, t: int)
    requires LiquidityIndexAt(r, t) != 0 && VariableIndexAt(r, t) != 0
    ensures Swapped(r, u, Stable, t).totalStableDebt == StableDebtOf(r, t) - UserStableDebt(u, t)
  {
    hide RayMul, RayDiv, LiquidityIndexAt, VariableIndexAt, StableDebtOf, TreasuryAt, AverageStableRate, UserStableDebt;
  }

  /** Repaying it writes the reserve's stable debt off, and the pool ends with five units more than before. */
  lemma RepayWritesOff()
    ensures var (r, u) := (Averaged(), Outgrowing());
      && Inv(r) && CanRepay(r, u, MAX_UINT_AMOUNT, Stable, 3)
      && LiquidityIndexAt(r, 3) != 0 && VariableIndexAt(r, 3) != 0
      && var s := Repaid(r, AmountRepaid(r, u, MAX_UINT_AMOUNT, Stable, 3), u.stableBorrowRate, Stable, 3);
      && s.totalStableDebt == 0
      && s.availableLiquidity + s.totalStableDebt + s.totalVariableDebt == r.availableLiquidity + DebtAt(r, 3) + 5
  {
    UserOutgrowsReserve();
    Unfolded();
    MaxIsPositive();
    hide RayMul, RayDiv, LiquidityIndexAt, VariableIndexAt, StableDebtOf, UserStableDebt, Inv, Repaid, DebtAt, Averaged,
      Outgrowing, AverageStableRate, VariableDebtBalance;
    RepayConserves(Averaged(), Outgrowing(), 32, Stable, 3);
  }

  /** A repayment within the reserve's debt can be written off too: of one unit at no rate and two at the smallest
      rate the average is zero, so taking the two out again would leave a negative rate, and the one is forgiven. */
  lemma RepayForgivesOthers()
    ensures var (r, u) := (Lent(3, AverageStableRate(0, 1, 2, 1), 0, 0), Borrower(2, 1, 0));
      && Inv(r) && MayPay(r, u, 2, Stable, 1)
      && LiquidityIndexAt(r, 1) != 0 && VariableIndexAt(r, 1) != 0
      && var s := Repaid(r, 2, u.stableBorrowRate, Stable, 1);
      && s.totalStableDebt == 0
      && s.availableLiquidity + s.totalStableDebt + s.totalVariableDebt == r.availableLiquidity + DebtAt(r, 1) - 1
  {
    hide *;
    SmallestAverage();
    RepayConserves(Lent(3, 0, 0, 0), Borrower(2, 1, 0), 2, Stable, 1);
  }

  lemma SmallestAverage()
    ensures AverageStableRate(0, 1, 2, 1) == 0
    ensures var (r, u) := (Lent(3, 0, 0, 0), Borrower(2, 1, 0));
      && Inv(r) && r.lastUpdateTimestamp == 1 && MayPay(r, u, 2, Stable, 1) && u.stableBorrowRate == 1
      && r.averageStableBorrowRate == 0 && StableDebtOf(r, 1) == 3
    ensures !Removable(0, 3, 2, 1)
  {
    hide *;
    LentIsValid(3, 0, 0, 0);
    FreshStableDebt(3, 0);
    SmallNumbers();
    SmallRecord();
  }

  lemma SmallNumbers()
    ensures AverageStableRate(0, 1, 2, 1) == 0 && !Removable(0, 3, 2, 1)
  {
  }

  lemma SmallRecord()
    ensures var (r, u) := (Lent(3, 0, 0, 0), Borrower(2, 1, 0));
      && r.lastUpdateTimestamp == 1 && MayPay(r, u, 2, Stable, 1) && u.stableBorrowRate == 1
      && r.averageStableBorrowRate == 0
  {
    hide VariableDebtBalance;
  }

  lemma FreshStableDebt(principal: nat, rate: nat)
    ensures StableDebtOf(Lent(principal, rate, 0, 0), 1) == principal
  {
    NoPeriod(rate, 1);
    UnitFactor(principal);
    hide RayMul, CompoundedInterest;
  }

  // ----- a rebalanced average below zero -----

  /** Half a billion units at the average rate of one ray, one of them owed at no rate by a user who is rebalanced
      to no rate: in the mixed units the one unit outweighs the rest, and the average turns negative. */
  lemma RebalanceGoesNegative()
    ensures var (r, u) := (Lent(WAD_RAY_RATIO / 2, RAY, 0, 0), Borrower(1, 0, 0));
      && Inv(r) && LiquidityIndexAt(r, 1) != 0
      && Rebalanced(r, u, 1).averageStableBorrowRate < 0
      && !Sound(Rebalanced(r, u, 1))
  {
    ScaleValues();
    var n := WAD_RAY_RATIO / 2;
    var (r, u) := (Lent(n, RAY, 0, 0), Borrower(1, 0, 0));
    LentIsValid(n, RAY, 0, 0);
    FreshStableDebt(n, RAY);
    RebalanceSound(r, u, 1);
    RemovedFromHalf(n);
    ProductStep(n);
    assert !CanRebalance(r, u, 1) by {
      MulAtZero(WAD_RAY_RATIO, RAY);
      hide StableDebtOf, RayMul, AverageStableRateRebalance;
    }
    RebalancedAverage(AverageStableRateRebalance(RAY, n, -1, 0), n, 1, 0);
    hide RayMul, LiquidityIndexAt, VariableIndexAt, StableDebtOf, TreasuryAt, AverageStableRateRebalance, CanRebalance, Inv;
  }

  lemma RemovedFromHalf(n: nat)
    requires WAD_RAY_RATIO == 2 * n && 0 < n && n % 2 == 0
    ensures AverageStableRateRebalance(RAY, n, -1, 0) == -(RAY - 1)
  {
    hide *;
    ExactMul(n, RAY, n);
    HalfStep(n);
    WorthOfNothing(WadToRay(-1));
    OneUnitAway(n);
    AverageOf(RAY, n, -1, 0);
  }

  lemma OneUnitAway(n: nat)
    requires WAD_RAY_RATIO == 2 * n
    ensures n + WadToRay(-1) == 0 - n
  {
  }

  lemma AverageOf(averageRate: int, totalDebt: int, amountChanged: int, rate: int)
    requires totalDebt + WadToRay(amountChanged) != 0
    ensures AverageStableRateRebalance(averageRate, totalDebt, amountChanged, rate)
         == RayDiv(RayMul(averageRate, totalDebt) + RayMul(rate, WadToRay(amountChanged)), totalDebt + WadToRay(amountChanged))
  {
    hide RayMul, RayDiv, WadToRay;
  }

  lemma HalfStep(n: nat)
    requires n > 0 && n % 2 == 0
    ensures RayDiv(n, 0 - n) == -(RAY - 1)
  {
    var (half, m) := (n / 2, n * RAY - n / 2);
    assert m == n * (RAY - 1) + half;
    MulMono(1, RAY, n);
    TruncDivFloor(m, n);
    FloorUnique(TruncDiv(m, n), RAY - 1, m, n);
    assert TruncDiv(0 - n, 2) == 0 - half;
    assert TruncDiv(m, 0 - n) == -TruncDiv(m, n);
    hide TruncDiv;
    assert TruncDiv(0 - n, 2) + n * RAY == m;
  }

  lemma ProductStep(n: nat)
    requires 2 < n && 4 * n < RAY && RAY % 2 == 0
    ensures RayMul(-(RAY - 1), n - 1) == -(n - 2)
  {
    var half := RAY / 2;
    var m := RAY * (n - 2) + half - (n - 1);
    FullScales(n);
    NegatedQuotient(m, n - 2, RAY);
    assert TruncDiv(RAY, 2) == half;
    hide TruncDiv;
  }

  lemma FullScales(n: nat)
    ensures -(RAY - 1) * (n - 1) == -(RAY * (n - 2)) - RAY + (n - 1)
  {
    assert (RAY - 1) * (n - 1) == RAY * (n - 2) + RAY - (n - 1);
    assert -(RAY - 1) * (n - 1) == -((RAY - 1) * (n - 1));
  }

  lemma NegatedQuotient(m: int, q: nat, d: int)
    requires d > 0 && d * q <= m < d * q + d
    ensures TruncDiv(0 - m, d) == 0 - q
  {
    MulMono(0, q, d);
    TruncDivFloor(m, d);
    FloorUnique(TruncDiv(m, d), q, m, d);
    assert TruncDiv(0 - m, d) == 0 - TruncDiv(m, d);
  }

  // ----- a repayment read later -----

  /** A borrower of one share whose debt doubles every second pays everything, but the balance is read a second
      after the transaction: the record then shows a negative number of shares. */
  lemma ReadLaterOvershoots(p: Strategy)
    requires ValidStrategy(p)
    ensures var (r, u) := (Lent(0, 0, 1, PerSecond(1)), Borrower(0, 0, 1));
      && Ready(p, r, 1) && CanRepay(r, u, MAX_UINT_AMOUNT, Variable, 1)
      && var after := AfterRepay(p, r, u, MAX_UINT_AMOUNT, Variable, 1);
      && after.variableBorrowIndex != 0
      && UserAfterRepay(MAX_UINT_AMOUNT, Variable, r, after, u, true, 1, 2).scaledVariableDebt < 0
  {
    var (r, u) := (Lent(0, 0, 1, PerSecond(1)), Borrower(0, 0, 1));
    hide *;
    OwesOne(p, r, u);
    DebtDoubles(r, u);
    Overshoots(p, r, u, 1, 2);
  }

  lemma Overshoots(p: Strategy, r: Reserve, u: User, t: int, now: int)
    requires Ready(p, r, t) && t <= now && CanRepay(r, u, MAX_UINT_AMOUNT, Variable, t)
    requires u.scaledVariableDebt == 1 && VariableDebtBalance(r, u, now) == 2 && VariableIndexAt(r, t) == RAY
    ensures var after := AfterRepay(p, r, u, MAX_UINT_AMOUNT, Variable, t);
      && after.variableBorrowIndex != 0
      && UserAfterRepay(MAX_UINT_AMOUNT, Variable, r, after, u, true, t, now).scaledVariableDebt < 0
  {
    hide *;
    RepayEverythingReadLater(p, r, u, true, t, now);
    RepayShares(p, r, u, MAX_UINT_AMOUNT, t);
  }

  lemma OwesOne(p: Strategy, r: Reserve, u: User)
    requires ValidStrategy(p) && r == Lent(0, 0, 1, PerSecond(1)) && u == Borrower(0, 0, 1)
    ensures Ready(p, r, 1) && CanRepay(r, u, MAX_UINT_AMOUNT, Variable, 1)
    ensures u.scaledVariableDebt == 1
  {
    hide *;
    LentIsValid(0, 0, 1, PerSecond(1));
    DebtDoubles(r, u);
    OwesItsBalance(p, r, u);
  }

  lemma OwesItsBalance(p: Strategy, r: Reserve, u: User)
    requires ValidStrategy(p) && r == Lent(0, 0, 1, PerSecond(1)) && u == Borrower(0, 0, 1) && Inv(r)
    requires VariableDebtBalance(r, u, 1) == 1
    ensures Ready(p, r, 1) && CanRepay(r, u, MAX_UINT_AMOUNT, Variable, 1)
    ensures u.scaledVariableDebt == 1
  {
    hide VariableDebtBalance, PerSecond, Inv, ValidStrategy;
    MaxIsPositive();
  }

  lemma DebtDoubles(r: Reserve, u: User)
    requires r == Lent(0, 0, 1, PerSecond(1)) && u == Borrower(0, 0, 1)
    ensures VariableDebtBalance(r, u, 1) == 1 && VariableDebtBalance(r, u, 2) == 2
    ensures VariableIndexAt(r, 1) == RAY
  {
    hide *;
    OneSecond(1, 1);
    PositivePerSecond(1);
    NoPeriod(PerSecond(1), 1);
    ExactMul(RAY, RAY, RAY);
    ExactMul(2 * RAY, 2 * RAY, RAY);
    ExactMul(1, 1, RAY);
    ExactMul(2, 1, 2 * RAY);
    DebtSteps(r, u, PerSecond(1));
  }

  lemma DebtSteps(r: Reserve, u: User, rate: nat)
    requires r == Lent(0, 0, 1, rate) && u == Borrower(0, 0, 1)
    requires CompoundedInterest(rate, 1, 1) == RAY && CompoundedInterest(rate, 2, 1) == 2 * RAY
    requires RayMul(RAY, RAY) == RAY && RayMul(2 * RAY, RAY) == 2 * RAY
    requires RayMul(1, RAY) == 1 && RayMul(1, 2 * RAY) == 2
    ensures VariableDebtBalance(r, u, 1) == 1
    ensures rate != 0 ==> VariableDebtBalance(r, u, 2) == 2
    ensures VariableIndexAt(r, 1) == RAY
  {
    hide RayMul, CompoundedInterest;
  }

  // ----- stable debt that has long been compounding -----

  lemma PowersOfDoubling()
    ensures BasePowerTwo(PerSecond(1)) == BasePowerThree(PerSecond(1)) == RAY
  {
    SquarePerSecond(1);
    var rate := PerSecond(1);
    assert rate == ONE_YEAR * RAY;
    ExactMul(rate, RAY, rate);
    ExactQuotient(rate, ONE_YEAR, RAY);
    hide RayMul, TruncDiv, PerSecond, BasePowerTwo;
  }

  /** Doubling every second, three seconds make eight of one, but the four-term formula makes only 15 of it in four
      and 26 in five. */
  lemma Doubling()
    ensures CompoundedInterest(PerSecond(1), 4, 1) == 8 * RAY && CompoundedInterest(PerSecond(1), 5, 1) == 15 * RAY
    ensures CompoundedInterest(PerSecond(1), 6, 1) == 26 * RAY
  {
    hide *;
    CompoundedIsClosedForm(PerSecond(1), 4, 1);
    CompoundedIsClosedForm(PerSecond(1), 5, 1);
    CompoundedIsClosedForm(PerSecond(1), 6, 1);
    LinearPerSecond(1, 3);
    LinearPerSecond(1, 4);
    LinearPerSecond(1, 5);
    PowersOfDoubling();
    DoublingClosed(3, 3, 1, 8);
    DoublingClosed(4, 6, 4, 15);
    DoublingClosed(5, 10, 10, 26);
  }

  lemma DoublingClosed(n: nat, c2: nat, c3: nat, made: nat)
    requires 2 * c2 == n * (n - 1) && 6 * c3 == n * (n - 1) * (n - 2) && made == 1 + n + c2 + c3
    requires LinearPart(PerSecond(1), n) == 1 * RAY * n
    requires BasePowerTwo(PerSecond(1)) == BasePowerThree(PerSecond(1)) == RAY
    ensures ClosedForm(PerSecond(1), n) == made * RAY
  {
    ChooseTwo(n);
    ChooseThree(n);
    hide LinearPart, BasePowerTwo, BasePowerThree, PerSecond, Choose;
  }

  function Compounding(principal: int): Reserve {
    Lent(principal, PerSecond(1), 0, 0).(totalStableDebt := 8 * principal, lastUpdateTimestamp := 4)
  }

  /** Stable debt that has compounded for three seconds at that rate falls a unit behind it for every unit lent in
      the next second, but runs two units ahead of it over the next two. */
  lemma OldStableDebtFallsBehind(principal: nat)
    ensures UpToDate(Compounding(principal), 4) && Compounding(principal).lastUpdateTimestamp == 4
    ensures Shortfall(Compounding(principal), 5) == UNIT * principal && !PaceKept(Compounding(principal), 5)
    ensures Shortfall(Compounding(principal), 6) == -2 * (UNIT * principal) && PaceKept(Compounding(principal), 6)
  {
    hide *;
    Doubling();
    ExactMul(8 * principal, 8 * RAY, principal);
    ExactMul(15 * principal, 15 * RAY, principal);
    ExactMul(26 * principal, 26 * RAY, principal);
    PositivePerSecond(1);
    WorthOfNothing(RAY);
    CompoundingIs(principal);
    CompoundingShortfall(principal);
    DoublingPace();
    CompoundingPace(principal);
  }

  lemma CompoundingIs(principal: nat)
    requires CompoundedInterest(PerSecond(1), 4, 1) == 8 * RAY && CompoundedInterest(PerSecond(1), 5, 1) == 15 * RAY
    requires CompoundedInterest(PerSecond(1), 6, 1) == 26 * RAY
    requires RayMul(8 * RAY, principal) == 8 * principal && RayMul(15 * RAY, principal) == 15 * principal
    requires RayMul(26 * RAY, principal) == 26 * principal && RayMul(0, RAY) == 0
    ensures UpToDate(Compounding(principal), 4) && Compounding(principal).lastUpdateTimestamp == 4
    ensures StableDebtOf(Compounding(principal), 5) == 15 * principal
    ensures StableDebtOf(Compounding(principal), 6) == 26 * principal
  {
    hide RayMul, CompoundedInterest;
  }

  lemma CompoundingShortfall(principal: nat)
    requires StableDebtOf(Compounding(principal), 5) == 15 * principal
    requires StableDebtOf(Compounding(principal), 6) == 26 * principal
    ensures Shortfall(Compounding(principal), 5) == UNIT * principal
    ensures Shortfall(Compounding(principal), 6) == -2 * (UNIT * principal)
  {
    hide StableDebtOf;
    assert PerSecond(1) == UNIT;
    var r := Compounding(principal);
    assert Shortfall(r, 5) == 8 * principal * (PerSecond(1) * 1) - UNIT * (15 * principal - 8 * principal);
    assert Shortfall(r, 6) == 8 * principal * (PerSecond(1) * 2) - UNIT * (26 * principal - 8 * principal);
    hide Shortfall, PerSecond;
    assert 8 * principal * (UNIT * 1) == 8 * (UNIT * principal) && 8 * principal * (UNIT * 2) == 16 * (UNIT * principal);
  }

  lemma DoublingPace()
    ensures PerSecond(1) == UNIT && !KeepsPace(UNIT, 3, 1) && KeepsPace(UNIT, 3, 2)
  {
    assert Choose(3, 3) == 1 && Choose(1, 2) == Choose(1, 3) == 0 && Choose(2, 2) == 1 && Choose(2, 3) == 0;
    hide Choose;
    assert UNIT * UNIT > 0;
  }

  lemma CompoundingPace(principal: nat)
    requires UpToDate(Compounding(principal), 4) && Compounding(principal).lastUpdateTimestamp == 4
    requires PerSecond(1) == UNIT && !KeepsPace(UNIT, 3, 1) && KeepsPace(UNIT, 3, 2)
    ensures !PaceKept(Compounding(principal), 5) && PaceKept(Compounding(principal), 6)
  {
    hide KeepsPace, UpToDate, PerSecond;
  }
}
