/** Stable debt compounds from its own last update, by a formula cut off after four terms. Whether its growth over
    the next period keeps up with its rate is decided, without rounding, by the age of the debt, the rate and the
    period; the rounding of the source adds an explicit margin on either side. */
module StablePace {
  import opened WadRayMath
  import opened Interest
  import opened Rates
  import opened Reserve
  import opened Runs
  import opened Solvency

  // ----- the exact condition -----

  ghost function Square(rate: int): int { rate * rate }

  ghost function Cube(rate: int): int { rate * Square(rate) }

  ghost function UnitSquare(): int { UNIT * UNIT }

  ghost function UnitCube(): int { UNIT * UnitSquare() }

  /** What `n` seconds make of one at `rate`, without rounding: the first four binomial terms, in cubic units. */
  ghost function Terms(rate: nat, n: nat): int {
    UnitCube() + n * (rate * UnitSquare()) + Choose(n, 2) * (Square(rate) * UNIT) + Choose(n, 3) * Cube(rate)
  }

  /** By how much linear interest for `d` seconds on what `a` seconds have made of one exceeds what the next `d`
      seconds add to it. */
  ghost function Gap(rate: nat, a: nat, d: nat): int {
    d * (rate * Terms(rate, a)) - UNIT * (Terms(rate, a + d) - Terms(rate, a))
  }

  /** Debt compounding for `a` seconds at `rate` keeps up with it over the next `d` seconds. */
  predicate KeepsPace(rate: nat, a: nat, d: nat) {
    Choose(a, 3) * d * (rate * rate) <= Choose(d, 2) * (UNIT * UNIT) + (a * Choose(d, 2) + Choose(d, 3)) * (rate * UNIT)
  }

  lemma {:induction false} ChooseSum(a: nat, d: nat)
    ensures Choose(a + d, 2) == Choose(a, 2) + a * d + Choose(d, 2)
    ensures Choose(a + d, 3) == Choose(a, 3) + Choose(a, 2) * d + a * Choose(d, 2) + Choose(d, 3)
  {
    hide Choose;
    if d == 0 {
      ChooseNone();
      assert a * d == 0 && Choose(a, 2) * d == 0 && a * Choose(d, 2) == 0;
    } else {
      ChooseSum(a, d - 1);
      ChooseTwo(a + d - 1);
      ChooseTwo(d - 1);
      ChooseStep(a + d);
      ChooseStep(d);
      LastSecond(a, d, Choose(a, 2), Choose(d - 1, 2), Choose(d, 2));
    }
  }

  lemma ChooseNone()
    ensures Choose(0, 2) == Choose(0, 3) == 0
  {
  }

  lemma LastSecond(a: int, d: int, a2: int, d2: int, d2': int)
    requires d2' == d2 + (d - 1)
    ensures a * d == a * (d - 1) + a
    ensures a2 * d == a2 * (d - 1) + a2
    ensures a * d2' == a * d2 + a * (d - 1)
  {
  }

  lemma ChooseStep(n: nat)
    requires n > 0
    ensures Choose(n, 2) == Choose(n - 1, 1) + Choose(n - 1, 2)
    ensures Choose(n, 3) == Choose(n - 1, 2) + Choose(n - 1, 3)
  {
  }

  /** All the gap consists of: the cut-off term, against the compounding within the period. */
  lemma GapFactors(rate: nat, a: nat, d: nat)
    ensures Gap(rate, a, d)
         == Square(rate) * (Choose(a, 3) * d * (rate * rate)
                            - (Choose(d, 2) * (UNIT * UNIT) + (a * Choose(d, 2) + Choose(d, 3)) * (rate * UNIT)))
  {
    hide *;
    var (a2, a3, d2, d3) := (Choose(a, 2), Choose(a, 3), Choose(d, 2), Choose(d, 3));
    var (t1, t2, t3) := (rate * UnitSquare(), Square(rate) * UNIT, Cube(rate));
    ChooseSum(a, d);
    GapOf(rate, a, d);
    Added(a, d, a2, a3, d2, d3, t1, t2, t3);
    Charged(d, rate, UnitCube(), a, a2, a3, t1, t2, t3);
    GrownTerms(UNIT, d, a * d + d2, a2 * d, a * d2 + d3, t1, t2, t3);
    Powers(rate, d, a, d2);
    Bracket(rate, a3 * d, d2, a * d2 + d3);
  }

  lemma GapOf(rate: nat, a: nat, d: nat)
    ensures var (t1, t2, t3) := (rate * UnitSquare(), Square(rate) * UNIT, Cube(rate));
      var before := UnitCube() + a * t1 + Choose(a, 2) * t2 + Choose(a, 3) * t3;
      Gap(rate, a, d) == d * (rate * before)
        - UNIT * (UnitCube() + (a + d) * t1 + Choose(a + d, 2) * t2 + Choose(a + d, 3) * t3 - before)
  {
    hide Choose, Square, Cube, UnitSquare, UnitCube;
  }

  /** What the next seconds add, coefficient by coefficient. */
  lemma Added(a: int, d: int, a2: int, a3: int, d2: int, d3: int, t1: int, t2: int, t3: int)
    ensures (a + d) * t1 == a * t1 + d * t1
    ensures (a2 + a * d + d2) * t2 == a2 * t2 + (a * d + d2) * t2
    ensures (a3 + a2 * d + a * d2 + d3) * t3 == a3 * t3 + (a2 * d) * t3 + (a * d2 + d3) * t3
  {
  }

  lemma Charged(d: int, rate: int, t0: int, a: int, a2: int, a3: int, t1: int, t2: int, t3: int)
    ensures d * (rate * (t0 + a * t1 + a2 * t2 + a3 * t3))
         == d * (rate * t0) + (a * d) * (rate * t1) + (a2 * d) * (rate * t2) + (a3 * d) * (rate * t3)
  {
    assert rate * (t0 + a * t1 + a2 * t2 + a3 * t3) == rate * t0 + a * (rate * t1) + a2 * (rate * t2) + a3 * (rate * t3);
  }

  lemma GrownTerms(u: int, d: int, c2: int, c3: int, s: int, t1: int, t2: int, t3: int)
    ensures u * (d * t1 + c2 * t2 + c3 * t3 + s * t3) == d * (u * t1) + c2 * (u * t2) + c3 * (u * t3) + s * (u * t3)
  {
  }

  /** How the powers of the rate and of the unit meet. */
  lemma Powers(rate: int, d: int, a: int, d2: int)
    ensures rate * UnitCube() == UNIT * (rate * UnitSquare())
    ensures rate * (rate * UnitSquare()) == UNIT * (Square(rate) * UNIT)
    ensures rate * (Square(rate) * UNIT) == UNIT * Cube(rate)
    ensures (a * d + d2) * (UNIT * (Square(rate) * UNIT))
         == (a * d) * (UNIT * (Square(rate) * UNIT)) + d2 * (UNIT * (Square(rate) * UNIT))
  {
  }

  /** The bracket that decides, multiplied out. */
  lemma Bracket(rate: int, p: int, q: int, s: int)
    ensures Square(rate) * (p * (rate * rate) - (q * (UNIT * UNIT) + s * (rate * UNIT)))
         == p * (rate * Cube(rate)) - q * (UNIT * (Square(rate) * UNIT)) - s * (UNIT * Cube(rate))
  {
    var (x, u) := (rate * rate, UNIT);
    Spread(x, p * x, q * (u * u), s * (rate * u));
    Reordered(x, p, x);
    Fourth(rate, p);
    UnitSecond(x, q, u);
    UnitThird(rate, x, s, u);
  }

  lemma Fourth(rate: int, p: int)
    ensures p * ((rate * rate) * (rate * rate)) == p * (rate * (rate * (rate * rate)))
  {
  }

  lemma UnitSecond(x: int, q: int, u: int)
    ensures x * (q * (u * u)) == q * (u * (x * u))
  {
  }

  lemma UnitThird(rate: int, x: int, s: int, u: int)
    ensures x * (s * (rate * u)) == s * (u * (rate * x))
  {
  }

  lemma Spread(k: int, a: int, b: int, c: int)
    ensures k * (a - (b + c)) == k * a - k * b - k * c
  {
  }

  lemma Reordered(a: int, b: int, c: int)
    ensures a * (b * c) == b * (a * c)
  {
  }

  /** Without rounding, stable debt keeps up with its rate if and only if `KeepsPace` says so. */
  lemma PaceExactly(rate: nat, a: nat, d: nat)
    ensures Gap(rate, a, d) <= 0 <==> KeepsPace(rate, a, d)
  {
    GapFactors(rate, a, d);
    var p := Choose(a, 3) * d * (rate * rate);
    var q := Choose(d, 2) * (UNIT * UNIT) + (a * Choose(d, 2) + Choose(d, 3)) * (rate * UNIT);
    assert KeepsPace(rate, a, d) <==> p <= q by { hide Choose; }
    hide Gap, KeepsPace;
    if rate == 0 {
      RateOfNothing(Choose(a, 3) * d, Choose(d, 2), a * Choose(d, 2) + Choose(d, 3));
    } else {
      hide Choose;
      SquareSign(rate, p - q);
    }
  }

  lemma RateOfNothing(p: int, q: nat, s: int)
    ensures Square(0) == 0 && p * (0 * 0) <= q * (UNIT * UNIT) + s * (0 * UNIT)
  {
    ProductMono(0, q, 0, UNIT * UNIT);
  }

  lemma SquareSign(rate: nat, b: int)
    requires rate > 0
    ensures Square(rate) * b <= 0 <==> b <= 0
  {
    assert Square(rate) > 0;
    hide Square;
    if b > 0 {
      MulMono(1, b, Square(rate));
    } else {
      MulMono(b, 0, Square(rate));
    }
  }

  // ----- the source's formula is near the terms without rounding -----

  /** How far the source's formula for `n` seconds, in cubic units, can be from a ray's terms. */
  ghost function FormulaError(rate: nat, n: nat): int {
    UnitCube() + Choose(n, 2) * (2 * UnitCube()) + Choose(n, 3) * (2 * UnitCube() + 2 * (rate * UnitSquare()))
  }

  lemma FormulaNear(rate: nat, n: nat)
    ensures -FormulaError(rate, n) <= UnitCube() * ClosedForm(rate, n) - RAY * Terms(rate, n) <= FormulaError(rate, n)
  {
    hide *;
    var (linear, b2, b3, c2, c3) := (LinearPart(rate, n), BasePowerTwo(rate), BasePowerThree(rate), Choose(n, 2), Choose(n, 3));
    var (t0, t1, t2, t3) := (UnitCube(), rate * UnitSquare(), Square(rate) * UNIT, Cube(rate));
    FormulaParts(rate, n);
    LinearNear(rate, n);
    SquareNear(rate);
    CubeNear(rate);
    NearTimes(c2, t0 * b2, RAY * t2, 2 * t0);
    NearTimes(c3, t0 * b3, RAY * t3, 2 * t0 + 2 * t1);
    FormulaSpread(t0, linear, b2, b3, c2, c3);
    TermsSpread(t0, n * t1, t2, t3, c2, c3);
  }

  lemma FormulaParts(rate: nat, n: nat)
    ensures ClosedForm(rate, n) == RAY + LinearPart(rate, n) + Choose(n, 2) * BasePowerTwo(rate) + Choose(n, 3) * BasePowerThree(rate)
    ensures Terms(rate, n) == UnitCube() + n * (rate * UnitSquare()) + Choose(n, 2) * (Square(rate) * UNIT) + Choose(n, 3) * Cube(rate)
    ensures FormulaError(rate, n)
         == UnitCube() + Choose(n, 2) * (2 * UnitCube()) + Choose(n, 3) * (2 * UnitCube() + 2 * (rate * UnitSquare()))
  {
    hide LinearPart, BasePowerTwo, BasePowerThree, Choose, UnitCube, UnitSquare, Square, Cube;
  }

  lemma FormulaSpread(t: int, linear: int, b2: int, b3: int, c2: int, c3: int)
    ensures t * (RAY + linear + c2 * b2 + c3 * b3) == RAY * t + t * linear + c2 * (t * b2) + c3 * (t * b3)
  {
  }

  lemma TermsSpread(t0: int, t1: int, t2: int, t3: int, c2: int, c3: int)
    ensures RAY * (t0 + t1 + c2 * t2 + c3 * t3) == RAY * t0 + RAY * t1 + c2 * (RAY * t2) + c3 * (RAY * t3)
  {
  }

  lemma NearTimes(k: nat, b: int, v: int, e: int)
    requires -e <= b - v <= e
    ensures -(k * e) <= k * b - k * v <= k * e
  {
    MulMono(b - v, e, k);
    MulMono(-e, b - v, k);
    assert k * (b - v) == k * b - k * v;
    assert k * -e == -(k * e);
  }

  lemma UnitIs()
    ensures UNIT == RAY * ONE_YEAR && UnitSquare() == UNIT * UNIT && UnitCube() == UNIT * UnitSquare()
    ensures 0 < UnitSquare() && 0 < UnitCube() && RAY <= UNIT
  {
    MulMono(1, ONE_YEAR, RAY);
  }

  lemma LinearNear(rate: nat, n: nat)
    ensures -UnitCube() <= UnitCube() * LinearPart(rate, n) - RAY * (n * (rate * UnitSquare())) <= 0
  {
    TruncDivFloor(rate * n, ONE_YEAR);
    hide TruncDiv;
    var linear := LinearPart(rate, n);
    assert ONE_YEAR * linear <= rate * n < ONE_YEAR * linear + ONE_YEAR;
    hide *;
    UnitIs();
    var k := RAY * UnitSquare();
    MulMono(ONE_YEAR * linear, rate * n, k) by { ProductMono(0, RAY, 0, UnitSquare()); }
    MulMono(rate * n, ONE_YEAR * linear + ONE_YEAR, k) by { ProductMono(0, RAY, 0, UnitSquare()); }
    LinearProducts(RAY, ONE_YEAR, UnitSquare(), linear, rate, n);
  }

  lemma LinearProducts(f: int, y: int, uu: int, linear: int, rate: int, n: int)
    ensures (f * uu) * (y * linear) == ((f * y) * uu) * linear
    ensures (f * uu) * (y * linear + y) == ((f * y) * uu) * linear + (f * y) * uu
    ensures (f * uu) * (rate * n) == f * (n * (rate * uu))
  {
  }

  lemma BasePowersNear(rate: nat)
    ensures var (k, b2) := (RAY * (ONE_YEAR * ONE_YEAR), BasePowerTwo(rate));
      2 * (rate * rate) - RAY - 2 * k <= 2 * (k * b2) <= 2 * (rate * rate) + RAY
    ensures var (k, b2, b3) := (RAY * ONE_YEAR, BasePowerTwo(rate), BasePowerThree(rate));
      2 * (b2 * rate) - RAY - 2 * k <= 2 * (k * b3) <= 2 * (b2 * rate) + RAY
  {
    BasePowersNonneg(rate);
    MulAtNearest(rate, rate, RAY);
    TruncDivFloor(RayMul(rate, rate), ONE_YEAR * ONE_YEAR);
    MulAtNearest(BasePowerTwo(rate), rate, RAY);
    TruncDivFloor(RayMul(BasePowerTwo(rate), rate), ONE_YEAR);
    var (m2, m3, b2, b3) := (RayMul(rate, rate), RayMul(BasePowerTwo(rate), rate), BasePowerTwo(rate), BasePowerThree(rate));
    assert b2 == TruncDiv(m2, ONE_YEAR * ONE_YEAR) && b3 == TruncDiv(m3, ONE_YEAR);
    hide BasePowerTwo, BasePowerThree, RayMul, TruncDiv;
    QuotientNear(m2, b2, rate * rate, ONE_YEAR * ONE_YEAR, RAY);
    QuotientNear(m3, b3, b2 * rate, ONE_YEAR, RAY);
  }

  lemma QuotientNear(m: int, b: int, n: int, k: int, f: nat)
    requires Nearest(m, n, f) && k * b <= m < k * b + k
    ensures 2 * n - f - 2 * (f * k) <= 2 * (f * k * b) <= 2 * n + f
  {
    MulMono(k * b, m, f);
    MulMono(m, k * b + k, f);
    assert f * (k * b + k) == f * k * b + f * k;
  }

  lemma BaseNear(rate: nat)
    ensures -2 * UnitSquare() <= UnitSquare() * BasePowerTwo(rate) - RAY * Square(rate) <= 2 * UnitSquare()
  {
    BasePowersNear(rate);
    SquareIs(rate);
    var (b2, k) := (BasePowerTwo(rate), RAY * (ONE_YEAR * ONE_YEAR));
    hide *;
    UnitIs();
    ScaleAtLeast(RAY, ONE_YEAR);
    ScaledNear(k, b2, rate * rate, RAY);
    TimesNear(RAY, k * b2, rate * rate, k);
    UnitSquareProducts(RAY, ONE_YEAR, b2);
  }

  lemma SquareIs(rate: int)
    ensures Square(rate) == rate * rate && Cube(rate) == rate * Square(rate)
  {
  }

  lemma ScaleAtLeast(f: nat, y: Positive)
    ensures f <= f * (y * y) && f <= f * y
  {
    MulMono(1, y, y);
    MulMono(1, y * y, f);
    MulMono(1, y, f);
  }

  lemma UnitSquareProducts(f: int, y: int, b: int)
    ensures f * (f * (y * y)) == (f * y) * (f * y)
    ensures f * (f * (y * y) * b) == (f * y) * (f * y) * b
  {
  }

  lemma SquareNear(rate: nat)
    ensures -2 * UnitCube() <= UnitCube() * BasePowerTwo(rate) - RAY * (Square(rate) * UNIT) <= 2 * UnitCube()
  {
    hide *;
    UnitIs();
    BaseNear(rate);
    TimesNear(UNIT, UnitSquare() * BasePowerTwo(rate), RAY * Square(rate), UnitSquare());
    UnitTimes(UNIT, UnitSquare(), BasePowerTwo(rate), Square(rate), RAY);
  }

  lemma UnitTimes(u: int, uu: int, b: int, x: int, f: int)
    ensures u * (uu * b) == (u * uu) * b && u * (f * x) == f * (x * u)
  {
  }

  lemma CubeNear(rate: nat)
    ensures var e := 2 * UnitCube() + 2 * (rate * UnitSquare());
      -e <= UnitCube() * BasePowerThree(rate) - RAY * Cube(rate) <= e
  {
    hide *;
    var (b2, b3) := (BasePowerTwo(rate), BasePowerThree(rate));
    UnitIs();
    BaseNear(rate);
    SquareIs(rate);
    BasePowersNear(rate);
    ScaledNear(UNIT, b3, b2 * rate, RAY);
    TimesNear(UnitSquare(), UNIT * b3, b2 * rate, UNIT);
    TimesNear(rate, UnitSquare() * b2, RAY * Square(rate), UnitSquare());
    CubeProducts(UNIT, UnitSquare(), b2, b3, rate, Square(rate), RAY);
  }

  lemma CubeProducts(u: int, uu: int, b2: int, b3: int, rate: int, x: int, f: int)
    ensures uu * (u * b3) == (u * uu) * b3 && uu * u == u * uu
    ensures uu * (b2 * rate) == rate * (uu * b2)
    ensures rate * (f * x) == f * (rate * x)
  {
  }

  /** Rounding by half a scale is within one quotient's step. */
  lemma ScaledNear(k: int, b: int, n: int, f: nat)
    requires 2 * n - f - 2 * k <= 2 * (k * b) <= 2 * n + f && f <= k
    ensures -2 * k <= k * b - n <= 2 * k
  {
  }

  lemma TimesNear(m: nat, kb: int, n: int, k: int)
    requires -2 * k <= kb - n <= 2 * k
    ensures -2 * (m * k) <= m * kb - m * n <= 2 * (m * k)
  {
    NearTimes(m, kb, n, 2 * k);
    assert m * (2 * k) == 2 * (m * k);
  }

  // ----- the shortfall of a record's stable debt -----

  /** What rounding can add to the gap over a principal. */
  ghost function PaceRounding(rate: nat, principal: nat, a: nat, d: nat): int {
    UnitCube() * (RAY * (rate * d + 2 * UNIT))
    + 2 * (principal * ((rate * d + UNIT) * FormulaError(rate, a) + UNIT * FormulaError(rate, a + d)))
  }

  function Age(r: Reserve): int {
    r.lastUpdateTimestamp - r.totalStableDebtLastUpdated
  }

  /** Whether the record's stable debt keeps up with its average rate until `t`. */
  ghost predicate PaceKept(r: Reserve, t: int)
    requires UpToDate(r, r.lastUpdateTimestamp) && r.lastUpdateTimestamp <= t
  {
    RecordOf(r, t);
    KeepsPace(r.averageStableBorrowRate, Age(r), t - r.lastUpdateTimestamp)
  }

  ghost function RecordGap(r: Reserve, t: int): int
    requires UpToDate(r, r.lastUpdateTimestamp) && r.lastUpdateTimestamp <= t
  {
    RecordOf(r, t);
    Gap(r.averageStableBorrowRate, Age(r), t - r.lastUpdateTimestamp)
  }

  ghost function RecordRounding(r: Reserve, t: int): int
    requires UpToDate(r, r.lastUpdateTimestamp) && r.lastUpdateTimestamp <= t
  {
    RecordOf(r, t);
    PaceRounding(r.averageStableBorrowRate, r.principalStableDebt, Age(r), t - r.lastUpdateTimestamp)
  }

  /** The shortfall of stable debt is the gap over its principal, to rounding on either side, and the gap is none
      if and only if the debt keeps pace. */
  lemma ShortfallIsGap(r: Reserve, t: int)
    requires UpToDate(r, r.lastUpdateTimestamp) && r.lastUpdateTimestamp <= t
    ensures RecordGap(r, t) <= 0 <==> PaceKept(r, t)
    ensures var difference := 2 * (UnitCube() * (RAY * Shortfall(r, t))) - 2 * (r.principalStableDebt * (RAY * RecordGap(r, t)));
      -RecordRounding(r, t) <= difference <= RecordRounding(r, t)
  {
    RecordOf(r, t);
    hide Gap, KeepsPace, PaceRounding, UpToDate, Shortfall, StableDebtOf, ClosedForm, UnitCube;
    PaceExactly(r.averageStableBorrowRate, Age(r), t - r.lastUpdateTimestamp);
    ShortfallNear(r, t);
  }

  lemma ShortfallNear(r: Reserve, t: int)
    requires UpToDate(r, r.lastUpdateTimestamp) && r.lastUpdateTimestamp <= t
    requires 0 <= Age(r) && 0 <= r.averageStableBorrowRate && 0 <= r.principalStableDebt
    ensures var (rate, d) := (r.averageStableBorrowRate, t - r.lastUpdateTimestamp);
      var rounding := PaceRounding(rate, r.principalStableDebt, Age(r), d);
      -rounding <= 2 * (UnitCube() * (RAY * Shortfall(r, t))) - 2 * (r.principalStableDebt * (RAY * Gap(rate, Age(r), d)))
      <= rounding
  {
    hide *;
    var (rate, d, principal) := (r.averageStableBorrowRate, t - r.lastUpdateTimestamp, r.principalStableDebt);
    RecordOf(r, t);
    var a := Age(r);
    UnitIs();
    FormulaNear(rate, a);
    FormulaNear(rate, a + d);
    GapIs(rate, a, d);
    ProductMono(0, rate, 0, d);
    ShortfallAlgebra(r.totalStableDebt, StableDebtOf(r, t), ClosedForm(rate, a), ClosedForm(rate, a + d), Terms(rate, a),
      Terms(rate, a + d), FormulaError(rate, a), FormulaError(rate, a + d), principal, rate * d, UNIT, UnitCube(), RAY,
      Shortfall(r, t), Gap(rate, a, d));
    RoundingIs(rate, principal, a, d);
  }

  lemma RoundingIs(rate: nat, principal: nat, a: nat, d: nat)
    ensures PaceRounding(rate, principal, a, d) == UnitCube() * (RAY * (rate * d + 2 * UNIT))
      + 2 * (principal * ((rate * d + UNIT) * FormulaError(rate, a) + UNIT * FormulaError(rate, a + d)))
  {
    hide UnitCube, FormulaError;
  }

  lemma GapIs(rate: nat, a: nat, d: nat)
    ensures Gap(rate, a, d) == (rate * d) * Terms(rate, a) - UNIT * (Terms(rate, a + d) - Terms(rate, a))
  {
    hide Terms;
    var x := Terms(rate, a);
    assert d * (rate * x) == (rate * d) * x;
  }

  lemma RecordOf(r: Reserve, t: int)
    requires UpToDate(r, r.lastUpdateTimestamp) && r.lastUpdateTimestamp <= t
    ensures 0 <= Age(r) && 0 <= r.averageStableBorrowRate && 0 <= r.principalStableDebt
    ensures var (rate, d) := (r.averageStableBorrowRate, t - r.lastUpdateTimestamp);
      && Nearest(r.totalStableDebt, ClosedForm(rate, Age(r)) * r.principalStableDebt, RAY)
      && Nearest(StableDebtOf(r, t), ClosedForm(rate, Age(r) + d) * r.principalStableDebt, RAY)
      && Shortfall(r, t) == r.totalStableDebt * (rate * d) - UNIT * (StableDebtOf(r, t) - r.totalStableDebt)
  {
    var (rate, last, now) := (r.averageStableBorrowRate, r.totalStableDebtLastUpdated, r.lastUpdateTimestamp);
    CompoundedIsClosedForm(rate, now, last);
    CompoundedIsClosedForm(rate, t, last);
    CompoundedMono(rate, rate, last, now, t);
    MulAtNearest(CompoundedInterest(rate, now, last), r.principalStableDebt, RAY);
    MulAtNearest(CompoundedInterest(rate, t, last), r.principalStableDebt, RAY);
    assert now - last == Age(r) && t - last == Age(r) + (t - now);
    hide CompoundedInterest, ClosedForm, MulAt;
  }

  lemma ShortfallAlgebra(debt: int, debt': int, grown: int, grown': int, terms: int, terms': int, error: int, error': int,
    principal: nat, rd: nat, u: nat, cube: nat, f: nat, short: int, gap: int)
    requires Nearest(debt, grown * principal, f) && Nearest(debt', grown' * principal, f)
    requires -error <= cube * grown - f * terms <= error && -error' <= cube * grown' - f * terms' <= error'
    requires short == debt * rd - u * (debt' - debt) && gap == rd * terms - u * (terms' - terms)
    ensures var rounding := cube * (f * (rd + 2 * u)) + 2 * (principal * ((rd + u) * error + u * error'));
      -rounding <= 2 * (cube * (f * short)) - 2 * (principal * (f * gap)) <= rounding
  {
    var (x, x') := (grown * principal, grown' * principal);
    var mid := (rd + u) * x - u * x';
    RoundedDebts(debt, debt', x, x', rd, u, f, short);
    NearTimes(cube, 2 * (f * short), 2 * mid, f * (rd + 2 * u));
    RoundedFormulas(grown, grown', terms, terms', error, error', rd, u, cube, f, gap);
    var whole := (rd + u) * (cube * grown) - u * (cube * grown');
    NearTimes(principal, whole, f * gap, (rd + u) * error + u * error');
    MiddleIs(cube, principal, grown, grown', rd, u);
    assert cube * (2 * (f * short)) == 2 * (cube * (f * short)) && cube * (2 * mid) == 2 * (cube * mid);
  }

  lemma MiddleIs(cube: int, principal: int, grown: int, grown': int, rd: int, u: int)
    ensures cube * ((rd + u) * (grown * principal) - u * (grown' * principal))
         == principal * ((rd + u) * (cube * grown) - u * (cube * grown'))
  {
    var k := rd + u;
    assert cube * (k * (grown * principal)) == principal * (k * (cube * grown));
    assert cube * (u * (grown' * principal)) == principal * (u * (cube * grown'));
  }

  lemma RoundedDebts(debt: int, debt': int, x: int, x': int, rd: nat, u: nat, f: nat, short: int)
    requires Nearest(debt, x, f) && Nearest(debt', x', f) && short == debt * rd - u * (debt' - debt)
    ensures -(f * (rd + 2 * u)) <= 2 * (f * short) - 2 * ((rd + u) * x - u * x') <= f * (rd + 2 * u)
  {
    NearTimes(rd + u, 2 * (f * debt), 2 * x, f);
    NearTimes(u, 2 * (f * debt'), 2 * x', f);
    DebtProducts(debt, debt', x, x', rd, u, f);
  }

  lemma DebtProducts(debt: int, debt': int, x: int, x': int, rd: int, u: int, f: int)
    ensures 2 * (f * (debt * rd - u * (debt' - debt))) == (rd + u) * (2 * (f * debt)) - u * (2 * (f * debt'))
    ensures 2 * ((rd + u) * x - u * x') == (rd + u) * (2 * x) - u * (2 * x')
    ensures f * (rd + 2 * u) == (rd + u) * f + u * f
  {
    assert debt * rd - u * (debt' - debt) == (rd + u) * debt - u * debt';
    assert f * ((rd + u) * debt) == (rd + u) * (f * debt) && f * (u * debt') == u * (f * debt');
    assert f * ((rd + u) * debt - u * debt') == f * ((rd + u) * debt) - f * (u * debt');
  }

  lemma RoundedFormulas(grown: int, grown': int, terms: int, terms': int, error: int, error': int, rd: nat, u: nat, cube: int,
    f: nat, gap: int)
    requires -error <= cube * grown - f * terms <= error && -error' <= cube * grown' - f * terms' <= error'
    requires gap == rd * terms - u * (terms' - terms)
    ensures var bound := (rd + u) * error + u * error';
      -bound <= (rd + u) * (cube * grown) - u * (cube * grown') - f * gap <= bound
  {
    NearTimes(rd + u, cube * grown, f * terms, error);
    NearTimes(u, cube * grown', f * terms', error');
    GapProducts(terms, terms', rd, u, f);
  }

  lemma GapProducts(terms: int, terms': int, rd: int, u: int, f: int)
    ensures f * (rd * terms - u * (terms' - terms)) == (rd + u) * (f * terms) - u * (f * terms')
  {
    assert rd * terms - u * (terms' - terms) == (rd + u) * terms - u * terms';
    assert f * ((rd + u) * terms) == (rd + u) * (f * terms) && f * (u * terms') == u * (f * terms');
    assert f * ((rd + u) * terms - u * terms') == f * ((rd + u) * terms) - f * (u * terms');
  }

  // ----- accruals over stable debt that keeps pace -----

  lemma FreshlyUpToDate(p: Strategy, r: Reserve)
    requires FreshlyPriced(p, r)
    ensures UpToDate(r, r.lastUpdateTimestamp) && 0 <= r.principalStableDebt
  {
    hide Priced, Priceable;
  }

  /** Over stable debt of any age that keeps pace, an accrual credits no more than it charges, up to rounding. */
  lemma AccrualIsCoveredByPacedDebt(p: Strategy, r: Reserve, shares: nat, t: int)
    requires FreshlyPriced(p, r) && r.lastUpdateTimestamp <= t && PaceKept(r, t)
    requires RayMul(shares, r.liquidityIndex) <= r.totalLiquidity + DebtOf(r)
    ensures 2 * (UnitCube() * (RAY * RAY * ONE_YEAR * Uncovered(r, shares, t)))
         <= UnitCube() * Slack(r, shares, t - r.lastUpdateTimestamp) + RecordRounding(r, t)
  {
    hide *;
    FreshlyUpToDate(p, r);
    AccrualIsCovered(p, r, shares, 0, t);
    RecordFacts(p, r, t);
    ShortfallIsGap(r, t);
    GapGone(r.principalStableDebt, RecordGap(r, t));
    UnitIs();
    RecordRoundingNonneg(r, t);
    PacedShare(RAY * RAY * ONE_YEAR, Uncovered(r, shares, t), Slack(r, shares, t - r.lastUpdateTimestamp), Shortfall(r, t),
      PERCENTAGE_FACTOR - r.reserveFactor, PERCENTAGE_FACTOR, RAY, UnitCube(), RecordRounding(r, t));
  }

  lemma RecordRoundingNonneg(r: Reserve, t: int)
    requires UpToDate(r, r.lastUpdateTimestamp) && r.lastUpdateTimestamp <= t
    ensures 0 <= RecordRounding(r, t)
  {
    RecordOf(r, t);
    hide PaceRounding, UpToDate, Shortfall, StableDebtOf, ClosedForm;
    RoundingNonneg(r.averageStableBorrowRate, r.principalStableDebt, Age(r), t - r.lastUpdateTimestamp);
  }

  /** Debt that has compounded for at most two seconds always keeps pace: nothing has been cut off yet. */
  lemma YoungDebtKeepsPace(rate: nat, a: nat, d: nat)
    requires a <= 2
    ensures KeepsPace(rate, a, d)
  {
    ChooseThree(a);
    var (q, s) := (Choose(d, 2), a * Choose(d, 2) + Choose(d, 3));
    assert Choose(a, 3) == 0;
    hide Choose;
    ProductMono(0, q, 0, UNIT * UNIT);
    ProductMono(0, rate, 0, UNIT);
    ProductMono(0, s, 0, rate * UNIT);
  }

  lemma GapGone(principal: nat, gap: int)
    requires gap <= 0
    ensures principal * (RAY * gap) <= 0
  {
    MulMono(gap, 0, RAY);
    MulMono(RAY * gap, 0, principal);
  }

  lemma RoundingNonneg(rate: nat, principal: nat, a: nat, d: nat)
    ensures 0 <= PaceRounding(rate, principal, a, d)
  {
    hide *;
    RoundingIs(rate, principal, a, d);
    UnitIs();
    ErrorNonneg(rate, a);
    ErrorNonneg(rate, a + d);
    ProductMono(0, rate, 0, d);
    ProductMono(0, RAY, 0, rate * d + 2 * UNIT);
    ProductMono(0, UnitCube(), 0, RAY * (rate * d + 2 * UNIT));
    ProductMono(0, rate * d + UNIT, 0, FormulaError(rate, a));
    ProductMono(0, UNIT, 0, FormulaError(rate, a + d));
    ProductMono(0, principal, 0, (rate * d + UNIT) * FormulaError(rate, a) + UNIT * FormulaError(rate, a + d));
  }

  lemma ErrorNonneg(rate: nat, n: nat)
    ensures 0 <= FormulaError(rate, n)
  {
    hide *;
    FormulaParts(rate, n);
    UnitIs();
    ProductMono(0, rate, 0, UnitSquare());
    ProductMono(0, Choose(n, 2), 0, 2 * UnitCube());
    ProductMono(0, Choose(n, 3), 0, 2 * UnitCube() + 2 * (rate * UnitSquare()));
  }

  lemma PacedShare(z: int, uncovered: int, slack: int, short: int, q: nat, pf: nat, f: nat, cube: nat, rounding: nat)
    requires q <= pf && 0 < pf && 2 * (cube * (f * short)) <= rounding
    requires 2 * (z * pf * uncovered) <= pf * slack + 2 * (f * q * short)
    ensures 2 * (cube * (z * uncovered)) <= cube * slack + rounding
  {
    MulMono(2 * (z * pf * uncovered), pf * slack + 2 * (f * q * short), cube);
    MulMono(2 * (cube * (f * short)), rounding, q);
    MulMono(q, pf, rounding);
    PacedProducts(z, uncovered, slack, short, q, pf, f, cube);
    var (x, y) := (2 * (cube * (z * uncovered)), cube * slack + rounding);
    assert pf * y == pf * (cube * slack) + rounding * pf;
    CancelStrict(pf, x, y + 1) by { assert pf * (y + 1) == pf * y + pf; }
  }

  lemma PacedProducts(z: int, uncovered: int, slack: int, short: int, q: int, pf: int, f: int, cube: int)
    ensures cube * (2 * (z * pf * uncovered)) == pf * (2 * (cube * (z * uncovered)))
    ensures cube * (pf * slack + 2 * (f * q * short)) == pf * (cube * slack) + q * (2 * (cube * (f * short)))
  {
    assert z * pf * uncovered == pf * (z * uncovered);
    assert f * q * short == q * (f * short);
    assert cube * (pf * (z * uncovered)) == pf * (cube * (z * uncovered));
    assert cube * (q * (f * short)) == q * (cube * (f * short));
    assert cube * (pf * slack) == pf * (cube * slack);
    assert cube * (pf * slack + 2 * (q * (f * short))) == cube * (pf * slack) + 2 * (cube * (q * (f * short)));
  }
}
