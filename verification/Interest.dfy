/** Interest over a period: the linear accrual credited to suppliers and the three-term
    binomial approximation of per-second compounding charged to borrowers. */
module Interest {
  import opened WadRayMath

  const ONE_YEAR: Positive := 31_536_000

  /** Rates are per ray and year: a rate of one unit charges the whole debt every second. */
  const UNIT: Positive := ProductPositive(RAY, ONE_YEAR)

  function LinearInterest(rate: int, currentTimestamp: int, lastUpdateTimestamp: int): int {
    TruncDiv(rate * (currentTimestamp - lastUpdateTimestamp), ONE_YEAR) + RAY
  }

  function BasePowerTwo(rate: int): int {
    TruncDiv(RayMul(rate, rate), ONE_YEAR * ONE_YEAR)
  }

  function BasePowerThree(rate: int): int {
    TruncDiv(RayMul(BasePowerTwo(rate), rate), ONE_YEAR)
  }

  function CompoundedInterest(rate: int, currentTimestamp: int, lastUpdateTimestamp: int): int {
    var timeDifference := currentTimestamp - lastUpdateTimestamp;
    if timeDifference == 0 then
      RAY
    else
      var expMinusOne := timeDifference - 1;
      var expMinusTwo := if timeDifference > 2 then timeDifference - 2 else 0;
      var secondTerm := TruncDiv(timeDifference * expMinusOne * BasePowerTwo(rate), 2);
      var thirdTerm := TruncDiv(timeDifference * expMinusOne * expMinusTwo * BasePowerThree(rate), 6);
      RAY + TruncDiv(rate * timeDifference, ONE_YEAR) + secondTerm + thirdTerm
  }

  // ----- closed form -----

  /** Binomial coefficient, by Pascal's rule. */
  function Choose(n: nat, k: nat): nat {
    if k == 0 then 1
    else if n == 0 then 0
    else Choose(n - 1, k - 1) + Choose(n - 1, k)
  }

  lemma {:induction false} ChooseTwo(n: nat)
    ensures Choose(n, 1) == n
    ensures 2 * Choose(n, 2) == n * (n - 1)
  {
    if n > 0 {
      ChooseTwo(n - 1);
    }
  }

  lemma {:induction false} ChooseThree(n: nat)
    ensures 6 * Choose(n, 3) == n * (n - 1) * (n - 2)
  {
    if n > 0 {
      ChooseTwo(n - 1);
      ChooseThree(n - 1);
    }
  }

  lemma {:induction false} ChooseMono(n: nat, m: nat, k: nat)
    requires n <= m
    ensures Choose(n, k) <= Choose(m, k)
    decreases m
  {
    if n < m {
      ChooseMono(n, m - 1, k);
    }
  }

  lemma ExactQuotient(n: nat, d: nat, c: nat)
    requires d > 0 && n == d * c
    ensures TruncDiv(n, d) == c
  {
    TruncDivFloor(n, d);
    FloorUnique(TruncDiv(n, d), c, n, d);
  }

  lemma BasePowersNonneg(rate: nat)
    ensures 0 <= BasePowerTwo(rate) && 0 <= BasePowerThree(rate)
  {
    MulAtNearest(rate, rate, RAY);
    TruncDivFloor(RayMul(rate, rate), ONE_YEAR * ONE_YEAR);
    MulAtNearest(BasePowerTwo(rate), rate, RAY);
    TruncDivFloor(RayMul(BasePowerTwo(rate), rate), ONE_YEAR);
  }

  ghost function LinearPart(rate: nat, t: nat): int {
    TruncDiv(rate * t, ONE_YEAR)
  }

  ghost function ClosedForm(rate: nat, t: nat): int {
    RAY + LinearPart(rate, t) + Choose(t, 2) * BasePowerTwo(rate) + Choose(t, 3) * BasePowerThree(rate)
  }

  lemma TermQuotient(p: int, k: nat, c: nat, b: nat)
    requires k > 0 && p == k * c
    ensures TruncDiv(p * b, k) == c * b
  {
    assert (k * c) * b == k * (c * b);
    ExactQuotient(p * b, k, c * b);
  }

  lemma SecondTerm(t: nat, b: nat)
    requires t > 0
    ensures TruncDiv(t * (t - 1) * b, 2) == Choose(t, 2) * b
  {
    ChooseTwo(t);
    hide Choose, TruncDiv;
    TermQuotient(t * (t - 1), 2, Choose(t, 2), b);
  }

  lemma ThirdTerm(t: nat, b: nat)
    requires t > 0
    ensures TruncDiv(t * (t - 1) * (if t > 2 then t - 2 else 0) * b, 6) == Choose(t, 3) * b
  {
    ChooseThree(t);
    hide Choose, TruncDiv;
    ThreeFactors(t);
    TermQuotient(t * (t - 1) * (if t > 2 then t - 2 else 0), 6, Choose(t, 3), b);
  }

  lemma ThreeFactors(t: nat)
    requires t > 0
    ensures t * (t - 1) * (if t > 2 then t - 2 else 0) == t * (t - 1) * (t - 2)
  {
    if t == 1 {
    } else if t == 2 {
    }
  }

  /** The divisions by 2 and 6 are exact: the formula is the first four binomial terms. */
  lemma CompoundedIsClosedForm(rate: nat, currentTimestamp: int, lastUpdateTimestamp: int)
    requires lastUpdateTimestamp <= currentTimestamp
    ensures CompoundedInterest(rate, currentTimestamp, lastUpdateTimestamp)
         == ClosedForm(rate, currentTimestamp - lastUpdateTimestamp)
  {
    var t := currentTimestamp - lastUpdateTimestamp;
    BasePowersNonneg(rate);
    if t == 0 {
      assert Choose(0, 2) == 0 && Choose(0, 3) == 0;
      assert LinearPart(rate, 0) == 0;
    } else {
      hide BasePowerTwo, BasePowerThree, TruncDiv, Choose;
      SecondTerm(t, BasePowerTwo(rate));
      ThirdTerm(t, BasePowerThree(rate));
    }
  }

  // ----- order -----

  lemma TruncDivMono(n: nat, n': nat, d: nat)
    requires d > 0 && n <= n'
    ensures TruncDiv(n, d) <= TruncDiv(n', d)
  {
    TruncDivFloor(n, d);
    TruncDivFloor(n', d);
    if TruncDiv(n', d) < TruncDiv(n, d) {
      MulMono(TruncDiv(n', d) + 1, TruncDiv(n, d), d);
    }
  }

  lemma ProductMono(a: nat, a': nat, b: nat, b': nat)
    requires a <= a' && b <= b'
    ensures 0 <= a * b <= a' * b'
  {
    MulMono(a, a', b);
    MulMono(b, b', a');
  }

  lemma BasePowersMono(rate: nat, rate': nat)
    requires rate <= rate'
    ensures 0 <= BasePowerTwo(rate) <= BasePowerTwo(rate')
    ensures 0 <= BasePowerThree(rate) <= BasePowerThree(rate')
  {
    BasePowersNonneg(rate);
    BasePowersNonneg(rate');
    RayMulMono(rate, rate', rate, rate');
    TruncDivMono(RayMul(rate, rate), RayMul(rate', rate'), ONE_YEAR * ONE_YEAR);
    RayMulMono(BasePowerTwo(rate), BasePowerTwo(rate'), rate, rate');
    TruncDivMono(RayMul(BasePowerTwo(rate), rate), RayMul(BasePowerTwo(rate'), rate'), ONE_YEAR);
  }

  /** The compounding formula grows with the rate and with the elapsed time. */
  lemma CompoundedMono(rate: nat, rate': nat, lastUpdateTimestamp: int, t: int, t': int)
    requires rate <= rate' && lastUpdateTimestamp <= t <= t'
    ensures RAY <= CompoundedInterest(rate, t, lastUpdateTimestamp)
                <= CompoundedInterest(rate', t', lastUpdateTimestamp)
  {
    CompoundedIsClosedForm(rate, t, lastUpdateTimestamp);
    CompoundedIsClosedForm(rate', t', lastUpdateTimestamp);
    BasePowersMono(rate, rate');
    var n, n' := t - lastUpdateTimestamp, t' - lastUpdateTimestamp;
    ChooseMono(n, n', 2);
    ChooseMono(n, n', 3);
    ProductMono(Choose(n, 2), Choose(n', 2), BasePowerTwo(rate), BasePowerTwo(rate'));
    ProductMono(Choose(n, 3), Choose(n', 3), BasePowerThree(rate), BasePowerThree(rate'));
    ProductMono(rate, rate', n, n');
    TruncDivMono(rate * n, rate' * n', ONE_YEAR);
    TruncDivFloor(rate * n, ONE_YEAR);
    hide BasePowerTwo, BasePowerThree, TruncDiv, Choose, CompoundedInterest;
  }

  lemma LinearMono(rate: nat, lastUpdateTimestamp: int, t: int, t': int)
    requires lastUpdateTimestamp <= t <= t'
    ensures RAY <= LinearInterest(rate, t, lastUpdateTimestamp) <= LinearInterest(rate, t', lastUpdateTimestamp)
  {
    ProductMono(rate, rate, t - lastUpdateTimestamp, t' - lastUpdateTimestamp);
    TruncDivFloor(rate * (t - lastUpdateTimestamp), ONE_YEAR);
    TruncDivMono(rate * (t - lastUpdateTimestamp), rate * (t' - lastUpdateTimestamp), ONE_YEAR);
  }

  /** No period and no rate both mean no interest. */
  lemma NoPeriod(rate: nat, t: int)
    ensures LinearInterest(rate, t, t) == CompoundedInterest(rate, t, t) == RAY
  {
  }

  lemma NoRate(t: int, t': int)
    requires t <= t'
    ensures LinearInterest(0, t', t) == CompoundedInterest(0, t', t) == RAY
  {
    BasePowersOfZero();
    CompoundedIsClosedForm(0, t', t);
    assert LinearPart(0, t' - t) == 0;
    hide BasePowerTwo, BasePowerThree, CompoundedInterest, Choose;
  }

  lemma BasePowersOfZero()
    ensures BasePowerTwo(0) == BasePowerThree(0) == 0
  {
    hide MulAt, TruncDiv;
    MulAtZero(0, RAY);
    ZeroQuotient(ONE_YEAR * ONE_YEAR);
    ZeroQuotient(ONE_YEAR);
    assert RayMul(0, 0) == 0;
    assert BasePowerTwo(0) == 0;
  }

  lemma ZeroQuotient(d: nat)
    requires d > 0
    ensures TruncDiv(0, d) == 0
  {
  }

  /** Over the same period borrowers are never charged less than suppliers would be credited at that rate. */
  lemma CompoundedAtLeastLinear(rate: nat, currentTimestamp: int, lastUpdateTimestamp: int)
    requires lastUpdateTimestamp <= currentTimestamp
    ensures CompoundedInterest(rate, currentTimestamp, lastUpdateTimestamp)
         >= LinearInterest(rate, currentTimestamp, lastUpdateTimestamp)
  {
    CompoundedIsClosedForm(rate, currentTimestamp, lastUpdateTimestamp);
    BasePowersNonneg(rate);
    var t := currentTimestamp - lastUpdateTimestamp;
    ProductMono(0, Choose(t, 2), 0, BasePowerTwo(rate));
    ProductMono(0, Choose(t, 3), 0, BasePowerThree(rate));
    hide BasePowerTwo, BasePowerThree, TruncDiv, Choose, CompoundedInterest;
  }

  // ----- splitting a period of linear interest -----

  lemma LinearFloor(rate: nat, t: int, last: int)
    requires last <= t
    ensures RAY <= LinearInterest(rate, t, last)
    ensures ONE_YEAR * (LinearInterest(rate, t, last) - RAY) <= rate * (t - last)
          < ONE_YEAR * (LinearInterest(rate, t, last) - RAY) + ONE_YEAR
  {
    TruncDivFloor(rate * (t - last), ONE_YEAR);
  }

  /** Accruing once or twice over the same time: the growth factors differ by less than one unit. */
  lemma SplitFactors(rate: nat, t0: int, t1: int, t2: int)
    requires t0 <= t1 <= t2
    ensures var l1, l2 := LinearInterest(rate, t1, t0), LinearInterest(rate, t2, t1);
      l1 + l2 <= LinearInterest(rate, t2, t0) + RAY <= l1 + l2 + 1
    ensures RayMul(LinearInterest(rate, t1, t0), LinearInterest(rate, t2, t1))
         >= LinearInterest(rate, t2, t0) - 1
  {
    var l1, l2, l := LinearInterest(rate, t1, t0), LinearInterest(rate, t2, t1), LinearInterest(rate, t2, t0);
    LinearFloor(rate, t1, t0);
    LinearFloor(rate, t2, t1);
    LinearFloor(rate, t2, t0);
    hide LinearInterest;
    assert rate * (t2 - t0) == rate * (t1 - t0) + rate * (t2 - t1);
    hide *;
    FactorsMultiply(l1, l2);
  }

  /** Growth on growth is at least the sum of both. */
  lemma FactorsMultiply(l1: nat, l2: nat)
    requires RAY <= l1 && RAY <= l2
    ensures l1 + l2 - RAY <= RayMul(l1, l2)
  {
    MulAtNearest(l1, l2, RAY);
    hide *;
    ProductMono(0, l1 - RAY, 0, l2 - RAY);
    SplitProduct(l1, l2, RAY);
    RoundedLower(RayMul(l1, l2), l1 * l2, l1 + l2 - RAY, RAY);
  }

  lemma SplitProduct(a: int, b: int, f: int)
    ensures a * b == f * (a + b - f) + (a - f) * (b - f)
  {
  }

  lemma RoundedLower(q: int, n: int, m: int, d: int)
    requires d > 0 && Nearest(q, n, d) && d * m <= n
    ensures m <= q
  {
    if q < m {
      MulMono(q + 1, m, d);
    }
  }

  /** An index accrued in one step exceeds the one accrued in two by rounding only. */
  lemma SplitAccrual(rate: nat, index: nat, t0: int, t1: int, t2: int)
    requires t0 <= t1 <= t2
    ensures var l2 := LinearInterest(rate, t2, t1);
      var oneStep := RayMul(LinearInterest(rate, t2, t0), index);
      var twoSteps := RayMul(l2, RayMul(LinearInterest(rate, t1, t0), index));
      2 * (RAY * (oneStep - twoSteps)) < 2 * index + l2 + 2 * RAY
  {
    var l1, l2, l := LinearInterest(rate, t1, t0), LinearInterest(rate, t2, t1), LinearInterest(rate, t2, t0);
    LinearFloor(rate, t1, t0);
    LinearFloor(rate, t2, t1);
    LinearFloor(rate, t2, t0);
    SplitFactors(rate, t0, t1, t2);
    hide LinearInterest;
    MulAtNearest(l1, index, RAY);
    var mid := RayMul(l1, index);
    MulAtNearest(l, index, RAY);
    MulAtNearest(l2, mid, RAY);
    SplitArithmetic(l1, l2, l, index, mid, RayMul(l, index), RayMul(l2, mid), RAY);
  }

  lemma SplitArithmetic(l1: int, l2: int, l: int, i: nat, mid: int, one: int, two: int, f: int)
    requires f > 0 && l1 >= f && l2 >= f && l + f <= l1 + l2 + 1
    requires Nearest(mid, l1 * i, f) && Nearest(one, l * i, f) && Nearest(two, l2 * mid, f)
    ensures 2 * (f * (one - two)) < 2 * i + l2 + 2 * f
  {
    FactorGap(l1, l2, l, i, f);
    var upper := ScaledUpper(one, l, i, f);
    var lower := ScaledLower(two, l1, l2, i, mid, f);
    ExpandGap(f, one, two, i, l2);
    SplitLinear(f * (f * one), f * (f * two), i * (f * l), i * (l1 * l2), f * i, l2 * f, f * f,
      f * (2 * (f * (one - two))), f * (2 * i + l2 + 2 * f));
    CancelStrict(f, 2 * (f * (one - two)), 2 * i + l2 + 2 * f);
  }

  lemma ExpandGap(f: int, one: int, two: int, i: int, l2: int)
    ensures f * (2 * (f * (one - two))) == 2 * (f * (f * one)) - 2 * (f * (f * two))
    ensures f * (2 * i + l2 + 2 * f) == 2 * (f * i) + l2 * f + 2 * (f * f)
  {
  }

  lemma SplitLinear(x: int, y: int, a: int, b: int, fi: int, lf: int, ff: int, gap: int, bound: int)
    requires 2 * x <= 2 * a + ff && 2 * b - lf - ff < 2 * y && a - b <= fi
    requires gap == 2 * x - 2 * y && bound == 2 * fi + lf + 2 * ff
    ensures gap < bound
  {
  }

  lemma FactorGap(l1: int, l2: int, l: int, i: nat, f: int)
    requires f > 0 && l1 >= f && l2 >= f && l + f <= l1 + l2 + 1
    ensures i * (f * l) - i * (l1 * l2) <= f * i
  {
    MulMono(l, l1 + l2 + 1 - f, f);
    ProductMono(0, l1 - f, 0, l2 - f);
    assert f * (l1 + l2 + 1 - f) - l1 * l2 == f - (l1 - f) * (l2 - f);
    MulMono(f * l - l1 * l2, f, i);
    assert i * (f * l - l1 * l2) == i * (f * l) - i * (l1 * l2);
  }

  lemma ScaledUpper(one: int, l: int, i: nat, f: int) returns (bound: int)
    requires f > 0 && Nearest(one, l * i, f)
    ensures bound == 2 * (i * (f * l)) + f * f && 2 * (f * (f * one)) <= bound
  {
    bound := 2 * (i * (f * l)) + f * f;
    MulMono(2 * (f * one), 2 * (l * i) + f, f);
    assert f * (2 * (f * one)) == 2 * (f * (f * one));
    assert f * (2 * (l * i) + f) == 2 * (f * (l * i)) + f * f;
    assert f * (l * i) == i * (f * l);
  }

  lemma ScaledLower(two: int, l1: int, l2: int, i: nat, mid: int, f: int) returns (bound: int)
    requires f > 0 && l2 > 0 && Nearest(mid, l1 * i, f) && Nearest(two, l2 * mid, f)
    ensures bound == 2 * (i * (l1 * l2)) - l2 * f - f * f && bound < 2 * (f * (f * two))
  {
    bound := 2 * (i * (l1 * l2)) - l2 * f - f * f;
    LowerOuter(two, l2 * mid, f);
    LowerInner(mid, l1 * i, l2, f);
    assert f * (l2 * mid) == l2 * (f * mid);
    assert l2 * (l1 * i) == i * (l1 * l2);
  }

  lemma LowerOuter(q: int, n: int, f: int)
    requires f > 0 && Nearest(q, n, f)
    ensures 2 * (f * n) - f * f < 2 * (f * (f * q))
  {
    MulMono(2 * n - f + 1, 2 * (f * q), f);
    assert f * (2 * (f * q)) == 2 * (f * (f * q));
    assert f * (2 * n - f + 1) == 2 * (f * n) - f * f + f;
  }

  lemma LowerInner(q: int, n: int, k: nat, f: int)
    requires Nearest(q, n, f)
    ensures 2 * (k * n) - k * f <= 2 * (k * (f * q))
  {
    MulMono(2 * n - f, 2 * (f * q), k);
    assert k * (2 * (f * q)) == 2 * (k * (f * q));
    assert k * (2 * n - f) == 2 * (k * n) - k * f;
  }
}
