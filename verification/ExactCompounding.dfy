/** The compounding formula against its reference: exact per-second compounding over the reals. */
module ExactCompounding {
  import opened WadRayMath
  import opened Interest

  ghost function Pow(x: real, n: nat): real {
    if n == 0 then 1.0 else x * Pow(x, n - 1)
  }

  lemma Scale(k: real, a: real, b: real)
    requires k >= 0.0 && a <= b
    ensures k * a <= k * b
  {
  }

  lemma Cancel(k: real, a: real, b: real)
    requires k > 0.0 && k * a <= k * b
    ensures a <= b
  {
    if a > b {
      StrictScale(k, b, a);
    }
  }

  lemma StrictScale(k: real, a: real, b: real)
    requires k > 0.0 && a < b
    ensures k * a < k * b
  {
  }

  /** The first four terms of the binomial expansion of `(1 + x)^n`. */
  ghost function FourTerms(x: real, n: real, c2: real, c3: real): real {
    1.0 + n * x + c2 * (x * x) + c3 * (x * (x * x))
  }

  lemma {:induction false} FourTermsBelowPow(x: real, n: nat)
    requires x >= 0.0
    ensures FourTerms(x, n as real, Choose(n, 2) as real, Choose(n, 3) as real) <= Pow(1.0 + x, n)
  {
    hide FourTerms, Choose;
    Pascal(n);
    if n == 0 {
      FourTermsOfZero(x);
    } else {
      FourTermsBelowPow(x, n - 1);
      var (m, c2, c3) := ((n - 1) as real, Choose(n - 1, 2) as real, Choose(n - 1, 3) as real);
      FourTermsStep(x, m, c2, c3);
      Scale(1.0 + x, FourTerms(x, m, c2, c3), Pow(1.0 + x, n - 1));
    }
  }

  lemma FourTermsOfZero(x: real)
    ensures FourTerms(x, 0.0, 0.0, 0.0) == 1.0
  {
  }

  lemma Pascal(n: nat)
    ensures n == 0 ==> Choose(n, 2) == Choose(n, 3) == 0
    ensures n > 0 ==> Choose(n, 2) as real == Choose(n - 1, 2) as real + (n - 1) as real
    ensures n > 0 ==> Choose(n, 3) as real == Choose(n - 1, 3) as real + Choose(n - 1, 2) as real
  {
    if n > 0 {
      ChooseTwo(n - 1);
    }
  }

  lemma FourTermsStep(x: real, n: real, c2: real, c3: real)
    requires x >= 0.0 && c3 >= 0.0
    ensures FourTerms(x, n + 1.0, c2 + n, c3 + c2) <= (1.0 + x) * FourTerms(x, n, c2, c3)
  {
    var x2 := x * x;
    var x3 := x * x2;
    Square0(x);
    Scale(x, 0.0, x2);
    Scale(c3, 0.0, x3);
    Scale(x, 0.0, c3 * x3);
    FourProducts(x, n, c2, c3, x2, x3);
    SumTerms(n, x, x2, c2, c3, x3);
    Spread(x, n * x, c2 * x2, c3 * x3);
  }

  lemma Square0(x: real)
    ensures 0.0 <= x * x
  {
  }

  lemma FourProducts(x: real, n: real, c2: real, c3: real, x2: real, x3: real)
    requires x2 == x * x && x3 == x * x2
    ensures x * (n * x) == n * x2
    ensures x * (c2 * x2) == c2 * x3
  {
  }

  lemma SumTerms(n: real, x: real, x2: real, c2: real, c3: real, x3: real)
    ensures (n + 1.0) * x == n * x + x
    ensures (c2 + n) * x2 == c2 * x2 + n * x2
    ensures (c3 + c2) * x3 == c3 * x3 + c2 * x3
  {
  }

  lemma Spread(x: real, a: real, b: real, c: real)
    ensures (1.0 + x) * (1.0 + a + b + c) == 1.0 + a + b + c + x + x * a + x * b + x * c
  {
  }

  /** `d` stands for 1 / (2 y^2): half a unit lost when squaring, spread over two divisions by `y`. */
  lemma TermTwo(r: real, f: real, y: real, x: real, d: real, b2: real)
    requires f > 0.0 && y > 0.0 && x * (f * y) == r && 2.0 * (y * y) * d == 1.0
    requires 2.0 * (f * (y * y)) * b2 <= 2.0 * (r * r) + f
    ensures b2 <= f * (x * x) + d
  {
    var k := 2.0 * (f * (y * y));
    PositiveProduct(y, y);
    PositiveProduct(f, y * y);
    calc {
      k * d;
      f * (2.0 * (y * y) * d);
      f;
    }
    calc {
      2.0 * (r * r);
      { Square(x, f, y, r); }
      k * (f * (x * x));
    }
    Cancel(k, b2, f * (x * x) + d);
  }

  lemma PositiveProduct(a: real, b: real)
    requires a > 0.0 && b > 0.0
    ensures a * b > 0.0
  {
  }

  lemma Square(x: real, f: real, y: real, r: real)
    requires r == x * (f * y)
    ensures 2.0 * (r * r) == 2.0 * (f * (y * y)) * (f * (x * x))
  {
    var (x2, f2, y2) := (x * x, f * f, y * y);
    assert r * r == x2 * (f2 * y2) by {
      var g := f * y;
      assert r * r == x2 * (g * g);
      assert g * g == f2 * y2;
    }
    assert f * y2 * (f * x2) == x2 * (f2 * y2);
  }

  /** `e` stands for 1 / (2 y). */
  lemma TermThree(r: real, f: real, y: real, x: real, d: real, e: real, b2: real, b3: real)
    requires f > 0.0 && y > 0.0 && x >= 0.0 && x * (f * y) == r && 2.0 * y * e == 1.0
    requires b2 <= f * (x * x) + d
    requires 2.0 * (f * y) * b3 <= 2.0 * (b2 * r) + f
    ensures b3 <= f * (x * (x * x)) + (d * x + e)
  {
    var k := 2.0 * (f * y);
    PositiveProduct(f, y);
    calc {
      k * e;
      f * (2.0 * y * e);
      f;
    }
    calc {
      2.0 * (b2 * r);
      2.0 * (b2 * (x * (f * y)));
      k * (x * b2);
    }
    Cancel(k, b3, x * b2 + e);
    Scale(x, b2, f * (x * x) + d);
    assert x * (f * (x * x)) == f * (x * (x * x));
  }

  lemma BasePowerBounds(rate: nat)
    ensures 2 * (RAY * (ONE_YEAR * ONE_YEAR)) * BasePowerTwo(rate) <= 2 * (rate * rate) + RAY
    ensures 2 * (RAY * ONE_YEAR) * BasePowerThree(rate) <= 2 * (BasePowerTwo(rate) * rate) + RAY
  {
    BasePowersNonneg(rate);
    MulAtNearest(rate, rate, RAY);
    TruncDivFloor(RayMul(rate, rate), ONE_YEAR * ONE_YEAR);
    MulAtNearest(BasePowerTwo(rate), rate, RAY);
    TruncDivFloor(RayMul(BasePowerTwo(rate), rate), ONE_YEAR);
  }

  /** What half-up rounding inside the formula can add: half a unit per squared term, half a unit per cubed term. */
  ghost function RoundingAllowance(rate: nat, t: nat): real {
    var (f, y) := (RAY as real, ONE_YEAR as real);
    AllowanceFor(t, rate as real / (f * y), 1.0 / (2.0 * (y * y)), 1.0 / (2.0 * y))
  }

  ghost function AllowanceFor(t: nat, x: real, d: real, e: real): real {
    Choose(t, 2) as real * d + Choose(t, 3) as real * (d * x + e)
  }

  /** One ray compounded exactly, every second, at the yearly rate `rate`. */
  ghost function ExactGrowth(rate: nat, t: nat): real {
    RAY as real * Pow(1.0 + rate as real / (RAY as real * ONE_YEAR as real), t)
  }

  /** Borrowers are never charged more than exact per-second compounding, up to rounding. */
  lemma NeverAboveExact(rate: nat, currentTimestamp: int, lastUpdateTimestamp: int)
    requires lastUpdateTimestamp <= currentTimestamp
    ensures var t := currentTimestamp - lastUpdateTimestamp;
      CompoundedInterest(rate, currentTimestamp, lastUpdateTimestamp) as real
      <= ExactGrowth(rate, t) + RoundingAllowance(rate, t)
  {
    hide *;
    CompoundedIsClosedForm(rate, currentTimestamp, lastUpdateTimestamp);
    ClosedFormBelowExact(rate, currentTimestamp - lastUpdateTimestamp);
  }

  lemma ClosedFormBelowExact(rate: nat, t: nat)
    ensures ClosedForm(rate, t) as real <= ExactGrowth(rate, t) + RoundingAllowance(rate, t)
  {
    hide ClosedForm, Pow, AllowanceFor;
    var (r, f, y) := (rate as real, RAY as real, ONE_YEAR as real);
    var x, d, e := Quotients(r, f, y);
    SumBelowExact(rate, t, f, y, x, d, e);
  }

  lemma SumBelowExact(rate: nat, t: nat, f: real, y: real, x: real, d: real, e: real)
    requires f == RAY as real > 0.0 && y == ONE_YEAR as real > 0.0
    requires x >= 0.0 && x * (f * y) == rate as real && 2.0 * (y * y) * d == 1.0 && 2.0 * y * e == 1.0
    ensures ClosedForm(rate, t) as real <= f * Pow(1.0 + x, t) + AllowanceFor(t, x, d, e)
  {
    hide *;
    ClosedFormAsReal(rate, t);
    AllowanceIs(t, x, d, e);
    RealBounds(rate, t, rate as real, f, y);
    FourTermsBelowPow(x, t);
    Combine(rate as real, f, y, x, d, e, t as real, LinearPart(rate, t) as real, BasePowerTwo(rate) as real,
      BasePowerThree(rate) as real, Choose(t, 2) as real, Choose(t, 3) as real, Pow(1.0 + x, t));
  }

  lemma AllowanceIs(t: nat, x: real, d: real, e: real)
    ensures AllowanceFor(t, x, d, e) == Choose(t, 2) as real * d + Choose(t, 3) as real * (d * x + e)
  {
    hide Choose;
  }

  lemma ClosedFormAsReal(rate: nat, t: nat)
    ensures ClosedForm(rate, t) as real
         == RAY as real + LinearPart(rate, t) as real + Choose(t, 2) as real * BasePowerTwo(rate) as real
            + Choose(t, 3) as real * BasePowerThree(rate) as real
  {
    hide Choose, BasePowerTwo, BasePowerThree, LinearPart;
    CastProduct(Choose(t, 2), BasePowerTwo(rate));
    CastProduct(Choose(t, 3), BasePowerThree(rate));
  }

  lemma Quotients(r: real, f: real, y: real) returns (x: real, d: real, e: real)
    requires r >= 0.0 && f > 0.0 && y > 0.0
    ensures f * y > 0.0 && y * y > 0.0
    ensures x == r / (f * y) && d == 1.0 / (2.0 * (y * y)) && e == 1.0 / (2.0 * y)
    ensures x >= 0.0 && x * (f * y) == r && 2.0 * (y * y) * d == 1.0 && 2.0 * y * e == 1.0
  {
    PositiveProduct(f, y);
    PositiveProduct(y, y);
    x, d, e := r / (f * y), 1.0 / (2.0 * (y * y)), 1.0 / (2.0 * y);
  }

  lemma Combine(r: real, f: real, y: real, x: real, d: real, e: real, t: real, linear: real,
    b2: real, b3: real, c2: real, c3: real, p: real)
    requires f > 0.0 && y > 0.0 && x >= 0.0 && c2 >= 0.0 && c3 >= 0.0
    requires x * (f * y) == r && 2.0 * (y * y) * d == 1.0 && 2.0 * y * e == 1.0
    requires 2.0 * (f * (y * y)) * b2 <= 2.0 * (r * r) + f
    requires 2.0 * (f * y) * b3 <= 2.0 * (b2 * r) + f
    requires y * linear <= r * t
    requires FourTerms(x, t, c2, c3) <= p
    ensures f + linear + c2 * b2 + c3 * b3 <= f * p + (c2 * d + c3 * (d * x + e))
  {
    hide FourTerms;
    TermTwo(r, f, y, x, d, b2);
    TermThree(r, f, y, x, d, e, b2, b3);
    Assemble(f, y, x, d, e, t, linear, b2, b3, c2, c3, p);
  }

  lemma RealBounds(rate: nat, t: nat, r: real, f: real, y: real)
    requires r == rate as real && f == RAY as real && y == ONE_YEAR as real
    ensures 2.0 * (f * (y * y)) * BasePowerTwo(rate) as real <= 2.0 * (r * r) + f
    ensures 2.0 * (f * y) * BasePowerThree(rate) as real <= 2.0 * (BasePowerTwo(rate) as real * r) + f
    ensures y * LinearPart(rate, t) as real <= r * t as real
  {
    BasePowerBounds(rate);
    hide BasePowerTwo, BasePowerThree, LinearPart, TruncDiv;
    CastScales(f, y);
    CastBound(2 * (RAY * (ONE_YEAR * ONE_YEAR)), BasePowerTwo(rate), rate, rate);
    CastBound(2 * (RAY * ONE_YEAR), BasePowerThree(rate), BasePowerTwo(rate), rate);
    LinearBound(rate, t, y);
  }

  lemma LinearBound(rate: nat, t: nat, y: real)
    requires y == ONE_YEAR as real
    ensures y * LinearPart(rate, t) as real <= rate as real * t as real
  {
    TruncDivFloor(rate * t, ONE_YEAR);
    hide TruncDiv;
    CastProduct(rate, t);
    CastProduct(ONE_YEAR, LinearPart(rate, t));
  }

  lemma CastScales(f: real, y: real)
    requires f == RAY as real && y == ONE_YEAR as real
    ensures (2 * (RAY * (ONE_YEAR * ONE_YEAR))) as real == 2.0 * (f * (y * y))
    ensures (2 * (RAY * ONE_YEAR)) as real == 2.0 * (f * y)
  {
    CastProduct(RAY, ONE_YEAR * ONE_YEAR);
    CastProduct(RAY, ONE_YEAR);
  }

  lemma CastBound(k: int, b: int, x: int, y: int)
    requires k * b <= 2 * (x * y) + RAY
    ensures k as real * b as real <= 2.0 * (x as real * y as real) + RAY as real
  {
    CastProduct(k, b);
    CastProduct(x, y);
  }

  lemma CastProduct(a: int, b: int)
    ensures (a * b) as real == a as real * b as real
  {
  }

  lemma Assemble(f: real, y: real, x: real, d: real, e: real, t: real, linear: real,
    b2: real, b3: real, c2: real, c3: real, p: real)
    requires f > 0.0 && y > 0.0 && c2 >= 0.0 && c3 >= 0.0
    requires y * linear <= x * (f * y) * t
    requires b2 <= f * (x * x) + d
    requires b3 <= f * (x * (x * x)) + (d * x + e)
    requires FourTerms(x, t, c2, c3) <= p
    ensures f + linear + c2 * b2 + c3 * b3 <= f * p + (c2 * d + c3 * (d * x + e))
  {
    var (x2, x3) := (x * x, x * (x * x));
    Reorder(x, f, y, t);
    Cancel(y, linear, f * (t * x));
    var g := d * x + e;
    Scale(c2, b2, f * x2 + d);
    Scale(c3, b3, f * x3 + g);
    DistributeTerm(c2, f, x2, d);
    DistributeTerm(c3, f, x3, g);
    Distribute(f, t * x, c2 * x2, c3 * x3);
    Scale(f, 1.0 + t * x + c2 * x2 + c3 * x3, p);
    SumUp(f, linear, f * (t * x), c2 * b2, f * (c2 * x2), c2 * d, c3 * b3, f * (c3 * x3), c3 * g,
      f * (1.0 + t * x + c2 * x2 + c3 * x3), f * p);
  }

  lemma SumUp(f: real, a: real, a': real, b: real, b': real, bd: real, c: real, c': real, cd: real, s: real, p: real)
    requires a <= a' && b <= b' + bd && c <= c' + cd && s == f + a' + b' + c' && s <= p
    ensures f + a + b + c <= p + (bd + cd)
  {
  }

  lemma Reorder(x: real, f: real, y: real, t: real)
    ensures x * (f * y) * t == y * (f * (t * x))
  {
  }

  lemma DistributeTerm(c: real, f: real, x: real, d: real)
    ensures c * (f * x + d) == f * (c * x) + c * d
  {
  }

  lemma Distribute(f: real, a: real, b: real, c: real)
    ensures f * (1.0 + a + b + c) == f + f * a + f * b + f * c
  {
  }
}
