/** Exactly when converting an amount to shares and back stays within a tolerance.

    Every quantity that rounding can leave behind is a multiple of the greatest common divisor of the index
    and the scale, and every multiple in range does occur: the first gives the bound, the second its tightness. */
module Tolerance {
  import opened WadRayMath
  import opened Shares

  // ----- greatest common divisor -----

  function Gcd(a: nat, b: nat): nat
    decreases b
  {
    if b == 0 then a else Gcd(b, a % b)
  }

  lemma {:induction false} GcdDivides(a: nat, b: nat) returns (p: nat, q: nat)
    ensures a == Gcd(a, b) * p && b == Gcd(a, b) * q
    decreases b
  {
    if b == 0 {
      p, q := 1, 0;
    } else {
      var p', q' := GcdDivides(b, a % b);
      var g := Gcd(b, a % b);
      p, q := p' * (a / b) + q', p';
      assert a == b * (a / b) + a % b;
      assert g * (p' * (a / b) + q') == (g * p') * (a / b) + g * q';
    }
  }

  /** Bezout: the greatest common divisor is a combination of its arguments. */
  lemma {:induction false} GcdCombines(a: nat, b: nat) returns (x: int, y: int)
    ensures a * x + b * y == Gcd(a, b)
    decreases b
  {
    if b == 0 {
      x, y := 1, 0;
    } else {
      var x', y' := GcdCombines(b, a % b);
      x, y := y', x' - (a / b) * y';
      assert a % b == a - b * (a / b);
      assert (a - b * (a / b)) * y' == a * y' - b * ((a / b) * y');
      assert b * (x' - (a / b) * y') == b * x' - b * ((a / b) * y');
    }
  }

  /** Every multiple of the greatest common divisor is a difference of natural multiples. */
  lemma MultipleReached(a: nat, b: nat, k: int) returns (x: nat, y: nat)
    requires a > 0 && b > 0
    ensures a * x - b * y == Gcd(a, b) * k
  {
    var x0, y0 := GcdCombines(a, b);
    var (u, v) := (x0 * k, -(y0 * k));
    var n := Abs(u) + Abs(v);
    Shifted(u, b, n);
    Shifted(v, a, n);
    x, y := u + b * n, v + a * n;
    CombinationScaled(a, b, x0, y0, k, n);
  }

  lemma CombinationScaled(a: int, b: int, x: int, y: int, k: int, n: int)
    ensures a * (x * k + b * n) - b * (-(y * k) + a * n) == (a * x + b * y) * k
  {
    assert a * (x * k + b * n) == a * (x * k) + a * (b * n);
    assert b * (-(y * k) + a * n) == b * -(y * k) + b * (a * n);
    assert a * (b * n) == b * (a * n);
    assert (a * x + b * y) * k == a * (x * k) + b * (y * k);
  }

  lemma Shifted(u: int, b: nat, n: nat)
    requires b > 0 && Abs(u) <= n
    ensures 0 <= u + b * n
  {
    MulMono(1, b, n);
  }

  // ----- the tolerance -----

  /** How far the worth after a deposit of `a` is from the worth before plus `a`. */
  function DepositError(s: nat, a: nat, index: nat): int
    requires index > 0
  {
    RayMul(s + RayDiv(a, index), index) - (RayMul(s, index) + a)
  }

  function WithdrawError(s: nat, a: nat, index: nat): int
    requires index > 0
  {
    RayMul(s - RayDiv(a, index), index) - (RayMul(s, index) - a)
  }

  /** The index leaves a tolerance of `k` units room. */
  predicate Tolerates(index: nat, k: nat) {
    index < 2 * (k * RAY) + 2 * Gcd(index, RAY)
  }

  /** An index up to `2 k` rays tolerates `k` units, one at twice `k + 1` rays or above never does. */
  lemma ToleratesRange(index: nat, k: nat)
    requires index > 0
    ensures index <= 2 * (k * RAY) ==> Tolerates(index, k)
    ensures index >= 2 * (k * RAY) + 2 * RAY ==> !Tolerates(index, k)
  {
    var p, q := GcdDivides(index, RAY);
    FactorBound(Gcd(index, RAY), q, RAY);
    hide Gcd;
  }

  lemma FactorBound(g: nat, q: nat, f: nat)
    requires g * q == f > 0
    ensures 0 < g <= f
  {
    assert g * 0 == 0;
    if q > 0 {
      MulMono(1, q, g);
    }
  }

  /** Multiples of `2 g` that differ differ by at least that much. */
  lemma MultipleGap(g: nat, u: int, v: int)
    requires 2 * (g * u) < 2 * (g * v)
    ensures 2 * (g * u) <= 2 * (g * v) - 2 * g
  {
    CancelStrict(g, u, v);
    MulMono(u + 1, v, g);
    assert g * (u + 1) == g * u + g;
  }

  /** What rounding two worths leaves behind, as multiples of `g`. */
  lemma Remainders(g: nat, p: nat, q: nat, s: int, d: int, low: int, high: int)
    ensures (g * q) * low - s * (g * p) == g * (q * low - s * p)
    ensures (g * q) * high - (s + d) * (g * p) == g * (q * high - (s + d) * p)
  {
    assert (g * q) * low == g * (q * low) && s * (g * p) == g * (s * p);
    assert (g * q) * high == g * (q * high) && (s + d) * (g * p) == g * ((s + d) * p);
    GTimes(g, q * low, s * p);
    GTimes(g, q * high, (s + d) * p);
  }

  lemma GTimes(g: int, x: int, y: int)
    ensures g * (x - y) == g * x - g * y
  {
  }

  /** Two remainders of rounding to multiples of `f` differ by at most one scale less `g`, twice over. */
  lemma RemainderGap(f: int, g: nat, q: nat, u: int, v: int, x: int, y: int)
    requires f == g * q && x == g * u && y == g * v
    requires -f < 2 * x <= f && -f < 2 * y <= f
    ensures 2 * (y - x) <= 2 * f - 2 * g
  {
    GTimes(g, v, u + q);
    assert g * (u + q) == g * u + g * q;
    MultipleGap(g, v, u + q);
  }

  /** The error of a deposit is what the three roundings leave behind. */
  lemma ErrorBound(s: int, d: int, a: int, i: nat, low: int, high: int, f: nat, g: nat, p: nat, q: nat)
    requires f > 0 && i == g * p && f == g * q
    requires Nearest(low, s * i, f) && Nearest(high, (s + d) * i, f) && Nearest(d, a * f, i)
    ensures 2 * (f * Abs(high - (low + a))) <= 2 * f - 2 * g + i
  {
    WorthGap(s, d, i, low, high, f, g, p, q);
    SharesOff(s, d, a, i, f);
    ErrorSplit(f, high, low, a);
    hide Nearest;
    ErrorLinear(f * low, f * high, s * i, i * d, a * f, f, g, i);
  }

  lemma SharesOff(s: int, d: int, a: int, i: nat, f: int)
    requires Nearest(d, a * f, i)
    ensures 0 < 2 * (i * d - a * f) + i <= 2 * i && (s + d) * i == s * i + i * d
  {
  }

  lemma WorthGap(s: int, d: int, i: nat, low: int, high: int, f: nat, g: nat, p: nat, q: nat)
    requires f > 0 && i == g * p && f == g * q
    requires Nearest(low, s * i, f) && Nearest(high, (s + d) * i, f)
    ensures 2 * Abs((f * high - (s + d) * i) - (f * low - s * i)) <= 2 * f - 2 * g
  {
    Remainders(g, p, q, s, d, low, high);
    var (u, v) := (q * low - s * p, q * high - (s + d) * p);
    var (x, y) := (f * low - s * i, f * high - (s + d) * i);
    assert 0 < 2 * x + f <= 2 * f && 0 < 2 * y + f <= 2 * f;
    RemainderGap(f, g, q, u, v, x, y);
    RemainderGap(f, g, q, v, u, y, x);
  }

  lemma ErrorLinear(fl: int, fh: int, n: int, id: int, af: int, f: int, g: int, i: int)
    requires 2 * Abs((fh - (n + id)) - (fl - n)) <= 2 * f - 2 * g
    requires 0 < 2 * (id - af) + i <= 2 * i
    ensures 2 * Abs(fh - fl - af) <= 2 * f - 2 * g + i
  {
  }

  lemma ErrorSplit(f: nat, high: int, low: int, a: int)
    ensures f * Abs(high - (low + a)) == Abs(f * high - f * low - a * f)
  {
    var e := high - (low + a);
    assert f * e == f * high - f * low - a * f;
    assert f * -e == -(f * e);
    MulMono(0, Abs(e), f);
  }

  lemma DepositWithin(s: nat, a: nat, index: nat, k: nat)
    requires index > 0 && Tolerates(index, k)
    ensures 0 <= RayDiv(a, index) && Abs(DepositError(s, a, index)) <= k
  {
    var p, q := GcdDivides(index, RAY);
    var (g, d) := (Gcd(index, RAY), RayDiv(a, index));
    DivAtNearest(a, index, RAY);
    MulAtNearest(s, index, RAY);
    MulAtNearest(s + d, index, RAY);
    hide RayMul, RayDiv, MulAt, DivAt, Gcd;
    ErrorBound(s, d, a, index, RayMul(s, index), RayMul(s + d, index), RAY, g, p, q);
    var error := Abs(DepositError(s, a, index));
    CancelStrict(RAY, error, k + 1) by { assert RAY * (k + 1) == k * RAY + RAY; }
  }

  /** Amounts whose roundings all err upward as far as they can. */
  lemma Extremes(g: nat, p: nat, q: nat, k: nat) returns (m: int, n: int)
    requires g > 0 && p > 0 && q > 0 && g * p >= 2 * (k * (g * q)) + 2 * g
    ensures -(g * p) < 2 * (g * m) <= g * p
    ensures -(g * q) < 2 * (g * n) <= g * q
    ensures 2 * (g * m) >= 2 * (k * (g * q)) + g * q + 2 * (g * n)
  {
    m, n := p / 2, -((q - 1) / 2);
    HalfInRange(g, p, m);
    HalfInRange(g, q, n);
    var kq := k * q;
    assert k * (g * q) == g * kq;
    FarEnough(g, p, q, kq, m, n);
  }

  lemma HalfInRange(g: nat, p: nat, m: int)
    requires g > 0 && 0 < 2 * m + p <= 2 * p
    ensures 0 < 2 * (g * m) + g * p <= 2 * (g * p)
  {
    MulMono(2 * m, p, g);
    MulMono(1 - p, 2 * m, g);
    GTimes(g, 1, p);
  }

  lemma FarEnough(g: nat, p: nat, q: nat, kq: nat, m: int, n: int)
    requires g > 0 && p > 0 && q > 0 && m == p / 2 && n == -((q - 1) / 2)
    requires g * p >= 2 * (g * kq) + 2 * g
    ensures 2 * (g * m) >= 2 * (g * kq) + g * q + 2 * (g * n)
  {
    FarProducts(g, q, kq, m, n);
    CancelStrict(g, 2 * kq + 1, p);
    Parity(p, q, kq);
    MulMono(2 * kq + q + 2 * n, 2 * m, g);
  }

  lemma Parity(p: nat, q: nat, kq: nat)
    requires p >= 2 * kq + 2 && q > 0
    ensures 2 * kq + q + 2 * -((q - 1) / 2) <= 2 * (p / 2)
  {
  }

  lemma FarProducts(g: int, q: int, kq: int, m: int, n: int)
    ensures g * (2 * m) == 2 * (g * m)
    ensures g * (2 * kq + 1) == 2 * (g * kq) + g
    ensures g * (2 * kq + q + 2 * n) == 2 * (g * kq) + g * q + 2 * (g * n)
  {
  }

  /** At an index that leaves no room for `k` some deposit is credited with more than `k` units too much. */
  lemma DepositBeyond(index: nat, k: nat) returns (s: nat, a: nat)
    requires index > 0 && !Tolerates(index, k)
    ensures 0 <= RayDiv(a, index) && DepositError(s, a, index) > k
  {
    var p, q := GcdDivides(index, RAY);
    var g := Gcd(index, RAY);
    FactorBound(g, q, RAY);
    hide Gcd;
    assert p > 0 by { assert g * 0 == 0; }
    var m, n := Extremes(g, p, q, k);
    var d, w;
    d, a := MultipleReached(index, RAY, m);
    s, w := MultipleReached(index, RAY, -n);
    assert g * -n == -(g * n);
    DivAtNearest(a, index, RAY);
    MulAtNearest(s, index, RAY);
    MulAtNearest(s + d, index, RAY);
    hide RayMul, RayDiv, MulAt, DivAt;
    NearestUnique(RayDiv(a, index), d, a * RAY, index);
    NearestUnique(RayMul(s, index), w, s * index, RAY);
    ErrorAbove(s, d, a, index, w, RayMul(s + d, index), RAY, 2 * (g * m), 2 * (g * n), k);
  }

  lemma ErrorAbove(s: int, d: int, a: int, i: int, low: int, high: int, f: int, e: int, r: int, k: int)
    requires f > 0 && Nearest(high, (s + d) * i, f)
    requires 2 * (i * d - f * a) == e && 2 * (f * low - i * s) == r && e >= 2 * (k * f) + f + r
    ensures high - (low + a) > k
  {
    assert (s + d) * i == i * s + i * d;
    var x := high - (low + a);
    assert f * x == f * high - f * low - f * a;
    CancelStrict(f, k, x) by { assert f * k == k * f; }
  }

  /** Comparing a deposit within `k` units is justified for every holding and amount if and only if
      the index is below twice `k` rays plus twice what it has in common with a ray. */
  lemma DepositTolerance(index: nat, k: nat)
    requires index > 0
    ensures (forall s: nat, a: nat :: Abs(DepositError(s, a, index)) <= k) <==> Tolerates(index, k)
  {
    if Tolerates(index, k) {
      forall s: nat, a: nat
        ensures Abs(DepositError(s, a, index)) <= k
      {
        DepositWithin(s, a, index, k);
      }
    } else {
      var s, a := DepositBeyond(index, k);
      assert Abs(DepositError(s, a, index)) > k by { hide DepositError; }
    }
  }

  /** Taking shares out is putting them in, read backward. */
  lemma WithdrawMirrorsDeposit(s: nat, a: nat, index: nat)
    requires index > 0 && 0 <= RayDiv(a, index) <= s
    ensures WithdrawError(s, a, index) == -DepositError(s - RayDiv(a, index), a, index)
  {
    hide RayMul, RayDiv;
  }

  lemma DepositWithinAll(s: nat, a: nat, index: nat)
    requires index > 0
    ensures forall k: nat | Tolerates(index, k) :: Abs(DepositError(s, a, index)) <= k
  {
    forall k: nat | Tolerates(index, k)
      ensures Abs(DepositError(s, a, index)) <= k
    {
      DepositWithin(s, a, index, k);
    }
  }

  lemma WithdrawWithinAll(s: nat, a: nat, index: nat)
    requires index > 0 && RayDiv(a, index) <= s
    ensures forall k: nat | Tolerates(index, k) :: Abs(WithdrawError(s, a, index)) <= k
  {
    forall k: nat | Tolerates(index, k)
      ensures Abs(WithdrawError(s, a, index)) <= k
    {
      WithdrawWithin(s, a, index, k);
    }
  }

  lemma WithdrawWithin(s: nat, a: nat, index: nat, k: nat)
    requires index > 0 && Tolerates(index, k) && RayDiv(a, index) <= s
    ensures 0 <= RayDiv(a, index) && Abs(WithdrawError(s, a, index)) <= k
  {
    DepositWithin(0, a, index, k);
    WithdrawMirrorsDeposit(s, a, index);
    DepositWithin(s - RayDiv(a, index), a, index, k);
    hide RayDiv, DepositError, WithdrawError;
  }

  /** The same condition for withdrawals from holdings that have the shares. */
  lemma WithdrawTolerance(index: nat, k: nat)
    requires index > 0
    ensures (forall s: nat, a: nat | RayDiv(a, index) <= s :: Abs(WithdrawError(s, a, index)) <= k)
        <==> Tolerates(index, k)
  {
    if Tolerates(index, k) {
      forall s: nat, a: nat | RayDiv(a, index) <= s
        ensures Abs(WithdrawError(s, a, index)) <= k
      {
        WithdrawWithin(s, a, index, k);
      }
    } else {
      var s, a := DepositBeyond(index, k);
      var d := RayDiv(a, index);
      WithdrawMirrorsDeposit(s + d, a, index);
      hide RayDiv, DepositError, WithdrawError;
      assert Abs(WithdrawError(s + d, a, index)) > k;
    }
  }

  /** Three units are too few at eight rays, where a deposit of 4 is credited as 8... */
  lemma ToleranceFailsAtEightRays()
    ensures DepositError(0, 4, 8 * RAY) == 4
  {
    DivAtNearest(4, 8 * RAY, RAY);
    NearestUnique(RayDiv(4, 8 * RAY), 1, 4 * RAY, 8 * RAY);
    MulAtNearest(1, 8 * RAY, RAY);
    NearestUnique(RayMul(1, 8 * RAY), 8, 8 * RAY, RAY);
    WorthOfNothing(8 * RAY);
  }

  /** ...and still enough at seven. */
  lemma ToleranceHoldsAtSevenRays()
    ensures Tolerates(7 * RAY, 3)
  {
    assert Gcd(7 * RAY, RAY) == RAY by {
      MultipleRemainder(7, RAY);
      assert Gcd(RAY, 0) == RAY;
    }
  }

  lemma MultipleRemainder(n: nat, f: nat)
    requires f > 0
    ensures (n * f) % f == 0
  {
    var (q, r) := ((n * f) / f, (n * f) % f);
    assert n * f == f * q + r;
    FloorUnique(q, n, n * f, f);
  }
}
