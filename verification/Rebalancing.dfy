/** Which borrowers can be rebalanced: the guard of rebalancing read in the inputs.

    Rebalancing weighs the user's debt in ray precision against the rest in wad precision. With `total` the stable
    debt, `weighted` the user's part of it in the finer unit, and the rates as they stand, the average first becomes
    (rate * total - userRate * weighted) / (total - weighted), which is negative when the heavier side is charged
    less, and then mixes in what the user pays at the quoted rate. */
module Rebalancing {
  import opened WadRayMath
  import opened Rates
  import opened Reserve
  import opened Actions

  // ----- the guard in the inputs -----

  /** The terms the guard is about. */
  datatype Mix = Mix(rate: int, total: int, userRate: int, debt: int, quote: int)

  function MixOf(r: Reserve, u: User, t: int): Mix {
    Mix(r.averageStableBorrowRate, StableDebtOf(r, t), u.stableBorrowRate, UserStableDebt(u, t), r.stableBorrowRate)
  }

  predicate Proper(m: Mix) {
    0 <= m.rate && 0 <= m.total && 0 <= m.userRate && 0 <= m.debt && 0 <= m.quote
  }

  /** What the average is left with, without rounding: what others pay once the user is taken out, over their debt,
      and what the user pays at the quote, times the distance of the two weights. */
  function Balance(m: Mix): int {
    var weighted := WadToRay(m.debt);
    var left := (m.userRate * weighted - m.rate * m.total) * (m.total - m.debt) + (m.quote * weighted) * (weighted - m.total);
    if m.total < weighted then left else -left
  }

  /** How much rounding can add to or take from twice the balance. */
  function Margin(m: Mix): int {
    var apart := Abs(m.total - WadToRay(m.debt));
    (6 * RAY + 3 * apart) * Abs(m.total - m.debt) + 6 * (RAY * apart)
  }

  function WithoutUser(m: Mix): int {
    AverageStableRateRebalance(m.rate, m.total, -m.debt, m.userRate)
  }

  function ChargedAfter(m: Mix): int {
    RayMul(WithoutUser(m), m.total - m.debt) + RayMul(m.quote, WadToRay(m.debt))
  }

  function WeightAfter(m: Mix): int {
    m.total - m.debt + WadToRay(m.debt)
  }

  lemma GuardOfMix(r: Reserve, u: User, t: int)
    ensures var m := MixOf(r, u, t);
      CanRebalance(r, u, t)
      <==> 0 <= m.debt && (WeightAfter(m) == 0 || 0 < ChargedAfter(m) * RAY + WeightAfter(m) + WeightAfter(m) / 2)
  {
    hide RayMul, AverageStableRateRebalance, StableDebtOf, UserStableDebt, WadToRay;
  }

  lemma WeightNonneg(m: Mix)
    requires Proper(m)
    ensures 0 <= WeightAfter(m)
    ensures WeightAfter(m) == 0 ==> m.debt == m.total == 0
    ensures WadToRay(-m.debt) == -WadToRay(m.debt) <= 0
  {
    ScaleValues();
    MulMono(2, WAD_RAY_RATIO, m.debt);
  }

  // ----- safe borrowers -----

  /** A user can be rebalanced who owes all the stable debt, or outweighs it and is charged at least what all of it
      is, or is outweighed by it and is charged at most that. */
  lemma RebalanceIsSafe(r: Reserve, u: User, t: int)
    requires Proper(MixOf(r, u, t)) && UserStableDebt(u, t) <= StableDebtOf(r, t)
    requires var (m, weighted) := (MixOf(r, u, t), WadToRay(UserStableDebt(u, t)));
      || m.debt == m.total || m.total == weighted
      || (m.total < weighted && m.rate * m.total + 2 * RAY <= m.userRate * weighted)
      || (weighted < m.total && m.userRate * weighted <= m.rate * m.total)
    ensures CanRebalance(r, u, t)
  {
    hide *;
    var m := MixOf(r, u, t);
    MixFields(r, u, t);
    GuardOfMix(r, u, t);
    WeightNonneg(m);
    ProperFields(m);
    if m.debt == m.total {
      NothingLeft(m);
    } else {
      WithoutUserNonneg(m);
      ChargedNonneg(m);
    }
    Cleared(ChargedAfter(m), WeightAfter(m));
  }

  lemma Cleared(charged: nat, weight: nat)
    ensures weight == 0 || 0 < charged * RAY + weight + weight / 2
  {
    assert 0 <= charged * RAY;
  }

  lemma MixFields(r: Reserve, u: User, t: int)
    ensures var m := MixOf(r, u, t); m.total == StableDebtOf(r, t) && m.debt == UserStableDebt(u, t)
  {
    hide StableDebtOf, UserStableDebt;
  }

  lemma ProperFields(m: Mix)
    requires Proper(m)
    ensures 0 <= m.rate && 0 <= m.total && 0 <= m.userRate && 0 <= m.debt && 0 <= m.quote && 0 <= WadToRay(m.debt)
  {
    MulMono(0, m.debt, WAD_RAY_RATIO);
  }

  lemma NothingLeft(m: Mix)
    requires Proper(m) && m.debt == m.total
    ensures 0 <= ChargedAfter(m)
  {
    hide *;
    ProperFields(m);
    NothingCharged(WithoutUser(m), m.total - m.debt);
    MulAtNearest(m.quote, WadToRay(m.debt), RAY);
    ChargedSum(m);
  }

  lemma NothingCharged(rate: int, rest: int)
    requires rest == 0
    ensures MulAt(rate, rest, RAY) == 0
  {
    MulAtZero(rate, RAY);
    hide MulAt;
  }

  lemma ChargedSum(m: Mix)
    ensures ChargedAfter(m) == MulAt(WithoutUser(m), m.total - m.debt, RAY) + MulAt(m.quote, WadToRay(m.debt), RAY)
  {
    hide MulAt, WithoutUser, WadToRay;
  }

  lemma ChargedNonneg(m: Mix)
    requires Proper(m) && m.debt <= m.total && 0 <= WithoutUser(m)
    ensures 0 <= ChargedAfter(m)
  {
    hide *;
    ProperFields(m);
    MulAtNearest(WithoutUser(m), m.total - m.debt, RAY);
    MulAtNearest(m.quote, WadToRay(m.debt), RAY);
    ChargedSum(m);
  }

  lemma WithoutUserNonneg(m: Mix)
    requires Proper(m)
    requires var weighted := WadToRay(m.debt);
      || m.total == weighted
      || (m.total < weighted && m.rate * m.total + 2 * RAY <= m.userRate * weighted)
      || (weighted < m.total && m.userRate * weighted <= m.rate * m.total)
    ensures 0 <= WithoutUser(m)
  {
    WeightNonneg(m);
    var weighted := WadToRay(m.debt);
    var n := RayMul(m.rate, m.total) + RayMul(m.userRate, WadToRay(-m.debt));
    if m.total != weighted {
      assert WithoutUser(m) == RayDiv(n, m.total - weighted) by { hide RayMul, RayDiv, WadToRay; }
      hide WithoutUser, WadToRay;
      TakenOut(m.rate, m.total, m.userRate, weighted);
      if m.total < weighted {
        NonnegQuotient(n, m.total - weighted, RAY);
      } else {
        NonnegQuotient(n, m.total - weighted, RAY);
      }
    } else {
      hide RayMul, RayDiv, WadToRay;
    }
  }

  /** The sign of what is left once the user's charge is taken out. */
  lemma TakenOut(rate: nat, total: nat, userRate: nat, weighted: nat)
    ensures var left := RayMul(rate, total) + RayMul(userRate, 0 - weighted);
      && (rate * total + 2 * RAY <= userRate * weighted ==> left <= 0)
      && (userRate * weighted <= rate * total ==> 0 <= left)
  {
    MulAtNearest(rate, total, RAY);
    NegativeProduct(userRate, weighted);
    var (x, y) := (RayMul(rate, total), RayMul(userRate, 0 - weighted));
    hide RayMul;
    LeftSign(rate * total, userRate * weighted, x, y, RAY);
  }

  lemma LeftSign(charged: int, users: int, x: int, y: int, f: nat)
    requires f > 0 && Nearest(x, charged, f)
    requires f - 1 - 2 * users <= 2 * (f * y) || 0 <= y
    requires 2 * (f * y) < 3 * f - 2 * users
    requires 0 <= x
    ensures charged + 2 * f <= users ==> x + y <= 0
    ensures users <= charged ==> 0 <= x + y
  {
    assert f * (x + y) == f * x + f * y;
    if charged + 2 * f <= users {
      CancelStrict(f, x + y, 1);
    } else if users <= charged && y < 0 {
      CancelStrict(f, -1, x + y);
    }
  }

  /** A product with a negative factor is truncated upward. */
  lemma NegativeProduct(a: nat, b: nat)
    ensures var y := RayMul(a, 0 - b);
      && (RAY - 1 - 2 * (a * b) <= 2 * (RAY * y) || 0 <= y)
      && 2 * (RAY * y) < 3 * RAY - 2 * (a * b)
  {
    var half := TruncDiv(RAY, 2);
    TruncDivFloor(RAY, 2);
    assert a * (0 - b) == 0 - a * b;
    TruncDivError(half - a * b, RAY);
    assert RayMul(a, 0 - b) == TruncDiv(half - a * b, RAY);
    var y := RayMul(a, 0 - b);
    hide RayMul, TruncDiv;
    if half - a * b >= 0 {
      CancelStrict(RAY, -1, y);
    }
  }

  lemma NonnegQuotient(n: int, b: int, f: nat)
    requires (b < 0 && n <= 0) || (b > 0 && n >= 0)
    ensures 0 <= DivAt(n, b, f)
  {
    if b < 0 {
      ProductSign(0 - n, f);
      var x := TruncDiv(b, 2) + n * f;
      HalfOf(b);
      TruncDivSpec(x, b);
    } else {
      DivAtNearest(n, b, f);
    }
  }

  lemma ProductSign(n: nat, f: nat)
    ensures 0 <= n * f && (0 - n) * f == 0 - n * f
  {
  }

  // ----- exactly, up to rounding -----

  /** A balance above the margin is enough to rebalance, and one below it by more than the weights is too little. */
  lemma RebalanceByBalance(r: Reserve, u: User, t: int)
    requires Proper(MixOf(r, u, t)) && StableDebtOf(r, t) != WadToRay(UserStableDebt(u, t))
    ensures var m := MixOf(r, u, t);
      && (2 * Balance(m) >= Margin(m) ==> CanRebalance(r, u, t))
      && (CanRebalance(r, u, t) ==>
            2 * Balance(m) > -Margin(m) - 3 * (Abs(m.total - WadToRay(m.debt)) * WeightAfter(m)))
  {
    hide *;
    var m := MixOf(r, u, t);
    MixFields(r, u, t);
    GuardOfMix(r, u, t);
    WeightNonneg(m);
    ProperFields(m);
    ChargedNearBalance(m);
    AbsPositive(m.total - WadToRay(m.debt));
    GuardByCharge(ChargedAfter(m), WeightAfter(m), Abs(m.total - WadToRay(m.debt)), Balance(m), Margin(m));
    if WeightAfter(m) == 0 {
      NoDebtNoDistance(m);
    }
  }

  lemma AbsPositive(x: int)
    requires x != 0
    ensures Abs(x) > 0
  {
  }

  lemma NoDebtNoDistance(m: Mix)
    requires m.debt == m.total == 0
    ensures m.total == WadToRay(m.debt)
  {
  }

  lemma GuardByCharge(charged: int, weight: int, apart: nat, balance: int, margin: int)
    requires apart > 0 && weight > 0
    requires -margin <= 2 * (apart * (RAY * charged) - balance) <= margin
    ensures 2 * balance >= margin ==> 0 < charged * RAY + weight + weight / 2
    ensures 0 < charged * RAY + weight + weight / 2 ==> 2 * balance > -margin - 3 * (apart * weight)
  {
    var x := RAY * charged;
    assert charged * RAY == x;
    hide *;
    if 2 * balance >= margin {
      CancelStrict(apart, -1, x);
    }
    if 0 < x + weight + weight / 2 {
      MulMono(1 - 3 * weight, 2 * x, apart);
      WeightProducts(apart, x, weight);
    }
  }

  lemma WeightProducts(apart: int, x: int, weight: int)
    ensures apart * (2 * x) == 2 * (apart * x)
    ensures apart * (1 - 3 * weight) == apart - 3 * (apart * weight)
  {
  }

  /** What is charged after rebalancing, over the distance of the weights, is the balance up to the margin. */
  lemma ChargedNearBalance(m: Mix)
    requires Proper(m) && m.total != WadToRay(m.debt)
    ensures -Margin(m) <= 2 * (Abs(m.total - WadToRay(m.debt)) * (RAY * ChargedAfter(m)) - Balance(m)) <= Margin(m)
  {
    hide *;
    WeightNonneg(m);
    var (weighted, rest) := (WadToRay(m.debt), m.total - m.debt);
    var n := RayMul(m.rate, m.total) + RayMul(m.userRate, 0 - weighted);
    var w := WithoutUser(m);
    ChargedParts(m);
    MulAtError(m.rate, m.total, RAY);
    NegatedFactor(m.userRate, weighted);
    MulAtError(m.userRate, 0 - weighted, RAY);
    DivAtError(n, m.total - weighted, RAY);
    MulAtError(w, rest, RAY);
    MulAtError(m.quote, weighted, RAY);
    RayOperations(m.rate, m.total, m.userRate, weighted, w, rest, m.quote, n);
    BalanceOf(m, weighted, rest);
    NearBalance(m.rate * m.total, m.userRate * weighted, m.quote * weighted, w, rest, m.total - weighted, n,
      RayMul(m.rate, m.total), RayMul(m.userRate, 0 - weighted), RayMul(w, rest), RayMul(m.quote, weighted), RAY,
      Balance(m), Margin(m));
  }

  lemma RayOperations(rate: int, total: int, userRate: int, weighted: int, w: int, rest: int, quote: int, n: int)
    ensures RayMul(rate, total) == MulAt(rate, total, RAY) && RayMul(userRate, 0 - weighted) == MulAt(userRate, 0 - weighted, RAY)
    ensures RayMul(w, rest) == MulAt(w, rest, RAY) && RayMul(quote, weighted) == MulAt(quote, weighted, RAY)
    ensures total != weighted ==> RayDiv(n, total - weighted) == DivAt(n, total - weighted, RAY)
  {
    hide MulAt, DivAt;
  }

  lemma NegatedFactor(a: int, b: int)
    ensures a * (0 - b) == 0 - a * b
  {
  }

  lemma ChargedParts(m: Mix)
    requires WadToRay(-m.debt) == -WadToRay(m.debt) && m.total != WadToRay(m.debt)
    ensures WithoutUser(m)
         == RayDiv(RayMul(m.rate, m.total) + RayMul(m.userRate, 0 - WadToRay(m.debt)), m.total - WadToRay(m.debt))
    ensures ChargedAfter(m) == RayMul(WithoutUser(m), m.total - m.debt) + RayMul(m.quote, WadToRay(m.debt))
  {
    hide RayMul, RayDiv, WadToRay;
  }

  lemma NearBalance(charged: int, users: int, quoted: int, w: int, rest: int, b: int, n: int, a1: int, a2: int, x: int, y: int,
    f: nat, balance: int, margin: int)
    requires b != 0 && n == a1 + a2
    requires -3 * f < 2 * (f * a1 - charged) < 3 * f && -3 * f < 2 * (f * a2 + users) < 3 * f
    requires -3 * Abs(b) < 2 * (b * w - n * f) < 3 * Abs(b)
    requires -3 * f < 2 * (f * x - w * rest) < 3 * f && -3 * f < 2 * (f * y - quoted) < 3 * f
    requires balance == (if b < 0 then 1 else -1) * ((users - charged) * rest - quoted * b)
    requires margin == (6 * f + 3 * Abs(b)) * Abs(rest) + 6 * (f * Abs(b))
    ensures -margin <= 2 * (Abs(b) * (f * (x + y)) - balance) <= margin
  {
    FactorOut(f, a1, a2, n, x, y);
    SmallErrors(b * w, n * f, f * a1, f * a2, charged, users, f * x, f * y, w * rest, quoted, f, Abs(b));
    NearBalanceOf(charged, users, quoted, w, rest, b, f * (x + y), f, balance, margin);
  }

  lemma SmallErrors(bw: int, nf: int, fa1: int, fa2: int, charged: int, users: int, fx: int, fy: int, wr: int, quoted: int,
    f: nat, b: nat)
    requires nf == fa1 + fa2
    requires -3 * f < 2 * (fa1 - charged) < 3 * f && -3 * f < 2 * (fa2 + users) < 3 * f
    requires -3 * b < 2 * (bw - nf) < 3 * b
    requires -3 * f < 2 * (fx - wr) < 3 * f && -3 * f < 2 * (fy - quoted) < 3 * f
    ensures -(6 * f + 3 * b) <= 2 * (bw - (charged - users)) <= 6 * f + 3 * b
    ensures -(6 * f) <= 2 * (fx + fy - (wr + quoted)) <= 6 * f
  {
  }

  lemma NearBalanceOf(charged: int, users: int, quoted: int, w: int, rest: int, b: int, total: int, f: nat, balance: int,
    margin: int)
    requires b != 0
    requires -(6 * f + 3 * Abs(b)) <= 2 * (b * w - (charged - users)) <= 6 * f + 3 * Abs(b)
    requires -(6 * f) <= 2 * (total - (w * rest + quoted)) <= 6 * f
    requires balance == (if b < 0 then 1 else -1) * ((users - charged) * rest - quoted * b)
    requires margin == (6 * f + 3 * Abs(b)) * Abs(rest) + 6 * (f * Abs(b))
    ensures -margin <= 2 * (Abs(b) * total - balance) <= margin
  {
    var (e, e') := (b * w - (charged - users), total - (w * rest + quoted));
    ErrorSize(e, rest, 6 * f + 3 * Abs(b));
    ErrorSize(e', b, 6 * f);
    Regrouped(f, Abs(b));
    Difference(b, w, rest, charged, users, quoted, e, e', total, balance);
  }

  lemma Regrouped(f: int, b: int)
    ensures (6 * f) * b == 6 * (f * b)
  {
  }

  lemma FactorOut(f: int, a1: int, a2: int, n: int, x: int, y: int)
    requires n == a1 + a2
    ensures n * f == f * a1 + f * a2 && f * (x + y) == f * x + f * y
  {
  }

  lemma ErrorSize(e: int, k: int, bound: int)
    requires -bound <= 2 * e <= bound
    ensures -(bound * Abs(k)) <= 2 * (e * k) <= bound * Abs(k)
  {
    MulMono(2 * e, bound, Abs(k));
    MulMono(-bound, 2 * e, Abs(k));
    assert Abs(k) * (2 * e) == 2 * (e * Abs(k));
    assert e * -k == -(e * k);
  }

  lemma Difference(b: int, w: int, rest: int, charged: int, users: int, quoted: int, e: int, e': int, total: int, balance: int)
    requires e == b * w - (charged - users) && e' == total - (w * rest + quoted) && b != 0
    requires balance == (if b < 0 then 1 else -1) * ((users - charged) * rest - quoted * b)
    ensures var sign := if b < 0 then -1 else 1;
      Abs(b) * total - balance == sign * (e * rest) + sign * (e' * b)
  {
    assert e' * b == total * b - w * rest * b - quoted * b;
    assert e * rest == w * rest * b + (users - charged) * rest;
    if b < 0 {
      assert Abs(b) * total == -(total * b);
    }
  }

  lemma BalanceOf(m: Mix, weighted: int, rest: int)
    requires weighted == WadToRay(m.debt) && rest == m.total - m.debt
    ensures var b := m.total - weighted;
      && Balance(m) == (if b < 0 then 1 else -1)
           * ((m.userRate * weighted - m.rate * m.total) * rest - (m.quote * weighted) * b)
      && Margin(m) == (6 * RAY + 3 * Abs(b)) * Abs(rest) + 6 * (RAY * Abs(b))
  {
    hide WadToRay;
    var b := m.total - weighted;
    assert (m.quote * weighted) * (weighted - m.total) == -((m.quote * weighted) * b);
  }
}
