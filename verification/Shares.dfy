/** Scaled balances. A holder owns `s` shares worth `RayMul(s, index)`; amounts are converted to
    shares with `RayDiv(amount, index)`. These lemmas say exactly how much rounding can cost. */
module Shares {
  import opened WadRayMath

  /** Adding the shares of `a` changes a holder's worth by `a`, up to one unit and half a share. */
  lemma AddError(s: nat, a: nat, index: nat)
    requires index > 0
    ensures 0 <= RayDiv(a, index)
    ensures 2 * (RAY * Abs(RayMul(s + RayDiv(a, index), index) - (RayMul(s, index) + a))) < 2 * RAY + index
  {
    var d := RayDiv(a, index);
    DivAtNearest(a, index, RAY);
    MulAtNearest(s, index, RAY);
    MulAtNearest(s + d, index, RAY);
    hide RayMul, RayDiv, MulAt, DivAt;
    ShareArithmetic(s, d, a, index, RayMul(s, index), RayMul(s + d, index), RAY);
  }

  /** The same for taking the shares of `a` out of a holding that has them. */
  lemma SubError(s: nat, a: nat, index: nat)
    requires index > 0 && RayDiv(a, index) <= s
    ensures 0 <= RayDiv(a, index)
    ensures 2 * (RAY * Abs(RayMul(s - RayDiv(a, index), index) - (RayMul(s, index) - a))) < 2 * RAY + index
  {
    var d := RayDiv(a, index);
    DivAtNearest(a, index, RAY);
    MulAtNearest(s, index, RAY);
    MulAtNearest(s - d, index, RAY);
    hide RayMul, RayDiv, MulAt, DivAt;
    ShareArithmetic(s - d, d, a, index, RayMul(s - d, index), RayMul(s, index), RAY);
    assert Abs(RayMul(s, index) - (RayMul(s - d, index) + a)) == Abs(RayMul(s - d, index) - (RayMul(s, index) - a));
  }

  lemma ShareArithmetic(s: int, d: int, a: int, i: int, low: int, high: int, f: int)
    requires f > 0
    requires Nearest(low, s * i, f) && Nearest(high, (s + d) * i, f) && Nearest(d, a * f, i)
    ensures 2 * (f * Abs(high - (low + a))) < 2 * f + i
  {
    assert (s + d) * i == s * i + i * d;
    assert f * (high - (low + a)) == f * high - f * low - a * f;
    assert f * -(high - (low + a)) == -(f * (high - (low + a)));
  }

  /** Converting a whole holding to an amount and back gives every share back. */
  lemma WholeHolding(s: nat, index: nat)
    requires index >= RAY
    ensures RayDiv(RayMul(s, index), index) == s
  {
    DivUndoesMul(s, index, RAY);
  }

  /** An amount within a holding's worth never converts to more shares than the holding has. */
  lemma PartOfHolding(s: nat, a: nat, index: nat)
    requires index >= RAY && a <= RayMul(s, index)
    ensures 0 <= RayDiv(a, index) <= s
  {
    WholeHolding(s, index);
    DivAtNearest(a, index, RAY);
    DivAtMono(a, RayMul(s, index), index, RAY);
  }

  /** Splitting a holding in two loses or gains at most one unit. */
  lemma SplitHolding(s: nat, u: nat, index: nat)
    requires u <= s
    ensures Abs(RayMul(s - u, index) + RayMul(u, index) - RayMul(s, index)) <= 1
  {
    MulAtNearest(s, index, RAY);
    MulAtNearest(u, index, RAY);
    MulAtNearest(s - u, index, RAY);
    hide RayMul, MulAt;
    SplitArithmetic(s, u, index, RayMul(s, index), RayMul(u, index), RayMul(s - u, index), RAY);
  }

  lemma SplitArithmetic(s: int, u: int, i: int, ws: int, wu: int, wr: int, f: int)
    requires f > 0
    requires Nearest(ws, s * i, f) && Nearest(wu, u * i, f) && Nearest(wr, (s - u) * i, f)
    ensures Abs(wr + wu - ws) <= 1
  {
    assert (s - u) * i == s * i - u * i;
    assert f * (wr + wu - ws) == f * wr + f * wu - f * ws;
    SmallMultiple(wr + wu - ws, f);
  }

  lemma SmallMultiple(e: int, f: int)
    requires f > 0 && -4 * f < 2 * (f * e) < 4 * f
    ensures Abs(e) <= 1
  {
    CancelStrict(f, e, 2);
    CancelStrict(f, -2, e);
  }

  /** A holding is worth at least its shares once the index has reached one ray, and nothing only if empty. */
  lemma WorthAtLeastShares(s: nat, index: nat)
    requires index >= RAY
    ensures s <= RayMul(s, index)
    ensures RayMul(s, index) == 0 <==> s == 0
  {
    MulAtUnit(s, RAY);
    RayMulMono(s, s, RAY, index);
    MulAtNearest(0, index, RAY);
    hide RayMul, MulAt;
    WorthOfNothing(index);
  }

  lemma WorthOfNothing(index: int)
    ensures RayMul(0, index) == 0
  {
    MulAtZero(index, RAY);
  }
}
