/** Fixed-point arithmetic on unbounded integers: multiplication and division at the scales
    RAY (10^27), WAD (10^18) and PERCENTAGE_FACTOR (10^4), rounded half up.

    The functions follow the source's expressions; what they mean is stated once, by `Nearest`,
    and everything else in the project is derived from that. */
module WadRayMath {

  type Positive = x: int | 0 < x witness 1

  function Product(factors: seq<Positive>): Positive {
    if factors == [] then 1 else ProductPositive(factors[0], Product(factors[1..]))
  }

  function Repeat(x: Positive, n: nat): seq<Positive> {
    seq(n, _ => x)
  }

  function ProductPositive(x: Positive, y: Positive): Positive {
    x * y
  }

  /** The scales are powers of ten. Hardly any proof depends on which: `ScaleValues` gives the numbers
      to those that do, and all others work at any positive scale. */
  const WAD: Positive := Product(Repeat(10, 18))
  const RAY: Positive := Product(Repeat(10, 27))
  const WAD_RAY_RATIO: Positive := Product(Repeat(10, 9))
  const PERCENTAGE_FACTOR: Positive := 10_000

  /** The largest 256-bit number. */
  const MAX_UINT_AMOUNT: int := Product(Repeat(2, 256)) - 1

  function Power(b: Positive, n: nat): Positive {
    if n == 0 then 1 else ProductPositive(b, Power(b, n - 1))
  }

  lemma {:induction false} ProductIsPower(b: Positive, n: nat)
    ensures Product(Repeat(b, n)) == Power(b, n)
  {
    if n > 0 {
      assert Repeat(b, n)[1..] == Repeat(b, n - 1);
      ProductIsPower(b, n - 1);
    }
  }

  lemma ScaleValues()
    ensures WAD == 1_000_000_000_000_000_000
    ensures RAY == 1_000_000_000_000_000_000_000_000_000
    ensures WAD_RAY_RATIO == 1_000_000_000
  {
    ProductIsPower(10, 9);
    ProductIsPower(10, 18);
    ProductIsPower(10, 27);
  }

  lemma MaxIsPositive()
    ensures 0 < MAX_UINT_AMOUNT
  {
    ProductIsPower(2, 256);
    var half := Power(2, 255);
    assert Power(2, 256) == ProductPositive(2, half) == 2 * half;
  }

  lemma ScaleRelation()
    ensures WAD * WAD_RAY_RATIO == RAY
  {
    ScaleValues();
    assert 1_000_000_000_000_000_000 * 1_000_000_000 == 1_000_000_000_000_000_000_000_000_000;
  }

  function Abs(x: int): nat {
    if x < 0 then -x else x
  }

  /** BigNumber division: the quotient is truncated toward zero (Dafny's own `/` is Euclidean). */
  function TruncDiv(n: int, d: int): int
    requires d != 0
  {
    if n < 0 then
      if d < 0 then (-n) / (-d) else -((-n) / d)
    else if d < 0 then -(n / -d)
    else n / d
  }

  /** Product at scale `f`: add half the scale, then divide. */
  function MulAt(a: int, b: int, f: int): int
    requires f > 0
  {
    TruncDiv(TruncDiv(f, 2) + a * b, f)
  }

  /** Quotient at scale `f`: add half the divisor, then divide. */
  function DivAt(a: int, b: int, f: int): int
    requires b != 0
  {
    TruncDiv(TruncDiv(b, 2) + a * f, b)
  }

  function RayMul(a: int, b: int): int { MulAt(a, b, RAY) }

  function RayDiv(a: int, b: int): int
    requires b != 0
  {
    DivAt(a, b, RAY)
  }

  function WadMul(a: int, b: int): int { MulAt(a, b, WAD) }

  function WadDiv(a: int, b: int): int
    requires b != 0
  {
    DivAt(a, b, WAD)
  }

  function PercentMul(a: int, bps: int): int { MulAt(a, bps, PERCENTAGE_FACTOR) }

  function PercentDiv(a: int, bps: int): int
    requires bps != 0
  {
    DivAt(a, bps, PERCENTAGE_FACTOR)
  }

  function RayToWad(a: int): int {
    TruncDiv(TruncDiv(WAD_RAY_RATIO, 2) + a, WAD_RAY_RATIO)
  }

  function WadToRay(a: int): int { a * WAD_RAY_RATIO }

  // ----- what division and rounding mean -----

  /** `q` is the fraction `n / d` rounded to the nearest integer, ties upward. */
  ghost predicate Nearest(q: int, n: int, d: int) {
    2 * n - d < 2 * (d * q) <= 2 * n + d
  }

  /** Truncation loses less than one divisor and never overshoots zero. */
  lemma TruncDivSpec(n: int, d: int)
    requires d != 0
    ensures Abs(d * TruncDiv(n, d)) <= Abs(n) < Abs(d * TruncDiv(n, d)) + Abs(d)
    ensures TruncDiv(n, d) == 0 || (TruncDiv(n, d) > 0 <==> (n > 0 <==> d > 0))
  {
    FloorSpec(Abs(n), Abs(d));
  }

  lemma FloorSpec(n: nat, d: nat)
    requires d > 0
    ensures 0 <= n / d && d * (n / d) <= n < d * (n / d) + d
  {
    assert n == d * (n / d) + n % d;
  }

  lemma TruncDivFloor(n: nat, d: nat)
    requires d > 0
    ensures 0 <= TruncDiv(n, d) && d * TruncDiv(n, d) <= n < d * TruncDiv(n, d) + d
  {
    FloorSpec(n, d);
  }

  /** A quotient caught between two consecutive multiples of the divisor is determined. */
  lemma FloorUnique(q: int, q': int, n: int, d: int)
    requires d > 0
    requires d * q <= n < d * q + d && d * q' <= n < d * q' + d
    ensures q == q'
  {
    if q < q' {
      MulMono(q + 1, q', d);
    } else if q' < q {
      MulMono(q' + 1, q, d);
    }
  }

  lemma MulMono(x: int, y: int, d: int)
    requires x <= y && d >= 0
    ensures d * x <= d * y
  {
    assert d * y - d * x == d * (y - x);
  }

  lemma MulAtNearest(a: nat, b: nat, f: nat)
    requires f > 0
    ensures 0 <= MulAt(a, b, f) && Nearest(MulAt(a, b, f), a * b, f)
  {
    TruncDivFloor(f, 2);
    HalfUp(a * b, f);
  }

  lemma DivAtNearest(a: nat, b: nat, f: nat)
    requires b > 0
    ensures 0 <= DivAt(a, b, f) && Nearest(DivAt(a, b, f), a * f, b)
  {
    HalfUp(a * f, b);
  }

  lemma HalfUp(n: nat, d: nat)
    requires d > 0
    ensures var q := TruncDiv(TruncDiv(d, 2) + n, d); 0 <= q && Nearest(q, n, d)
  {
    var h := TruncDiv(d, 2);
    assert d - 1 <= 2 * h <= d;
    TruncDivFloor(h + n, d);
  }

  lemma NearestMono(q: int, q': int, n: int, n': int, d: int)
    requires d > 0 && n <= n' && Nearest(q, n, d) && Nearest(q', n', d)
    ensures q <= q'
  {
    if q' < q {
      MulMono(q' + 1, q, d);
    }
  }

  /** Rounding half up is unambiguous: `Nearest` pins its first argument. */
  lemma NearestUnique(q: int, q': int, n: int, d: int)
    requires d > 0 && Nearest(q, n, d) && Nearest(q', n, d)
    ensures q == q'
  {
    NearestMono(q, q', n, n, d);
    NearestMono(q', q, n, n, d);
  }

  // ----- laws of the rounded operations -----

  lemma MulAtMono(a: nat, a': nat, b: nat, f: nat)
    requires f > 0 && a <= a'
    ensures MulAt(a, b, f) <= MulAt(a', b, f)
  {
    MulAtNearest(a, b, f);
    MulAtNearest(a', b, f);
    MulMono(a, a', b);
    NearestMono(MulAt(a, b, f), MulAt(a', b, f), a * b, a' * b, f);
  }

  lemma DivAtMono(a: nat, a': nat, b: nat, f: nat)
    requires b > 0 && a <= a'
    ensures DivAt(a, b, f) <= DivAt(a', b, f)
  {
    DivAtNearest(a, b, f);
    DivAtNearest(a', b, f);
    MulMono(a, a', f);
    NearestMono(DivAt(a, b, f), DivAt(a', b, f), a * f, a' * f, b);
  }

  lemma RayMulMono(a: nat, a': nat, b: nat, b': nat)
    requires a <= a' && b <= b'
    ensures 0 <= RayMul(a, b) <= RayMul(a', b')
  {
    MulAtNearest(a, b, RAY);
    MulAtMono(a, a', b, RAY);
    MulAtCommutes(a', b, RAY);
    MulAtCommutes(a', b', RAY);
    MulAtMono(b, b', a', RAY);
  }

  lemma MulAtCommutes(a: int, b: int, f: int)
    requires f > 0
    ensures MulAt(a, b, f) == MulAt(b, a, f)
  {
    assert a * b == b * a;
  }

  /** Dividing undoes multiplying when the factor is at least the scale. */
  lemma DivUndoesMul(a: nat, b: nat, f: nat)
    requires 0 < f <= b
    ensures DivAt(MulAt(a, b, f), b, f) == a
  {
    var m := MulAt(a, b, f);
    MulAtNearest(a, b, f);
    DivAtNearest(m, b, f);
    assert m * f == f * m && a * b == b * a;
    if b == f {
      NearestUnique(m, a, a * b, f);
    }
    NearestUnique(DivAt(m, b, f), a, m * f, b);
  }

  /** Multiplying undoes dividing when the divisor is at most the scale. */
  lemma MulUndoesDiv(a: nat, b: nat, f: nat)
    requires 1 <= b <= f
    ensures MulAt(DivAt(a, b, f), b, f) == a
  {
    var q := DivAt(a, b, f);
    DivAtNearest(a, b, f);
    MulAtNearest(q, b, f);
    assert q * b == b * q && a * f == f * a;
    if b == f {
      NearestUnique(q, a, a * f, b);
    }
    NearestUnique(MulAt(q, b, f), a, q * b, f);
  }

  /** Quotients are ordered like the fractions they round. */
  lemma DivAtOrder(n: nat, d: nat, n': nat, d': nat, f: nat)
    requires d > 0 && d' > 0 && n * d' <= n' * d
    ensures 0 <= DivAt(n, d, f) <= DivAt(n', d', f)
  {
    DivAtNearest(n, d, f);
    DivAtNearest(n', d', f);
    hide DivAt;
    FractionOrder(DivAt(n, d, f), DivAt(n', d', f), n, d, n', d', f);
  }

  lemma FractionOrder(q: int, q': int, n: nat, d: nat, n': nat, d': nat, f: nat)
    requires d > 0 && d' > 0 && n * d' <= n' * d
    requires Nearest(q, n * f, d) && Nearest(q', n' * f, d')
    ensures q <= q'
  {
    MulMono(n * d', n' * d, 2 * f);
    CrossLower(q, n, d, d', f);
    CrossUpper(q', n', d', d, f);
    CancelStrict(d * d', 2 * q - 1, 2 * q' + 1);
  }

  lemma CrossLower(q: int, n: nat, d: nat, d': nat, f: nat)
    requires Nearest(q, n * f, d)
    ensures (d * d') * (2 * q - 1) <= (2 * f) * (n * d')
  {
    MulMono(d * (2 * q - 1), 2 * (n * f), d');
    assert d' * (d * (2 * q - 1)) == (d * d') * (2 * q - 1);
    assert d' * (2 * (n * f)) == (2 * f) * (n * d');
  }

  lemma CrossUpper(q: int, n: nat, d: nat, d': nat, f: nat)
    requires d' > 0 && Nearest(q, n * f, d)
    ensures (2 * f) * (n * d') < (d' * d) * (2 * q + 1)
  {
    MulMono(2 * (n * f) + 1, d * (2 * q + 1), d');
    assert d' * (d * (2 * q + 1)) == (d' * d) * (2 * q + 1);
    assert d' * (2 * (n * f) + 1) == (2 * f) * (n * d') + d';
  }

  lemma CancelStrict(c: int, x: int, y: int)
    requires c >= 0 && c * x < c * y
    ensures x < y
  {
    if y <= x {
      MulMono(y, x, c);
    }
  }

  lemma DivAtUnit(a: nat, f: nat)
    requires a > 0
    ensures DivAt(a, a, f) == f
  {
    DivAtNearest(a, a, f);
    NearestUnique(DivAt(a, a, f), f, a * f, a);
  }

  lemma MulAtZero(a: int, f: nat)
    requires f > 0
    ensures MulAt(a, 0, f) == 0 && MulAt(0, a, f) == 0
  {
    MulAtNearest(0, 0, f);
    NearestUnique(MulAt(0, 0, f), 0, 0, f);
    assert a * 0 == 0 * a == 0;
    hide TruncDiv;
  }

  lemma MulAtUnit(a: nat, f: nat)
    requires f > 0
    ensures MulAt(f, a, f) == a && MulAt(a, f, f) == a
  {
    MulAtNearest(f, a, f);
    MulAtNearest(a, f, f);
    NearestUnique(MulAt(f, a, f), a, f * a, f);
    NearestUnique(MulAt(a, f, f), a, a * f, f);
  }

  /** Converting up and back loses nothing; converting down and up moves by at most half a step. */
  lemma WadRayConversion(a: nat)
    ensures RayToWad(WadToRay(a)) == a
    ensures 2 * Abs(WadToRay(RayToWad(a)) - a) <= WAD_RAY_RATIO
  {
    hide *;
    UpAndDown(a);
    DownAndUp(a);
  }

  lemma DownAndUp(a: nat)
    ensures 2 * Abs(WadToRay(RayToWad(a)) - a) <= WAD_RAY_RATIO
  {
    HalfUp(a, WAD_RAY_RATIO);
    hide TruncDiv;
  }

  lemma UpAndDown(a: nat)
    ensures RayToWad(WadToRay(a)) == a
  {
    HalfUp(WadToRay(a), WAD_RAY_RATIO);
    NearestUnique(RayToWad(WadToRay(a)), a, WadToRay(a), WAD_RAY_RATIO);
    hide TruncDiv;
  }

  /** The exact inverses at the source's three scales. */
  lemma InversesAtEachScale(a: nat, b: nat)
    requires b > 0
    ensures b >= RAY ==> RayDiv(RayMul(a, b), b) == a
    ensures b <= RAY ==> RayMul(RayDiv(a, b), b) == a
    ensures b >= WAD ==> WadDiv(WadMul(a, b), b) == a
    ensures b <= WAD ==> WadMul(WadDiv(a, b), b) == a
    ensures b >= PERCENTAGE_FACTOR ==> PercentDiv(PercentMul(a, b), b) == a
    ensures b <= PERCENTAGE_FACTOR ==> PercentMul(PercentDiv(a, b), b) == a
  {
    InversesAt(a, b, RAY);
    InversesAt(a, b, WAD);
    InversesAt(a, b, PERCENTAGE_FACTOR);
    hide MulAt, DivAt;
  }

  lemma InversesAt(a: nat, b: nat, f: nat)
    requires b > 0 && f > 0
    ensures b >= f ==> DivAt(MulAt(a, b, f), b, f) == a
    ensures b <= f ==> MulAt(DivAt(a, b, f), b, f) == a
  {
    if b >= f {
      DivUndoesMul(a, b, f);
    }
    if b <= f {
      MulUndoesDiv(a, b, f);
    }
  }

  // ----- rounding of signed operands -----

  lemma TruncDivError(n: int, d: int)
    requires d > 0
    ensures -d < d * TruncDiv(n, d) - n < d
    ensures n <= 0 ==> n <= d * TruncDiv(n, d) <= 0
    ensures n >= 0 ==> 0 <= d * TruncDiv(n, d) <= n
  {
    if n >= 0 {
      TruncDivFloor(n, d);
      MulMono(0, TruncDiv(n, d), d);
    } else {
      TruncDivFloor(-n, d);
      var q := TruncDiv(-n, d);
      MulMono(0, q, d);
      assert TruncDiv(n, d) == 0 - q;
      assert d * (0 - q) == -(d * q);
    }
  }

  lemma MulAtError(a: int, b: int, f: nat)
    requires f > 0
    ensures -3 * f < 2 * (f * MulAt(a, b, f) - a * b) < 3 * f
  {
    TruncDivError(TruncDiv(f, 2) + a * b, f);
    TruncDivFloor(f, 2);
  }

  lemma DivAtError(a: int, b: int, f: int)
    requires b != 0
    ensures -3 * Abs(b) < 2 * (b * DivAt(a, b, f) - a * f) < 3 * Abs(b)
  {
    var n := TruncDiv(b, 2) + a * f;
    HalfOf(b);
    if b > 0 {
      TruncDivError(n, b);
    } else {
      TruncDivError(n, -b);
      FlippedQuotient(n, b);
    }
  }

  lemma HalfOf(b: int)
    ensures b - 1 <= 2 * TruncDiv(b, 2) <= b + 1
    ensures b >= 0 ==> 2 * TruncDiv(b, 2) <= b
  {
  }

  lemma FlippedQuotient(n: int, b: int)
    requires b < 0
    ensures TruncDiv(n, b) == 0 - TruncDiv(n, -b)
    ensures b * TruncDiv(n, b) == -b * TruncDiv(n, -b)
  {
    var q := TruncDiv(n, -b);
    assert b * (0 - q) == -b * q;
  }
}
