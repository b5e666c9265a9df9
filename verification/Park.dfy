/** The Q31 Park transform and its inverse. */
module Park {
  import opened Bits
  import opened FixedPoint

  const M: int := 0x8000_0000

  /** (q31_t) (((q63_t) a * b) >> 31). */
  function Product(a: q31, b: q31): q31 { ToQ31(a * b / M) }

  /** arm_park_q31: the coordinates in the rotor frame. */
  function Forward(alpha: q31, beta: q31, sin: q31, cos: q31): (q31, q31) {
    (Qadd(Product(alpha, cos), Product(beta, sin)), Qsub(Product(beta, cos), Product(alpha, sin)))
  }

  /** arm_inv_park_q31: back to the stator frame. */
  function Inverse(d: q31, q: q31, sin: q31, cos: q31): (q31, q31) {
    (Qsub(Product(d, cos), Product(q, sin)), Qadd(Product(q, cos), Product(d, sin)))
  }

  predicate Fits(x: int) { Q31_MIN <= x <= Q31_MAX }

  /** The one product that does not fit its format is that of the two lowest values. */
  predicate Multiplies(a: q31, b: q31) { !(a == Q31_MIN && b == Q31_MIN) }

  lemma ProductRange(a: q31, b: q31)
    ensures -M * M < a * b <= M * M
    ensures a * b == M * M <==> !Multiplies(a, b)
  {
    if b == -M {
      assert a * b == -M * a;
    } else {
      ProductWithin(a, b, M, M - 1);
    }
  }

  /** A product is the exact one, scaled and rounded down, except that of the two lowest values, which wraps to -1. */
  lemma ProductFloor(a: q31, b: q31)
    ensures M * Product(a, b) <= a * b < M * Product(a, b) + M <==> Multiplies(a, b)
    ensures !Multiplies(a, b) ==> Product(a, b) == Q31_MIN
  {
    ProductRange(a, b);
  }

  /** None of the eight products overflows and none of the four sums saturates. */
  predicate Linear(alpha: q31, beta: q31, sin: q31, cos: q31) {
    var (d, q) := Forward(alpha, beta, sin, cos);
    && Multiplies(alpha, cos) && Multiplies(beta, sin) && Multiplies(beta, cos) && Multiplies(alpha, sin)
    && Multiplies(d, cos) && Multiplies(q, sin) && Multiplies(q, cos) && Multiplies(d, sin)
    && Fits(Product(alpha, cos) + Product(beta, sin)) && Fits(Product(beta, cos) - Product(alpha, sin))
    && Fits(Product(d, cos) - Product(q, sin)) && Fits(Product(q, cos) + Product(d, sin))
  }

  /** Both transforms saturate their sums and differences, for all inputs. */
  lemma ForwardSaturates(alpha: q31, beta: q31, sin: q31, cos: q31)
    ensures var (d, q) := Forward(alpha, beta, sin, cos);
            var sum, difference := Product(alpha, cos) + Product(beta, sin), Product(beta, cos) - Product(alpha, sin);
            && d == (if sum > 0x7FFF_FFFF then 0x7FFF_FFFF else if sum < -0x8000_0000 then -0x8000_0000 else sum)
            && q == if difference > 0x7FFF_FFFF then 0x7FFF_FFFF
                    else if difference < -0x8000_0000 then -0x8000_0000 else difference
  {
    AddSubSaturate(Product(alpha, cos), Product(beta, sin));
    AddSubSaturate(Product(beta, cos), Product(alpha, sin));
  }

  lemma InverseSaturates(d: q31, q: q31, sin: q31, cos: q31)
    ensures var (alpha, beta) := Inverse(d, q, sin, cos);
            var sum, difference := Product(q, cos) + Product(d, sin), Product(d, cos) - Product(q, sin);
            && beta == (if sum > 0x7FFF_FFFF then 0x7FFF_FFFF else if sum < -0x8000_0000 then -0x8000_0000 else sum)
            && alpha == if difference > 0x7FFF_FFFF then 0x7FFF_FFFF
                        else if difference < -0x8000_0000 then -0x8000_0000 else difference
  {
    AddSubSaturate(Product(d, cos), Product(q, sin));
    AddSubSaturate(Product(q, cos), Product(d, sin));
  }

  /** How a rounded coordinate x stands to the exact inner product e it is computed from, at scale 2^31: below by less
      than two units if it fits, and else at the limit that e, up to two units, lies beyond. */
  predicate NearExact(x: q31, e: int) {
    && (x == 0x7FFF_FFFF ==> e > 0x8000_0000 * (0x7FFF_FFFF - 1))
    && (x == -0x8000_0000 ==> e < 0x8000_0000 * (-0x8000_0000 + 2))
    && (-0x8000_0000 < x < 0x7FFF_FFFF ==> 0x8000_0000 * (x - 1) < e < 0x8000_0000 * (x + 2))
  }

  /** Saturated or not, each coordinate is near its exact inner product, as far as the range allows; a saturated one is
      at the limit with the sign of that product. */
  lemma ForwardNearExact(alpha: q31, beta: q31, sin: q31, cos: q31)
    requires Multiplies(alpha, cos) && Multiplies(beta, sin) && Multiplies(beta, cos) && Multiplies(alpha, sin)
    ensures var (d, q) := Forward(alpha, beta, sin, cos);
            && NearExact(d, alpha * cos + beta * sin) && NearExact(q, beta * cos - alpha * sin)
            && (Product(alpha, cos) + Product(beta, sin) > 0x7FFF_FFFF ==>
                  d == 0x7FFF_FFFF && alpha * cos + beta * sin > 0)
            && (Product(alpha, cos) + Product(beta, sin) < -0x8000_0000 ==>
                  d == -0x8000_0000 && alpha * cos + beta * sin < 0)
            && (Product(beta, cos) - Product(alpha, sin) > 0x7FFF_FFFF ==>
                  q == 0x7FFF_FFFF && beta * cos - alpha * sin > 0)
            && (Product(beta, cos) - Product(alpha, sin) < -0x8000_0000 ==>
                  q == -0x8000_0000 && beta * cos - alpha * sin < 0)
  {
    hide Forward, Product;
    ForwardSaturates(alpha, beta, sin, cos);
    ProductFloor(alpha, cos);
    ProductFloor(beta, sin);
    ProductFloor(beta, cos);
    ProductFloor(alpha, sin);
  }

  lemma InverseNearExact(d: q31, q: q31, sin: q31, cos: q31)
    requires Multiplies(d, cos) && Multiplies(q, sin) && Multiplies(q, cos) && Multiplies(d, sin)
    ensures var (alpha, beta) := Inverse(d, q, sin, cos);
            && NearExact(alpha, d * cos - q * sin) && NearExact(beta, q * cos + d * sin)
            && (Product(q, cos) + Product(d, sin) > 0x7FFF_FFFF ==> beta == 0x7FFF_FFFF && q * cos + d * sin > 0)
            && (Product(q, cos) + Product(d, sin) < -0x8000_0000 ==> beta == -0x8000_0000 && q * cos + d * sin < 0)
            && (Product(d, cos) - Product(q, sin) > 0x7FFF_FFFF ==> alpha == 0x7FFF_FFFF && d * cos - q * sin > 0)
            && (Product(d, cos) - Product(q, sin) < -0x8000_0000 ==> alpha == -0x8000_0000 && d * cos - q * sin < 0)
  {
    hide Inverse, Product;
    InverseSaturates(d, q, sin, cos);
    ProductFloor(d, cos);
    ProductFloor(q, sin);
    ProductFloor(q, cos);
    ProductFloor(d, sin);
  }

  lemma ForwardError(alpha: q31, beta: q31, sin: q31, cos: q31)
    requires Multiplies(alpha, cos) && Multiplies(beta, sin) && Multiplies(beta, cos) && Multiplies(alpha, sin)
    requires Fits(Product(alpha, cos) + Product(beta, sin)) && Fits(Product(beta, cos) - Product(alpha, sin))
    ensures var (d, q) := Forward(alpha, beta, sin, cos);
            && 0 <= alpha * cos + beta * sin - M * d < 2 * M
            && -M < beta * cos - alpha * sin - M * q < M
  {
    ProductFloor(alpha, cos);
    ProductFloor(beta, sin);
    ProductFloor(beta, cos);
    ProductFloor(alpha, sin);
    AddSubSaturate(Product(alpha, cos), Product(beta, sin));
    AddSubSaturate(Product(beta, cos), Product(alpha, sin));
  }

  lemma InverseError(d: q31, q: q31, sin: q31, cos: q31)
    requires Multiplies(d, cos) && Multiplies(q, sin) && Multiplies(q, cos) && Multiplies(d, sin)
    requires Fits(Product(d, cos) - Product(q, sin)) && Fits(Product(q, cos) + Product(d, sin))
    ensures var (alpha, beta) := Inverse(d, q, sin, cos);
            && -M < d * cos - q * sin - M * alpha < M
            && 0 <= q * cos + d * sin - M * beta < 2 * M
  {
    ProductFloor(d, cos);
    ProductFloor(q, sin);
    ProductFloor(q, cos);
    ProductFloor(d, sin);
    AddSubSaturate(Product(d, cos), Product(q, sin));
    AddSubSaturate(Product(q, cos), Product(d, sin));
  }

  lemma ErrorTimes(e: int, f: int, bound: int)
    requires -bound < e < bound && -M <= f <= M && bound > 0
    ensures -bound * M < e * f < bound * M
  {
    ProductWithin(e, f, bound - 1, M);
  }

  /** Transforming there and back scales by sin^2 + cos^2 and loses only a few units in the last place: with every
      quantity multiplied by M^2, the error stays below 4 M^2 for alpha and 5 M^2 for beta. */
  lemma RoundTrip(alpha: q31, beta: q31, sin: q31, cos: q31)
    requires Linear(alpha, beta, sin, cos)
    ensures var (d, q) := Forward(alpha, beta, sin, cos);
            var (alpha', beta') := Inverse(d, q, sin, cos);
            && -4 * M * M < M * M * alpha' - alpha * (sin * sin + cos * cos) < 4 * M * M
            && -5 * M * M < M * M * beta' - beta * (sin * sin + cos * cos) < 5 * M * M
  {
    var (d, q) := Forward(alpha, beta, sin, cos);
    var (alpha', beta') := Inverse(d, q, sin, cos);
    ForwardError(alpha, beta, sin, cos);
    InverseError(d, q, sin, cos);
    var e1, e2 := alpha * cos + beta * sin - M * d, beta * cos - alpha * sin - M * q;
    var e3, e4 := d * cos - q * sin - M * alpha', q * cos + d * sin - M * beta';
    ErrorTimes(e1, cos, 2 * M);
    ErrorTimes(e1, sin, 2 * M);
    ErrorTimes(e2, sin, M);
    ErrorTimes(e2, cos, M);
    Expand(alpha, beta, sin, cos, d, q, alpha', beta', e1, e2, e3, e4);
  }

  /** The exact identity behind the round trip, with every rounding error named. */
  lemma Expand(alpha: int, beta: int, sin: int, cos: int, d: int, q: int, alpha': int, beta': int, e1: int, e2: int,
      e3: int, e4: int)
    requires e1 == alpha * cos + beta * sin - M * d && e2 == beta * cos - alpha * sin - M * q
    requires e3 == d * cos - q * sin - M * alpha' && e4 == q * cos + d * sin - M * beta'
    ensures M * M * alpha' - alpha * (sin * sin + cos * cos) == -(e1 * cos) + e2 * sin - M * e3
    ensures M * M * beta' - beta * (sin * sin + cos * cos) == -(e2 * cos) - e1 * sin - M * e4
  {
    assert M * d == alpha * cos + beta * sin - e1;
    assert M * q == beta * cos - alpha * sin - e2;
    assert M * d * cos == (alpha * cos + beta * sin - e1) * cos;
    assert M * q * sin == (beta * cos - alpha * sin - e2) * sin;
    assert M * q * cos == (beta * cos - alpha * sin - e2) * cos;
    assert M * d * sin == (alpha * cos + beta * sin - e1) * sin;
  }

  function Abs(x: int): (r: int)
    ensures r >= 0 && -r <= x <= r && (r == x || r == -x)
  {
    if x < 0 then -x else x
  }

  /** A factor of the unit circle never enlarges a coordinate. */
  lemma ProductShrinks(a: q31, f: q31)
    requires Multiplies(a, f)
    ensures -Abs(a) <= Product(a, f) <= Abs(a)
  {
    ProductWithin(a, f, Abs(a), M);
    ProductFloor(a, f);
  }

  /** Two coordinates that together stay below one half never saturate a transform, whatever the angle. */
  lemma SmallInputsAreLinear(alpha: q31, beta: q31, sin: q31, cos: q31)
    requires 2 * (Abs(alpha) + Abs(beta)) < M
    ensures Linear(alpha, beta, sin, cos)
  {
    ProductShrinks(alpha, cos);
    ProductShrinks(beta, sin);
    ProductShrinks(beta, cos);
    ProductShrinks(alpha, sin);
    AddSubSaturate(Product(alpha, cos), Product(beta, sin));
    AddSubSaturate(Product(beta, cos), Product(alpha, sin));
    var (d, q) := Forward(alpha, beta, sin, cos);
    assert Abs(d) <= Abs(alpha) + Abs(beta) && Abs(q) <= Abs(alpha) + Abs(beta);
    ProductShrinks(d, cos);
    ProductShrinks(q, sin);
    ProductShrinks(q, cos);
    ProductShrinks(d, sin);
  }

  // ---------------------------------------------------------------- the unit disc

  function Norm(x: int, y: int): (n: int)
    ensures n >= 0
  {
    MulNonNegative(Abs(x), Abs(x));
    MulNonNegative(Abs(y), Abs(y));
    x * x + y * y
  }

  lemma SquareBound(a: int, b: int)
    requires b >= 0 && a * a <= b * b
    ensures -b <= a <= b
  {
    assert (a - b) * (a + b) == a * a - b * b == (-a - b) * (-a + b);
    if a > b {
      MulAtLeast(a - b, a + b);
    } else if a < -b {
      MulAtLeast(-a - b, -a + b);
    }
  }

  /** Lagrange's identity: a rotation by (c, s) multiplies the norms. */
  lemma Rotated(a: int, b: int, c: int, s: int)
    ensures Norm(a * c + b * s, b * c - a * s) == Norm(a, b) * Norm(c, s)
  {
    assert (a * c + b * s) * (a * c + b * s) == a * a * (c * c) + b * b * (s * s) + 2 * (a * c * (b * s));
    assert (b * c - a * s) * (b * c - a * s) == b * b * (c * c) + a * a * (s * s) - 2 * (b * c * (a * s));
    assert a * c * (b * s) == b * c * (a * s);
    assert (a * a + b * b) * (c * c + s * s) == a * a * (c * c) + a * a * (s * s) + b * b * (c * c) + b * b * (s * s);
  }

  lemma NonNegativeProduct(x: int, y: int, hx: int, hy: int)
    requires 0 <= x <= hx && 0 <= y <= hy
    ensures x * y <= hx * hy
  {
    MulNonNegative(hx - x, hy);
    MulNonNegative(x, hy - y);
    assert hx * hy - x * y == (hx - x) * hy + x * (hy - y);
  }

  /** Cauchy and Schwarz, on bounds of the two lengths. */
  lemma InnerBound(a: int, b: int, c: int, s: int, p: int, n: int)
    requires p >= 0 && n >= 0 && Norm(a, b) <= p * p && Norm(c, s) <= n * n
    ensures -(p * n) <= a * c + b * s <= p * n
  {
    hide Norm;
    Rotated(a, b, c, s);
    var inner, outer := a * c + b * s, b * c - a * s;
    NormAtLeast(inner, outer);
    NonNegativeProduct(Norm(a, b), Norm(c, s), p * p, n * n);
    assert p * p * (n * n) == p * n * (p * n);
    MulNonNegative(p, n);
    SquareBound(inner, p * n);
  }

  lemma NormAtLeast(x: int, y: int)
    ensures x * x <= Norm(x, y)
  {
    MulNonNegative(Abs(y), Abs(y));
  }

  /** The length of a sum is at most the sum of the lengths. */
  lemma SumBound(x: int, y: int, u: int, v: int, p: int, n: int)
    requires p >= 0 && n >= 0 && Norm(x, y) <= p * p && Norm(u, v) <= n * n
    ensures Norm(x + u, y + v) <= (p + n) * (p + n)
  {
    InnerBound(x, y, u, v, p, n);
    assert Norm(x + u, y + v) == Norm(x, y) + Norm(u, v) + 2 * (x * u + y * v);
    assert (p + n) * (p + n) == p * p + n * n + 2 * (p * n);
  }

  /** A rounded direction: a point that is at most two units of the last place off the unit circle. */
  predicate OnCircle(sin: int, cos: int) { -2 * M <= Norm(cos, sin) - M * M <= 2 * M }

  /** The exact inner product of a vector of the disc of radius M - 2 with a rounded direction. */
  lemma InsideDisc(a: int, b: int, c: int, s: int)
    requires Norm(a, b) <= (M - 2) * (M - 2) && Norm(c, s) <= M * M + 2 * M
    ensures -(M * M - M) <= a * c + b * s <= M * M - M
  {
    hide Norm;
    InnerBound(a, b, c, s, M - 2, M + 1);
  }

  lemma NotLowest(a: int, b: int)
    requires Norm(a, b) <= (M - 2) * (M - 2)
    ensures -M < a < M && -M < b < M
  {
    NormAtLeast(a, b);
    NormAtLeast(b, a);
    SquareBound(a, M - 2);
    SquareBound(b, M - 2);
  }

  /** Neither sum of two products saturates for such a vector, in either order of sine and cosine. */
  lemma SumsFit(a: q31, b: q31, c: q31, s: q31)
    requires Norm(a, b) <= (M - 2) * (M - 2) && Norm(c, s) <= M * M + 2 * M
    ensures Multiplies(a, c) && Multiplies(b, s) && Fits(Product(a, c) + Product(b, s))
  {
    NotLowest(a, b);
    InsideDisc(a, b, c, s);
    ProductFloor(a, c);
    ProductFloor(b, s);
  }

  lemma DifferencesFit(a: q31, b: q31, c: q31, s: q31)
    requires Norm(a, b) <= (M - 2) * (M - 2) && Norm(c, s) <= M * M + 2 * M
    ensures Multiplies(a, c) && Multiplies(b, s) && Fits(Product(a, c) - Product(b, s))
  {
    hide Norm;
    NotLowest(a, b);
    NormNegated(a, b);
    InsideDisc(a, -b, c, s);
    assert -b * s == -(b * s);
    ProductFloor(a, c);
    ProductFloor(b, s);
  }

  lemma NormNegated(x: int, y: int)
    ensures Norm(x, -y) == Norm(x, y)
  {
  }

  /** The rotor-frame vector of a vector of the disc of radius M - 6 stays in the disc of radius M - 2. */
  lemma ForwardStaysInside(alpha: q31, beta: q31, sin: q31, cos: q31)
    requires Norm(alpha, beta) <= (M - 6) * (M - 6) && OnCircle(sin, cos)
    requires Multiplies(alpha, cos) && Multiplies(beta, sin) && Multiplies(beta, cos) && Multiplies(alpha, sin)
    requires Fits(Product(alpha, cos) + Product(beta, sin)) && Fits(Product(beta, cos) - Product(alpha, sin))
    ensures var (d, q) := Forward(alpha, beta, sin, cos); Norm(d, q) <= (M - 2) * (M - 2)
  {
    var (d, q) := Forward(alpha, beta, sin, cos);
    ForwardError(alpha, beta, sin, cos);
    hide Norm, Forward;
    var x, y := alpha * cos + beta * sin, beta * cos - alpha * sin;
    Rotated(alpha, beta, cos, sin);
    NonNegativeProduct(Norm(alpha, beta), Norm(cos, sin), (M - 6) * (M - 6), (M + 1) * (M + 1));
    RoundedInside(x, y, d, q);
  }

  lemma RoundedInside(x: int, y: int, d: int, q: int)
    requires Norm(x, y) <= (M - 6) * (M + 1) * ((M - 6) * (M + 1))
    requires 0 <= x - M * d < 2 * M && -M < y - M * q < M
    ensures Norm(d, q) <= (M - 2) * (M - 2)
  {
    hide Norm;
    ErrorNorm(M * d - x, M * q - y);
    SumBound(x, y, M * d - x, M * q - y, (M - 6) * (M + 1), 3 * M);
    NormScaled(d, q);
  }

  lemma NormScaled(x: int, y: int)
    ensures Norm(M * x, M * y) == M * M * Norm(x, y)
  {
    assert M * x * (M * x) == M * M * (x * x);
    assert M * y * (M * y) == M * M * (y * y);
  }

  lemma ErrorNorm(u: int, v: int)
    requires -2 * M < u <= 0 && -M < v < M
    ensures Norm(u, v) <= 3 * M * (3 * M)
  {
    ProductWithin(u, u, 2 * M, 2 * M);
    ProductWithin(v, v, M, M);
  }

  /** Cauchy and Schwarz again: no vector within the unit disc, less six units of the last place, saturates a transform
      in either direction, whatever the rounded angle. */
  lemma DiscIsLinear(alpha: q31, beta: q31, sin: q31, cos: q31)
    requires Norm(alpha, beta) <= (M - 6) * (M - 6) && OnCircle(sin, cos)
    ensures Linear(alpha, beta, sin, cos)
  {
    hide Norm, Product, Forward;
    NormSwaps(alpha, beta);
    SumsFit(alpha, beta, cos, sin);
    DifferencesFit(beta, alpha, cos, sin);
    ForwardStaysInside(alpha, beta, sin, cos);
    var (d, q) := Forward(alpha, beta, sin, cos);
    NormSwaps(d, q);
    DifferencesFit(d, q, cos, sin);
    SumsFit(q, d, cos, sin);
  }

  /** A vector on the edge of that disc, and a rounded angle. */
  lemma DiscReached()
    ensures Norm(M - 6, 0) == (M - 6) * (M - 6) && OnCircle(0, Q31_MAX)
    ensures Linear(M - 6, 0, 0, Q31_MAX)
  {
    DiscIsLinear(M - 6, 0, 0, Q31_MAX);
  }

  lemma NormSwaps(x: int, y: int)
    ensures Norm(x, y) == Norm(y, x)
  {
  }

  /** For sine and cosine as rounded table values give them (each within one half of the last place, so that the
      squares sum to 1 within two places, as those of 0 and Q31_MAX do) every vector of the unit disc, less six units
      of the last place, comes back within five and six units of the last place. */
  lemma UnitCircle(alpha: q31, beta: q31, sin: q31, cos: q31)
    requires Norm(alpha, beta) <= (M - 6) * (M - 6) && OnCircle(sin, cos)
    ensures var (d, q) := Forward(alpha, beta, sin, cos);
            var (alpha', beta') := Inverse(d, q, sin, cos);
            && -5 <= alpha' - alpha <= 5
            && -6 <= beta' - beta <= 6
  {
    hide Linear, Forward, Inverse;
    DiscIsLinear(alpha, beta, sin, cos);
    RoundTrip(alpha, beta, sin, cos);
    var (d, q) := Forward(alpha, beta, sin, cos);
    var (alpha', beta') := Inverse(d, q, sin, cos);
    NearBack(alpha, alpha', sin * sin + cos * cos, 4);
    NearBack(beta, beta', sin * sin + cos * cos, 5);
  }

  lemma NearBack(x: int, back: int, norm: int, bound: int)
    requires -M <= x <= M && -2 * M <= norm - M * M <= 2 * M
    requires -bound * M * M < M * M * back - x * norm < bound * M * M
    ensures -(bound + 2) < back - x < bound + 2
  {
    var off := norm - M * M;
    ProductWithin(x, off, M, 2 * M);
    assert x * norm == M * M * x + x * off by {
      assert x * (M * M + off) == x * (M * M) + x * off;
    }
  }
}
