/**
 * Facts about products of reals that the vector, sphere and material proofs
 * rest on. Each is stated on raw products and kept small, so that the solver's
 * non-linear reasoning only ever sees one fact at a time.
 */
module RealArith {

  function Abs(a: real): (r: real)
    ensures r >= 0.0 && (r == a || r == -a)
  {
    if a < 0.0 then -a else a
  }

  lemma SquareLtShift(c: real, d: real)
    requires 0.0 <= c && 0.0 < d
    ensures c * c < (c + d) * (c + d)
  {
  }

  /** Squaring is strictly increasing on the non-negative reals. */
  lemma SquareLt(c: real, s: real)
    requires 0.0 <= c < s
    ensures c * c < s * s
  {
    SquareLtShift(c, s - c);
  }

  lemma SquareLe(c: real, s: real)
    requires 0.0 <= c <= s
    ensures c * c <= s * s
  {
    if c < s {
      SquareLt(c, s);
    }
  }

  /** A non-negative square root is unique. */
  lemma SquareRootUnique(s: real, c: real)
    requires 0.0 <= s && 0.0 <= c && s * s == c * c
    ensures s == c
  {
    if s < c {
      SquareLt(s, c);
    } else if c < s {
      SquareLt(c, s);
    }
  }

  lemma SquareOfAbs(a: real)
    ensures Abs(a) * Abs(a) == a * a
  {
    if a < 0.0 {
      assert (-a) * (-a) == a * a;
    }
  }

  /** `|a| < b` bounds the square of `a` by the square of `b`. */
  lemma SquareBelow(a: real, b: real)
    requires Abs(a) < b
    ensures a * a < b * b
  {
    SquareLt(Abs(a), b);
    SquareOfAbs(a);
  }

  lemma ProductZero(a: real, x: real)
    requires a != 0.0 && a * x == 0.0
    ensures x == 0.0
  {
  }

  /**
   * `t = (-hb + e) / a` and `t = (-hb - e) / a`, with `e^2 = hb^2 - a c`, solve
   * `a t^2 + 2 hb t + c = 0`: the two roots of the quadratic formula with a half
   * linear coefficient.
   */
  lemma QuotientRootOfQuadratic(a: real, hb: real, c: real, e: real, n: real, t: real)
    requires a != 0.0 && e * e == hb * hb - a * c
    requires n == -hb + e || n == -hb - e
    requires t == n / a
    ensures (t * t) * a + 2.0 * (t * hb) + c == 0.0
  {
    var u := t * a;
    assert u == n;
    assert a * ((t * t) * a + 2.0 * (t * hb) + c) == u * u + 2.0 * hb * u + a * c;
    if n == -hb + e {
      assert u * u + 2.0 * hb * u + a * c == (e - hb) * (e - hb) + 2.0 * hb * (e - hb) + a * c;
    } else {
      assert u * u + 2.0 * hb * u + a * c == (-e - hb) * (-e - hb) + 2.0 * hb * (-e - hb) + a * c;
    }
    ProductZero(a, (t * t) * a + 2.0 * (t * hb) + c);
  }

  /**
   * Completing the square: at a root `t` of `a t^2 + 2 hb t + c`,
   * `(a t + hb)^2 = hb^2 - a c`, so the discriminant is not negative.
   */
  lemma CompletedSquare(a: real, hb: real, c: real, t: real)
    requires (t * t) * a + 2.0 * (t * hb) + c == 0.0
    ensures (a * t + hb) * (a * t + hb) == hb * hb - a * c
    ensures 0.0 <= hb * hb - a * c
  {
    var m := a * t + hb;
    assert m * m == a * ((t * t) * a + 2.0 * (t * hb) + c) + hb * hb - a * c;
    SquareOfAbs(m);
    SquareLe(0.0, Abs(m));
  }

  /**
   * Every root of `a t^2 + 2 hb t + c`, with `a != 0`, is one of the two roots
   * of the quadratic formula, `(-hb - e) / a` or `(-hb + e) / a`, where `e` is
   * the non-negative square root of `hb^2 - a c`.
   */
  lemma RootIsNearOrFar(a: real, hb: real, c: real, e: real, t: real)
    requires a != 0.0 && 0.0 <= e && e * e == hb * hb - a * c
    requires (t * t) * a + 2.0 * (t * hb) + c == 0.0
    ensures t == (-hb - e) / a || t == (-hb + e) / a
  {
    CompletedSquare(a, hb, c, t);
    var m := a * t + hb;
    SameSquare(m, e);
    if m == e {
      ProductQuotient(a, t, -hb + e);
    } else {
      ProductQuotient(a, t, -hb - e);
    }
  }

  /** A number with the same square as a non-negative `e` is `e` or `-e`. */
  lemma SameSquare(m: real, e: real)
    requires 0.0 <= e && m * m == e * e
    ensures m == e || m == -e
  {
    SquareOfAbs(m);
    SquareRootUnique(Abs(m), e);
  }

  /** `a t = n` with `a != 0` gives `t = n / a`. */
  lemma ProductQuotient(a: real, t: real, n: real)
    requires a != 0.0 && a * t == n
    ensures t == n / a
  {
  }

  /** Dividing by a positive number keeps the order. */
  lemma QuotientsOrdered(n1: real, n2: real, a: real)
    requires 0.0 < a && n1 <= n2
    ensures n1 / a <= n2 / a
  {
  }

  /** A square root of a value at most 1 is at most 1. */
  lemma SquareRootAtMostOne(s: real, x: real)
    requires 0.0 <= s && s * s == x && x <= 1.0
    ensures s <= 1.0
  {
    if 1.0 < s {
      SquareLt(1.0, s);
    }
  }

  /** Scaling by a factor in [0, 1] never grows a non-negative value. */
  lemma ProductWithin(a: real, b: real)
    requires 0.0 <= a && 0.0 <= b <= 1.0
    ensures 0.0 <= a * b <= a
  {
    assert a * b <= a * 1.0;
  }

  /** `(1 - i) / (1 + i)` lies in [-1, 1] for a non-negative `i`. */
  lemma QuotientWithinOne(i: real, q: real)
    requires 0.0 <= i && q == (1.0 - i) / (1.0 + i)
    ensures -1.0 <= q <= 1.0
  {
    assert q * (1.0 + i) == 1.0 - i;
  }

  /** A value in [-1, 1] has a square in [0, 1]. */
  lemma SquareAtMostOne(q: real)
    requires -1.0 <= q <= 1.0
    ensures 0.0 <= q * q <= 1.0
  {
    SquareLe(Abs(q), 1.0);
    SquareOfAbs(q);
  }

  /** A value in [0, 1] has a fifth power in [0, 1]. */
  lemma FifthPowerWithinOne(x: real)
    requires 0.0 <= x <= 1.0
    ensures 0.0 <= x * x * x * x * x <= 1.0
  {
    ProductWithin(x, x);
    ProductWithin(x * x, x);
    ProductWithin(x * x * x, x);
    ProductWithin(x * x * x * x, x);
  }

  /** Three squares sum to zero only when each is zero. */
  lemma SumOfSquaresZero(x: real, y: real, z: real)
    requires x * x + y * y + z * z == 0.0
    ensures x == 0.0 && y == 0.0 && z == 0.0
  {
    NonNegativesSumToZero(x * x, y * y, z * z);
    SquareZero(x);
    SquareZero(y);
    SquareZero(z);
  }

  lemma SquareZero(a: real)
    requires a * a == 0.0
    ensures a == 0.0
  {
    if a != 0.0 {
      ProductZero(a, a);
    }
  }

  lemma NonNegativesSumToZero(a: real, b: real, c: real)
    requires 0.0 <= a && 0.0 <= b && 0.0 <= c && a + b + c == 0.0
    ensures a == 0.0 && b == 0.0 && c == 0.0
  {
  }

  /** `y == a * x` and `y == a` with `a` non-zero force `x == 1`. */
  lemma ProductIsOne(a: real, x: real, y: real)
    requires a != 0.0 && y == a * x && y == a
    ensures x == 1.0
  {
    assert a * (x - 1.0) == 0.0;
    ProductZero(a, x - 1.0);
  }

  /** A non-negative root of `x` is zero exactly when `x` is. */
  lemma RootZero(l: real, x: real)
    requires 0.0 <= l && l * l == x
    ensures l == 0.0 <==> x == 0.0
  {
    if x == 0.0 {
      SquareZero(l);
    }
  }

  /** A product of non-negatives at most 1 has its square at most 1. */
  lemma ProductSquareAtMostOne(a: real, b: real)
    requires 0.0 <= a && 0.0 <= b && a * b <= 1.0
    ensures a * a * (b * b) <= 1.0
  {
    assert 0.0 <= a * b;
    SquareLe(a * b, 1.0);
    assert (a * b) * (a * b) == a * a * (b * b);
  }

  /** Each term of a sum of three squares below `b^2` is below `b` in absolute value. */
  lemma ComponentBelow(x: real, y: real, z: real, b: real)
    requires 0.0 < b && x * x + y * y + z * z < b * b
    ensures Abs(x) < b
  {
    NonNegativesBoundFirst(x * x, y * y, z * z, b * b);
    if b <= Abs(x) {
      SquareLe(b, Abs(x));
      SquareOfAbs(x);
    }
  }

  lemma NonNegativesBoundFirst(a: real, p: real, q: real, m: real)
    requires 0.0 <= p && 0.0 <= q && a + p + q < m
    ensures a < m
  {
  }

  /** The reciprocal of a positive number is positive. */
  lemma ReciprocalPositive(a: real, b: real)
    requires 0.0 < b && a * b == 1.0
    ensures 0.0 < a
  {
  }
}
