/**
 * The part of java.math.BigDecimal that the pricing rule uses: exact decimals as an unscaled
 * integer and a non-negative scale, with HALF_UP and HALF_EVEN rounding.
 */
module Decimal {

  /** The decimal unscaled / 10^scale. */
  datatype Dec = Dec(unscaled: int, scale: nat)

  const Zero: Dec := Dec(0, 0)
  const One: Dec := Dec(1, 0)

  function Pow10(n: nat): (r: nat)
    ensures r >= 1
  {
    if n == 0 then 1 else 10 * Pow10(n - 1)
  }

  lemma {:induction false} Pow10Add(a: nat, b: nat)
    ensures Pow10(a + b) == Pow10(a) * Pow10(b)
  {
    if a > 0 {
      Pow10Add(a - 1, b);
      assert Pow10(a + b) == 10 * Pow10(a - 1 + b);
    }
  }

  function Abs(x: int): nat
  {
    if x < 0 then -x else x
  }

  /** The mathematical value of a decimal. */
  ghost function Valor(d: Dec): real
  {
    d.unscaled as real / Pow10(d.scale) as real
  }

  // ---------------------------------------------------------------------------------------------
  // Integer division facts

  /** A multiple of b strictly between -b and b is zero. */
  lemma MultipleInside(k: int, b: int)
    requires b > 0 && -b < k * b < b
    ensures k == 0
  {
    if k >= 1 {
      MulAtLeast(k, b);
      assert false;
    } else if k <= -1 {
      assert (-k) * b == -(k * b);
      MulAtLeast(-k, b);
      assert false;
    }
  }

  lemma MulAtLeast(k: int, b: int)
    requires k >= 1 && b > 0
    ensures k * b >= b
  {
  }

  lemma DivUnique(a: int, b: int, q: int, r: int)
    requires b > 0 && 0 <= r < b && a == q * b + r
    ensures a / b == q && a % b == r
  {
    var q', r' := a / b, a % b;
    assert (q' - q) * b == r - r';
    MultipleInside(q' - q, b);
  }

  lemma MulStrict(a: int, b: int, c: int)
    requires a < b && c > 0
    ensures a * c < b * c
  {
    assert b * c - a * c == (b - a) * c;
    MulAtLeast(b - a, c);
  }

  lemma MulMono(a: int, b: int, c: int)
    requires a <= b && c >= 0
    ensures a * c <= b * c
  {
    assert b * c - a * c == (b - a) * c;
  }

  // ---------------------------------------------------------------------------------------------
  // Rounding

  /**
   * n / m rounded to an integer, ties away from zero (RoundingMode.HALF_UP). The ensures
   * clauses say that q * m lies within half of m from n, the tie going away from zero.
   */
  function RoundHalfUpDiv(n: int, m: int): (q: int)
    requires m > 0
    ensures n >= 0 ==> q >= 0 && 2 * n - m < 2 * m * q <= 2 * n + m
    ensures n < 0 ==> q <= 0 && 2 * n - m <= 2 * m * q < 2 * n + m
  {
    var a := (2 * Abs(n) + m) / (2 * m);
    assert 2 * m * a <= 2 * Abs(n) + m < 2 * m * a + 2 * m by {
      assert 2 * Abs(n) + m == a * (2 * m) + (2 * Abs(n) + m) % (2 * m);
    }
    if n < 0 then -a else a
  }

  /** A multiple of b below b is not positive. */
  lemma MulBelow(k: int, b: int)
    requires b > 0 && k * b < b
    ensures k <= 0
  {
    if k >= 1 {
      MulAtLeast(k, b);
      assert false;
    }
  }

  /** The rounding bounds determine the rounded quotient. */
  lemma RoundHalfUpUnique(n: int, m: int, q: int)
    requires m > 0
    requires n >= 0 ==> 2 * n - m < 2 * m * q <= 2 * n + m
    requires n < 0 ==> 2 * n - m <= 2 * m * q < 2 * n + m
    ensures RoundHalfUpDiv(n, m) == q
  {
    var p := RoundHalfUpDiv(n, m);
    assert (p - q) * (2 * m) == 2 * m * p - 2 * m * q;
    MultipleInside(p - q, 2 * m);
  }

  /** Rounding an exact quotient changes nothing. */
  lemma RoundHalfUpExact(q: int, m: int)
    requires m > 0
    ensures RoundHalfUpDiv(q * m, m) == q
  {
    assert 2 * m * q == 2 * (q * m);
    RoundHalfUpUnique(q * m, m, q);
  }

  lemma ScaleStrict(lo: int, x: int, hi: int, c: int)
    requires c > 0 && lo < x <= hi
    ensures lo * c < x * c <= hi * c
  {
    MulStrict(lo, x, c);
    MulMono(x, hi, c);
  }

  lemma ScaleStrictAbove(lo: int, x: int, hi: int, c: int)
    requires c > 0 && lo <= x < hi
    ensures lo * c <= x * c < hi * c
  {
    MulMono(lo, x, c);
    MulStrict(x, hi, c);
  }

  lemma CancelTerms(n: int, m: int, q: int, c: int)
    ensures 2 * (n * c) - m * c == (2 * n - m) * c
    ensures 2 * (n * c) + m * c == (2 * n + m) * c
    ensures 2 * (m * c) * q == (2 * m * q) * c
  {
  }

  /** A common positive factor of numerator and denominator does not change the rounding. */
  lemma RoundHalfUpCancel(n: int, m: int, c: int)
    requires m > 0 && c > 0
    ensures RoundHalfUpDiv(n * c, m * c) == RoundHalfUpDiv(n, m)
  {
    var q := RoundHalfUpDiv(n, m);
    CancelTerms(n, m, q, c);
    if n >= 0 {
      ScaleStrict(2 * n - m, 2 * m * q, 2 * n + m, c);
    } else {
      ScaleStrictAbove(2 * n - m, 2 * m * q, 2 * n + m, c);
    }
    assert n * c >= 0 <==> n >= 0 by {
      if n < 0 { MulStrict(n, 0, c); } else { MulMono(0, n, c); }
    }
    RoundHalfUpUnique(n * c, m * c, q);
  }

  /** HALF_UP rounding is monotone in the numerator. */
  lemma RoundHalfUpMono(n1: int, n2: int, m: int)
    requires m > 0 && n1 <= n2
    ensures RoundHalfUpDiv(n1, m) <= RoundHalfUpDiv(n2, m)
  {
    var q1, q2 := RoundHalfUpDiv(n1, m), RoundHalfUpDiv(n2, m);
    MonoGap(2 * m * q1, 2 * m * q2, n1, n2, m);
    Distribute(q1, q2, 2 * m);
    MulBelow(q1 - q2, 2 * m);
  }

  /** One of the two rounding bounds is strict, so the rounded values lie less than 2m apart. */
  lemma MonoGap(a1: int, a2: int, n1: int, n2: int, m: int)
    requires m > 0 && n1 <= n2
    requires n1 >= 0 ==> a1 <= 2 * n1 + m
    requires n1 < 0 ==> a1 < 2 * n1 + m
    requires n2 >= 0 ==> a2 > 2 * n2 - m
    requires n2 < 0 ==> a2 >= 2 * n2 - m
    ensures a1 - a2 < 2 * m
  {
  }

  lemma Distribute(x: int, y: int, k: int)
    ensures (x - y) * k == k * x - k * y
  {
  }

  lemma HalfEvenMagnitude(x: nat, m: int, a: int, r: int, up: bool)
    requires m > 0 && x == a * m + r && 0 <= r < m && a >= 0
    requires up == (2 * r > m || (2 * r == m && a % 2 == 1))
    ensures var mag := if up then a + 1 else a;
      mag >= 0 && 2 * x - m <= 2 * m * mag <= 2 * x + m &&
      (2 * m * mag == 2 * x - m || 2 * m * mag == 2 * x + m ==> mag % 2 == 0)
  {
    assert 2 * m * a == 2 * x - 2 * r;
    assert 2 * m * (a + 1) == 2 * x - 2 * r + 2 * m;
  }

  lemma NegateEven(k: int)
    ensures (k % 2 == 0) == ((-k) % 2 == 0)
  {
    if k % 2 == 0 {
      assert -k == 2 * (-(k / 2));
    } else {
      assert -k == 2 * (-(k / 2) - 1) + 1;
    }
  }

  lemma HalfEvenNegative(n: int, m: int, mag: int)
    requires m > 0 && n < 0
    requires 2 * (-n) - m <= 2 * m * mag <= 2 * (-n) + m
    requires 2 * m * mag == 2 * (-n) - m || 2 * m * mag == 2 * (-n) + m ==> mag % 2 == 0
    ensures 2 * n - m <= 2 * m * (-mag) <= 2 * n + m
    ensures 2 * m * (-mag) == 2 * n - m || 2 * m * (-mag) == 2 * n + m ==> (-mag) % 2 == 0
  {
    assert 2 * m * (-mag) == -(2 * m * mag);
    NegateEven(mag);
  }

  /** The magnitude of |n| / m rounded half-even, before the sign is applied. */
  function HalfEvenMag(x: nat, m: int): int
    requires m > 0
  {
    var a, r := x / m, x % m;
    if 2 * r > m || (2 * r == m && a % 2 == 1) then a + 1 else a
  }

  lemma HalfEvenMagBounds(x: nat, m: int)
    requires m > 0
    ensures var mag := HalfEvenMag(x, m);
      mag >= 0 && 2 * x - m <= 2 * m * mag <= 2 * x + m &&
      (2 * m * mag == 2 * x - m || 2 * m * mag == 2 * x + m ==> mag % 2 == 0)
  {
    var a, r := x / m, x % m;
    assert x == a * m + r;
    HalfEvenMagnitude(x, m, a, r, 2 * r > m || (2 * r == m && a % 2 == 1));
  }

  /** n / m rounded to an integer, ties to the even neighbour (RoundingMode.HALF_EVEN). */
  function RoundHalfEvenDiv(n: int, m: int): (q: int)
    requires m > 0
    ensures n >= 0 ==> q >= 0
    ensures n < 0 ==> q <= 0
    ensures 2 * n - m <= 2 * m * q <= 2 * n + m
    ensures 2 * m * q == 2 * n - m || 2 * m * q == 2 * n + m ==> q % 2 == 0
  {
    var mag := HalfEvenMag(Abs(n), m);
    HalfEvenMagBounds(Abs(n), m);
    if n < 0 then
      HalfEvenNegative(n, m, mag);
      -mag
    else
      mag
  }

  // ---------------------------------------------------------------------------------------------
  // Arithmetic, with the scale rules of BigDecimal

  /** this.negate(): the same scale, and the exact opposite value. */
  function Negate(d: Dec): (r: Dec)
    ensures r.scale == d.scale && r.unscaled == -d.unscaled
    ensures Valor(r) == -Valor(d)
  {
    Dec(-d.unscaled, d.scale)
  }

  /** this.add(b): the exact sum, at the larger of the two scales. */
  function Add(a: Dec, b: Dec): (r: Dec)
    ensures r.scale == if a.scale >= b.scale then a.scale else b.scale
    ensures Valor(r) == Valor(a) + Valor(b)
  {
    var s := if a.scale >= b.scale then a.scale else b.scale;
    var x, y := a.unscaled * Pow10(s - a.scale), b.unscaled * Pow10(s - b.scale);
    ValorSameScale(x, y, s);
    ValorRescale(a.unscaled, a.scale, s - a.scale);
    ValorRescale(b.unscaled, b.scale, s - b.scale);
    Dec(x + y, s)
  }

  /** this.multiply(b): the exact product, at the sum of the scales. */
  function Multiply(a: Dec, b: Dec): (r: Dec)
    ensures r.scale == a.scale + b.scale
    ensures Valor(r) == Valor(a) * Valor(b)
  {
    var pa, pb := Pow10(a.scale), Pow10(b.scale);
    Pow10Add(a.scale, b.scale);
    RealOfProduct(pa, pb);
    RealOfProduct(a.unscaled, b.unscaled);
    RealFractions(a.unscaled as real, b.unscaled as real, pa as real, pb as real);
    Dec(a.unscaled * b.unscaled, a.scale + b.scale)
  }

  /**
   * this.setScale(t, HALF_UP): the same value when t is at least the scale, otherwise the
   * value rounded to t decimal places.
   */
  function SetScale(d: Dec, t: nat): (r: Dec)
    ensures r.scale == t
    ensures r.unscaled == RoundHalfUpDiv(d.unscaled * Pow10(t), Pow10(d.scale))
  {
    if t >= d.scale then
      Pow10Add(t - d.scale, d.scale);
      assert d.unscaled * Pow10(t) == (d.unscaled * Pow10(t - d.scale)) * Pow10(d.scale);
      RoundHalfUpExact(d.unscaled * Pow10(t - d.scale), Pow10(d.scale));
      Dec(d.unscaled * Pow10(t - d.scale), t)
    else
      Pow10Add(d.scale - t, t);
      assert d.unscaled * Pow10(t) == d.unscaled * Pow10(t);
      RoundHalfUpCancel(d.unscaled, Pow10(d.scale - t), Pow10(t));
      Dec(RoundHalfUpDiv(d.unscaled, Pow10(d.scale - t)), t)
  }

  /**
   * this.divide(b, t, HALF_UP): the quotient rounded to t decimal places. BigDecimal throws
   * ArithmeticException for a zero divisor; the only caller divides by 100.
   */
  function Divide(a: Dec, b: Dec, t: nat): (r: Dec)
    requires b.unscaled != 0
    ensures r.scale == t
    ensures b.unscaled > 0 ==>
      r.unscaled == RoundHalfUpDiv(a.unscaled * Pow10(t + b.scale), b.unscaled * Pow10(a.scale))
  {
    var num := a.unscaled * Pow10(t + b.scale);
    var den := b.unscaled * Pow10(a.scale);
    if den > 0 then Dec(RoundHalfUpDiv(num, den), t)
    else Dec(RoundHalfUpDiv(-num, -den), t)
  }

  /** compareTo(ZERO) == 0 */
  predicate IsZero(d: Dec)
  {
    d.unscaled == 0
  }

  // ---------------------------------------------------------------------------------------------
  // The arithmetic is exact

  lemma RealCancel(x: real, p: real, q: real)
    requires p > 0.0 && q > 0.0
    ensures (x * p) / (p * q) == x / q
  {
  }

  lemma RealOfProduct(a: int, b: int)
    ensures (a * b) as real == a as real * b as real
  {
  }

  lemma ValorRescale(u: int, s: nat, k: nat)
    ensures Valor(Dec(u * Pow10(k), s + k)) == Valor(Dec(u, s))
  {
    var pk, ps := Pow10(k), Pow10(s);
    Pow10Add(k, s);
    RealOfProduct(pk, ps);
    RealOfProduct(u, pk);
    RealCancel(u as real, pk as real, ps as real);
  }

  lemma ValorSameScale(x: int, y: int, s: nat)
    ensures Valor(Dec(x + y, s)) == Valor(Dec(x, s)) + Valor(Dec(y, s))
  {
  }

  lemma RealFractions(x: real, y: real, p: real, q: real)
    requires p > 0.0 && q > 0.0
    ensures (x * y) / (p * q) == (x / p) * (y / q)
  {
  }
}
