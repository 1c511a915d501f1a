/**
  The fixed-point and hexadecimal helpers of the Python test suite
  (tests/utils.py): `fix`, `unfix`, `longToHexString`, `bytesToLong` and
  `bytesToHexString`.  `Decimal` multiplication follows Python's default
  context: 28 significant digits, rounded half to even.  Python 2's `int`
  and `long` are told apart where `hex()` tells them apart.
 */
module TestUtils {
  import opened Wrappers
  import opened Hex

  /** 10^18, the fixed-point unit of the contracts. */
  const ONE: nat := 1_000_000_000_000_000_000

  /** The precision of Python's default decimal context, in significant digits. */
  const PRECISION: nat := 28

  function Pow10(e: nat): (r: nat)
    ensures r >= 1
  {
    if e == 0 then 1 else 10 * Pow10(e - 1)
  }

  lemma {:induction false} Pow10Add(a: nat, b: nat)
    ensures Pow10(a + b) == Pow10(a) * Pow10(b)
  {
    if a > 0 {
      Pow10Add(a - 1, b);
      assert Pow10(a + b) == 10 * Pow10(a - 1 + b);
    }
  }

  lemma Pow10Sum(a: nat, b: nat, n: nat)
    requires a + b == n
    ensures Pow10(n) == Pow10(a) * Pow10(b)
  {
    Pow10Add(a, b);
  }

  lemma Pow10Mono(a: nat, b: nat)
    requires a <= b
    ensures Pow10(a) <= Pow10(b)
  {
    Pow10Add(a, b - a);
    MulAtLeast(Pow10(b - a), Pow10(a));
  }

  lemma Pow10Below(a: nat, b: nat)
    requires Pow10(a) < Pow10(b)
    ensures a < b
  {
    if a >= b {
      Pow10Mono(b, a);
    }
  }

  lemma Pow10Of18()
    ensures Pow10(18) == ONE
  {
    assert Pow10(6) == 1_000_000;
    Pow10Add(6, 6);
    Pow10Add(12, 6);
  }

  lemma Pow10Of28()
    ensures Pow10(28) == 10_000_000_000_000_000_000_000_000_000
  {
    Pow10Of18();
    assert Pow10(10) == 10_000_000_000 by {
      assert Pow10(5) == 100_000;
      Pow10Add(5, 5);
    }
    Pow10Add(18, 10);
  }

  function Abs(x: int): nat { if x < 0 then -x else x }

  /** The number of decimal digits of c, none for 0. */
  function NumDigits(c: nat): (r: nat)
    ensures c < Pow10(r)
    ensures c > 0 ==> r >= 1 && Pow10(r - 1) <= c
  {
    if c == 0 then 0 else 1 + NumDigits(c / 10)
  }

  /** A number between consecutive powers of ten has the digits of the larger. */
  lemma NumDigitsIs(c: nat, n: nat)
    requires n >= 1 && Pow10(n - 1) <= c < Pow10(n)
    ensures NumDigits(c) == n
  {
    var r := NumDigits(c);
    if r < n {
      Pow10Mono(r, n - 1);
    } else if r > n {
      Pow10Mono(n, r - 1);
    }
  }

  lemma NumDigitsBelow(c: nat, m: nat)
    requires c < Pow10(m)
    ensures NumDigits(c) <= m
  {
    if c > 0 {
      var r := NumDigits(c);
      Pow10Below(r - 1, m);
    }
  }

  lemma {:induction false} NumDigitsShift(c: nat, j: nat)
    requires c > 0
    ensures NumDigits(c * Pow10(j)) == NumDigits(c) + j
  {
    if j > 0 {
      NumDigitsShift(c, j - 1);
      var p := Pow10(j - 1);
      var x := c * p;
      MulAtLeast(p, c);
      MulRegroup(c, 10, p);
      assert c * Pow10(j) == x * 10;
      assert (x * 10) / 10 == x;
    }
  }

  /** A `Decimal` built from a string or an integer: exactly digits / 10^scale (construction does not round). */
  datatype Decimal = Decimal(digits: int, scale: nat)

  /** A whole number as a Decimal, as `Decimal('12')` or `Decimal(12)` gives. */
  function Whole(k: int): Decimal { Decimal(k, 0) }

  /** A decimal as the context arithmetic holds it: coefficient * 10^exponent. */
  datatype Scaled = Scaled(coefficient: int, exponent: int)

  function Exact(d: Decimal): Scaled { Scaled(d.digits, -(d.scale as int)) }

  /** a / b rounded to the nearest integer, a tie going to the even neighbour (ROUND_HALF_EVEN). */
  function RoundHalfEven(a: int, b: nat): int
    requires b > 0
    decreases if a < 0 then 1 else 0
  {
    if a < 0 then -RoundHalfEven(-a, b)
    else
      var q, r := a / b, a % b;
      if 2 * r > b || (2 * r == b && q % 2 == 1) then q + 1 else q
  }

  /** q is a / b rounded to the nearest integer, the even one on a tie, and one of the two around the exact quotient. */
  ghost predicate NearestEven(a: int, b: nat, q: int)
    requires b > 0
  {
    Nearest(a, b, q) && Between(a, b, q)
  }

  ghost predicate Nearest(a: int, b: nat, q: int)
  {
    2 * Abs(a - q * b) <= b && (2 * Abs(a - q * b) == b ==> q % 2 == 0)
  }

  ghost predicate Between(a: int, b: nat, q: int)
    requires b > 0
  {
    Abs(q) == Abs(a) / b || Abs(q) == Abs(a) / b + 1
  }

  lemma RoundHalfEvenNearest(a: int, b: nat)
    requires b > 0
    ensures NearestEven(a, b, RoundHalfEven(a, b))
  {
    if a < 0 {
      RoundDownNearest(a, b);
    } else {
      RoundUpNearest(a, b, a / b, a % b);
    }
  }

  lemma RoundDownNearest(a: int, b: nat)
    requires b > 0 && a < 0
    ensures NearestEven(a, b, RoundHalfEven(a, b))
  {
    var p := RoundHalfEven(-a, b);
    RoundUpNearest(-a, b, (-a) / b, (-a) % b);
    NearestNegated(a, b, p);
  }

  lemma NearestNegated(a: int, b: nat, p: int)
    requires b > 0 && NearestEven(-a, b, p)
    ensures NearestEven(a, b, -p)
  {
    assert a - (-p) * b == -((-a) - p * b);
  }

  lemma RoundUpNearest(a: nat, b: nat, q: nat, r: nat)
    requires b > 0 && q == a / b && r == a % b
    ensures NearestEven(a, b, RoundHalfEven(a, b))
  {
    assert a == q * b + r && r < b;
    if 2 * r > b || (2 * r == b && q % 2 == 1) {
      assert RoundHalfEven(a, b) == q + 1;
      NearestAbove(a, b, q, r);
    } else {
      assert RoundHalfEven(a, b) == q;
      assert a - q * b == r;
    }
  }

  lemma NearestAbove(a: nat, b: nat, q: nat, r: nat)
    requires b > 0 && q == a / b && a == q * b + r && r < b
    requires 2 * r > b || (2 * r == b && q % 2 == 1)
    ensures NearestEven(a, b, q + 1)
  {
    assert (q + 1) * b == q * b + b;
    assert a - (q + 1) * b == r - b;
  }

  lemma RoundHalfEvenExact(q: int, b: nat)
    requires b > 0
    ensures RoundHalfEven(q * b, b) == q
    decreases if q < 0 then 1 else 0
  {
    if q < 0 {
      NegMul(q, b);
      RoundHalfEvenExact(-q, b);
    } else {
      var a := q * b;
      DivUnique(a, b, q);
      assert a % b == 0;
    }
  }

  lemma NegMul(q: int, b: int)
    ensures -(q * b) == (-q) * b
  {
  }

  /** The context's rounding of an exact result to PRECISION significant digits, half to even. */
  function Round(x: Scaled): Scaled
  {
    var n := NumDigits(Abs(x.coefficient));
    if n <= PRECISION then x
    else Scaled(RoundHalfEven(x.coefficient, Pow10(n - PRECISION)), x.exponent + (n - PRECISION))
  }

  /** A rounded result has at most PRECISION digits (10^PRECISION itself when the rounding carries); a result that fits is kept. */
  lemma RoundWithinPrecision(x: Scaled)
    ensures NumDigits(Abs(x.coefficient)) <= PRECISION ==> Round(x) == x
    ensures Abs(Round(x).coefficient) <= Pow10(PRECISION)
  {
    var n := NumDigits(Abs(x.coefficient));
    if n <= PRECISION {
      Pow10Mono(n, PRECISION);
    } else {
      RoundBounded(x, n);
    }
  }

  lemma RoundBounded(x: Scaled, n: nat)
    requires n == NumDigits(Abs(x.coefficient)) && n > PRECISION
    ensures Abs(Round(x).coefficient) <= Pow10(PRECISION)
  {
    var c, k := x.coefficient, n - PRECISION;
    var a, b, p := Abs(c), Pow10(k), Pow10(PRECISION);
    var q := RoundHalfEven(c, b);
    assert Round(x) == Scaled(q, x.exponent + k);
    Pow10Sum(PRECISION, k, n);
    assert a < p * b;
    DivBelow(a, b, p);
    RoundHalfEvenNearest(c, b);
    BetweenBelow(c, b, q, p);
  }

  lemma BetweenBelow(c: int, b: nat, q: int, p: int)
    requires b > 0 && Between(c, b, q) && Abs(c) / b < p
    ensures Abs(q) <= p
  {
  }

  /** A context multiplication: the exact product, rounded. */
  function Mul(x: Scaled, y: Scaled): Scaled
  {
    Round(Scaled(x.coefficient * y.coefficient, x.exponent + y.exponent))
  }

  /** Python's `long()` of an exact quotient a / b: it truncates toward zero. */
  function TruncDiv(a: int, b: nat): int
    requires b > 0
  {
    if a >= 0 then a / b else -((-a) / b)
  }

  /** The truncated quotient lies between zero and the exact quotient. */
  lemma TruncDivTowardZero(a: int, b: nat)
    requires b > 0
    ensures var q := TruncDiv(a, b);
      (a >= 0 ==> 0 <= q && q * b <= a < q * b + b) &&
      (a < 0 ==> q <= 0 && q * b - b < a <= q * b)
  {
    if a < 0 {
      var p := (-a) / b;
      DivNonNegative(-a, b);
      NegMul(p, b);
    } else {
      DivNonNegative(a, b);
    }
  }

  lemma DivNonNegative(a: nat, b: nat)
    requires b > 0
    ensures a / b >= 0 && (a / b) * b <= a < (a / b) * b + b
  {
    var q := a / b;
    if q < 0 {
      MulMono(q, -1, b);
    }
  }

  /** Python's `long()` of a decimal. */
  function ToLong(x: Scaled): int
  {
    if x.exponent >= 0 then x.coefficient * Pow10(x.exponent)
    else TruncDiv(x.coefficient, Pow10(-x.exponent))
  }

  /** `fix(n, m) = long(Decimal(n) * Decimal(m) * 10**18)`: two context multiplications, then truncation. */
  function Fix(n: Decimal, m: Decimal := Whole(1)): int
  {
    ToLong(Mul(Mul(Exact(n), Exact(m)), Scaled(ONE, 0)))
  }

  /** The first multiplication of `fix`, by one, only rounds. */
  lemma FixThrough(n: Decimal, r: Scaled)
    requires Round(Exact(n)) == r
    ensures Fix(n) == ToLong(Mul(r, Scaled(ONE, 0)))
  {
    assert Mul(Exact(n), Exact(Whole(1))) == Round(Exact(n));
  }

  /** `unfix(n) = n // 10**18`: floor division (Dafny's `/` floors for a positive divisor). */
  function Unfix(n: int): (r: int)
    ensures r * ONE <= n < r * ONE + ONE
  {
    n / ONE
  }

  /** An integer rounded to PRECISION significant digits, half to even: what a context operation keeps of it. */
  function Significant(k: int): (r: int)
    ensures Abs(k) < Pow10(PRECISION) ==> r == k
  {
    var n := NumDigits(Abs(k));
    if n <= PRECISION then k
    else
      NumDigitsAbove(Abs(k), PRECISION);
      RoundHalfEven(k, Pow10(n - PRECISION)) * Pow10(n - PRECISION)
  }

  /** Rounding to PRECISION digits is off by at most half a unit in the last kept digit. */
  lemma SignificantClose(k: int)
    ensures 2 * Abs(k - Significant(k)) * Pow10(PRECISION - 1) <= Abs(k)
  {
    var n := NumDigits(Abs(k));
    if n > PRECISION {
      SignificantCloseRounded(k, n);
    }
  }

  lemma SignificantCloseRounded(k: int, n: nat)
    requires n == NumDigits(Abs(k)) && n > PRECISION
    ensures 2 * Abs(k - Significant(k)) * Pow10(PRECISION - 1) <= Abs(k)
  {
    var b := Pow10(n - PRECISION);
    SignificantWithinHalf(k, n, b);
    HalfUnitBound(n, b, 2 * Abs(k - Significant(k)), Abs(k));
  }

  /** An error of at most b = 10^(n-PRECISION) is small against a number of n digits. */
  lemma HalfUnitBound(n: nat, b: nat, err: int, c: nat)
    requires n == NumDigits(c) && n > PRECISION && b == Pow10(n - PRECISION) && err <= b
    ensures err * Pow10(PRECISION - 1) <= c
  {
    Pow10Sum(n - PRECISION, PRECISION - 1, n - 1);
    CloseBound(err, b, Pow10(PRECISION - 1), Pow10(n - 1), c);
  }

  lemma SignificantWithinHalf(k: int, n: nat, b: nat)
    requires n == NumDigits(Abs(k)) && n > PRECISION && b == Pow10(n - PRECISION)
    ensures 2 * Abs(k - Significant(k)) <= b
  {
    var q := RoundHalfEven(k, b);
    SignificantOfLong(k, n);
    RoundHalfEvenNearest(k, b);
    NearestWithin(k, b, q);
  }

  lemma NearestWithin(k: int, b: nat, q: int)
    requires Nearest(k, b, q)
    ensures 2 * Abs(k - q * b) <= b
  {
  }

  lemma CloseBound(err: int, b: int, p: nat, m: int, k: int)
    requires err <= b && b * p == m && m <= k
    ensures err * p <= k
  {
    MulMono(err, b, p);
  }

  lemma NumDigitsAbove(c: nat, m: nat)
    requires NumDigits(c) > m
    ensures c >= Pow10(m)
  {
    Pow10Mono(m, NumDigits(c) - 1);
  }

  /** Moving powers of ten between coefficient and exponent does not change what `long()` gives. */
  lemma LongShift(c: int, j: nat, e: int, f: int)
    requires f == e + j
    ensures ToLong(Scaled(c * Pow10(j), e)) == ToLong(Scaled(c, f))
  {
    if e >= 0 {
      LongShiftWhole(c, j, e, f);
    } else if f >= 0 {
      LongShiftAcross(c, j, e, f);
    } else {
      LongShiftFraction(c, j, e, f);
    }
  }

  lemma LongShiftWhole(c: int, j: nat, e: nat, f: nat)
    requires f == e + j
    ensures ToLong(Scaled(c * Pow10(j), e)) == ToLong(Scaled(c, f))
  {
    var u, v, w := Pow10(j), Pow10(e), Pow10(f);
    Pow10Sum(j, e, f);
    MulAssocOf(c, u, v, w);
  }

  lemma LongShiftAcross(c: int, j: nat, e: int, f: nat)
    requires e < 0 && f == e + j
    ensures ToLong(Scaled(c * Pow10(j), e)) == ToLong(Scaled(c, f))
  {
    var u, v, p := Pow10(-e), Pow10(f), Pow10(j);
    Pow10Sum(f, -e, j);
    TruncDivOfProduct(c, v, u, p);
  }

  lemma LongShiftFraction(c: int, j: nat, e: int, f: int)
    requires f < 0 && f == e + j
    ensures ToLong(Scaled(c * Pow10(j), e)) == ToLong(Scaled(c, f))
  {
    var u, v := Pow10(j), Pow10(-f);
    Pow10Sum(-f, j, -e);
    TruncDivCancel(c, v, u);
  }

  lemma MulAssocOf(c: int, u: int, v: int, w: int)
    requires w == u * v
    ensures (c * u) * v == c * w
  {
  }

  lemma TruncDivOfProduct(c: int, v: int, u: nat, p: int)
    requires u > 0 && p == v * u
    ensures TruncDiv(c * p, u) == c * v
  {
    MulAssocOf(c, v, u, p);
    TruncDivExact(c * v, u);
  }

  lemma AbsMul(c: int, p: nat)
    ensures Abs(c * p) == Abs(c) * p
  {
    if c < 0 {
      NegMul(c, p);
    }
  }

  /** Rounding a coefficient whose dropped digits are all zeros only moves them into the exponent. */
  lemma RoundDropsZeros(x: int, y: int, k: nat, e: int)
    requires k > 0 && x == y * Pow10(k) && NumDigits(Abs(x)) == PRECISION + k
    ensures Round(Scaled(x, e)) == Scaled(y, e + k)
  {
    RoundHalfEvenExact(y, Pow10(k));
  }

  /** The second multiplication of `fix`, by 10**18, only appends zeros, so its rounding loses nothing. */
  lemma TimesOneExact(c: int, e: int)
    requires Abs(c) <= Pow10(PRECISION)
    ensures ToLong(Mul(Scaled(c, e), Scaled(ONE, 0))) == ToLong(Scaled(c, e + 18))
  {
    Pow10Of18();
    var x := c * Pow10(18);
    assert Mul(Scaled(c, e), Scaled(ONE, 0)) == Round(Scaled(x, e));
    LongShift(c, 18, e, e + 18);
    if c != 0 {
      var n := NumDigits(Abs(c));
      NumDigitsShift(Abs(c), 18);
      AbsMul(c, Pow10(18));
      assert NumDigits(Abs(x)) == n + 18;
      if n + 18 > PRECISION {
        TimesOneRounds(c, e, x, n);
      }
    }
  }

  lemma TimesOneRounds(c: int, e: int, x: int, n: nat)
    requires Abs(c) <= Pow10(PRECISION) && x == c * Pow10(18)
    requires c != 0 && n == NumDigits(Abs(c)) && NumDigits(Abs(x)) == n + 18 && n + 18 > PRECISION
    ensures ToLong(Round(Scaled(x, e))) == ToLong(Scaled(c, e + 18))
  {
    var k := n + 18 - PRECISION;
    if k <= 18 {
      TimesOneDropsZeros(c, e, x, k);
    } else {
      assert Pow10(PRECISION + 1) == 10 * Pow10(PRECISION);
      NumDigitsBelow(Abs(c), PRECISION + 1);
      TimesOneCarried(c, e, x);
    }
  }

  lemma TimesOneDropsZeros(c: int, e: int, x: int, k: nat)
    requires x == c * Pow10(18) && 0 < k <= 18 && NumDigits(Abs(x)) == PRECISION + k
    ensures ToLong(Round(Scaled(x, e))) == ToLong(Scaled(c, e + 18))
  {
    var j: nat := 18 - k;
    var y := c * Pow10(j);
    LongShift(c, j, e + k, e + 18);
    SplitShift(c, x, k);
    RoundDropsZeros(x, y, k, e);
  }

  lemma SplitShift(c: int, x: int, k: nat)
    requires x == c * Pow10(18) && k <= 18
    ensures x == (c * Pow10(18 - k)) * Pow10(k)
  {
    Pow10Sum(18 - k, k, 18);
    MulAssocOf(c, Pow10(18 - k), Pow10(k), Pow10(18));
  }

  /** A coefficient rounded up to 10^PRECISION has one digit too many, all zeros but the first. */
  lemma TimesOneCarried(c: int, e: int, x: int)
    requires Abs(c) <= Pow10(PRECISION) && x == c * Pow10(18)
    requires NumDigits(Abs(c)) == PRECISION + 1 && NumDigits(Abs(x)) == PRECISION + 19
    ensures ToLong(Round(Scaled(x, e))) == ToLong(Scaled(c, e + 18))
  {
    NumDigitsAbove(Abs(c), PRECISION);
    var p: int := Pow10(27);
    var y := if c > 0 then p else -p;
    Pow10Sum(27, 1, 28);
    assert c == y * Pow10(1);
    Pow10Sum(1, 18, 19);
    MulAssocOf(y, Pow10(1), Pow10(18), Pow10(19));
    RoundDropsZeros(x, y, 19, e);
    LongShift(y, 1, e + 18, e + 19);
  }

  /**
    `fix` of a decimal with at most 18 fractional digits is its digits rounded
    to PRECISION significant ones, scaled by 10^18; with at most PRECISION
    digits it is exact.
   */
  lemma FixExact(d: int, s: nat)
    requires s <= 18
    ensures Fix(Decimal(d, s)) == Significant(d) * Pow10(18 - s)
    ensures Abs(d) < Pow10(PRECISION) ==> Fix(Decimal(d, s)) == d * Pow10(18 - s)
  {
    var x := Scaled(d, -(s as int));
    var r := Round(x);
    assert Mul(Exact(Decimal(d, s)), Exact(Whole(1))) == r;
    RoundWithinPrecision(x);
    TimesOneExact(r.coefficient, r.exponent);
    var n := NumDigits(Abs(d));
    if n > PRECISION {
      FixRoundsDigits(d, s, n, r);
    } else {
      FixKeepsDigits(d, s, n, r);
    }
  }

  lemma FixKeepsDigits(d: int, s: nat, n: nat, r: Scaled)
    requires s <= 18 && n == NumDigits(Abs(d)) && n <= PRECISION && r == Round(Scaled(d, -(s as int)))
    ensures ToLong(Scaled(r.coefficient, r.exponent + 18)) == Significant(d) * Pow10(18 - s)
  {
    RoundWithinPrecision(Scaled(d, -(s as int)));
    assert r == Scaled(d, -(s as int));
    assert Significant(d) == d;
  }

  lemma FixRoundsDigits(d: int, s: nat, n: nat, r: Scaled)
    requires s <= 18 && n == NumDigits(Abs(d)) && n > PRECISION && r == Round(Scaled(d, -(s as int)))
    ensures ToLong(Scaled(r.coefficient, r.exponent + 18)) == Significant(d) * Pow10(18 - s)
  {
    var k := n - PRECISION;
    var q := RoundHalfEven(d, Pow10(k));
    RoundOfLong(Scaled(d, -(s as int)), n);
    SignificantOfLong(d, n);
    ScaleOut(q, k, 18 - s, r.exponent + 18);
  }

  lemma RoundOfLong(x: Scaled, n: nat)
    requires n == NumDigits(Abs(x.coefficient)) && n > PRECISION
    ensures Round(x) == Scaled(RoundHalfEven(x.coefficient, Pow10(n - PRECISION)), x.exponent + (n - PRECISION))
  {
  }

  lemma SignificantOfLong(d: int, n: nat)
    requires n == NumDigits(Abs(d)) && n > PRECISION
    ensures Significant(d) == RoundHalfEven(d, Pow10(n - PRECISION)) * Pow10(n - PRECISION)
  {
  }

  lemma ScaleOut(q: int, j: nat, i: nat, f: int)
    requires f == j + i
    ensures ToLong(Scaled(q, f)) == (q * Pow10(j)) * Pow10(i)
  {
    Pow10Sum(j, i, f);
    MulAssocOf(q, Pow10(j), Pow10(i), Pow10(f));
  }

  /** Within the precision nothing is rounded, for any number of fractional digits: only `long()` truncates. */
  lemma FixWithinPrecision(d: int, s: nat)
    requires Abs(d) < Pow10(PRECISION)
    ensures Fix(Decimal(d, s)) == ToLong(Scaled(d, 18 - s))
  {
    var e: int := -(s as int);
    var x := Scaled(d, e);
    NumDigitsBelow(Abs(d), PRECISION);
    RoundWithinPrecision(x);
    FixThrough(Decimal(d, s), x);
    TimesOneExact(d, e);
    assert Scaled(d, e + 18) == Scaled(d, 18 - s);
  }

  lemma MulAssoc(a: int, b: int, c: int)
    ensures a * (b * c) == (a * b) * c
  {
  }

  lemma MulRegroup(a: int, b: int, c: int)
    ensures a * (b * c) == (a * c) * b
  {
  }

  lemma TruncDivExact(q: int, b: nat)
    requires b > 0
    ensures TruncDiv(q * b, b) == q
  {
    if q < 0 {
      assert -(q * b) == (-q) * b;
      DivUnique((-q) * b, b, -q);
    } else {
      DivUnique(q * b, b, q);
    }
  }

  /** Scaling numerator and divisor alike does not change a truncated quotient. */
  lemma TruncDivCancel(c: int, q: nat, p: nat)
    requires q > 0 && p > 0
    ensures TruncDiv(c * p, q * p) == TruncDiv(c, q)
  {
    if c >= 0 {
      FloorDivCancel(c, q, p);
    } else {
      assert -(c * p) == (-c) * p;
      FloorDivCancel(-c, q, p);
    }
  }

  lemma FloorDivCancel(a: nat, q: nat, p: nat)
    requires q > 0 && p > 0
    ensures (a * p) / (q * p) == a / q
  {
    var t := a / q;
    assert t * q <= a < t * q + q;
    MulMono(t * q, a, p);
    MulMono(a + 1, t * q + q, p);
    assert (t * q) * p == t * (q * p);
    assert (t * q + q) * p == t * (q * p) + q * p;
    DivUnique(a * p, q * p, t);
  }

  /** Floor division is determined by its bounds. */
  lemma DivUnique(a: int, b: int, q: int)
    requires b > 0 && q * b <= a < q * b + b
    ensures a / b == q
  {
    var r := a / b;
    assert r * b <= a < r * b + b;
    if r > q {
      assert r * b - q * b == (r - q) * b;
      MulAtLeast(r - q, b);
    } else if r < q {
      assert q * b - r * b == (q - r) * b;
      MulAtLeast(q - r, b);
    }
  }

  lemma DivBelow(a: nat, b: nat, p: nat)
    requires b > 0 && a < p * b
    ensures a / b < p
  {
    if a / b >= p {
      MulMono(p, a / b, b);
    }
  }

  lemma MulMono(x: int, y: int, p: nat)
    requires x <= y
    ensures x * p <= y * p
  {
    assert y * p - x * p == (y - x) * p;
  }

  lemma MulAtLeast(x: int, b: int)
    requires x >= 1 && b >= 0
    ensures x * b >= b
  {}

  /** `unfix` undoes `fix` on whole numbers up to the precision; a longer one comes back rounded. */
  lemma UnfixFix(k: int)
    ensures Unfix(Fix(Whole(k))) == Significant(k)
    ensures Abs(k) < Pow10(PRECISION) ==> Unfix(Fix(Whole(k))) == k
  {
    FixWhole(k);
  }

  /** `fix` of a whole number is the number rounded to PRECISION digits, times 10^18. */
  lemma FixWhole(k: int)
    ensures Fix(Whole(k)) == Significant(k) * ONE
  {
    FixExact(k, 0);
    Pow10Of18();
  }

  lemma FixWholeIs(k: int, g: int)
    requires Significant(k) == g
    ensures Fix(Whole(k)) == g * ONE
  {
    FixWhole(k);
  }

  /** More than 18 fractional digits are cut off toward zero, not floored: fix(-0.5e-18) is 0, not -1. */
  lemma FixTruncatesTowardZero()
    ensures Fix(Decimal(-5, 19)) == 0
    ensures Fix(Decimal(5, 19)) == 0
    ensures Fix(Decimal(-15, 19)) == -1
  {
    Pow10Of28();
    FixWithinPrecision(-5, 19);
    FixWithinPrecision(5, 19);
    FixWithinPrecision(-15, 19);
  }

  /** Past PRECISION significant digits `fix` rounds: fix(10**28 + 1) is 10**28 * 10**18. */
  lemma FixRoundsPastPrecision(big: int)
    requires big == Pow10(28) + 1
    ensures Fix(Whole(big)) == (big - 1) * ONE
  {
    SignificantDropsOne(big);
    FixWholeIs(big, big - 1);
  }

  /** So `unfix` does not give 10**28 + 1 back. */
  lemma UnfixFixLosesDigit(big: int)
    requires big == Pow10(28) + 1
    ensures Unfix(Fix(Whole(big))) == big - 1
  {
    SignificantDropsOne(big);
    UnfixFix(big);
  }

  lemma SignificantDropsOne(big: int)
    requires big == Pow10(28) + 1
    ensures Significant(big) == Pow10(28)
  {
    Pow10Of28();
    NumDigitsIs(big, 29);
    var b := Pow10(1);
    assert b == 10;
    var q := RoundHalfEven(big, b);
    assert q == big / 10;
    assert Significant(big) == q * b;
  }

  /** A 29-digit decimal with 18 fractional digits loses its last digit, rounded half to even. */
  lemma FixRoundsLastDigit()
    ensures Fix(Decimal(12_345_678_901_123_456_789_012_345_678, 18)) == 12_345_678_901_123_456_789_012_345_680
  {
    Pow10Of28();
    var d := 12_345_678_901_123_456_789_012_345_678;
    NumDigitsIs(d, 29);
    assert Significant(d) == RoundHalfEven(d, 10) * 10;
    FixExact(d, 18);
  }

  // ---------------------------------------------------------------------
  // Hexadecimal strings

  /** The digits of Python's `hex(v)` for v >= 0: no leading zeros, "0" for zero. */
  function HexDigits(v: nat): (s: string)
    ensures |s| >= 1 && (s[0] == '0' ==> v == 0)
    ensures forall i :: 0 <= i < |s| ==> IsHexDigit(s[i])
  {
    if v < 16 then [Digit(v)] else HexDigits(v / 16) + [Digit(v % 16)]
  }

  /** A Python 2 integer: an `int` or a `long`. */
  datatype Integer = Int(value: int) | Long(value: int)

  /** Python 2's `hex()`: the sign, "0x", the digits, and a trailing "L" for a long. */
  function PyHex(v: Integer): (h: string)
    ensures |h| >= 3
  {
    (if v.value < 0 then "-" else "") + "0x" + HexDigits(Abs(v.value)) + (if v.Long? then "L" else "")
  }

  /** `long(s, 16)`: the value of a string of hexadecimal digits, most significant first. */
  function ParseHex(s: string): nat
    requires forall i :: 0 <= i < |s| ==> IsHexDigit(s[i])
  {
    if s == [] then 0 else ParseHex(s[..|s| - 1]) * 16 + DigitValue(s[|s| - 1])
  }

  lemma {:induction false} ParseHexDigits(v: nat)
    ensures ParseHex(HexDigits(v)) == v
  {
    if v >= 16 {
      ParseHexDigits(v / 16);
      var s := HexDigits(v);
      assert s[..|s| - 1] == HexDigits(v / 16);
    }
  }

  /** What the slice `[2:-1]` leaves of `hex(v)`: the "x" of a negative's "-0x", then the digits less the "L" of a long or the last digit of an int. */
  lemma HexSlice(v: Integer)
    ensures var h, d := PyHex(v), HexDigits(Abs(v.value));
      h[2..|h| - 1] == (if v.value < 0 then "x" else "") + (if v.Long? then d else d[..|d| - 1])
  {
  }

  /** Without its last digit, the hexadecimal form of n is that of n / 16, or nothing for a single digit. */
  lemma HexDigitsButLast(n: nat)
    ensures var d := HexDigits(n); d[..|d| - 1] == (if n < 16 then "" else HexDigits(n / 16))
  {
  }

  /**
    `longToHexString(v) = hex(v)[2:-1]`.  For a long the slice drops "0x" and
    the "L", and the digits left read back as the value.  An `int` has no "L",
    so the slice drops its last digit instead: what is left reads back as
    v / 16, and `longToHexString(0)` is the empty string.
   */
  function LongToHexString(v: Integer): string
  {
    var h := PyHex(v);
    h[2..|h| - 1]
  }

  /** For a long the digits are left, and they read back as the value. */
  lemma LongToHexStringOfLong(v: nat)
    ensures var r := LongToHexString(Long(v)); r == HexDigits(v) && ParseHex(r) == v
  {
    HexSlice(Long(v));
    ParseHexDigits(v);
  }

  /** For an int the last digit is gone: what is left reads back as v / 16. */
  lemma LongToHexStringOfInt(v: nat)
    ensures var r := LongToHexString(Int(v));
      r == (if v < 16 then "" else HexDigits(v / 16)) && ParseHex(r) == v / 16
  {
    HexSlice(Int(v));
    HexDigitsButLast(v);
    ParseHexDigits(v / 16);
  }

  /** For a negative number the slice starts at the "x" of "-0x". */
  lemma LongToHexStringOfNegative(v: Integer)
    requires v.value < 0
    ensures var r := LongToHexString(v); |r| >= 1 && r[0] == 'x'
  {
    HexSlice(v);
  }

  /** The tests read an erased order's creator against `longToHexString(0)`, an int: that is "", while the long 0 gives "0". */
  lemma LongToHexStringOfZero()
    ensures LongToHexString(Int(0)) == ""
    ensures LongToHexString(Long(0)) == "0"
    ensures LongToHexString(Int(255)) == "f"
    ensures LongToHexString(Long(255)) == "ff"
  {
    assert HexDigits(255) == HexDigits(15) + [Digit(15)];
  }

  /** The big-endian base-256 value of a byte string. */
  function BigEndian(bs: seq<byte>): nat
  {
    if bs == [] then 0 else BigEndian(bs[..|bs| - 1]) * 256 + bs[|bs| - 1]
  }

  lemma {:induction false} ParseHexlify(bs: seq<byte>)
    ensures ParseHex(Hexlify(bs)) == BigEndian(bs)
  {
    if bs != [] {
      var front, b := bs[..|bs| - 1], bs[|bs| - 1];
      var s := Hexlify(bs);
      var hi, lo := Digit(b / 16), Digit(b % 16);
      assert s == Hexlify(front) + [hi, lo];
      assert s[..|s| - 1] == Hexlify(front) + [hi];
      assert (Hexlify(front) + [hi])[..|Hexlify(front)|] == Hexlify(front);
      ParseHexlify(front);
      assert ParseHex(s) == (BigEndian(front) * 16 + b / 16) * 16 + b % 16;
    }
  }

  datatype Error = EmptyString

  /**
    `bytesToLong(value) = long(value.encode('hex'), 16)`: the big-endian value of the
    bytes.  Python raises a ValueError on `long('', 16)`, so no bytes is an error.
   */
  function BytesToLong(bs: seq<byte>): (r: Result<nat, Error>)
    ensures r.Err? <==> bs == []
    ensures r.Ok? ==> r.value == BigEndian(bs)
  {
    if bs == [] then Err(EmptyString)
    else
      ParseHexlify(bs);
      Ok(ParseHex(Hexlify(bs)))
  }

  /** `bytesToHexString(value) = longToHexString(bytesToLong(value))`. */
  function BytesToHexString(bs: seq<byte>): Result<string, Error>
  {
    match BytesToLong(bs)
    case Ok(v) => Ok(LongToHexString(Long(v)))
    case Err(e) => Err(e)
  }

  lemma {:induction false} BigEndianLeadingZero(bs: seq<byte>)
    ensures BigEndian([0] + bs) == BigEndian(bs)
  {
    if bs != [] {
      var s := [0] + bs;
      assert s[..|s| - 1] == [0] + bs[..|bs| - 1];
      BigEndianLeadingZero(bs[..|bs| - 1]);
    }
  }

  /**
    A leading zero byte is not represented in the result, so the string reads back
    as the value of the bytes, not as the bytes themselves.
   */
  lemma BytesToHexStringDropsLeadingZeros(bs: seq<byte>)
    requires bs != []
    ensures BytesToHexString([0] + bs) == BytesToHexString(bs)
    ensures BytesToHexString(bs).Ok? && ParseHex(BytesToHexString(bs).value) == BigEndian(bs)
  {
    BigEndianLeadingZero(bs);
    LongToHexStringOfLong(BigEndian(bs));
  }
}
