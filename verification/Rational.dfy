/**
 Exact rationals over unsigned 64-bit integers: reduction, cross-reduced products and a
 comparison by continued fractions that never forms a product.
 */
module Rational {
  import opened Arith
  import opened Prelude

  datatype RationalError = ZeroDenominator | Overflow

  datatype Fraction = Fraction(numerator: u64, denominator: u64)

  // ---------------------------------------------------------------- divisors

  /** The library's greatest common divisor. */
  function Gcd(a: nat, b: nat): (g: nat)
    ensures b > 0 ==> 0 < g
    ensures a > 0 ==> 0 < g
    decreases b
  {
    if b == 0 then a else Gcd(b, a % b)
  }

  ghost predicate Divides(d: int, n: int) { exists k :: Times(k, d) == n }

  function Times(k: int, d: int): int { k * d }

  lemma DividesBy(k: int, d: int)
    ensures Divides(d, k * d)
  {
    assert Times(k, d) == k * d;
  }

  lemma Quotient(d: nat, n: nat)
    requires d > 0 && Divides(d, n)
    ensures n == n / d * d && n / d <= n
  {
    var k :| Times(k, d) == n;
    DivisionUnique(n, d, k, 0);
    if k < 0 {
      MulMono(k, -1, d);
      assert false;
    }
    MulMono(1, d, k);
  }

  lemma {:induction false} GcdDivides(a: nat, b: nat)
    ensures Divides(Gcd(a, b), a) && Divides(Gcd(a, b), b)
    decreases b
  {
    if b == 0 {
      DividesBy(1, a);
      DividesBy(0, a);
    } else {
      var g := Gcd(a, b);
      GcdDivides(b, a % b);
      var x :| Times(x, g) == b;
      var y :| Times(y, g) == a % b;
      var q := a / b;
      assert a == q * b + a % b;
      assert (q * x + y) * g == a by {
        assert (q * x + y) * g == q * (x * g) + y * g;
      }
      DividesBy(q * x + y, g);
    }
  }

  /** Coefficients with u * a + v * b == Gcd(a, b). */
  lemma {:induction false} Bezout(a: nat, b: nat) returns (u: int, v: int)
    ensures u * a + v * b == Gcd(a, b)
    decreases b
  {
    if b == 0 {
      u, v := 1, 0;
    } else {
      var x, y := Bezout(b, a % b);
      u, v := y, x - a / b * y;
      var q, r := a / b, a % b;
      assert a == q * b + r;
      assert y * a == y * (q * b) + y * r;
      assert (x - q * y) * b == x * b - q * y * b;
      assert q * y * b == y * (q * b);
    }
  }

  ghost predicate Coprime(a: int, b: int) { exists u, v :: Combine(u, v, a, b) == 1 }

  function Combine(u: int, v: int, a: int, b: int): int { u * a + v * b }

  lemma CoprimeIsGcdOne(a: nat, b: nat)
    ensures Coprime(a, b) <==> Gcd(a, b) == 1
  {
    var g := Gcd(a, b);
    if g == 1 {
      var u, v := Bezout(a, b);
      assert Combine(u, v, a, b) == 1;
    }
    if Coprime(a, b) {
      var u, v :| Combine(u, v, a, b) == 1;
      GcdDivides(a, b);
      hide Gcd;
      var x :| Times(x, g) == a;
      var y :| Times(y, g) == b;
      LinearCombination(u, v, x, y, g);
      UnitFactor(u * x + v * y, g);
    }
  }

  lemma UnitFactor(k: int, g: nat)
    requires k * g == 1
    ensures g == 1
  {
    if k <= 0 {
      MulMono(k, 0, g);
      assert false;
    }
    MulMono(1, k, g);
  }

  lemma CoprimeSymmetric(a: int, b: int)
    requires Coprime(a, b)
    ensures Coprime(b, a)
  {
    var u, v :| Combine(u, v, a, b) == 1;
    assert Combine(v, u, b, a) == 1;
  }

  /** A factor of a coprime number is coprime. */
  lemma CoprimeFactor(k: int, a: int, b: int)
    requires Coprime(k * a, b)
    ensures Coprime(a, b)
  {
    var u, v :| Combine(u, v, k * a, b) == 1;
    assert u * (k * a) == u * k * a;
    assert Combine(u * k, v, a, b) == 1;
  }

  lemma CoprimeProduct(a: int, b: int, c: int)
    requires Coprime(a, c) && Coprime(b, c)
    ensures Coprime(a * b, c)
  {
    var u, v :| Combine(u, v, a, c) == 1;
    var x, y :| Combine(x, y, b, c) == 1;
    ScaleCombination(a, x, y, b, c);
    CombineTwice(u, v, x, a * b, a * y, c);
    assert Combine(u * x, u * (a * y) + v, a * b, c) == 1;
  }

  lemma ScaleCombination(a: int, x: int, y: int, b: int, c: int)
    requires x * b + y * c == 1
    ensures a == x * (a * b) + a * y * c
  {
    LinearCombination(x, y, b, c, a);
    MulAssoc(y, c, a);
    MulAssoc(y, a, c);
  }

  lemma CombineTwice(u: int, v: int, x: int, m: int, n: int, c: int)
    requires u * (x * m + n * c) + v * c == 1
    ensures u * x * m + (u * n + v) * c == 1
  {
    LinearCombination(x, n, m, c, u);
    MulAssoc(u, x, m);
    MulAssoc(u, n, c);
    Distribute(u * n, v, c);
    MulAssoc(x, m, u);
    MulAssoc(n, c, u);
  }

  /** Dividing two numbers by their gcd leaves coprime numbers. */
  lemma ReducedCoprime(a: nat, b: nat)
    requires b > 0
    ensures var g := Gcd(a, b);
            && a == a / g * g && b == b / g * g && b / g > 0 && a / g <= a && b / g <= b
            && Coprime(a / g, b / g)
  {
    var g := Gcd(a, b);
    GcdDivides(a, b);
    Quotient(g, a);
    Quotient(g, b);
    var u, v := Bezout(a, b);
    CombineCancels(u, v, a / g, b / g, g);
  }

  lemma CombineCancels(u: int, v: int, x: int, y: int, g: int)
    requires g > 0 && u * (x * g) + v * (y * g) == g
    ensures Coprime(x, y)
  {
    LinearCombination(u, v, x, y, g);
    Cancel(u * x + v * y, 1, g);
    assert Combine(u, v, x, y) == 1;
  }

  /** Gauss: a coprime divisor of a product divides the other factor. */
  lemma Gauss(a: int, b: int, c: int)
    requires Coprime(a, b) && Divides(a, b * c)
    ensures Divides(a, c)
  {
    var u, v :| Combine(u, v, a, b) == 1;
    var k :| Times(k, a) == b * c;
    calc {
      c;
      (u * a + v * b) * c;
      u * a * c + v * (b * c);
      u * c * a + v * (k * a);
      (u * c + v * k) * a;
    }
    DividesBy(u * c + v * k, a);
  }

  // ---------------------------------------------------------------- lowest terms

  /** The pair n/d in lowest terms. */
  function Lowest(n: nat, d: nat): (nat, nat)
    requires d > 0
  {
    (n / Gcd(n, d), d / Gcd(n, d))
  }

  lemma DivisorBounded(d: nat, n: nat)
    requires d > 0 && n > 0 && Divides(d, n)
    ensures d <= n
  {
    var k :| Times(k, d) == n;
    if k <= 0 {
      MulMono(k, 0, d);
      assert false;
    }
    MulMono(1, k, d);
  }

  /** Lowest terms are unique: coprime pairs of the same ratio are equal. */
  lemma LowestUnique(n: nat, d: nat, m: nat, e: nat)
    requires d > 0 && e > 0 && n * e == m * d && Coprime(n, d) && Coprime(m, e)
    ensures n == m && d == e
  {
    CoprimeSymmetric(n, d);
    CoprimeSymmetric(m, e);
    DividesBy(m, d);
    assert Divides(d, n * e);
    Gauss(d, n, e);
    DividesBy(n, e);
    assert Divides(e, m * d) by {
      assert n * e == m * d;
    }
    Gauss(e, m, d);
    DivisorBounded(d, e);
    DivisorBounded(e, d);
    Cancel(n, m, d);
  }

  /** A coprime pair of the right ratio is the lowest-terms pair. */
  lemma LowestIs(n: nat, d: nat, m: nat, e: nat)
    requires d > 0 && e > 0 && n * e == m * d && Coprime(m, e)
    ensures Lowest(n, d) == (m, e)
  {
    ReducedCoprime(n, d);
    var g := Gcd(n, d);
    RatioCancels(n / g, d / g, m, e, g);
    LowestUnique(n / g, d / g, m, e);
  }

  lemma RatioCancels(x: int, y: int, m: int, e: int, g: int)
    requires g > 0 && x * g * e == m * (y * g)
    ensures x * e == m * y
  {
    MulAssoc(x, g, e);
    MulAssoc(x, e, g);
    MulAssoc(m, y, g);
    Cancel(x * e, m * y, g);
  }

  // ---------------------------------------------------------------- operations

  function CheckedMultiply(left: u64, right: u64): Option<u64> {
    if left != 0 && right > U64_MAX / left then None else
      ProductFits(left, right);
      Some(left * right)
  }

  lemma ProductFits(left: u64, right: u64)
    ensures left != 0 && right > U64_MAX / left <==> left * right > U64_MAX
    ensures 0 <= left * right
  {
    if left != 0 {
      var q := U64_MAX / left;
      Division(U64_MAX, left);
      MulNonNegative(left, right);
      if right > q {
        MulMono(q + 1, right, left);
        Distribute(q, 1, left);
      } else {
        MulMono(right, q, left);
      }
    }
  }

  function MakeRational(numerator: u64, denominator: u64): (r: Result<Fraction, RationalError>)
    ensures r.Ok? <==> denominator > 0
    ensures r.Ok? ==> (r.value.numerator, r.value.denominator) == Lowest(numerator, denominator)
  {
    if denominator == 0 then Err(ZeroDenominator)
    else
      ReducedCoprime(numerator, denominator);
      var divisor := Gcd(numerator, denominator);
      Ok(Fraction(numerator / divisor, denominator / divisor))
  }

  /** consumed * frequency / interval. */
  function ExactThroughput(consumed: u64, frequency: u64, interval: u64): Result<Fraction, RationalError> {
    if frequency == 0 || interval == 0 then Err(ZeroDenominator)
    else
      var g := Gcd(consumed, interval);
      ReducedCoprime(consumed, interval);
      var consumed' := consumed / g;
      var interval' := interval / g;
      var h := Gcd(frequency, interval');
      ReducedCoprime(frequency, interval');
      var product := CheckedMultiply(consumed', frequency / h);
      if product.None? then Err(Overflow) else Ok(Fraction(product.value, interval' / h))
  }

  function Multiply(left: Fraction, right: Fraction): Result<Fraction, RationalError> {
    if left.denominator == 0 || right.denominator == 0 then Err(ZeroDenominator)
    else
      var g := Gcd(left.numerator, right.denominator);
      ReducedCoprime(left.numerator, right.denominator);
      var h := Gcd(right.numerator, left.denominator);
      ReducedCoprime(right.numerator, left.denominator);
      var numerator := CheckedMultiply(left.numerator / g, right.numerator / h);
      var denominator := CheckedMultiply(left.denominator / h, right.denominator / g);
      if numerator.None? || denominator.None? then Err(Overflow)
      else MakeRational(numerator.value, denominator.value)
  }

  /** What an exact operation with value n/d must answer in 64 bits. */
  function Exact(n: nat, d: nat): Result<Fraction, RationalError>
    requires d > 0
  {
    var (x, y) := Lowest(n, d);
    if x <= U64_MAX && y <= U64_MAX then Ok(Fraction(x, y)) else Err(Overflow)
  }

  /** The throughput is exact and in lowest terms; it overflows only when that form does not fit. */
  lemma ThroughputExact(consumed: u64, frequency: u64, interval: u64)
    requires frequency > 0 && interval > 0
    ensures consumed * frequency >= 0
    ensures ExactThroughput(consumed, frequency, interval) == Exact(consumed * frequency, interval)
  {
    var g := Gcd(consumed, interval);
    ReducedCoprime(consumed, interval);
    var c, i := consumed / g, interval / g;
    var h := Gcd(frequency, i);
    ReducedCoprime(frequency, i);
    var f, j := frequency / h, i / h;
    MulNonNegative(consumed, frequency);
    ThroughputLowest(consumed, frequency, interval, c, g, i, f, h, j);
    ProductFits(c, f);
  }

  lemma ThroughputLowest(
    consumed: nat, frequency: nat, interval: nat, c: nat, g: nat, i: nat, f: nat, h: nat, j: nat)
    requires consumed == c * g && interval == i * g && frequency == f * h && i == j * h
    requires interval > 0 && j > 0 && g > 0 && h > 0 && Coprime(c, i) && Coprime(f, j)
    ensures consumed * frequency >= 0 && Lowest(consumed * frequency, interval) == (c * f, j)
  {
    CoprimeSymmetric(c, i);
    CoprimeFactor(h, j, c);
    CoprimeSymmetric(j, c);
    CoprimeProduct(c, f, j);
    MulNonNegative(c, f);
    MulNonNegative(consumed, frequency);
    ThroughputRatio(c, g, f, h, j);
    LowestIs(consumed * frequency, interval, c * f, j);
  }

  lemma ThroughputRatio(c: int, g: int, f: int, h: int, j: int)
    ensures c * g * (f * h) * j == c * f * (j * h * g)
  {
    MulSwap(c, g, f, h);
    MulAssoc(c * f, g * h, j);
    MulAssoc(j, h, g);
  }

  /** The cross-reduced factors of a product of fractions. */
  ghost predicate CrossReduced(ln: int, ld: int, rn: int, rd: int, a: int, b: int, c: int, d: int, g: int, h: int) {
    ln == a * g && rd == d * g && rn == c * h && ld == b * h && g > 0 && h > 0
  }

  lemma CrossRatio(ln: int, ld: int, rn: int, rd: int, a: int, b: int, c: int, d: int, g: int, h: int)
    requires CrossReduced(ln, ld, rn, rd, a, b, c, d, g, h)
    ensures ln * rn * (b * d) == a * c * (ld * rd)
  {
    MulSwap(a, g, c, h);
    MulSwap(b, h, d, g);
    MulAssoc(a * c, g * h, b * d);
  }

  /** Cross reduction, with the numbers it leaves. */
  lemma Reduce(left: Fraction, right: Fraction) returns (a: nat, b: nat, c: nat, d: nat, g: nat, h: nat)
    requires left.denominator > 0 && right.denominator > 0
    ensures g == Gcd(left.numerator, right.denominator) && h == Gcd(right.numerator, left.denominator)
    ensures g > 0 && h > 0
    ensures a == left.numerator / g && d == right.denominator / g
    ensures c == right.numerator / h && b == left.denominator / h
    ensures CrossReduced(left.numerator, left.denominator, right.numerator, right.denominator, a, b, c, d, g, h)
    ensures b > 0 && d > 0 && a <= U64_MAX && b <= U64_MAX && c <= U64_MAX && d <= U64_MAX
    ensures Coprime(a, d) && Coprime(c, b)
    ensures left.numerator * right.numerator >= 0 && left.denominator * right.denominator > 0
    ensures a * c >= 0 && b * d > 0
    ensures left.numerator * right.numerator * (b * d) == a * c * (left.denominator * right.denominator)
  {
    var ln, ld, rn, rd := left.numerator, left.denominator, right.numerator, right.denominator;
    g, h := Gcd(ln, rd), Gcd(rn, ld);
    ReducedCoprime(ln, rd);
    ReducedCoprime(rn, ld);
    a, d, c, b := ln / g, rd / g, rn / h, ld / h;
    MulNonNegative(ln, rn);
    MulPositive(ld, rd);
    MulNonNegative(a, c);
    MulPositive(b, d);
    CrossRatio(ln, ld, rn, rd, a, b, c, d, g, h);
  }

  /** A product answers from its cross-reduced factors. */
  lemma MultiplyIs(left: Fraction, right: Fraction, a: u64, b: u64, c: u64, d: u64)
    requires left.denominator > 0 && right.denominator > 0
    requires var g, h := Gcd(left.numerator, right.denominator), Gcd(right.numerator, left.denominator);
             && a == left.numerator / g && d == right.denominator / g
             && c == right.numerator / h && b == left.denominator / h
    requires b > 0 && d > 0 && a * c >= 0 && b * d > 0
    ensures Multiply(left, right)
         == if a * c > U64_MAX || b * d > U64_MAX then Err(Overflow) else Exact(a * c, b * d)
  {
    hide Gcd;
    ProductFits(a, c);
    ProductFits(b, d);
    if a * c <= U64_MAX && b * d <= U64_MAX {
      ReducedCoprime(a * c, b * d);
    }
  }

  /** Equal ratios have the same lowest terms. */
  lemma LowestSame(n: nat, d: nat, m: nat, e: nat)
    requires d > 0 && e > 0 && n * e == m * d
    ensures Lowest(n, d) == Lowest(m, e)
  {
    ReducedCoprime(m, e);
    var k := Gcd(m, e);
    var x, y := m / k, e / k;
    MulAssoc(n, y, k);
    MulAssoc(x, k, d);
    MulAssoc(x, d, k);
    Cancel(n * y, x * d, k);
    LowestIs(n, d, x, y);
  }

  /** Any product that succeeds is exact and in lowest terms, reduced inputs or not. */
  lemma ProductExact(left: Fraction, right: Fraction)
    requires left.denominator > 0 && right.denominator > 0 && Multiply(left, right).Ok?
    ensures left.numerator * right.numerator >= 0 && left.denominator * right.denominator > 0
    ensures Multiply(left, right)
         == Exact(left.numerator * right.numerator, left.denominator * right.denominator)
  {
    var a, b, c, d, g, h := Reduce(left, right);
    MultiplyIs(left, right, a, b, c, d);
    LowestSame(left.numerator * right.numerator, left.denominator * right.denominator, a * c, b * d);
  }

  /** The two products formed after cross-reduction, before any common factor of a side is removed, fit. */
  predicate CrossFits(left: Fraction, right: Fraction)
    requires left.denominator > 0 && right.denominator > 0
  {
    var g, h := Gcd(left.numerator, right.denominator), Gcd(right.numerator, left.denominator);
    g > 0 && h > 0 &&
    left.numerator / g * (right.numerator / h) <= U64_MAX && left.denominator / h * (right.denominator / g) <= U64_MAX
  }

  /** On any inputs: exact unless the cross-reduced products overflow although the value itself fits. */
  lemma ProductExactIff(left: Fraction, right: Fraction)
    requires left.denominator > 0 && right.denominator > 0
    ensures left.numerator * right.numerator >= 0 && left.denominator * right.denominator > 0
    ensures var exact := Exact(left.numerator * right.numerator, left.denominator * right.denominator);
            Multiply(left, right) == exact <==> CrossFits(left, right) || exact.Err?
  {
    var a, b, c, d, g, h := Reduce(left, right);
    MultiplyIs(left, right, a, b, c, d);
    LowestSame(left.numerator * right.numerator, left.denominator * right.denominator, a * c, b * d);
    assert CrossFits(left, right) <==> a * c <= U64_MAX && b * d <= U64_MAX;
    LowestFits(a * c, b * d);
  }

  /** Reducing never makes a fraction larger. */
  lemma LowestFits(n: nat, d: nat)
    requires d > 0
    ensures n <= U64_MAX && d <= U64_MAX ==> Exact(n, d).Ok?
  {
    ReducedCoprime(n, d);
  }

  /** On reduced inputs the product overflows exactly when its lowest-terms form does not fit. */
  lemma ReducedProductExact(left: Fraction, right: Fraction)
    requires left.denominator > 0 && right.denominator > 0
    requires Gcd(left.numerator, left.denominator) == 1 && Gcd(right.numerator, right.denominator) == 1
    ensures left.numerator * right.numerator >= 0 && left.denominator * right.denominator > 0
    ensures Multiply(left, right)
         == Exact(left.numerator * right.numerator, left.denominator * right.denominator)
  {
    var a, b, c, d, g, h := Reduce(left, right);
    MultiplyIs(left, right, a, b, c, d);
    CoprimeIsGcdOne(left.numerator, left.denominator);
    CoprimeIsGcdOne(right.numerator, right.denominator);
    FactorsCoprime(a, g, b, h);
    FactorsCoprime(c, h, d, g);
    CrossCoprime(a, b, c, d);
    LowestIs(left.numerator * right.numerator, left.denominator * right.denominator, a * c, b * d);
    LowestIs(a * c, b * d, a * c, b * d);
  }

  lemma CrossCoprime(a: int, b: int, c: int, d: int)
    requires Coprime(a, d) && Coprime(c, b) && Coprime(a, b) && Coprime(c, d)
    ensures Coprime(a * c, b * d)
  {
    CoprimeProduct(a, c, b);
    CoprimeProduct(a, c, d);
    CoprimeSymmetric(a * c, b);
    CoprimeSymmetric(a * c, d);
    CoprimeProduct(b, d, a * c);
    CoprimeSymmetric(b * d, a * c);
  }

  lemma FactorsCoprime(a: int, g: int, b: int, h: int)
    requires Coprime(a * g, b * h)
    ensures Coprime(a, b)
  {
    assert a * g == g * a && b * h == h * b;
    CoprimeFactor(g, a, b * h);
    CoprimeSymmetric(a, b * h);
    CoprimeFactor(h, b, a);
    CoprimeSymmetric(b, a);
  }

  /** Without reduced inputs the product may be refused although it fits: (2^63/2^63)(3/5). */
  lemma UnreducedProductMayOverflow()
    ensures var left, right := Fraction(0x8000_0000_0000_0000, 0x8000_0000_0000_0000), Fraction(3, 5);
            && Multiply(left, right) == Err(Overflow)
            && Exact(left.numerator * right.numerator, left.denominator * right.denominator) == Ok(Fraction(3, 5))
  {
    hide *;
    UnreducedRefused();
    UnreducedValue();
  }

  lemma UnreducedRefused()
    ensures Multiply(Fraction(0x8000_0000_0000_0000, 0x8000_0000_0000_0000), Fraction(3, 5)) == Err(Overflow)
  {
    var big := 0x8000_0000_0000_0000;
    assert Gcd(big, 5) == Gcd(5, 3) == Gcd(3, 2) == Gcd(2, 1) == Gcd(1, 0) == 1;
    assert Gcd(3, big) == Gcd(big, 3) == Gcd(3, 2) == 1;
  }

  lemma UnreducedValue()
    ensures Exact(0x8000_0000_0000_0000 * 3, 0x8000_0000_0000_0000 * 5) == Ok(Fraction(3, 5))
  {
    var big := 0x8000_0000_0000_0000;
    LowestSame(big * 3, big * 5, 3, 5);
    assert Gcd(3, 5) == Gcd(5, 3) == Gcd(3, 2) == Gcd(2, 1) == Gcd(1, 0) == 1;
  }

  // ---------------------------------------------------------------- comparison

  function Sign(x: int): int { if x < 0 then -1 else if x == 0 then 0 else 1 }

  lemma QuotientsDiffer(a: nat, b: nat, c: nat, d: nat)
    requires b > 0 && d > 0 && a / b < c / d
    ensures a * d < c * b
  {
    var q, p := a / b, c / d;
    Division(a, b);
    Distribute(q, 1, b);
    MulMono(q + 1, p, b);
    assert a + 1 <= p * b;
    MulMono(a + 1, p * b, d);
    Distribute(a, 1, d);
    Division(c, d);
    MulMono(p * d, c, b);
    MulAssoc(p, b, d);
    MulAssoc(p, d, b);
  }

  lemma RemainderStep(a: nat, b: nat, c: nat, d: nat)
    requires b > 0 && d > 0 && a / b == c / d
    ensures a * d - c * b == (a % b) * d - (c % d) * b
  {
    var q := a / b;
    assert a == q * b + a % b && c == q * d + c % d;
    assert a * d == q * b * d + (a % b) * d;
    assert c * b == q * d * b + (c % d) * b;
    assert q * b * d == q * d * b;
  }

  /** Compares left and right by expanding both as continued fractions. */
  method Compare(left: Fraction, right: Fraction) returns (r: Result<int, RationalError>)
    ensures r.Err? <==> left.denominator == 0 || right.denominator == 0
    ensures r.Ok? ==>
      r.value == Sign(left.numerator * right.denominator - right.numerator * left.denominator)
  {
    if left.denominator == 0 || right.denominator == 0 {
      return Err(ZeroDenominator);
    }
    var ln: nat, ld: nat := left.numerator, left.denominator;
    var rn: nat, rd: nat := right.numerator, right.denominator;
    ghost var difference := left.numerator * right.denominator - right.numerator * left.denominator;
    var inverted := false;
    while true
      invariant ld > 0 && rd > 0
      invariant difference == if inverted then rn * ld - ln * rd else ln * rd - rn * ld
      decreases ld
    {
      var leftQuotient, rightQuotient := ln / ld, rn / rd;
      if leftQuotient != rightQuotient {
        var result;
        if leftQuotient < rightQuotient {
          QuotientsDiffer(ln, ld, rn, rd);
          result := -1;
        } else {
          QuotientsDiffer(rn, rd, ln, ld);
          result := 1;
        }
        return Ok(if inverted then -result else result);
      }
      RemainderStep(ln, ld, rn, rd);
      var leftRemainder, rightRemainder := ln % ld, rn % rd;
      if leftRemainder == 0 || rightRemainder == 0 {
        if leftRemainder == 0 && rightRemainder == 0 {
          return Ok(0);
        }
        var result;
        if leftRemainder == 0 {
          assert rightRemainder * ld > 0;
          result := -1;
        } else {
          assert leftRemainder * rd > 0;
          result := 1;
        }
        return Ok(if inverted then -result else result);
      }
      assert ld * rightRemainder == rightRemainder * ld && rd * leftRemainder == leftRemainder * rd;
      ln, ld, rn, rd := ld, leftRemainder, rd, rightRemainder;
      inverted := !inverted;
    }
  }
}
