/** Laws of multiplication and division, stated one at a time so that proofs can name them. */
module Arith {

  lemma MulAssoc(a: int, b: int, c: int)
    ensures a * b * c == a * (b * c)
  {
  }

  lemma Distribute(a: int, b: int, c: int)
    ensures (a + b) * c == a * c + b * c
    ensures (a - b) * c == a * c - b * c
  {
  }

  lemma MulMono(a: int, b: int, c: int)
    requires a <= b && 0 <= c
    ensures a * c <= b * c
  {
  }

  lemma MulPositive(a: int, b: int)
    requires 0 < a && 0 < b
    ensures 0 < a * b
  {
  }

  lemma MulNonNegative(a: int, b: int)
    requires 0 <= a && 0 <= b
    ensures 0 <= a * b
  {
  }

  lemma Cancel(x: int, y: int, g: int)
    requires g > 0 && x * g == y * g
    ensures x == y
  {
    if x < y {
      MulMono(x + 1, y, g);
      Distribute(x, 1, g);
    } else if y < x {
      MulMono(y + 1, x, g);
      Distribute(y, 1, g);
    }
  }

  lemma Division(n: int, d: int)
    requires d > 0
    ensures n == n / d * d + n % d && 0 <= n % d < d
  {
  }

  lemma DivisionUnique(n: int, d: int, q: int, r: int)
    requires d > 0 && n == q * d + r && 0 <= r < d
    ensures n / d == q && n % d == r
  {
    Division(n, d);
    var p := n / d;
    Distribute(p, q, d);
    if p < q {
      MulMono(p + 1, q, d);
      Distribute(p, 1, d);
    } else if q < p {
      MulMono(q + 1, p, d);
      Distribute(q, 1, d);
    }
  }

  lemma LinearCombination(u: int, v: int, x: int, y: int, g: int)
    ensures (u * x + v * y) * g == u * (x * g) + v * (y * g)
  {
    Distribute(u * x, v * y, g);
    MulAssoc(u, x, g);
    MulAssoc(v, y, g);
  }

  /** Rearranges a product of two products. */
  lemma MulSwap(a: int, b: int, c: int, d: int)
    ensures a * b * (c * d) == a * c * (b * d)
  {
    MulAssoc(a, b, c * d);
    MulAssoc(b, c, d);
    MulAssoc(c, b, d);
    MulAssoc(a, c, b * d);
  }
}
