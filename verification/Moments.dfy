/** Means and standard deviations of samples of reals, by the equations that determine them. */
module Moments {

  function Total(xs: seq<real>): real { if xs == [] then 0.0 else xs[0] + Total(xs[1..]) }

  function Product(a: real, b: real): real { a * b }

  function Square(d: real): real { Product(d, d) }

  function Deviations(xs: seq<real>, m: real): seq<real> {
    seq(|xs|, i requires 0 <= i < |xs| => xs[i] - m)
  }

  function Squares(xs: seq<real>, m: real): seq<real> {
    seq(|xs|, i requires 0 <= i < |xs| => Square(xs[i] - m))
  }

  /** The mean is where the deviations balance. */
  predicate IsMean(xs: seq<real>, m: real) { Total(Deviations(xs, m)) == 0.0 }

  /** The squared differences of all ordered pairs from two samples. */
  function PairSquares(xs: seq<real>, ys: seq<real>): real {
    Total(seq(|xs|, i requires 0 <= i < |xs| => Total(Squares(ys, xs[i]))))
  }

  /** The sample standard deviation, without a mean: half the mean squared difference of distinct pairs. */
  predicate IsDeviation(xs: seq<real>, e: real) {
    var n := |xs| as real;
    e >= 0.0 && 2.0 * n * (n - 1.0) * Square(e) == PairSquares(xs, xs)
  }

  // ---------------------------------------------------------------- sums

  lemma {:induction false} TotalSnoc(xs: seq<real>, x: real)
    ensures Total(xs + [x]) == Total(xs) + x
  {
    if xs == [] {
      assert xs + [x] == [x];
      assert [x][1..] == [];
    } else {
      assert (xs + [x])[1..] == xs[1..] + [x];
      TotalSnoc(xs[1..], x);
    }
  }

  lemma {:induction false} TotalOfDeviations(xs: seq<real>, m: real)
    ensures Total(Deviations(xs, m)) == Total(xs) - |xs| as real * m
  {
    if xs != [] {
      assert Deviations(xs, m)[1..] == Deviations(xs[1..], m);
      TotalOfDeviations(xs[1..], m);
    }
  }

  /** A quotient of the sum is the mean. */
  lemma QuotientIsMean(xs: seq<real>, m: real)
    requires xs != [] && m == Total(xs) / |xs| as real
    ensures IsMean(xs, m)
  {
    TotalOfDeviations(xs, m);
  }

  lemma MeanUnique(xs: seq<real>, a: real, b: real)
    requires xs != [] && IsMean(xs, a) && IsMean(xs, b)
    ensures a == b
  {
    TotalOfDeviations(xs, a);
    TotalOfDeviations(xs, b);
    var n := |xs| as real;
    assert n * (a - b) == 0.0;
  }

  // ---------------------------------------------------------------- squares

  lemma ShiftSquare(x: real, a: real, m: real)
    ensures Square(x - a) == Square(x - m) + 2.0 * (m - a) * (x - m) + Square(m - a)
  {
  }

  /** Moving the centre of the squares from m to a. */
  lemma {:induction false} SquaresAround(xs: seq<real>, a: real, m: real)
    ensures Total(Squares(xs, a))
         == Total(Squares(xs, m)) + 2.0 * (m - a) * Total(Deviations(xs, m)) + |xs| as real * Square(m - a)
  {
    hide Square;
    if xs != [] {
      SquaresTail(xs, a);
      SquaresTail(xs, m);
      assert Deviations(xs, m)[1..] == Deviations(xs[1..], m);
      SquaresAround(xs[1..], a, m);
      ShiftSquare(xs[0], a, m);
      Collect(2.0 * (m - a), xs[0] - m, Total(Deviations(xs[1..], m)));
      Collect(Square(m - a), 1.0, |xs[1..]| as real);
    }
  }

  lemma Collect(k: real, x: real, y: real)
    ensures k * (x + y) == k * x + k * y
  {
  }

  lemma SquaresTail(xs: seq<real>, a: real)
    requires xs != []
    ensures Total(Squares(xs, a)) == Square(xs[0] - a) + Total(Squares(xs[1..], a))
  {
    assert Squares(xs, a)[1..] == Squares(xs[1..], a);
  }

  /** All pairs, when the second sample balances at m. */
  lemma {:induction false} PairsAround(xs: seq<real>, ys: seq<real>, m: real)
    requires IsMean(ys, m)
    ensures PairSquares(xs, ys) == |xs| as real * Total(Squares(ys, m)) + |ys| as real * Total(Squares(xs, m))
  {
    hide PairSquares, Total, Squares, IsMean, Deviations;
    if xs == [] {
      NoPairs(ys, m);
    } else {
      PairTail(xs, ys);
      PairsAround(xs[1..], ys, m);
      RowAround(ys, xs[0], m);
      SquaresTail(xs, m);
      PairsStep(|xs| as real, |ys| as real, Square(xs[0] - m), Total(Squares(xs[1..], m)), Total(Squares(ys, m)));
    }
  }

  lemma NoPairs(ys: seq<real>, m: real)
    ensures PairSquares([], ys) == 0.0 && Total(Squares([], m)) == 0.0
  {
  }

  /** The squares around any point, when the sample balances at m. */
  lemma RowAround(ys: seq<real>, x: real, m: real)
    requires IsMean(ys, m)
    ensures Total(Squares(ys, x)) == Total(Squares(ys, m)) + |ys| as real * Square(x - m)
  {
    hide Total, Squares, Deviations, Square, IsMean;
    SquaresAround(ys, x, m);
    Balanced(ys, m);
    Vanishes(2.0 * (m - x), Total(Deviations(ys, m)));
    SquareFlip(x, m);
  }

  lemma Balanced(ys: seq<real>, m: real)
    requires IsMean(ys, m)
    ensures Total(Deviations(ys, m)) == 0.0
  {
  }

  lemma Vanishes(k: real, x: real)
    requires x == 0.0
    ensures k * x == 0.0
  {
  }

  lemma PairsStep(n: real, k: real, q: real, t: real, s: real)
    ensures s + k * q + ((n - 1.0) * s + k * t) == n * s + k * (q + t)
  {
  }

  lemma PairTail(xs: seq<real>, ys: seq<real>)
    requires xs != []
    ensures PairSquares(xs, ys) == Total(Squares(ys, xs[0])) + PairSquares(xs[1..], ys)
  {
    var rows := seq(|xs|, i requires 0 <= i < |xs| => Total(Squares(ys, xs[i])));
    var rest := seq(|xs[1..]|, i requires 0 <= i < |xs[1..]| => Total(Squares(ys, xs[1..][i])));
    assert rows[1..] == rest;
  }

  lemma SquareFlip(a: real, b: real)
    ensures Square(a - b) == Square(b - a)
  {
  }

  /** A root of the mean squared deviation, over n - 1, is the standard deviation. */
  lemma RootIsDeviation(xs: seq<real>, m: real, e: real)
    requires |xs| >= 2 && IsMean(xs, m) && e >= 0.0
    requires Square(e) == Total(Squares(xs, m)) / (|xs| - 1) as real
    ensures IsDeviation(xs, e)
  {
    PairsAround(xs, xs, m);
    hide Square, PairSquares;
    var n, s := |xs| as real, Total(Squares(xs, m));
    assert (n - 1.0) * Square(e) == s;
    Scale(n, n - 1.0, Square(e), s);
  }

  lemma Scale(n: real, k: real, q: real, s: real)
    requires k * q == s
    ensures 2.0 * n * k * q == n * s + n * s
  {
  }

  lemma DeviationUnique(xs: seq<real>, a: real, b: real)
    requires |xs| >= 2 && IsDeviation(xs, a) && IsDeviation(xs, b)
    ensures a == b
  {
    hide PairSquares;
    var n := |xs| as real;
    var k := 2.0 * n * (n - 1.0);
    assert k > 0.0;
    CancelLeft(k, Square(a), Square(b));
    RootUnique(a, b);
  }

  lemma CancelLeft(k: real, x: real, y: real)
    requires k > 0.0 && k * x == k * y
    ensures x == y
  {
  }

  lemma RootUnique(a: real, b: real)
    requires a >= 0.0 && b >= 0.0 && Square(a) == Square(b)
    ensures a == b
  {
    if a < b {
      StrictlyMore(a, b);
    } else if b < a {
      StrictlyMore(b, a);
    }
  }

  lemma StrictlyMore(a: real, b: real)
    requires 0.0 <= a < b
    ensures Square(a) < Square(b)
  {
    Positive(b - a, b + a);
    assert b * b - a * a == (b - a) * (b + a);
  }

  lemma Positive(x: real, y: real)
    requires x > 0.0 && y > 0.0
    ensures x * y > 0.0
  {
  }
}
