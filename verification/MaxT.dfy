/** The max-T bootstrap over reals: simultaneous intervals from one critical value. */
module MaxT {
  import opened Prelude
  import opened Sorting
  import opened Moments
  import Bootstrap

  datatype MaxTError =
    | BadInput
    | FromBootstrap(error: Bootstrap.BootstrapError)
    | ZeroStandardError
    | NoStatistics // for an empty sample of statistics, which the procedure never has

  datatype Conclusion = PracticallyLower | PracticallyHigher | PracticallyEquivalent | Inconclusive

  /** `lower` is None for the unbounded side of a one-sided interval. */
  datatype Interval = Interval(
    estimate: real, standardError: real, lower: Option<real>, upper: real, conclusion: Conclusion)

  datatype MaxTResult = MaxTResult(critical: real, intervals: seq<Interval>)

  // ---------------------------------------------------------------- column arithmetic

  ghost predicate Rectangular(vs: seq<seq<real>>, width: nat) { Bootstrap.SameWidth(vs, width) }

  /** One contrast over all rows. */
  ghost function Column(vs: seq<seq<real>>, c: nat): (r: seq<real>)
    requires forall i :: 0 <= i < |vs| ==> c < |vs[i]|
    ensures |r| == |vs|
  {
    seq(|vs|, i requires 0 <= i < |vs| => vs[i][c])
  }

  lemma ColumnTotal(vs: seq<seq<real>>, i: nat, c: nat)
    requires i < |vs| && forall k :: 0 <= k < |vs| ==> c < |vs[k]|
    ensures Total(Column(vs[..i + 1], c)) == Total(Column(vs[..i], c)) + vs[i][c]
  {
    assert Column(vs[..i + 1], c) == Column(vs[..i], c) + [vs[i][c]];
    TotalSnoc(Column(vs[..i], c), vs[i][c]);
  }

  lemma ColumnSquares(vs: seq<seq<real>>, i: nat, c: nat, m: real)
    requires i < |vs| && forall k :: 0 <= k < |vs| ==> c < |vs[k]|
    ensures Total(Squares(Column(vs[..i + 1], c), m)) == Total(Squares(Column(vs[..i], c), m)) + Square(vs[i][c] - m)
  {
    hide Square;
    assert Squares(Column(vs[..i + 1], c), m) == Squares(Column(vs[..i], c), m) + [Square(vs[i][c] - m)];
    TotalSnoc(Squares(Column(vs[..i], c), m), Square(vs[i][c] - m));
  }

  method MeanVector(vs: seq<seq<real>>, width: nat) returns (means: seq<real>)
    requires vs != [] && Rectangular(vs, width)
    ensures |means| == width && forall c :: 0 <= c < width ==> IsMean(Column(vs, c), means[c])
  {
    hide Column, Total, IsMean;
    var sums := seq(width, _ => 0.0);
    EmptyColumns(vs, width);
    for i := 0 to |vs|
      invariant |sums| == width
      invariant forall c :: 0 <= c < width ==> sums[c] == Total(Column(vs[..i], c))
    {
      forall c | 0 <= c < width ensures Total(Column(vs[..i + 1], c)) == Total(Column(vs[..i], c)) + vs[i][c] {
        ColumnTotal(vs, i, c);
      }
      sums := Bootstrap.AddBlock(sums, vs[i]);
    }
    assert vs[..|vs|] == vs;
    means := Bootstrap.DivideAll(sums, |vs|);
    forall c | 0 <= c < width ensures IsMean(Column(vs, c), means[c]) {
      QuotientIsMean(Column(vs, c), means[c]);
    }
  }

  lemma EmptyColumns(vs: seq<seq<real>>, width: nat)
    requires Rectangular(vs, width)
    ensures forall c :: 0 <= c < width ==> Total(Column(vs[..0], c)) == 0.0
    ensures forall c, m :: 0 <= c < width ==> Total(Squares(Column(vs[..0], c), m)) == 0.0
  {
  }

  /** The nonnegative square root. */
  ghost predicate IsRoot(sqrt: real -> real) {
    forall x :: x >= 0.0 ==> sqrt(x) >= 0.0 && Square(sqrt(x)) == x
  }

  method StandardErrors(vs: seq<seq<real>>, width: nat, sqrt: real -> real) returns (errors: seq<real>)
    requires |vs| >= 2 && Rectangular(vs, width) && IsRoot(sqrt)
    ensures |errors| == width && forall c :: 0 <= c < width ==> IsDeviation(Column(vs, c), errors[c])
  {
    hide Square, Column, Total, Squares, IsMean, IsDeviation, IsRoot;
    var means := MeanVector(vs, width);
    var sums := seq(width, _ => 0.0);
    EmptyColumns(vs, width);
    for i := 0 to |vs|
      invariant |sums| == width
      invariant forall c :: 0 <= c < width ==> sums[c] == Total(Squares(Column(vs[..i], c), means[c]))
    {
      forall c | 0 <= c < width
        ensures Total(Squares(Column(vs[..i + 1], c), means[c]))
             == Total(Squares(Column(vs[..i], c), means[c])) + Square(vs[i][c] - means[c])
      {
        ColumnSquares(vs, i, c, means[c]);
      }
      sums := AddSquares(sums, vs[i], means);
    }
    assert vs[..|vs|] == vs;
    errors := Roots(sums, |vs|, sqrt);
    forall c | 0 <= c < width ensures IsDeviation(Column(vs, c), errors[c]) {
      RootOfColumn(Column(vs, c), means[c], errors[c], sqrt);
    }
  }

  lemma RootOfColumn(xs: seq<real>, m: real, e: real, sqrt: real -> real)
    requires |xs| >= 2 && IsMean(xs, m) && IsRoot(sqrt)
    requires e == sqrt(Total(Squares(xs, m)) / (|xs| - 1) as real)
    ensures IsDeviation(xs, e)
  {
    hide Square, Squares, Total, IsMean, IsDeviation;
    SquaresNonNegative(xs, m);
    Quotient(Total(Squares(xs, m)), (|xs| - 1) as real);
    RootIsDeviation(xs, m, e);
  }

  lemma Quotient(x: real, y: real)
    requires x >= 0.0 && y > 0.0
    ensures x / y >= 0.0
  {
  }

  method AddSquares(sums: seq<real>, v: seq<real>, means: seq<real>) returns (r: seq<real>)
    requires |sums| == |v| == |means|
    ensures |r| == |sums|
    ensures forall c :: 0 <= c < |r| ==> r[c] == sums[c] + Square(v[c] - means[c])
  {
    r := sums;
    for index := 0 to |sums|
      invariant |r| == |sums|
      invariant forall c :: 0 <= c < index ==> r[c] == sums[c] + Square(v[c] - means[c])
      invariant forall c :: index <= c < |r| ==> r[c] == sums[c]
    {
      var difference := v[index] - means[index];
      r := r[index := r[index] + difference * difference];
    }
  }

  method Roots(sums: seq<real>, n: nat, sqrt: real -> real) returns (r: seq<real>)
    requires n >= 2
    ensures |r| == |sums| && forall c :: 0 <= c < |r| ==> r[c] == sqrt(sums[c] / (n - 1) as real)
  {
    r := sums;
    for index := 0 to |sums|
      invariant |r| == |sums|
      invariant forall c :: 0 <= c < index ==> r[c] == sqrt(sums[c] / (n - 1) as real)
      invariant forall c :: index <= c < |r| ==> r[c] == sums[c]
    {
      r := r[index := sqrt(r[index] / (n - 1) as real)];
    }
  }

  // ---------------------------------------------------------------- statistics

  function Abs(x: real): real { if x < 0.0 then -x else x }

  function Sided(x: real, oneSided: bool): real { if oneSided then x else Abs(x) }

  /** A replicate that a zero standard error rules out. */
  ghost predicate Contradicted(estimate: seq<real>, original: seq<real>, errors: seq<real>)
    requires |estimate| == |original| == |errors|
  {
    exists c :: 0 <= c < |errors| && errors[c] == 0.0 && estimate[c] != original[c]
  }

  function Standardized(estimate: seq<real>, original: seq<real>, errors: seq<real>, c: nat): real
    requires |estimate| == |original| == |errors| && c < |errors|
  {
    if errors[c] == 0.0 then 0.0 else (estimate[c] - original[c]) / errors[c]
  }

  /** The largest standardized deviation of one replicate. */
  ghost predicate IsStatistic(estimate: seq<real>, original: seq<real>, errors: seq<real>, oneSided: bool, m: real)
    requires |estimate| == |original| == |errors|
  {
    && m >= 0.0
    && (forall c :: 0 <= c < |errors| ==> Sided(Standardized(estimate, original, errors, c), oneSided) <= m)
    && (m == 0.0 || exists c :: 0 <= c < |errors| && Sided(Standardized(estimate, original, errors, c), oneSided) == m)
  }

  method Statistic(estimate: seq<real>, original: seq<real>, errors: seq<real>, oneSided: bool)
    returns (r: Option<real>)
    requires |estimate| == |original| == |errors|
    ensures r.None? <==> Contradicted(estimate, original, errors)
    ensures r.Some? ==> IsStatistic(estimate, original, errors, oneSided, r.value)
  {
    var maximum := 0.0;
    for index := 0 to |original|
      invariant maximum >= 0.0
      invariant forall c :: 0 <= c < index && errors[c] == 0.0 ==> estimate[c] == original[c]
      invariant forall c :: 0 <= c < index ==> Sided(Standardized(estimate, original, errors, c), oneSided) <= maximum
      invariant maximum == 0.0 ||
        exists c :: 0 <= c < index && Sided(Standardized(estimate, original, errors, c), oneSided) == maximum
    {
      var deviation := estimate[index] - original[index];
      var standardized := 0.0;
      if errors[index] == 0.0 {
        if deviation != 0.0 {
          return None;
        }
      } else {
        standardized := deviation / errors[index];
      }
      assert standardized == Standardized(estimate, original, errors, index);
      var candidate := Sided(standardized, oneSided);
      maximum := if maximum < candidate then candidate else maximum;
    }
    return Some(maximum);
  }

  // ---------------------------------------------------------------- the 95% rank

  predicate RealLe(a: real, b: real) { a <= b }

  lemma RealOrder()
    ensures TotalPreorder(RealLe)
  {
    forall x, y, z | Chain(RealLe, x, y, z) ensures RealLe(x, z) {
    }
  }

  function UpTo(v: real): real -> bool { (x: real) => x <= v }

  function Rank95(n: nat): nat { (95 * n + 99) / 100 }

  /** The rank-th smallest value; values are finite reals here. */
  function EmpiricalP95(values: seq<real>): Option<real> {
    if values == [] then None
    else
      SortedLength(values);
      Some(Sort(RealLe, values)[Rank95(|values|) - 1])
  }

  lemma SortedLength(values: seq<real>)
    ensures |Sort(RealLe, values)| == |values|
  {
    RealOrder();
    SortSorts(RealLe, values);
  }

  lemma P95Defined(values: seq<real>)
    ensures EmpiricalP95(values).None? <==> values == []
  {
  }

  lemma RankRange(n: nat)
    requires n > 0
    ensures 1 <= Rank95(n) <= n && 95 * n <= 100 * Rank95(n) < 95 * n + 100
  {
  }

  /** At least 95 of 100 parts of the values do not exceed the critical value. */
  lemma P95Covers(values: seq<real>)
    requires values != []
    ensures 100 * |Positions(UpTo(EmpiricalP95(values).value), values)| >= 95 * |values|
  {
    var sorted := Sort(RealLe, values);
    RealOrder();
    SortSorts(RealLe, values);
    RankRange(|values|);
    var rank := Rank95(|values|);
    var p := UpTo(sorted[rank - 1]);
    assert p == UpTo(EmpiricalP95(values).value);
    hide *;
    PrefixUpTo(sorted, rank);
    CountIfPermutation(p, sorted, values);
    CountIfIsPositions(p, values);
  }

  /** Fewer do not exceed any smaller value, and the critical value is attained. */
  lemma P95Least(values: seq<real>, v: real)
    requires values != [] && v < EmpiricalP95(values).value
    ensures EmpiricalP95(values).value in values
    ensures 100 * |Positions(UpTo(v), values)| < 95 * |values|
  {
    var sorted := Sort(RealLe, values);
    RealOrder();
    SortSorts(RealLe, values);
    RankRange(|values|);
    var rank := Rank95(|values|);
    var critical := sorted[rank - 1];
    assert critical == EmpiricalP95(values).value;
    hide *;
    assert critical in multiset(sorted);
    CountBelow(sorted, rank, v);
    CountIfPermutation(UpTo(v), sorted, values);
    CountIfIsPositions(UpTo(v), values);
  }

  lemma CountBelow(sorted: seq<real>, rank: nat, v: real)
    requires Ordered(RealLe, sorted) && 1 <= rank <= |sorted| && v < sorted[rank - 1]
    ensures CountIf(UpTo(v), sorted) < rank
  {
    var low, high := sorted[..rank - 1], sorted[rank - 1..];
    assert sorted == low + high;
    CountIfConcat(UpTo(v), low, high);
    forall k | 0 <= k < |high| ensures !UpTo(v)(high[k]) {
      assert k > 0 ==> RealLe(sorted[rank - 1], sorted[rank - 1 + k]);
    }
    CountIfPrefix(UpTo(v), high, 0);
  }

  lemma PrefixUpTo(sorted: seq<real>, rank: nat)
    requires Ordered(RealLe, sorted) && 1 <= rank <= |sorted|
    ensures CountIf(UpTo(sorted[rank - 1]), sorted) >= rank
  {
    hide CountIf;
    forall k | 0 <= k < rank ensures UpTo(sorted[rank - 1])(sorted[k]) {
      assert k < rank - 1 ==> RealLe(sorted[k], sorted[rank - 1]);
    }
    CountIfPrefix(UpTo(sorted[rank - 1]), sorted, rank);
  }

  // ---------------------------------------------------------------- coverage

  /** How far critical value times standard error reaches. */
  function Reach(critical: real, error: real): real { critical * error }

  /** Every contrast of the replicate lies within critical * error of the original at once. */
  ghost predicate Within(estimate: seq<real>, original: seq<real>, errors: seq<real>, critical: real, oneSided: bool)
    requires |estimate| == |original| == |errors|
  {
    forall c :: 0 <= c < |errors| ==> ContrastWithin(estimate, original, errors, critical, oneSided, c)
  }

  ghost predicate ContrastWithin(
    estimate: seq<real>, original: seq<real>, errors: seq<real>, critical: real, oneSided: bool, c: nat)
    requires |estimate| == |original| == |errors| && c < |errors|
  {
    && estimate[c] - original[c] <= Reach(critical, errors[c])
    && (oneSided || original[c] - estimate[c] <= Reach(critical, errors[c]))
  }

  lemma RealDistribute(a: real, b: real, c: real)
    ensures (a + b) * c == a * c + b * c
  {
  }

  lemma RealMono(a: real, b: real, c: real)
    requires a <= b && 0.0 <= c
    ensures a * c <= b * c
  {
  }

  /** Standardized bounds, scaled back by the standard error. */
  lemma ScaleBack(deviation: real, error: real, critical: real)
    requires error > 0.0
    ensures deviation / error <= critical <==> deviation <= Reach(critical, error)
    ensures -(deviation / error) <= critical <==> -deviation <= Reach(critical, error)
  {
    var q := deviation / error;
    assert q * error == deviation;
    RealDistribute(q, -q, error);
    ScaleUp(q, critical, error);
    ScaleUp(-q, critical, error);
  }

  lemma ScaleUp(q: real, critical: real, error: real)
    requires error > 0.0
    ensures q <= critical <==> q * error <= critical * error
  {
    if q <= critical {
      RealMono(q, critical, error);
    } else {
      RealStrict(critical, q, error);
    }
  }

  lemma RealStrict(a: real, b: real, c: real)
    requires a < b && 0.0 < c
    ensures a * c < b * c
  {
  }

  /** A replicate is within reach of v exactly when its statistic is at most v. */
  lemma StatisticWithin(
    estimate: seq<real>, original: seq<real>, errors: seq<real>, oneSided: bool, m: real, v: real)
    requires |estimate| == |original| == |errors|
    requires forall c :: 0 <= c < |errors| ==> errors[c] >= 0.0
    requires !Contradicted(estimate, original, errors)
    requires IsStatistic(estimate, original, errors, oneSided, m) && v >= 0.0
    ensures Within(estimate, original, errors, v, oneSided) <==> m <= v
  {
    forall c | 0 <= c < |errors|
      ensures ContrastWithin(estimate, original, errors, v, oneSided, c)
         <==> Sided(Standardized(estimate, original, errors, c), oneSided) <= v
    {
      if errors[c] > 0.0 {
        ScaleBack(estimate[c] - original[c], errors[c], v);
      }
    }
    hide ContrastWithin, Sided, Standardized;
  }

  /** The replicates whose contrasts are all covered. */
  ghost function CoveredReplicates(
    estimates: seq<seq<real>>, original: seq<real>, errors: seq<real>, critical: real, oneSided: bool): set<nat>
    requires |original| == |errors| && Rectangular(estimates, |errors|)
  {
    set r: nat | r < |estimates| && Within(estimates[r], original, errors, critical, oneSided)
  }

  /** The critical value covers 95% of the replicates, and nothing smaller does. */
  ghost predicate IsCritical(
    estimates: seq<seq<real>>, original: seq<real>, errors: seq<real>, oneSided: bool, critical: real)
    requires |original| == |errors| && Rectangular(estimates, |errors|)
  {
    && critical >= 0.0
    && 100 * |CoveredReplicates(estimates, original, errors, critical, oneSided)| >= 95 * |estimates|
    && forall v | 0.0 <= v < critical ::
         100 * |CoveredReplicates(estimates, original, errors, v, oneSided)| < 95 * |estimates|
  }

  lemma Coverage(
    estimates: seq<seq<real>>, original: seq<real>, errors: seq<real>, oneSided: bool, statistics: seq<real>)
    requires |original| == |errors| && Rectangular(estimates, |errors|)
    requires estimates != []
    requires forall c :: 0 <= c < |errors| ==> errors[c] >= 0.0
    requires AllStatistics(estimates, original, errors, oneSided, statistics)
    ensures IsCritical(estimates, original, errors, oneSided, EmpiricalP95(statistics).value)
  {
    hide EmpiricalP95, CoveredReplicates;
    P95Defined(statistics);
    var critical := EmpiricalP95(statistics).value;
    P95Covers(statistics);
    P95Least(statistics, critical - 1.0);
    assert exists r :: 0 <= r < |statistics| && statistics[r] == critical;
    CoveredAre(estimates, original, errors, oneSided, statistics, critical);
    forall v | 0.0 <= v < critical
      ensures 100 * |CoveredReplicates(estimates, original, errors, v, oneSided)| < 95 * |estimates|
    {
      P95Least(statistics, v);
      CoveredAre(estimates, original, errors, oneSided, statistics, v);
    }
  }

  lemma CoveredAre(
    estimates: seq<seq<real>>, original: seq<real>, errors: seq<real>, oneSided: bool, statistics: seq<real>, v: real)
    requires |original| == |errors| && Rectangular(estimates, |errors|) && v >= 0.0
    requires forall c :: 0 <= c < |errors| ==> errors[c] >= 0.0
    requires AllStatistics(estimates, original, errors, oneSided, statistics)
    ensures CoveredReplicates(estimates, original, errors, v, oneSided) == Positions(UpTo(v), statistics)
  {
    forall r: nat | r < |estimates|
      ensures Within(estimates[r], original, errors, v, oneSided) <==> statistics[r] <= v
    {
      StatisticWithin(estimates[r], original, errors, oneSided, statistics[r], v);
    }
    hide Within, Contradicted, IsStatistic;
  }

  ghost predicate AllStatistics(
    estimates: seq<seq<real>>, original: seq<real>, errors: seq<real>, oneSided: bool, statistics: seq<real>)
    requires |original| == |errors| && Rectangular(estimates, |errors|)
  {
    && |statistics| == |estimates|
    && forall i :: 0 <= i < |estimates| ==>
         && !Contradicted(estimates[i], original, errors)
         && IsStatistic(estimates[i], original, errors, oneSided, statistics[i])
  }

  // ---------------------------------------------------------------- zero standard errors

  lemma {:induction false} TotalZero(xs: seq<real>)
    requires forall i :: 0 <= i < |xs| ==> xs[i] >= 0.0
    ensures Total(xs) >= 0.0
    ensures Total(xs) == 0.0 <==> forall i :: 0 <= i < |xs| ==> xs[i] == 0.0
  {
    if xs != [] {
      TotalZero(xs[1..]);
      assert forall i :: 1 <= i < |xs| ==> xs[i] == xs[1..][i - 1];
    }
  }

  lemma SameSign(a: real, b: real)
    requires (a > 0.0 && b > 0.0) || (a < 0.0 && b < 0.0)
    ensures Product(a, b) > 0.0
  {
  }

  lemma ZeroProduct(a: real)
    ensures Product(a, 0.0) == 0.0
  {
  }

  lemma SquareZero(d: real)
    ensures Square(d) >= 0.0
    ensures Square(d) == 0.0 <==> d == 0.0
  {
    hide Product;
    if d == 0.0 {
      ZeroProduct(d);
    } else {
      SameSign(d, d);
    }
  }

  lemma SquaresNonNegative(xs: seq<real>, m: real)
    ensures Total(Squares(xs, m)) >= 0.0
    ensures Total(Squares(xs, m)) == 0.0 <==> forall i :: 0 <= i < |xs| ==> xs[i] == m
  {
    hide Square;
    var squares := Squares(xs, m);
    forall i | 0 <= i < |xs| ensures squares[i] >= 0.0 && (squares[i] == 0.0 <==> xs[i] == m) {
      SquareZero(xs[i] - m);
    }
    TotalZero(squares);
    if Total(squares) == 0.0 {
      forall i | 0 <= i < |xs| ensures xs[i] == m {
        assert squares[i] == 0.0;
      }
    }
  }

  /** A zero standard error means the contrast is the same in every replicate. */
  lemma ZeroErrorIsConstant(xs: seq<real>, e: real)
    requires |xs| >= 2 && IsDeviation(xs, e)
    ensures e == 0.0 <==> forall i :: 0 <= i < |xs| ==> xs[i] == xs[0]
  {
    hide Square, Squares, PairSquares;
    SquareZero(e);
    PairsZero(xs);
    var n := |xs| as real;
    ZeroFactor(2.0 * n * (n - 1.0), Square(e));
  }

  lemma ZeroFactor(k: real, x: real)
    requires k > 0.0
    ensures k * x == 0.0 <==> x == 0.0
  {
  }

  lemma PairsZero(xs: seq<real>)
    requires xs != []
    ensures PairSquares(xs, xs) == 0.0 <==> forall i :: 0 <= i < |xs| ==> xs[i] == xs[0]
  {
    hide Squares;
    var rows := seq(|xs|, i requires 0 <= i < |xs| => Total(Squares(xs, xs[i])));
    forall i | 0 <= i < |xs|
      ensures rows[i] >= 0.0 && (rows[i] == 0.0 <==> forall j :: 0 <= j < |xs| ==> xs[j] == xs[i])
    {
      SquaresNonNegative(xs, xs[i]);
    }
    TotalZero(rows);
    assert PairSquares(xs, xs) == Total(rows);
    hide *;
    if forall i :: 0 <= i < |xs| ==> xs[i] == xs[0] {
      forall i | 0 <= i < |rows| ensures rows[i] == 0.0 {
      }
    }
  }

  /** All replicates agree on some contrast, but not on the mean of the blocks. */
  ghost predicate Degenerate(estimates: seq<seq<real>>, blocks: seq<seq<real>>, width: nat)
    requires estimates != [] && blocks != [] && Rectangular(estimates, width) && Rectangular(blocks, width)
  {
    exists c :: 0 <= c < width && Constant(estimates, width, c) && !IsMean(Column(blocks, c), estimates[0][c])
  }

  ghost predicate Constant(estimates: seq<seq<real>>, width: nat, c: nat)
    requires Rectangular(estimates, width) && c < width
  {
    forall r :: 0 <= r < |estimates| ==> estimates[r][c] == estimates[0][c]
  }

  // ---------------------------------------------------------------- the procedure

  function Classify(lower: real, upper: real, delta: real): Conclusion {
    if upper < -delta then PracticallyLower
    else if lower > delta then PracticallyHigher
    else if lower > -delta && upper < delta then PracticallyEquivalent
    else Inconclusive
  }

  /** The interval lies wholly on the side a conclusion speaks of. */
  ghost predicate Whole(lower: real, upper: real, side: real -> bool) {
    forall x :: lower <= x <= upper ==> side(x)
  }

  /** Each conclusion is drawn exactly when it is true of every value the interval admits. */
  lemma ClassificationIsExact(lower: real, upper: real, delta: real)
    requires delta > 0.0 && lower <= upper
    ensures Classify(lower, upper, delta) == PracticallyLower <==> Whole(lower, upper, x => x < -delta)
    ensures Classify(lower, upper, delta) == PracticallyHigher <==> Whole(lower, upper, x => x > delta)
    ensures Classify(lower, upper, delta) == PracticallyEquivalent <==> Whole(lower, upper, x => -delta < x < delta)
  {
    var below, above, inside := (x: real) => x < -delta, (x: real) => x > delta, (x: real) => -delta < x < delta;
    assert Whole(lower, upper, below) ==> below(upper);
    assert Whole(lower, upper, above) ==> above(lower);
    assert Whole(lower, upper, inside) ==> inside(lower) && inside(upper);
  }

  /** The statistics of all replicates, or a contradiction with a zero standard error. */
  method Statistics(estimates: seq<seq<real>>, original: seq<real>, errors: seq<real>, oneSided: bool)
    returns (r: Option<seq<real>>)
    requires |original| == |errors| && Rectangular(estimates, |errors|)
    ensures r.None? <==> exists i :: 0 <= i < |estimates| && Contradicted(estimates[i], original, errors)
    ensures r.Some? ==> AllStatistics(estimates, original, errors, oneSided, r.value)
  {
    var statistics: seq<real> := [];
    for i := 0 to |estimates|
      invariant |statistics| == i
      invariant forall k :: 0 <= k < i ==>
        && !Contradicted(estimates[k], original, errors)
        && IsStatistic(estimates[k], original, errors, oneSided, statistics[k])
    {
      hide Contradicted, IsStatistic;
      var statistic := Statistic(estimates[i], original, errors, oneSided);
      if statistic.None? {
        return None;
      }
      statistics := statistics + [statistic.value];
    }
    return Some(statistics);
  }

  /** The interval of one contrast: critical times error around the estimate, upper side only when one-sided. */
  ghost predicate IntervalOk(i: Interval, critical: real, delta: real, oneSided: bool) {
    var halfWidth := Reach(critical, i.standardError);
    && i.upper == i.estimate + halfWidth
    && i.lower == (if oneSided then None else Some(i.estimate - halfWidth))
    && i.conclusion == (if oneSided then Inconclusive else Classify(i.estimate - halfWidth, i.upper, delta))
  }

  method Intervals(original: seq<real>, errors: seq<real>, critical: real, delta: real, oneSided: bool)
    returns (intervals: seq<Interval>)
    requires |original| == |errors|
    ensures Centers(intervals) == original && Errors(intervals) == errors
    ensures forall c :: 0 <= c < |original| ==> IntervalOk(intervals[c], critical, delta, oneSided)
  {
    intervals := [];
    for index := 0 to |original|
      invariant |intervals| == index
      invariant forall c :: 0 <= c < index ==> IntervalOk(intervals[c], critical, delta, oneSided)
      invariant forall c :: 0 <= c < index ==>
        intervals[c].estimate == original[c] && intervals[c].standardError == errors[c]
    {
      var halfWidth := Reach(critical, errors[index]);
      var lower := original[index] - halfWidth;
      var upper := original[index] + halfWidth;
      var interval := Interval(original[index], errors[index], if oneSided then None else Some(lower), upper,
                               if oneSided then Inconclusive else Classify(lower, upper, delta));
      assert IntervalOk(interval, critical, delta, oneSided);
      hide IntervalOk;
      intervals := intervals + [interval];
    }
  }

  /** A replicate's estimates lie inside every interval. */
  ghost predicate InsideAll(estimate: seq<real>, intervals: seq<Interval>)
    requires |estimate| == |intervals|
  {
    forall c :: 0 <= c < |intervals| ==> InsideOne(estimate[c], intervals[c])
  }

  predicate InsideOne(x: real, i: Interval) {
    x <= i.upper && (i.lower.Some? ==> i.lower.value <= x)
  }

  ghost function InsideReplicates(estimates: seq<seq<real>>, intervals: seq<Interval>): set<nat>
    requires Rectangular(estimates, |intervals|)
  {
    set r: nat | r < |estimates| && InsideAll(estimates[r], intervals)
  }

  /** A positive bound and a first block of exactly the family's width. */
  predicate InputOk(blocks: seq<seq<real>>, family: nat, delta: real) {
    delta > 0.0 && family > 0 && blocks != [] && |blocks[0]| == family
  }

  predicate ContractOk(blocks: seq<seq<real>>, replicates: u64, contract: bool) {
    |blocks| >= 2 && replicates >= 2 && contract
  }

  /** Blocks and contrasts the procedure accepts. */
  ghost predicate Accepted(blocks: seq<seq<real>>, family: nat, replicates: u64, contract: bool, delta: real) {
    InputOk(blocks, family, delta) && ContractOk(blocks, replicates, contract) && Rectangular(blocks, family)
  }

  /** The estimates and the standard errors of a result. */
  ghost function Centers(intervals: seq<Interval>): (r: seq<real>)
    ensures |r| == |intervals|
  {
    seq(|intervals|, c requires 0 <= c < |intervals| => intervals[c].estimate)
  }

  ghost function Errors(intervals: seq<Interval>): (r: seq<real>)
    ensures |r| == |intervals|
  {
    seq(|intervals|, c requires 0 <= c < |intervals| => intervals[c].standardError)
  }

  /**
   What a result says. Each estimate balances its contrast over the blocks and each standard error is
   the standard deviation of its contrast over the replicates. Every interval is critical times
   standard error around its estimate, on the upper side only when one-sided. The critical value is
   the least with which at least 95% of the replicates have all their contrasts within reach at once,
   and those are the replicates that lie inside all intervals.
   */
  ghost predicate Simultaneous(
    blocks: seq<seq<real>>, width: nat, estimates: seq<seq<real>>, delta: real, oneSided: bool, m: MaxTResult)
    requires Rectangular(blocks, width) && Rectangular(estimates, width)
  {
    && |m.intervals| == width
    && (forall c :: 0 <= c < width ==>
          && IsMean(Column(blocks, c), m.intervals[c].estimate)
          && IsDeviation(Column(estimates, c), m.intervals[c].standardError)
          && IntervalOk(m.intervals[c], m.critical, delta, oneSided))
    && IsCritical(estimates, Centers(m.intervals), Errors(m.intervals), oneSided, m.critical)
    && 100 * |InsideReplicates(estimates, m.intervals)| >= 95 * |estimates|
  }

  /** So blocks and replicates determine the result. */
  lemma ResultUnique(
    blocks: seq<seq<real>>, width: nat, estimates: seq<seq<real>>, delta: real, oneSided: bool,
    a: MaxTResult, b: MaxTResult)
    requires blocks != [] && |estimates| >= 2 && Rectangular(blocks, width) && Rectangular(estimates, width)
    requires Simultaneous(blocks, width, estimates, delta, oneSided, a)
    requires Simultaneous(blocks, width, estimates, delta, oneSided, b)
    ensures a == b
  {
    hide IsMean, IsDeviation, IsCritical, IntervalOk;
    forall c | 0 <= c < width
      ensures a.intervals[c].estimate == b.intervals[c].estimate
      ensures a.intervals[c].standardError == b.intervals[c].standardError
    {
      MeanUnique(Column(blocks, c), a.intervals[c].estimate, b.intervals[c].estimate);
      DeviationUnique(Column(estimates, c), a.intervals[c].standardError, b.intervals[c].standardError);
    }
    assert Centers(a.intervals) == Centers(b.intervals) && Errors(a.intervals) == Errors(b.intervals);
    CriticalUnique(estimates, Centers(a.intervals), Errors(a.intervals), oneSided, a.critical, b.critical);
    forall c | 0 <= c < width ensures a.intervals[c] == b.intervals[c] {
      IntervalUnique(a.intervals[c], b.intervals[c], a.critical, delta, oneSided);
    }
  }

  lemma IntervalUnique(a: Interval, b: Interval, critical: real, delta: real, oneSided: bool)
    requires IntervalOk(a, critical, delta, oneSided) && IntervalOk(b, critical, delta, oneSided)
    requires a.estimate == b.estimate && a.standardError == b.standardError
    ensures a == b
  {
  }

  lemma CriticalUnique(
    estimates: seq<seq<real>>, original: seq<real>, errors: seq<real>, oneSided: bool, a: real, b: real)
    requires |original| == |errors| && Rectangular(estimates, |errors|)
    requires IsCritical(estimates, original, errors, oneSided, a)
    requires IsCritical(estimates, original, errors, oneSided, b)
    ensures a == b
  {
    hide CoveredReplicates;
  }

  /**
   The procedure. Each refusal happens in exactly its own case; a zero standard error is refused
   exactly when some contrast is constant over the replicates but differs from the original
   estimate.
   */
  method Run(blocks: seq<seq<real>>, family: nat, replicates: u64, contract: bool, stream: Bootstrap.Stream,
             sqrt: real -> real, delta: real, oneSided: bool) returns (r: Result<MaxTResult, MaxTError>)
    requires |blocks| <= U64_MAX && IsRoot(sqrt)
    ensures r == Err(BadInput) <==> !InputOk(blocks, family, delta)
    ensures r == Err(FromBootstrap(Bootstrap.BadContract)) <==>
      InputOk(blocks, family, delta) && !ContractOk(blocks, replicates, contract)
    ensures r == Err(FromBootstrap(Bootstrap.BadWidth)) <==>
      InputOk(blocks, family, delta) && ContractOk(blocks, replicates, contract) && !Rectangular(blocks, family)
    ensures Accepted(blocks, family, replicates, contract, delta) ==>
      var spec := Bootstrap.Replicates(blocks, stream, family, 0, replicates);
      && (spec.None? <==> r == Err(FromBootstrap(Bootstrap.Exhausted)))
      && (spec.Some? ==> |spec.value| == replicates && Rectangular(spec.value, family))
      && (spec.Some? ==> (r == Err(ZeroStandardError) <==> Degenerate(spec.value, blocks, family)))
      && (spec.Some? ==> (r.Ok? <==> !Degenerate(spec.value, blocks, family)))
      && (r.Ok? ==> Simultaneous(blocks, family, spec.value, delta, oneSided, r.value))
  {
    if !(delta > 0.0) || family == 0 || |blocks| == 0 || |blocks[0]| != family {
      return Err(BadInput);
    }
    var bootstrap := Bootstrap.BootstrapVectors(blocks, replicates, contract, stream);
    if bootstrap.Err? {
      return Err(FromBootstrap(bootstrap.error));
    }
    var estimates := bootstrap.value;
    r := FromEstimates(blocks, family, estimates, sqrt, delta, oneSided);
  }

  method FromEstimates(blocks: seq<seq<real>>, width: nat, estimates: seq<seq<real>>,
                       sqrt: real -> real, delta: real, oneSided: bool) returns (r: Result<MaxTResult, MaxTError>)
    requires blocks != [] && |estimates| >= 2 && Rectangular(blocks, width) && Rectangular(estimates, width)
    requires IsRoot(sqrt)
    ensures r.Err? <==> r == Err(ZeroStandardError)
    ensures r.Err? <==> Degenerate(estimates, blocks, width)
    ensures r.Ok? ==> Simultaneous(blocks, width, estimates, delta, oneSided, r.value)
  {
    hide Contradicted, AllStatistics, Degenerate, IsRoot, EmpiricalP95, InsideReplicates, IntervalOk, IsMean,
      IsDeviation, IsCritical, Column, Centers, Errors;
    var original := MeanVector(blocks, width);
    var errors := StandardErrors(estimates, width, sqrt);
    DegenerateIsContradicted(estimates, blocks, width, original, errors);
    var statistics := Statistics(estimates, original, errors, oneSided);
    if statistics.None? {
      return Err(ZeroStandardError);
    }
    StatisticsExist(estimates, original, errors, oneSided, statistics.value);
    var critical := EmpiricalP95(statistics.value);
    if critical.None? {
      assert false;
      return Err(NoStatistics);
    }
    var intervals := Intervals(original, errors, critical.value, delta, oneSided);
    ErrorsNonNegative(estimates, errors);
    Coverage(estimates, original, errors, oneSided, statistics.value);
    r := Ok(MaxTResult(critical.value, intervals));
    ResultIs(blocks, width, estimates, original, errors, delta, oneSided, r.value);
  }

  lemma StatisticsExist(
    estimates: seq<seq<real>>, original: seq<real>, errors: seq<real>, oneSided: bool, statistics: seq<real>)
    requires |original| == |errors| && Rectangular(estimates, |errors|) && estimates != []
    requires AllStatistics(estimates, original, errors, oneSided, statistics)
    ensures EmpiricalP95(statistics).Some?
  {
    P95Defined(statistics);
  }

  lemma ErrorsNonNegative(estimates: seq<seq<real>>, errors: seq<real>)
    requires Rectangular(estimates, |errors|)
    requires forall c :: 0 <= c < |errors| ==> IsDeviation(Column(estimates, c), errors[c])
    ensures forall c :: 0 <= c < |errors| ==> errors[c] >= 0.0
  {
    hide PairSquares, Square, Column;
  }

  lemma ResultIs(
    blocks: seq<seq<real>>, width: nat, estimates: seq<seq<real>>, original: seq<real>, errors: seq<real>, delta: real,
    oneSided: bool, m: MaxTResult)
    requires Rectangular(blocks, width) && Rectangular(estimates, width) && |original| == |errors| == width
    requires forall c :: 0 <= c < width ==> IsMean(Column(blocks, c), original[c])
    requires forall c :: 0 <= c < width ==> IsDeviation(Column(estimates, c), errors[c])
    requires Centers(m.intervals) == original && Errors(m.intervals) == errors
    requires forall c :: 0 <= c < width ==> IntervalOk(m.intervals[c], m.critical, delta, oneSided)
    requires IsCritical(estimates, original, errors, oneSided, m.critical)
    ensures Simultaneous(blocks, width, estimates, delta, oneSided, m)
  {
    hide IsMean, IsDeviation, IntervalOk, Column, InsideReplicates, CoveredReplicates;
    InsideIsWithin(estimates, m.critical, delta, oneSided, m.intervals);
    forall c | 0 <= c < width
      ensures m.intervals[c].estimate == original[c] && m.intervals[c].standardError == errors[c]
    {
      assert Centers(m.intervals)[c] == original[c] && Errors(m.intervals)[c] == errors[c];
    }
  }

  lemma DegenerateIsContradicted(
    estimates: seq<seq<real>>, blocks: seq<seq<real>>, width: nat, original: seq<real>, errors: seq<real>)
    requires blocks != [] && |estimates| >= 2 && Rectangular(blocks, width) && Rectangular(estimates, width)
    requires |original| == |errors| == width
    requires forall c :: 0 <= c < width ==> IsMean(Column(blocks, c), original[c])
    requires forall c :: 0 <= c < width ==> IsDeviation(Column(estimates, c), errors[c])
    ensures Degenerate(estimates, blocks, width)
       <==> exists i :: 0 <= i < |estimates| && Contradicted(estimates[i], original, errors)
  {
    hide IsMean, IsDeviation;
    forall c | 0 <= c < width
      ensures errors[c] == 0.0 <==> Constant(estimates, width, c)
      ensures IsMean(Column(blocks, c), estimates[0][c]) <==> estimates[0][c] == original[c]
    {
      ZeroErrorIsConstant(Column(estimates, c), errors[c]);
      ConstantColumn(estimates, width, c);
      if IsMean(Column(blocks, c), estimates[0][c]) {
        MeanUnique(Column(blocks, c), estimates[0][c], original[c]);
      }
    }
    hide Column;
    if Degenerate(estimates, blocks, width) {
      var c :| 0 <= c < width && Constant(estimates, width, c) && !IsMean(Column(blocks, c), estimates[0][c]);
      assert Contradicted(estimates[0], original, errors);
    }
    if i :| 0 <= i < |estimates| && Contradicted(estimates[i], original, errors) {
      var c :| 0 <= c < |errors| && errors[c] == 0.0 && estimates[i][c] != original[c];
      assert Constant(estimates, width, c);
      assert estimates[i][c] == estimates[0][c];
    }
  }

  lemma ConstantColumn(estimates: seq<seq<real>>, width: nat, c: nat)
    requires estimates != [] && Rectangular(estimates, width) && c < width
    ensures var xs := Column(estimates, c);
            (forall i :: 0 <= i < |xs| ==> xs[i] == xs[0]) <==> Constant(estimates, width, c)
  {
    var xs := Column(estimates, c);
    assert forall i :: 0 <= i < |xs| ==> xs[i] == estimates[i][c];
  }

  lemma InsideIsWithin(
    estimates: seq<seq<real>>, critical: real, delta: real, oneSided: bool, intervals: seq<Interval>)
    requires Rectangular(estimates, |intervals|)
    requires forall c :: 0 <= c < |intervals| ==> IntervalOk(intervals[c], critical, delta, oneSided)
    ensures InsideReplicates(estimates, intervals)
         == CoveredReplicates(estimates, Centers(intervals), Errors(intervals), critical, oneSided)
  {
    hide Classify, Reach;
    forall r: nat | r < |estimates|
      ensures InsideAll(estimates[r], intervals)
         <==> Within(estimates[r], Centers(intervals), Errors(intervals), critical, oneSided)
    {
      var estimate := estimates[r];
      forall c | 0 <= c < |intervals|
        ensures InsideOne(estimate[c], intervals[c])
           <==> ContrastWithin(estimate, Centers(intervals), Errors(intervals), critical, oneSided, c)
      {
      }
      hide InsideOne, ContrastWithin;
    }
  }
}
