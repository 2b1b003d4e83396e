/**
 The inverse empirical distribution function in its two forms: over a sample that is
 sorted first, and over a run-length encoded sample that is scanned cumulatively.
 */
module Quantile {
  import opened Arith
  import opened Prelude
  import opened Sorting
  import Rational

  datatype QuantileError = BadInput | BadCount | NotSorted | RankOverflow | Internal

  datatype Run = Run(ticks: u64, multiplicity: u64)

  predicate TickLe(a: u64, b: u64) { a <= b }

  lemma TickOrder()
    ensures TotalPreorder(TickLe)
  {
    forall x, y, z | Chain(TickLe, x, y, z) ensures TickLe(x, z) {
    }
  }

  // ---------------------------------------------------------------- rank

  function CeilDiv(n: nat, d: nat): nat
    requires d > 0
  {
    n / d + (if n % d == 0 then 0 else 1)
  }

  /** The least r with r * d >= n. */
  lemma CeilDivIs(n: nat, d: nat, r: nat)
    requires d > 0
    ensures r >= CeilDiv(n, d) <==> r * d >= n
  {
    Division(n, d);
    var q := n / d;
    if r <= q {
      MulMono(r, q, d);
      if r < q {
        MulMono(r + 1, q, d);
        Distribute(r, 1, d);
      }
    } else {
      MulMono(q + 1, r, d);
      Distribute(q, 1, d);
    }
  }

  /** The rank computed in two halves, so that no product of the count is formed. */
  function SplitRank(count: u64, p: u64, q: u64): Result<u64, QuantileError>
    requires q > 0
  {
    var whole := Rational.CheckedMultiply(count / q, p);
    if whole.None? then Err(RankOverflow)
    else
      var product := Rational.CheckedMultiply(count % q, p);
      if product.None? then Err(RankOverflow)
      else
        var extra := CeilDiv(product.value, q);
        if whole.value > U64_MAX - extra then Err(RankOverflow) else Ok(whole.value + extra)
  }

  lemma SplitProduct(count: nat, p: nat, q: nat)
    requires q > 0
    ensures count * p == count / q * p * q + count % q * p
  {
    Division(count, q);
    Distribute(count / q * q, count % q, p);
    MulAssoc(count / q, q, p);
    MulAssoc(count / q, p, q);
  }

  /** ceil(count * p / q) splits over count == (count / q) * q + count % q. */
  lemma SplitCeil(count: nat, p: nat, q: nat)
    requires q > 0
    ensures count * p >= 0 && count % q * p >= 0
    ensures CeilDiv(count * p, q) == count / q * p + CeilDiv(count % q * p, q)
  {
    MulNonNegative(count, p);
    MulNonNegative(count % q, p);
    var rest := count % q * p;
    SplitProduct(count, p, q);
    Division(rest, q);
    Distribute(count / q * p, rest / q, q);
    DivisionUnique(count * p, q, count / q * p + rest / q, rest % q);
  }

  /** For a probability in (0, 1] the rank is a position of the sample. */
  lemma RankInRange(count: nat, p: nat, q: nat)
    requires count > 0 && 0 < p <= q
    ensures count * p > 0 && 1 <= CeilDiv(count * p, q) <= count
  {
    MulPositive(count, p);
    MulMono(p, q, count);
    CeilDivIs(count * p, q, count);
    CeilDivIs(count * p, q, 0);
  }

  /**
   The split rank is ceil(count * p / q) whenever the remainder product fits; no other
   overflow can happen.
   */
  lemma SplitRankIs(count: u64, p: u64, q: u64)
    requires count > 0 && 0 < p <= q
    ensures count * p > 0 && count % q * p >= 0
    ensures SplitRank(count, p, q)
         == if count % q * p > U64_MAX then Err(RankOverflow) else Ok(CeilDiv(count * p, q))
  {
    RankInRange(count, p, q);
    SplitCeil(count, p, q);
    WholeFits(count, p, q);
    Rational.ProductFits(count / q, p);
    Rational.ProductFits(count % q, p);
    hide CeilDiv;
  }

  lemma WholeFits(count: u64, p: u64, q: u64)
    requires 0 < p <= q
    ensures 0 <= count / q <= U64_MAX && 0 <= count % q <= U64_MAX
    ensures 0 <= count / q * p <= count
  {
    Division(count, q);
    SmallerFactor(count / q, p, q, count);
  }

  lemma SmallerFactor(a: int, p: int, q: int, c: int)
    requires 0 <= a && 0 < p <= q && a * q <= c
    ensures 0 <= a <= c && 0 <= a * p <= c
  {
    MulMono(p, q, a);
    MulMono(1, q, a);
    MulNonNegative(a, p);
  }

  // ---------------------------------------------------------------- sorted sample

  function InverseEcdf(values: seq<u64>, p: u64, q: u64): Result<u64, QuantileError>
    requires |values| <= U64_MAX
  {
    if |values| == 0 || p == 0 || p > q || q == 0 then Err(BadInput)
    else
      var rank := SplitRank(|values|, p, q);
      if rank.Err? then Err(rank.error)
      else if rank.value == 0 || rank.value > |values| then Err(Internal)
      else
        var sorted := Sort(TickLe, values);
        SortLength(values);
        Ok(sorted[rank.value - 1])
  }

  lemma SortLength(values: seq<u64>)
    ensures |Sort(TickLe, values)| == |values|
  {
    TickOrder();
    SortSorts(TickLe, values);
  }

  ghost function AtMost(v: u64): u64 -> bool { (x: u64) => x <= v }

  /** The ECDF reaches p / q at v. */
  ghost predicate Reaches(values: seq<u64>, v: u64, p: u64, q: u64) {
    CountIf(AtMost(v), values) * q >= |values| * p
  }

  /** In an ordered sample more than i values are at most v exactly when position i is. */
  lemma CountInOrder(s: seq<u64>, v: u64, i: nat)
    requires Ordered(TickLe, s) && i < |s|
    ensures CountIf(AtMost(v), s) > i <==> s[i] <= v
  {
    if s[i] <= v {
      forall k | 0 <= k < i + 1 ensures AtMost(v)(s[k]) {
        assert k < i ==> TickLe(s[k], s[i]);
      }
      CountIfPrefix(AtMost(v), s, i + 1);
    } else {
      forall k | i <= k < |s| ensures !AtMost(v)(s[k]) {
        assert i < k ==> TickLe(s[i], s[k]);
      }
      CountIfConcat(AtMost(v), s[..i], s[i..]);
      CountIfPrefix(AtMost(v), s[i..], 0);
      assert s == s[..i] + s[i..];
    }
  }

  /**
   A successful quantile is the least sample value at which the ECDF reaches p / q; on valid
   inputs the only failure is overflow of the remainder product, never the range check.
   */
  lemma InverseEcdfIs(values: seq<u64>, p: u64, q: u64)
    requires 0 < |values| <= U64_MAX && 0 < p <= q
    ensures |values| % q * p >= 0
    ensures InverseEcdf(values, p, q).Err? <==> |values| % q * p > U64_MAX
    ensures InverseEcdf(values, p, q).Err? ==> InverseEcdf(values, p, q).error == RankOverflow
    ensures InverseEcdf(values, p, q).Ok? ==>
      var r := InverseEcdf(values, p, q).value;
      && r in values && Reaches(values, r, p, q)
      && forall v: u64 :: v < r ==> !Reaches(values, v, p, q)
  {
    SplitRankIs(|values|, p, q);
    RankInRange(|values|, p, q);
    var n := |values|;
    hide SplitRank, CeilDiv;
    if n % q * p <= U64_MAX {
      var rank := CeilDiv(n * p, q);
      SortLength(values);
      var r := Sort(TickLe, values)[rank - 1];
      SortedMember(values, rank - 1);
      forall v: u64 ensures Reaches(values, v, p, q) <==> r <= v {
        ReachesAt(values, v, p, q);
      }
      assert Reaches(values, r, p, q);
    }
  }

  lemma SortedMember(values: seq<u64>, i: nat)
    requires i < |Sort(TickLe, values)|
    ensures Sort(TickLe, values)[i] in values
  {
    TickOrder();
    SortSorts(TickLe, values);
    assert Sort(TickLe, values)[i] in multiset(values);
  }

  lemma ReachesAt(values: seq<u64>, v: u64, p: u64, q: u64)
    requires |values| > 0 && 0 < p <= q
    ensures |values| * p > 0 && 1 <= CeilDiv(|values| * p, q) <= |Sort(TickLe, values)|
    ensures Reaches(values, v, p, q) <==> Sort(TickLe, values)[CeilDiv(|values| * p, q) - 1] <= v
  {
    RankInRange(|values|, p, q);
    var rank := CeilDiv(|values| * p, q);
    TickOrder();
    SortSorts(TickLe, values);
    CountIfPermutation(AtMost(v), Sort(TickLe, values), values);
    CountInOrder(Sort(TickLe, values), v, rank - 1);
    CeilDivIs(|values| * p, q, CountIf(AtMost(v), values));
  }

  // ---------------------------------------------------------------- run-length sample

  function TotalCount(runs: seq<Run>): nat {
    if runs == [] then 0 else TotalCount(runs[..|runs| - 1]) + runs[|runs| - 1].multiplicity
  }

  lemma {:induction false} TotalMonotone(runs: seq<Run>, k: nat)
    requires k <= |runs|
    ensures TotalCount(runs[..k]) <= TotalCount(runs)
    decreases |runs|
  {
    if k == |runs| {
      assert runs[..k] == runs;
    } else {
      TotalMonotone(runs[..|runs| - 1], k);
      assert runs[..|runs| - 1][..k] == runs[..k];
    }
  }

  predicate StrictRuns(runs: seq<Run>) {
    && (forall k :: 0 <= k < |runs| ==> runs[k].multiplicity > 0)
    && (forall k :: 0 < k < |runs| ==> runs[k - 1].ticks < runs[k].ticks)
  }

  /** Sum of the multiplicities, or None when it does not fit. */
  method CheckedSum(runs: seq<Run>) returns (sum: Option<u64>)
    ensures sum == if TotalCount(runs) > U64_MAX then None else Some(TotalCount(runs))
  {
    var total: u64 := 0;
    for k := 0 to |runs|
      invariant total == TotalCount(runs[..k])
    {
      assert runs[..k + 1][..k] == runs[..k];
      if runs[k].multiplicity > U64_MAX - total {
        TotalMonotone(runs, k + 1);
        return None;
      }
      total := total + runs[k].multiplicity;
    }
    assert runs[..|runs|] == runs;
    return Some(total);
  }

  /** The sample the runs stand for. */
  ghost function Expand(runs: seq<Run>): seq<u64> {
    if runs == [] then []
    else Expand(runs[..|runs| - 1]) + seq(runs[|runs| - 1].multiplicity, _ => runs[|runs| - 1].ticks)
  }

  lemma {:induction false} ExpandLength(runs: seq<Run>)
    ensures |Expand(runs)| == TotalCount(runs)
  {
    if runs != [] {
      ExpandLength(runs[..|runs| - 1]);
    }
  }

  /** Position r of the expanded sample belongs to the run that first covers it. */
  lemma {:induction false} ExpandAt(runs: seq<Run>, k: nat, r: nat)
    requires k < |runs| && TotalCount(runs[..k]) <= r < TotalCount(runs[..k + 1])
    ensures r < |Expand(runs)| && Expand(runs)[r] == runs[k].ticks
  {
    var front := runs[..|runs| - 1];
    ExpandLength(runs);
    ExpandLength(front);
    assert runs[..|runs|] == runs;
    TotalMonotone(runs, k + 1);
    if k < |runs| - 1 {
      assert front[..k] == runs[..k] && front[..k + 1] == runs[..k + 1];
      ExpandAt(front, k, r);
    } else {
      assert runs[..k] == front && runs[..k + 1] == runs;
    }
  }

  lemma {:induction false} ExpandBounded(runs: seq<Run>, i: nat)
    requires StrictRuns(runs) && i < |Expand(runs)|
    ensures |runs| > 0 && Expand(runs)[i] <= runs[|runs| - 1].ticks
  {
    var front := runs[..|runs| - 1];
    if i < |Expand(front)| {
      ExpandBounded(front, i);
      assert front[|front| - 1] == runs[|runs| - 2];
    }
  }

  lemma {:induction false} ExpandOrdered(runs: seq<Run>)
    requires StrictRuns(runs)
    ensures Ordered(TickLe, Expand(runs))
  {
    if runs != [] {
      var front := runs[..|runs| - 1];
      ExpandOrdered(front);
      var e := Expand(runs);
      forall i, j | 0 <= i < j < |e| ensures TickLe(e[i], e[j]) {
        if j >= |Expand(front)| {
          ExpandBounded(runs, i);
        } else {
          assert e[i] == Expand(front)[i] && e[j] == Expand(front)[j];
        }
      }
    }
  }

  /** Is every multiplicity positive and every value above its predecessor? */
  method CheckRuns(runs: seq<Run>) returns (ok: bool)
    ensures ok <==> StrictRuns(runs)
  {
    var previous: u64 := 0;
    var first := true;
    for k := 0 to |runs|
      invariant StrictRuns(runs[..k])
      invariant first <==> k == 0
      invariant k > 0 ==> previous == runs[k - 1].ticks
    {
      assert runs[..k + 1] == runs[..k] + [runs[k]];
      if runs[k].multiplicity == 0 || (!first && runs[k].ticks <= previous) {
        return false;
      }
      previous := runs[k].ticks;
      first := false;
    }
    assert runs[..|runs|] == runs;
    return true;
  }

  /** What the run-length quantile must answer. */
  ghost function RunQuantile(runs: seq<Run>, p: u64, q: u64): Result<u64, QuantileError> {
    if |runs| == 0 || p == 0 || q == 0 || p > q then Err(BadInput)
    else if TotalCount(runs) == 0 || TotalCount(runs) > U64_MAX then Err(BadCount)
    else if !StrictRuns(runs) then Err(NotSorted)
    else
      ExpandLength(runs);
      InverseEcdf(Expand(runs), p, q)
  }

  lemma QuotientSmall(count: u64, p: u64, q: u64)
    requires 0 < p <= q
    ensures count / q <= U64_MAX / p
  {
    var a := count / q;
    Division(count, q);
    MulMono(p, q, a);
    Rational.ProductFits(p, a);
  }

  lemma RemainderFits(r: u64, p: u64)
    requires p > 0
    ensures r > U64_MAX / p <==> r * p > U64_MAX
  {
    Rational.ProductFits(p, r);
  }

  /** The scan: cumulative multiplicities until the rank is reached. */
  method RunLengthQuantile(runs: seq<Run>, p: u64, q: u64) returns (r: Result<u64, QuantileError>)
    ensures r == RunQuantile(runs, p, q)
    ensures r != Err(Internal)
  {
    if |runs| == 0 || p == 0 || q == 0 || p > q {
      return Err(BadInput);
    }
    var count := CheckedSum(runs);
    if count.None? || count.value == 0 {
      return Err(BadCount);
    }
    var sorted := CheckRuns(runs);
    if !sorted {
      return Err(NotSorted);
    }
    ExpandLength(runs);
    InverseEcdfIs(Expand(runs), p, q);
    r := Scan(runs, count.value, p, q);
  }

  method Scan(runs: seq<Run>, count: u64, p: u64, q: u64) returns (r: Result<u64, QuantileError>)
    requires 0 < p <= q && count > 0 && count == TotalCount(runs) && StrictRuns(runs)
    ensures |Expand(runs)| == count
    ensures r == InverseEcdf(Expand(runs), p, q)
  {
    ExpandLength(runs);
    SplitRankIs(count, p, q);
    RankInRange(count, p, q);
    SplitCeil(count, p, q);
    QuotientSmall(count, p, q);
    RemainderFits(count % q, p);
    var quotient, remainder := count / q, count % q;
    if quotient > U64_MAX / p || remainder > U64_MAX / p {
      return Err(RankOverflow);
    }
    var rank := quotient * p;
    var remainderProduct := remainder * p;
    var extra := remainderProduct / q + (if remainderProduct % q == 0 then 0 else 1);
    if rank > U64_MAX - extra {
      return Err(RankOverflow);
    }
    rank := rank + extra;
    assert rank == CeilDiv(count * p, q);
    assert runs[..|runs|] == runs;
    var cumulative: nat := 0;
    for k := 0 to |runs|
      invariant cumulative == TotalCount(runs[..k])
      invariant cumulative < rank
    {
      assert runs[..k + 1][..k] == runs[..k];
      cumulative := cumulative + runs[k].multiplicity;
      if cumulative >= rank {
        FoundAt(runs, k, rank, p, q);
        return Ok(runs[k].ticks);
      }
    }
    assert false;
    return Err(Internal);
  }

  lemma FoundAt(runs: seq<Run>, k: nat, rank: nat, p: u64, q: u64)
    requires StrictRuns(runs) && k < |runs| && 0 < |Expand(runs)| <= U64_MAX && 0 < p <= q
    requires SplitRank(|Expand(runs)|, p, q) == Ok(rank) && 1 <= rank <= |Expand(runs)|
    requires TotalCount(runs[..k]) < rank <= TotalCount(runs[..k + 1])
    ensures InverseEcdf(Expand(runs), p, q) == Ok(runs[k].ticks)
  {
    var e := Expand(runs);
    ExpandOrdered(runs);
    TickOrder();
    SortSorts(TickLe, e);
    OrderedUnique(TickLe, Sort(TickLe, e), e);
    ExpandAt(runs, k, rank - 1);
  }
}
