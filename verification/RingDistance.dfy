/**
 Resolution of the ring prefetch distance for one context: running limits over the valid
 runs of both hardware states, then the distance under the quarter-capacity cap.
 */
module RingDistance {
  import opened Arith
  import opened Prelude
  import Quantile
  import Rational
  import Sorting

  /** The four tick series of a run. */
  datatype Series = Series(
    producerDemand: seq<u64>, consumerDemand: seq<u64>, producerIssue: seq<u64>, consumerIssue: seq<u64>)

  /** A planned run: not present, marked invalid, or valid with its series. */
  datatype Evidence = Absent | Invalid | Valid(series: Series)

  datatype Geometry = Geometry(capacity: u64, cacheLineBytes: u64, slotBytes: u64)

  datatype RingError = BadSeries | BadQuantile

  datatype Limits = Limits(producerDemand: u64, consumerDemand: u64, producerIssue: u64, consumerIssue: u64)

  datatype ContextResult =
    | NotEvaluated
    | Ineligible
    | Resolved(d1: u64, lines: u64, distance: u64)

  // ---------------------------------------------------------------- the distance

  /** Ceiling division with the source's failure cases. */
  function CheckedCeilDivide(numerator: u64, denominator: u64): Option<u64> {
    if denominator == 0 then None
    else
      QuotientFits(numerator, denominator);
      var result := numerator / denominator;
      if numerator % denominator != 0 then
        if result == U64_MAX then None else Some(result + 1)
      else Some(result)
  }

  lemma QuotientFits(n: u64, d: u64)
    requires d > 0
    ensures 0 <= n / d <= n && (n % d != 0 ==> n / d < U64_MAX)
  {
    Division(n, d);
    MulMono(1, d, n / d);
  }

  /** Ceiling division fails only on a zero denominator. */
  lemma CeilDivideIs(n: u64, d: u64)
    requires d > 0
    ensures CheckedCeilDivide(n, d) == Some(Quantile.CeilDiv(n, d))
  {
    QuotientFits(n, d);
  }

  function Distance(geometry: Geometry, demand: u64, issue: u64): ContextResult {
    if geometry.capacity == 0 || geometry.cacheLineBytes == 0 || geometry.slotBytes == 0 then Ineligible
    else
      var d1 := CheckedCeilDivide(geometry.cacheLineBytes, geometry.slotBytes);
      var rawSlots := CheckedCeilDivide(demand, issue);
      if d1.None? || rawSlots.None? then Ineligible
      else
        var rawLines := CheckedCeilDivide(rawSlots.value, d1.value);
        if rawLines.None? then Ineligible
        else
          QuotientFits(geometry.capacity / 4, d1.value);
          var capLines := geometry.capacity / 4 / d1.value;
          var wanted := if rawLines.value < 2 then 2 else rawLines.value;
          var lines := if wanted < capLines then wanted else capLines;
          var slots := Rational.CheckedMultiply(lines, d1.value);
          if capLines < 2 || slots.None? || slots.value <= d1.value then Ineligible
          else Resolved(d1.value, lines, slots.value)
  }

  /** So many lines of d1 slots cover the demand at this issue rate. */
  ghost predicate Suffices(lines: nat, d1: nat, issue: nat, demand: nat) { lines * d1 * issue >= demand }

  /** No smaller number of lines from two up suffices. */
  ghost predicate LeastLines(lines: nat, d1: nat, issue: nat, demand: nat) {
    lines >= 2 && forall m: nat :: 2 <= m < lines ==> !Suffices(m, d1, issue, demand)
  }

  /**
   d1 slots are the fewest that fill a cache line; the distance is the least sufficient multiple of d1 from two
   lines up, or the largest under a quarter of the capacity.
   */
  ghost predicate GoodDistance(geometry: Geometry, demand: u64, issue: u64, r: ContextResult)
    requires r.Resolved?
  {
    && r.d1 > 0
    && (r.d1 - 1) * geometry.slotBytes < geometry.cacheLineBytes <= r.d1 * geometry.slotBytes
    && r.distance == r.lines * r.d1
    && r.distance > r.d1
    && r.distance * 4 <= geometry.capacity
    && LeastLines(r.lines, r.d1, issue, demand)
    && (Suffices(r.lines, r.d1, issue, demand) || (r.distance + r.d1) * 4 > geometry.capacity)
  }

  /**
   A context with positive limits resolves exactly when its geometry is complete and at least
   two lines fit under a quarter of the capacity; the distance then is the least multiple of d1,
   from two lines up, that covers the demand, or the largest one under the cap.
   */
  lemma DistanceIsGood(geometry: Geometry, demand: u64, issue: u64)
    requires issue > 0
    ensures var r := Distance(geometry, demand, issue);
            && r != NotEvaluated
            && (r.Resolved? ==> GoodDistance(geometry, demand, issue, r))
            && (r.Resolved? <==>
                  && geometry.capacity > 0 && geometry.cacheLineBytes > 0 && geometry.slotBytes > 0
                  && 2 * Quantile.CeilDiv(geometry.cacheLineBytes, geometry.slotBytes) <= geometry.capacity / 4)
  {
    if geometry.capacity > 0 && geometry.cacheLineBytes > 0 && geometry.slotBytes > 0 {
      CeilDivideIs(geometry.cacheLineBytes, geometry.slotBytes);
      CeilDivideIs(demand, issue);
      var d1 := Quantile.CeilDiv(geometry.cacheLineBytes, geometry.slotBytes);
      Quantile.CeilDivIs(geometry.cacheLineBytes, geometry.slotBytes, 0);
      Quantile.CeilDivIs(geometry.cacheLineBytes, geometry.slotBytes, d1);
      Quantile.CeilDivIs(geometry.cacheLineBytes, geometry.slotBytes, d1 - 1);
      var raw := Quantile.CeilDiv(demand, issue);
      CeilDivideIs(raw, d1);
      hide Quantile.CeilDiv, CheckedCeilDivide;
      LinesAreGood(geometry, demand, issue, d1, raw, Quantile.CeilDiv(raw, d1));
    }
  }

  lemma LinesAreGood(geometry: Geometry, demand: u64, issue: u64, d1: u64, raw: u64, rawLines: u64)
    requires issue > 0 && d1 > 0 && geometry.capacity > 0
    requires (d1 - 1) * geometry.slotBytes < geometry.cacheLineBytes <= d1 * geometry.slotBytes
    requires raw == Quantile.CeilDiv(demand, issue) && rawLines == Quantile.CeilDiv(raw, d1)
    ensures var capLines := geometry.capacity / 4 / d1;
            var wanted := if rawLines < 2 then 2 else rawLines;
            var lines := if wanted < capLines then wanted else capLines;
            && 0 <= capLines <= U64_MAX && 0 <= lines * d1 <= U64_MAX
            && (capLines >= 2 <==> 2 * d1 <= geometry.capacity / 4)
            && (capLines >= 2 ==>
                  && lines * d1 > d1
                  && GoodDistance(geometry, demand, issue, Resolved(d1, lines, lines * d1)))
    ensures forall lines: u64 :: 0 <= lines * d1 <= U64_MAX ==>
              Rational.CheckedMultiply(lines, d1) == Some(lines * d1)
  {
    var quarter := geometry.capacity / 4;
    var capLines := quarter / d1;
    Division(quarter, d1);
    QuotientFits(quarter, d1);
    var wanted := if rawLines < 2 then 2 else rawLines;
    var lines := if wanted < capLines then wanted else capLines;
    MulMono(lines, capLines, d1);
    MulNonNegative(lines, d1);
    CapIs(quarter, d1, capLines);
    if capLines >= 2 {
      MulMono(2, lines, d1);
      if lines == capLines {
        Distribute(capLines, 1, d1);
      } else {
        CoversIff(demand, issue, d1, raw, rawLines, lines);
      }
      LinesAreLeast(demand, issue, d1, raw, rawLines, lines);
    }
    hide LeastLines, Suffices;
    forall k: u64 | 0 <= k * d1 <= U64_MAX ensures Rational.CheckedMultiply(k, d1) == Some(k * d1) {
      Rational.ProductFits(k, d1);
    }
  }

  lemma CapIs(quarter: int, d1: int, capLines: int)
    requires d1 > 0 && capLines == quarter / d1
    ensures capLines >= 2 <==> 2 * d1 <= quarter
  {
    Division(quarter, d1);
    if capLines >= 2 {
      MulMono(2, capLines, d1);
    } else {
      MulMono(capLines, 1, d1);
    }
  }

  lemma LinesAreLeast(demand: nat, issue: nat, d1: nat, raw: nat, rawLines: nat, lines: nat)
    requires issue > 0 && d1 > 0 && 2 <= lines && (lines == 2 || lines <= rawLines)
    requires raw == Quantile.CeilDiv(demand, issue) && rawLines == Quantile.CeilDiv(raw, d1)
    ensures LeastLines(lines, d1, issue, demand)
  {
    hide Suffices;
    forall m: nat | 2 <= m < lines ensures !Suffices(m, d1, issue, demand) {
      CoversIff(demand, issue, d1, raw, rawLines, m);
    }
  }

  /** Rounding up to slots and then to lines is rounding up to lines. */
  lemma CoversIff(demand: nat, issue: nat, d1: nat, raw: nat, rawLines: nat, lines: nat)
    requires issue > 0 && d1 > 0
    requires raw == Quantile.CeilDiv(demand, issue) && rawLines == Quantile.CeilDiv(raw, d1)
    ensures Suffices(lines, d1, issue, demand) <==> lines >= rawLines
  {
    Quantile.CeilDivIs(raw, d1, lines);
    MulNonNegative(lines, d1);
    Quantile.CeilDivIs(demand, issue, lines * d1);
  }

  // ---------------------------------------------------------------- running limits

  predicate AllPositive(values: seq<u64>) {
    forall k :: 0 <= k < |values| ==> values[k] != 0
  }

  predicate CompleteSeries(s: Series, minimum: u64) {
    && |s.producerDemand| >= minimum && |s.consumerDemand| >= minimum
    && |s.producerIssue| >= minimum && |s.consumerIssue| >= minimum
    && AllPositive(s.producerDemand) && AllPositive(s.consumerDemand)
    && AllPositive(s.producerIssue) && AllPositive(s.consumerIssue)
  }

  /** Vector sizes fit the machine word. */
  predicate Sized(s: Series) {
    && |s.producerDemand| <= U64_MAX && |s.consumerDemand| <= U64_MAX
    && |s.producerIssue| <= U64_MAX && |s.consumerIssue| <= U64_MAX
  }

  /** The places of a series that are at most v. */
  ghost function AtMost(values: seq<u64>, v: u64): set<nat> {
    set k: nat | k < |values| && values[k] <= v
  }

  /** v is the least number that at least `parts` of 1000 parts of the series do not exceed. */
  ghost predicate IsLimit(values: seq<u64>, parts: nat, v: u64) {
    && 1000 * |AtMost(values, v)| >= parts * |values|
    && forall u: u64 :: u < v ==> 1000 * |AtMost(values, u)| < parts * |values|
  }

  lemma LimitIs(values: seq<u64>, parts: u64, v: u64)
    requires 0 < |values| <= U64_MAX && 0 < parts <= 1000
    requires Quantile.InverseEcdf(values, parts, 1000).Ok?
    ensures IsLimit(values, parts, v) <==> Quantile.InverseEcdf(values, parts, 1000).value == v
  {
    Quantile.InverseEcdfIs(values, parts, 1000);
    hide Quantile.InverseEcdf;
    forall u: u64
      ensures Quantile.Reaches(values, u, parts, 1000) <==> 1000 * |AtMost(values, u)| >= parts * |values|
    {
      ShareIs(values, u);
    }
    hide AtMost, Quantile.Reaches;
  }

  lemma ShareIs(values: seq<u64>, v: u64)
    ensures |AtMost(values, v)| == Sorting.CountIf(Quantile.AtMost(v), values)
  {
    Sorting.CountIfIsPositions(Quantile.AtMost(v), values);
    assert AtMost(values, v) == Sorting.Positions(Quantile.AtMost(v), values);
  }

  /** The high demand and low issue quantiles of one run. */
  function RunLimits(s: Series): Option<Limits>
    requires Sized(s)
  {
    var pd := Quantile.InverseEcdf(s.producerDemand, 999, 1000);
    var cd := Quantile.InverseEcdf(s.consumerDemand, 999, 1000);
    var pi := Quantile.InverseEcdf(s.producerIssue, 1, 1000);
    var ci := Quantile.InverseEcdf(s.consumerIssue, 1, 1000);
    if pd.Err? || cd.Err? || pi.Err? || ci.Err? then None
    else Some(Limits(pd.value, cd.value, pi.value, ci.value))
  }

  /** With small probabilities and nonempty positive series the quantiles exist and are positive. */
  lemma LimitsExist(s: Series, minimum: u64)
    requires minimum > 0 && CompleteSeries(s, minimum) && Sized(s)
    ensures RunLimits(s).Some?
    ensures var l := RunLimits(s).value;
            && l.producerDemand > 0 && l.consumerDemand > 0 && l.producerIssue > 0 && l.consumerIssue > 0
            && IsLimit(s.producerDemand, 999, l.producerDemand) && IsLimit(s.consumerDemand, 999, l.consumerDemand)
            && IsLimit(s.producerIssue, 1, l.producerIssue) && IsLimit(s.consumerIssue, 1, l.consumerIssue)
  {
    hide IsLimit;
    QuantilePositive(s.producerDemand, 999);
    QuantilePositive(s.consumerDemand, 999);
    QuantilePositive(s.producerIssue, 1);
    QuantilePositive(s.consumerIssue, 1);
  }

  lemma QuantilePositive(values: seq<u64>, p: u64)
    requires 0 < |values| <= U64_MAX && AllPositive(values) && 0 < p <= 1000
    ensures Quantile.InverseEcdf(values, p, 1000).Ok? && Quantile.InverseEcdf(values, p, 1000).value > 0
    ensures IsLimit(values, p, Quantile.InverseEcdf(values, p, 1000).value)
  {
    hide IsLimit;
    Quantile.InverseEcdfIs(values, p, 1000);
    MulMono(|values| % 1000, 999, p);
    assert |values| % 1000 * p <= 999 * p <= U64_MAX;
    var r := Quantile.InverseEcdf(values, p, 1000).value;
    var k :| 0 <= k < |values| && values[k] == r;
    LimitIs(values, p, r);
  }

  /** `limits` bounds `run`. */
  ghost predicate Bounds(limits: Limits, run: Limits) {
    && limits.producerDemand >= run.producerDemand && limits.consumerDemand >= run.consumerDemand
    && limits.producerIssue <= run.producerIssue && limits.consumerIssue <= run.consumerIssue
  }

  /** A run covered by distance d: both workers, each with its own demand and issue limits. */
  ghost predicate Covered(e: Evidence, d: u64) {
    forall demand: u64, issue: u64 ::
      && (RunHas(e, 0, demand) && RunHas(e, 2, issue) ==> d * issue >= demand)
      && (RunHas(e, 1, demand) && RunHas(e, 3, issue) ==> d * issue >= demand)
  }

  ghost predicate AllSized(states: seq<seq<Evidence>>) {
    forall i, k :: 0 <= i < |states| && 0 <= k < |states[i]| && states[i][k].Valid? ==> Sized(states[i][k].series)
  }

  /** The valid runs seen so far are all bounded by the running limits. */
  ghost predicate SoFar(runs: seq<Evidence>, n: nat, limits: Option<Limits>)
    requires n <= |runs|
  {
    forall k :: 0 <= k < n && runs[k].Valid? ==>
      && Sized(runs[k].series) && RunLimits(runs[k].series).Some?
      && limits.Some? && Bounds(limits.value, RunLimits(runs[k].series).value)
  }

  /** The limits only widen, and stay positive. */
  ghost predicate Widens(before: Option<Limits>, after: Option<Limits>) {
    && (before.Some? ==> after.Some? && Bounds(after.value, before.value))
    && (after.Some? ==> after.value.producerIssue > 0 && after.value.consumerIssue > 0)
  }

  /** One of the four limits: two demands, two issue gaps. */
  function Part(l: Limits, c: nat): u64 {
    match c case 0 => l.producerDemand case 1 => l.consumerDemand case 2 => l.producerIssue case _ => l.consumerIssue
  }

  /** Some valid run among the first n has this limit. */
  ghost predicate Seen(runs: seq<Evidence>, n: nat, c: nat, x: u64)
    requires n <= |runs|
  {
    exists k :: 0 <= k < n && RunHas(runs[k], c, x)
  }

  /** A valid run's limits: 999 of 1000 parts of a demand series, 1 of 1000 parts of an issue series. */
  ghost predicate RunHas(e: Evidence, c: nat, x: u64) {
    && e.Valid?
    && match c
       case 0 => IsLimit(e.series.producerDemand, 999, x)
       case 1 => IsLimit(e.series.consumerDemand, 999, x)
       case 2 => IsLimit(e.series.producerIssue, 1, x)
       case _ => IsLimit(e.series.consumerIssue, 1, x)
  }

  lemma RunHasIs(e: Evidence, c: nat, x: u64)
    requires e.Valid? && Sized(e.series) && RunLimits(e.series).Some?
    ensures RunHas(e, c, x) <==> Part(RunLimits(e.series).value, c) == x
  {
    hide IsLimit;
    match c
    case 0 => LimitIs(e.series.producerDemand, 999, x);
    case 1 => LimitIs(e.series.consumerDemand, 999, x);
    case 2 => LimitIs(e.series.producerIssue, 1, x);
    case _ => LimitIs(e.series.consumerIssue, 1, x);
  }

  /** Every running limit is the start's or some valid run's. */
  ghost predicate Attained(runs: seq<Evidence>, n: nat, start: Option<Limits>, limits: Option<Limits>)
    requires n <= |runs|
  {
    && (limits.None? ==> start.None?)
    && (limits.Some? ==> forall c: nat :: c < 4 ==>
          (start.Some? && Part(limits.value, c) == Part(start.value, c)) || Seen(runs, n, c, Part(limits.value, c)))
  }

  lemma AttainedSkip(runs: seq<Evidence>, n: nat, start: Option<Limits>, limits: Option<Limits>)
    requires n < |runs| && Attained(runs, n, start, limits)
    ensures Attained(runs, n + 1, start, limits)
  {
    hide RunHas, Part;
    if limits.Some? {
      forall c: nat | c < 4 && Seen(runs, n, c, Part(limits.value, c))
        ensures Seen(runs, n + 1, c, Part(limits.value, c))
      {
        var k :| 0 <= k < n && RunHas(runs[k], c, Part(limits.value, c));
      }
    }
  }

  lemma AttainedStep(runs: seq<Evidence>, n: nat, start: Option<Limits>, limits: Option<Limits>, run: Limits)
    requires n < |runs| && Attained(runs, n, start, limits)
    requires runs[n].Valid? && Sized(runs[n].series) && RunLimits(runs[n].series) == Some(run)
    ensures Attained(runs, n + 1, start, Some(Widen(limits, run)))
  {
    AttainedSkip(runs, n, start, limits);
    hide RunLimits, RunHas;
    var next := Widen(limits, run);
    forall c: nat | c < 4
      ensures (start.Some? && Part(next, c) == Part(start.value, c)) || Seen(runs, n + 1, c, Part(next, c))
    {
      assert Part(next, c) == Part(run, c) || (limits.Some? && Part(next, c) == Part(limits.value, c));
      if Part(next, c) == Part(run, c) {
        RunHasIs(runs[n], c, Part(next, c));
      }
    }
  }

  function Widen(limits: Option<Limits>, run: Limits): Limits {
    if limits.None? then run
    else
      var l := limits.value;
      Limits(if run.producerDemand > l.producerDemand then run.producerDemand else l.producerDemand,
             if run.consumerDemand > l.consumerDemand then run.consumerDemand else l.consumerDemand,
             if run.producerIssue < l.producerIssue then run.producerIssue else l.producerIssue,
             if run.consumerIssue < l.consumerIssue then run.consumerIssue else l.consumerIssue)
  }

  function CountPresent(runs: seq<Evidence>): nat {
    if runs == [] then 0 else CountPresent(runs[..|runs| - 1]) + (if runs[|runs| - 1].Absent? then 0 else 1)
  }

  function CountValid(runs: seq<Evidence>): nat {
    if runs == [] then 0 else CountValid(runs[..|runs| - 1]) + (if runs[|runs| - 1].Valid? then 1 else 0)
  }

  /** A hardware state's planned runs are all present, and at least 59 of them are valid. */
  ghost predicate StateReady(runs: seq<Evidence>) {
    (forall k :: 0 <= k < |runs| ==> !runs[k].Absent?) && |ValidRuns(runs)| >= 59
  }

  ghost function ValidRuns(runs: seq<Evidence>): set<nat> {
    set k: nat | k < |runs| && runs[k].Valid?
  }

  lemma {:induction false} CountsAre(runs: seq<Evidence>)
    ensures CountPresent(runs) <= |runs|
    ensures CountPresent(runs) == |runs| <==> forall k :: 0 <= k < |runs| ==> !runs[k].Absent?
    ensures CountValid(runs) == |ValidRuns(runs)|
  {
    if runs != [] {
      var n := |runs| - 1;
      CountsAre(runs[..n]);
      assert ValidRuns(runs) == ValidRuns(runs[..n]) + (if runs[n].Valid? then {n} else {});
      assert forall k :: 0 <= k < n ==> runs[..n][k] == runs[k];
    }
  }

  /** One hardware state's planned runs, in plan order. */
  method EvaluateState(runs: seq<Evidence>, minimum: u64, start: Option<Limits>)
    returns (r: Result<(Option<Limits>, bool), RingError>)
    requires minimum > 0
    requires forall k :: 0 <= k < |runs| && runs[k].Valid? ==> Sized(runs[k].series)
    requires start.Some? ==> start.value.producerIssue > 0 && start.value.consumerIssue > 0
    ensures r.Ok? ==> SoFar(runs, |runs|, r.value.0) && Widens(start, r.value.0)
    ensures r.Ok? ==> Attained(runs, |runs|, start, r.value.0)
    ensures r.Ok? ==> (r.value.1 <==> StateReady(runs))
    ensures r.Err? <==> exists k :: 0 <= k < |runs| && Broken(runs[k], minimum)
    ensures r.Err? ==> r.error == BadSeries
    ensures r.Ok? && start.None? && r.value.0.None? ==> CountValid(runs) == 0
  {
    hide Limited;
    var present, valid := 0, 0;
    var limits := start;
    LimitedStart(runs, start);
    for k := 0 to |runs|
      invariant Limited(runs, k, start, limits)
      invariant present == CountPresent(runs[..k]) && valid == CountValid(runs[..k])
      invariant forall j :: 0 <= j < k ==> !Broken(runs[j], minimum)
      invariant start.None? && limits.None? ==> valid == 0
    {
      hide RunLimits, CompleteSeries, SeriesOf;
      assert runs[..k + 1][..k] == runs[..k];
      if runs[k].Absent? {
        LimitedSkip(runs, k, start, limits);
        continue;
      }
      present := present + 1;
      if runs[k].Invalid? {
        LimitedSkip(runs, k, start, limits);
        continue;
      }
      BrokenIs(runs[k], minimum);
      if !CompleteSeries(runs[k].series, minimum) {
        return Err(BadSeries);
      }
      LimitsExist(runs[k].series, minimum);
      var run := RunLimits(runs[k].series);
      if run.None? {
        assert false;
        return Err(BadQuantile);
      }
      LimitedStep(runs, k, start, limits, run.value);
      limits := Some(Widen(limits, run.value));
      valid := valid + 1;
    }
    assert runs[..|runs|] == runs;
    LimitedEnd(runs, start, limits);
    CountsAre(runs);
    return Ok((limits, present == |runs| && valid >= 59));
  }

  /** The running limits after the first n runs: they bound those runs, only widened, and are attained. */
  ghost predicate Limited(runs: seq<Evidence>, n: nat, start: Option<Limits>, limits: Option<Limits>)
    requires n <= |runs|
  {
    SoFar(runs, n, limits) && Widens(start, limits) && Attained(runs, n, start, limits)
  }

  lemma LimitedStart(runs: seq<Evidence>, start: Option<Limits>)
    requires start.Some? ==> start.value.producerIssue > 0 && start.value.consumerIssue > 0
    ensures Limited(runs, 0, start, start)
  {
  }

  lemma LimitedEnd(runs: seq<Evidence>, start: Option<Limits>, limits: Option<Limits>)
    requires Limited(runs, |runs|, start, limits)
    ensures SoFar(runs, |runs|, limits) && Widens(start, limits) && Attained(runs, |runs|, start, limits)
  {
  }

  lemma LimitedSkip(runs: seq<Evidence>, n: nat, start: Option<Limits>, limits: Option<Limits>)
    requires n < |runs| && !runs[n].Valid? && Limited(runs, n, start, limits)
    ensures Limited(runs, n + 1, start, limits)
  {
    AttainedSkip(runs, n, start, limits);
    hide Attained;
  }

  lemma LimitedStep(runs: seq<Evidence>, n: nat, start: Option<Limits>, limits: Option<Limits>, run: Limits)
    requires n < |runs| && Limited(runs, n, start, limits)
    requires runs[n].Valid? && Sized(runs[n].series) && RunLimits(runs[n].series) == Some(run)
    requires run.producerIssue > 0 && run.consumerIssue > 0
    ensures Limited(runs, n + 1, start, Some(Widen(limits, run)))
  {
    AttainedStep(runs, n, start, limits, run);
    hide Attained, RunLimits, Sized;
  }

  /** A run marked valid one of whose four series is too short or holds a zero. */
  ghost predicate Broken(e: Evidence, minimum: u64) {
    e.Valid? && exists c: nat :: c < 4 && Unusable(SeriesOf(e.series, c), minimum)
  }

  function SeriesOf(s: Series, c: nat): seq<u64> {
    match c
    case 0 => s.producerDemand
    case 1 => s.consumerDemand
    case 2 => s.producerIssue
    case _ => s.consumerIssue
  }

  ghost predicate Unusable(values: seq<u64>, minimum: u64) { |values| < minimum || 0 in values }

  lemma BrokenIs(e: Evidence, minimum: u64)
    requires e.Valid?
    ensures Broken(e, minimum) <==> !CompleteSeries(e.series, minimum)
  {
    forall c: nat | c < 4
      ensures Unusable(SeriesOf(e.series, c), minimum)
         <==> !(|SeriesOf(e.series, c)| >= minimum && AllPositive(SeriesOf(e.series, c)))
    {
    }
    hide Unusable, AllPositive;
    assert Unusable(e.series.producerDemand, minimum) ==> Unusable(SeriesOf(e.series, 0), minimum);
    assert Unusable(e.series.consumerDemand, minimum) ==> Unusable(SeriesOf(e.series, 1), minimum);
    assert Unusable(e.series.producerIssue, minimum) ==> Unusable(SeriesOf(e.series, 2), minimum);
    assert Unusable(e.series.consumerIssue, minimum) ==> Unusable(SeriesOf(e.series, 3), minimum);
  }

  /** A valid run of some state has this limit. */
  ghost predicate SomeRunHas(states: seq<seq<Evidence>>, c: nat, x: u64) {
    exists i, k :: 0 <= i < |states| && 0 <= k < |states[i]| && RunHas(states[i][k], c, x)
  }

  /** The largest demand quantile of any valid run of either worker in either state. */
  ghost predicate ConservativeDemand(states: seq<seq<Evidence>>, demand: u64) {
    && (SomeRunHas(states, 0, demand) || SomeRunHas(states, 1, demand))
    && (forall i, k, c: nat, x: u64 ::
          0 <= i < |states| && 0 <= k < |states[i]| && c < 2 && RunHas(states[i][k], c, x) ==>
          x <= demand)
  }

  /** The smallest issue quantile of any valid run of either worker in either state. */
  ghost predicate ConservativeIssue(states: seq<seq<Evidence>>, issue: u64) {
    && (SomeRunHas(states, 2, issue) || SomeRunHas(states, 3, issue))
    && (forall i, k, c: nat, x: u64 ::
          0 <= i < |states| && 0 <= k < |states[i]| && 2 <= c < 4 && RunHas(states[i][k], c, x) ==>
          x >= issue)
  }

  /** The final limits of both states bound every valid run, and each is some valid run's. */
  ghost predicate FinalLimits(states: seq<seq<Evidence>>, l: Limits) {
    && (forall i, k, c: nat, x: u64 ::
          0 <= i < |states| && 0 <= k < |states[i]| && c < 4 && RunHas(states[i][k], c, x) ==>
          if c < 2 then x <= Part(l, c) else Part(l, c) <= x)
    && (forall c: nat :: c < 4 ==> SomeRunHas(states, c, Part(l, c)))
  }

  lemma LimitsAreFinal(states: seq<seq<Evidence>>, first: Option<Limits>, l: Limits)
    requires |states| == 2 && SoFar(states[0], |states[0]|, first) && Attained(states[0], |states[0]|, None, first)
    requires SoFar(states[1], |states[1]|, Some(l)) && Widens(first, Some(l))
    requires Attained(states[1], |states[1]|, first, Some(l))
    ensures FinalLimits(states, l)
  {
    forall i, k, c: nat, x: u64 | 0 <= i < |states| && 0 <= k < |states[i]| && c < 4 && RunHas(states[i][k], c, x)
      ensures if c < 2 then x <= Part(l, c) else Part(l, c) <= x
    {
      BoundedPart(states, first, l, i, k, c, x);
    }
    forall c: nat | c < 4 ensures SomeRunHas(states, c, Part(l, c)) {
      AttainedPart(states, first, l, c);
    }
  }

  lemma BoundedPart(states: seq<seq<Evidence>>, first: Option<Limits>, l: Limits, i: nat, k: nat, c: nat, x: u64)
    requires |states| == 2 && SoFar(states[0], |states[0]|, first)
    requires SoFar(states[1], |states[1]|, Some(l)) && Widens(first, Some(l))
    requires i < 2 && k < |states[i]| && c < 4 && RunHas(states[i][k], c, x)
    ensures if c < 2 then x <= Part(l, c) else Part(l, c) <= x
  {
    assert states[i][k].Valid?;
    hide RunLimits, Sized, RunHas;
    RunHasIs(states[i][k], c, x);
    var run := RunLimits(states[i][k].series).value;
    if i == 0 {
      assert Bounds(first.value, run);
    } else {
      assert Bounds(l, run);
    }
    assert Bounds(l, run);
  }

  lemma AttainedPart(states: seq<seq<Evidence>>, first: Option<Limits>, l: Limits, c: nat)
    requires |states| == 2 && c < 4 && Attained(states[0], |states[0]|, None, first)
    requires Attained(states[1], |states[1]|, first, Some(l))
    ensures SomeRunHas(states, c, Part(l, c))
  {
    hide RunHas, Part;
    var x := Part(l, c);
    if Seen(states[1], |states[1]|, c, x) {
      var k :| 0 <= k < |states[1]| && RunHas(states[1][k], c, x);
    } else {
      assert Seen(states[0], |states[0]|, c, x);
      var k :| 0 <= k < |states[0]| && RunHas(states[0][k], c, x);
    }
  }

  /** The larger of the two demand limits and the smaller of the two issue limits are the conservative ones. */
  lemma LimitsAreConservative(states: seq<seq<Evidence>>, l: Limits, demand: u64, issue: u64)
    requires FinalLimits(states, l)
    requires demand == (if l.producerDemand < l.consumerDemand then l.consumerDemand else l.producerDemand)
    requires issue == (if l.consumerIssue < l.producerIssue then l.consumerIssue else l.producerIssue)
    ensures ConservativeDemand(states, demand) && ConservativeIssue(states, issue)
  {
    hide RunHas;
    var d := if l.producerDemand < l.consumerDemand then 1 else 0;
    assert Part(l, d) == demand;
    assert SomeRunHas(states, d, Part(l, d));
    var s := if l.consumerIssue < l.producerIssue then 3 else 2;
    assert Part(l, s) == issue;
    assert SomeRunHas(states, s, Part(l, s));
  }

  /** Both hardware states of a context, then its distance. */
  method EvaluateContext(states: seq<seq<Evidence>>, minimum: u64, geometry: Geometry)
    returns (r: Result<ContextResult, RingError>)
    requires minimum > 0 && |states| == 2 && AllSized(states)
    ensures r.Err? <==> exists i, k :: 0 <= i < 2 && 0 <= k < |states[i]| && Broken(states[i][k], minimum)
    ensures r.Err? ==> r.error == BadSeries
    ensures r.Ok? && r.value.Resolved? ==>
      && (exists demand: u64, issue: u64 :: ConservativeDemand(states, demand) && ConservativeIssue(states, issue)
            && GoodDistance(geometry, demand, issue, r.value))
      && (|| (forall i, k :: 0 <= i < 2 && 0 <= k < |states[i]| ==> Covered(states[i][k], r.value.distance))
          || (r.value.distance + r.value.d1) * 4 > geometry.capacity)
    ensures r.Ok? ==> (r.value.NotEvaluated? <==> !StateReady(states[0]) || !StateReady(states[1]))
    ensures r.Ok? && !r.value.NotEvaluated? ==>
      (r.value.Resolved? <==>
        && geometry.capacity > 0 && geometry.cacheLineBytes > 0 && geometry.slotBytes > 0
        && 2 * Quantile.CeilDiv(geometry.cacheLineBytes, geometry.slotBytes) <= geometry.capacity / 4)
  {
    hide Distance, GoodDistance, SoFar, Attained, Widens, FinalLimits, ConservativeDemand, ConservativeIssue, Covered;
    var limits, ready := EvaluateStates(states, minimum);
    if limits.Err? {
      return Err(limits.error);
    }
    if !ready || limits.value.None? {
      return Ok(NotEvaluated);
    }
    var l := limits.value.value;
    var demand := if l.producerDemand < l.consumerDemand then l.consumerDemand else l.producerDemand;
    var issue := if l.consumerIssue < l.producerIssue then l.consumerIssue else l.producerIssue;
    LimitsAreConservative(states, l, demand, issue);
    DistanceIsGood(geometry, demand, issue);
    var result := Distance(geometry, demand, issue);
    if result.Resolved? {
      DistanceCovers(states, geometry, demand, issue, result);
    }
    return Ok(result);
  }

  /** The limits over both hardware states. */
  method EvaluateStates(states: seq<seq<Evidence>>, minimum: u64)
    returns (r: Result<Option<Limits>, RingError>, ready: bool)
    requires minimum > 0 && |states| == 2 && AllSized(states)
    ensures r.Err? <==> exists i, k :: 0 <= i < 2 && 0 <= k < |states[i]| && Broken(states[i][k], minimum)
    ensures r.Err? ==> r.error == BadSeries
    ensures r.Ok? ==> (ready <==> StateReady(states[0]) && StateReady(states[1]))
    ensures r.Ok? && ready ==> r.value.Some?
    ensures r.Ok? && r.value.Some? ==>
      FinalLimits(states, r.value.value) && r.value.value.producerIssue > 0 && r.value.value.consumerIssue > 0
  {
    hide Attained, FinalLimits, Bounds, RunLimits, Sized, CompleteSeries;
    ready := false;
    var first := EvaluateState(states[0], minimum, None);
    if first.Err? {
      BrokenRun(states, 0, minimum);
      return Err(first.error), false;
    }
    var second := EvaluateState(states[1], minimum, first.value.0);
    if second.Err? {
      BrokenRun(states, 1, minimum);
      return Err(second.error), false;
    }
    if second.value.0.Some? {
      LimitsAreFinal(states, first.value.0, second.value.0.value);
    }
    return Ok(second.value.0), first.value.1 && second.value.1;
  }

  lemma BrokenRun(states: seq<seq<Evidence>>, i: nat, minimum: u64)
    requires i < |states| && exists k :: 0 <= k < |states[i]| && Broken(states[i][k], minimum)
    ensures exists i, k :: 0 <= i < |states| && 0 <= k < |states[i]| && Broken(states[i][k], minimum)
  {
    hide Broken;
    var k :| 0 <= k < |states[i]| && Broken(states[i][k], minimum);
  }

  /** A sufficient distance covers every valid run of both workers. */
  lemma DistanceCovers(states: seq<seq<Evidence>>, geometry: Geometry, demand: u64, issue: u64, r: ContextResult)
    requires ConservativeDemand(states, demand) && ConservativeIssue(states, issue)
    requires r.Resolved? && GoodDistance(geometry, demand, issue, r)
    ensures
      || (forall i, k :: 0 <= i < |states| && 0 <= k < |states[i]| ==> Covered(states[i][k], r.distance))
      || (r.distance + r.d1) * 4 > geometry.capacity
  {
    if Suffices(r.lines, r.d1, issue, demand) {
      forall i, k | 0 <= i < |states| && 0 <= k < |states[i]| ensures Covered(states[i][k], r.distance) {
        RunCovered(states, demand, issue, r.distance, i, k);
      }
    }
  }

  lemma RunCovered(states: seq<seq<Evidence>>, demand: u64, issue: u64, d: u64, i: nat, k: nat)
    requires d * issue >= demand
    requires ConservativeDemand(states, demand) && ConservativeIssue(states, issue)
    requires i < |states| && k < |states[i]|
    ensures Covered(states[i][k], d)
  {
    hide RunHas;
    var e := states[i][k];
    forall x: u64, y: u64
      ensures RunHas(e, 0, x) && RunHas(e, 2, y) ==> d * y >= x
      ensures RunHas(e, 1, x) && RunHas(e, 3, y) ==> d * y >= x
    {
      if (RunHas(e, 0, x) && RunHas(e, 2, y)) || (RunHas(e, 1, x) && RunHas(e, 3, y)) {
        CoverOne(d, issue, demand, y, x);
      }
    }
  }

  lemma CoverOne(d: nat, issue: nat, demand: nat, runIssue: nat, runDemand: nat)
    requires d * issue >= demand && runIssue >= issue && runDemand <= demand
    ensures d * runIssue >= runDemand
  {
    MulMono(issue, runIssue, d);
  }
}
