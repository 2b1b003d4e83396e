/**
 Arrival schedules: the generator loop, the protocol's schedule validator and the lifecycle's
 prepared-schedule validator. Rounding and the logarithm of the decimal context are arbitrary.
 */
module Schedule {
  import opened Prelude
  import Rational

  datatype ScheduleKind = Warmup | Calibration | Pilot | Confirmatory | Diagnostic | StageB | StageC

  datatype ArrivalFamily = PoissonExponential | ContinuousReady | PredeclaredBurst | PredeclaredOther

  // ---------------------------------------------------------------- generation

  datatype Spec = Spec(
    identifiers: seq<string>, kind: ScheduleKind, masterSeedBytes: nat,
    origin: int, horizon: int, numerator: int, denominator: int)

  datatype GenerationError =
    | InvalidId | UnsupportedKind | InvalidSeed | IntegerOutOfRange | HorizonInvalid | RateInvalid
    | RateNoncanonical | HorizonOverflow | DrawExhaustion | RngInvalid | DecimalFailure
    | DecimalNonprogress | DeadlineOverflow | ByteCountOverflow

  predicate IsWord(x: int) { 0 <= x <= U64_MAX }

  function ValidateSpec(spec: Spec): (e: Option<GenerationError>)
    ensures e.None? ==>
      && IsWord(spec.origin) && 0 < spec.horizon && spec.origin + spec.horizon <= U64_MAX
      && 0 < spec.numerator <= U64_MAX && 0 < spec.denominator <= U64_MAX
  {
    if exists k :: 0 <= k < |spec.identifiers| && spec.identifiers[k] == "" then Some(InvalidId)
    else if spec.kind == StageB || spec.kind == StageC then Some(UnsupportedKind)
    else if spec.masterSeedBytes != 32 then Some(InvalidSeed)
    else if !IsWord(spec.origin) || !IsWord(spec.horizon) || !IsWord(spec.numerator) || !IsWord(spec.denominator)
    then Some(IntegerOutOfRange)
    else if spec.horizon == 0 then Some(HorizonInvalid)
    else if spec.numerator == 0 || spec.denominator == 0 then Some(RateInvalid)
    else if Rational.Gcd(spec.numerator, spec.denominator) != 1 then Some(RateNoncanonical)
    else if spec.horizon > U64_MAX - spec.origin then Some(HorizonOverflow)
    else None
  }

  /** A specification passes exactly when everything is named and in range and the rate is in lowest terms. */
  lemma SpecOkIff(spec: Spec)
    ensures ValidateSpec(spec).None? <==>
      && "" !in spec.identifiers && spec.masterSeedBytes == 32
      && spec.kind in {Warmup, Calibration, Pilot, Confirmatory, Diagnostic}
      && 0 <= spec.origin && 0 < spec.horizon && spec.origin + spec.horizon <= U64_MAX
      && 0 < spec.numerator <= U64_MAX && 0 < spec.denominator <= U64_MAX
      && Rational.Coprime(spec.numerator, spec.denominator)
  {
    hide Rational.Gcd, Rational.Coprime;
    if spec.numerator >= 0 && spec.denominator >= 0 {
      Rational.CoprimeIsGcdOne(spec.numerator, spec.denominator);
    }
  }

  /** One decimal step: the next cumulative time, a nonfinite value, or a trapped exception. */
  datatype Step = Finite(total: real) | NonFinite | Trapped

  /** The decimal context: how an exact result is rounded, and the negated logarithm. */
  datatype Arithmetic = Arithmetic(round: real -> Step, minusLn: real -> Step)

  const TWO_65: real := 36893488147419103232.0

  /** The point of the unit interval a draw stands for. */
  function Unit(draw: int): real { (2 * draw + 1) as real / TWO_65 }

  /** The cumulative time after one more exponential gap; any operation may trap. */
  function Advanced(arith: Arithmetic, total: real, draw: int, numerator: int, denominator: int): Step {
    var unit := arith.round(Unit(draw));
    if !unit.Finite? then unit
    else
      var inverse := arith.minusLn(unit.total);
      if !inverse.Finite? then inverse
      else
        var product := arith.round(inverse.total * denominator as real);
        if !product.Finite? then product
        else if numerator == 0 then Trapped
        else
          var scaled := arith.round(product.total / numerator as real);
          if !scaled.Finite? then scaled else arith.round(total + scaled.total)
  }

  /** Cumulative time after k accepted draws, where every step so far was finite and progressed. */
  ghost function Cumulative(spec: Spec, drawAt: nat -> int, arith: Arithmetic, k: nat): Option<real> {
    if k == 0 then Some(0.0)
    else
      var before := Cumulative(spec, drawAt, arith, k - 1);
      if before.None? || !IsWord(drawAt(k - 1)) then None
      else
        var next := Advanced(arith, before.value, drawAt(k - 1), spec.numerator, spec.denominator);
        if next.Finite? && next.total > before.value then Some(next.total) else None
  }

  /** `tick` is deadline number k (from 1) of the arrival process. */
  ghost predicate IsArrival(spec: Spec, drawAt: nat -> int, arith: Arithmetic, k: nat, tick: int) {
    && Cumulative(spec, drawAt, arith, k).Some?
    && tick == spec.origin + Cumulative(spec, drawAt, arith, k).value.Floor
  }

  /** Deadline number k is at or past the horizon's end. */
  ghost predicate IsPast(spec: Spec, drawAt: nat -> int, arith: Arithmetic, k: nat) {
    && Cumulative(spec, drawAt, arith, k).Some?
    && spec.origin + Cumulative(spec, drawAt, arith, k).value.Floor >= spec.origin + spec.horizon
  }

  ghost predicate Nondecreasing(s: seq<int>) {
    forall i :: 0 < i < |s| ==> s[i - 1] <= s[i]
  }

  ghost predicate Inside(s: seq<int>, lo: int, hi: int) {
    forall i :: 0 <= i < |s| ==> lo <= s[i] < hi
  }

  /** What draw number n does once all draws before it have been placed. */
  datatype Verdict = Placed | Finished | Failed(error: GenerationError)

  ghost function VerdictAt(spec: Spec, drawAt: nat -> int, arith: Arithmetic, maxDrawOrdinal: int, n: nat): Verdict {
    var before := Cumulative(spec, drawAt, arith, n);
    if before.None? then Failed(DecimalFailure)
    else if !IsWord(drawAt(n)) then Failed(RngInvalid)
    else
      var next := Advanced(arith, before.value, drawAt(n), spec.numerator, spec.denominator);
      if !next.Finite? then Failed(DecimalFailure)
      else if next.total <= before.value then Failed(DecimalNonprogress)
      else if spec.origin + next.total.Floor > U64_MAX then Failed(DeadlineOverflow)
      else if next.total.Floor >= spec.horizon then Finished
      else if n >= U64_MAX / 8 then Failed(ByteCountOverflow)
      else if n == maxDrawOrdinal then Failed(DrawExhaustion)
      else Placed
  }

  /** The first n draws are all placed. */
  ghost predicate AllPlaced(spec: Spec, drawAt: nat -> int, arith: Arithmetic, maxDrawOrdinal: int, n: nat) {
    forall k: nat :: k < n ==> VerdictAt(spec, drawAt, arith, maxDrawOrdinal, k) == Placed
  }

  lemma OneMorePlaced(spec: Spec, drawAt: nat -> int, arith: Arithmetic, maxDrawOrdinal: int, n: nat)
    requires AllPlaced(spec, drawAt, arith, maxDrawOrdinal, n)
    requires VerdictAt(spec, drawAt, arith, maxDrawOrdinal, n) == Placed
    ensures AllPlaced(spec, drawAt, arith, maxDrawOrdinal, n + 1)
  {
    hide VerdictAt;
  }

  /** The first draw that is not simply placed decides the outcome. */
  ghost predicate DecidedAt(spec: Spec, drawAt: nat -> int, arith: Arithmetic, maxDrawOrdinal: int, n: nat,
                            r: Result<seq<u64>, GenerationError>) {
    && AllPlaced(spec, drawAt, arith, maxDrawOrdinal, n)
    && match VerdictAt(spec, drawAt, arith, maxDrawOrdinal, n)
       case Placed => false
       case Finished => r.Ok? && |r.value| == n
       case Failed(e) => r == Err(e)
  }

  lemma DecisionUnique(spec: Spec, drawAt: nat -> int, arith: Arithmetic, maxDrawOrdinal: int, m: nat, n: nat,
                       r: Result<seq<u64>, GenerationError>, s: Result<seq<u64>, GenerationError>)
    requires DecidedAt(spec, drawAt, arith, maxDrawOrdinal, m, r)
    requires DecidedAt(spec, drawAt, arith, maxDrawOrdinal, n, s)
    ensures m == n && (r.Ok? <==> s.Ok?) && (r.Err? ==> r == s)
  {
    hide VerdictAt;
    assert m < n ==> VerdictAt(spec, drawAt, arith, maxDrawOrdinal, m) == Placed;
    assert n < m ==> VerdictAt(spec, drawAt, arith, maxDrawOrdinal, n) == Placed;
  }

  /** The deadlines are the arrivals up to the first one past the horizon. */
  ghost predicate AreArrivals(spec: Spec, drawAt: nat -> int, arith: Arithmetic, deadlines: seq<int>) {
    && (forall k :: 0 <= k < |deadlines| ==> IsArrival(spec, drawAt, arith, k + 1, deadlines[k]))
    && IsPast(spec, drawAt, arith, |deadlines| + 1)
  }

  /**
   Generates the deadlines before the horizon. The first draw that cannot be placed decides: it
   ends the schedule at the horizon or is the one error reported. On success the deadlines are
   exactly the arrivals up to the first one past the horizon, and both validators accept them.
   */
  method GenerateDeadlines(spec: Spec, drawAt: nat -> int, arith: Arithmetic, maxDrawOrdinal: int)
    returns (r: Result<seq<u64>, GenerationError>)
    ensures ValidateSpec(spec).Some? ==> r == Err(ValidateSpec(spec).value)
    ensures ValidateSpec(spec).None? && !IsWord(maxDrawOrdinal) ==> r == Err(DrawExhaustion)
    ensures ValidateSpec(spec).None? && IsWord(maxDrawOrdinal) ==>
      exists n: nat :: n <= maxDrawOrdinal && DecidedAt(spec, drawAt, arith, maxDrawOrdinal, n, r)
    ensures r.Ok? ==> ValidateSpec(spec).None? && |r.value| <= U64_MAX && AreArrivals(spec, drawAt, arith, r.value)
    ensures r.Ok? ==> Nondecreasing(r.value) && Inside(r.value, spec.origin, spec.origin + spec.horizon)
    ensures r.Ok? ==>
      && ScheduleOk(Envelope(spec, r.value))
      && PreparedOk(Prepared(r.value, spec.origin, spec.origin + spec.horizon))
  {
    var invalid := ValidateSpec(spec);
    if invalid.Some? {
      return Err(invalid.value);
    }
    if maxDrawOrdinal < 0 || maxDrawOrdinal > U64_MAX {
      return Err(DrawExhaustion);
    }
    r := PlaceDraws(spec, drawAt, arith, maxDrawOrdinal);
    if r.Ok? {
      GeneratedIsAccepted(spec, r.value);
    }
  }

  /** One turn of the generator: the draw, the step, and where its deadline falls. */
  method PlaceOne(spec: Spec, drawAt: nat -> int, arith: Arithmetic, maxDrawOrdinal: int, n: nat, total: real)
    returns (verdict: Verdict, next: real)
    requires ValidateSpec(spec).None? && total >= 0.0 && Cumulative(spec, drawAt, arith, n) == Some(total)
    requires n <= maxDrawOrdinal
    ensures verdict == VerdictAt(spec, drawAt, arith, maxDrawOrdinal, n)
    ensures !verdict.Failed? ==> next > total && Cumulative(spec, drawAt, arith, n + 1) == Some(next)
    ensures verdict == Placed ==>
      && 0 <= next.Floor < spec.horizon && n < maxDrawOrdinal
      && IsArrival(spec, drawAt, arith, n + 1, spec.origin + next.Floor)
    ensures verdict == Finished ==> IsPast(spec, drawAt, arith, n + 1)
  {
    hide ValidateSpec;
    next := total;
    var draw := drawAt(n);
    if draw < 0 || draw > U64_MAX {
      return Failed(RngInvalid), next;
    }
    var step := Advanced(arith, total, draw, spec.numerator, spec.denominator);
    if !step.Finite? {
      return Failed(DecimalFailure), next;
    }
    if step.total <= total {
      return Failed(DecimalNonprogress), next;
    }
    next := step.total;
    FloorMonotone(total, next);
    var offset := next.Floor;
    if offset < 0 || offset > U64_MAX - spec.origin {
      return Failed(DeadlineOverflow), next;
    }
    var deadline := spec.origin + offset;
    if deadline >= spec.origin + spec.horizon {
      return Finished, next;
    }
    if n >= U64_MAX / 8 {
      return Failed(ByteCountOverflow), next;
    }
    if n == maxDrawOrdinal {
      return Failed(DrawExhaustion), next;
    }
    return Placed, next;
  }

  /** The generator loop. */
  method PlaceDraws(spec: Spec, drawAt: nat -> int, arith: Arithmetic, maxDrawOrdinal: int)
    returns (r: Result<seq<u64>, GenerationError>)
    requires ValidateSpec(spec).None? && IsWord(maxDrawOrdinal)
    ensures exists n: nat :: n <= maxDrawOrdinal && DecidedAt(spec, drawAt, arith, maxDrawOrdinal, n, r)
    ensures r.Ok? ==> |r.value| <= maxDrawOrdinal && AreArrivals(spec, drawAt, arith, r.value)
    ensures r.Ok? ==> Nondecreasing(r.value) && Inside(r.value, spec.origin, spec.origin + spec.horizon)
  {
    hide ValidateSpec, VerdictAt, Placing;
    var deadlines: seq<u64> := [];
    var total := 0.0;
    var drawOrdinal: nat := 0;
    PlacingStart(spec, drawAt, arith);
    hide AllPlaced, Cumulative, IsArrival, IsPast, Nondecreasing, Inside;
    while true
      invariant drawOrdinal == |deadlines| <= maxDrawOrdinal
      invariant Placing(spec, drawAt, arith, deadlines, total)
      invariant AllPlaced(spec, drawAt, arith, maxDrawOrdinal, drawOrdinal)
      decreases maxDrawOrdinal - drawOrdinal
    {
      PlacingTotal(spec, drawAt, arith, deadlines, total);
      var verdict, next := PlaceOne(spec, drawAt, arith, maxDrawOrdinal, drawOrdinal, total);
      match verdict
      case Failed(error) =>
        r := Err(error);
        assert DecidedAt(spec, drawAt, arith, maxDrawOrdinal, drawOrdinal, r);
        return;
      case Finished =>
        r := Ok(deadlines);
        assert DecidedAt(spec, drawAt, arith, maxDrawOrdinal, drawOrdinal, r);
        PlacingEnd(spec, drawAt, arith, deadlines, total);
        return;
      case Placed =>
        PlacingStep(spec, drawAt, arith, deadlines, total, next);
        OneMorePlaced(spec, drawAt, arith, maxDrawOrdinal, drawOrdinal);
        deadlines := deadlines + [spec.origin + next.Floor];
        total := next;
        drawOrdinal := drawOrdinal + 1;
    }
  }

  /** The deadlines placed so far, and the time they have reached. */
  ghost predicate Placing(spec: Spec, drawAt: nat -> int, arith: Arithmetic, deadlines: seq<int>, total: real) {
    && total >= 0.0 && Cumulative(spec, drawAt, arith, |deadlines|) == Some(total)
    && Nondecreasing(deadlines) && Inside(deadlines, spec.origin, spec.origin + spec.horizon)
    && (deadlines != [] ==> deadlines[|deadlines| - 1] == spec.origin + total.Floor)
    && (forall k :: 0 <= k < |deadlines| ==> IsArrival(spec, drawAt, arith, k + 1, deadlines[k]))
  }

  lemma PlacingStart(spec: Spec, drawAt: nat -> int, arith: Arithmetic)
    ensures Placing(spec, drawAt, arith, [], 0.0)
  {
  }

  lemma PlacingTotal(spec: Spec, drawAt: nat -> int, arith: Arithmetic, deadlines: seq<int>, total: real)
    requires Placing(spec, drawAt, arith, deadlines, total)
    ensures total >= 0.0 && Cumulative(spec, drawAt, arith, |deadlines|) == Some(total)
  {
  }

  lemma PlacingStep(spec: Spec, drawAt: nat -> int, arith: Arithmetic, deadlines: seq<int>, total: real, next: real)
    requires spec.origin >= 0 && Placing(spec, drawAt, arith, deadlines, total)
    requires next > total && Cumulative(spec, drawAt, arith, |deadlines| + 1) == Some(next)
    requires next.Floor < spec.horizon
    ensures Placing(spec, drawAt, arith, deadlines + [spec.origin + next.Floor], next)
  {
    hide Cumulative;
    FloorMonotone(total, next);
    var tick := spec.origin + next.Floor;
    var more := deadlines + [tick];
    assert IsArrival(spec, drawAt, arith, |deadlines| + 1, tick);
    hide IsArrival;
    assert forall k :: 0 <= k < |deadlines| ==> more[k] == deadlines[k];
    forall i | 0 < i < |more| ensures more[i - 1] <= more[i] {
      if i < |deadlines| {
        assert deadlines[i - 1] <= deadlines[i];
      }
    }
  }

  lemma PlacingEnd(spec: Spec, drawAt: nat -> int, arith: Arithmetic, deadlines: seq<int>, total: real)
    requires Placing(spec, drawAt, arith, deadlines, total) && IsPast(spec, drawAt, arith, |deadlines| + 1)
    ensures AreArrivals(spec, drawAt, arith, deadlines)
    ensures Nondecreasing(deadlines) && Inside(deadlines, spec.origin, spec.origin + spec.horizon)
  {
    hide Cumulative;
  }

  lemma FloorMonotone(a: real, b: real)
    requires 0.0 <= a <= b
    ensures 0 <= a.Floor <= b.Floor
  {
  }

  // ---------------------------------------------------------------- exact arithmetic

  /** No rounding, and a logarithm that is negative inside the unit interval. */
  ghost predicate Exact(arith: Arithmetic) {
    && (forall x :: arith.round(x) == Finite(x))
    && (forall u :: 0.0 < u < 1.0 ==> arith.minusLn(u).Finite? && arith.minusLn(u).total > 0.0)
  }

  /** A draw stands for the middle of its cell when the unit interval is cut into 2^64 cells. */
  lemma UnitInside(draw: int)
    requires IsWord(draw)
    ensures 0.0 < Unit(draw) < 1.0
    ensures 2.0 * Unit(draw) == draw as real / 18446744073709551616.0 + (draw + 1) as real / 18446744073709551616.0
  {
  }

  /** The sum of the first k exponential variates. */
  ghost function Exponentials(arith: Arithmetic, drawAt: nat -> int, k: nat): real
    requires Exact(arith) && forall i: nat :: IsWord(drawAt(i))
  {
    if k == 0 then 0.0
    else
      UnitInside(drawAt(k - 1));
      Exponentials(arith, drawAt, k - 1) + arith.minusLn(Unit(drawAt(k - 1))).total
  }

  function Times(x: real, n: int): real { x * n as real }

  /** In exact arithmetic the cumulative time is the sum of the variates over the rate. */
  lemma {:induction false} ExactCumulative(spec: Spec, drawAt: nat -> int, arith: Arithmetic, k: nat)
    requires ValidateSpec(spec).None? && Exact(arith) && forall i: nat :: IsWord(drawAt(i))
    ensures var c := Cumulative(spec, drawAt, arith, k);
            && c.Some?
            && Times(c.value, spec.numerator) == Times(Exponentials(arith, drawAt, k), spec.denominator)
    decreases k
  {
    hide ValidateSpec, Times, Advanced, Unit;
    if k > 0 {
      ExactCumulative(spec, drawAt, arith, k - 1);
      var before := Cumulative(spec, drawAt, arith, k - 1).value;
      ExactStep(spec, arith, before, drawAt(k - 1));
      var next := Advanced(arith, before, drawAt(k - 1), spec.numerator, spec.denominator).total;
      Gather(before, next, Exponentials(arith, drawAt, k - 1), arith.minusLn(Unit(drawAt(k - 1))).total,
             spec.numerator, spec.denominator);
    } else {
      Nothing(spec.numerator, spec.denominator);
    }
  }

  lemma Nothing(n: int, d: int)
    ensures Times(0.0, n) == Times(0.0, d)
  {
  }

  lemma Gather(before: real, next: real, sum: real, e: real, n: int, d: int)
    requires Times(before, n) == Times(sum, d) && Times(next - before, n) == Times(e, d)
    ensures Times(next, n) == Times(sum + e, d)
  {
  }

  /** An exact step always progresses, by the variate over the rate. */
  lemma ExactStep(spec: Spec, arith: Arithmetic, total: real, draw: int)
    requires ValidateSpec(spec).None? && Exact(arith) && IsWord(draw)
    ensures arith.minusLn(Unit(draw)).Finite?
    ensures var next := Advanced(arith, total, draw, spec.numerator, spec.denominator);
            && next.Finite? && next.total > total
            && Times(next.total - total, spec.numerator) == Times(arith.minusLn(Unit(draw)).total, spec.denominator)
  {
    hide ValidateSpec;
    UnitInside(draw);
    hide Unit;
    Scaled(arith.minusLn(Unit(draw)).total, spec.numerator as real, spec.denominator as real);
  }

  lemma Scaled(e: real, n: real, d: real)
    requires e > 0.0 && n > 0.0 && d > 0.0
    ensures e * d / n > 0.0 && e * d / n * n == e * d
  {
    PositiveProduct(e, d);
  }

  lemma PositiveProduct(e: real, d: real)
    requires e > 0.0 && d > 0.0
    ensures e * d > 0.0
  {
  }

  /** In exact arithmetic no draw fails for the arithmetic. */
  lemma ExactNeverStalls(spec: Spec, drawAt: nat -> int, arith: Arithmetic, maxDrawOrdinal: int, k: nat)
    requires ValidateSpec(spec).None? && Exact(arith) && forall i: nat :: IsWord(drawAt(i))
    ensures VerdictAt(spec, drawAt, arith, maxDrawOrdinal, k)
      !in {Failed(RngInvalid), Failed(DecimalFailure), Failed(DecimalNonprogress)}
  {
    hide Times, Advanced, Unit, Exponentials, Cumulative;
    ExactCumulative(spec, drawAt, arith, k);
    ExactStep(spec, arith, Cumulative(spec, drawAt, arith, k).value, drawAt(k));
    hide Exact, ValidateSpec;
  }

  /**
   In exact arithmetic deadline k is the whole tick at or before the k-th arrival of a process whose gaps are
   exponential variates over the rate: numerator events in denominator ticks.
   */
  lemma ExactSchedule(spec: Spec, drawAt: nat -> int, arith: Arithmetic, k: nat, tick: int)
    requires ValidateSpec(spec).None? && Exact(arith) && forall i: nat :: IsWord(drawAt(i))
    ensures var offset, sum := tick - spec.origin, Exponentials(arith, drawAt, k);
            IsArrival(spec, drawAt, arith, k, tick) <==>
              && Times(offset as real, spec.numerator) <= Times(sum, spec.denominator)
              && Times(sum, spec.denominator) < Times((offset + 1) as real, spec.numerator)
  {
    hide Times;
    ExactCumulative(spec, drawAt, arith, k);
    hide Exact, Cumulative, Exponentials;
    FloorScaled(Cumulative(spec, drawAt, arith, k).value, spec.numerator, tick - spec.origin);
    hide ValidateSpec;
  }

  lemma FloorScaled(c: real, n: int, t: int)
    requires n > 0
    ensures t == c.Floor <==> Times(t as real, n) <= Times(c, n) < Times((t + 1) as real, n)
  {
    hide Times;
    assert t == c.Floor <==> t as real <= c < (t + 1) as real;
    Compare(t as real, c, n);
    Compare((t + 1) as real, c, n);
  }

  lemma Compare(a: real, b: real, n: int)
    requires n > 0
    ensures a <= b <==> Times(a, n) <= Times(b, n)
  {
    if a <= b {
      Keeps(a, b, n as real);
    } else {
      Grows(b, a, n as real);
    }
  }

  lemma Keeps(a: real, b: real, n: real)
    requires a <= b && n > 0.0
    ensures a * n <= b * n
  {
  }

  lemma Grows(a: real, b: real, n: real)
    requires a < b && n > 0.0
    ensures a * n < b * n
  {
  }

  // ---------------------------------------------------------------- the protocol validator

  datatype Encoding = AbsoluteTicks | DeltaTicks

  datatype Storage = External(rowCount: u64) | Inline(encoded: seq<u64>)

  datatype Record = Record(
    kind: ScheduleKind, family: ArrivalFamily, encoding: Encoding, origin: u64, horizon: u64,
    offeredCount: u64, rateDenominator: u64, storage: Storage)

  datatype Rule =
    | HorizonPositive | RateDenominator | ConfirmatoryFamily | RowCount | DecodedCount
    | HorizonEndOverflow | DeltaOverflow | DecodedNondecreasing | HalfOpen

  /** Decoded deadline i: the encoded tick, or the running sum of the deltas. */
  function DecodedAt(s: Record, i: nat): nat
    requires s.storage.Inline? && i < |s.storage.encoded|
  {
    if s.encoding == AbsoluteTicks then s.storage.encoded[i]
    else (if i == 0 then s.origin else DecodedAt(s, i - 1)) + s.storage.encoded[i]
  }

  predicate HeaderOk(s: Record) {
    && s.horizon > 0 && s.rateDenominator > 0
    && (s.kind == Confirmatory ==> s.family == PoissonExponential)
  }

  /** Deadline i decodes in 64 bits, follows its predecessor and lies in the half-open window. */
  predicate DeadlineOk(s: Record, i: nat)
    requires s.storage.Inline? && i < |s.storage.encoded|
  {
    && DecodedAt(s, i) <= U64_MAX
    && (i > 0 ==> DecodedAt(s, i - 1) <= DecodedAt(s, i))
    && s.origin <= DecodedAt(s, i) < s.origin + s.horizon
  }

  predicate ScheduleOk(s: Record) {
    && HeaderOk(s)
    && match s.storage
       case External(rowCount) => rowCount == s.offeredCount
       case Inline(encoded) =>
         && |encoded| == s.offeredCount
         && s.origin + s.horizon <= U64_MAX
         && forall i :: 0 <= i < |encoded| ==> DeadlineOk(s, i)
  }

  function CheckedAdd(left: u64, right: u64): Option<u64> {
    if right > U64_MAX - left then None else Some(left + right)
  }

  method HeaderErrors(s: Record) returns (errors: seq<Rule>)
    ensures errors == [] <==> HeaderOk(s)
  {
    errors := [];
    if s.horizon == 0 {
      errors := errors + [HorizonPositive];
    }
    if s.rateDenominator == 0 {
      errors := errors + [RateDenominator];
    }
    if s.kind == Confirmatory && s.family != PoissonExponential {
      errors := errors + [ConfirmatoryFamily];
    }
  }

  /** Collects every violated rule; none exactly when the schedule is valid. */
  method ValidateSchedule(s: Record) returns (errors: seq<Rule>)
    ensures errors == [] <==> ScheduleOk(s)
  {
    errors := HeaderErrors(s);
    if s.storage.External? {
      if s.storage.rowCount != s.offeredCount {
        errors := errors + [RowCount];
      }
      return;
    }
    var encoded := s.storage.encoded;
    if |encoded| != s.offeredCount {
      errors := errors + [DecodedCount];
    }
    var horizonEnd := CheckedAdd(s.origin, s.horizon);
    if horizonEnd.None? {
      errors := errors + [HorizonEndOverflow];
      return;
    }
    errors := DeadlineErrors(s, horizonEnd.value, errors);
  }

  /** The decoding loop; `initial` are the errors found before it. */
  method DeadlineErrors(s: Record, horizonEnd: u64, initial: seq<Rule>) returns (errors: seq<Rule>)
    requires s.storage.Inline? && horizonEnd == s.origin + s.horizon
    ensures errors == [] <==>
      initial == [] && forall i :: 0 <= i < |s.storage.encoded| ==> DeadlineOk(s, i)
  {
    var encoded := s.storage.encoded;
    errors := initial;
    var previous: u64 := 0;
    var havePrevious := false;
    var accumulated: u64 := s.origin;
    for index := 0 to |encoded|
      invariant errors == [] <==> initial == [] && forall i :: 0 <= i < index ==> DeadlineOk(s, i)
      invariant errors == [] ==>
        && (havePrevious <==> index > 0)
        && (index > 0 ==> previous == DecodedAt(s, index - 1))
        && (s.encoding == DeltaTicks ==> accumulated == if index == 0 then s.origin else DecodedAt(s, index - 1))
    {
      ghost var clean := errors == [];
      assert clean && s.encoding == DeltaTicks ==> DecodedAt(s, index) == accumulated + encoded[index];
      var deadline := encoded[index];
      if s.encoding == DeltaTicks {
        var sum := CheckedAdd(accumulated, encoded[index]);
        if sum.None? {
          errors := errors + [DeltaOverflow];
          assert clean ==> !DeadlineOk(s, index);
          continue;
        }
        deadline := sum.value;
        accumulated := deadline;
      }
      assert clean ==> deadline == DecodedAt(s, index);
      if havePrevious && deadline < previous {
        errors := errors + [DecodedNondecreasing];
      }
      if deadline < s.origin || deadline >= horizonEnd {
        errors := errors + [HalfOpen];
      }
      previous := deadline;
      havePrevious := true;
      assert clean ==> (errors == [] <==> DeadlineOk(s, index));
    }
  }

  // ---------------------------------------------------------------- the lifecycle validator

  /** `horizonTicks` is the absolute end of the window here. */
  datatype Prepared = Prepared(deadlines: seq<int>, originTicks: int, horizonTicks: int)

  datatype PreparedRule = OriginBeforeHorizon | PreparedHalfOpen | PreparedNondecreasing

  ghost predicate PreparedOk(p: Prepared) {
    p.originTicks <= p.horizonTicks && Inside(p.deadlines, p.originTicks, p.horizonTicks) && Nondecreasing(p.deadlines)
  }

  method ValidatePrepared(p: Prepared) returns (errors: seq<PreparedRule>)
    ensures errors == [] <==> PreparedOk(p)
  {
    errors := [];
    if p.originTicks > p.horizonTicks {
      errors := errors + [OriginBeforeHorizon];
    }
    for index := 0 to |p.deadlines|
      invariant errors == [] <==>
        && p.originTicks <= p.horizonTicks
        && (forall i :: 0 <= i < index ==> p.originTicks <= p.deadlines[i] < p.horizonTicks)
        && (forall i :: 0 < i < index ==> p.deadlines[i - 1] <= p.deadlines[i])
    {
      var deadline := p.deadlines[index];
      if deadline < p.originTicks || deadline >= p.horizonTicks {
        errors := errors + [PreparedHalfOpen];
      }
      if index != 0 && deadline < p.deadlines[index - 1] {
        errors := errors + [PreparedNondecreasing];
      }
    }
  }

  // ---------------------------------------------------------------- agreement

  /** The decoded deadlines of an inline schedule. */
  ghost function Decoded(s: Record): seq<int>
    requires s.storage.Inline?
  {
    seq(|s.storage.encoded|, i requires 0 <= i < |s.storage.encoded| => DecodedAt(s, i))
  }

  /** The two validators agree on the decoded deadlines of any schedule with a sound header. */
  lemma ValidatorsAgree(s: Record)
    requires s.storage.Inline? && HeaderOk(s)
    requires |s.storage.encoded| == s.offeredCount && s.origin + s.horizon <= U64_MAX
    ensures ScheduleOk(s) <==> PreparedOk(Prepared(Decoded(s), s.origin, s.origin + s.horizon))
  {
    var d := Decoded(s);
    if ScheduleOk(s) {
      forall i | 0 <= i < |d| ensures s.origin <= d[i] < s.origin + s.horizon && (i > 0 ==> d[i - 1] <= d[i]) {
        assert DeadlineOk(s, i);
      }
    }
    if Inside(d, s.origin, s.origin + s.horizon) && Nondecreasing(d) {
      forall i | 0 <= i < |d| ensures DeadlineOk(s, i) {
        assert s.origin <= d[i] < s.origin + s.horizon;
        if i > 0 {
          assert d[i - 1] <= d[i];
        }
      }
    }
  }

  /** The record the generator's envelope describes, with its deadlines inline. */
  ghost function Envelope(spec: Spec, deadlines: seq<u64>): Record
    requires ValidateSpec(spec).None? && |deadlines| <= U64_MAX
  {
    Record(spec.kind, PoissonExponential, AbsoluteTicks, spec.origin, spec.horizon,
           |deadlines|, spec.denominator, Inline(deadlines))
  }

  /** Both validators accept deadlines in order inside the horizon. */
  lemma GeneratedIsAccepted(spec: Spec, deadlines: seq<u64>)
    requires ValidateSpec(spec).None? && |deadlines| <= U64_MAX
    requires Nondecreasing(deadlines) && Inside(deadlines, spec.origin, spec.origin + spec.horizon)
    ensures ScheduleOk(Envelope(spec, deadlines))
    ensures PreparedOk(Prepared(deadlines, spec.origin, spec.origin + spec.horizon))
  {
    var s := Envelope(spec, deadlines);
    forall i | 0 <= i < |deadlines| ensures DeadlineOk(s, i) {
      if i > 0 {
        assert deadlines[i - 1] <= deadlines[i];
      }
    }
  }

  /** Re-encodes a schedule with absolute ticks, when its deadlines fit in 64 bits. */
  ghost function Reencode(s: Record): Option<Record>
    requires s.storage.Inline?
  {
    if exists i :: 0 <= i < |s.storage.encoded| && DecodedAt(s, i) > U64_MAX then None
    else
      var ticks := seq(|s.storage.encoded|, i requires 0 <= i < |s.storage.encoded| => DecodedAt(s, i) as u64);
      Some(s.(encoding := AbsoluteTicks, storage := Inline(ticks)))
  }

  /** A delta schedule is valid exactly when its prefix sums, re-encoded as absolute ticks, are. */
  lemma DeltaIsAbsolute(s: Record)
    requires s.storage.Inline? && s.encoding == DeltaTicks
    ensures ScheduleOk(s) <==> Reencode(s).Some? && ScheduleOk(Reencode(s).value)
  {
    if Reencode(s).Some? {
      var t := Reencode(s).value;
      forall i | 0 <= i < |s.storage.encoded| ensures DeadlineOk(s, i) <==> DeadlineOk(t, i) {
        assert DecodedAt(t, i) == DecodedAt(s, i);
        if i > 0 {
          assert DecodedAt(t, i - 1) == DecodedAt(s, i - 1);
        }
      }
    } else {
      var i :| 0 <= i < |s.storage.encoded| && DecodedAt(s, i) > U64_MAX;
      assert !DeadlineOk(s, i);
    }
  }

  ghost function Delta(t: Record, i: nat): u64
    requires t.storage.Inline? && t.encoding == AbsoluteTicks && ScheduleOk(t) && i < |t.storage.encoded|
  {
    assert DeadlineOk(t, i);
    var e := t.storage.encoded;
    e[i] - if i == 0 then t.origin else e[i - 1]
  }

  /** Delta encoding of an absolute schedule. */
  ghost function ToDelta(t: Record): Record
    requires t.storage.Inline? && t.encoding == AbsoluteTicks && ScheduleOk(t)
  {
    var deltas := seq(|t.storage.encoded|, i requires 0 <= i < |t.storage.encoded| => Delta(t, i));
    t.(encoding := DeltaTicks, storage := Inline(deltas))
  }

  lemma {:induction false} ToDeltaDecodes(t: Record, i: nat)
    requires t.storage.Inline? && t.encoding == AbsoluteTicks && ScheduleOk(t) && i < |t.storage.encoded|
    ensures DecodedAt(ToDelta(t), i) == t.storage.encoded[i]
  {
    assert DeadlineOk(t, i);
    if i > 0 {
      ToDeltaDecodes(t, i - 1);
    }
  }

  /** Delta encoding round trips. */
  lemma DeltaRoundTrip(t: Record)
    requires t.storage.Inline? && t.encoding == AbsoluteTicks && ScheduleOk(t)
    ensures Reencode(ToDelta(t)) == Some(t) && ScheduleOk(ToDelta(t))
  {
    var d := ToDelta(t);
    forall i | 0 <= i < |d.storage.encoded| ensures DecodedAt(d, i) == t.storage.encoded[i] {
      ToDeltaDecodes(t, i);
    }
    assert Reencode(d).value.storage.encoded == t.storage.encoded;
    DeltaIsAbsolute(d);
  }
}
