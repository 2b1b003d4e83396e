/** Unbiased bounded draws by rejection, and the complete-block bootstrap that uses them. */
module Bootstrap {
  import opened Arith
  import opened Prelude
  import opened Moments

  const TWO_64: int := 0x1_0000_0000_0000_0000

  datatype BootstrapError = BadBound | Exhausted | BadContract | BadWidth

  /** The deterministic stream: a 64-bit word for every draw ordinal. */
  type Stream = nat -> u64

  /** (0 - bound) % bound in unsigned 64-bit arithmetic: draws below it are rejected. */
  function Threshold(bound: u64): (t: u64)
    requires bound > 0
    ensures t < bound
  {
    (TWO_64 - bound) % bound
  }

  // ---------------------------------------------------------------- unbiasedness

  /** The draws in [lo, hi) that select residue r. */
  ghost function Selecting(lo: int, hi: int, bound: int, r: int): set<int>
    requires bound > 0
  {
    set d | lo <= d < hi && d % bound == r
  }

  /** Any window of `bound` consecutive draws selects each residue exactly once. */
  lemma OneInWindow(lo: int, bound: int, r: int) returns (d: int)
    requires bound > 0 && 0 <= r < bound
    ensures Selecting(lo, lo + bound, bound, r) == {d}
  {
    var q := lo / bound;
    Division(lo, bound);
    Distribute(q, 1, bound);
    d := if q * bound + r >= lo then q * bound + r else (q + 1) * bound + r;
    DivisionUnique(d, bound, if q * bound + r >= lo then q else q + 1, r);
    forall e | lo <= e < lo + bound && e % bound == r ensures e == d {
      SameResidueInWindow(d, e, bound);
    }
  }

  lemma SameResidueInWindow(d: int, e: int, bound: int)
    requires bound > 0 && d % bound == e % bound && -bound < d - e < bound
    ensures d == e
  {
    Division(d, bound);
    Division(e, bound);
    var k := d / bound - e / bound;
    Distribute(d / bound, e / bound, bound);
    if k >= 1 {
      MulMono(1, k, bound);
    } else if k <= -1 {
      MulMono(k, -1, bound);
    }
  }

  lemma {:induction false} WindowsSelectEqually(lo: int, windows: nat, bound: int, r: int)
    requires bound > 0 && 0 <= r < bound
    ensures |Selecting(lo, lo + windows * bound, bound, r)| == windows
    decreases windows
  {
    if windows == 0 {
      assert Selecting(lo, lo, bound, r) == {};
    } else {
      var mid := lo + (windows - 1) * bound;
      Distribute(windows, 1, bound);
      MulNonNegative(windows - 1, bound);
      WindowsSelectEqually(lo, windows - 1, bound, r);
      var d := OneInWindow(mid, bound, r);
      OneMoreWindow(lo, mid, bound, r, d);
      hide Selecting;
    }
  }

  lemma OneMoreWindow(lo: int, mid: int, bound: int, r: int, d: int)
    requires bound > 0 && lo <= mid && Selecting(mid, mid + bound, bound, r) == {d}
    ensures Selecting(lo, mid + bound, bound, r) == Selecting(lo, mid, bound, r) + {d}
    ensures d !in Selecting(lo, mid, bound, r)
  {
    assert d in Selecting(mid, mid + bound, bound, r);
    forall e ensures e in Selecting(lo, mid + bound, bound, r) <==> e in Selecting(lo, mid, bound, r) + {d} {
      assert e in Selecting(mid, mid + bound, bound, r) <==> e == d;
    }
  }

  /** Exactly unbiased: every residue has the same number of accepted 64-bit draws. */
  lemma BoundedDrawUnbiased(bound: u64, r: nat)
    requires 0 <= r < bound
    ensures |Selecting(Threshold(bound), TWO_64, bound, r)| * bound == TWO_64 - Threshold(bound)
  {
    var t := Threshold(bound);
    Division(TWO_64 - bound, bound);
    var q := (TWO_64 - bound) / bound;
    Distribute(q, 1, bound);
    assert t + (q + 1) * bound == TWO_64;
    if q < 0 {
      MulMono(q, -1, bound);
      assert false;
    }
    WindowsSelectEqually(t, q + 1, bound, r);
  }

  // ---------------------------------------------------------------- drawing

  /** The first accepted ordinal from `start` on, if the ordinals do not run out. */
  function Pick(stream: Stream, bound: u64, start: nat): (p: Option<nat>)
    requires bound > 0
    ensures p.Some? ==> start <= p.value < U64_MAX
    decreases U64_MAX - start
  {
    if start >= U64_MAX then None
    else if stream(start) >= Threshold(bound) then Some(start)
    else Pick(stream, bound, start + 1)
  }

  /** One bounded draw, advancing the ordinal past every word it looked at. */
  method BoundedDraw(stream: Stream, bound: u64, ordinal: u64) returns (r: Result<u64, BootstrapError>, next: u64)
    ensures bound == 0 ==> r == Err(BadBound) && next == ordinal
    ensures bound > 0 ==>
      var p := Pick(stream, bound, ordinal);
      if p.None? then r == Err(Exhausted) && next == U64_MAX
      else r == Ok(stream(p.value) % bound) && r.value < bound && next == p.value + 1
  {
    next := ordinal;
    if bound == 0 {
      return Err(BadBound), next;
    }
    var threshold := Threshold(bound);
    while true
      invariant Pick(stream, bound, ordinal) == Pick(stream, bound, next)
      decreases U64_MAX - next
    {
      if next == U64_MAX {
        return Err(Exhausted), next;
      }
      var draw := stream(next);
      next := next + 1;
      if draw >= threshold {
        return Ok(draw % bound), next;
      }
    }
  }

  function Cons<T>(x: T, rest: Option<seq<T>>): Option<seq<T>> {
    if rest.None? then None else Some([x] + rest.value)
  }

  /** The next `count` accepted ordinals from `start` on. */
  function Picks(stream: Stream, bound: u64, start: nat, count: nat): (ps: Option<seq<nat>>)
    requires bound > 0
    ensures ps.Some? ==> |ps.value| == count
    decreases count
  {
    if count == 0 then Some([])
    else
      var p := Pick(stream, bound, start);
      if p.None? then None else Cons(p.value, Picks(stream, bound, p.value + 1, count - 1))
  }

  /** The ordinal after a list of picks. */
  function After(start: nat, picks: seq<nat>): nat {
    if picks == [] then start else picks[|picks| - 1] + 1
  }

  lemma {:induction false} PickIs(stream: Stream, bound: u64, start: nat)
    requires bound > 0
    ensures var p := Pick(stream, bound, start);
            && (p.Some? ==> stream(p.value) >= Threshold(bound))
            && forall o: nat :: start <= o < (if p.Some? then p.value else U64_MAX) ==> stream(o) < Threshold(bound)
    decreases U64_MAX - start
  {
    if start < U64_MAX && stream(start) < Threshold(bound) {
      PickIs(stream, bound, start + 1);
    }
  }

  /** `picks` strictly increase from `start` and are accepted; ordinals between them are rejected. */
  ghost predicate Fresh(stream: Stream, bound: u64, start: nat, picks: seq<nat>)
    requires bound > 0
  {
    Kept(stream, bound, start, picks) && Rising(picks) && Skipped(stream, bound, start, picks)
  }

  /** Every pick is an acceptable draw from `start` on. */
  ghost predicate Kept(stream: Stream, bound: u64, start: nat, picks: seq<nat>)
    requires bound > 0
  {
    forall k :: 0 <= k < |picks| ==> start <= picks[k] < U64_MAX && stream(picks[k]) >= Threshold(bound)
  }

  ghost predicate Rising(picks: seq<nat>) {
    forall j, k :: 0 <= j < k < |picks| ==> picks[j] < picks[k]
  }

  /** Every ordinal passed over had a rejected draw. */
  ghost predicate Skipped(stream: Stream, bound: u64, start: nat, picks: seq<nat>)
    requires bound > 0
  {
    forall o: nat :: start <= o < After(start, picks) && o !in picks ==> stream(o) < Threshold(bound)
  }

  lemma FreshNone(stream: Stream, bound: u64, start: nat)
    requires bound > 0
    ensures Fresh(stream, bound, start, [])
  {
  }

  lemma FreshCons(stream: Stream, bound: u64, start: nat, p: nat, rest: seq<nat>)
    requires bound > 0 && start <= p < U64_MAX && stream(p) >= Threshold(bound)
    requires forall o: nat :: start <= o < p ==> stream(o) < Threshold(bound)
    requires Fresh(stream, bound, p + 1, rest)
    ensures Fresh(stream, bound, start, [p] + rest)
  {
    KeptCons(stream, bound, start, p, rest);
    RisingCons(stream, bound, p, rest);
    SkippedCons(stream, bound, start, p, rest);
    hide Kept, Rising, Skipped;
  }

  lemma KeptCons(stream: Stream, bound: u64, start: nat, p: nat, rest: seq<nat>)
    requires bound > 0 && start <= p < U64_MAX && stream(p) >= Threshold(bound) && Kept(stream, bound, p + 1, rest)
    ensures Kept(stream, bound, start, [p] + rest)
  {
    hide Threshold;
    var ps := [p] + rest;
    forall k | 0 <= k < |ps| ensures start <= ps[k] < U64_MAX && stream(ps[k]) >= Threshold(bound) {
      assert k > 0 ==> ps[k] == rest[k - 1];
    }
  }

  lemma RisingCons(stream: Stream, bound: u64, p: nat, rest: seq<nat>)
    requires bound > 0 && Kept(stream, bound, p + 1, rest) && Rising(rest)
    ensures Rising([p] + rest)
  {
    hide Threshold;
    var ps := [p] + rest;
    forall j, k | 0 <= j < k < |ps| ensures ps[j] < ps[k] {
      assert ps[k] == rest[k - 1];
      assert j > 0 ==> ps[j] == rest[j - 1];
    }
  }

  lemma SkippedCons(stream: Stream, bound: u64, start: nat, p: nat, rest: seq<nat>)
    requires bound > 0 && forall o: nat :: start <= o < p ==> stream(o) < Threshold(bound)
    requires Skipped(stream, bound, p + 1, rest)
    ensures Skipped(stream, bound, start, [p] + rest)
  {
    hide Threshold;
    var ps := [p] + rest;
    AfterCons(start, p, rest);
    hide After;
    forall o: nat | start <= o < After(start, ps) && o !in ps ensures stream(o) < Threshold(bound) {
      assert ps[0] == p;
      assert o !in rest;
    }
  }

  lemma AfterCons(start: nat, p: nat, rest: seq<nat>)
    ensures After(start, [p] + rest) == After(p + 1, rest)
  {
  }

  lemma {:induction false} PicksAreFresh(stream: Stream, bound: u64, start: nat, count: nat)
    requires bound > 0 && Picks(stream, bound, start, count).Some?
    ensures Fresh(stream, bound, start, Picks(stream, bound, start, count).value)
    decreases count
  {
    hide Fresh, Pick, Threshold;
    if count == 0 {
      FreshNone(stream, bound, start);
    } else {
      var p := Pick(stream, bound, start).value;
      PickIs(stream, bound, start);
      PicksAreFresh(stream, bound, p + 1, count - 1);
      FreshCons(stream, bound, start, p, Picks(stream, bound, p + 1, count - 1).value);
    }
  }

  /** Drawing in two stages is drawing all at once. */
  lemma {:induction false} PicksConcat(stream: Stream, bound: u64, start: nat, first: nat, second: nat)
    requires bound > 0 && Picks(stream, bound, start, first).Some?
    ensures var ps := Picks(stream, bound, start, first).value;
            var rest := Picks(stream, bound, After(start, ps), second);
            Continues(Picks(stream, bound, start, first + second), ps, rest)
    decreases first
  {
    if first == 0 {
      var rest := Picks(stream, bound, start, second);
      assert rest.Some? ==> [] + rest.value == rest.value;
    } else {
      var p := Pick(stream, bound, start).value;
      var tail := Picks(stream, bound, p + 1, first - 1).value;
      PicksConcat(stream, bound, p + 1, first - 1, second);
      var ps := [p] + tail;
      assert After(start, ps) == After(p + 1, tail);
      ConsContinues(p, Picks(stream, bound, p + 1, first - 1 + second), tail,
                    Picks(stream, bound, After(p + 1, tail), second));
    }
  }

  /** `done` followed by `rest` is `whole`. */
  ghost predicate Continues<T>(whole: Option<seq<T>>, done: seq<T>, rest: Option<seq<T>>) {
    whole == if rest.None? then None else Some(done + rest.value)
  }

  lemma ConsContinues<T>(x: T, whole: Option<seq<T>>, done: seq<T>, rest: Option<seq<T>>)
    requires Continues(whole, done, rest)
    ensures Continues(Cons(x, whole), [x] + done, rest)
  {
    if rest.Some? {
      assert [x] + (done + rest.value) == [x] + done + rest.value;
    }
  }

  lemma ContinueMore<T>(whole: Option<seq<T>>, done: seq<T>, next: T, tail: Option<seq<T>>)
    requires Continues(whole, done, Cons(next, tail))
    ensures Continues(whole, done + [next], tail)
  {
    if tail.Some? {
      assert done + ([next] + tail.value) == done + [next] + tail.value;
    }
  }

  // ---------------------------------------------------------------- replicates

  /** Column sum of the selected blocks. */
  function SelectedSum(blocks: seq<seq<real>>, stream: Stream, picks: seq<nat>, column: nat): real
    requires 0 < |blocks| <= U64_MAX
    requires forall i :: 0 <= i < |blocks| ==> column < |blocks[i]|
  {
    if picks == [] then 0.0
    else
      SelectedSum(blocks, stream, picks[..|picks| - 1], column)
      + blocks[stream(picks[|picks| - 1]) % |blocks|][column]
  }

  predicate SameWidth(blocks: seq<seq<real>>, width: nat) {
    forall i :: 0 <= i < |blocks| ==> |blocks[i]| == width
  }

  /** One replicate: the mean of |blocks| blocks drawn with replacement. */
  function Estimate(blocks: seq<seq<real>>, stream: Stream, picks: seq<nat>, width: nat): seq<real>
    requires 0 < |blocks| <= U64_MAX && SameWidth(blocks, width)
  {
    seq(width, column requires 0 <= column < width =>
      SelectedSum(blocks, stream, picks, column) / |blocks| as real)
  }

  /** The selected blocks' entries in one column. */
  ghost function Selected(blocks: seq<seq<real>>, stream: Stream, picks: seq<nat>, column: nat): (r: seq<real>)
    requires 0 < |blocks| <= U64_MAX
    requires forall i :: 0 <= i < |blocks| ==> column < |blocks[i]|
    ensures |r| == |picks|
  {
    seq(|picks|, k requires 0 <= k < |picks| => blocks[stream(picks[k]) % |blocks|][column])
  }

  lemma {:induction false} SelectedTotal(blocks: seq<seq<real>>, stream: Stream, picks: seq<nat>, column: nat)
    requires 0 < |blocks| <= U64_MAX
    requires forall i :: 0 <= i < |blocks| ==> column < |blocks[i]|
    ensures SelectedSum(blocks, stream, picks, column) == Total(Selected(blocks, stream, picks, column))
    decreases |picks|
  {
    if picks != [] {
      var front := picks[..|picks| - 1];
      var last := blocks[stream(picks[|picks| - 1]) % |blocks|][column];
      SelectedTotal(blocks, stream, front, column);
      assert Selected(blocks, stream, picks, column) == Selected(blocks, stream, front, column) + [last];
      TotalSnoc(Selected(blocks, stream, front, column), last);
    }
  }

  /** A replicate of as many picks as blocks balances each column of the selected blocks. */
  lemma EstimateIsMean(blocks: seq<seq<real>>, stream: Stream, picks: seq<nat>, width: nat, column: nat)
    requires 0 < |blocks| == |picks| <= U64_MAX && SameWidth(blocks, width) && column < width
    ensures IsMean(Selected(blocks, stream, picks, column), Estimate(blocks, stream, picks, width)[column])
  {
    SelectedTotal(blocks, stream, picks, column);
    hide SelectedSum, Total;
    QuotientIsMean(Selected(blocks, stream, picks, column), Estimate(blocks, stream, picks, width)[column]);
  }

  /** The replicates from `start` on; None when the draw ordinals run out. */
  function Replicates(blocks: seq<seq<real>>, stream: Stream, width: nat, start: nat, count: nat)
    : (r: Option<seq<seq<real>>>)
    requires 0 < |blocks| <= U64_MAX && SameWidth(blocks, width)
    ensures r.Some? ==> |r.value| == count && SameWidth(r.value, width)
    decreases count
  {
    if count == 0 then Some([])
    else
      var picks := Picks(stream, |blocks|, start, |blocks|);
      if picks.None? then None
      else
        Cons(Estimate(blocks, stream, picks.value, width),
             Replicates(blocks, stream, width, After(start, picks.value), count - 1))
  }

  /** All ordinals picked by `count` replicates, replicate by replicate. */
  ghost function AllPicks(blocks: nat, stream: Stream, start: nat, count: nat): Option<seq<seq<nat>>>
    requires 0 < blocks <= U64_MAX
    decreases count
  {
    if count == 0 then Some([])
    else
      var picks := Picks(stream, blocks, start, blocks);
      if picks.None? then None
      else
        Cons(picks.value, AllPicks(blocks, stream, After(start, picks.value), count - 1))
  }

  ghost function Flatten(chunks: seq<seq<nat>>): seq<nat> {
    if chunks == [] then [] else chunks[0] + Flatten(chunks[1..])
  }

  /**
   Across a whole bootstrap the replicates take their draws from one strictly increasing list of
   fresh ordinals, block count by block count, and each column of replicate r is the mean of the
   entries its chunk of draws selects.
   */
  lemma {:induction false} WholeBootstrapIsFresh(
    blocks: seq<seq<real>>, stream: Stream, width: nat, start: nat, count: nat)
    requires 0 < |blocks| <= U64_MAX && SameWidth(blocks, width)
    requires Replicates(blocks, stream, width, start, count).Some?
    ensures AllPicks(|blocks|, stream, start, count).Some?
    ensures var chunks := AllPicks(|blocks|, stream, start, count).value;
            && |chunks| == count
            && (forall r :: 0 <= r < count ==> |chunks[r]| == |blocks|)
            && (forall r, c: nat :: 0 <= r < count && c < width ==>
                  IsMean(Selected(blocks, stream, chunks[r], c),
                         Replicates(blocks, stream, width, start, count).value[r][c]))
            && Picks(stream, |blocks|, start, count * |blocks|) == Some(Flatten(chunks))
            && Fresh(stream, |blocks|, start, Flatten(chunks))
    decreases count
  {
    ChunksOf(blocks, stream, width, start, count);
    var chunks := AllPicks(|blocks|, stream, start, count).value;
    forall r, c: nat | 0 <= r < count && c < width
      ensures IsMean(Selected(blocks, stream, chunks[r], c),
                     Replicates(blocks, stream, width, start, count).value[r][c])
    {
      EstimateIsMean(blocks, stream, chunks[r], width, c);
    }
    FlattenedPicks(|blocks|, stream, start, count);
    hide *;
    MulNonNegative(count, |blocks|);
    PicksAreFresh(stream, |blocks|, start, count * |blocks|);
  }

  /** Each replicate is the estimate of its own chunk of picks. */
  lemma {:induction false} ChunksOf(blocks: seq<seq<real>>, stream: Stream, width: nat, start: nat, count: nat)
    requires 0 < |blocks| <= U64_MAX && SameWidth(blocks, width)
    requires Replicates(blocks, stream, width, start, count).Some?
    ensures AllPicks(|blocks|, stream, start, count).Some?
    ensures var chunks := AllPicks(|blocks|, stream, start, count).value;
            && |chunks| == count
            && (forall r :: 0 <= r < count ==> |chunks[r]| == |blocks|)
            && (forall r :: 0 <= r < count ==>
                  Replicates(blocks, stream, width, start, count).value[r]
                  == Estimate(blocks, stream, chunks[r], width))
    decreases count
  {
    hide Estimate;
    if count > 0 {
      var ps := Picks(stream, |blocks|, start, |blocks|).value;
      ChunksOf(blocks, stream, width, After(start, ps), count - 1);
      var rest := AllPicks(|blocks|, stream, After(start, ps), count - 1).value;
      var chunks := [ps] + rest;
      assert AllPicks(|blocks|, stream, start, count) == Some(chunks);
      assert forall r :: 1 <= r < count ==> chunks[r] == rest[r - 1];
    }
  }

  /** The chunks in sequence are one list of picks. */
  lemma {:induction false} FlattenedPicks(n: nat, stream: Stream, start: nat, count: nat)
    requires 0 < n <= U64_MAX && AllPicks(n, stream, start, count).Some?
    ensures count * n >= 0
    ensures Picks(stream, n, start, count * n) == Some(Flatten(AllPicks(n, stream, start, count).value))
    decreases count
  {
    hide Pick;
    MulNonNegative(count, n);
    if count > 0 {
      MulNonNegative(count - 1, n);
      Distribute(count, 1, n);
      var ps := Picks(stream, n, start, n).value;
      FlattenedPicks(n, stream, After(start, ps), count - 1);
      PicksConcat(stream, n, start, n, (count - 1) * n);
      hide Picks;
      var rest := AllPicks(n, stream, After(start, ps), count - 1).value;
      assert AllPicks(n, stream, start, count) == Some([ps] + rest);
      assert ([ps] + rest)[1..] == rest;
    }
  }

  method BootstrapVectors(blocks: seq<seq<real>>, replicates: u64, contract: bool, stream: Stream)
    returns (r: Result<seq<seq<real>>, BootstrapError>)
    requires |blocks| <= U64_MAX
    ensures |blocks| < 2 || replicates < 2 || !contract <==> r == Err(BadContract)
    ensures |blocks| >= 2 && replicates >= 2 && contract ==>
      (r == Err(BadWidth) <==> |blocks[0]| == 0 || !SameWidth(blocks, |blocks[0]|))
    ensures |blocks| >= 2 && replicates >= 2 && contract && |blocks[0]| > 0 && SameWidth(blocks, |blocks[0]|) ==>
      var spec := Replicates(blocks, stream, |blocks[0]|, 0, replicates);
      r == if spec.None? then Err(Exhausted) else Ok(spec.value)
  {
    if |blocks| < 2 || replicates < 2 || !contract {
      return Err(BadContract);
    }
    var width := |blocks[0]|;
    if width == 0 || !SameWidth(blocks, width) {
      return Err(BadWidth);
    }
    var result := AllReplicates(blocks, width, replicates, stream);
    if result.None? {
      return Err(Exhausted);
    }
    return Ok(result.value);
  }

  lemma ReplicatesStep(blocks: seq<seq<real>>, stream: Stream, width: nat, start: nat, count: nat)
    requires 0 < |blocks| <= U64_MAX && SameWidth(blocks, width)
    ensures Replicates(blocks, stream, width, start, 0) == Some([])
    ensures count > 0 ==>
      Replicates(blocks, stream, width, start, count)
      == var picks := Picks(stream, |blocks|, start, |blocks|);
         if picks.None? then None
         else Cons(Estimate(blocks, stream, picks.value, width),
                   Replicates(blocks, stream, width, After(start, picks.value), count - 1))
  {
    hide Estimate, Picks;
  }

  method AllReplicates(blocks: seq<seq<real>>, width: nat, replicates: u64, stream: Stream)
    returns (r: Option<seq<seq<real>>>)
    requires 0 < |blocks| <= U64_MAX && SameWidth(blocks, width)
    ensures r == Replicates(blocks, stream, width, 0, replicates)
  {
    hide Estimate, Replicates, Picks, After;
    var ordinal: u64 := 0;
    var result: seq<seq<real>> := [];
    ghost var spec := Replicates(blocks, stream, width, 0, replicates);
    assert spec.Some? ==> [] + spec.value == spec.value;
    for replicate := 0 to replicates
      invariant Continues(spec, result, Replicates(blocks, stream, width, ordinal, replicates - replicate))
    {
      ReplicatesStep(blocks, stream, width, ordinal, replicates - replicate);
      var estimate;
      estimate, ordinal := OneReplicate(blocks, width, stream, ordinal);
      if estimate.None? {
        return None;
      }
      ContinueMore(spec, result, estimate.value,
                   Replicates(blocks, stream, width, ordinal, replicates - replicate - 1));
      result := result + [estimate.value];
    }
    ReplicatesStep(blocks, stream, width, ordinal, 0);
    assert result + [] == result;
    return Some(result);
  }

  method OneReplicate(blocks: seq<seq<real>>, width: nat, stream: Stream, start: u64)
    returns (r: Option<seq<real>>, next: u64)
    requires 0 < |blocks| <= U64_MAX && SameWidth(blocks, width)
    ensures var picks := Picks(stream, |blocks|, start, |blocks|);
            if picks.None? then r == None
            else
              && r == Some(Estimate(blocks, stream, picks.value, width))
              && next == After(start, picks.value)
  {
    var n := |blocks|;
    next := start;
    var estimate := seq(width, _ => 0.0);
    ghost var done: seq<nat> := [];
    ghost var picks := Picks(stream, n, start, n);
    assert picks.Some? ==> [] + picks.value == picks.value;
    for drawIndex := 0 to n
      invariant |done| == drawIndex && |estimate| == width
      invariant Continues(picks, done, Picks(stream, n, next, n - drawIndex))
      invariant next == After(start, done)
      invariant forall c :: 0 <= c < width ==> estimate[c] == SelectedSum(blocks, stream, done, c)
    {
      var selected;
      ghost var p := Pick(stream, n, next);
      selected, next := BoundedDraw(stream, n, next);
      if selected.Err? {
        return None, next;
      }
      ContinueMore(picks, done, p.value, Picks(stream, n, next, n - drawIndex - 1));
      ghost var done' := done + [p.value];
      assert done'[..|done'| - 1] == done;
      done := done';
      estimate := AddBlock(estimate, blocks[selected.value]);
    }
    assert done + [] == done;
    estimate := DivideAll(estimate, n);
    assert estimate == Estimate(blocks, stream, done, width);
    return Some(estimate), next;
  }

  method AddBlock(estimate: seq<real>, block: seq<real>) returns (sum: seq<real>)
    requires |estimate| == |block|
    ensures |sum| == |estimate| && forall c :: 0 <= c < |sum| ==> sum[c] == estimate[c] + block[c]
  {
    sum := estimate;
    for column := 0 to |estimate|
      invariant |sum| == |estimate|
      invariant forall c :: 0 <= c < column ==> sum[c] == estimate[c] + block[c]
      invariant forall c :: column <= c < |sum| ==> sum[c] == estimate[c]
    {
      sum := sum[column := sum[column] + block[column]];
    }
  }

  method DivideAll(values: seq<real>, n: nat) returns (result: seq<real>)
    requires n > 0
    ensures |result| == |values| && forall c :: 0 <= c < |result| ==> result[c] == values[c] / n as real
  {
    result := values;
    for column := 0 to |values|
      invariant |result| == |values|
      invariant forall c :: 0 <= c < column ==> result[c] == values[c] / n as real
      invariant forall c :: column <= c < |result| ==> result[c] == values[c]
    {
      result := result[column := result[column] / n as real];
    }
  }
}
