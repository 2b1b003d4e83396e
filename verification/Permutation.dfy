/** The deterministic Fisher-Yates shuffle behind every randomized order. */
module Permutation {
  import opened Prelude
  import opened Bootstrap

  /** p lists 0..n-1 once each. */
  ghost predicate IsPermutation(p: seq<nat>, n: nat) {
    && |p| == n
    && (forall i :: 0 <= i < n ==> p[i] < n)
    && (forall i, j :: 0 <= i < j < n ==> p[i] != p[j])
  }

  /** The numbers below n. */
  ghost function Below(n: nat): (r: set<nat>)
    ensures |r| == n
    ensures forall v: nat :: v in r <==> v < n
  {
    if n == 0 then {} else Below(n - 1) + {n - 1}
  }

  /** Every number below n occurs in a permutation. */
  lemma PermutationHits(p: seq<nat>, n: nat, v: nat)
    requires IsPermutation(p, n) && v < n
    ensures v in p
  {
    if v !in p {
      var image := set i | 0 <= i < n :: p[i];
      ImageSize(p, n);
      ProperSubset(image, Below(n), v);
      assert false;
    }
  }

  lemma ProperSubset(a: set<nat>, b: set<nat>, v: nat)
    requires a <= b && v in b && v !in a
    ensures |a| < |b|
  {
    assert b == a + (b - a);
    assert v in b - a;
  }

  lemma {:induction false} ImageSize(p: seq<nat>, n: nat)
    requires |p| >= n && forall i, j :: 0 <= i < j < n ==> p[i] != p[j]
    ensures |(set i | 0 <= i < n :: p[i])| == n
  {
    if n > 0 {
      ImageSize(p, n - 1);
      assert (set i | 0 <= i < n :: p[i]) == (set i | 0 <= i < n - 1 :: p[i]) + {p[n - 1]};
    }
  }

  function Swap(a: seq<nat>, i: nat, j: nat): seq<nat>
    requires i < |a| && j < |a|
  {
    a[i := a[j]][j := a[i]]
  }

  /** The selections of a shuffle: one index below each remaining count. */
  ghost predicate Choices(selections: seq<nat>, remaining: nat) {
    |selections| == (if remaining == 0 then 0 else remaining - 1) &&
    forall k :: 0 <= k < |selections| ==> selections[k] < remaining - k
  }

  /** Swapping down from `remaining`, selection by selection. */
  ghost function Shuffle(a: seq<nat>, remaining: nat, selections: seq<nat>): (r: seq<nat>)
    requires remaining <= |a| && Choices(selections, remaining)
    ensures |r| == |a|
    decreases remaining
  {
    if remaining <= 1 then a
    else Shuffle(Swap(a, remaining - 1, selections[0]), remaining - 1, selections[1..])
  }

  function Identity(n: nat): seq<nat> { seq(n, i => i) }

  lemma SwapKeepsPermutation(a: seq<nat>, n: nat, i: nat, j: nat)
    requires IsPermutation(a, n) && i < n && j < n
    ensures IsPermutation(Swap(a, i, j), n)
  {
  }

  lemma {:induction false} ShuffleIsPermutation(a: seq<nat>, remaining: nat, selections: seq<nat>, n: nat)
    requires IsPermutation(a, n) && remaining <= n && Choices(selections, remaining)
    ensures IsPermutation(Shuffle(a, remaining, selections), n)
    ensures forall i :: remaining <= i < n ==> Shuffle(a, remaining, selections)[i] == a[i]
    decreases remaining
  {
    if remaining > 1 {
      SwapKeepsPermutation(a, n, remaining - 1, selections[0]);
      ShuffleIsPermutation(Swap(a, remaining - 1, selections[0]), remaining - 1, selections[1..], n);
    }
  }

  /** Different selections shuffle to different permutations. */
  lemma {:induction false} ShuffleInjective(a: seq<nat>, remaining: nat, s: seq<nat>, t: seq<nat>, n: nat)
    requires IsPermutation(a, n) && remaining <= n && Choices(s, remaining) && Choices(t, remaining)
    requires Shuffle(a, remaining, s) == Shuffle(a, remaining, t)
    ensures s == t
    decreases remaining
  {
    if remaining > 1 {
      var b, c := Swap(a, remaining - 1, s[0]), Swap(a, remaining - 1, t[0]);
      SwapKeepsPermutation(a, n, remaining - 1, s[0]);
      SwapKeepsPermutation(a, n, remaining - 1, t[0]);
      ShuffleIsPermutation(b, remaining - 1, s[1..], n);
      ShuffleIsPermutation(c, remaining - 1, t[1..], n);
      assert b[remaining - 1] == c[remaining - 1];
      assert a[s[0]] == a[t[0]];
      assert s[0] == t[0];
      ShuffleInjective(b, remaining - 1, s[1..], t[1..], n);
      assert s == [s[0]] + s[1..] && t == [t[0]] + t[1..];
    }
  }

  /** Every permutation that agrees with `a` beyond `remaining` is reached by some selections. */
  lemma {:induction false} ShuffleSurjective(a: seq<nat>, remaining: nat, target: seq<nat>, n: nat)
    returns (s: seq<nat>)
    requires IsPermutation(a, n) && IsPermutation(target, n) && remaining <= n
    requires forall i :: remaining <= i < n ==> target[i] == a[i]
    ensures Choices(s, remaining) && Shuffle(a, remaining, s) == target
    decreases remaining
  {
    if remaining <= 1 {
      s := [];
      SameButOne(a, target, n, remaining);
    } else {
      var j := FoundBelow(a, remaining, target, n);
      var b := Swap(a, remaining - 1, j);
      SwapKeepsPermutation(a, n, remaining - 1, j);
      assert forall i :: remaining - 1 <= i < n ==> target[i] == b[i];
      hide IsPermutation, Swap;
      var rest := ShuffleSurjective(b, remaining - 1, target, n);
      s := [j] + rest;
      ChoicesCons(j, rest, remaining);
      assert s[1..] == rest;
      hide Choices;
    }
  }

  lemma ChoicesCons(j: nat, rest: seq<nat>, remaining: nat)
    requires remaining > 1 && j < remaining && Choices(rest, remaining - 1)
    ensures Choices([j] + rest, remaining)
  {
    var s := [j] + rest;
    forall k | 0 <= k < |s| ensures s[k] < remaining - k {
      assert k > 0 ==> s[k] == rest[k - 1];
    }
  }

  /** Permutations that agree beyond the first place agree everywhere. */
  lemma SameButOne(a: seq<nat>, target: seq<nat>, n: nat, remaining: nat)
    requires IsPermutation(a, n) && IsPermutation(target, n) && remaining <= n && remaining <= 1
    requires forall i :: remaining <= i < n ==> target[i] == a[i]
    ensures a == target
  {
    if remaining == 1 {
      var j := FoundBelow(a, 1, target, n);
    }
  }

  /** The value wanted at the last open place is still below it. */
  lemma FoundBelow(a: seq<nat>, remaining: nat, target: seq<nat>, n: nat) returns (j: nat)
    requires IsPermutation(a, n) && IsPermutation(target, n) && 0 < remaining <= n
    requires forall i :: remaining <= i < n ==> target[i] == a[i]
    ensures j < remaining && a[j] == target[remaining - 1]
  {
    forall k | remaining <= k < n ensures a[k] != target[remaining - 1] {
      assert target[k] == a[k];
    }
    PermutationHits(a, n, target[remaining - 1]);
    j :| 0 <= j < n && a[j] == target[remaining - 1];
  }

  /**
   The shuffle is unbiased: selections below n, n-1, ..., 2 correspond one to one with the
   permutations of 0..n-1.
   */
  lemma ShuffleBijective(n: nat, target: seq<nat>)
    requires IsPermutation(target, n)
    ensures exists s :: Choices(s, n) && Shuffle(Identity(n), n, s) == target
    ensures forall s, t | Choices(s, n) && Choices(t, n) ::
      Shuffle(Identity(n), n, s) == target && Shuffle(Identity(n), n, t) == target ==> s == t
  {
    assert IsPermutation(Identity(n), n);
    var s0 := ShuffleSurjective(Identity(n), n, target, n);
    forall s, t | Choices(s, n) && Choices(t, n)
      && Shuffle(Identity(n), n, s) == target && Shuffle(Identity(n), n, t) == target
      ensures s == t
    {
      ShuffleInjective(Identity(n), n, s, t, n);
    }
  }

  /** The selections a stream yields for bounds remaining, remaining - 1, ..., 2. */
  ghost function Selections(stream: Stream, remaining: nat, start: nat): Option<seq<nat>>
    requires remaining <= U64_MAX
    decreases remaining
  {
    if remaining <= 1 then Some([])
    else
      var p := Pick(stream, remaining, start);
      if p.None? then None
      else Cons(stream(p.value) % remaining, Selections(stream, remaining - 1, p.value + 1))
  }

  lemma {:induction false} SelectionsAreChoices(stream: Stream, remaining: nat, start: nat)
    requires remaining <= U64_MAX && Selections(stream, remaining, start).Some?
    ensures Choices(Selections(stream, remaining, start).value, remaining)
    decreases remaining
  {
    if remaining > 1 {
      var p := Pick(stream, remaining, start);
      SelectionsAreChoices(stream, remaining - 1, p.value + 1);
      var rest := Selections(stream, remaining - 1, p.value + 1).value;
      var all := [stream(p.value) % remaining] + rest;
      assert Selections(stream, remaining, start).value == all;
      assert forall k :: 1 <= k < |all| ==> all[k] == rest[k - 1];
    }
  }

  /** The shuffle driven by a stream, one draw per swap. */
  ghost function Shuffled(stream: Stream, a: seq<nat>, remaining: nat, start: nat): Option<seq<nat>>
    requires remaining <= |a| && remaining <= U64_MAX
    decreases remaining
  {
    if remaining <= 1 then Some(a)
    else
      var p := Pick(stream, remaining, start);
      if p.None? then None
      else Shuffled(stream, Swap(a, remaining - 1, stream(p.value) % remaining), remaining - 1, p.value + 1)
  }

  /** It is the shuffle of the stream's selections. */
  lemma {:induction false} ShuffledIs(stream: Stream, a: seq<nat>, remaining: nat, start: nat)
    requires remaining <= |a| && remaining <= U64_MAX
    ensures var s := Selections(stream, remaining, start);
            if s.None? then Shuffled(stream, a, remaining, start) == None
            else
              && Choices(s.value, remaining)
              && Shuffled(stream, a, remaining, start) == Some(Shuffle(a, remaining, s.value))
    decreases remaining
  {
    if remaining > 1 {
      var p := Pick(stream, remaining, start);
      if p.Some? {
        var selected := stream(p.value) % remaining;
        ShuffledIs(stream, Swap(a, remaining - 1, selected), remaining - 1, p.value + 1);
        var rest := Selections(stream, remaining - 1, p.value + 1);
        if rest.Some? {
          SelectionsAreChoices(stream, remaining, start);
          assert ([selected] + rest.value)[1..] == rest.value;
        }
      }
    }
  }

  /** The in-place shuffle; None when the count is zero or the draw ordinals run out. */
  method MakePermutation(count: u64, stream: Stream) returns (r: Option<seq<nat>>)
    ensures count == 0 ==> r == None
    ensures count > 0 ==>
      var s := Selections(stream, count, 0);
      if s.None? then r == None
      else Choices(s.value, count) && r == Some(Shuffle(Identity(count), count, s.value))
    ensures r.Some? ==> IsPermutation(r.value, count)
  {
    if count == 0 {
      return None;
    }
    ShuffledIs(stream, Identity(count), count, 0);
    r := ShuffleInPlace(Identity(count), stream);
    if r.Some? {
      assert IsPermutation(Identity(count), count);
      ShuffleIsPermutation(Identity(count), count, Selections(stream, count, 0).value, count);
    }
  }

  method ShuffleInPlace(start: seq<nat>, stream: Stream) returns (r: Option<seq<nat>>)
    requires 0 < |start| <= U64_MAX
    ensures r == Shuffled(stream, start, |start|, 0)
  {
    hide Pick;
    var result := start;
    var remaining: nat := |start|;
    var ordinal: u64 := 0;
    while remaining > 1
      invariant 1 <= remaining <= |start| == |result|
      invariant Shuffled(stream, start, |start|, 0) == Shuffled(stream, result, remaining, ordinal)
    {
      var selected;
      selected, ordinal := BoundedDraw(stream, remaining, ordinal);
      if selected.Err? {
        return None;
      }
      result := Swap(result, remaining - 1, selected.value);
      remaining := remaining - 1;
    }
    return Some(result);
  }
}
