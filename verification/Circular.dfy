/** Circular buffers of optional slots, read from a position onward. */
module Circular {
  import opened Prelude

  /** The position k places after p. */
  function At(size: nat, p: nat, k: nat): (r: nat)
    requires p < size && k <= size
    ensures r < size
  {
    if p + k < size then p + k else p + k - size
  }

  function Next(size: nat, p: nat): (r: nat)
    requires p < size
    ensures r == At(size, p, 1)
  {
    if p + 1 == size then 0 else p + 1
  }

  /** From p onward the slots hold the items, and are empty after them. */
  ghost predicate Holds<T>(slots: seq<Option<T>>, p: nat, items: seq<T>) {
    && p < |slots| && |items| <= |slots|
    && (forall k :: 0 <= k < |items| ==> slots[At(|slots|, p, k)] == Some(items[k]))
    && (forall k :: |items| <= k < |slots| ==> slots[At(|slots|, p, k)] == None)
  }

  lemma FrontSlot<T>(slots: seq<Option<T>>, p: nat, items: seq<T>)
    requires Holds(slots, p, items)
    ensures slots[p] == if items == [] then None else Some(items[0])
  {
    assert At(|slots|, p, 0) == p;
  }

  lemma BackSlot<T>(slots: seq<Option<T>>, p: nat, items: seq<T>)
    requires Holds(slots, p, items)
    ensures slots[At(|slots|, p, |items|)].None? <==> |items| < |slots|
  {
    if |items| == |slots| {
      assert At(|slots|, p, |items|) == At(|slots|, p, 0);
    }
  }

  lemma PushHolds<T>(slots: seq<Option<T>>, p: nat, items: seq<T>, x: T)
    requires Holds(slots, p, items) && |items| < |slots|
    ensures var back := At(|slots|, p, |items|);
            && Holds(slots[back := Some(x)], p, items + [x])
            && At(|slots|, p, |items| + 1) == Next(|slots|, back)
  {
    var back := At(|slots|, p, |items|);
    var next := slots[back := Some(x)];
    assert forall k :: 0 <= k < |slots| && k != |items| ==> At(|slots|, p, k) != back;
    assert forall k :: 0 <= k < |items| ==> next[At(|slots|, p, k)] == Some((items + [x])[k]);
  }

  lemma PopHolds<T>(slots: seq<Option<T>>, p: nat, items: seq<T>)
    requires Holds(slots, p, items) && items != []
    ensures var q := Next(|slots|, p);
            && Holds(slots[p := None], q, items[1..])
            && At(|slots|, q, |items| - 1) == At(|slots|, p, |items|)
  {
    var size, q := |slots|, Next(|slots|, p);
    var next := slots[p := None];
    assert forall k :: 0 <= k < size ==> At(size, q, k) == At(size, p, k + 1);
    assert forall k :: 0 < k < size ==> At(size, p, k) != p;
    assert forall k :: 0 <= k < |items| - 1 ==> next[At(size, q, k)] == Some(items[1..][k]);
    assert At(size, p, size) == p;
  }
}
