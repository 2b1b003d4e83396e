/**
 The linked single-producer single-consumer queue with its node recycler, as two interleaved
 threads. Nodes are indices into an arena of capacity + 1; each step does at most one access to
 memory that the other thread may touch.
 */
module LinkedQueue {
  import opened Prelude
  import opened QueueSpec
  import opened Circular
  import opened Permutation
  import opened Sorting
  import RingQueue

  datatype Producer<E> =
    | ProducerIdle
    | Obtained(node: nat, event: E)   // read from the recycler, slot not yet cleared
    | Taken(node: nat, event: E)      // owned by the producer
    | Filled(node: nat, event: E)     // event and next written, not yet linked

  datatype Consumer<E> =
    | ConsumerIdle
    | Found(successor: nat)
    | Checked(successor: nat)         // the recycler has room
    | Moved(retired: nat, event: E)       // the old sentinel is still to be returned

  datatype Linked<E> = Linked(
    next: seq<Option<nat>>, events: seq<Option<E>>, recycler: seq<Option<nat>>,
    takePosition: nat, returnPosition: nat, tail: nat, head: nat, producer: Producer<E>, consumer: Consumer<E>)

  datatype Action<E> =
    | LoadRecycler(event: E) | Take | Fill | Link(captured: bool)
    | LoadNext | Check(captured: bool) | Move | Return

  /** The constructed queue: the first node of the order is the sentinel, the rest are free. */
  function Init<E>(capacity: nat, order: seq<nat>): Linked<E>
    requires capacity > 0 && |order| == capacity + 1
  {
    Linked(seq(capacity + 1, _ => None), seq(capacity + 1, _ => None),
           seq(capacity, i requires 0 <= i < capacity => Some(order[i + 1])),
           0, 0, order[0], order[0], ProducerIdle, ConsumerIdle)
  }

  /** Everything the next access dereferences is there. */
  predicate Safe<E>(l: Linked<E>, a: Action<E>) {
    match a
    case LoadRecycler(_) => l.takePosition < |l.recycler|
    case Take => l.takePosition < |l.recycler|
    case Fill => l.producer.Taken? ==> l.producer.node < |l.next| && l.producer.node < |l.events|
    case Link(_) => l.tail < |l.next|
    case LoadNext => l.head < |l.next|
    case Check(_) => l.returnPosition < |l.recycler|
    case Move => l.consumer.Checked? ==> l.consumer.successor < |l.events| && l.events[l.consumer.successor].Some?
    case Return => l.returnPosition < |l.recycler|
  }

  /** One access; a thread that is elsewhere in its code ignores the action. */
  function Step<E>(l: Linked<E>, a: Action<E>): (Linked<E>, Output<E>)
    requires Safe(l, a)
  {
    match a
    case LoadRecycler(e) =>
      if !l.producer.ProducerIdle? then (l, Silent)
      else if l.recycler[l.takePosition].None? then (l, Full)
      else (l.(producer := Obtained(l.recycler[l.takePosition].value, e)), Silent)
    case Take =>
      if !l.producer.Obtained? then (l, Silent)
      else
        (l.(recycler := l.recycler[l.takePosition := None], takePosition := Next(|l.recycler|, l.takePosition),
            producer := Taken(l.producer.node, l.producer.event)), Silent)
    case Fill =>
      if !l.producer.Taken? then (l, Silent)
      else
        (l.(events := l.events[l.producer.node := Some(l.producer.event)], next := l.next[l.producer.node := None],
            producer := Filled(l.producer.node, l.producer.event)), Silent)
    case Link(captured) =>
      if !l.producer.Filled? then (l, Silent)
      else if !captured then (l.(producer := ProducerIdle), EnqueueAborted)
      else
        (l.(next := l.next[l.tail := Some(l.producer.node)], tail := l.producer.node, producer := ProducerIdle),
         Accepted(l.producer.event))
    case LoadNext =>
      if !l.consumer.ConsumerIdle? then (l, Silent)
      else if l.next[l.head].None? then (l, Empty)
      else (l.(consumer := Found(l.next[l.head].value)), Silent)
    case Check(captured) =>
      if !l.consumer.Found? then (l, Silent)
      else if !captured then (l.(consumer := ConsumerIdle), DequeueAborted)
      else if l.recycler[l.returnPosition].Some? then (l.(consumer := ConsumerIdle), RecyclerInvariantFailure)
      else (l.(consumer := Checked(l.consumer.successor)), Silent)
    case Move =>
      if !l.consumer.Checked? then (l, Silent)
      else
        (l.(head := l.consumer.successor, consumer := Moved(l.head, l.events[l.consumer.successor].value)), Silent)
    case Return =>
      if !l.consumer.Moved? then (l, Silent)
      else
        (l.(recycler := l.recycler[l.returnPosition := Some(l.consumer.retired)],
            returnPosition := Next(|l.recycler|, l.returnPosition), consumer := ConsumerIdle),
         Delivered(l.consumer.event))
  }

  // ---------------------------------------------------------------- who owns which node

  /** The chain from sentinel to tail, the free nodes in recycler order, and the nodes lost for good. */
  datatype Ownership = Ownership(chain: seq<nat>, free: seq<nat>, leaked: seq<nat>)

  function ProducerHand<E>(p: Producer<E>): seq<nat> { if p.Taken? || p.Filled? then [p.node] else [] }

  function ConsumerHand<E>(c: Consumer<E>): seq<nat> { if c.Moved? then [c.retired] else [] }

  /** What the accesses do to ownership. */
  ghost function Transfer<E>(l: Linked<E>, g: Ownership, a: Action<E>): Ownership {
    match a
    case Take => if l.producer.Obtained? && g.free != [] then g.(free := g.free[1..]) else g
    case Link(captured) =>
      if !l.producer.Filled? then g
      else if captured then g.(chain := g.chain + [l.producer.node])
      else g.(leaked := g.leaked + [l.producer.node])
    case Move => if l.consumer.Checked? && g.chain != [] then g.(chain := g.chain[1..]) else g
    case Return => if l.consumer.Moved? then g.(free := g.free + [l.consumer.retired]) else g
    case _ => g
  }

  /** Every number below n once. */
  ghost function AllNodes(n: nat): multiset<nat> {
    if n == 0 then multiset{} else AllNodes(n - 1) + multiset{n - 1}
  }

  lemma {:induction false} AllNodesOnce(n: nat, x: nat)
    ensures AllNodes(n)[x] == (if x < n then 1 else 0) && |AllNodes(n)| == n
  {
    if n > 0 {
      AllNodesOnce(n - 1, x);
    }
  }

  /** The five lists together name every node once. */
  ghost predicate Partition(n: nat, chain: seq<nat>, free: seq<nat>, ph: seq<nat>, ch: seq<nat>, leaked: seq<nat>) {
    multiset(chain) + multiset(free) + multiset(ph) + multiset(ch) + multiset(leaked) == AllNodes(n)
  }

  /** Every node of the arena has exactly one owner. */
  ghost predicate Owned<E>(l: Linked<E>, g: Ownership) {
    Partition(|l.next|, g.chain, g.free, ProducerHand(l.producer), ConsumerHand(l.consumer), g.leaked)
  }

  lemma FreeToHand(n: nat, chain: seq<nat>, free: seq<nat>, ch: seq<nat>, leaked: seq<nat>)
    requires free != [] && Partition(n, chain, free, [], ch, leaked)
    ensures Partition(n, chain, free[1..], [free[0]], ch, leaked)
  {
    hide AllNodes;
    assert free == [free[0]] + free[1..];
  }

  lemma HandToChain(n: nat, chain: seq<nat>, free: seq<nat>, x: nat, ch: seq<nat>, leaked: seq<nat>)
    requires Partition(n, chain, free, [x], ch, leaked)
    ensures Partition(n, chain + [x], free, [], ch, leaked)
  {
    hide AllNodes;
  }

  lemma HandToLeaked(n: nat, chain: seq<nat>, free: seq<nat>, x: nat, ch: seq<nat>, leaked: seq<nat>)
    requires Partition(n, chain, free, [x], ch, leaked)
    ensures Partition(n, chain, free, [], ch, leaked + [x])
  {
    hide AllNodes;
  }

  lemma ChainToHand(n: nat, chain: seq<nat>, free: seq<nat>, ph: seq<nat>, leaked: seq<nat>)
    requires chain != [] && Partition(n, chain, free, ph, [], leaked)
    ensures Partition(n, chain[1..], free, ph, [chain[0]], leaked)
  {
    hide AllNodes;
    assert chain == [chain[0]] + chain[1..];
  }

  lemma HandToFree(n: nat, chain: seq<nat>, free: seq<nat>, ph: seq<nat>, x: nat, leaked: seq<nat>)
    requires Partition(n, chain, free, ph, [x], leaked)
    ensures Partition(n, chain, free + [x], ph, [], leaked)
  {
    hide AllNodes;
  }

  lemma PartitionCount(n: nat, chain: seq<nat>, free: seq<nat>, ph: seq<nat>, ch: seq<nat>, leaked: seq<nat>)
    requires Partition(n, chain, free, ph, ch, leaked)
    ensures |chain| + |free| + |ph| + |ch| + |leaked| == n
  {
    AllNodesOnce(n, 0);
    hide AllNodes;
    var a, b, c, d, e := multiset(chain), multiset(free), multiset(ph), multiset(ch), multiset(leaked);
    assert |a + b + c + d + e| == |a| + |b| + |c| + |d| + |e|;
  }

  /** Nodes of the chain are in the arena, once, and not in the producer's hand. */
  lemma ChainNode(n: nat, chain: seq<nat>, free: seq<nat>, ph: seq<nat>, ch: seq<nat>, leaked: seq<nat>, x: nat)
    requires Partition(n, chain, free, ph, ch, leaked) && (x in chain || x in ph)
    ensures x < n && multiset(chain)[x] + multiset(ph)[x] == 1
  {
    AllNodesOnce(n, x);
    hide AllNodes;
    var c, p := multiset(chain)[x], multiset(ph)[x];
    assert x in multiset(chain) || x in multiset(ph);
    assert c + p <= AllNodes(n)[x];
  }

  lemma HandInArena<E>(l: Linked<E>, g: Ownership, i: nat)
    requires Owned(l, g) && ProducerHand(l.producer) != []
    ensures l.producer.node < |l.next| && (i < |g.chain| ==> g.chain[i] != l.producer.node)
  {
    var x, ph := l.producer.node, ProducerHand(l.producer);
    ChainNode(|l.next|, g.chain, g.free, ph, ConsumerHand(l.consumer), g.leaked, x);
    hide Partition;
    assert x in multiset(ph);
    assert x !in multiset(g.chain);
    assert i < |g.chain| ==> g.chain[i] in multiset(g.chain);
  }

  lemma ChainDistinct<E>(l: Linked<E>, g: Ownership, i: nat, j: nat)
    requires Owned(l, g) && i < j < |g.chain|
    ensures g.chain[i] != g.chain[j]
  {
    ChainNode(|l.next|, g.chain, g.free, ProducerHand(l.producer), ConsumerHand(l.consumer), g.leaked, g.chain[i]);
    hide Partition;
    if g.chain[i] == g.chain[j] {
      OccursTwice(g.chain, i, j);
      assert false;
    }
  }

  // ---------------------------------------------------------------- invariant

  ghost predicate ShapeOk<E>(l: Linked<E>) {
    |l.recycler| > 0 && |l.next| == |l.events| == |l.recycler| + 1
  }

  ghost predicate RecyclerOk(recycler: seq<Option<nat>>, takePosition: nat, returnPosition: nat, free: seq<nat>) {
    Holds(recycler, takePosition, free) && returnPosition == At(|recycler|, takePosition, |free|)
  }

  /** The chain runs from the head through next pointers to the tail, and ends there. */
  ghost predicate ChainOk(next: seq<Option<nat>>, chain: seq<nat>, head: nat, tail: nat) {
    && chain != [] && chain[0] == head && chain[|chain| - 1] == tail
    && (forall i :: 0 <= i < |chain| ==> chain[i] < |next|)
    && (forall i :: 0 <= i < |chain| - 1 ==> next[chain[i]] == Some(chain[i + 1]))
    && next[tail] == None
  }

  /** The nodes after the sentinel carry the events, in order. */
  ghost predicate EventsOk<E>(events: seq<Option<E>>, chain: seq<nat>, items: seq<E>) {
    && |chain| == |items| + 1
    && forall i :: 0 <= i < |items| ==> Carries(events, chain[i + 1], items[i])
  }

  ghost predicate Carries<E>(events: seq<Option<E>>, node: nat, e: E) {
    node < |events| && events[node] == Some(e)
  }

  /** The queue's items: what the consumer holds, then what the chain carries. */
  ghost predicate ItemsOk<E>(consumer: Consumer<E>, events: seq<Option<E>>, chain: seq<nat>, items: seq<E>) {
    if consumer.Moved?
    then items != [] && items[0] == consumer.event && EventsOk(events, chain, items[1..])
    else EventsOk(events, chain, items)
  }

  ghost predicate ProducerOk<E>(producer: Producer<E>, next: seq<Option<nat>>, events: seq<Option<E>>, free: seq<nat>) {
    match producer
    case ProducerIdle => true
    case Obtained(n, _) => free != [] && free[0] == n
    case Taken(_, _) => true
    case Filled(n, e) => n < |next| && next[n] == None && Carries(events, n, e)
  }

  ghost predicate ConsumerOk<E>(consumer: Consumer<E>, chain: seq<nat>) {
    match consumer
    case Found(s) => |chain| >= 2 && chain[1] == s
    case Checked(s) => |chain| >= 2 && chain[1] == s
    case _ => true
  }

  ghost predicate Invariant<E>(l: Linked<E>, g: Ownership, q: Queue<E>) {
    && ShapeOk(l) && Owned(l, g)
    && RecyclerOk(l.recycler, l.takePosition, l.returnPosition, g.free)
    && ChainOk(l.next, g.chain, l.head, l.tail)
    && ItemsOk(l.consumer, l.events, g.chain, q.items)
    && ProducerOk(l.producer, l.next, l.events, g.free) && ConsumerOk(l.consumer, g.chain)
    && q.capacity + |g.leaked| == |l.recycler|
  }

  /** What is queued, what is free and what is lost make up the capacity. */
  lemma Accounting<E>(l: Linked<E>, g: Ownership, q: Queue<E>)
    requires Invariant(l, g, q)
    ensures |q.items| + |g.free| + |ProducerHand(l.producer)| == q.capacity
    ensures |q.items| + 1 == |g.chain| + |ConsumerHand(l.consumer)|
    ensures |g.chain| + |g.free| + |ConsumerHand(l.consumer)| <= |l.recycler| + 1
  {
    PartitionCount(|l.next|, g.chain, g.free, ProducerHand(l.producer), ConsumerHand(l.consumer), g.leaked);
    hide Partition, RecyclerOk, ChainOk, ProducerOk, ConsumerOk;
  }

  // ---------------------------------------------------------------- each access

  /** The refinement of one access. */
  ghost predicate Refines<E>(l: Linked<E>, g: Ownership, q: Queue<E>, a: Action<E>) {
    && Safe(l, a)
    && var (l', o) := Step(l, a);
       var q' := SpecStep(1, q, o);
       q'.Some? && Invariant(l', Transfer(l, g, a), q'.value)
  }

  lemma LoadRecyclerRefines<E>(l: Linked<E>, g: Ownership, q: Queue<E>, e: E)
    requires Invariant(l, g, q)
    ensures Refines(l, g, q, LoadRecycler(e))
  {
    FrontSlot(l.recycler, l.takePosition, g.free);
    Accounting(l, g, q);
    assert l.takePosition < |l.recycler|;
    hide RecyclerOk, Partition, ChainOk, ItemsOk, ConsumerOk;
  }

  lemma TakeRefines<E>(l: Linked<E>, g: Ownership, q: Queue<E>)
    requires Invariant(l, g, q)
    ensures Refines(l, g, q, Take)
  {
    PositionsInRange(l.recycler, l.takePosition, l.returnPosition, g.free);
    hide RecyclerOk, Partition, ChainOk, ItemsOk, ConsumerOk;
    if l.producer.Obtained? {
      hide Invariant, Refines;
      TakenRefines(l, g, q);
    } else {
      hide ProducerOk;
    }
  }

  lemma TakenRefines<E>(l: Linked<E>, g: Ownership, q: Queue<E>)
    requires Invariant(l, g, q) && l.producer.Obtained? && l.takePosition < |l.recycler|
    ensures Refines(l, g, q, Take)
  {
    hide RecyclerOk, Partition, ChainOk, ItemsOk, ConsumerOk;
    TakeRecycler(l.recycler, l.takePosition, l.returnPosition, g.free);
    FreeToHand(|l.next|, g.chain, g.free, ConsumerHand(l.consumer), g.leaked);
    hide ConsumerHand;
  }

  lemma TakeRecycler(recycler: seq<Option<nat>>, takePosition: nat, returnPosition: nat, free: seq<nat>)
    requires RecyclerOk(recycler, takePosition, returnPosition, free) && free != []
    ensures RecyclerOk(recycler[takePosition := None], Next(|recycler|, takePosition), returnPosition, free[1..])
  {
    PopHolds(recycler, takePosition, free);
  }

  lemma FillRefines<E>(l: Linked<E>, g: Ownership, q: Queue<E>)
    requires Invariant(l, g, q)
    ensures Refines(l, g, q, Fill)
  {
    hide RecyclerOk, Partition, ConsumerOk;
    if l.producer.Taken? {
      var n := l.producer.node;
      HandInArena(l, g, 0);
      forall i | 0 <= i < |g.chain| ensures g.chain[i] != n {
        HandInArena(l, g, i);
      }
      FrameChain(l.next, g.chain, l.head, l.tail, n);
      FrameEvents(l.events, g.chain, if l.consumer.Moved? then q.items[1..] else q.items, n, l.producer.event);
      hide ChainOk, EventsOk;
    } else {
      hide ChainOk, ItemsOk, ProducerOk;
    }
  }

  lemma FrameChain(next: seq<Option<nat>>, chain: seq<nat>, head: nat, tail: nat, n: nat)
    requires ChainOk(next, chain, head, tail) && n < |next| && forall i :: 0 <= i < |chain| ==> chain[i] != n
    ensures ChainOk(next[n := None], chain, head, tail)
  {
  }

  lemma FrameEvents<E>(events: seq<Option<E>>, chain: seq<nat>, items: seq<E>, n: nat, e: E)
    requires EventsOk(events, chain, items) && n < |events| && forall i :: 0 <= i < |chain| ==> chain[i] != n
    ensures EventsOk(events[n := Some(e)], chain, items)
  {
  }

  lemma LinkRefines<E>(l: Linked<E>, g: Ownership, q: Queue<E>, captured: bool)
    requires Invariant(l, g, q)
    ensures Refines(l, g, q, Link(captured))
  {
    EndsInArena(l, g, q);
    hide RecyclerOk, Partition, ChainOk, ItemsOk, ConsumerOk, ProducerOk;
    if l.producer.Filled? {
      hide Invariant, Refines;
      if captured {
        LinkedRefines(l, g, q);
      } else {
        AbortedRefines(l, g, q);
      }
    }
  }

  lemma LinkedRefines<E>(l: Linked<E>, g: Ownership, q: Queue<E>)
    requires Invariant(l, g, q) && l.producer.Filled?
    ensures Refines(l, g, q, Link(true))
  {
    LinkAfter(l, g, q);
    hide RecyclerOk, Partition, ChainOk, ItemsOk, Carries, ConsumerHand;
  }

  /** The state the producer's last store leaves, part by part. */
  lemma LinkAfter<E>(l: Linked<E>, g: Ownership, q: Queue<E>)
    requires Invariant(l, g, q) && l.producer.Filled?
    ensures l.tail < |l.next| && |q.items| < q.capacity && g.chain != []
    ensures var n := l.producer.node;
            && ChainOk(l.next[l.tail := Some(n)], g.chain + [n], l.head, n)
            && ItemsOk(l.consumer, l.events, g.chain + [n], q.items + [l.producer.event])
            && Partition(|l.next|, g.chain + [n], g.free, [], ConsumerHand(l.consumer), g.leaked)
  {
    Accounting(l, g, q);
    EndsInArena(l, g, q);
    hide RecyclerOk, Partition, ChainOk, ItemsOk, ConsumerOk;
    LinkChain(l, g);
    LinkItems(l, g, q);
    HandToChain(|l.next|, g.chain, g.free, l.producer.node, ConsumerHand(l.consumer), g.leaked);
  }

  lemma EndsInArena<E>(l: Linked<E>, g: Ownership, q: Queue<E>)
    requires Invariant(l, g, q)
    ensures l.head < |l.next| && l.tail < |l.next| && g.chain != []
  {
    hide RecyclerOk, Partition, ItemsOk, ProducerOk, ConsumerOk;
  }

  /** A filled node at the end of the chain carries the newest item. */
  lemma LinkItems<E>(l: Linked<E>, g: Ownership, q: Queue<E>)
    requires ItemsOk(l.consumer, l.events, g.chain, q.items)
    requires l.producer.Filled? && Carries(l.events, l.producer.node, l.producer.event)
    ensures ItemsOk(l.consumer, l.events, g.chain + [l.producer.node], q.items + [l.producer.event])
  {
    var e, items := l.producer.event, if l.consumer.Moved? then q.items[1..] else q.items;
    AppendEvent(l.events, g.chain, items, l.producer.node, e);
    hide EventsOk;
    assert l.consumer.Moved? ==> (q.items + [e])[1..] == items + [e];
  }

  lemma AbortedRefines<E>(l: Linked<E>, g: Ownership, q: Queue<E>)
    requires Invariant(l, g, q) && l.producer.Filled?
    ensures Refines(l, g, q, Link(false))
  {
    LeakAfter(l, g, q);
    hide RecyclerOk, Partition, ChainOk, ItemsOk, ConsumerOk, ConsumerHand, Carries;
  }

  lemma LeakAfter<E>(l: Linked<E>, g: Ownership, q: Queue<E>)
    requires Invariant(l, g, q) && l.producer.Filled?
    ensures l.tail < |l.next| && |q.items| + 1 <= q.capacity
    ensures Partition(|l.next|, g.chain, g.free, [], ConsumerHand(l.consumer), g.leaked + [l.producer.node])
  {
    Accounting(l, g, q);
    EndsInArena(l, g, q);
    hide RecyclerOk, Partition, ChainOk, ItemsOk, ConsumerOk;
    HandToLeaked(|l.next|, g.chain, g.free, l.producer.node, ConsumerHand(l.consumer), g.leaked);
  }

  lemma LinkChain<E>(l: Linked<E>, g: Ownership)
    requires Owned(l, g) && ChainOk(l.next, g.chain, l.head, l.tail)
    requires l.producer.Filled? && l.producer.node < |l.next| && l.next[l.producer.node] == None
    ensures ChainOk(l.next[l.tail := Some(l.producer.node)], g.chain + [l.producer.node], l.head, l.producer.node)
  {
    var n, k := l.producer.node, |g.chain| - 1;
    var chain, next := g.chain + [n], l.next[l.tail := Some(n)];
    forall i | 0 <= i < |chain| - 1 ensures next[chain[i]] == Some(chain[i + 1]) {
      if i < k {
        ChainDistinct(l, g, i, k);
      }
    }
    HandInArena(l, g, k);
  }

  lemma AppendEvent<E>(events: seq<Option<E>>, chain: seq<nat>, items: seq<E>, n: nat, e: E)
    requires EventsOk(events, chain, items) && Carries(events, n, e)
    ensures EventsOk(events, chain + [n], items + [e])
  {
  }

  lemma LoadNextRefines<E>(l: Linked<E>, g: Ownership, q: Queue<E>)
    requires Invariant(l, g, q)
    ensures Refines(l, g, q, LoadNext)
  {
    LoadNextFacts(l, g, q);
    hide RecyclerOk, Partition, ChainOk, EventsOk, ProducerOk;
  }

  lemma LoadNextFacts<E>(l: Linked<E>, g: Ownership, q: Queue<E>)
    requires Invariant(l, g, q)
    ensures l.head < |l.next| && l.next[l.head] == if |g.chain| >= 2 then Some(g.chain[1]) else None
    ensures l.consumer.ConsumerIdle? && |g.chain| < 2 ==> q.items == []
  {
    Accounting(l, g, q);
    EndsInArena(l, g, q);
    SentinelNext(l.next, g.chain, l.head, l.tail);
  }

  lemma SentinelNext(next: seq<Option<nat>>, chain: seq<nat>, head: nat, tail: nat)
    requires ChainOk(next, chain, head, tail)
    ensures next[head] == if |chain| >= 2 then Some(chain[1]) else None
  {
    assert |chain| >= 2 ==> next[chain[0]] == Some(chain[0 + 1]);
  }

  /** The recycler always has room for a node that is about to leave the chain. */
  lemma CheckRefines<E>(l: Linked<E>, g: Ownership, q: Queue<E>, captured: bool)
    requires Invariant(l, g, q)
    ensures Refines(l, g, q, Check(captured))
  {
    RoomToReturn(l, g, q);
    hide RecyclerOk, Partition, ChainOk, EventsOk, ProducerOk;
  }

  lemma RoomToReturn<E>(l: Linked<E>, g: Ownership, q: Queue<E>)
    requires Invariant(l, g, q)
    ensures l.returnPosition < |l.recycler|
    ensures l.consumer.Found? ==> q.items != [] && l.recycler[l.returnPosition].None?
  {
    Accounting(l, g, q);
    hide Partition, ChainOk, ItemsOk, ProducerOk, Holds;
    BackSlot(l.recycler, l.takePosition, g.free);
  }

  lemma MoveRefines<E>(l: Linked<E>, g: Ownership, q: Queue<E>)
    requires Invariant(l, g, q)
    ensures Refines(l, g, q, Move)
  {
    hide RecyclerOk, Partition, ProducerOk;
    if l.consumer.Checked? {
      ChainToHand(|l.next|, g.chain, g.free, ProducerHand(l.producer), g.leaked);
      DropHead(l.next, g.chain, l.head, l.tail);
      DropEvent(l.events, g.chain, q.items);
      hide ChainOk, EventsOk;
    } else {
      hide ChainOk, ItemsOk;
    }
  }

  lemma DropHead(next: seq<Option<nat>>, chain: seq<nat>, head: nat, tail: nat)
    requires ChainOk(next, chain, head, tail) && |chain| >= 2
    ensures ChainOk(next, chain[1..], chain[1], tail)
  {
    var rest := chain[1..];
    forall i | 0 <= i < |rest| - 1 ensures next[rest[i]] == Some(rest[i + 1]) {
      assert next[chain[i + 1]] == Some(chain[i + 1 + 1]);
    }
  }

  lemma DropEvent<E>(events: seq<Option<E>>, chain: seq<nat>, items: seq<E>)
    requires EventsOk(events, chain, items) && |chain| >= 2
    ensures items != [] && chain[1] < |events| && events[chain[1]] == Some(items[0])
    ensures EventsOk(events, chain[1..], items[1..])
  {
    assert Carries(events, chain[0 + 1], items[0]);
    var rest := chain[1..];
    forall i | 0 <= i < |items| - 1 ensures Carries(events, rest[i + 1], items[1..][i]) {
      assert Carries(events, chain[(i + 1) + 1], items[i + 1]);
    }
  }

  lemma ReturnRefines<E>(l: Linked<E>, g: Ownership, q: Queue<E>)
    requires Invariant(l, g, q)
    ensures Refines(l, g, q, Return)
  {
    PositionsInRange(l.recycler, l.takePosition, l.returnPosition, g.free);
    hide RecyclerOk, ChainOk, EventsOk, Partition;
    if l.consumer.Moved? {
      RoomForRetired(l, g, q);
      ReturnRecycler(l.recycler, l.takePosition, l.returnPosition, g.free, l.consumer.retired);
      HandToFree(|l.next|, g.chain, g.free, ProducerHand(l.producer), l.consumer.retired, g.leaked);
    } else {
      hide ItemsOk, ProducerOk, ConsumerOk;
    }
  }

  lemma RoomForRetired<E>(l: Linked<E>, g: Ownership, q: Queue<E>)
    requires Invariant(l, g, q) && l.consumer.Moved?
    ensures |g.free| < |l.recycler|
  {
    Accounting(l, g, q);
    EndsInArena(l, g, q);
    hide Invariant;
  }

  lemma PositionsInRange(recycler: seq<Option<nat>>, takePosition: nat, returnPosition: nat, free: seq<nat>)
    requires RecyclerOk(recycler, takePosition, returnPosition, free)
    ensures takePosition < |recycler| && returnPosition < |recycler|
  {
  }

  lemma ReturnRecycler(recycler: seq<Option<nat>>, takePosition: nat, returnPosition: nat, free: seq<nat>, node: nat)
    requires RecyclerOk(recycler, takePosition, returnPosition, free) && |free| < |recycler|
    ensures RecyclerOk(
      recycler[returnPosition := Some(node)], takePosition, Next(|recycler|, returnPosition), free + [node])
  {
    PushHolds(recycler, takePosition, free, node);
  }

  /** Every access of either thread is safe and, seen from outside, a step of a bounded FIFO queue. */
  lemma StepRefines<E>(l: Linked<E>, g: Ownership, q: Queue<E>, a: Action<E>)
    requires Invariant(l, g, q)
    ensures Refines(l, g, q, a)
  {
    hide Invariant, Refines;
    match a
    case LoadRecycler(e) => LoadRecyclerRefines(l, g, q, e);
    case Take => TakeRefines(l, g, q);
    case Fill => FillRefines(l, g, q);
    case Link(captured) => LinkRefines(l, g, q, captured);
    case LoadNext => LoadNextRefines(l, g, q);
    case Check(captured) => CheckRefines(l, g, q, captured);
    case Move => MoveRefines(l, g, q);
    case Return => ReturnRefines(l, g, q);
  }

  // ---------------------------------------------------------------- construction

  /** The constructor's test of the node order. */
  method ValidateNodeOrder(capacity: nat, order: seq<nat>) returns (ok: bool)
    ensures ok <==> capacity > 0 && IsPermutation(order, capacity + 1)
  {
    if capacity == 0 || |order| != capacity + 1 {
      return false;
    }
    var seen: set<nat> := {};
    for i := 0 to |order|
      invariant forall x :: x in seen <==> exists k :: 0 <= k < i && order[k] == x
      invariant forall k :: 0 <= k < i ==> order[k] < capacity + 1
      invariant forall j, k :: 0 <= j < k < i ==> order[j] != order[k]
    {
      if order[i] >= capacity + 1 || order[i] in seen {
        return false;
      }
      seen := seen + {order[i]};
    }
    return true;
  }

  lemma {:induction false} CountOnce(s: seq<nat>, x: nat)
    requires forall i, j :: 0 <= i < j < |s| ==> s[i] != s[j]
    ensures multiset(s)[x] == if x in s then 1 else 0
  {
    if s != [] {
      var front, last := s[..|s| - 1], s[|s| - 1];
      CountOnce(front, x);
      assert s == front + [last];
    }
  }

  lemma PermutationIsAll(order: seq<nat>, n: nat)
    requires IsPermutation(order, n)
    ensures multiset(order) == AllNodes(n)
  {
    forall x: nat ensures multiset(order)[x] == AllNodes(n)[x] {
      CountOnce(order, x);
      AllNodesOnce(n, x);
      if x < n {
        PermutationHits(order, n, x);
      }
    }
  }

  ghost function InitialOwnership(order: seq<nat>): Ownership
    requires order != []
  {
    Ownership([order[0]], order[1..], [])
  }

  lemma InitInvariant<E>(capacity: nat, order: seq<nat>)
    requires capacity > 0 && IsPermutation(order, capacity + 1)
    ensures Invariant<E>(Init(capacity, order), InitialOwnership(order), Queue([], capacity))
  {
    var l: Linked<E> := Init(capacity, order);
    InitPartition(order, capacity + 1);
    assert order[0] < capacity + 1;
    hide Partition, IsPermutation;
    InitRecycler<E>(capacity, order);
    InitChain<E>(capacity, order);
    hide Holds, ChainOk, ItemsOk, At;
  }

  lemma InitChain<E>(capacity: nat, order: seq<nat>)
    requires capacity > 0 && |order| == capacity + 1 && order[0] < capacity + 1
    ensures var l := Init<E>(capacity, order);
            ChainOk(l.next, [order[0]], l.head, l.tail) && ItemsOk(l.consumer, l.events, [order[0]], [])
  {
  }

  lemma InitPartition(order: seq<nat>, n: nat)
    requires n > 0 && IsPermutation(order, n)
    ensures Partition(n, [order[0]], order[1..], [], [], [])
  {
    PermutationIsAll(order, n);
    hide IsPermutation, AllNodes;
    assert order == [order[0]] + order[1..];
  }

  lemma InitRecycler<E>(capacity: nat, order: seq<nat>)
    requires capacity > 0 && |order| == capacity + 1
    ensures Holds(Init<E>(capacity, order).recycler, 0, order[1..])
    ensures At(capacity, 0, capacity) == 0
  {
  }

  // ---------------------------------------------------------------- whole runs

  /** The queue after a schedule of accesses, who owns its nodes, and what it reported. */
  ghost function Run<E>(capacity: nat, order: seq<nat>, actions: seq<Action<E>>)
    : (res: (Linked<E>, Ownership, seq<Output<E>>))
    requires capacity > 0 && |order| == capacity + 1
    ensures |res.2| == |actions|
  {
    if actions == [] then (Init(capacity, order), InitialOwnership(order), [])
    else
      var (l, g, outs) := Run(capacity, order, actions[..|actions| - 1]);
      var a := actions[|actions| - 1];
      var (l', o) := Attempt(l, a);
      (l', Transfer(l, g, a), outs + [o])
  }

  /** An access; one that is not safe is reported as a failure. */
  ghost function Attempt<E>(l: Linked<E>, a: Action<E>): (Linked<E>, Output<E>) {
    if Safe(l, a) then Step(l, a) else (l, RecyclerInvariantFailure)
  }

  /** Every run keeps the invariant with a bounded FIFO queue, and whatever comes next is safe. */
  lemma {:induction false} RunIsSound<E>(capacity: nat, order: seq<nat>, actions: seq<Action<E>>)
    requires capacity > 0 && IsPermutation(order, capacity + 1)
    ensures var (l, g, outs) := Run(capacity, order, actions);
            var q := SpecRun(1, Queue([], capacity), outs);
            && q.Some? && Invariant(l, g, q.value) && |l.recycler| == capacity
            && forall a :: Safe(l, a)
  {
    assert |order| == capacity + 1;
    hide Invariant, Safe, Step, IsPermutation, Transfer, SpecStep, Attempt;
    if actions == [] {
      InitInvariant<E>(capacity, order);
    } else {
      RunIsSound(capacity, order, actions[..|actions| - 1]);
      var (l, g, outs) := Run(capacity, order, actions[..|actions| - 1]);
      AttemptIsSound(capacity, l, g, outs, actions[|actions| - 1]);
    }
    var (l, g, outs) := Run(capacity, order, actions);
    AllSafe(l, g, SpecRun(1, Queue([], capacity), outs).value);
  }

  lemma AttemptIsSound<E>(capacity: nat, l: Linked<E>, g: Ownership, outs: seq<Output<E>>, a: Action<E>)
    requires SpecRun(1, Queue([], capacity), outs).Some?
    requires Invariant(l, g, SpecRun(1, Queue([], capacity), outs).value)
    ensures var (l', o) := Attempt(l, a);
            var q := SpecRun(1, Queue([], capacity), outs + [o]);
            q.Some? && Invariant(l', Transfer(l, g, a), q.value) && |l'.recycler| == |l.recycler|
  {
    hide Invariant, Safe, Step, Transfer, SpecStep;
    StepRefines(l, g, SpecRun(1, Queue([], capacity), outs).value, a);
    StepKeepsSize(l, a);
    var (l', o) := Attempt(l, a);
    assert (outs + [o])[..|outs|] == outs;
  }

  lemma AllSafe<E>(l: Linked<E>, g: Ownership, q: Queue<E>)
    requires Invariant(l, g, q)
    ensures forall a :: Safe(l, a)
  {
    hide Invariant, Safe, Step, Transfer, SpecStep;
    forall a ensures Safe(l, a) {
      StepRefines(l, g, q, a);
    }
  }

  lemma StepKeepsSize<E>(l: Linked<E>, a: Action<E>)
    requires Safe(l, a)
    ensures |Step(l, a).0.recycler| == |l.recycler|
  {
  }

  /**
   For every interleaving of the two threads: events come out in the order they went in, none
   lost, duplicated or invented, and the recycler is never found full when a node is returned.
   An enqueue whose boundary capture fails loses its node: what is in flight, free, in the
   producer's hand and lost always adds up to the capacity.
   */
  lemma FirstInFirstOut<E>(capacity: nat, order: seq<nat>, actions: seq<Action<E>>)
    requires capacity > 0 && IsPermutation(order, capacity + 1)
    ensures var (l, g, outs) := Run(capacity, order, actions);
            var accepted, delivered := AcceptedOf(outs), DeliveredOf(outs);
            && delivered <= accepted
            && |accepted| - |delivered| + |g.free| + |ProducerHand(l.producer)| + Lost(1, outs) == capacity
            && (forall i :: 0 <= i < |outs| ==> !outs[i].RecyclerInvariantFailure?)
  {
    RunIsSound(capacity, order, actions);
    var (l, g, outs) := Run(capacity, order, actions);
    hide Run, SpecRun, Safe, Invariant;
    Conservation(1, capacity, outs);
    forall i | 0 <= i < |outs| ensures !outs[i].RecyclerInvariantFailure? {
      LegalReport(1, Queue([], capacity), outs, i);
    }
    Accounting(l, g, SpecRun(1, Queue([], capacity), outs).value);
  }

  lemma {:induction false} LegalReport<E>(leak: nat, q: Queue<E>, outs: seq<Output<E>>, i: nat)
    requires SpecRun(leak, q, outs).Some? && i < |outs|
    ensures !outs[i].RecyclerInvariantFailure?
  {
    if i < |outs| - 1 {
      LegalReport(leak, q, outs[..|outs| - 1], i);
    }
  }

  // ---------------------------------------------------------------- the quiescent audit

  datatype Audit = Audit(
    reachable: seq<nat>, recyclerOrder: seq<nat>, acyclic: bool, tailReachable: bool, ownedOnce: bool,
    fifoShape: bool, positionsInRange: bool)

  /** p follows the links from the head, inside the arena, visiting no node twice. */
  ghost predicate IsPath(next: seq<Option<nat>>, head: nat, p: seq<nat>) {
    && Distinct(p) && (forall i :: 0 <= i < |p| ==> p[i] < |next|)
    && (p != [] ==> p[0] == head)
    && (forall i :: 0 < i < |p| ==> next[p[i - 1]] == Some(p[i]))
  }

  /** Where a path leads on. */
  ghost function Onward(next: seq<Option<nat>>, head: nat, p: seq<nat>): Option<nat>
    requires forall i :: 0 <= i < |p| ==> p[i] < |next|
  {
    if p == [] then Some(head) else next[p[|p| - 1]]
  }

  /** The path cannot be extended: the links end, leave the arena or come back to it. */
  ghost predicate IsWalk(next: seq<Option<nat>>, head: nat, p: seq<nat>) {
    && IsPath(next, head, p)
    && var onward := Onward(next, head, p);
       onward.None? || onward.value >= |next| || onward.value in p
  }

  /** The links from the head end without repeating a node. */
  ghost predicate Ends(next: seq<Option<nat>>, head: nat) {
    exists p :: IsPath(next, head, p) && Onward(next, head, p).None?
  }

  lemma {:induction false} PathsAgree(next: seq<Option<nat>>, head: nat, p: seq<nat>, q: seq<nat>, i: nat)
    requires IsPath(next, head, p) && IsPath(next, head, q) && i < |p| && i < |q|
    ensures p[i] == q[i]
  {
    if i > 0 {
      PathsAgree(next, head, p, q, i - 1);
    }
  }

  lemma WalkNotShorter(next: seq<Option<nat>>, head: nat, p: seq<nat>, q: seq<nat>)
    requires IsWalk(next, head, p) && IsPath(next, head, q)
    ensures |q| <= |p|
  {
    if |p| < |q| {
      PathContinues(next, head, p, q);
      assert false;
    }
  }

  /** A longer path shows how a shorter one continues. */
  lemma PathContinues(next: seq<Option<nat>>, head: nat, p: seq<nat>, q: seq<nat>)
    requires IsPath(next, head, p) && IsPath(next, head, q) && |p| < |q|
    ensures Onward(next, head, p) == Some(q[|p|]) && q[|p|] < |next| && q[|p|] !in p
  {
    forall i | 0 <= i < |p| ensures p[i] == q[i] && p[i] != q[|p|] {
      PathsAgree(next, head, p, q, i);
    }
  }

  /** So the walk is determined by the links, and it ends exactly when the links do. */
  lemma WalkUnique(next: seq<Option<nat>>, head: nat, p: seq<nat>, q: seq<nat>)
    requires IsWalk(next, head, p) && IsWalk(next, head, q)
    ensures p == q
  {
    WalkNotShorter(next, head, p, q);
    WalkNotShorter(next, head, q, p);
    forall i | 0 <= i < |p| ensures p[i] == q[i] {
      PathsAgree(next, head, p, q, i);
    }
  }

  lemma WalkEnds(next: seq<Option<nat>>, head: nat, p: seq<nat>)
    requires IsWalk(next, head, p)
    ensures Onward(next, head, p).None? <==> Ends(next, head)
  {
    if Ends(next, head) {
      var q :| IsPath(next, head, q) && Onward(next, head, q).None?;
      WalkUnique(next, head, p, q);
    }
  }

  /** The slot `offset` places from the start of the recycler scan. */
  function ScanAt(recycler: seq<Option<nat>>, start: nat, offset: nat): Option<nat>
    requires offset < |recycler|
  {
    recycler[(start + offset) % |recycler|]
  }

  /** The nodes found in the first k scanned slots. */
  ghost function Nodes(recycler: seq<Option<nat>>, start: nat, k: nat): seq<nat>
    requires k <= |recycler|
  {
    if k == 0 then []
    else
      var slot := ScanAt(recycler, start, k - 1);
      Nodes(recycler, start, k - 1) + (if slot.Some? then [slot.value] else [])
  }

  /** No node comes after an empty slot. */
  ghost predicate FifoShape(recycler: seq<Option<nat>>, start: nat, n: nat)
    requires n <= |recycler|
  {
    forall i: nat, j: nat :: i < j < n && ScanAt(recycler, start, j).Some? ==> ScanAt(recycler, start, i).Some?
  }

  /** The nodes are in the arena, distinct, and not in the chain. */
  ghost predicate Unowned(n: nat, chain: seq<nat>, nodes: seq<nat>) {
    Distinct(nodes) && forall i :: 0 <= i < |nodes| ==> nodes[i] < n && nodes[i] !in chain
  }

  lemma UnownedAppend(n: nat, chain: seq<nat>, nodes: seq<nat>, x: nat)
    ensures Unowned(n, chain, nodes + [x]) <==> Unowned(n, chain, nodes) && x < n && x !in chain && x !in nodes
  {
    var more := nodes + [x];
    assert forall i :: 0 <= i < |nodes| ==> more[i] == nodes[i];
    assert more[|nodes|] == x;
    if x !in nodes {
      DistinctAppend(nodes, x);
    } else {
      var i :| 0 <= i < |nodes| && nodes[i] == x;
      assert more[i] == more[|nodes|];
    }
  }

  /** Of the scanned nodes, those that are in the arena and seen for the first time. */
  ghost function FirstSeen(n: nat, chain: seq<nat>, nodes: seq<nat>): seq<nat> {
    if nodes == [] then []
    else
      var front, x := FirstSeen(n, chain, nodes[..|nodes| - 1]), nodes[|nodes| - 1];
      if x < n && x !in chain && x !in front then front + [x] else front
  }

  lemma FirstSeenAppend(n: nat, chain: seq<nat>, nodes: seq<nat>, x: nat)
    ensures var front := FirstSeen(n, chain, nodes);
            FirstSeen(n, chain, nodes + [x]) == if x < n && x !in chain && x !in front then front + [x] else front
  {
    assert (nodes + [x])[..|nodes|] == nodes;
  }

  lemma {:induction false} FirstSeenAll(n: nat, chain: seq<nat>, nodes: seq<nat>)
    requires Unowned(n, chain, nodes)
    ensures FirstSeen(n, chain, nodes) == nodes
  {
    if nodes != [] {
      var front, x := nodes[..|nodes| - 1], nodes[|nodes| - 1];
      assert nodes == front + [x];
      UnownedAppend(n, chain, front, x);
      FirstSeenAll(n, chain, front);
    }
  }

  /** The chain and the recycler together hold every node of the arena once. */
  ghost predicate PartitionsArena<E>(l: Linked<E>, reachable: seq<nat>) {
    IsPermutation(reachable + Nodes(l.recycler, l.takePosition, |l.recycler|), |l.next|)
  }

  /** What the audit reports of any state, sound or not. */
  ghost predicate Reports<E>(l: Linked<E>, a: Audit)
    requires l.recycler != []
  {
    var nodes := Nodes(l.recycler, l.takePosition, |l.recycler|);
    && IsWalk(l.next, l.head, a.reachable)
    && a.recyclerOrder == FirstSeen(|l.next|, a.reachable, nodes)
    && (a.acyclic <==> Ends(l.next, l.head))
    && (a.tailReachable <==> l.tail in a.reachable)
    && (a.ownedOnce <==> Ends(l.next, l.head) && PartitionsArena(l, a.reachable))
    && (a.fifoShape <==> FifoShape(l.recycler, l.takePosition, |l.recycler|))
    && (a.positionsInRange <==> l.returnPosition < |l.recycler| && l.takePosition < |l.recycler|)
  }

  /** Follows the chain and the recycler, whatever they hold. */
  method AuditQuiescent<E>(l: Linked<E>) returns (a: Audit)
    requires l.recycler != []
    ensures Reports(l, a)
  {
    hide IsWalk, Ends, Unowned, IsPermutation, FifoShape, FirstSeen;
    var reachable, acyclic, tailReachable := AuditChain(l.next, l.head, l.tail);
    var recyclerOrder, fifo, once := AuditRecycler(l.recycler, l.takePosition, |l.next|, reachable);
    var owned := Elements(reachable) + Elements(recyclerOrder);
    var all := forall i: nat :: i < |l.next| ==> i in owned;
    ghost var nodes := Nodes(l.recycler, l.takePosition, |l.recycler|);
    if once {
      FirstSeenAll(|l.next|, reachable, nodes);
      assert forall i: nat :: i in owned <==> i in reachable || i in nodes;
    }
    WalkIsDistinct(l.next, l.head, reachable);
    PartitionIff(|l.next|, reachable, nodes);
    a := Audit(reachable, recyclerOrder, acyclic, tailReachable, acyclic && once && all, fifo,
               l.returnPosition < |l.recycler| && l.takePosition < |l.recycler|);
  }

  lemma WalkIsDistinct(next: seq<Option<nat>>, head: nat, p: seq<nat>)
    requires IsWalk(next, head, p)
    ensures Distinct(p) && forall i :: 0 <= i < |p| ==> p[i] < |next|
  {
  }

  /** Distinct nodes of the arena partition it exactly when none is missing. */
  lemma PartitionIff(n: nat, chain: seq<nat>, nodes: seq<nat>)
    requires Distinct(chain) && forall i :: 0 <= i < |chain| ==> chain[i] < n
    ensures IsPermutation(chain + nodes, n) <==>
      Unowned(n, chain, nodes) && forall x: nat :: x < n ==> x in chain || x in nodes
  {
    var all := chain + nodes;
    if IsPermutation(all, n) {
      PermutationSplits(n, chain, nodes);
      forall x: nat | x < n ensures x in chain || x in nodes {
        PermutationHits(all, n, x);
      }
    }
    if Unowned(n, chain, nodes) && forall x: nat :: x < n ==> x in chain || x in nodes {
      CoverIsPermutation(n, chain, nodes);
    }
  }

  lemma PermutationSplits(n: nat, chain: seq<nat>, nodes: seq<nat>)
    requires IsPermutation(chain + nodes, n)
    ensures Unowned(n, chain, nodes)
  {
    var all := chain + nodes;
    forall i | 0 <= i < |nodes| ensures nodes[i] < n && nodes[i] !in chain {
      assert all[|chain| + i] == nodes[i];
      forall j | 0 <= j < |chain| ensures chain[j] != nodes[i] {
        assert all[j] == chain[j];
      }
    }
    forall i, j | 0 <= i < j < |nodes| ensures nodes[i] != nodes[j] {
      assert all[|chain| + i] == nodes[i] && all[|chain| + j] == nodes[j];
    }
  }

  lemma CoverIsPermutation(n: nat, chain: seq<nat>, nodes: seq<nat>)
    requires Distinct(chain) && forall i :: 0 <= i < |chain| ==> chain[i] < n
    requires Unowned(n, chain, nodes) && forall x: nat :: x < n ==> x in chain || x in nodes
    ensures IsPermutation(chain + nodes, n)
  {
    var all := chain + nodes;
    forall i, j | 0 <= i < j < |all| ensures all[i] != all[j] {
      if i < |chain| <= j {
        assert all[i] in chain && all[j] == nodes[j - |chain|];
      }
    }
    ElementsSize(all);
    assert Elements(all) == Below(n) by {
      forall x: nat ensures x in Elements(all) <==> x in Below(n) {
        assert x in all <==> x in chain || x in nodes;
      }
    }
  }

  method AuditChain(next: seq<Option<nat>>, head: nat, tail: nat)
    returns (reachable: seq<nat>, acyclic: bool, tailReachable: bool)
    ensures IsWalk(next, head, reachable)
    ensures acyclic <==> Ends(next, head)
    ensures tailReachable <==> tail in reachable
  {
    var owned: set<nat> := {};
    reachable, acyclic, tailReachable := [], true, false;
    var current := Some(head);
    while current.Some?
      invariant IsPath(next, head, reachable) && current == Onward(next, head, reachable)
      invariant owned == Elements(reachable) && |reachable| <= |next|
      invariant acyclic && (tailReachable <==> tail in reachable)
      decreases |next| - |reachable|
    {
      var index := current.value;
      if index >= |next| || index in owned {
        acyclic := false;
        WalkEnds(next, head, reachable);
        return;
      }
      PathAppend(next, head, reachable, index);
      hide IsPath;
      owned := owned + {index};
      reachable := reachable + [index];
      if index == tail {
        tailReachable := true;
      }
      current := next[index];
    }
    WalkEnds(next, head, reachable);
  }

  lemma PathAppend(next: seq<Option<nat>>, head: nat, p: seq<nat>, x: nat)
    requires IsPath(next, head, p) && Onward(next, head, p) == Some(x) && x < |next| && x !in p
    ensures IsPath(next, head, p + [x]) && |p| + 1 <= |next|
    ensures Onward(next, head, p + [x]) == next[x]
  {
    var q := p + [x];
    DistinctAppend(p, x);
    assert forall i :: 0 <= i < |p| ==> q[i] == p[i];
    ElementsSize(q);
    assert Elements(q) <= Below(|next|);
    SubsetCount(Elements(q), Below(|next|));
  }

  lemma SubsetCount(a: set<nat>, b: set<nat>)
    requires a <= b
    ensures |a| <= |b|
  {
    assert b == a + (b - a);
  }

  method AuditRecycler(recycler: seq<Option<nat>>, start: nat, n: nat, reachable: seq<nat>)
    returns (order: seq<nat>, fifo: bool, once: bool)
    ensures order == FirstSeen(n, reachable, Nodes(recycler, start, |recycler|))
    ensures fifo <==> FifoShape(recycler, start, |recycler|)
    ensures once <==> Unowned(n, reachable, Nodes(recycler, start, |recycler|))
  {
    hide Tallied, FifoShape;
    var owned := Elements(reachable);
    order, fifo, once := [], true, true;
    var empty := false;
    TallyStart(n, reachable);
    FifoStart(recycler, start);
    for offset := 0 to |recycler|
      invariant Tallied(n, reachable, Nodes(recycler, start, offset), order, once)
      invariant owned == Elements(reachable) + Elements(order)
      invariant empty <==> HasGap(recycler, start, offset)
      invariant fifo <==> FifoShape(recycler, start, offset)
    {
      var node := ScanAt(recycler, start, offset);
      FifoStep(recycler, start, offset);
      GapStep(recycler, start, offset);
      hide HasGap, ScanAt;
      if node.None? {
        empty := true;
        assert Nodes(recycler, start, offset + 1) == Nodes(recycler, start, offset);
        continue;
      }
      TallyStep(n, reachable, Nodes(recycler, start, offset), order, once, node.value);
      if empty {
        fifo := false;
      }
      if node.value >= n || node.value in owned {
        once := false;
        continue;
      }
      owned := owned + {node.value};
      order := order + [node.value];
    }
    TallyEnd(n, reachable, Nodes(recycler, start, |recycler|), order, once);
  }

  /** What the recycler scan has found so far. */
  ghost predicate Tallied(n: nat, chain: seq<nat>, nodes: seq<nat>, order: seq<nat>, once: bool) {
    order == FirstSeen(n, chain, nodes) && (once <==> Unowned(n, chain, nodes))
  }

  lemma TallyStart(n: nat, chain: seq<nat>)
    ensures Tallied(n, chain, [], [], true)
  {
  }

  lemma TallyEnd(n: nat, chain: seq<nat>, nodes: seq<nat>, order: seq<nat>, once: bool)
    requires Tallied(n, chain, nodes, order, once)
    ensures order == FirstSeen(n, chain, nodes) && (once <==> Unowned(n, chain, nodes))
  {
  }

  lemma TallyStep(n: nat, chain: seq<nat>, nodes: seq<nat>, order: seq<nat>, once: bool, x: nat)
    requires Tallied(n, chain, nodes, order, once)
    ensures var refused := x >= n || x in chain || x in order;
            Tallied(n, chain, nodes + [x], if refused then order else order + [x], once && !refused)
  {
    UnownedAppend(n, chain, nodes, x);
    FirstSeenAppend(n, chain, nodes, x);
    if once {
      FirstSeenAll(n, chain, nodes);
    }
    hide FirstSeen, Unowned;
  }

  ghost predicate HasGap(recycler: seq<Option<nat>>, start: nat, n: nat)
    requires n <= |recycler|
  {
    exists i: nat :: i < n && ScanAt(recycler, start, i).None?
  }

  lemma GapStep(recycler: seq<Option<nat>>, start: nat, n: nat)
    requires n < |recycler|
    ensures HasGap(recycler, start, n + 1) <==> HasGap(recycler, start, n) || ScanAt(recycler, start, n).None?
  {
    hide ScanAt;
  }

  lemma FifoStart(recycler: seq<Option<nat>>, start: nat)
    ensures FifoShape(recycler, start, 0)
  {
  }

  lemma FifoStep(recycler: seq<Option<nat>>, start: nat, n: nat)
    requires n < |recycler|
    ensures FifoShape(recycler, start, n + 1) <==>
      && FifoShape(recycler, start, n)
      && (ScanAt(recycler, start, n).Some? ==> !HasGap(recycler, start, n))
  {
    hide ScanAt;
  }

  // ---------------------------------------------------------------- the audit of a sound queue

  /**
   With both threads at rest the audit finds the true chain and recycler, and single ownership
   unless a node was lost.
   */
  lemma AuditOfSound<E>(l: Linked<E>, g: Ownership, q: Queue<E>, a: Audit)
    requires Invariant(l, g, q) && l.producer.ProducerIdle? && l.consumer.ConsumerIdle?
    requires l.recycler != [] && Reports(l, a)
    ensures a == Audit(g.chain, g.free, true, true, g.leaked == [], true, true)
  {
    hide Invariant, IsWalk, Ends, FirstSeen, Partition, FifoShape, IsPermutation, Nodes, Unowned;
    SoundParts(l, g, q);
    WalkUnique(l.next, l.head, a.reachable, g.chain);
    FreeUnowned(|l.next|, g);
    FirstSeenAll(|l.next|, g.chain, g.free);
    LeakIff(|l.next|, g);
  }

  /** What the audit meets in a sound queue at rest. */
  lemma SoundParts<E>(l: Linked<E>, g: Ownership, q: Queue<E>)
    requires Invariant(l, g, q) && l.producer.ProducerIdle? && l.consumer.ConsumerIdle?
    ensures Partition(|l.next|, g.chain, g.free, [], [], g.leaked)
    ensures l.takePosition < |l.recycler| && l.returnPosition < |l.recycler|
    ensures IsWalk(l.next, l.head, g.chain) && Ends(l.next, l.head) && l.tail in g.chain
    ensures Nodes(l.recycler, l.takePosition, |l.recycler|) == g.free
    ensures FifoShape(l.recycler, l.takePosition, |l.recycler|)
  {
    hide Partition, ItemsOk, IsWalk, Ends, Nodes, FifoShape;
    PositionsInRange(l.recycler, l.takePosition, l.returnPosition, g.free);
    ChainIsWalk(l.next, l.head, l.tail, g);
    ScanFinds(l.recycler, l.takePosition, g.free, |l.recycler|);
    ScanIsFifo(l.recycler, l.takePosition, g.free);
    assert g.free[..|g.free|] == g.free;
  }

  lemma ChainIsWalk(next: seq<Option<nat>>, head: nat, tail: nat, g: Ownership)
    requires ChainOk(next, g.chain, head, tail) && Partition(|next|, g.chain, g.free, [], [], g.leaked)
    ensures IsWalk(next, head, g.chain) && Ends(next, head) && tail in g.chain
  {
    forall i, j | 0 <= i < j < |g.chain| ensures g.chain[i] != g.chain[j] {
      ChainNode(|next|, g.chain, g.free, [], [], g.leaked, g.chain[i]);
      if g.chain[i] == g.chain[j] {
        OccursTwice(g.chain, i, j);
        assert false;
      }
    }
    hide Partition;
    forall i | 0 < i < |g.chain| ensures next[g.chain[i - 1]] == Some(g.chain[i]) {
      assert next[g.chain[i - 1]] == Some(g.chain[i - 1 + 1]);
    }
    assert g.chain[|g.chain| - 1] == tail;
    assert IsPath(next, head, g.chain);
  }

  lemma ScanSlot(recycler: seq<Option<nat>>, start: nat, offset: nat)
    requires start < |recycler| && offset < |recycler|
    ensures ScanAt(recycler, start, offset) == recycler[At(|recycler|, start, offset)]
  {
    RingQueue.DistanceMod(|recycler|, start, offset);
    Small(offset, |recycler|);
  }

  lemma Small(k: nat, n: nat)
    requires k < n
    ensures k % n == k
  {
  }

  lemma {:induction false} ScanFinds(recycler: seq<Option<nat>>, start: nat, free: seq<nat>, k: nat)
    requires Holds(recycler, start, free) && k <= |recycler|
    ensures Nodes(recycler, start, k) == free[..if k <= |free| then k else |free|]
  {
    if k > 0 {
      ScanFinds(recycler, start, free, k - 1);
      ScanSlot(recycler, start, k - 1);
      hide ScanAt;
      if k <= |free| {
        assert free[..k] == free[..k - 1] + [free[k - 1]];
      }
    }
  }

  lemma ScanIsFifo(recycler: seq<Option<nat>>, start: nat, free: seq<nat>)
    requires Holds(recycler, start, free)
    ensures FifoShape(recycler, start, |recycler|)
  {
    forall i: nat, j: nat | i < j < |recycler| && ScanAt(recycler, start, j).Some?
      ensures ScanAt(recycler, start, i).Some?
    {
      ScanSlot(recycler, start, i);
      ScanSlot(recycler, start, j);
    }
  }

  /** How often a node occurs when both hands are empty. */
  lemma FreeNode(n: nat, chain: seq<nat>, free: seq<nat>, leaked: seq<nat>, x: nat)
    requires Partition(n, chain, free, [], [], leaked)
    ensures multiset(chain)[x] + multiset(free)[x] + multiset(leaked)[x] == if x < n then 1 else 0
  {
    AllNodesOnce(n, x);
    hide AllNodes;
    assert (multiset(chain) + multiset(free) + multiset([]) + multiset([]) + multiset(leaked))[x] == AllNodes(n)[x];
  }

  lemma FreeUnowned(n: nat, g: Ownership)
    requires Partition(n, g.chain, g.free, [], [], g.leaked)
    ensures Unowned(n, g.chain, g.free)
  {
    hide Partition;
    forall i | 0 <= i < |g.free| ensures g.free[i] < n && g.free[i] !in g.chain {
      FreeNode(n, g.chain, g.free, g.leaked, g.free[i]);
      assert g.free[i] in multiset(g.free);
      assert g.free[i] !in multiset(g.chain);
    }
    forall i, j | 0 <= i < j < |g.free| ensures g.free[i] != g.free[j] {
      FreeNode(n, g.chain, g.free, g.leaked, g.free[i]);
      if g.free[i] == g.free[j] {
        OccursTwice(g.free, i, j);
        assert false;
      }
    }
  }

  lemma LeakIff(n: nat, g: Ownership)
    requires Partition(n, g.chain, g.free, [], [], g.leaked)
    ensures IsPermutation(g.chain + g.free, n) <==> g.leaked == []
  {
    PartitionCount(n, g.chain, g.free, [], [], g.leaked);
    if g.leaked == [] {
      forall x: nat | x < n ensures x in g.chain || x in g.free {
        FreeNode(n, g.chain, g.free, g.leaked, x);
        assert x in multiset(g.chain) || x in multiset(g.free);
      }
      FreeUnowned(n, g);
      ChainUnowned(n, g);
      CoverIsPermutation(n, g.chain, g.free);
    }
  }

  lemma ChainUnowned(n: nat, g: Ownership)
    requires Partition(n, g.chain, g.free, [], [], g.leaked)
    ensures Distinct(g.chain) && forall i :: 0 <= i < |g.chain| ==> g.chain[i] < n
  {
    hide Partition;
    forall i | 0 <= i < |g.chain| ensures g.chain[i] < n {
      ChainNode(n, g.chain, g.free, [], [], g.leaked, g.chain[i]);
    }
    forall i, j | 0 <= i < j < |g.chain| ensures g.chain[i] != g.chain[j] {
      ChainNode(n, g.chain, g.free, [], [], g.leaked, g.chain[i]);
      if g.chain[i] == g.chain[j] {
        OccursTwice(g.chain, i, j);
        assert false;
      }
    }
  }
}
