/** Calls on the linked queue: what each access reports, and that calls complete in any interleaving. */
module LinkedProgress {
  import opened Prelude
  import opened QueueSpec
  import opened Circular
  import opened Permutation
  import opened LinkedQueue

  /** The accesses of the consumer. */
  predicate IsConsumers<E>(a: Action<E>) { a.LoadNext? || a.Check? || a.Move? || a.Return? }

  ghost predicate ConsumersOnly<E>(actions: seq<Action<E>>) {
    forall k :: 0 <= k < |actions| ==> IsConsumers(actions[k])
  }

  ghost predicate ProducersOnly<E>(actions: seq<Action<E>>) {
    forall k :: 0 <= k < |actions| ==> !IsConsumers(actions[k])
  }

  /**
   What the producer's accesses report and leave behind, in terms of the queue alone: an enqueue is refused
   exactly when the queue is full, and otherwise goes through its four accesses with its own event, to be
   accepted or, exactly when its observer does not capture it, given up.
   */
  lemma ProducerReports<E>(l: Linked<E>, g: Ownership, q: Queue<E>, a: Action<E>)
    requires Invariant(l, g, q) && !IsConsumers(a) && Safe(l, a)
    ensures var (l', o) := Step(l, a);
            var p, p' := l.producer, l'.producer;
            && l'.consumer == l.consumer
            && match a
               case LoadRecycler(e) =>
                 if !p.ProducerIdle? then (l', o) == (l, Silent)
                 else if |q.items| == q.capacity then o == Full && p' == p
                 else o == Silent && p'.Obtained? && p'.event == e
               case Take => if p.Obtained? then o == Silent && p' == Taken(p.node, p.event) else (l', o) == (l, Silent)
               case Fill => if p.Taken? then o == Silent && p' == Filled(p.node, p.event) else (l', o) == (l, Silent)
               case Link(captured) =>
                 if !p.Filled? then (l', o) == (l, Silent)
                 else p' == ProducerIdle && o == if captured then Accepted(p.event) else EnqueueAborted
               case _ => true
  {
    Accounting(l, g, q);
    FrontSlot(l.recycler, l.takePosition, g.free);
    hide Holds, At, Next, Partition, ChainOk, ItemsOk, ConsumerOk;
  }

  /**
   The same of the consumer: a dequeue finds nothing exactly when the queue is empty, and otherwise goes through
   its four accesses to deliver the oldest event or, exactly when its observer does not capture it, is given up.
   */
  lemma ConsumerReports<E>(l: Linked<E>, g: Ownership, q: Queue<E>, a: Action<E>)
    requires Invariant(l, g, q) && IsConsumers(a) && Safe(l, a)
    ensures var (l', o) := Step(l, a);
            var c, c' := l.consumer, l'.consumer;
            && l'.producer == l.producer
            && match a
               case LoadNext =>
                 if !c.ConsumerIdle? then (l', o) == (l, Silent)
                 else if q.items == [] then o == Empty && c' == c
                 else o == Silent && c'.Found?
               case Check(captured) =>
                 if !c.Found? then (l', o) == (l, Silent)
                 else if captured then o == Silent && c' == Checked(c.successor)
                 else o == DequeueAborted && c' == ConsumerIdle
               case Move =>
                 if !c.Checked? then (l', o) == (l, Silent)
                 else q.items != [] && o == Silent && c' == Moved(l.head, q.items[0])
               case Return =>
                 if !c.Moved? then (l', o) == (l, Silent)
                 else q.items != [] && o == Delivered(q.items[0]) && c' == ConsumerIdle
               case _ => true
  {
    Accounting(l, g, q);
    LoadNextFacts(l, g, q);
    RoomToReturn(l, g, q);
    if l.consumer.Checked? {
      DropEvent(l.events, g.chain, q.items);
    }
    hide RecyclerOk, Partition, ChainOk, EventsOk, ProducerOk;
  }

  // ---------------------------------------------------------------- whole calls

  lemma RunSnoc<E>(capacity: nat, order: seq<nat>, actions: seq<Action<E>>, a: Action<E>)
    requires capacity > 0 && IsPermutation(order, capacity + 1)
    ensures var (l, g, outs) := Run(capacity, order, actions);
            var (l', g', outs') := Run(capacity, order, actions + [a]);
            && Safe(l, a) && l' == Step(l, a).0 && outs' == outs + [Step(l, a).1]
            && SpecRun(1, Queue([], capacity), outs).Some?
            && Invariant(l, g, SpecRun(1, Queue([], capacity), outs).value)
  {
    RunIsSound(capacity, order, actions);
    hide Invariant, Safe, Step, Transfer, IsPermutation;
    assert (actions + [a])[..|actions|] == actions;
  }

  /** A thread stays where it is in its code, whatever the other thread does. */
  lemma {:induction false} ProducerStays<E>(
    capacity: nat, order: seq<nat>, before: seq<Action<E>>, others: seq<Action<E>>)
    requires capacity > 0 && IsPermutation(order, capacity + 1)
    requires ConsumersOnly(others)
    ensures Run(capacity, order, before + others).0.producer == Run(capacity, order, before).0.producer
    decreases |others|
  {
    assert |order| == capacity + 1;
    hide Run, Invariant, Safe, Step, IsPermutation;
    if others == [] {
      assert before + others == before;
    } else {
      var front, last := others[..|others| - 1], others[|others| - 1];
      ProducerStays(capacity, order, before, front);
      assert before + others == before + front + [last];
      RunSnoc(capacity, order, before + front, last);
      var (l, g, outs) := Run(capacity, order, before + front);
      ConsumerReports(l, g, SpecRun(1, Queue([], capacity), outs).value, last);
    }
  }

  lemma {:induction false} ConsumerStays<E>(
    capacity: nat, order: seq<nat>, before: seq<Action<E>>, others: seq<Action<E>>)
    requires capacity > 0 && IsPermutation(order, capacity + 1)
    requires ProducersOnly(others)
    ensures Run(capacity, order, before + others).0.consumer == Run(capacity, order, before).0.consumer
    decreases |others|
  {
    assert |order| == capacity + 1;
    hide Run, Invariant, Safe, Step, IsPermutation;
    if others == [] {
      assert before + others == before;
    } else {
      var front, last := others[..|others| - 1], others[|others| - 1];
      ConsumerStays(capacity, order, before, front);
      assert before + others == before + front + [last];
      RunSnoc(capacity, order, before + front, last);
      var (l, g, outs) := Run(capacity, order, before + front);
      ProducerReports(l, g, SpecRun(1, Queue([], capacity), outs).value, last);
    }
  }

  /** One access of the producer after any accesses of the consumer. */
  lemma ProducerMoves<E>(
    capacity: nat, order: seq<nat>, before: seq<Action<E>>, others: seq<Action<E>>, a: Action<E>)
    requires capacity > 0 && IsPermutation(order, capacity + 1) && !IsConsumers(a)
    requires ConsumersOnly(others)
    ensures var p := Run(capacity, order, before).0.producer;
            var (l', g', outs') := Run(capacity, order, before + others + [a]);
            var p', o := l'.producer, outs'[|outs'| - 1];
            && (a == Take && p.Obtained? ==> p' == Taken(p.node, p.event))
            && (a == Fill && p.Taken? ==> p' == Filled(p.node, p.event))
            && (a == Link(true) && p.Filled? ==> o == Accepted(p.event))
  {
    assert |order| == capacity + 1;
    hide Run, Invariant, Safe, Step, IsPermutation;
    ProducerStays(capacity, order, before, others);
    RunSnoc(capacity, order, before + others, a);
    var (l, g, outs) := Run(capacity, order, before + others);
    ProducerReports(l, g, SpecRun(1, Queue([], capacity), outs).value, a);
  }

  /**
   A whole enqueue call in any interleaving: from an idle producer with room, its four accesses, with any
   accesses of the consumer between them, end with the call's own event accepted.
   */
  lemma EnqueueCompletes<E>(
    capacity: nat, order: seq<nat>, before: seq<Action<E>>, e: E,
    x: seq<Action<E>>, y: seq<Action<E>>, z: seq<Action<E>>)
    requires capacity > 0 && IsPermutation(order, capacity + 1)
    requires ConsumersOnly(x) && ConsumersOnly(y) && ConsumersOnly(z)
    requires var (l, g, outs) := Run(capacity, order, before);
             l.producer == ProducerIdle && |AcceptedOf(outs)| - |DeliveredOf(outs)| + Lost(1, outs) < capacity
    ensures var first := before + [LoadRecycler(e)] + x + [Take];
            var outs := Run(capacity, order, first + y + [Fill] + z + [Link(true)]).2;
            outs[|outs| - 1] == Accepted(e)
  {
    assert |order| == capacity + 1;
    hide Run, IsPermutation, AcceptedOf, DeliveredOf, Lost, ConsumersOnly;
    EnqueueStarts(capacity, order, before, e);
    var loaded := before + [LoadRecycler(e)];
    ProducerMoves(capacity, order, loaded, x, Take);
    var taken := loaded + x + [Take];
    ProducerMoves(capacity, order, taken, y, Fill);
    ProducerMoves(capacity, order, taken + y + [Fill], z, Link(true));
  }

  /** With room, an idle producer's first access obtains a node for its event. */
  lemma EnqueueStarts<E>(capacity: nat, order: seq<nat>, before: seq<Action<E>>, e: E)
    requires capacity > 0 && IsPermutation(order, capacity + 1)
    requires var (l, g, outs) := Run(capacity, order, before);
             l.producer == ProducerIdle && |AcceptedOf(outs)| - |DeliveredOf(outs)| + Lost(1, outs) < capacity
    ensures var p := Run(capacity, order, before + [LoadRecycler(e)]).0.producer;
            p.Obtained? && p.event == e
  {
    assert |order| == capacity + 1;
    hide Run, Invariant, Safe, Step, IsPermutation, AcceptedOf, DeliveredOf, Lost, SpecRun;
    var (l, g, outs) := Run(capacity, order, before);
    RunSnoc(capacity, order, before, LoadRecycler(e));
    Conservation(1, capacity, outs);
    ProducerReports(l, g, SpecRun(1, Queue([], capacity), outs).value, LoadRecycler(e));
  }

  /** One access of the consumer after any accesses of the producer. */
  lemma ConsumerMoves<E>(
    capacity: nat, order: seq<nat>, before: seq<Action<E>>, others: seq<Action<E>>, a: Action<E>)
    requires capacity > 0 && IsPermutation(order, capacity + 1) && IsConsumers(a)
    requires ProducersOnly(others)
    ensures var c, outs := Run(capacity, order, before).0.consumer, Run(capacity, order, before).2;
            var (l', g', outs') := Run(capacity, order, before + others + [a]);
            var c', o := l'.consumer, outs'[|outs'| - 1];
            && DeliveredOf(Run(capacity, order, before + others).2) == DeliveredOf(outs)
            && (a == Check(true) && c.Found? ==> c'.Checked? && DeliveredOf(outs') == DeliveredOf(outs))
            && (a == Move && c.Checked? ==> c'.Moved? && DeliveredOf(outs') == DeliveredOf(outs))
            && (a == Return && c.Moved? ==> o.Delivered? && DeliveredOf(outs') == DeliveredOf(outs) + [o.event])
  {
    assert |order| == capacity + 1;
    hide Run, Invariant, Safe, Step, IsPermutation, SpecRun;
    ConsumerStays(capacity, order, before, others);
    NothingDelivered(capacity, order, before, others);
    RunSnoc(capacity, order, before + others, a);
    var (l, g, outs) := Run(capacity, order, before + others);
    ConsumerReports(l, g, SpecRun(1, Queue([], capacity), outs).value, a);
    var o := Step(l, a).1;
    assert (outs + [o])[..|outs|] == outs;
  }

  lemma {:induction false} NothingDelivered<E>(
    capacity: nat, order: seq<nat>, before: seq<Action<E>>, others: seq<Action<E>>)
    requires capacity > 0 && IsPermutation(order, capacity + 1)
    requires ProducersOnly(others)
    ensures DeliveredOf(Run(capacity, order, before + others).2) == DeliveredOf(Run(capacity, order, before).2)
    decreases |others|
  {
    assert |order| == capacity + 1;
    hide Run, Invariant, Safe, Step, IsPermutation, SpecRun;
    if others == [] {
      assert before + others == before;
    } else {
      var front, last := others[..|others| - 1], others[|others| - 1];
      NothingDelivered(capacity, order, before, front);
      assert before + others == before + front + [last];
      RunSnoc(capacity, order, before + front, last);
      var (l, g, outs) := Run(capacity, order, before + front);
      ProducerReports(l, g, SpecRun(1, Queue([], capacity), outs).value, last);
      var o := Step(l, last).1;
      assert (outs + [o])[..|outs|] == outs;
    }
  }

  /**
   A whole dequeue call in any interleaving: from an idle consumer with an event in flight, its four accesses,
   with any accesses of the producer between them, end with one more event delivered; by the order of events
   that is the oldest one accepted.
   */
  lemma DequeueCompletes<E>(
    capacity: nat, order: seq<nat>, before: seq<Action<E>>,
    x: seq<Action<E>>, y: seq<Action<E>>, z: seq<Action<E>>)
    requires capacity > 0 && IsPermutation(order, capacity + 1)
    requires ProducersOnly(x) && ProducersOnly(y) && ProducersOnly(z)
    requires var (l, g, outs) := Run(capacity, order, before);
             l.consumer == ConsumerIdle && |DeliveredOf(outs)| < |AcceptedOf(outs)|
    ensures var first := before + [LoadNext] + x + [Check(true)];
            var outs, outs' := Run(capacity, order, before).2,
              Run(capacity, order, first + y + [Move] + z + [Return]).2;
            && outs'[|outs'| - 1].Delivered?
            && DeliveredOf(outs') == DeliveredOf(outs) + [outs'[|outs'| - 1].event] <= AcceptedOf(outs')
  {
    assert |order| == capacity + 1;
    hide Run, IsPermutation, AcceptedOf, DeliveredOf, Lost, ProducersOnly;
    DequeueStarts(capacity, order, before);
    var loaded := before + [LoadNext];
    ConsumerMoves(capacity, order, loaded, x, Check(true));
    var checked := loaded + x + [Check(true)];
    ConsumerMoves(capacity, order, checked, y, Move);
    var moved := checked + y + [Move];
    ConsumerMoves(capacity, order, moved, z, Return);
    FirstInFirstOut(capacity, order, moved + z + [Return]);
  }

  /** With an event in flight, an idle consumer's first access finds it. */
  lemma DequeueStarts<E>(capacity: nat, order: seq<nat>, before: seq<Action<E>>)
    requires capacity > 0 && IsPermutation(order, capacity + 1)
    requires var (l, g, outs) := Run(capacity, order, before);
             l.consumer == ConsumerIdle && |DeliveredOf(outs)| < |AcceptedOf(outs)|
    ensures var (l, g, outs) := Run(capacity, order, before + [LoadNext]);
            l.consumer.Found? && DeliveredOf(outs) == DeliveredOf(Run(capacity, order, before).2)
  {
    assert |order| == capacity + 1;
    hide Run, Invariant, Safe, Step, IsPermutation, AcceptedOf, Lost, SpecRun;
    var (l, g, outs) := Run(capacity, order, before);
    RunSnoc(capacity, order, before, LoadNext);
    Conservation(1, capacity, outs);
    ConsumerReports(l, g, SpecRun(1, Queue([], capacity), outs).value, LoadNext);
    assert (outs + [Silent])[..|outs|] == outs;
  }
}
