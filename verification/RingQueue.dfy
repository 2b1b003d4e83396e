/**
 The single-producer single-consumer ring, as two interleaved threads. Each step does at most one
 access to a shared slot; the cursors are private to their threads.
 */
module RingQueue {
  import opened Prelude
  import opened QueueSpec
  import opened Circular
  import opened Arith

  /** Between the producer's load of an empty slot and its store. */
  datatype Producer<E> = ProducerIdle | Publishing(event: E)

  /** Between the consumer's load of an event and its release of the slot. */
  datatype Consumer<E> = ConsumerIdle | Releasing(event: E)

  datatype Ring<E> = Ring(
    slots: seq<Option<E>>, producerPosition: nat, consumerPosition: nat, producer: Producer<E>, consumer: Consumer<E>)

  /** The next access of one thread; `captured` is what its boundary observer answers. */
  datatype Action<E> =
    | LoadForEnqueue(event: E) | Publish(captured: bool)
    | LoadForDequeue | Release(captured: bool)

  function Init<E>(capacity: nat): Ring<E>
    requires capacity > 0
  {
    Ring(seq(capacity, _ => None), 0, 0, ProducerIdle, ConsumerIdle)
  }

  predicate InRange<E>(r: Ring<E>) { r.producerPosition < |r.slots| && r.consumerPosition < |r.slots| }

  /** One access; a thread that is elsewhere in its code ignores the action. */
  function Step<E>(r: Ring<E>, a: Action<E>): (Ring<E>, Output<E>)
    requires InRange(r)
  {
    match a
    case LoadForEnqueue(e) =>
      if !r.producer.ProducerIdle? then (r, Silent)
      else if r.slots[r.producerPosition].Some? then (r, Full)
      else (r.(producer := Publishing(e)), Silent)
    case Publish(captured) =>
      if !r.producer.Publishing? then (r, Silent)
      else if !captured then (r.(producer := ProducerIdle), EnqueueAborted)
      else
        (r.(slots := r.slots[r.producerPosition := Some(r.producer.event)],
            producerPosition := Next(|r.slots|, r.producerPosition), producer := ProducerIdle),
         Accepted(r.producer.event))
    case LoadForDequeue =>
      if !r.consumer.ConsumerIdle? then (r, Silent)
      else if r.slots[r.consumerPosition].None? then (r, Empty)
      else (r.(consumer := Releasing(r.slots[r.consumerPosition].value)), Silent)
    case Release(captured) =>
      if !r.consumer.Releasing? then (r, Silent)
      else if !captured then (r.(consumer := ConsumerIdle), DequeueAborted)
      else
        (r.(slots := r.slots[r.consumerPosition := None],
            consumerPosition := Next(|r.slots|, r.consumerPosition), consumer := ConsumerIdle),
         Delivered(r.consumer.event))
  }

  /** The ring holds exactly the queue's items, and what each thread has seen is still so. */
  ghost predicate Invariant<E>(r: Ring<E>, q: Queue<E>) {
    && q.capacity == |r.slots|
    && Holds(r.slots, r.consumerPosition, q.items)
    && r.producerPosition == At(|r.slots|, r.consumerPosition, |q.items|)
    && (r.producer.Publishing? ==> |q.items| < q.capacity)
    && (r.consumer.Releasing? ==> q.items != [] && q.items[0] == r.consumer.event)
  }

  /** Every access of either thread is, seen from outside, a step of the bounded FIFO queue. */
  lemma StepRefines<E>(r: Ring<E>, q: Queue<E>, a: Action<E>)
    requires Invariant(r, q)
    ensures InRange(r)
    ensures var (r', o) := Step(r, a);
            SpecStep(0, q, o).Some? && Invariant(r', SpecStep(0, q, o).value)
  {
    var size, p := |r.slots|, r.consumerPosition;
    FrontSlot(r.slots, p, q.items);
    BackSlot(r.slots, p, q.items);
    if a.Publish? && a.captured && r.producer.Publishing? {
      PushHolds(r.slots, p, q.items, r.producer.event);
    }
    if a.Release? && a.captured && r.consumer.Releasing? {
      PopHolds(r.slots, p, q.items);
    }
    hide Holds, At, Next;
  }

  /**
   What each access reports and leaves behind, in terms of the queue alone: an enqueue is refused exactly when
   the queue is full and otherwise ends with its own event accepted, a dequeue finds nothing exactly when the
   queue is empty and otherwise ends with the oldest event delivered, and either is given up exactly when its
   observer does not capture it. No thread's access moves the other thread.
   */
  lemma Reports<E>(r: Ring<E>, q: Queue<E>, a: Action<E>)
    requires Invariant(r, q)
    ensures InRange(r)
    ensures var (r', o) := Step(r, a);
            match a
            case LoadForEnqueue(e) =>
              && r'.consumer == r.consumer
              && (r.producer == ProducerIdle ==>
                    if |q.items| == q.capacity then o == Full && r'.producer == ProducerIdle
                    else o == Silent && r'.producer == Publishing(e))
              && (r.producer != ProducerIdle ==> (r', o) == (r, Silent))
            case Publish(captured) =>
              && r'.consumer == r.consumer
              && (r.producer.Publishing? ==>
                    && r'.producer == ProducerIdle
                    && o == if captured then Accepted(r.producer.event) else EnqueueAborted)
              && (r.producer == ProducerIdle ==> (r', o) == (r, Silent))
            case LoadForDequeue =>
              && r'.producer == r.producer
              && (r.consumer == ConsumerIdle ==>
                    if q.items == [] then o == Empty && r'.consumer == ConsumerIdle
                    else o == Silent && r'.consumer == Releasing(q.items[0]))
              && (r.consumer != ConsumerIdle ==> (r', o) == (r, Silent))
            case Release(captured) =>
              && r'.producer == r.producer
              && (r.consumer.Releasing? ==>
                    && r'.consumer == ConsumerIdle
                    && o == if captured then Delivered(q.items[0]) else DequeueAborted)
              && (r.consumer == ConsumerIdle ==> (r', o) == (r, Silent))
  {
    FrontSlot(r.slots, r.consumerPosition, q.items);
    BackSlot(r.slots, r.consumerPosition, q.items);
    hide Holds, At, Next;
  }

  /** The ring after a schedule of accesses, and what it reported. */
  ghost function Run<E>(capacity: nat, actions: seq<Action<E>>): (res: (Ring<E>, seq<Output<E>>))
    requires capacity > 0
    ensures |res.1| == |actions|
    ensures SpecRun(0, Queue([], capacity), res.1).Some?
    ensures Invariant(res.0, SpecRun(0, Queue([], capacity), res.1).value)
  {
    if actions == [] then (Init(capacity), [])
    else
      var (r, outs) := Run(capacity, actions[..|actions| - 1]);
      StepRefines(r, SpecRun(0, Queue([], capacity), outs).value, actions[|actions| - 1]);
      var (r', o) := Step(r, actions[|actions| - 1]);
      assert (outs + [o])[..|outs|] == outs;
      (r', outs + [o])
  }

  /**
   For every interleaving of the two threads: events come out in the order they went in, none
   lost, duplicated or invented; at most `capacity` are in flight, and the slots hold them.
   */
  lemma FirstInFirstOut<E>(capacity: nat, actions: seq<Action<E>>)
    requires capacity > 0
    ensures var (r, outs) := Run(capacity, actions);
            var accepted, delivered := AcceptedOf(outs), DeliveredOf(outs);
            && delivered <= accepted && |accepted| - |delivered| <= capacity
            && Holds(r.slots, r.consumerPosition, accepted[|delivered|..])
  {
    var (r, outs) := Run(capacity, actions);
    Conservation(0, capacity, outs);
    hide Run, SpecRun;
    var q := SpecRun(0, Queue([], capacity), outs).value;
    assert AcceptedOf(outs)[|DeliveredOf(outs)|..] == q.items;
  }

  /** The accesses of one thread. */
  predicate IsConsumers<E>(a: Action<E>) { a.LoadForDequeue? || a.Release? }

  lemma RunSnoc<E>(capacity: nat, actions: seq<Action<E>>, a: Action<E>)
    requires capacity > 0
    ensures var (r, outs) := Run(capacity, actions);
            InRange(r) && Run(capacity, actions + [a]) == (Step(r, a).0, outs + [Step(r, a).1])
  {
    assert (actions + [a])[..|actions|] == actions;
  }

  /** A thread between its load and its publication stays there, whatever the other thread does. */
  lemma {:induction false} StaysPublishing<E>(capacity: nat, before: seq<Action<E>>, others: seq<Action<E>>)
    requires capacity > 0 && Run(capacity, before).0.producer.Publishing?
    requires forall k :: 0 <= k < |others| ==> IsConsumers(others[k])
    ensures Run(capacity, before + others).0.producer == Run(capacity, before).0.producer
    decreases |others|
  {
    hide Run;
    if others == [] {
      assert before + others == before;
    } else {
      var front, last := others[..|others| - 1], others[|others| - 1];
      StaysPublishing(capacity, before, front);
      assert before + others == before + front + [last];
      RunSnoc(capacity, before + front, last);
      var (r, outs) := Run(capacity, before + front);
      Reports(r, SpecRun(0, Queue([], capacity), outs).value, last);
    }
  }

  /**
   A whole enqueue call in any interleaving: from an idle producer with room, the load and the publication, with
   any accesses of the consumer in between, end with the call's own event accepted.
   */
  lemma EnqueueCompletes<E>(capacity: nat, before: seq<Action<E>>, e: E, others: seq<Action<E>>)
    requires capacity > 0 && forall k :: 0 <= k < |others| ==> IsConsumers(others[k])
    requires Run(capacity, before).0.producer == ProducerIdle
    requires var outs := Run(capacity, before).1; |AcceptedOf(outs)| - |DeliveredOf(outs)| < capacity
    ensures var outs := Run(capacity, before + [LoadForEnqueue(e)] + others + [Publish(true)]).1;
            outs[|outs| - 1] == Accepted(e)
  {
    hide Run, SpecRun, AcceptedOf, DeliveredOf;
    var (r, outs) := Run(capacity, before);
    Conservation(0, capacity, outs);
    NothingLost(outs);
    var loaded := before + [LoadForEnqueue(e)];
    RunSnoc(capacity, before, LoadForEnqueue(e));
    Reports(r, SpecRun(0, Queue([], capacity), outs).value, LoadForEnqueue(e));
    StaysPublishing(capacity, loaded, others);
    RunSnoc(capacity, loaded + others, Publish(true));
    var (r', outs') := Run(capacity, loaded + others);
    Reports(r', SpecRun(0, Queue([], capacity), outs').value, Publish(true));
  }

  lemma {:induction false} StaysReleasing<E>(capacity: nat, before: seq<Action<E>>, others: seq<Action<E>>)
    requires capacity > 0 && Run(capacity, before).0.consumer.Releasing?
    requires forall k :: 0 <= k < |others| ==> !IsConsumers(others[k])
    ensures Run(capacity, before + others).0.consumer == Run(capacity, before).0.consumer
    decreases |others|
  {
    hide Run;
    if others == [] {
      assert before + others == before;
    } else {
      var front, last := others[..|others| - 1], others[|others| - 1];
      StaysReleasing(capacity, before, front);
      assert before + others == before + front + [last];
      RunSnoc(capacity, before + front, last);
      var (r, outs) := Run(capacity, before + front);
      Reports(r, SpecRun(0, Queue([], capacity), outs).value, last);
    }
  }

  /** A whole dequeue call in any interleaving: it ends with the oldest event that was not yet delivered. */
  lemma DequeueCompletes<E>(capacity: nat, before: seq<Action<E>>, others: seq<Action<E>>)
    requires capacity > 0 && forall k :: 0 <= k < |others| ==> !IsConsumers(others[k])
    requires Run(capacity, before).0.consumer == ConsumerIdle
    requires var outs := Run(capacity, before).1; |DeliveredOf(outs)| < |AcceptedOf(outs)|
    ensures var outs := Run(capacity, before).1;
            var outs' := Run(capacity, before + [LoadForDequeue] + others + [Release(true)]).1;
            outs'[|outs'| - 1] == Delivered(AcceptedOf(outs)[|DeliveredOf(outs)|])
  {
    hide Run, SpecRun, AcceptedOf, DeliveredOf;
    var (r, outs) := Run(capacity, before);
    Conservation(0, capacity, outs);
    var q := SpecRun(0, Queue([], capacity), outs).value;
    assert AcceptedOf(outs)[|DeliveredOf(outs)|] == q.items[0];
    var loaded := before + [LoadForDequeue];
    RunSnoc(capacity, before, LoadForDequeue);
    Reports(r, q, LoadForDequeue);
    StaysReleasing(capacity, loaded, others);
    RunSnoc(capacity, loaded + others, Release(true));
    var (r', outs') := Run(capacity, loaded + others);
    Reports(r', SpecRun(0, Queue([], capacity), outs').value, Release(true));
  }

  lemma {:induction false} NothingLost<E>(outs: seq<Output<E>>)
    ensures Lost(0, outs) == 0
  {
    if outs != [] {
      NothingLost(outs[..|outs| - 1]);
    }
  }

  /** The slot `distance` places ahead of a cursor, computed without overflow. */
  function PositionAtDistance(capacity: nat, position: nat, distance: nat): (r: nat)
    requires position < capacity
    ensures r == (position + distance) % capacity
  {
    var reduced := distance % capacity;
    var untilWrap := capacity - position;
    DistanceMod(capacity, position, distance);
    if reduced == 0 then position
    else if reduced < untilWrap then position + reduced
    else reduced - untilWrap
  }

  lemma DistanceMod(capacity: nat, position: nat, distance: nat)
    requires position < capacity
    ensures (position + distance) % capacity
         == if position + distance % capacity < capacity then position + distance % capacity
            else position + distance % capacity - capacity
  {
    var d, m := distance / capacity, distance % capacity;
    Division(distance, capacity);
    Distribute(d, 1, capacity);
    if position + m < capacity {
      DivisionUnique(position + distance, capacity, d, position + m);
    } else {
      DivisionUnique(position + distance, capacity, d + 1, position + m - capacity);
    }
  }
}
