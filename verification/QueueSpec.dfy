/** The sequential bounded FIFO queue that the two lock-free queues are measured against. */
module QueueSpec {
  import opened Prelude

  /** What a step of either thread reports to its caller. */
  datatype Output<E> =
    | Accepted(event: E) | Full | EnqueueAborted
    | Delivered(event: E) | Empty | DequeueAborted | RecyclerInvariantFailure
    | Silent

  datatype Queue<E> = Queue(items: seq<E>, capacity: nat)

  /**
   The queue after a report, if the report is one a bounded FIFO queue may make in that state.
   `leak` is the capacity lost by an aborted enqueue.
   */
  function SpecStep<E(==)>(leak: nat, q: Queue<E>, o: Output<E>): Option<Queue<E>> {
    match o
    case Accepted(e) => if |q.items| < q.capacity then Some(q.(items := q.items + [e])) else None
    case Full => if |q.items| == q.capacity then Some(q) else None
    case EnqueueAborted =>
      if |q.items| + leak <= q.capacity then Some(q.(capacity := q.capacity - leak)) else None
    case Delivered(e) =>
      if q.items != [] && q.items[0] == e then Some(q.(items := q.items[1..])) else None
    case Empty => if q.items == [] then Some(q) else None
    case DequeueAborted => if q.items != [] then Some(q) else None
    case RecyclerInvariantFailure => None
    case Silent => Some(q)
  }

  /** The queue after a whole history of reports, if every one of them was legal. */
  function SpecRun<E(==)>(leak: nat, q: Queue<E>, outs: seq<Output<E>>): Option<Queue<E>> {
    if outs == [] then Some(q)
    else
      var before := SpecRun(leak, q, outs[..|outs| - 1]);
      if before.None? then None else SpecStep(leak, before.value, outs[|outs| - 1])
  }

  /** The accepted events, in order. */
  function AcceptedOf<E>(outs: seq<Output<E>>): seq<E> {
    if outs == [] then []
    else
      var o := outs[|outs| - 1];
      AcceptedOf(outs[..|outs| - 1]) + (if o.Accepted? then [o.event] else [])
  }

  /** The delivered events, in order. */
  function DeliveredOf<E>(outs: seq<Output<E>>): seq<E> {
    if outs == [] then []
    else
      var o := outs[|outs| - 1];
      DeliveredOf(outs[..|outs| - 1]) + (if o.Delivered? then [o.event] else [])
  }

  /** The capacity lost by aborted enqueues. */
  function Lost<E>(leak: nat, outs: seq<Output<E>>): nat {
    if outs == [] then 0
    else Lost(leak, outs[..|outs| - 1]) + (if outs[|outs| - 1].EnqueueAborted? then leak else 0)
  }

  /**
   In a legal history nothing is lost, duplicated, invented or reordered: what was accepted is
   what was delivered followed by what is still queued.
   */
  lemma {:induction false} Conservation<E>(leak: nat, capacity: nat, outs: seq<Output<E>>)
    requires SpecRun(leak, Queue([], capacity), outs).Some?
    ensures var q := SpecRun(leak, Queue([], capacity), outs).value;
            && AcceptedOf(outs) == DeliveredOf(outs) + q.items
            && |q.items| <= q.capacity && q.capacity + Lost(leak, outs) == capacity
  {
    if outs != [] {
      var front, o := outs[..|outs| - 1], outs[|outs| - 1];
      Conservation(leak, capacity, front);
      var q := SpecRun(leak, Queue([], capacity), front).value;
      assert SpecStep(leak, q, o).Some?;
      hide SpecRun;
      match o
      case Accepted(e) =>
        assert DeliveredOf(front) + (q.items + [e]) == DeliveredOf(front) + q.items + [e];
      case Delivered(e) =>
        assert q.items == [e] + q.items[1..];
        assert DeliveredOf(front) + ([e] + q.items[1..]) == DeliveredOf(front) + [e] + q.items[1..];
      case _ =>
        assert AcceptedOf(outs) == AcceptedOf(front) && DeliveredOf(outs) == DeliveredOf(front);
    }
  }
}
