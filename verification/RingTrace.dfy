/** The bounded trace of ring attempts: demand durations and gaps between advances. */
module RingTrace {
  import opened Prelude

  datatype Worker = Producer | Consumer

  datatype Outcome = Advanced | Full | Empty | ClockFailure | TraceFailure

  datatype Call = Call(worker: Worker, start: u64, end: u64, outcome: Outcome)

  /** What is kept for one worker; `stalls` is the FULL count or the EMPTY count. */
  datatype Lane = Lane(demand: seq<u64>, issue: seq<u64>, stalls: nat, previous: Option<u64>)

  const EMPTY_LANE := Lane([], [], 0, None)

  /** The calls a trace refuses, in the order of its tests. */
  predicate Accepts(capacity: nat, lane: Lane, call: Call) {
    && call.outcome != ClockFailure && call.outcome != TraceFailure && call.end >= call.start
    && !(call.outcome == Full && call.worker != Producer)
    && !(call.outcome == Empty && call.worker != Consumer)
    && |lane.demand| < capacity
    && !IssueFull(capacity, lane, call)
    && !(call.outcome == Advanced && lane.previous.Some? && call.start < lane.previous.value)
  }

  /** The separate capacity test on the issue series. */
  predicate IssueFull(capacity: nat, lane: Lane, call: Call) {
    call.outcome == Advanced && lane.previous.Some? && |lane.issue| >= capacity
  }

  function Extend(lane: Lane, call: Call): Lane
    requires call.end >= call.start
    requires call.outcome != Full && call.outcome != Empty && lane.previous.Some? ==> call.start >= lane.previous.value
  {
    var demand := lane.demand + [call.end - call.start];
    if call.outcome == Full || call.outcome == Empty then lane.(demand := demand, stalls := lane.stalls + 1)
    else
      Lane(demand,
           if lane.previous.Some? then lane.issue + [call.start - lane.previous.value] else lane.issue,
           lane.stalls, Some(call.start))
  }

  class RingDemandTrace {
    const capacity: nat
    var producer: Lane
    var consumer: Lane

    constructor (maxAttemptsPerWorker: nat)
      requires maxAttemptsPerWorker > 0
      ensures capacity == maxAttemptsPerWorker && producer == EMPTY_LANE && consumer == EMPTY_LANE
    {
      capacity := maxAttemptsPerWorker;
      producer := EMPTY_LANE;
      consumer := EMPTY_LANE;
    }

    function LaneOf(worker: Worker): Lane
      reads this
    {
      if worker == Producer then producer else consumer
    }

    /** Records one attempt; a refused call changes nothing. */
    method Record(call: Call) returns (ok: bool)
      modifies this
      ensures ok <==> Accepts(capacity, old(LaneOf(call.worker)), call)
      ensures LaneOf(call.worker)
           == if ok then Extend(old(LaneOf(call.worker)), call) else old(LaneOf(call.worker))
      ensures call.worker == Producer ==> consumer == old(consumer)
      ensures call.worker == Consumer ==> producer == old(producer)
    {
      if call.outcome == ClockFailure || call.outcome == TraceFailure || call.end < call.start {
        return false;
      }
      if (call.outcome == Full && call.worker != Producer) ||
         (call.outcome == Empty && call.worker != Consumer) {
        return false;
      }
      var lane := LaneOf(call.worker);
      if |lane.demand| >= capacity ||
         (call.outcome == Advanced && lane.previous.Some? && |lane.issue| >= capacity) {
        return false;
      }
      if call.outcome == Advanced && lane.previous.Some? && call.start < lane.previous.value {
        return false;
      }
      lane := lane.(demand := lane.demand + [call.end - call.start]);
      if call.outcome == Full || call.outcome == Empty {
        lane := lane.(stalls := lane.stalls + 1);
      } else {
        if lane.previous.Some? {
          lane := lane.(issue := lane.issue + [call.start - lane.previous.value]);
        }
        lane := lane.(previous := Some(call.start));
      }
      if call.worker == Producer {
        producer := lane;
      } else {
        consumer := lane;
      }
      return true;
    }
  }

  // ---------------------------------------------------------------- whole runs

  /** A worker's lane after a run of calls by both workers. */
  function Replay(capacity: nat, calls: seq<Call>, worker: Worker): Lane {
    if calls == [] then EMPTY_LANE
    else
      var lane := Replay(capacity, calls[..|calls| - 1], worker);
      var call := calls[|calls| - 1];
      if call.worker == worker && Accepts(capacity, lane, call) then Extend(lane, call) else lane
  }

  /** The accepted calls of a worker, in order. */
  function Accepted(capacity: nat, calls: seq<Call>, worker: Worker): seq<Call> {
    if calls == [] then []
    else
      var front := calls[..|calls| - 1];
      var call := calls[|calls| - 1];
      Accepted(capacity, front, worker) +
      if call.worker == worker && Accepts(capacity, Replay(capacity, front, worker), call) then [call] else []
  }

  /** Start times of the advances among `calls`. */
  function AdvanceStarts(calls: seq<Call>): seq<u64> {
    if calls == [] then []
    else
      var call := calls[|calls| - 1];
      AdvanceStarts(calls[..|calls| - 1]) + if call.outcome == Advanced then [call.start] else []
  }

  /** Number of FULL and EMPTY outcomes among `calls`. */
  function StallCount(calls: seq<Call>): nat {
    if calls == [] then 0
    else
      var call := calls[|calls| - 1];
      StallCount(calls[..|calls| - 1]) + if call.outcome == Full || call.outcome == Empty then 1 else 0
  }

  function Sum(s: seq<u64>): int {
    if s == [] then 0 else Sum(s[..|s| - 1]) + s[|s| - 1]
  }

  /** The demand series lists the durations of the accepted calls, within capacity. */
  ghost predicate DemandOf(capacity: nat, lane: Lane, accepted: seq<Call>) {
    && |lane.demand| == |accepted| == |AdvanceStarts(accepted)| + StallCount(accepted)
    && |lane.demand| <= capacity
    && lane.stalls == StallCount(accepted)
    && forall k :: 0 <= k < |accepted| ==> accepted[k].end as int - accepted[k].start as int == lane.demand[k]
  }

  /** The issue series lists the gaps between consecutive advances. */
  ghost predicate IssueOf(lane: Lane, starts: seq<u64>) {
    if starts == [] then lane.previous == None && lane.issue == []
    else
      && lane.previous == Some(starts[|starts| - 1])
      && |lane.issue| == |starts| - 1
      && (forall k :: 0 <= k < |lane.issue| ==> lane.issue[k] as int == starts[k + 1] as int - starts[k] as int)
      && Sum(lane.issue) == starts[|starts| - 1] as int - starts[0] as int
  }

  /** What a lane says about the accepted calls behind it. */
  ghost predicate Describes(capacity: nat, lane: Lane, accepted: seq<Call>) {
    DemandOf(capacity, lane, accepted) && IssueOf(lane, AdvanceStarts(accepted))
  }

  lemma ExtendIssue(lane: Lane, starts: seq<u64>, start: u64, next: Lane)
    requires IssueOf(lane, starts)
    requires lane.previous.Some? ==> lane.previous.value <= start
    requires next.previous == Some(start)
    requires next.issue == if lane.previous.Some? then lane.issue + [start - lane.previous.value] else lane.issue
    ensures IssueOf(next, starts + [start])
  {
    if starts != [] {
      assert next.issue[..|next.issue| - 1] == lane.issue;
    }
  }

  lemma {:induction false} ExtendDescribes(capacity: nat, lane: Lane, accepted: seq<Call>, call: Call)
    requires Describes(capacity, lane, accepted) && Accepts(capacity, lane, call)
    ensures Describes(capacity, Extend(lane, call), accepted + [call])
  {
    ExtendDemand(capacity, lane, accepted, call);
    ExtendStarts(accepted, call);
    hide DemandOf, AdvanceStarts;
    if call.outcome == Advanced {
      assert lane.previous.Some? ==> lane.previous.value <= call.start;
      ExtendIssue(lane, AdvanceStarts(accepted), call.start, Extend(lane, call));
    } else {
      StallKeepsIssue(lane, AdvanceStarts(accepted), Extend(lane, call));
    }
    hide IssueOf;
  }

  lemma ExtendDemand(capacity: nat, lane: Lane, accepted: seq<Call>, call: Call)
    requires DemandOf(capacity, lane, accepted) && Accepts(capacity, lane, call)
    requires IssueOf(lane, AdvanceStarts(accepted))
    ensures DemandOf(capacity, Extend(lane, call), accepted + [call])
  {
    var all := accepted + [call];
    assert all[..|all| - 1] == accepted;
  }

  lemma ExtendStarts(accepted: seq<Call>, call: Call)
    ensures AdvanceStarts(accepted + [call])
         == AdvanceStarts(accepted) + if call.outcome == Advanced then [call.start] else []
  {
    var all := accepted + [call];
    assert all[..|all| - 1] == accepted;
  }

  lemma StallKeepsIssue(lane: Lane, starts: seq<u64>, next: Lane)
    requires IssueOf(lane, starts) && next.previous == lane.previous && next.issue == lane.issue
    ensures IssueOf(next, starts)
  {
  }

  /**
   Over every run of calls: demand entries are the accepted calls' durations and number advances
   plus stalls, within capacity; issue gaps are the differences of consecutive advance starts,
   one fewer than the advances, and sum to last minus first.
   */
  lemma {:induction false} TraceLaws(capacity: nat, calls: seq<Call>, worker: Worker)
    ensures Describes(capacity, Replay(capacity, calls, worker), Accepted(capacity, calls, worker))
  {
    if calls != [] {
      var front := calls[..|calls| - 1];
      TraceLaws(capacity, front, worker);
      var call := calls[|calls| - 1];
      var lane := Replay(capacity, front, worker);
      if call.worker == worker && Accepts(capacity, lane, call) {
        ExtendDescribes(capacity, lane, Accepted(capacity, front, worker), call);
      } else {
        assert Accepted(capacity, calls, worker) == Accepted(capacity, front, worker);
      }
    }
  }

  /** The issue-capacity test never refuses a call that the demand-capacity test lets through. */
  lemma IssueTestNeverFiresAlone(capacity: nat, calls: seq<Call>, call: Call)
    requires IssueFull(capacity, Replay(capacity, calls, call.worker), call)
    ensures |Replay(capacity, calls, call.worker).demand| >= capacity
  {
    TraceLaws(capacity, calls, call.worker);
  }

  lemma {:induction false} StartsAscend(lane: Lane, starts: seq<u64>, i: nat, j: nat)
    requires IssueOf(lane, starts) && i <= j < |starts|
    ensures starts[i] <= starts[j]
    decreases j
  {
    if i < j {
      StartsAscend(lane, starts, i, j - 1);
      assert lane.issue[j - 1] as int == starts[j - 1 + 1] as int - starts[j - 1] as int;
    }
  }

  lemma {:induction false} StartListed(calls: seq<Call>, start: u64)
    ensures start in AdvanceStarts(calls) <==> exists c :: c in calls && c.outcome == Advanced && c.start == start
  {
    if calls != [] {
      StartListed(calls[..|calls| - 1], start);
      assert calls == calls[..|calls| - 1] + [calls[|calls| - 1]];
    }
  }

  /**
   Which call is accepted next depends on the accepted calls of its worker alone: it must end no earlier than it
   starts, with an outcome its worker can have, find room, and advance no earlier than any advance before it.
   */
  lemma AcceptedIff(capacity: nat, calls: seq<Call>, call: Call)
    ensures Accepts(capacity, Replay(capacity, calls, call.worker), call) <==>
      && call.start <= call.end
      && (|| call.outcome == Advanced
          || (call.outcome == Full && call.worker == Producer) || (call.outcome == Empty && call.worker == Consumer))
      && |Accepted(capacity, calls, call.worker)| < capacity
      && (call.outcome == Advanced ==>
            forall c :: c in Accepted(capacity, calls, call.worker) && c.outcome == Advanced ==> c.start <= call.start)
  {
    TraceLaws(capacity, calls, call.worker);
    hide Replay, Accepted;
    var lane, done := Replay(capacity, calls, call.worker), Accepted(capacity, calls, call.worker);
    if call.outcome == Advanced {
      LastAdvance(capacity, lane, done, call.start);
    }
    hide AdvanceStarts, StallCount, IssueOf;
    if IssueFull(capacity, lane, call) {
      FewerGaps(capacity, lane, done);
    }
  }

  lemma FewerGaps(capacity: nat, lane: Lane, done: seq<Call>)
    requires Describes(capacity, lane, done) && lane.previous.Some?
    ensures |lane.issue| < |lane.demand|
  {
  }

  lemma LastAdvance(capacity: nat, lane: Lane, done: seq<Call>, start: u64)
    requires Describes(capacity, lane, done)
    ensures (lane.previous.Some? ==> lane.previous.value <= start) <==>
      forall c :: c in done && c.outcome == Advanced ==> c.start <= start
  {
    var starts := AdvanceStarts(done);
    hide DemandOf, AdvanceStarts;
    if starts != [] {
      var last := starts[|starts| - 1];
      assert lane.previous == Some(last);
      StartListed(done, last);
      forall c | c in done && c.outcome == Advanced ensures c.start <= last {
        StartListed(done, c.start);
        var k :| 0 <= k < |starts| && starts[k] == c.start;
        StartsAscend(lane, starts, k, |starts| - 1);
      }
    } else {
      forall c | c in done ensures c.outcome != Advanced {
        StartListed(done, c.start);
      }
    }
  }
}
